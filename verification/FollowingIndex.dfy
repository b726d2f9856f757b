/** The bounded ordered index behind every source of the following feed.

    An index is a Redis sorted set of equal scores, so its order is the lexical order of its
    member strings, which CursorCodec.MemberOrder shows to be the key order.  Beside it stands a
    marker naming the authors a rebuild has loaded.  Both carry an expiry time in milliseconds.
 */
module FollowingIndex {
  import opened Ranking

  /** SHA-256 of the author list, taken to be injective, is the list itself. */
  type Signature = seq<nat>

  datatype Index = Index(members: set<Key>, until: int, ready: Option<Signature>, readyUntil: int)

  const EMPTY := Index({}, 0, None, 0)
  /** 24 hours for the index and 60 seconds for the marker, in milliseconds. */
  const TTL: int := 86_400_000
  const READY_TTL: int := 60_000

  /** What a command running at time `now` finds. */
  function Live(ix: Index, now: int): (live: Index)
    ensures live.members <= ix.members
  {
    Index(if now > ix.until then {} else ix.members, ix.until,
          if now > ix.readyUntil then None else ix.ready, ix.readyUntil)
  }

  /** ZADD of every item, trim to `capacity`, EXPIRE, and SET of the marker for a rebuild. */
  function Append(ix: Index, now: int, items: set<Key>, capacity: nat, signature: Option<Signature>): Index {
    var live := Live(ix, now);
    var members := Newest(live.members + items, capacity);
    Index(members,
          if members == {} then live.until else now + TTL,
          if signature.Some? then signature else live.ready,
          if signature.Some? then now + READY_TTL else live.readyUntil)
  }

  /** The members after the cursor, newest first; None when the index may not be trusted. */
  function Page(ix: Index, now: int, signature: Signature, before: Option<Key>, limit: nat): Option<seq<Key>> {
    var live := Live(ix, now);
    if live.ready != Some(signature) || live.members == {} then None
    else Some(Top(Before(live.members, before), limit))
  }

  lemma NewestIsTrim(pool: set<Key>, capacity: nat)
    ensures |Newest(pool, capacity)| <= capacity
    ensures forall k :: k in pool && k !in Newest(pool, capacity) ==>
              |Newest(pool, capacity)| == capacity && forall m :: m in Newest(pool, capacity) ==> Ahead(m, k)
  {
    NewestCount(pool, capacity);
    ElementsCount(Top(pool, capacity));
  }

  /** One index and its marker, as the scripts change them. */
  class RedisIndex {
    var members: set<Key>
    var until: int
    var ready: Option<Signature>
    var readyUntil: int

    constructor (ix: Index)
      ensures View() == ix
    {
      members, until, ready, readyUntil := ix.members, ix.until, ix.ready, ix.readyUntil;
    }

    function View(): Index
      reads this
    {
      Index(members, until, ready, readyUntil)
    }

    /** Lazy expiry: a command never sees a key whose time has passed. */
    method Expire(now: int)
      modifies this
      ensures View() == Live(old(View()), now)
    {
      if now > until {
        members := {};
      }
      if now > readyUntil {
        ready := None;
      }
    }

    /** The script, command by command. */
    method RunAppend(now: int, items: seq<Key>, capacity: nat, signature: Option<Signature>)
      modifies this
      ensures View() == Append(old(View()), now, Elements(items), capacity, signature)
    {
      Expire(now);
      ghost var live := members;
      var i := 0;
      while i < |items|
        invariant i <= |items|
        invariant members == live + Elements(items[..i])
        invariant until == old(until) && readyUntil == old(readyUntil)
        invariant ready == Live(old(View()), now).ready
      {
        assert items[..i + 1] == items[..i] + [items[i]];
        members := members + {items[i]};
        i := i + 1;
      }
      assert items[..i] == items;
      members := Newest(members, capacity);
      if members != {} {
        until := now + TTL;
      }
      if signature.Some? {
        ready := signature;
        readyUntil := now + READY_TTL;
      }
    }

    /** The same, said of the sorted set and its marker alone: what was there and unexpired, and the items,
        are there, or the set is full of keys listed before them. */
    method AppendFollowing(now: int, items: seq<Key>, capacity: nat, signature: Option<Signature>)
      modifies this
      ensures View() == Append(old(View()), now, Elements(items), capacity, signature)
      ensures |members| <= capacity
      ensures forall k :: k in members ==> k in items || (k in old(members) && now <= old(until))
      ensures forall k :: k in items || (k in old(members) && now <= old(until)) ==>
                || k in members
                || (|members| == capacity
                    && forall m :: m in members ==>
                         || m.major > k.major
                         || (m.major == k.major && (m.minor > k.minor || (m.minor == k.minor && m.id > k.id))))
      ensures members != {} ==> until == now + 86_400_000
      ensures signature.Some? ==> ready == signature && readyUntil == now + 60_000
      ensures signature.None? ==> readyUntil == old(readyUntil) && (now <= readyUntil ==> ready == old(ready))
    {
      NewestIsTrim(Live(View(), now).members + Elements(items), capacity);
      RunAppend(now, items, capacity, signature);
    }

    method ReadFollowing(now: int, signature: Signature, before: Option<Key>, limit: nat) returns (page: Option<seq<Key>>)
      modifies this
      ensures page == Page(old(View()), now, signature, before, limit)
      ensures page.Some? <==> && old(ready) == Some(signature) && now <= old(readyUntil)
                              && old(members) != {} && now <= old(until)
      ensures page.Some? ==> forall k :: k in page.value ==> k in old(members)
      ensures View() == Live(old(View()), now)
    {
      Expire(now);
      if ready != Some(signature) || members == {} {
        return None;
      }
      page := Some(Top(Before(members, before), limit));
    }
  }

  // ---------------------------------------------------------------- the join law

  /** Appends arriving one after another while the index does not expire. */
  function AppendAll(members: set<Key>, batches: seq<set<Key>>, capacity: nat): set<Key>
    decreases |batches|
  {
    if batches == [] then members
    else AppendAll(Newest(members + batches[0], capacity), batches[1..], capacity)
  }

  function Everything(batches: seq<set<Key>>): set<Key> {
    if batches == [] then {} else batches[0] + Everything(batches[1..])
  }

  /** However the members were batched, repeated or ordered, the index holds the newest
      `capacity` of everything ever appended to it. */
  lemma {:induction false} AppendsJoin(members: set<Key>, batches: seq<set<Key>>, capacity: nat)
    requires |members| <= capacity
    ensures AppendAll(members, batches, capacity) == Newest(members + Everything(batches), capacity)
    decreases |batches|
  {
    if batches == [] {
      assert members + Everything(batches) == members;
      NewestCount(members, capacity);
    } else {
      var first, rest := members + batches[0], Everything(batches[1..]);
      NewestCount(first, capacity);
      AppendsJoin(Newest(first, capacity), batches[1..], capacity);
      TrimThenUnion(first, rest, capacity);
      AddUp(members, batches[0], rest);
    }
  }

  lemma AddUp(a: set<Key>, b: set<Key>, c: set<Key>)
    ensures a + b + c == a + (b + c)
  {
  }

  /** Two histories that appended the same members leave the same index. */
  lemma AppendsCommute(members: set<Key>, a: seq<set<Key>>, b: seq<set<Key>>, capacity: nat)
    requires |members| <= capacity && Everything(a) == Everything(b)
    ensures AppendAll(members, a, capacity) == AppendAll(members, b, capacity)
  {
    AppendsJoin(members, a, capacity);
    AppendsJoin(members, b, capacity);
  }

  // ---------------------------------------------------------------- appends over time

  /** One append, by a push or by a rebuild, at its own time. */
  datatype Write = Write(now: int, items: set<Key>, signature: Option<Signature>)

  function Written(ix: Index, w: Write, capacity: nat): Index {
    Append(ix, w.now, w.items, capacity, w.signature)
  }

  function WriteAll(ix: Index, writes: seq<Write>, capacity: nat): Index
    decreases |writes|
  {
    if writes == [] then ix else WriteAll(Written(ix, writes[0], capacity), writes[1..], capacity)
  }

  function ItemsOf(writes: seq<Write>): set<Key> {
    if writes == [] then {} else writes[0].items + ItemsOf(writes[1..])
  }

  /** Each write comes before the expiry the one before it set, or finds nothing to lose. */
  ghost predicate NeverExpires(ix: Index, writes: seq<Write>, capacity: nat)
    decreases |writes|
  {
    writes == []
    || ((writes[0].now <= ix.until || ix.members == {})
        && NeverExpires(Written(ix, writes[0], capacity), writes[1..], capacity))
  }

  /** The join law on the clock: an index that no write finds expired holds the newest `capacity`
      of everything ever appended to it. */
  lemma {:induction false} WritesJoin(ix: Index, writes: seq<Write>, capacity: nat)
    requires |ix.members| <= capacity && NeverExpires(ix, writes, capacity)
    ensures WriteAll(ix, writes, capacity).members == Newest(ix.members + ItemsOf(writes), capacity)
    decreases |writes|
  {
    if writes == [] {
      assert ix.members + ItemsOf(writes) == ix.members;
      NewestCount(ix.members, capacity);
    } else {
      var first, rest := ix.members + writes[0].items, ItemsOf(writes[1..]);
      NewestCount(first, capacity);
      WritesJoin(Written(ix, writes[0], capacity), writes[1..], capacity);
      TrimThenUnion(first, rest, capacity);
      AddUp(ix.members, writes[0].items, rest);
    }
  }

  // ---------------------------------------------------------------- pushes tried again

  /** What reaches one index while a post's fan-out fails and is tried again: a push of the post by
      a failed try, or any other write. */
  datatype Op = Retry(now: int) | Other(write: Write)

  function TimeOf(op: Op): int {
    if op.Retry? then op.now else op.write.now
  }

  function WriteOf(op: Op, k: Key): Write {
    if op.Retry? then Write(op.now, {k}, None) else op.write
  }

  function Writes(ops: seq<Op>, k: Key): seq<Write> {
    if ops == [] then [] else [WriteOf(ops[0], k)] + Writes(ops[1..], k)
  }

  /** The same history without the failed tries. */
  function CleanWrites(ops: seq<Op>): seq<Write> {
    if ops == [] then [] else (if ops[0].Retry? then [] else [ops[0].write]) + CleanWrites(ops[1..])
  }

  predicate InOrder(start: int, ops: seq<Op>, end: int)
    decreases |ops|
  {
    if ops == [] then start <= end else start <= TimeOf(ops[0]) && InOrder(TimeOf(ops[0]), ops[1..], end)
  }

  /** The clean history and then the complete run. */
  function CleanRun(ops: seq<Op>, k: Key, end: int): seq<Write> {
    CleanWrites(ops) + [Write(end, {k}, None)]
  }

  function RetriedRun(ops: seq<Op>, k: Key, end: int): seq<Write> {
    Writes(ops, k) + [Write(end, {k}, None)]
  }

  /** Two indexes that the next push of k makes the same: a has seen tries that b has not. */
  ghost predicate Alike(a: Index, b: Index, k: Key, capacity: nat) {
    && Newest(a.members + {k}, capacity) == Newest(b.members + {k}, capacity)
    && (b.members != {} ==> a.members != {} && a.until >= b.until)
  }

  /** The markers are the same to every command from `now` on. */
  predicate SameMarker(a: Index, b: Index, now: int) {
    a.readyUntil == b.readyUntil && (now <= a.readyUntil ==> a.ready == b.ready)
  }

  lemma JustOne(k: Key, capacity: nat)
    requires capacity > 0
    ensures Newest({k}, capacity) == {k}
  {
    NewestCount({k}, capacity);
  }

  lemma AddThenPush(a: set<Key>, items: set<Key>, k: Key, capacity: nat)
    ensures Newest(Newest(a + items, capacity) + {k}, capacity) == Newest(Newest(a + {k}, capacity) + items, capacity)
  {
    TrimThenUnion(a + items, {k}, capacity);
    TrimThenUnion(a + {k}, items, capacity);
    assert a + items + {k} == a + {k} + items;
  }

  lemma AddedAlike(a: set<Key>, b: set<Key>, items: set<Key>, k: Key, capacity: nat)
    requires Newest(a + {k}, capacity) == Newest(b + {k}, capacity)
    ensures Newest(Newest(a + items, capacity) + {k}, capacity) == Newest(Newest(b + items, capacity) + {k}, capacity)
  {
    AddThenPush(a, items, k, capacity);
    AddThenPush(b, items, k, capacity);
  }

  lemma NewestIsEmpty(pool: set<Key>, capacity: nat)
    requires capacity > 0
    ensures Newest(pool, capacity) == {} <==> pool == {}
  {
    NewestCount(pool, capacity);
  }

  lemma EmptyAlike(a: Index, b: Index, now: int, k: Key, capacity: nat)
    requires capacity > 0 && Alike(a, b, k, capacity) && b.members == {}
    ensures Newest(Live(a, now).members + {k}, capacity) == Newest(Live(b, now).members + {k}, capacity)
  {
    JustOne(k, capacity);
    assert {} + {k} == {k};
  }

  /** While b does not expire, what a write finds in the two is alike. */
  lemma LiveAlike(a: Index, b: Index, now: int, k: Key, capacity: nat)
    requires capacity > 0 && Alike(a, b, k, capacity) && (now <= b.until || b.members == {})
    ensures Newest(Live(a, now).members + {k}, capacity) == Newest(Live(b, now).members + {k}, capacity)
    ensures Live(b, now).members != {} ==> Live(a, now).members != {}
  {
    if b.members == {} {
      EmptyAlike(a, b, now, k, capacity);
    }
  }

  lemma WriteAlike(a: Index, b: Index, w: Write, k: Key, capacity: nat)
    requires capacity > 0 && Alike(a, b, k, capacity) && (w.now <= b.until || b.members == {})
    ensures Alike(Written(a, w, capacity), Written(b, w, capacity), k, capacity)
  {
    LiveAlike(a, b, w.now, k, capacity);
    AddedAlike(Live(a, w.now).members, Live(b, w.now).members, w.items, k, capacity);
    NewestIsEmpty(Live(a, w.now).members + w.items, capacity);
    NewestIsEmpty(Live(b, w.now).members + w.items, capacity);
  }

  /** A failed try changes nothing that the complete run will not change anyway. */
  lemma RetryAlike(a: Index, b: Index, now: int, k: Key, capacity: nat)
    requires capacity > 0 && Alike(a, b, k, capacity) && (now <= b.until || b.members == {})
    requires b.until <= now + TTL
    ensures Alike(Written(a, Write(now, {k}, None), capacity), b, k, capacity)
  {
    var live := Live(a, now).members;
    TrimThenUnion(live + {k}, {k}, capacity);
    assert live + {k} + {k} == live + {k};
    NewestIsEmpty(live + {k}, capacity);
    LiveAlike(a, b, now, k, capacity);
  }

  lemma FinalAlike(a: Index, b: Index, now: int, k: Key, capacity: nat)
    requires capacity > 0 && Alike(a, b, k, capacity) && (now <= b.until || b.members == {})
    requires SameMarker(a, b, now)
    ensures Written(a, Write(now, {k}, None), capacity) == Written(b, Write(now, {k}, None), capacity)
  {
    LiveAlike(a, b, now, k, capacity);
    NewestIsEmpty(Live(a, now).members + {k}, capacity);
    NewestIsEmpty(Live(b, now).members + {k}, capacity);
  }

  lemma FirstIsAlive(b: Index, start: int, ops: seq<Op>, k: Key, end: int, capacity: nat)
    requires InOrder(start, ops, end) && NeverExpires(b, CleanRun(ops, k, end), capacity)
    ensures start <= b.until || b.members == {}
    decreases |ops|
  {
    if ops != [] && ops[0].Retry? {
      assert CleanRun(ops, k, end) == CleanRun(ops[1..], k, end);
      FirstIsAlive(b, ops[0].now, ops[1..], k, end, capacity);
    } else if ops != [] {
      assert CleanRun(ops, k, end)[0] == ops[0].write;
    }
  }

  lemma CleanRunNext(ops: seq<Op>, k: Key, end: int)
    requires ops != []
    ensures ops[0].Retry? ==> CleanRun(ops, k, end) == CleanRun(ops[1..], k, end)
    ensures ops[0].Other? ==> CleanRun(ops, k, end) == [ops[0].write] + CleanRun(ops[1..], k, end)
    ensures RetriedRun(ops, k, end) == [WriteOf(ops[0], k)] + RetriedRun(ops[1..], k, end)
  {
    var last, rest := [Write(end, {k}, None)], ops[1..];
    assert [WriteOf(ops[0], k)] + Writes(rest, k) + last == [WriteOf(ops[0], k)] + (Writes(rest, k) + last);
    if ops[0].Retry? {
      assert [] + CleanWrites(rest) == CleanWrites(rest);
    } else {
      assert [ops[0].write] + CleanWrites(rest) + last == [ops[0].write] + (CleanWrites(rest) + last);
    }
  }

  lemma {:induction false} RetriesVanish(a: Index, b: Index, start: int, ops: seq<Op>, k: Key, end: int, capacity: nat)
    requires capacity > 0 && Alike(a, b, k, capacity) && SameMarker(a, b, start)
    requires InOrder(start, ops, end) && b.until <= start + TTL
    requires NeverExpires(b, CleanRun(ops, k, end), capacity)
    ensures WriteAll(a, RetriedRun(ops, k, end), capacity) == WriteAll(b, CleanRun(ops, k, end), capacity)
    decreases |ops|
  {
    if ops == [] {
      var last := Write(end, {k}, None);
      assert RetriedRun(ops, k, end) == [last] && CleanRun(ops, k, end) == [last] && [last][1..] == [];
      FinalAlike(a, b, end, k, capacity);
    } else {
      var w, rest := WriteOf(ops[0], k), ops[1..];
      var a' := Written(a, w, capacity);
      CleanRunNext(ops, k, end);
      assert ([w] + RetriedRun(rest, k, end))[1..] == RetriedRun(rest, k, end);
      if ops[0].Retry? {
        FirstIsAlive(b, w.now, rest, k, end, capacity);
        RetryAlike(a, b, w.now, k, capacity);
        RetriesVanish(a', b, w.now, rest, k, end, capacity);
      } else {
        assert ([w] + CleanRun(rest, k, end))[1..] == CleanRun(rest, k, end);
        WriteAlike(a, b, w, k, capacity);
        RetriesVanish(a', Written(b, w, capacity), w.now, rest, k, end, capacity);
      }
    }
  }

  /** Failed tries of a push, at any times and with any other writes between them, leave no trace
      after the complete run, as long as the index does not expire between the first try and it. */
  lemma RetriedIndex(ix: Index, start: int, ops: seq<Op>, k: Key, end: int, capacity: nat)
    requires capacity > 0 && InOrder(start, ops, end) && ix.until <= start + TTL
    requires NeverExpires(Live(ix, start), CleanRun(ops, k, end), capacity)
    ensures WriteAll(ix, RetriedRun(ops, k, end), capacity) == WriteAll(ix, CleanRun(ops, k, end), capacity)
  {
    var live := Live(ix, start);
    RetriesVanish(live, live, start, ops, k, end, capacity);
    AlreadyLive(ix, start, WriteOf(if ops == [] then Retry(end) else ops[0], k).now, RetriedRun(ops, k, end), capacity);
    CleanRunLater(start, ops, k, end);
    AlreadyLive(ix, start, CleanRun(ops, k, end)[0].now, CleanRun(ops, k, end), capacity);
  }

  lemma {:induction false} CleanRunLater(start: int, ops: seq<Op>, k: Key, end: int)
    requires InOrder(start, ops, end)
    ensures start <= CleanRun(ops, k, end)[0].now
    decreases |ops|
  {
    if ops != [] {
      CleanRunNext(ops, k, end);
      if ops[0].Retry? {
        CleanRunLater(TimeOf(ops[0]), ops[1..], k, end);
      }
    }
  }

  lemma {:induction false} WriteAllSplit(ix: Index, a: seq<Write>, b: seq<Write>, capacity: nat)
    ensures WriteAll(ix, a + b, capacity) == WriteAll(WriteAll(ix, a, capacity), b, capacity)
    decreases |a|
  {
    if a == [] {
      assert a + b == b;
    } else {
      assert (a + b)[1..] == a[1..] + b;
      WriteAllSplit(Written(ix, a[0], capacity), a[1..], b, capacity);
    }
  }

  lemma {:induction false} WritesSplit(a: seq<Op>, b: seq<Op>, k: Key)
    ensures Writes(a + b, k) == Writes(a, k) + Writes(b, k)
    ensures CleanWrites(a + b) == CleanWrites(a) + CleanWrites(b)
    decreases |a|
  {
    if a == [] {
      assert a + b == b;
    } else {
      assert (a + b)[0] == a[0] && (a + b)[1..] == a[1..] + b;
      WritesSplit(a[1..], b, k);
    }
  }

  lemma {:induction false} InOrderSplit(start: int, ops: seq<Op>, end: int, i: nat)
    requires InOrder(start, ops, end) && i < |ops|
    ensures InOrder(start, ops[..i], TimeOf(ops[i])) && InOrder(TimeOf(ops[i]), ops[i + 1..], end)
    decreases |ops|
  {
    if i > 0 {
      InOrderSplit(TimeOf(ops[0]), ops[1..], end, i - 1);
      assert ops[1..][..i - 1] == ops[..i][1..] && ops[1..][i..] == ops[i + 1..];
    }
  }

  /** The push at i makes good the failed try that opens the history, and nothing expires before it. */
  ghost predicate Settles(ix: Index, ops: seq<Op>, i: nat, k: Key, capacity: nat) {
    && 0 < i < |ops| && ops[0].Retry? && ops[i] == Other(Write(TimeOf(ops[i]), {k}, None))
    && NeverExpires(Live(ix, ops[0].now), CleanWrites(ops[..i + 1]), capacity)
  }

  /** Every failed try is made good later. */
  ghost predicate Settled(ix: Index, ops: seq<Op>, k: Key, capacity: nat)
    decreases |ops|
  {
    if ops == [] then true
    else if ops[0].Other? then Settled(Written(ix, ops[0].write, capacity), ops[1..], k, capacity)
    else exists i: nat :: Settles(ix, ops, i, k, capacity)
                          && Settled(WriteAll(ix, CleanWrites(ops[..i + 1]), capacity), ops[i + 1..], k, capacity)
  }

  /** Histories that leave the same index, one after the other, leave the same index. */
  lemma VanishInTurn(ix: Index, a: seq<Op>, b: seq<Op>, k: Key, capacity: nat)
    requires Vanish(ix, a, k, capacity) && Vanish(WriteAll(ix, CleanWrites(a), capacity), b, k, capacity)
    ensures Vanish(ix, a + b, k, capacity)
  {
    WritesSplit(a, b, k);
    WriteAllSplit(ix, Writes(a, k), Writes(b, k), capacity);
    WriteAllSplit(ix, CleanWrites(a), CleanWrites(b), capacity);
  }

  lemma PushLast(ops: seq<Op>, at: int, k: Key)
    ensures Writes(ops + [Other(Write(at, {k}, None))], k) == RetriedRun(ops, k, at)
    ensures CleanWrites(ops + [Other(Write(at, {k}, None))]) == CleanRun(ops, k, at)
  {
    var last := Other(Write(at, {k}, None));
    WritesSplit(ops, [last], k);
    assert Writes([last], k) == [last.write] == CleanWrites([last]);
  }

  lemma UntilAfter(ix: Index, ops: seq<Op>, k: Key, at: int, capacity: nat)
    requires capacity > 0
    ensures WriteAll(ix, CleanRun(ops, k, at), capacity).until == at + TTL
  {
    var before := WriteAll(ix, CleanWrites(ops), capacity);
    WriteAllSplit(ix, CleanWrites(ops), [Write(at, {k}, None)], capacity);
    assert [Write(at, {k}, None)][1..] == [];
    NewestIsEmpty(Live(before, at).members + {k}, capacity);
  }

  /** One try and the push that makes it good, with whatever came between them. */
  lemma OneTryVanishes(ix: Index, start: int, ops: seq<Op>, i: nat, k: Key, end: int, capacity: nat)
    requires capacity > 0 && InOrder(start, ops, end) && ix.until <= start + TTL && Settles(ix, ops, i, k, capacity)
    ensures Vanish(ix, ops[..i + 1], k, capacity)
    ensures WriteAll(ix, CleanWrites(ops[..i + 1]), capacity).until == TimeOf(ops[i]) + TTL
    ensures InOrder(TimeOf(ops[i]), ops[i + 1..], end)
  {
    var first, at := ops[0].now, TimeOf(ops[i]);
    InOrderSplit(first, ops, end, i);
    assert ops[..i + 1] == ops[..i] + [Other(Write(at, {k}, None))];
    PushLast(ops[..i], at, k);
    UntilAfter(ix, ops[..i], k, at, capacity);
    RetriedIndex(ix, first, ops[..i], k, at, capacity);
  }

  /** The failed tries leave no trace. */
  ghost predicate Vanish(ix: Index, ops: seq<Op>, k: Key, capacity: nat) {
    WriteAll(ix, Writes(ops, k), capacity) == WriteAll(ix, CleanWrites(ops), capacity)
  }

  lemma OtherFirst(ix: Index, ops: seq<Op>, k: Key, capacity: nat)
    requires ops != [] && ops[0].Other? && Vanish(Written(ix, ops[0].write, capacity), ops[1..], k, capacity)
    ensures Vanish(ix, ops, k, capacity)
  {
    assert Writes(ops, k)[1..] == Writes(ops[1..], k) && CleanWrites(ops)[1..] == CleanWrites(ops[1..]);
  }

  lemma MadeGood(ix: Index, start: int, ops: seq<Op>, k: Key, end: int, capacity: nat)
    returns (done: seq<Op>, rest: seq<Op>, next: Index, at: int)
    requires capacity > 0 && InOrder(start, ops, end) && ix.until <= start + TTL && Settled(ix, ops, k, capacity)
    requires ops != [] && ops[0].Retry?
    ensures ops == done + rest && |rest| < |ops| && Vanish(ix, done, k, capacity)
    ensures next == WriteAll(ix, CleanWrites(done), capacity) && next.until == at + TTL
    ensures InOrder(at, rest, end) && Settled(next, rest, k, capacity)
  {
    var i: nat :| Settles(ix, ops, i, k, capacity)
                  && Settled(WriteAll(ix, CleanWrites(ops[..i + 1]), capacity), ops[i + 1..], k, capacity);
    done, rest, next, at := MadeGoodBy(ix, start, ops, i, k, end, capacity);
    assert ops == ops[..i + 1] + ops[i + 1..];
  }

  lemma MadeGoodBy(ix: Index, start: int, ops: seq<Op>, i: nat, k: Key, end: int, capacity: nat)
    returns (done: seq<Op>, rest: seq<Op>, next: Index, at: int)
    requires capacity > 0 && InOrder(start, ops, end) && ix.until <= start + TTL && Settles(ix, ops, i, k, capacity)
    ensures i < |ops| && done == ops[..i + 1] && rest == ops[i + 1..]
    ensures Vanish(ix, done, k, capacity) && InOrder(at, rest, end)
    ensures next == WriteAll(ix, CleanWrites(done), capacity) && next.until == at + TTL
  {
    OneTryVanishes(ix, start, ops, i, k, end, capacity);
    done, rest, next, at := ops[..i + 1], ops[i + 1..], WriteAll(ix, CleanWrites(ops[..i + 1]), capacity), TimeOf(ops[i]);
  }

  /** Failed tries that are all made good leave no trace, whatever else is written to the index. */
  lemma {:induction false} SettledTriesVanish(ix: Index, start: int, ops: seq<Op>, k: Key, end: int, capacity: nat)
    requires capacity > 0 && InOrder(start, ops, end) && ix.until <= start + TTL && Settled(ix, ops, k, capacity)
    ensures Vanish(ix, ops, k, capacity)
    decreases |ops|
  {
    if ops != [] && ops[0].Other? {
      var w := ops[0].write;
      SettledTriesVanish(Written(ix, w, capacity), w.now, ops[1..], k, end, capacity);
      OtherFirst(ix, ops, k, capacity);
    } else if ops != [] {
      var done, rest, next, at := MadeGood(ix, start, ops, k, end, capacity);
      SettledTriesVanish(next, at, rest, k, end, capacity);
      VanishInTurn(ix, done, rest, k, capacity);
    }
  }

  /** Expiring the keys first makes no difference to a later write. */
  lemma AlreadyLive(ix: Index, start: int, now: int, writes: seq<Write>, capacity: nat)
    requires writes != [] && writes[0].now == now >= start
    ensures WriteAll(Live(ix, start), writes, capacity) == WriteAll(ix, writes, capacity)
  {
    assert Written(Live(ix, start), writes[0], capacity) == Written(ix, writes[0], capacity);
  }

  /** One early push at t, and then the push at `now`. */
  function Pushed(ix: Index, now: int, k: Key, capacity: nat): Index {
    Append(ix, now, {k}, capacity, None)
  }

  /** Exactly when an early push shows: the index expires for one of the two histories only, and
      had more to lose than the post itself. */
  lemma EarlyPushShows(ix: Index, t: int, now: int, k: Key, capacity: nat)
    requires capacity > 0 && t <= now
    ensures Pushed(Pushed(ix, t, k, capacity), now, k, capacity) != Pushed(ix, now, k, capacity)
       <==> && Newest(ix.members + {k}, capacity) != {k}
            && (t <= ix.until < now <= t + TTL || t + TTL < now <= ix.until)
  {
    JustOne(k, capacity);
    assert {} + {k} == {k};
    NewestIsEmpty(Live(ix, t).members + {k}, capacity);
    NewestIsEmpty(Live(ix, now).members + {k}, capacity);
    TrimThenUnion(ix.members + {k}, {k}, capacity);
    assert ix.members + {k} + {k} == ix.members + {k};
    TrimThenUnion({k}, {k}, capacity);
    assert {k} + {k} == {k};
  }

  /** Such an index: one older post, expiring between the failed try and the complete run. */
  lemma EarlyPushWitness(older: Key, k: Key, t: int)
    requires Ahead(k, older)
    ensures var ix := Index({older}, t, None, 0);
            && Pushed(ix, t + 1, k, 2).members == {k}
            && Pushed(Pushed(ix, t, k, 2), t + 1, k, 2).members == {k, older}
  {
    var pool := {older} + {k};
    assert pool == {k, older};
    NewestCount(pool, 2);
    assert {} + {k} == {k};
    NewestCount({k}, 2);
    assert pool + {k} == pool;
  }

  /** Appending the same member again at the same moment changes nothing at all. */
  lemma AppendTwice(ix: Index, now: int, items: set<Key>, capacity: nat)
    ensures Append(Append(ix, now, items, capacity, None), now, items, capacity, None)
         == Append(ix, now, items, capacity, None)
  {
    var once := Append(ix, now, items, capacity, None);
    var pool := Live(ix, now).members + items;
    TrimThenUnion(pool, items, capacity);
    assert pool + items == pool;
    assert Newest({}, capacity) == {};
    if once.members == {} {
      NewestCount(pool, capacity);
      assert Live(once, now).members == {};
      EmptyTrim(pool, items, capacity);
    }
  }

  lemma EmptyTrim(pool: set<Key>, items: set<Key>, capacity: nat)
    requires items <= pool && Newest(pool, capacity) == {}
    ensures Newest(items, capacity) == {}
  {
    NewestCount(pool, capacity);
    NewestCount(items, capacity);
  }

  // ---------------------------------------------------------------- the global timeline

  const TIMELINE_CAPACITY: nat := 1000

  // Redis orders equal scores by the member text, here the unpadded decimal id, so "10" comes before
  // "9".  The minor column of a timeline key is the place of its text; the results below hold for
  // whatever order it gives, and for distinct scores it is immaterial.

  function Untied(k: Key): Key {
    Key(k.major, 0, k.id)
  }

  function UntiedAll(keys: set<Key>): set<Key> {
    set k | k in keys :: Untied(k)
  }

  predicate SameScore(a: Key, b: Key) {
    a.major == b.major
  }

  ghost predicate DistinctScores(keys: set<Key>) {
    forall a, b {:trigger SameScore(a, b)} :: a in keys && b in keys && SameScore(a, b) ==> a == b
  }

  /** With distinct scores the tie order does not show in what is trimmed. */
  lemma TieOrderIsImmaterial(keys: set<Key>, capacity: nat)
    requires DistinctScores(keys)
    ensures UntiedAll(Newest(keys, capacity)) == Newest(UntiedAll(keys), capacity)
  {
    var page := Top(keys, capacity);
    var plain := seq(|page|, i requires 0 <= i < |page| => Untied(page[i]));
    UntiedPage(keys, capacity, page, plain);
    TopUnique(UntiedAll(keys), capacity, plain, Top(UntiedAll(keys), capacity));
    forall k | k in Elements(page) ensures Untied(k) in plain {
      var i :| 0 <= i < |page| && page[i] == k;
      assert plain[i] == Untied(k);
    }
    forall q | q in plain ensures q in UntiedAll(Newest(keys, capacity)) {
      var i :| 0 <= i < |plain| && plain[i] == q;
      assert page[i] in page && q == Untied(page[i]);
    }
  }

  lemma UntiedPage(keys: set<Key>, capacity: nat, page: seq<Key>, plain: seq<Key>)
    requires DistinctScores(keys) && IsTop(keys, capacity, page)
    requires |plain| == |page| && forall i :: 0 <= i < |page| ==> plain[i] == Untied(page[i])
    ensures IsTop(UntiedAll(keys), capacity, plain)
  {
    forall i, j | 0 <= i < j < |plain| ensures Ahead(plain[i], plain[j]) {
      assert page[i] in page && page[j] in page && Ahead(page[i], page[j]);
      assert !SameScore(page[i], page[j]);
    }
    forall k | k in keys && Untied(k) !in plain ensures |plain| == capacity && AllAhead(plain, Untied(k)) {
      forall i | 0 <= i < |page| ensures page[i] != k && plain[i] in plain {
        assert plain[i] == Untied(page[i]);
      }
      forall i | 0 <= i < |page| ensures Ahead(plain[i], Untied(k)) {
        assert page[i] in page && Ahead(page[i], k) && !SameScore(page[i], k);
      }
    }
    forall q | q in plain ensures q in UntiedAll(keys) {
      var i :| 0 <= i < |plain| && plain[i] == q;
      assert page[i] in page;
    }
  }

  /** The timeline consumer's two commands; other consumers may run between them. */
  datatype TimelineStep = Add(key: Key) | Trim

  /** ZADD gives an id already present its new score. */
  function TimelineNext(members: set<Key>, step: TimelineStep, capacity: nat): set<Key> {
    match step
    case Add(key) => (set k | k in members && k.id != key.id) + {key}
    case Trim => Newest(members, capacity)
  }

  function TimelineRun(members: set<Key>, steps: seq<TimelineStep>, capacity: nat): set<Key>
    decreases |steps|
  {
    if steps == [] then members
    else TimelineRun(TimelineNext(members, steps[0], capacity), steps[1..], capacity)
  }

  function Added(steps: seq<TimelineStep>): set<Key> {
    if steps == [] then {}
    else (if steps[0].Add? then {steps[0].key} else {}) + Added(steps[1..])
  }

  /** Each video is always added with the same create time. */
  ghost predicate ScoresAreStable(keys: set<Key>) {
    forall a, b :: a in keys && b in keys && a.id == b.id ==> a == b
  }

  lemma {:induction false} TimelineJoins(members: set<Key>, steps: seq<TimelineStep>, capacity: nat)
    requires ScoresAreStable(members + Added(steps))
    ensures Newest(TimelineRun(members, steps, capacity), capacity)
         == Newest(members + Added(steps), capacity)
    decreases |steps|
  {
    if steps == [] {
      assert members + Added(steps) == members;
    } else {
      var next := TimelineNext(members, steps[0], capacity);
      var rest := Added(steps[1..]);
      match steps[0] {
        case Add(key) =>
          assert key in Added(steps);
          assert next == members + {key} by {
            assert forall k :: k in members && k.id == key.id ==> k == key;
          }
          assert next + rest == members + Added(steps);
        case Trim =>
          TrimThenUnion(members, rest, capacity);
          assert members + rest == members + Added(steps);
      }
      TimelineJoins(next, steps[1..], capacity);
    }
  }

  /** After the last consumer has trimmed, the timeline is the newest 1000 videos ever added,
      whatever the order, the redeliveries and the interleaving of the two commands. */
  lemma TimelineIsNewest(steps: seq<TimelineStep>)
    requires ScoresAreStable(Added(steps))
    ensures Newest(TimelineRun({}, steps, TIMELINE_CAPACITY), TIMELINE_CAPACITY)
         == Newest(Added(steps), TIMELINE_CAPACITY)
    ensures TimelineRun({}, steps + [Trim], TIMELINE_CAPACITY) == Newest(Added(steps), TIMELINE_CAPACITY)
  {
    assert {} + Added(steps) == Added(steps);
    TimelineJoins({}, steps, TIMELINE_CAPACITY);
    RunThenTrim({}, steps, TIMELINE_CAPACITY);
  }

  lemma {:induction false} RunThenTrim(members: set<Key>, steps: seq<TimelineStep>, capacity: nat)
    ensures TimelineRun(members, steps + [Trim], capacity) == Newest(TimelineRun(members, steps, capacity), capacity)
    decreases |steps|
  {
    if steps == [] {
      assert steps + [Trim] == [Trim];
      assert [Trim][1..] == [];
    } else {
      assert (steps + [Trim])[1..] == steps[1..] + [Trim];
      RunThenTrim(TimelineNext(members, steps[0], capacity), steps[1..], capacity);
    }
  }

  lemma LastScoreWins(a: Key, b: Key, capacity: nat)
    requires a.id == b.id
    ensures TimelineRun({}, [Add(a), Add(b)], capacity) == {b}
  {
    assert [Add(a), Add(b)][1..] == [Add(b)] && [Add(b)][1..] == [];
    assert TimelineNext({}, Add(a), capacity) == {a};
    assert TimelineNext({a}, Add(b), capacity) == {b};
    assert TimelineRun({a}, [Add(b)], capacity) == TimelineRun({b}, [], capacity);
  }

  /** Were a video re-added with another score, the order of delivery would matter. */
  lemma UnstableScoresDoNotJoin(a: Key, b: Key, capacity: nat)
    requires a.id == b.id && a != b
    ensures TimelineRun({}, [Add(a), Add(b)], capacity) != TimelineRun({}, [Add(b), Add(a)], capacity)
  {
    LastScoreWins(a, b, capacity);
    LastScoreWins(b, a, capacity);
    assert a in {a} && a !in {b};
  }
}
