/** How stale a ready index can be.

    A run mixes, in any order, posts being inserted and deleted, time passing, pushes of any
    members (late, early or repeated), and any number of rebuilds that each read the database at
    one moment and write the index at another, or never.
 */
module IndexStaleness {
  import opened Ranking
  import opened FeedDatabase
  import opened FollowingIndex

  /** A rebuild in flight: whom it reads, what it read, and when. */
  datatype Rebuild = Rebuild(authors: Signature, items: set<Key>, taken: nat)

  /** born numbers the insertions; markerTaken is the number reached when the rebuild that set
      the current marker read the database. */
  datatype World = World(videos: Videos, born: map<nat, nat>, stamp: nat, now: int,
                         index: Index, flying: map<nat, Rebuild>, markerTaken: nat)

  datatype Step =
    | Insert(id: nat, row: Row)
    | Delete(id: nat)
    | Pass(until: int)
    | Push(items: set<Key>)
    | Begin(token: nat, authors: Signature)
    | Finish(token: nat)
    | Lose(token: nat)

  function Start(now: int): World {
    World(map[], map[], 0, now, EMPTY, map[], 0)
  }

  function AuthorSet(authors: Signature): set<nat> {
    set a | a in authors
  }

  function Next(w: World, step: Step, capacity: nat): World {
    match step
    case Insert(id, row) =>
      // Primary keys are never given out twice.
      if id in w.born then w
      else w.(videos := w.videos[id := row], born := w.born[id := w.stamp], stamp := w.stamp + 1)
    case Delete(id) => w.(videos := w.videos - {id})
    case Pass(until) => if until < w.now then w else w.(now := until)
    case Push(items) => w.(index := Append(w.index, w.now, items, capacity, None))
    case Begin(token, authors) =>
      var items := Elements(Query(w.videos, AuthorSet(authors), None, capacity));
      w.(flying := w.flying[token := Rebuild(authors, items, w.stamp)])
    case Finish(token) =>
      if token !in w.flying then w
      else
        var r := w.flying[token];
        w.(index := Append(w.index, w.now, r.items, capacity, Some(r.authors)),
           flying := w.flying - {token}, markerTaken := r.taken)
    case Lose(token) => w.(flying := w.flying - {token})
  }

  function Run(w: World, steps: seq<Step>, capacity: nat): World
    decreases |steps|
  {
    if steps == [] then w else Run(Next(w, steps[0], capacity), steps[1..], capacity)
  }

  /** k is present, or the members are full of keys listed before it. */
  ghost predicate Accounts(members: set<Key>, capacity: nat, k: Key) {
    k in members || Outranks(members, members, capacity, k)
  }

  /** The members account for every surviving post of these authors inserted before `taken`. */
  ghost predicate Covers(w: World, capacity: nat, members: set<Key>, authors: Signature, taken: nat) {
    forall id :: id in w.videos && w.videos[id].author in authors && id in w.born && w.born[id] < taken
             ==> Accounts(members, capacity, FeedKey(id, w.videos[id]))
  }

  ghost predicate Numbered(w: World) {
    && (forall id :: id in w.videos ==> id in w.born)
    && (forall id :: id in w.born ==> w.born[id] < w.stamp)
  }

  ghost predicate FlyingCovers(w: World, capacity: nat) {
    forall t :: t in w.flying ==>
      && w.flying[t].taken <= w.stamp
      && Covers(w, capacity, w.flying[t].items, w.flying[t].authors, w.flying[t].taken)
  }

  ghost predicate MarkerCovers(w: World, capacity: nat) {
    w.index.ready.Some? && w.now <= w.index.readyUntil ==>
      && w.markerTaken <= w.stamp
      && w.index.readyUntil <= w.now + READY_TTL
      && (w.index.members != {} ==> w.index.readyUntil <= w.index.until)
      && Covers(w, capacity, w.index.members, w.index.ready.value, w.markerTaken)
  }

  ghost predicate Inv(w: World, capacity: nat) {
    Numbered(w) && FlyingCovers(w, capacity) && MarkerCovers(w, capacity)
  }

  /** A union trimmed to capacity accounts for whatever either part accounted for. */
  lemma UnionAccounts(part: set<Key>, pool: set<Key>, capacity: nat, k: Key)
    requires part <= pool && Accounts(part, capacity, k)
    ensures Accounts(Newest(pool, capacity), capacity, k)
  {
    NewestCount(pool, capacity);
    if k in pool {
      if k !in Newest(pool, capacity) {
        TrimmedIsOutranked(pool, capacity, k);
      }
    } else {
      OutrankedByPage(pool, capacity, k, part);
      ElementsCount(Top(pool, capacity));
    }
  }

  lemma AppendCovers(w: World, capacity: nat, part: set<Key>, pool: set<Key>, authors: Signature, taken: nat)
    requires part <= pool && Covers(w, capacity, part, authors, taken)
    ensures Covers(w, capacity, Newest(pool, capacity), authors, taken)
  {
    forall id | id in w.videos && w.videos[id].author in authors && id in w.born && w.born[id] < taken
      ensures Accounts(Newest(pool, capacity), capacity, FeedKey(id, w.videos[id]))
    {
      UnionAccounts(part, pool, capacity, FeedKey(id, w.videos[id]));
    }
  }

  /** A rebuild accounts for every post in the database when it reads. */
  lemma SnapshotCovers(w: World, capacity: nat, authors: Signature)
    requires Numbered(w)
    ensures Covers(w, capacity, Elements(Query(w.videos, AuthorSet(authors), None, capacity)), authors, w.stamp)
  {
    var pool := ByAuthors(w.videos, AuthorSet(authors));
    assert Before(pool, None) == pool;
    forall id | id in w.videos && w.videos[id].author in authors && id in w.born && w.born[id] < w.stamp
      ensures Accounts(Newest(pool, capacity), capacity, FeedKey(id, w.videos[id]))
    {
      var k := FeedKey(id, w.videos[id]);
      assert k in pool;
      if k !in Newest(pool, capacity) {
        TrimmedIsOutranked(pool, capacity, k);
      }
    }
  }

  lemma TableStep(w: World, step: Step, capacity: nat)
    requires Inv(w, capacity) && (step.Insert? || step.Delete?)
    ensures Inv(Next(w, step, capacity), capacity)
  {
    var after := Next(w, step, capacity);
    forall members, authors, taken: nat | taken <= w.stamp && Covers(w, capacity, members, authors, taken)
      ensures Covers(after, capacity, members, authors, taken)
    {
    }
  }

  lemma PushStep(w: World, items: set<Key>, capacity: nat)
    requires Inv(w, capacity)
    ensures Inv(Next(w, Push(items), capacity), capacity)
  {
    var after := Next(w, Push(items), capacity);
    var live := Live(w.index, w.now);
    if after.index.ready.Some? && w.now <= after.index.readyUntil {
      assert live.members == w.index.members;
      AppendCovers(w, capacity, live.members, live.members + items, live.ready.value, w.markerTaken);
      assert Covers(after, capacity, after.index.members, after.index.ready.value, after.markerTaken);
    }
    assert FlyingCovers(after, capacity) by {
      assert after.flying == w.flying;
    }
  }

  lemma FinishStep(w: World, token: nat, capacity: nat)
    requires Inv(w, capacity) && token in w.flying
    ensures Inv(Next(w, Finish(token), capacity), capacity)
  {
    var r := w.flying[token];
    var live := Live(w.index, w.now);
    AppendCovers(w, capacity, r.items, live.members + r.items, r.authors, r.taken);
  }

  lemma StepKeepsInv(w: World, step: Step, capacity: nat)
    requires Inv(w, capacity)
    ensures Inv(Next(w, step, capacity), capacity)
  {
    match step {
      case Insert(_, _) => TableStep(w, step, capacity);
      case Delete(_) => TableStep(w, step, capacity);
      case Pass(_) =>
      case Push(items) => PushStep(w, items, capacity);
      case Begin(_, authors) => SnapshotCovers(w, capacity, authors);
      case Finish(token) => if token in w.flying { FinishStep(w, token, capacity); }
      case Lose(_) =>
    }
  }

  lemma {:induction false} RunKeepsInv(w: World, steps: seq<Step>, capacity: nat)
    requires Inv(w, capacity)
    ensures Inv(Run(w, steps, capacity), capacity)
    decreases |steps|
  {
    if steps != [] {
      StepKeepsInv(w, steps[0], capacity);
      RunKeepsInv(Next(w, steps[0], capacity), steps[1..], capacity);
    }
  }

  /** The index lacks a surviving post that belongs above one of its members. */
  ghost predicate Lacks(members: set<Key>, k: Key) {
    k !in members && exists m :: m in members && Ahead(k, m)
  }

  /** In every run: whatever a ready index lacks above its oldest member was inserted after the
      database snapshot of the rebuild that set its marker. */
  lemma BoundedStaleness(now: int, steps: seq<Step>, capacity: nat, authors: Signature, id: nat)
    requires var w := Run(Start(now), steps, capacity);
             && Live(w.index, w.now).ready == Some(authors)
             && id in w.videos && w.videos[id].author in authors
             && Lacks(Live(w.index, w.now).members, FeedKey(id, w.videos[id]))
    ensures var w := Run(Start(now), steps, capacity);
            id in w.born && w.markerTaken <= w.born[id]
  {
    RunKeepsInv(Start(now), steps, capacity);
    var w := Run(Start(now), steps, capacity);
    var k := FeedKey(id, w.videos[id]);
    var live := Live(w.index, w.now).members;
    assert live == w.index.members;
    var m :| m in live && Ahead(k, m);
    assert !Outranks(live, live, capacity, k);
  }

  /** While a marker lives its index has not expired under it. */
  lemma MarkerOutlivedByIndex(now: int, steps: seq<Step>, capacity: nat)
    ensures var w := Run(Start(now), steps, capacity);
            Live(w.index, w.now).ready.Some? ==> Live(w.index, w.now).members == w.index.members
  {
    RunKeepsInv(Start(now), steps, capacity);
  }
}
