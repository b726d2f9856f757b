/** The bounded k-way merge of the following feed.

    `Merge` keeps one frontier entry per unfinished source in a binary heap laid out in a slice.
    The sift loops are those of Go's container/heap, driven by the slice's own Less, Swap, Push
    and Pop.
 */
module MergeHeap {
  import opened Ranking

  /** The key at position pos of a source. */
  datatype Entry = Entry(v: Key, source: nat, pos: nat)

  predicate Less(a: Entry, b: Entry) {
    Ahead(a.v, b.v)
  }

  function Parent(j: nat): nat
    requires j > 0
  {
    (j - 1) / 2
  }

  /** No entry of s[..n] below `lo` is listed before its parent. */
  predicate HeapFrom(s: seq<Entry>, lo: nat, n: nat)
    requires n <= |s|
  {
    forall j :: 0 < j < n && Parent(j) >= lo ==> !Less(s[j], s[Parent(j)])
  }

  predicate IsHeap(s: seq<Entry>) {
    HeapFrom(s, 0, |s|)
  }

  /** The root of a heap is listed before everything else in it. */
  lemma {:induction false} RootIsFirst(s: seq<Entry>, k: nat)
    requires IsHeap(s) && k < |s|
    ensures !Less(s[k], s[0])
  {
    if k > 0 {
      RootIsFirst(s, Parent(k));
    }
  }

  function Swapped(s: seq<Entry>, i: nat, j: nat): (r: seq<Entry>)
    requires i < |s| && j < |s|
    ensures |r| == |s|
    ensures multiset(r) == multiset(s)
  {
    s[i := s[j]][j := s[i]]
  }

  /** As HeapFrom, except that entry i may come after its children; whatever stands above i
      still does not come after them. */
  predicate HeapExceptDown(s: seq<Entry>, lo: nat, n: nat, i: nat)
    requires n <= |s|
  {
    && (forall j :: 0 < j < n && Parent(j) >= lo && Parent(j) != i ==> !Less(s[j], s[Parent(j)]))
    && (forall j :: 0 < j < n && Parent(j) == i && 0 < i && Parent(i) >= lo ==> !Less(s[j], s[Parent(i)]))
  }

  /** As IsHeap, except that entry j may come before its parent. */
  predicate HeapExceptUp(s: seq<Entry>, j: nat) {
    && (forall k :: 0 < k < |s| && k != j ==> !Less(s[k], s[Parent(k)]))
    && (forall k :: 0 < k < |s| && Parent(k) == j && 0 < j < |s| ==> !Less(s[k], s[Parent(j)]))
  }

  class Heap {
    var items: seq<Entry>

    constructor (initial: seq<Entry>)
      ensures items == initial
    {
      items := initial;
    }

    method Swap(i: nat, j: nat)
      requires i < |items| && j < |items|
      modifies this
      ensures items == Swapped(old(items), i, j)
    {
      items := items[i := items[j]][j := items[i]];
    }

    method Down(i0: nat, n: nat)
      requires n <= |items| && HeapExceptDown(items, i0, n, i0)
      modifies this
      ensures |items| == |old(items)| && multiset(items) == multiset(old(items))
      ensures items[n..] == old(items)[n..]
      ensures HeapFrom(items, i0, n)
    {
      var i := i0;
      while 2 * i + 1 < n
        invariant i >= i0
        invariant |items| == |old(items)| && multiset(items) == multiset(old(items))
        invariant items[n..] == old(items)[n..]
        invariant HeapExceptDown(items, i0, n, i)
        decreases n - i
      {
        var j, stays := StepDown(i0, n, i);
        if stays {
          return;
        }
        i := j;
      }
    }

    /** One turn of the loop: the entry stays, or changes places with its first-listed child. */
    method StepDown(lo: nat, n: nat, i: nat) returns (j: nat, stays: bool)
      requires n <= |items| && lo <= i && 2 * i + 1 < n && HeapExceptDown(items, lo, n, i)
      modifies this
      ensures i < j < n && |items| == |old(items)| && multiset(items) == multiset(old(items))
      ensures items[n..] == old(items)[n..]
      ensures stays ==> HeapFrom(items, lo, n)
      ensures !stays ==> HeapExceptDown(items, lo, n, j)
    {
      j := 2 * i + 1;
      if j + 1 < n && Less(items[j + 1], items[j]) {
        j := j + 1;
      }
      FirstChild(items, n, i, j);
      stays := !Less(items[j], items[i]);
      if stays {
        InPlace(items, lo, n, i, j);
      } else {
        SiftDown(items, lo, n, i, j);
        Swap(i, j);
      }
    }

    method Up(j0: nat)
      requires j0 < |items| && HeapExceptUp(items, j0)
      modifies this
      ensures multiset(items) == multiset(old(items))
      ensures IsHeap(items)
    {
      var j: nat := j0;
      while j > 0 && Less(items[j], items[Parent(j)])
        invariant j < |items|
        invariant multiset(items) == multiset(old(items))
        invariant HeapExceptUp(items, j)
      {
        var i := Parent(j);
        SiftUp(items, j);
        Swap(i, j);
        j := i;
      }
    }

    method Init()
      modifies this
      ensures multiset(items) == multiset(old(items))
      ensures IsHeap(items)
    {
      var i: nat := |items| / 2;
      while i > 0
        invariant i <= |items| / 2
        invariant |items| == |old(items)| && multiset(items) == multiset(old(items))
        invariant HeapFrom(items, i, |items|)
      {
        i := i - 1;
        Down(i, |items|);
      }
    }

    method Push(x: Entry)
      requires IsHeap(items)
      modifies this
      ensures multiset(items) == multiset(old(items)) + multiset{x}
      ensures IsHeap(items)
    {
      items := items + [x];
      Up(|items| - 1);
    }

    method Pop() returns (x: Entry)
      requires IsHeap(items) && items != []
      modifies this
      ensures x == old(items)[0]
      ensures multiset(items) == multiset(old(items)) - multiset{x}
      ensures IsHeap(items)
    {
      var n := |items| - 1;
      Swap(0, n);
      Down(0, n);
      x := items[n];
      assert items[n..] == [x];
      assert items == items[..n] + [x];
      items := items[..n];
    }
  }

  /** j is the first-listed child of i. */
  lemma FirstChild(s: seq<Entry>, n: nat, i: nat, j: nat)
    requires j < n <= |s|
    requires (j == 2 * i + 1 && (j + 1 < n ==> !Less(s[j + 1], s[j]))) || (j == 2 * i + 2 && Less(s[j], s[j - 1]))
    ensures forall k :: 0 < k < n && Parent(k) == i ==> !Less(s[k], s[j])
  {
  }

  /** An entry that no child is listed before is in its place. */
  lemma InPlace(s: seq<Entry>, lo: nat, n: nat, i: nat, j: nat)
    requires n <= |s| && j < n && i < n && HeapExceptDown(s, lo, n, i) && !Less(s[j], s[i])
    requires forall k :: 0 < k < n && Parent(k) == i ==> !Less(s[k], s[j])
    ensures HeapFrom(s, lo, n)
  {
  }

  lemma SiftDown(s: seq<Entry>, lo: nat, n: nat, i: nat, j: nat)
    requires n <= |s| && lo <= i && HeapExceptDown(s, lo, n, i)
    requires j < n && (j == 2 * i + 1 || j == 2 * i + 2) && Less(s[j], s[i])
    requires forall k :: 0 < k < n && Parent(k) == i ==> !Less(s[k], s[j])
    ensures HeapExceptDown(Swapped(s, i, j), lo, n, j)
  {
    var r := Swapped(s, i, j);
    assert Parent(j) == i;
    forall k | 0 < k < n && Parent(k) >= lo && Parent(k) != j ensures !Less(r[k], r[Parent(k)]) {
      var p := Parent(k);
      if k == i {
        assert r[k] == s[j] && r[p] == s[p] && !Less(s[j], s[Parent(i)]);
      } else if p == i {
        assert r[p] == s[j];
      } else {
        assert r[k] == s[k] && r[p] == s[p];
      }
    }
    forall k | 0 < k < n && Parent(k) == j && i >= lo ensures !Less(r[k], r[i]) {
      assert r[k] == s[k] && r[i] == s[j] && !Less(s[k], s[Parent(k)]);
    }
  }

  lemma SiftUp(s: seq<Entry>, j: nat)
    requires 0 < j < |s| && HeapExceptUp(s, j) && Less(s[j], s[Parent(j)])
    ensures HeapExceptUp(Swapped(s, Parent(j), j), Parent(j))
  {
    var i := Parent(j);
    var r := Swapped(s, i, j);
    forall k | 0 < k < |s| && k != i ensures !Less(r[k], r[Parent(k)]) {
      var p := Parent(k);
      if k == j {
        assert r[k] == s[i] && r[p] == s[j];
      } else if p == j {
        assert r[k] == s[k] && r[p] == s[i] && !Less(s[k], s[Parent(j)]);
      } else if p == i {
        assert r[k] == s[k] && r[p] == s[j] && !Less(s[k], s[Parent(k)]);
      } else {
        assert r[k] == s[k] && r[p] == s[p];
      }
    }
    forall k | 0 < k < |s| && Parent(k) == i && 0 < i ensures !Less(r[k], r[Parent(i)]) {
      assert r[Parent(i)] == s[Parent(i)] && !Less(s[i], s[Parent(i)]);
      if k != j {
        assert r[k] == s[k] && !Less(s[k], s[Parent(k)]);
      }
    }
  }

  // ---------------------------------------------------------------- the merge

  ghost predicate NonIncreasing(s: seq<Key>) {
    forall i, j :: 0 <= i < j < |s| ==> !Ahead(s[j], s[i])
  }

  /** Every key of every source. */
  function Union(sources: seq<seq<Key>>): set<Key> {
    set i, p | 0 <= i < |sources| && 0 <= p < |sources[i]| :: sources[i][p]
  }

  /** The pool without the keys whose id also occurs in an earlier-listed key. */
  function Freshest(pool: set<Key>): set<Key> {
    set k | k in pool && forall o :: o in pool && o.id == k.id ==> !Ahead(o, k)
  }

  /** Rows of one table: an id determines its key, and nothing is dropped. */
  ghost predicate IdsDetermineKeys(pool: set<Key>) {
    forall a, b :: a in pool && b in pool && a.id == b.id ==> a == b
  }

  lemma FreshestOfRows(pool: set<Key>)
    requires IdsDetermineKeys(pool)
    ensures Freshest(pool) == pool
  {
  }

  ghost predicate Cuts(sources: seq<seq<Key>>, next: seq<nat>) {
    |next| == |sources| && forall i :: 0 <= i < |sources| ==> next[i] <= |sources[i]|
  }

  ghost predicate Unfinished(sources: seq<seq<Key>>, next: seq<nat>, i: int) {
    Cuts(sources, next) && 0 <= i < |sources| && next[i] < |sources[i]|
  }

  ghost function Head(sources: seq<seq<Key>>, next: seq<nat>, i: nat): Entry
    requires Unfinished(sources, next, i)
  {
    Entry(sources[i][next[i]], i, next[i])
  }

  /** One entry per unfinished source, holding its first unconsumed key. */
  ghost function Frontier(sources: seq<seq<Key>>, next: seq<nat>): set<Entry> {
    set i: nat | i < |sources| && Unfinished(sources, next, i) :: Head(sources, next, i)
  }

  ghost function Consumed(sources: seq<seq<Key>>, next: seq<nat>): set<Key>
    requires Cuts(sources, next)
  {
    set i, p | 0 <= i < |sources| && 0 <= p < next[i] :: sources[i][p]
  }

  ghost function Waiting(sources: seq<seq<Key>>, next: seq<nat>): set<Key>
    requires Cuts(sources, next)
  {
    set i, p | 0 <= i < |sources| && next[i] <= p < |sources[i]| :: sources[i][p]
  }

  ghost function Remaining(sources: seq<seq<Key>>, next: seq<nat>): nat
    requires Cuts(sources, next)
  {
    if sources == [] then 0
    else |sources[0]| - next[0] + Remaining(sources[1..], next[1..])
  }

  lemma {:induction false} RemainingDrops(sources: seq<seq<Key>>, next: seq<nat>, i: nat)
    requires Unfinished(sources, next, i)
    ensures Remaining(sources, next[i := next[i] + 1]) == Remaining(sources, next) - 1
  {
    var after := next[i := next[i] + 1];
    if i == 0 {
      assert after[1..] == next[1..];
    } else {
      RemainingDrops(sources[1..], next[1..], i - 1);
      assert after[1..] == next[1..][i - 1 := next[1..][i - 1] + 1];
    }
  }

  lemma ConsumedAndWaiting(sources: seq<seq<Key>>, next: seq<nat>)
    requires Cuts(sources, next)
    ensures Consumed(sources, next) + Waiting(sources, next) == Union(sources)
  {
    forall k | k in Union(sources) ensures k in Consumed(sources, next) + Waiting(sources, next) {
      var i, p :| 0 <= i < |sources| && 0 <= p < |sources[i]| && sources[i][p] == k;
      if p < next[i] {
        assert k in Consumed(sources, next);
      } else {
        assert k in Waiting(sources, next);
      }
    }
  }

  /** The root of the heap is listed before every key that waits. */
  lemma RootBeforeWaiting(sources: seq<seq<Key>>, next: seq<nat>, heap: seq<Entry>, w: Key)
    requires forall i :: 0 <= i < |sources| ==> NonIncreasing(sources[i])
    requires Cuts(sources, next)
    requires IsHeap(heap) && heap != [] && multiset(heap) == multiset(Frontier(sources, next))
    requires w in Waiting(sources, next)
    ensures !Ahead(w, heap[0].v)
  {
    var i, p :| 0 <= i < |sources| && next[i] <= p < |sources[i]| && sources[i][p] == w;
    var e := Head(sources, next, i);
    assert e in Frontier(sources, next);
    assert e in multiset(heap);
    var h :| 0 <= h < |heap| && heap[h] == e;
    RootIsFirst(heap, h);
    assert p == next[i] || !Ahead(sources[i][p], sources[i][next[i]]);
  }

  lemma RootIsHead(sources: seq<seq<Key>>, next: seq<nat>, heap: seq<Entry>)
    requires heap != [] && multiset(heap) == multiset(Frontier(sources, next))
    ensures Unfinished(sources, next, heap[0].source)
    ensures heap[0] == Head(sources, next, heap[0].source)
  {
    assert heap[0] in multiset(heap);
    assert heap[0] in Frontier(sources, next);
  }

  lemma WaitingHasHead(sources: seq<seq<Key>>, next: seq<nat>)
    requires Cuts(sources, next) && Waiting(sources, next) != {}
    ensures Frontier(sources, next) != {}
  {
    var w :| w in Waiting(sources, next);
    var i, p :| 0 <= i < |sources| && next[i] <= p < |sources[i]| && sources[i][p] == w;
    assert Head(sources, next, i) in Frontier(sources, next);
  }

  /** Popping the head of source i moves exactly that key from waiting to consumed. */
  lemma AdvanceSource(sources: seq<seq<Key>>, next: seq<nat>, i: nat)
    requires Unfinished(sources, next, i)
    ensures Cuts(sources, next[i := next[i] + 1])
    ensures Consumed(sources, next[i := next[i] + 1]) == Consumed(sources, next) + {sources[i][next[i]]}
    ensures Waiting(sources, next[i := next[i] + 1]) <= Waiting(sources, next)
    ensures sources[i][next[i]] in Waiting(sources, next)
  {
    var after := next[i := next[i] + 1];
    forall k | k in Consumed(sources, after)
      ensures k in Consumed(sources, next) + {sources[i][next[i]]}
    {
      var a, p :| 0 <= a < |sources| && 0 <= p < after[a] && sources[a][p] == k;
      assert p < next[a] || (a == i && p == next[i]);
    }
    forall k | k in Consumed(sources, next) ensures k in Consumed(sources, after) {
      var a, p :| 0 <= a < |sources| && 0 <= p < next[a] && sources[a][p] == k;
      assert p < after[a];
    }
    assert next[i] < after[i];
    forall k | k in Waiting(sources, after) ensures k in Waiting(sources, next) {
      var a, p :| 0 <= a < |sources| && after[a] <= p < |sources[a]| && sources[a][p] == k;
      assert next[a] <= p;
    }
  }

  lemma AdvanceFrontier(sources: seq<seq<Key>>, next: seq<nat>, after: seq<nat>, i: nat)
    requires Unfinished(sources, next, i) && after == next[i := next[i] + 1]
    ensures Frontier(sources, after)
         == Frontier(sources, next) - {Head(sources, next, i)}
            + (if Unfinished(sources, after, i) then {Head(sources, after, i)} else {})
  {
    assert Cuts(sources, after);
    forall j: nat | j < |sources| && j != i
      ensures Unfinished(sources, after, j) <==> Unfinished(sources, next, j)
      ensures Unfinished(sources, next, j) ==> Head(sources, after, j) == Head(sources, next, j)
    {
    }
  }

  function Ids(s: seq<Key>): set<nat> {
    set k | k in s :: k.id
  }

  /** What the loop has established when `consumed` has been popped and `waiting` has not. */
  ghost predicate Merged(pool: set<Key>, consumed: set<Key>, waiting: set<Key>, seen: set<nat>, result: seq<Key>) {
    && consumed + waiting == pool
    && Descending(result)
    && seen == Ids(result)
    && (forall k :: k in result ==> k in consumed && k in Freshest(pool))
    && (forall k :: k in consumed ==> k.id in seen && (k in Freshest(pool) ==> k in result))
    && (forall c, w :: c in consumed && w in waiting ==> !Ahead(w, c))
  }

  /** One turn of the loop: the popped key is next in order, or repeats an id already listed. */
  lemma TakeHead(pool: set<Key>, consumed: set<Key>, waiting: set<Key>, seen: set<nat>, result: seq<Key>,
                 v: Key, waiting': set<Key>)
    requires Merged(pool, consumed, waiting, seen, result)
    requires v in waiting && forall w :: w in waiting ==> !Ahead(w, v)
    requires waiting' <= waiting && consumed + {v} + waiting' == pool
    ensures v.id in seen ==> Merged(pool, consumed + {v}, waiting', seen, result)
    ensures v.id !in seen ==> Merged(pool, consumed + {v}, waiting', seen + {v.id}, result + [v])
  {
    if v.id in seen {
      var r :| r in result && r.id == v.id;
      assert !Ahead(v, r);
    } else {
      forall o | o in pool && o.id == v.id ensures !Ahead(o, v) {
        assert o in consumed || o in waiting;
      }
      forall r | r in result ensures Ahead(r, v) {
        assert !Ahead(v, r) && r.id in seen;
      }
      var longer := result + [v];
      assert Ids(longer) == seen + {v.id};
    }
  }

  /** When the loop stops the result is the first `limit` of the merged, id-distinct keys. */
  lemma MergedIsTop(pool: set<Key>, consumed: set<Key>, waiting: set<Key>, seen: set<nat>, result: seq<Key>, limit: nat)
    requires Merged(pool, consumed, waiting, seen, result)
    requires |result| <= limit && (|result| == limit || waiting == {})
    ensures result == Top(Freshest(pool), limit)
  {
    forall k | k in Freshest(pool) && k !in result
      ensures |result| == limit && AllAhead(result, k)
    {
      assert k in waiting;
      forall r | r in result ensures Ahead(r, k) {
        assert !Ahead(k, r);
      }
    }
    TopUnique(Freshest(pool), limit, Top(Freshest(pool), limit), result);
  }

  /** The heads of the sources before i. */
  ghost function HeadsBefore(sources: seq<seq<Key>>, next: seq<nat>, i: nat): set<Entry> {
    set j: nat | j < i && Unfinished(sources, next, j) :: Head(sources, next, j)
  }

  lemma HeadsGrow(sources: seq<seq<Key>>, next: seq<nat>, i: nat)
    requires Cuts(sources, next) && i < |sources|
    ensures multiset(HeadsBefore(sources, next, i + 1))
         == multiset(HeadsBefore(sources, next, i))
            + (if Unfinished(sources, next, i) then multiset{Head(sources, next, i)} else multiset{})
  {
    var before := HeadsBefore(sources, next, i);
    assert forall e :: e in before ==> e.source < i;
    if Unfinished(sources, next, i) {
      assert HeadsBefore(sources, next, i + 1) == before + {Head(sources, next, i)};
    } else {
      assert HeadsBefore(sources, next, i + 1) == before;
    }
  }

  /** No key of any source has been consumed. */
  ghost predicate AtStart(sources: seq<seq<Key>>, next: seq<nat>) {
    Cuts(sources, next) && forall i :: 0 <= i < |next| ==> next[i] == 0
  }

  /** The initial slice: the first entry of every source that has one. */
  method FirstEntries(sources: seq<seq<Key>>, ghost next: seq<nat>) returns (initial: seq<Entry>)
    requires AtStart(sources, next)
    ensures multiset(initial) == multiset(Frontier(sources, next))
  {
    initial := [];
    var i := 0;
    while i < |sources|
      invariant i <= |sources|
      invariant multiset(initial) == multiset(HeadsBefore(sources, next, i))
    {
      HeadsGrow(sources, next, i);
      if |sources[i]| > 0 {
        initial := initial + [Entry(sources[i][0], i, 0)];
      }
      i := i + 1;
    }
    assert HeadsBefore(sources, next, i) == Frontier(sources, next);
  }

  lemma MultisetSwap(before: set<Entry>, e: Entry)
    requires e in before
    ensures multiset(before - {e}) == multiset(before) - multiset{e}
    ensures forall x :: x !in before - {e} ==> multiset(before - {e} + {x}) == multiset(before) - multiset{e} + multiset{x}
  {
  }

  lemma FrontierMultiset(sources: seq<seq<Key>>, next: seq<nat>, after: seq<nat>, i: nat)
    requires Unfinished(sources, next, i) && after == next[i := next[i] + 1]
    ensures Cuts(sources, after)
    ensures multiset(Frontier(sources, after))
         == multiset(Frontier(sources, next)) - multiset{Head(sources, next, i)}
            + (if Unfinished(sources, after, i) then multiset{Head(sources, after, i)} else multiset{})
  {
    AdvanceFrontier(sources, next, after, i);
    var before, e := Frontier(sources, next), Head(sources, next, i);
    MultisetSwap(before, e);
    if Unfinished(sources, after, i) {
      assert Head(sources, after, i) !in before - {e};
    }
  }

  /** Popping the root and pushing its successor keeps one entry per unfinished source. */
  lemma TurnFrontier(sources: seq<seq<Key>>, next: seq<nat>, after: seq<nat>, heap: seq<Entry>)
    requires Cuts(sources, next) && heap != [] && multiset(heap) == multiset(Frontier(sources, next))
    requires heap[0].source < |next| && after == next[heap[0].source := next[heap[0].source] + 1]
    ensures Unfinished(sources, next, heap[0].source) && heap[0] == Head(sources, next, heap[0].source)
    ensures Cuts(sources, after)
    ensures Remaining(sources, after) < Remaining(sources, next)
    ensures multiset(Frontier(sources, after))
         == multiset(heap) - multiset{heap[0]}
            + (if Unfinished(sources, after, heap[0].source)
               then multiset{Head(sources, after, heap[0].source)} else multiset{})
  {
    RootIsHead(sources, next, heap);
    FrontierMultiset(sources, next, after, heap[0].source);
    RemainingDrops(sources, next, heap[0].source);
  }

  /** Popping the root moves the first waiting key to the consumed ones. */
  lemma TurnKeys(sources: seq<seq<Key>>, next: seq<nat>, after: seq<nat>, heap: seq<Entry>)
    requires forall i :: 0 <= i < |sources| ==> NonIncreasing(sources[i])
    requires Cuts(sources, next) && IsHeap(heap) && heap != []
    requires multiset(heap) == multiset(Frontier(sources, next))
    requires Unfinished(sources, next, heap[0].source) && heap[0] == Head(sources, next, heap[0].source)
    requires after == next[heap[0].source := next[heap[0].source] + 1] && Cuts(sources, after)
    ensures heap[0].v in Waiting(sources, next)
    ensures forall w :: w in Waiting(sources, next) ==> !Ahead(w, heap[0].v)
    ensures Consumed(sources, after) == Consumed(sources, next) + {heap[0].v}
    ensures Waiting(sources, after) <= Waiting(sources, next)
    ensures Consumed(sources, after) + Waiting(sources, after) == Union(sources)
  {
    forall w | w in Waiting(sources, next) ensures !Ahead(w, heap[0].v) {
      RootBeforeWaiting(sources, next, heap, w);
    }
    AdvanceSource(sources, next, heap[0].source);
    ConsumedAndWaiting(sources, after);
  }

  lemma Drained(sources: seq<seq<Key>>, next: seq<nat>)
    requires Cuts(sources, next) && multiset(Frontier(sources, next)) == multiset{}
    ensures Waiting(sources, next) == {}
  {
    forall e ensures e !in Frontier(sources, next) {
      assert multiset(Frontier(sources, next))[e] == 0;
    }
    if Waiting(sources, next) != {} {
      WaitingHasHead(sources, next);
    }
  }

  /** Before the loop nothing is consumed and everything waits. */
  lemma NothingMerged(sources: seq<seq<Key>>, next: seq<nat>)
    requires AtStart(sources, next)
    ensures Merged(Union(sources), Consumed(sources, next), Waiting(sources, next), {}, [])
  {
    ConsumedAndWaiting(sources, next);
    assert Consumed(sources, next) == {};
  }

  /** The loop's state: one frontier entry per unfinished source, a correct result so far. */
  ghost predicate Merging(sources: seq<seq<Key>>, next: seq<nat>, heap: seq<Entry>, seen: set<nat>, result: seq<Key>) {
    && Cuts(sources, next)
    && IsHeap(heap)
    && multiset(heap) == multiset(Frontier(sources, next))
    && Merged(Union(sources), Consumed(sources, next), Waiting(sources, next), seen, result)
  }

  /** Sources listed in descending order merge into the first `limit` distinct ids of them all. */
  method Merge(sources: seq<seq<Key>>, limit: nat) returns (result: seq<Key>)
    requires forall i :: 0 <= i < |sources| ==> NonIncreasing(sources[i])
    ensures result == Top(Freshest(Union(sources)), limit)
    ensures |result| <= limit
    ensures forall k :: k in result ==> exists i, p :: 0 <= i < |sources| && 0 <= p < |sources[i]| && sources[i][p] == k
    ensures forall i, j :: 0 <= i < j < |result| ==> result[i].id != result[j].id
    ensures forall i, j :: 0 <= i < j < |result| ==>
              || result[i].major > result[j].major
              || (result[i].major == result[j].major
                  && (result[i].minor > result[j].minor
                      || (result[i].minor == result[j].minor && result[i].id > result[j].id)))
    ensures forall i, p :: 0 <= i < |sources| && 0 <= p < |sources[i]| ==>
              || sources[i][p] in result
              || (exists k :: k in result && k.id == sources[i][p].id && Ahead(k, sources[i][p]))
              || (|result| == limit && forall k :: k in result ==> Ahead(k, sources[i][p]))
  {
    ghost var next := Zeros(|sources|);
    var initial := FirstEntries(sources, next);
    var h := new Heap(initial);
    h.Init();
    result := [];
    var seen: set<nat> := {};
    NothingMerged(sources, next);
    while |h.items| > 0 && |result| < limit
      invariant |result| <= limit
      invariant Merging(sources, next, h.items, seen, result)
      decreases Remaining(sources, next)
    {
      seen, result, next := Turn(sources, h, seen, result, next);
    }
    if |result| < limit {
      Drained(sources, next);
    }
    MergedIsTop(Union(sources), Consumed(sources, next), Waiting(sources, next), seen, result, limit);
    MergeOfSources(sources, limit, result);
  }

  /** The merge, said of the sources alone: their keys, each id once with its first key, in order; and
      whatever is not there has an earlier key of its id there, or the result is full of earlier ones. */
  lemma MergeOfSources(sources: seq<seq<Key>>, limit: nat, result: seq<Key>)
    requires result == Top(Freshest(Union(sources)), limit)
    ensures |result| <= limit
    ensures forall k :: k in result ==> exists i, p :: 0 <= i < |sources| && 0 <= p < |sources[i]| && sources[i][p] == k
    ensures forall i, j :: 0 <= i < j < |result| ==> result[i].id != result[j].id
    ensures forall i, j :: 0 <= i < j < |result| ==>
              || result[i].major > result[j].major
              || (result[i].major == result[j].major
                  && (result[i].minor > result[j].minor
                      || (result[i].minor == result[j].minor && result[i].id > result[j].id)))
    ensures forall i, p :: 0 <= i < |sources| && 0 <= p < |sources[i]| ==>
              || sources[i][p] in result
              || (exists k :: k in result && k.id == sources[i][p].id && Ahead(k, sources[i][p]))
              || (|result| == limit && forall k :: k in result ==> Ahead(k, sources[i][p]))
  {
    var pool := Union(sources);
    forall i, j | 0 <= i < j < |result| ensures result[i].id != result[j].id && Ahead(result[i], result[j]) {
      assert result[i] in result && result[j] in result && result[i] in Freshest(pool) && result[j] in Freshest(pool);
    }
    forall k | k in result
      ensures exists i, p :: 0 <= i < |sources| && 0 <= p < |sources[i]| && sources[i][p] == k
    {
      assert k in pool;
    }
    forall i, p | 0 <= i < |sources| && 0 <= p < |sources[i]|
      ensures || sources[i][p] in result
              || (exists k :: k in result && k.id == sources[i][p].id && Ahead(k, sources[i][p]))
              || (|result| == limit && forall k :: k in result ==> Ahead(k, sources[i][p]))
    {
      assert sources[i][p] in pool;
      var first := FirstOfId(pool, sources[i][p]);
      assert first in result || AllAhead(result, first);
    }
  }

  lemma FirstOfId(pool: set<Key>, k: Key) returns (first: Key)
    requires k in pool
    ensures first in Freshest(pool) && first.id == k.id && (first == k || Ahead(first, k))
  {
    var same := set q | q in pool && q.id == k.id;
    assert k in same;
    first := Leader(same);
    forall o | o in pool && o.id == first.id ensures !Ahead(o, first) {
      assert o in same;
    }
  }

  /** Pops the root, lists it unless its id is already listed, and refills the heap. */
  method Turn(sources: seq<seq<Key>>, h: Heap, seen0: set<nat>, result0: seq<Key>, ghost next: seq<nat>)
    returns (seen: set<nat>, result: seq<Key>, ghost after: seq<nat>)
    requires forall i :: 0 <= i < |sources| ==> NonIncreasing(sources[i])
    requires Merging(sources, next, h.items, seen0, result0) && h.items != []
    modifies h
    ensures Merging(sources, after, h.items, seen, result)
    ensures |result| <= |result0| + 1
    ensures Remaining(sources, after) < Remaining(sources, next)
  {
    after := NextAfter(sources, next, h.items);
    TurnFrontier(sources, next, after, h.items);
    TurnKeys(sources, next, after, h.items);
    ghost var consumed, waiting, left := Consumed(sources, next), Waiting(sources, next), Waiting(sources, after);
    var e := h.Pop();
    TakeHead(Union(sources), consumed, waiting, seen0, result0, e.v, left);
    seen, result := seen0, result0;
    if e.v.id !in seen {
      seen := seen + {e.v.id};
      result := result + [e.v];
    }
    Refill(sources, h, e, after);
  }

  /** Puts the source of a popped entry back on the heap unless it is exhausted. */
  method Refill(sources: seq<seq<Key>>, h: Heap, e: Entry, ghost next: seq<nat>)
    requires Cuts(sources, next) && e.source < |sources| && next[e.source] == e.pos + 1
    requires IsHeap(h.items)
    requires multiset(Frontier(sources, next))
          == multiset(h.items)
             + (if Unfinished(sources, next, e.source) then multiset{Head(sources, next, e.source)} else multiset{})
    modifies h
    ensures IsHeap(h.items) && multiset(h.items) == multiset(Frontier(sources, next))
  {
    if e.pos + 1 < |sources[e.source]| {
      h.Push(Entry(sources[e.source][e.pos + 1], e.source, e.pos + 1));
    }
  }

  ghost function Zeros(n: nat): (z: seq<nat>)
    ensures |z| == n && forall i :: 0 <= i < n ==> z[i] == 0
  {
    if n == 0 then [] else Zeros(n - 1) + [0]
  }

  ghost function NextAfter(sources: seq<seq<Key>>, next: seq<nat>, heap: seq<Entry>): (after: seq<nat>)
    requires Cuts(sources, next) && heap != [] && multiset(heap) == multiset(Frontier(sources, next))
    ensures heap[0].source < |next| && after == next[heap[0].source := next[heap[0].source] + 1]
  {
    RootIsHead(sources, next, heap);
    next[heap[0].source := next[heap[0].source] + 1]
  }
}
