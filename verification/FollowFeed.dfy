/** The hybrid push/pull following feed: reading one source, reading a page, and fan-out.

    The database and the clock stand still during one call; a cache command may fail, and the one
    that fails may or may not have been carried out.
 */
module FollowFeed {
  import opened Ranking
  import opened FeedDatabase
  import opened FollowingIndex
  import opened IndexStaleness
  import MergeHeap

  datatype SourceKey = Inbox(user: nat) | Author(author: nat)
  type Indexes = map<SourceKey, Index>

  datatype Reply = Rows(rows: seq<Key>) | InvalidLimit

  function At(indexes: Indexes, key: SourceKey): Index {
    if key in indexes then indexes[key] else EMPTY
  }

  /** Member strings were printed from rows, and neither ids nor create times are reused. */
  predicate Faithful(videos: Videos, members: set<Key>) {
    forall m :: m in members && m.id in videos ==> m == FeedKey(m.id, videos[m.id])
  }

  /** The rows the validation query returns for these ids, newest first. */
  function Validated(videos: Videos, ids: set<nat>, authors: set<nat>, cursor: Option<Key>): seq<Key> {
    var pool := Before((set k | k in ByAuthors(videos, authors) && k.id in ids), cursor);
    Top(pool, |pool|)
  }

  /** What a source leaves out when it is served from these members. */
  ghost function Missing(videos: Videos, authors: set<nat>, members: set<Key>): set<Key> {
    set k | k in ByAuthors(videos, authors) && Lacks(members, k)
  }

  /** The exact page: SQL over the database without what the index lacks. */
  ghost function QueryWithout(videos: Videos, authors: set<nat>, missing: set<Key>, cursor: Option<Key>, limit: nat): seq<Key> {
    Top(Before(ByAuthors(videos, authors) - missing, cursor), limit)
  }

  /** A full page of the index is the page of the database without what the index lacks, as long
      as every one of its posts still belongs there. */
  lemma FullPageIsQuery(videos: Videos, authors: set<nat>, members: set<Key>, cursor: Option<Key>, limit: nat)
    requires Faithful(videos, members)
    requires var page := Top(Before(members, cursor), limit);
             |page| == limit && forall k :: k in page ==> k in ByAuthors(videos, authors)
    ensures Top(Before(members, cursor), limit)
         == QueryWithout(videos, authors, Missing(videos, authors, members), cursor, limit)
  {
    var page := Top(Before(members, cursor), limit);
    var pool := Before(ByAuthors(videos, authors) - Missing(videos, authors, members), cursor);
    forall k | k in page ensures k in pool {
      assert k in members;
    }
    forall k | k in pool && k !in page ensures AllAhead(page, k) {
      if k in members {
        assert k in Before(members, cursor);
      } else {
        forall q | q in page ensures Ahead(q, k) {
          assert q in members && q != k && !Ahead(k, q);
        }
      }
    }
    TopUnique(pool, limit, page, Top(pool, limit));
  }

  /** Validation keeps a subset of the page; when it keeps as many it has kept the page. */
  lemma ValidationKeepsPage(videos: Videos, authors: set<nat>, cursor: Option<Key>, page: seq<Key>)
    requires Descending(page) && Faithful(videos, Elements(page))
    requires |Validated(videos, MergeHeap.Ids(page), authors, cursor)| >= |page|
    ensures Validated(videos, MergeHeap.Ids(page), authors, cursor) == page
    ensures forall k :: k in page ==> k in ByAuthors(videos, authors)
  {
    var ids := MergeHeap.Ids(page);
    var pool := Before((set k | k in ByAuthors(videos, authors) && k.id in ids), cursor);
    forall k | k in pool ensures k in Elements(page) {
      var m :| m in page && m.id == k.id;
      ByAuthorsKey(videos, authors, k);
      assert m in Elements(page) && m == FeedKey(m.id, videos[m.id]);
    }
    ElementsCount(page);
    TopCount(pool, |pool|);
    SubsetCount(pool, Elements(page));
    assert pool == Elements(page);
    TopUnique(pool, |pool|, page, Top(pool, |pool|));
  }

  // ---------------------------------------------------------------- several sources

  /** Each page is the first `limit` keys of its own pool. */
  ghost predicate Pages(sources: seq<seq<Key>>, pools: seq<set<Key>>, limit: nat) {
    |sources| == |pools| && forall i :: 0 <= i < |pools| ==> sources[i] == Top(pools[i], limit)
  }

  ghost function Pooled(pools: seq<set<Key>>): set<Key> {
    set i, k | 0 <= i < |pools| && k in pools[i] :: k
  }

  /** Cutting every source at `limit` before merging loses nothing of the first `limit`. */
  lemma MergeOfPages(sources: seq<seq<Key>>, pools: seq<set<Key>>, limit: nat)
    requires Pages(sources, pools, limit)
    ensures Top(MergeHeap.Union(sources), limit) == Top(Pooled(pools), limit)
    ensures MergeHeap.Union(sources) <= Pooled(pools)
  {
    var cut, whole := MergeHeap.Union(sources), Pooled(pools);
    forall k | k in cut ensures k in whole {
      var i, p :| 0 <= i < |sources| && 0 <= p < |sources[i]| && sources[i][p] == k;
      assert k in pools[i];
    }
    forall k | k in whole - cut ensures exists w :: Outranks(w, cut, limit, k) {
      var i :| 0 <= i < |pools| && k in pools[i];
      SourceOutranks(sources, pools, limit, i, k);
    }
    TopAbsorbs(whole, cut, limit);
  }

  lemma SourceOutranks(sources: seq<seq<Key>>, pools: seq<set<Key>>, limit: nat, i: nat, k: Key)
    requires Pages(sources, pools, limit) && i < |pools|
    requires k in pools[i] && k !in MergeHeap.Union(sources)
    ensures Outranks(Elements(sources[i]), MergeHeap.Union(sources), limit, k)
  {
    var page := sources[i];
    forall q | q in page ensures q in MergeHeap.Union(sources) {
      var p :| 0 <= p < |page| && page[p] == q;
    }
    assert k !in page && AllAhead(page, k);
    ElementsCount(page);
  }

  /** The index a read consults for this author's posts. */
  ghost function SourceOf(follows: Follows, threshold: nat, user: nat, author: nat): SourceKey {
    if |Followers(follows, author)| >= threshold then Author(author) else Inbox(user)
  }

  /** k is a post that the ready index consulted for its author lacks. */
  ghost predicate LackedBySource(videos: Videos, follows: Follows, indexes: Indexes, now: int,
                                 threshold: nat, user: nat, k: Key) {
    && k.id in videos
    && LackedBy(Live(At(indexes, SourceOf(follows, threshold, user, videos[k.id].author)), now), videos[k.id].author, k)
  }

  /** The marker vouches for the author, and yet the index lacks the post. */
  ghost predicate LackedBy(live: Index, author: nat, k: Key) {
    live.ready.Some? && author in live.ready.value && Lacks(live.members, k)
  }

  /** No ready index consulted for this user lacks a post that belongs above one of its members. */
  ghost predicate NothingLacked(videos: Videos, follows: Follows, indexes: Indexes, now: int, threshold: nat, user: nat) {
    forall k :: k in ByAuthors(videos, Followed(follows, user)) ==>
      !LackedBySource(videos, follows, indexes, now, threshold, user, k)
  }

  /** An index just rebuilt lacks no post of its authors. */
  lemma RebuiltLacksNothing(videos: Videos, ix: Index, now: int, authors: Signature, capacity: nat, k: Key)
    requires k in ByAuthors(videos, AuthorSet(authors))
    ensures var items := Elements(Query(videos, AuthorSet(authors), None, capacity));
            !Lacks(Live(Append(ix, now, items, capacity, Some(authors)), now).members, k)
  {
    var pool := ByAuthors(videos, AuthorSet(authors));
    assert Before(pool, None) == pool;
    var items := Newest(pool, capacity);
    if k !in items {
      TrimmedIsOutranked(pool, capacity, k);
      NewestCount(pool, capacity);
      assert Outranks(items, items, capacity, k);
    }
    var all := Live(ix, now).members + items;
    UnionAccounts(items, all, capacity, k);
  }

  /** As time passes an index may expire, but it does not come to lack a post. */
  lemma TimeLacksNothing(videos: Videos, follows: Follows, indexes: Indexes, now: int, later: int, threshold: nat, user: nat)
    requires now <= later && NothingLacked(videos, follows, indexes, now, threshold, user)
    ensures NothingLacked(videos, follows, indexes, later, threshold, user)
  {
    forall k | k in ByAuthors(videos, Followed(follows, user))
      ensures !LackedBySource(videos, follows, indexes, later, threshold, user, k)
    {
      ByAuthorsKey(videos, Followed(follows, user), k);
      var ix := At(indexes, SourceOf(follows, threshold, user, videos[k.id].author));
      assert !LackedBy(Live(ix, now), videos[k.id].author, k);
    }
  }

  /** Whether the index under this key is the one it was, or lacks nothing that any reader asks of it. */
  ghost predicate KeptOrFresh(videos: Videos, follows: Follows, now: int, threshold: nat,
                              before: Indexes, after: Indexes, key: SourceKey) {
    At(after, key) == At(before, key)
    || forall user, k :: k in ByAuthors(videos, Followed(follows, user))
                         && SourceOf(follows, threshold, user, videos[k.id].author) == key ==>
                           !Lacks(Live(At(after, key), now).members, k)
  }

  ghost predicate AllKeptOrFresh(videos: Videos, follows: Follows, now: int, threshold: nat, before: Indexes, after: Indexes) {
    forall key :: KeptOrFresh(videos, follows, now, threshold, before, after, key)
  }

  lemma OneMoreKeptOrFresh(videos: Videos, follows: Follows, now: int, threshold: nat,
                           before: Indexes, middle: Indexes, after: Indexes, key: SourceKey)
    requires AllKeptOrFresh(videos, follows, now, threshold, before, middle)
    requires forall other :: other != key ==> At(after, other) == At(middle, other)
    requires KeptOrFresh(videos, follows, now, threshold, before, after, key)
    ensures AllKeptOrFresh(videos, follows, now, threshold, before, after)
  {
    forall other ensures KeptOrFresh(videos, follows, now, threshold, before, after, other) {
      if other != key {
        assert KeptOrFresh(videos, follows, now, threshold, before, middle, other);
        assert At(after, other) == At(middle, other);
      }
    }
  }

  /** No index comes to lack a post, whoever reads it. */
  ghost predicate NoMoreLacked(videos: Videos, follows: Follows, now: int, threshold: nat, before: Indexes, after: Indexes) {
    forall user, k :: k in ByAuthors(videos, Followed(follows, user))
                      && LackedBySource(videos, follows, after, now, threshold, user, k) ==>
                        LackedBySource(videos, follows, before, now, threshold, user, k)
  }

  lemma NothingMoreLacked(videos: Videos, follows: Follows, now: int, threshold: nat, before: Indexes, after: Indexes)
    requires AllKeptOrFresh(videos, follows, now, threshold, before, after)
    ensures NoMoreLacked(videos, follows, now, threshold, before, after)
  {
    forall user, k | k in ByAuthors(videos, Followed(follows, user))
                     && LackedBySource(videos, follows, after, now, threshold, user, k)
      ensures LackedBySource(videos, follows, before, now, threshold, user, k)
    {
      var key := SourceOf(follows, threshold, user, videos[k.id].author);
      assert KeptOrFresh(videos, follows, now, threshold, before, after, key);
    }
  }

  /** Without such an index the page is the one-query read. */
  lemma ExactWhenNothingLacked(videos: Videos, follows: Follows, indexes: Indexes, now: int, threshold: nat, user: nat,
                               missing: set<Key>, cursor: Option<Key>, limit: nat)
    requires missing <= ByAuthors(videos, Followed(follows, user))
    requires forall k :: k in missing ==> LackedBySource(videos, follows, indexes, now, threshold, user, k)
    ensures NothingLacked(videos, follows, indexes, now, threshold, user) ==>
              missing == {}
              && QueryWithout(videos, Followed(follows, user), missing, cursor, limit)
              == FromDB(videos, follows, user, cursor, limit)
  {
    if NothingLacked(videos, follows, indexes, now, threshold, user) {
      assert missing == {};
      var everyone := ByAuthors(videos, Followed(follows, user));
      assert everyone - {} == everyone;
    }
  }

  /** A page of the specification, said of the two tables alone. */
  lemma PageOfTables(videos: Videos, follows: Follows, user: nat, missing: set<Key>, cursor: Option<Key>, limit: nat)
    ensures var rows := QueryWithout(videos, Followed(follows, user), missing, cursor, limit);
            && |rows| <= limit
            && (forall k :: k in rows ==>
                  k.id in videos && (user, videos[k.id].author) in follows && k == Key(videos[k.id].time, 0, k.id))
            && (forall i, j :: 0 <= i < j < |rows| ==>
                  rows[i].major > rows[j].major || (rows[i].major == rows[j].major && rows[i].id > rows[j].id))
            && (cursor.Some? && cursor.value.minor == 0 ==> forall k :: k in rows ==>
                  k.major < cursor.value.major || (k.major == cursor.value.major && k.id < cursor.value.id))
    ensures var rows := QueryWithout(videos, Followed(follows, user), missing, cursor, limit);
            forall id ::
              id in videos && (user, videos[id].author) in follows
              && (cursor.Some? ==> cursor.value.minor == 0
                                   && (videos[id].time < cursor.value.major
                                       || (videos[id].time == cursor.value.major && id < cursor.value.id))) ==>
                || Key(videos[id].time, 0, id) in rows
                || Key(videos[id].time, 0, id) in missing
                || (|rows| == limit
                    && forall k :: k in rows ==> k.major > videos[id].time || (k.major == videos[id].time && k.id > id))
  {
    var rows := QueryWithout(videos, Followed(follows, user), missing, cursor, limit);
    var pool := Before(ByAuthors(videos, Followed(follows, user)) - missing, cursor);
    forall k | k in rows
      ensures k.id in videos && (user, videos[k.id].author) in follows && k == Key(videos[k.id].time, 0, k.id)
    {
      assert k in pool;
      ByAuthorsKey(videos, Followed(follows, user), k);
    }
    forall i, j | 0 <= i < j < |rows|
      ensures rows[i].major > rows[j].major || (rows[i].major == rows[j].major && rows[i].id > rows[j].id)
    {
      assert rows[i] in rows && rows[j] in rows && Ahead(rows[i], rows[j]);
    }
    forall id | id in videos && (user, videos[id].author) in follows
                && (cursor.Some? ==> cursor.value.minor == 0
                                     && (videos[id].time < cursor.value.major
                                         || (videos[id].time == cursor.value.major && id < cursor.value.id)))
      ensures || Key(videos[id].time, 0, id) in rows
              || Key(videos[id].time, 0, id) in missing
              || (|rows| == limit
                  && forall k :: k in rows ==> k.major > videos[id].time || (k.major == videos[id].time && k.id > id))
    {
      var own := Key(videos[id].time, 0, id);
      assert (user, videos[id].author).1 in Followed(follows, user);
      ByAuthorsKey(videos, Followed(follows, user), own);
      if own !in rows && own !in missing {
        assert own in pool && AllAhead(rows, own);
      }
    }
  }

  /** What a page misses, said of the tables and the indexes alone. */
  lemma MissingInIndexes(videos: Videos, follows: Follows, indexes: Indexes, now: int, threshold: nat, user: nat, missing: set<Key>)
    requires missing <= ByAuthors(videos, Followed(follows, user))
    requires forall k :: k in missing ==> LackedBySource(videos, follows, indexes, now, threshold, user, k)
    ensures forall k :: k in missing ==>
              && k.id in videos && (user, videos[k.id].author) in follows && k == Key(videos[k.id].time, 0, k.id)
              && var key := if |set f | f in follows && f.1 == videos[k.id].author :: f.0| >= threshold
                            then Author(videos[k.id].author) else Inbox(user);
                 && key in indexes && now <= indexes[key].until && now <= indexes[key].readyUntil
                 && indexes[key].ready.Some? && videos[k.id].author in indexes[key].ready.value
                 && k !in indexes[key].members
                 && exists m :: m in indexes[key].members && m.major <= k.major
  {
    forall k | k in missing
      ensures && k.id in videos && (user, videos[k.id].author) in follows && k == Key(videos[k.id].time, 0, k.id)
              && var key := if |set f | f in follows && f.1 == videos[k.id].author :: f.0| >= threshold
                            then Author(videos[k.id].author) else Inbox(user);
                 && key in indexes && now <= indexes[key].until && now <= indexes[key].readyUntil
                 && indexes[key].ready.Some? && videos[k.id].author in indexes[key].ready.value
                 && k !in indexes[key].members
                 && exists m :: m in indexes[key].members && m.major <= k.major
    {
      ByAuthorsKey(videos, Followed(follows, user), k);
      var followers := set f | f in follows && f.1 == videos[k.id].author :: f.0;
      assert followers == Followers(follows, videos[k.id].author);
    }
  }

  /** How an index came about: a run of its own world from empty stores. */
  datatype History = History(start: int, steps: seq<Step>)

  ghost function WorldOf(h: History, capacity: nat): World {
    Run(Start(h.start), h.steps, capacity)
  }

  /** Every index this user's reads consult is as some run of pushes, rebuilds, inserts and deletes
      over the same database has left it. */
  ghost predicate Explained(videos: Videos, indexes: Indexes, now: int, capacity: nat, history: map<SourceKey, History>) {
    forall key :: key in history ==>
      var w := WorldOf(history[key], capacity);
      w.videos == videos && w.now == now && w.index == At(indexes, key)
  }

  /** How stale a page can be: each post it leaves out was inserted after the database snapshot of
      the rebuild that set the marker of the index consulted for its author. */
  lemma ReadIsBoundedStale(videos: Videos, follows: Follows, indexes: Indexes, now: int, threshold: nat, user: nat,
                           capacity: nat, history: map<SourceKey, History>, missing: set<Key>, k: Key)
    requires missing <= ByAuthors(videos, Followed(follows, user)) && k in missing
    requires forall m :: m in missing ==> LackedBySource(videos, follows, indexes, now, threshold, user, m)
    requires Explained(videos, indexes, now, capacity, history)
    requires forall a :: a in Followed(follows, user) ==> SourceOf(follows, threshold, user, a) in history
    ensures var w := WorldOf(history[SourceOf(follows, threshold, user, videos[k.id].author)], capacity);
            k.id in w.born && w.markerTaken <= w.born[k.id]
  {
    ByAuthorsKey(videos, Followed(follows, user), k);
    var key := SourceOf(follows, threshold, user, videos[k.id].author);
    var h := history[key];
    var w := WorldOf(h, capacity);
    BoundedStaleness(h.start, h.steps, capacity, Live(w.index, w.now).ready.value, k.id);
  }

  /** What has been gathered for the authors covered so far. */
  ghost predicate Gathered(videos: Videos, follows: Follows, indexes: Indexes, now: int, threshold: nat, user: nat,
                           cursor: Option<Key>, limit: nat, covered: set<nat>, missing: set<Key>,
                           sources: seq<seq<Key>>, pools: seq<set<Key>>) {
    && Pages(sources, pools, limit)
    && missing <= ByAuthors(videos, covered)
    && Pooled(pools) == Before(ByAuthors(videos, covered) - missing, cursor)
    && (forall k :: k in missing ==> LackedBySource(videos, follows, indexes, now, threshold, user, k))
  }

  /** One more source, for authors not covered yet. */
  lemma GatherSource(videos: Videos, follows: Follows, indexes: Indexes, now: int, threshold: nat, user: nat,
                     cursor: Option<Key>, limit: nat, covered: set<nat>, missing: set<Key>,
                     sources: seq<seq<Key>>, pools: seq<set<Key>>, authors: set<nat>, lost: set<Key>)
    requires Gathered(videos, follows, indexes, now, threshold, user, cursor, limit, covered, missing, sources, pools)
    requires covered !! authors
    requires lost <= ByAuthors(videos, authors)
    requires forall k :: k in lost ==> LackedBySource(videos, follows, indexes, now, threshold, user, k)
    ensures Gathered(videos, follows, indexes, now, threshold, user, cursor, limit, covered + authors, missing + lost,
                     sources + [QueryWithout(videos, authors, lost, cursor, limit)],
                     pools + [Before(ByAuthors(videos, authors) - lost, cursor)])
  {
    var pool := Before(ByAuthors(videos, authors) - lost, cursor);
    PooledAppend(pools, pool);
    SplitAuthors(videos, covered, authors, missing, lost);
  }

  lemma PooledAppend(pools: seq<set<Key>>, pool: set<Key>)
    ensures Pooled(pools + [pool]) == Pooled(pools) + pool
  {
    var longer := pools + [pool];
    forall k | k in Pooled(pools) + pool ensures k in Pooled(longer) {
      if k in pool {
        assert longer[|pools|] == pool;
      } else {
        var i :| 0 <= i < |pools| && k in pools[i];
        assert k in longer[i];
      }
    }
  }

  lemma SplitAuthors(videos: Videos, a: set<nat>, b: set<nat>, missing: set<Key>, lost: set<Key>)
    requires a !! b && missing <= ByAuthors(videos, a) && lost <= ByAuthors(videos, b)
    ensures ByAuthors(videos, a + b) == ByAuthors(videos, a) + ByAuthors(videos, b)
    ensures ByAuthors(videos, a + b) - (missing + lost)
         == (ByAuthors(videos, a) - missing) + (ByAuthors(videos, b) - lost)
  {
    forall k ensures k in ByAuthors(videos, a + b) <==> k in ByAuthors(videos, a) || k in ByAuthors(videos, b)
      ensures !(k in ByAuthors(videos, a) && k in ByAuthors(videos, b))
    {
      ByAuthorsKey(videos, a, k);
      ByAuthorsKey(videos, b, k);
      ByAuthorsKey(videos, a + b, k);
    }
  }

  /** Merging the gathered sources is one query over everything they cover. */
  lemma MergedRead(videos: Videos, follows: Follows, indexes: Indexes, now: int, threshold: nat, user: nat,
                   cursor: Option<Key>, limit: nat, covered: set<nat>, missing: set<Key>,
                   sources: seq<seq<Key>>, pools: seq<set<Key>>)
    requires Gathered(videos, follows, indexes, now, threshold, user, cursor, limit, covered, missing, sources, pools)
    ensures Top(MergeHeap.Freshest(MergeHeap.Union(sources)), limit)
         == QueryWithout(videos, covered, missing, cursor, limit)
    ensures forall i :: 0 <= i < |sources| ==> MergeHeap.NonIncreasing(sources[i])
  {
    MergeOfPages(sources, pools, limit);
    forall a, b | a in MergeHeap.Union(sources) && b in MergeHeap.Union(sources) && a.id == b.id
      ensures a == b
    {
      ByAuthorsKey(videos, covered, a);
      ByAuthorsKey(videos, covered, b);
    }
    MergeHeap.FreshestOfRows(MergeHeap.Union(sources));
  }

  /** Whatever is missing, the rows are real: posts of these authors, strictly after the cursor,
      strictly newest first, and no more of them than asked for. */
  lemma RowsAreSound(videos: Videos, authors: set<nat>, missing: set<Key>, cursor: Option<Key>, limit: nat, k: Key)
    requires k in QueryWithout(videos, authors, missing, cursor, limit)
    ensures Descending(QueryWithout(videos, authors, missing, cursor, limit))
    ensures |QueryWithout(videos, authors, missing, cursor, limit)| <= limit
    ensures k.id in videos && videos[k.id].author in authors && k == FeedKey(k.id, videos[k.id])
    ensures cursor.Some? ==> Ahead(cursor.value, k)
  {
    assert k in Before(ByAuthors(videos, authors) - missing, cursor);
  }

  // ---------------------------------------------------------------- fan-out

  const MAX_UINT: nat := 0xFFFF_FFFF_FFFF_FFFF

  /** The same post appended to each of these indexes. */
  function PushTo(indexes: Indexes, keys: set<SourceKey>, now: int, k: Key, capacity: nat): Indexes {
    indexes + map key | key in keys :: Pushed(At(indexes, key), now, k, capacity)
  }

  function KeySet(keys: seq<SourceKey>): set<SourceKey> {
    set key | key in keys
  }

  lemma PushedAt(indexes: Indexes, keys: set<SourceKey>, now: int, k: Key, capacity: nat, key: SourceKey)
    ensures key in PushTo(indexes, keys, now, k, capacity) <==> key in indexes || key in keys
    ensures At(PushTo(indexes, keys, now, k, capacity), key)
         == if key in keys then Pushed(At(indexes, key), now, k, capacity) else At(indexes, key)
  {
  }

  /** Pushing to some indexes and then to others, again or not, is pushing once to all of them. */
  lemma PushTwice(indexes: Indexes, a: set<SourceKey>, b: set<SourceKey>, now: int, k: Key, capacity: nat)
    ensures PushTo(PushTo(indexes, a, now, k, capacity), b, now, k, capacity)
         == PushTo(indexes, a + b, now, k, capacity)
  {
    var first := PushTo(indexes, a, now, k, capacity);
    var second := PushTo(first, b, now, k, capacity);
    var whole := PushTo(indexes, a + b, now, k, capacity);
    forall key ensures (key in second <==> key in whole) && At(second, key) == At(whole, key) {
      PushedAt(indexes, a, now, k, capacity, key);
      PushedAt(first, b, now, k, capacity, key);
      PushedAt(indexes, a + b, now, k, capacity, key);
      AppendTwice(At(indexes, key), now, {k}, capacity);
    }
    SameIndexes(second, whole);
  }

  lemma SameIndexes(a: Indexes, b: Indexes)
    requires forall key :: (key in a <==> key in b) && At(a, key) == At(b, key)
    ensures a == b
  {
    forall key | key in a ensures key in b && a[key] == b[key] {
      assert At(a, key) == At(b, key);
    }
    forall key | key in b ensures key in a {
      assert key in a <==> key in b;
    }
  }

  lemma PushOne(indexes: Indexes, key: SourceKey, now: int, k: Key, capacity: nat)
    ensures indexes[key := Pushed(At(indexes, key), now, k, capacity)] == PushTo(indexes, {key}, now, k, capacity)
  {
  }

  /** What happens to the cache while a post is fanned out: a push of it that reached some of the
      keys, or any other write to one index. */
  datatype CacheOp = Push(now: int, keys: set<SourceKey>) | Elsewhere(key: SourceKey, write: Write)

  function CacheTime(op: CacheOp): int {
    if op.Push? then op.now else op.write.now
  }

  predicate CacheInOrder(start: int, ops: seq<CacheOp>, end: int)
    decreases |ops|
  {
    if ops == [] then start <= end else start <= CacheTime(ops[0]) && CacheInOrder(CacheTime(ops[0]), ops[1..], end)
  }

  function Happen(indexes: Indexes, ops: seq<CacheOp>, k: Key, capacity: nat): Indexes
    decreases |ops|
  {
    if ops == [] then indexes
    else
      var next := match ops[0]
                  case Push(now, keys) => PushTo(indexes, keys, now, k, capacity)
                  case Elsewhere(key, write) => indexes[key := Written(At(indexes, key), write, capacity)];
      Happen(next, ops[1..], k, capacity)
  }

  /** The keys the pushes reached. */
  function Reached(ops: seq<CacheOp>): set<SourceKey> {
    if ops == [] then {} else (if ops[0].Push? then ops[0].keys else {}) + Reached(ops[1..])
  }

  lemma {:induction false} HappenSplit(indexes: Indexes, a: seq<CacheOp>, b: seq<CacheOp>, k: Key, capacity: nat)
    ensures Happen(indexes, a + b, k, capacity) == Happen(Happen(indexes, a, k, capacity), b, k, capacity)
    ensures Reached(a + b) == Reached(a) + Reached(b)
    decreases |a|
  {
    if a == [] {
      assert a + b == b;
    } else {
      assert (a + b)[0] == a[0] && (a + b)[1..] == a[1..] + b;
      var next := match a[0]
                  case Push(now, keys) => PushTo(indexes, keys, now, k, capacity)
                  case Elsewhere(key, write) => indexes[key := Written(At(indexes, key), write, capacity)];
      HappenSplit(next, a[1..], b, k, capacity);
    }
  }

  lemma {:induction false} InOrderJoin(start: int, a: seq<CacheOp>, mid: int, b: seq<CacheOp>, end: int)
    requires CacheInOrder(start, a, mid) && CacheInOrder(mid, b, end)
    ensures CacheInOrder(start, a + b, end)
    decreases |a|
  {
    if a == [] {
      assert a + b == b;
    } else {
      assert (a + b)[0] == a[0] && (a + b)[1..] == a[1..] + b;
      InOrderJoin(CacheTime(a[0]), a[1..], mid, b, end);
    }
  }

  function WithoutPushes(ops: seq<CacheOp>): seq<CacheOp> {
    if ops == [] then [] else (if ops[0].Push? then [] else [ops[0]]) + WithoutPushes(ops[1..])
  }

  /** The part of a history that concerns one index. */
  function OpsAt(ops: seq<CacheOp>, key: SourceKey): seq<Op> {
    if ops == [] then []
    else
      (match ops[0]
       case Push(now, keys) => if key in keys then [Retry(now)] else []
       case Elsewhere(other, write) => if other == key then [Other(write)] else [])
      + OpsAt(ops[1..], key)
  }

  lemma {:induction false} HappenAt(indexes: Indexes, ops: seq<CacheOp>, k: Key, capacity: nat, key: SourceKey)
    ensures At(Happen(indexes, ops, k, capacity), key)
         == WriteAll(At(indexes, key), Writes(OpsAt(ops, key), k), capacity)
    ensures key in Happen(indexes, ops, k, capacity) <==> key in indexes || OpsAt(ops, key) != []
    decreases |ops|
  {
    if ops != [] {
      var next := match ops[0]
                  case Push(now, keys) => PushTo(indexes, keys, now, k, capacity)
                  case Elsewhere(other, write) => indexes[other := Written(At(indexes, other), write, capacity)];
      var rest := OpsAt(ops[1..], key);
      HappenAt(next, ops[1..], k, capacity, key);
      if ops[0].Push? {
        PushedAt(indexes, ops[0].keys, ops[0].now, k, capacity, key);
        if key in ops[0].keys {
          assert OpsAt(ops, key) == [Retry(ops[0].now)] + rest;
          FirstWrite(Retry(ops[0].now), rest, k);
        } else {
          assert OpsAt(ops, key) == rest;
        }
      } else if ops[0].key == key {
        assert OpsAt(ops, key) == [Other(ops[0].write)] + rest;
        FirstWrite(Other(ops[0].write), rest, k);
      } else {
        assert OpsAt(ops, key) == rest;
      }
    }
  }

  lemma FirstWrite(op: Op, rest: seq<Op>, k: Key)
    ensures Writes([op] + rest, k) == [WriteOf(op, k)] + Writes(rest, k)
    ensures ([WriteOf(op, k)] + Writes(rest, k))[1..] == Writes(rest, k)
    ensures CleanWrites([op] + rest) == (if op.Retry? then [] else [op.write]) + CleanWrites(rest)
  {
    assert ([op] + rest)[1..] == rest;
  }

  lemma {:induction false} CleanAt(ops: seq<CacheOp>, k: Key, key: SourceKey)
    ensures Writes(OpsAt(WithoutPushes(ops), key), k) == CleanWrites(OpsAt(ops, key))
    ensures OpsAt(WithoutPushes(ops), key) == [] <==> forall op :: op in OpsAt(ops, key) ==> op.Retry?
    decreases |ops|
  {
    if ops != [] {
      var rest, cleanRest := OpsAt(ops[1..], key), OpsAt(WithoutPushes(ops[1..]), key);
      CleanAt(ops[1..], k, key);
      if ops[0].Push? {
        assert WithoutPushes(ops) == WithoutPushes(ops[1..]);
        if key in ops[0].keys {
          assert OpsAt(ops, key) == [Retry(ops[0].now)] + rest;
          FirstWrite(Retry(ops[0].now), rest, k);
        } else {
          assert OpsAt(ops, key) == rest;
        }
      } else {
        assert WithoutPushes(ops)[1..] == WithoutPushes(ops[1..]);
        if ops[0].key == key {
          assert OpsAt(ops, key) == [Other(ops[0].write)] + rest;
          assert OpsAt(WithoutPushes(ops), key) == [Other(ops[0].write)] + cleanRest;
          FirstWrite(Other(ops[0].write), rest, k);
          FirstWrite(Other(ops[0].write), cleanRest, k);
        } else {
          assert OpsAt(ops, key) == rest;
          assert OpsAt(WithoutPushes(ops), key) == cleanRest;
        }
      }
    }
  }

  lemma {:induction false} InOrderAt(start: int, ops: seq<CacheOp>, end: int, key: SourceKey, from: int)
    requires CacheInOrder(start, ops, end) && from <= start
    ensures InOrder(from, OpsAt(ops, key), end)
    decreases |ops|
  {
    if ops != [] {
      var t, rest := CacheTime(ops[0]), OpsAt(ops[1..], key);
      InOrderAt(t, ops[1..], end, key, t);
      InOrderAt(t, ops[1..], end, key, from);
      var first := if ops[0].Push? then (if key in ops[0].keys then [Retry(t)] else [])
                   else if ops[0].key == key then [Other(ops[0].write)] else [];
      assert OpsAt(ops, key) == first + rest;
      if first != [] {
        assert (first + rest)[1..] == rest && TimeOf((first + rest)[0]) == t;
      } else {
        assert first + rest == rest;
      }
    }
  }

  lemma {:induction false} OnlyOthers(ops: seq<Op>, k: Key)
    requires forall op :: op in ops ==> op.Other?
    ensures Writes(ops, k) == CleanWrites(ops)
  {
    if ops != [] {
      assert ops[0] in ops;
      OnlyOthers(ops[1..], k);
    }
  }

  predicate Tried(ops: seq<CacheOp>, key: SourceKey) {
    exists op :: op in OpsAt(ops, key) && op.Retry?
  }

  /** The pushes of a run that completes count as any other write. */
  function Kept(ops: seq<Op>, k: Key): (kept: seq<Op>)
    ensures |kept| == |ops|
    ensures Writes(kept, k) == Writes(ops, k) == CleanWrites(kept)
  {
    if ops == [] then [] else [Other(WriteOf(ops[0], k))] + Kept(ops[1..], k)
  }

  lemma {:induction false} InOrderKept(start: int, run: seq<Op>, end: int, k: Key)
    requires InOrder(start, run, end)
    ensures InOrder(start, Kept(run, k), end)
    decreases |run|
  {
    if run != [] {
      assert Kept(run, k)[1..] == Kept(run[1..], k);
      InOrderKept(TimeOf(run[0]), run[1..], end, k);
    }
  }

  lemma {:induction false} InOrderThen(start: int, a: seq<Op>, mid: int, b: seq<Op>, end: int)
    requires InOrder(start, a, mid) && InOrder(mid, b, end)
    ensures InOrder(start, a + b, end)
    decreases |a|
  {
    if a == [] {
      assert a + b == b;
    } else {
      assert (a + b)[0] == a[0] && (a + b)[1..] == a[1..] + b;
      InOrderThen(TimeOf(a[0]), a[1..], mid, b, end);
    }
  }

  /** The complete run pushes to this key again, at its own time, and until then nothing expires. */
  ghost predicate Recovers(indexes: Indexes, start: int, failed: seq<CacheOp>, run: seq<CacheOp>, k: Key, capacity: nat, key: SourceKey) {
    && At(indexes, key).until <= start + TTL
    && Settled(At(indexes, key), OpsAt(failed, key) + Kept(OpsAt(run, key), k), k, capacity)
  }

  /** One index after a history and a complete run, from what reached it. */
  lemma RunAt(indexes: Indexes, failed: seq<CacheOp>, run: seq<CacheOp>, k: Key, capacity: nat, key: SourceKey)
    ensures At(Happen(Happen(indexes, failed, k, capacity), run, k, capacity), key)
         == WriteAll(At(indexes, key), Writes(OpsAt(failed, key) + Kept(OpsAt(run, key), k), k), capacity)
    ensures key in Happen(Happen(indexes, failed, k, capacity), run, k, capacity)
       <==> key in indexes || OpsAt(failed, key) != [] || OpsAt(run, key) != []
  {
    HappenAt(indexes, failed, k, capacity, key);
    HappenAt(Happen(indexes, failed, k, capacity), run, k, capacity, key);
    WritesSplit(OpsAt(failed, key), Kept(OpsAt(run, key), k), k);
    WriteAllSplit(At(indexes, key), Writes(OpsAt(failed, key), k), Writes(OpsAt(run, key), k), capacity);
  }

  lemma CleanRunAt(indexes: Indexes, failed: seq<CacheOp>, run: seq<CacheOp>, k: Key, capacity: nat, key: SourceKey)
    ensures At(Happen(Happen(indexes, WithoutPushes(failed), k, capacity), run, k, capacity), key)
         == WriteAll(At(indexes, key), CleanWrites(OpsAt(failed, key) + Kept(OpsAt(run, key), k)), capacity)
    ensures key in Happen(Happen(indexes, WithoutPushes(failed), k, capacity), run, k, capacity)
       <==> key in indexes || OpsAt(WithoutPushes(failed), key) != [] || OpsAt(run, key) != []
  {
    RunAt(indexes, WithoutPushes(failed), run, k, capacity, key);
    CleanAt(failed, k, key);
    WritesSplit(OpsAt(WithoutPushes(failed), key), Kept(OpsAt(run, key), k), k);
    WritesSplit(OpsAt(failed, key), Kept(OpsAt(run, key), k), k);
  }

  /** A tried index was written by something else too: by the run that made the try good. */
  lemma TriedIsThere(ix: Index, ops: seq<Op>, run: seq<Op>, k: Key, capacity: nat)
    requires ops != [] && Settled(ix, ops + Kept(run, k), k, capacity)
    ensures run != [] || exists op :: op in ops && op.Other?
  {
    var all := ops + Kept(run, k);
    if run == [] && ops[0].Retry? {
      assert all == ops;
      var i: nat :| Settles(ix, all, i, k, capacity);
      assert all[i] in ops;
    }
  }

  lemma SameAt(indexes: Indexes, start: int, failed: seq<CacheOp>, mid: int, run: seq<CacheOp>,
               k: Key, end: int, capacity: nat, key: SourceKey)
    requires capacity > 0 && CacheInOrder(start, failed, mid) && CacheInOrder(mid, run, end)
    requires Tried(failed, key) ==> Recovers(indexes, start, failed, run, k, capacity, key)
    ensures WriteAll(At(indexes, key), Writes(OpsAt(failed, key) + Kept(OpsAt(run, key), k), k), capacity)
         == WriteAll(At(indexes, key), CleanWrites(OpsAt(failed, key) + Kept(OpsAt(run, key), k)), capacity)
    ensures OpsAt(failed, key) != [] && OpsAt(run, key) == [] ==> OpsAt(WithoutPushes(failed), key) != []
  {
    var ops, done := OpsAt(failed, key), Kept(OpsAt(run, key), k);
    CleanAt(failed, k, key);
    if Tried(failed, key) {
      TriedIsThere(At(indexes, key), ops, OpsAt(run, key), k, capacity);
      InOrderAt(start, failed, mid, key, start);
      InOrderAt(mid, run, end, key, mid);
      InOrderKept(mid, OpsAt(run, key), end, k);
      InOrderThen(start, ops, mid, done, end);
      SettledTriesVanish(At(indexes, key), start, ops + done, k, end, capacity);
    } else {
      OnlyOthers(ops, k);
      WritesSplit(ops, done, k);
      assert ops != [] ==> ops[0] in ops;
    }
  }

  /** However many partial runs came first, at whatever times, a complete run leaves what it leaves
      without them, if no index that a failed try reached expires before the complete run reaches it.
      Every push has its own time, and there may be any other writes between any two of them. */
  lemma RestartsConverge(indexes: Indexes, start: int, failed: seq<CacheOp>, mid: int, run: seq<CacheOp>,
                         k: Key, end: int, capacity: nat)
    requires capacity > 0 && CacheInOrder(start, failed, mid) && CacheInOrder(mid, run, end)
    requires forall key :: Tried(failed, key) ==> Recovers(indexes, start, failed, run, k, capacity, key)
    ensures Happen(Happen(indexes, failed, k, capacity), run, k, capacity)
         == Happen(Happen(indexes, WithoutPushes(failed), k, capacity), run, k, capacity)
  {
    var retried := Happen(Happen(indexes, failed, k, capacity), run, k, capacity);
    var clean := Happen(Happen(indexes, WithoutPushes(failed), k, capacity), run, k, capacity);
    forall key ensures (key in retried <==> key in clean) && At(retried, key) == At(clean, key) {
      RunAt(indexes, failed, run, k, capacity, key);
      CleanRunAt(indexes, failed, run, k, capacity, key);
      CleanAt(failed, k, key);
      SameAt(indexes, start, failed, mid, run, k, end, capacity, key);
    }
    SameIndexes(retried, clean);
  }

  /** The indexes and the clock come from `start` through this history. */
  ghost predicate CameBy(from: Indexes, start: int, ops: seq<CacheOp>, k: Key, capacity: nat, indexes: Indexes, now: int) {
    indexes == Happen(from, ops, k, capacity) && CacheInOrder(start, ops, now)
  }

  lemma ComesFurther(from: Indexes, start: int, a: seq<CacheOp>, k: Key, capacity: nat, between: Indexes, mid: int,
                     b: seq<CacheOp>, indexes: Indexes, now: int)
    requires CameBy(from, start, a, k, capacity, between, mid) && CameBy(between, mid, b, k, capacity, indexes, now)
    ensures CameBy(from, start, a + b, k, capacity, indexes, now) && Reached(a + b) == Reached(a) + Reached(b)
  {
    HappenSplit(from, a, b, k, capacity);
    InOrderJoin(start, a, mid, b, now);
  }

  lemma OneOp(indexes: Indexes, op: CacheOp, start: int, k: Key, capacity: nat)
    requires start <= CacheTime(op)
    ensures CameBy(indexes, start, [op], k, capacity,
                   match op
                   case Push(t, keys) => PushTo(indexes, keys, t, k, capacity)
                   case Elsewhere(key, write) => indexes[key := Written(At(indexes, key), write, capacity)],
                   CacheTime(op))
    ensures Reached([op]) == if op.Push? then op.keys else {}
  {
    assert [op][1..] == [];
  }

  /** The index holds k, or is full of newer posts, and lives until then. */
  ghost predicate Shows(ix: Index, k: Key, capacity: nat, until: int) {
    ix.members != {} && until <= ix.until && Accounts(ix.members, capacity, k)
  }

  lemma WriteShows(ix: Index, w: Write, k: Key, capacity: nat, until: int)
    requires capacity > 0 && w.now <= until <= w.now + TTL
    requires Shows(ix, k, capacity, until) || k in w.items
    ensures Shows(Written(ix, w, capacity), k, capacity, until)
  {
    var live := Live(ix, w.now).members;
    var pool := live + w.items;
    if k in w.items {
      NewestCount({k}, capacity);
      assert Accounts({k}, capacity, k);
      UnionAccounts({k}, pool, capacity, k);
    } else {
      UnionAccounts(live, pool, capacity, k);
    }
    NewestIsEmpty(pool, capacity);
  }

  /** Whatever is written after a push, the post stays until a day after it, or newer ones fill the index. */
  lemma {:induction false} PushLasts(ix: Index, start: int, ops: seq<Op>, end: int, k: Key, capacity: nat, until: int)
    requires capacity > 0 && InOrder(start, ops, end) && end <= until <= start + TTL
    requires Shows(ix, k, capacity, until) || exists op :: op in ops && op.Retry?
    ensures Shows(WriteAll(ix, Writes(ops, k), capacity), k, capacity, until)
    decreases |ops|
  {
    if ops != [] {
      var w, rest := WriteOf(ops[0], k), ops[1..];
      assert Writes(ops, k)[1..] == Writes(rest, k);
      LaterOps(start, ops, end);
      if ops[0].Retry? || Shows(ix, k, capacity, until) {
        WriteShows(ix, w, k, capacity, until);
      } else {
        var op :| op in ops && op.Retry?;
        assert op in rest;
      }
      InOrderSooner(start, w.now, rest, end);
      PushLasts(Written(ix, w, capacity), start, rest, end, k, capacity, until);
    }
  }

  lemma {:induction false} LaterOps(start: int, ops: seq<Op>, end: int)
    requires InOrder(start, ops, end)
    ensures start <= end && (ops != [] ==> start <= TimeOf(ops[0]) <= end)
    decreases |ops|
  {
    if ops != [] {
      LaterOps(TimeOf(ops[0]), ops[1..], end);
    }
  }

  lemma InOrderSooner(start: int, mid: int, ops: seq<Op>, end: int)
    requires start <= mid && InOrder(mid, ops, end)
    ensures InOrder(start, ops, end)
  {
  }

  lemma {:induction false} ReachedIsTried(ops: seq<CacheOp>, key: SourceKey)
    requires key in Reached(ops)
    ensures exists op :: op in OpsAt(ops, key) && op.Retry?
  {
    if ops[0].Push? && key in ops[0].keys {
      assert OpsAt(ops, key)[0] == Retry(ops[0].now);
      assert OpsAt(ops, key)[0] in OpsAt(ops, key);
    } else {
      ReachedIsTried(ops[1..], key);
      var op :| op in OpsAt(ops[1..], key) && op.Retry?;
      assert op in OpsAt(ops, key);
    }
  }

  /** Within a day of a run's start, every index it reached holds the post, or is full of newer ones. */
  lemma ReachedShows(from: Indexes, start: int, ops: seq<CacheOp>, k: Key, capacity: nat, indexes: Indexes, now: int)
    requires capacity > 0 && CameBy(from, start, ops, k, capacity, indexes, now) && now <= start + TTL
    ensures forall key :: key in Reached(ops) ==>
              && key in indexes && now <= indexes[key].until
              && (k in indexes[key].members
                  || (|indexes[key].members| >= capacity
                      && forall m :: m in indexes[key].members ==>
                           || m.major > k.major
                           || (m.major == k.major && (m.minor > k.minor || (m.minor == k.minor && m.id > k.id)))))
  {
    forall key | key in Reached(ops)
      ensures && key in indexes && Shows(indexes[key], k, capacity, now)
    {
      ReachedIsTried(ops, key);
      HappenAt(from, ops, k, capacity, key);
      InOrderAt(start, ops, now, key, start);
      PushLasts(At(from, key), start, OpsAt(ops, key), now, k, capacity, now);
    }
    forall key | key in Reached(ops) && k !in indexes[key].members
      ensures |indexes[key].members| >= capacity && forall m :: m in indexes[key].members ==> Ahead(m, k)
    {
      assert Shows(indexes[key], k, capacity, now);
      assert Outranks(indexes[key].members, indexes[key].members, capacity, k);
    }
  }

  /** u is a follower each time the table is read from the first batch query on. */
  ghost predicate Throughout(u: nat, followersAt: nat -> set<nat>, rounds: nat) {
    forall i :: 1 <= i <= rounds ==> u in followersAt(i)
  }

  /** Only the author's index and inboxes of users who followed at some batch query. */
  ghost predicate Reachable(reached: set<SourceKey>, author: nat, followersAt: nat -> set<nat>, rounds: nat) {
    forall key :: key in reached && key != Author(author) ==>
      key.Inbox? && exists i :: 1 <= i <= rounds && key.user in followersAt(i)
  }

  /** Everyone up to `after` who followed at every batch query so far has been reached. */
  ghost predicate FannedOut(reached: set<SourceKey>, author: nat, followersAt: nat -> set<nat>, rounds: nat, after: nat) {
    && Author(author) in reached
    && Reachable(reached, author, followersAt, rounds)
    && forall u :: 0 < u <= after && Throughout(u, followersAt, rounds) ==> Inbox(u) in reached
  }

  lemma ExtendFanout(reached: set<SourceKey>, author: nat, followersAt: nat -> set<nat>, rounds: nat,
                     current: set<nat>, after: nat, after': nat, applied: set<SourceKey>, ok: bool, done: bool)
    requires FannedOut(reached, author, followersAt, rounds, after) && after <= after'
    requires current == followersAt(rounds + 1)
    requires forall key :: key in applied ==> key.Inbox? && key.user in current
    requires done && ok ==> forall f :: f in current ==> f <= after
    requires ok ==> forall f :: f in current && after < f <= after' ==> Inbox(f) in applied
    requires !ok ==> after' == after
    ensures FannedOut(reached + applied, author, followersAt, rounds + 1, after')
    ensures done && ok ==> FannedOut(reached + applied, author, followersAt, rounds + 1, MAX_UINT)
  {
    forall u | Throughout(u, followersAt, rounds + 1)
      ensures Throughout(u, followersAt, rounds) && u in current
    {
    }
  }

  class Service {
    var videos: Videos
    var follows: Follows
    var indexes: Indexes
    var now: int
    /** While Redis is healthy every command is carried out and answered. */
    var healthy: bool

    const hasCache: bool
    const celebrityThreshold: nat
    const capacity: nat
    const fanoutBatch: nat
    const maxPullSources: nat

    /** Options of zero are replaced by these defaults. */
    constructor (videos: Videos, follows: Follows, hasCache: bool, now: int,
                 threshold: nat, capacity: nat, batch: nat, pull: nat)
      ensures this.videos == videos && this.follows == follows && this.hasCache == hasCache
      ensures indexes == map[] && Valid()
      ensures celebrityThreshold == (if threshold == 0 then 100000 else threshold)
      ensures this.capacity == (if capacity == 0 then 1000 else capacity)
      ensures fanoutBatch == (if batch == 0 then 256 else batch)
      ensures maxPullSources == (if pull == 0 then 32 else pull)
    {
      this.videos, this.follows, this.hasCache, this.now := videos, follows, hasCache, now;
      indexes := map[];
      celebrityThreshold := if threshold == 0 then 100000 else threshold;
      this.capacity := if capacity == 0 then 1000 else capacity;
      fanoutBatch := if batch == 0 then 256 else batch;
      maxPullSources := if pull == 0 then 32 else pull;
    }

    ghost predicate Valid()
      reads this
    {
      && capacity > 0 && fanoutBatch > 0
      && forall key :: key in indexes ==> Faithful(videos, indexes[key].members)
    }

    /** A rebuild's write to the index of these authors. */
    ghost function Rebuilt(ix: Index, authors: seq<nat>): Index
      reads this
    {
      Append(ix, now, Elements(Query(videos, AuthorSet(authors), None, capacity)), capacity, Some(authors))
    }

    /** Loads recent history from the database into the index, independently of the page asked for. */
    method Rebuild(key: SourceKey, authors: seq<nat>)
      requires Valid()
      modifies this`indexes
      ensures Valid()
      ensures healthy ==> indexes == old(indexes)[key := Rebuilt(At(old(indexes), key), authors)]
      ensures indexes == old(indexes) || indexes == old(indexes)[key := Rebuilt(At(old(indexes), key), authors)]
    {
      var items := Query(videos, AuthorSet(authors), None, capacity);
      var written: bool := *;
      if healthy || written {
        indexes := indexes[key := Append(At(indexes, key), now, Elements(items), capacity, Some(authors))];
      }
    }

    /** One source of a page: the inbox for the ordinary authors, or one celebrity's own posts. */
    method Source(key: SourceKey, authors: seq<nat>, cursor: Option<Key>, limit: nat)
      returns (rows: seq<Key>, ghost missing: set<Key>)
      requires Valid() && limit > 0
      modifies this`indexes
      ensures Valid()
      ensures rows == QueryWithout(videos, AuthorSet(authors), missing, cursor, limit)
      ensures missing == {} || missing == Missing(videos, AuthorSet(authors), Live(At(old(indexes), key), now).members)
      ensures missing != {} ==> Live(At(old(indexes), key), now).ready == Some(authors)
      ensures indexes == old(indexes) || indexes == old(indexes)[key := Rebuilt(At(old(indexes), key), authors)]
      ensures healthy ==> Live(At(indexes, key), now).ready == Some(authors)
    {
      missing := {};
      var everyone := ByAuthors(videos, AuthorSet(authors));
      assert everyone - {} == everyone;
      var unreachable: bool := *;
      if !healthy && unreachable {
        rows := Query(videos, AuthorSet(authors), cursor, limit);
        return;
      }
      var page := Page(At(indexes, key), now, authors, cursor, limit);
      if page.None? {
        Rebuild(key, authors);
        rows := Query(videos, AuthorSet(authors), cursor, limit);
        return;
      }
      var members := page.value;
      // A short page may run past the retained history: ask the database for all of it.
      if |members| < limit {
        rows := Query(videos, AuthorSet(authors), cursor, limit);
        return;
      }
      rows := Validated(videos, MergeHeap.Ids(members), AuthorSet(authors), cursor);
      if |rows| < limit {
        rows := Query(videos, AuthorSet(authors), cursor, limit);
        return;
      }
      ghost var live := Live(At(indexes, key), now).members;
      assert Faithful(videos, live);
      assert Elements(members) <= live;
      ValidationKeepsPage(videos, AuthorSet(authors), cursor, members);
      FullPageIsQuery(videos, AuthorSet(authors), live, cursor, limit);
      missing := Missing(videos, AuthorSet(authors), live);
    }

    predicate Celebrity(author: nat)
      reads this
    {
      |Followers(follows, author)| >= celebrityThreshold
    }

    /** Splits the followed authors by their current follower count, keeping the order. */
    method Classify(authors: seq<nat>) returns (normal: seq<nat>, celebrities: seq<nat>)
      requires Increasing(authors)
      ensures Increasing(celebrities)
      ensures forall a :: a in normal <==> a in authors && !Celebrity(a)
      ensures forall a :: a in celebrities <==> a in authors && Celebrity(a)
    {
      var big: map<nat, bool> := map[];
      for i := 0 to |authors|
        invariant forall a :: a in authors[..i] ==> a in big && big[a] == Celebrity(a)
      {
        big := big[authors[i] := |Followers(follows, authors[i])| >= celebrityThreshold];
        assert authors[..i + 1] == authors[..i] + [authors[i]];
      }
      assert authors[..|authors|] == authors;
      normal, celebrities := [], [];
      for i := 0 to |authors|
        invariant Increasing(celebrities)
        invariant forall a :: a in normal <==> a in authors[..i] && !Celebrity(a)
        invariant forall a :: a in celebrities <==> a in authors[..i] && Celebrity(a)
      {
        var a := authors[i];
        assert a in authors;
        assert forall j :: 0 <= j < |celebrities| ==> celebrities[j] in authors[..i];
        assert authors[..i + 1] == authors[..i] + [a];
        if big[a] {
          celebrities := celebrities + [a];
        } else {
          normal := normal + [a];
        }
      }
    }

    /** One page of the following feed, said of the two tables and the indexes alone: every row is a
        post of an author the user follows, after the cursor, newest first by create time and then id;
        a followed post after the cursor is on the page, or missing, or the page is full of newer ones;
        and what is missing, the live and ready index of its author or inbox lacks above an older post. */
    method Read(user: nat, cursor: Option<Key>, limit: int) returns (reply: Reply, ghost missing: set<Key>)
      requires Valid()
      modifies this`indexes
      ensures Valid()
      ensures user == 0 ==> reply == Rows([])
      ensures user != 0 ==> (reply.InvalidLimit? <==> !(1 <= limit <= 51))
      ensures reply.Rows? ==> forall k :: k in reply.rows ==>
                k.id in videos && (user, videos[k.id].author) in follows && k == Key(videos[k.id].time, 0, k.id)
      ensures reply.Rows? ==> forall i, j :: 0 <= i < j < |reply.rows| ==>
                reply.rows[i].major > reply.rows[j].major
                || (reply.rows[i].major == reply.rows[j].major && reply.rows[i].id > reply.rows[j].id)
      ensures reply.Rows? && cursor.Some? && cursor.value.minor == 0 ==> forall k :: k in reply.rows ==>
                k.major < cursor.value.major || (k.major == cursor.value.major && k.id < cursor.value.id)
      ensures user != 0 && reply.Rows? ==> |reply.rows| <= limit
      ensures user != 0 && reply.Rows? ==> forall id ::
                id in videos && (user, videos[id].author) in follows
                && (cursor.Some? ==> cursor.value.minor == 0
                                     && (videos[id].time < cursor.value.major
                                         || (videos[id].time == cursor.value.major && id < cursor.value.id))) ==>
                  || Key(videos[id].time, 0, id) in reply.rows
                  || Key(videos[id].time, 0, id) in missing
                  || (|reply.rows| == limit
                      && forall k :: k in reply.rows ==>
                           k.major > videos[id].time || (k.major == videos[id].time && k.id > id))
      ensures forall k :: k in missing ==>
                && k.id in videos && (user, videos[k.id].author) in follows && k == Key(videos[k.id].time, 0, k.id)
                && var key := if |set f | f in follows && f.1 == videos[k.id].author :: f.0| >= celebrityThreshold
                              then Author(videos[k.id].author) else Inbox(user);
                   && key in old(indexes) && now <= old(indexes)[key].until && now <= old(indexes)[key].readyUntil
                   && old(indexes)[key].ready.Some? && videos[k.id].author in old(indexes)[key].ready.value
                   && k !in old(indexes)[key].members
                   && exists m :: m in old(indexes)[key].members && m.major <= k.major
      ensures !hasCache ==> missing == {}
      ensures user != 0 && 1 <= limit <= 51 ==>
                reply == Rows(QueryWithout(videos, Followed(follows, user), missing, cursor, limit))
      ensures missing <= ByAuthors(videos, Followed(follows, user))
      ensures forall k :: k in missing ==>
                LackedBySource(videos, follows, old(indexes), now, celebrityThreshold, user, k)
      ensures user != 0 && 1 <= limit <= 51
              && NothingLacked(videos, follows, old(indexes), now, celebrityThreshold, user)
              ==> missing == {} && reply == Rows(FromDB(videos, follows, user, cursor, limit))
      ensures NoMoreLacked(videos, follows, now, celebrityThreshold, old(indexes), indexes)
      ensures healthy && hasCache && user != 0 && 1 <= limit <= 51
              && |set f | f in follows && f.0 == user && |set g | g in follows && g.1 == f.1 :: g.0| >= celebrityThreshold :: f.1|
                 <= maxPullSources ==>
                forall a :: (user, a) in follows ==>
                  var key := if |set g | g in follows && g.1 == a :: g.0| >= celebrityThreshold then Author(a) else Inbox(user);
                  key in indexes && now <= indexes[key].readyUntil && indexes[key].ready.Some? && a in indexes[key].ready.value
    {
      reply, missing := Answer(user, cursor, limit);
      if healthy && hasCache && user != 0 && 1 <= limit <= 51 {
        ReadyOfTables(user);
      }
      MissingInIndexes(videos, follows, old(indexes), now, celebrityThreshold, user, missing);
      if user != 0 && reply.Rows? {
        PageOfTables(videos, follows, user, missing, cursor, limit);
      }
    }

    /** It is the one-query read over a database without `missing`, and each missing post is one that the index consulted for its author lacks
        while holding an older one; so it is the one-query read when no index does that. */
    method Answer(user: nat, cursor: Option<Key>, limit: int) returns (reply: Reply, ghost missing: set<Key>)
      requires Valid()
      modifies this`indexes
      ensures Valid()
      ensures user == 0 ==> reply == Rows([])
      ensures user != 0 && !(1 <= limit <= 51) ==> reply == InvalidLimit
      ensures user != 0 && 1 <= limit <= 51 ==>
                reply == Rows(QueryWithout(videos, Followed(follows, user), missing, cursor, limit))
      ensures !hasCache ==> missing == {}
      ensures missing <= ByAuthors(videos, Followed(follows, user))
      ensures forall k :: k in missing ==>
                LackedBySource(videos, follows, old(indexes), now, celebrityThreshold, user, k)
      ensures user != 0 && 1 <= limit <= 51
              && NothingLacked(videos, follows, old(indexes), now, celebrityThreshold, user)
              ==> missing == {} && reply == Rows(FromDB(videos, follows, user, cursor, limit))
      ensures NoMoreLacked(videos, follows, now, celebrityThreshold, old(indexes), indexes)
      ensures healthy && hasCache && user != 0 && 1 <= limit <= 51 && |Celebrities(user)| <= maxPullSources ==>
                forall a :: a in Followed(follows, user) ==> Vouched(user, a)
    {
      missing := {};
      NothingMissing(user, cursor, if limit < 0 then 0 else limit);
      if user == 0 {
        return Rows([]), {};
      }
      if limit < 1 || limit > 51 {
        return InvalidLimit, {};
      }
      if !hasCache {
        return Rows(FromDB(videos, follows, user, cursor, limit)), {};
      }
      var authors := Column(Followed(follows, user));
      if |authors| == 0 {
        NoAuthors(user, cursor, limit, authors);
        return Rows([]), {};
      }
      var normal, celebrities := Classify(authors);
      IncreasingCount(celebrities);
      assert AuthorSet(celebrities) == Celebrities(user);
      // Bound the read amplification of one request.
      if |celebrities| > maxPullSources {
        return Rows(FromDB(videos, follows, user, cursor, limit)), {};
      }
      var rows;
      assert AuthorSet(normal) + AuthorSet(celebrities) == Followed(follows, user);
      rows, missing := Pull(user, normal, celebrities, cursor, limit);
      if healthy {
        AllVouched(user, normal, celebrities);
      }
      ExactWhenNothingLacked(videos, follows, old(indexes), now, celebrityThreshold, user, missing, cursor, limit);
      reply := Rows(rows);
    }

    ghost function Celebrities(user: nat): set<nat>
      reads this
    {
      set a | a in Followed(follows, user) && Celebrity(a)
    }

    /** The index consulted for this author's posts is ready for them. */
    ghost predicate Vouched(user: nat, author: nat)
      reads this
    {
      var live := Live(At(indexes, SourceOf(follows, celebrityThreshold, user, author)), now);
      live.ready.Some? && author in live.ready.value
    }

    /** What a healthy read leaves, said of the tables and the indexes alone. */
    lemma ReadyOfTables(user: nat)
      requires |Celebrities(user)| <= maxPullSources ==> forall a :: a in Followed(follows, user) ==> Vouched(user, a)
      ensures |set f | f in follows && f.0 == user && |set g | g in follows && g.1 == f.1 :: g.0| >= celebrityThreshold :: f.1|
              <= maxPullSources ==>
                forall a :: (user, a) in follows ==>
                  var key := if |set g | g in follows && g.1 == a :: g.0| >= celebrityThreshold then Author(a) else Inbox(user);
                  key in indexes && now <= indexes[key].readyUntil && indexes[key].ready.Some? && a in indexes[key].ready.value
    {
      forall a ensures (set g | g in follows && g.1 == a :: g.0) == Followers(follows, a) {
      }
      assert (set f | f in follows && f.0 == user && |set g | g in follows && g.1 == f.1 :: g.0| >= celebrityThreshold :: f.1)
          == Celebrities(user);
      forall a | (user, a) in follows && |Celebrities(user)| <= maxPullSources
        ensures var key := if |set g | g in follows && g.1 == a :: g.0| >= celebrityThreshold then Author(a) else Inbox(user);
                key in indexes && now <= indexes[key].readyUntil && indexes[key].ready.Some? && a in indexes[key].ready.value
      {
        assert (user, a).1 in Followed(follows, user) && Vouched(user, a);
      }
    }

    lemma {:induction false} IncreasingCount(page: seq<nat>)
      requires Increasing(page)
      ensures |page| == |AuthorSet(page)|
      decreases |page|
    {
      if page != [] {
        var front, last := page[..|page| - 1], page[|page| - 1];
        IncreasingCount(front);
        assert page == front + [last] && last !in front;
        assert AuthorSet(page) == AuthorSet(front) + {last};
      }
    }

    lemma AllVouched(user: nat, normal: seq<nat>, celebrities: seq<nat>)
      requires AuthorSet(normal) + AuthorSet(celebrities) == Followed(follows, user)
      requires forall a :: a in normal ==> !Celebrity(a)
      requires forall a :: a in celebrities ==> Celebrity(a)
      requires normal != [] ==> Live(At(indexes, Inbox(user)), now).ready == Some(normal)
      requires forall a :: a in celebrities ==> Live(At(indexes, Author(a)), now).ready == Some([a])
      ensures forall a :: a in Followed(follows, user) ==> Vouched(user, a)
    {
      forall a | a in Followed(follows, user) ensures Vouched(user, a) {
        assert a in AuthorSet(normal) + AuthorSet(celebrities);
      }
    }

    lemma NothingMissing(user: nat, cursor: Option<Key>, limit: nat)
      ensures QueryWithout(videos, Followed(follows, user), {}, cursor, limit)
           == FromDB(videos, follows, user, cursor, limit)
    {
      var everyone := ByAuthors(videos, Followed(follows, user));
      assert everyone - {} == everyone;
    }

    lemma NoAuthors(user: nat, cursor: Option<Key>, limit: nat, authors: seq<nat>)
      requires authors == [] && forall a :: a in authors <==> a in Followed(follows, user)
      ensures FromDB(videos, follows, user, cursor, limit) == []
    {
      assert ByAuthors(videos, Followed(follows, user)) == {};
    }

    /** Reads the inbox for the ordinary authors and each celebrity's own index, and merges. */
    method Pull(user: nat, normal: seq<nat>, celebrities: seq<nat>, cursor: Option<Key>, limit: nat)
      returns (rows: seq<Key>, ghost missing: set<Key>)
      requires Valid() && limit > 0
      requires Increasing(celebrities)
      requires forall a :: a in normal ==> !Celebrity(a)
      requires forall a :: a in celebrities ==> Celebrity(a)
      requires AuthorSet(normal) + AuthorSet(celebrities) == Followed(follows, user)
      modifies this`indexes
      ensures Valid()
      ensures NoMoreLacked(videos, follows, now, celebrityThreshold, old(indexes), indexes)
      ensures rows == QueryWithout(videos, AuthorSet(normal) + AuthorSet(celebrities), missing, cursor, limit)
      ensures missing <= ByAuthors(videos, AuthorSet(normal) + AuthorSet(celebrities))
      ensures forall k :: k in missing ==>
                LackedBySource(videos, follows, old(indexes), now, celebrityThreshold, user, k)
      ensures healthy && normal != [] ==> Live(At(indexes, Inbox(user)), now).ready == Some(normal)
      ensures healthy ==> forall a :: a in celebrities ==> Live(At(indexes, Author(a)), now).ready == Some([a])
    {
      var sources: seq<seq<Key>> := [];
      ghost var pools: seq<set<Key>> := [];
      ghost var covered: set<nat> := {};
      missing := {};
      if |normal| > 0 {
        assert SoleSource(user, Inbox(user), normal);
        sources, pools, missing := PullSource(user, Inbox(user), normal, cursor, limit, old(indexes), covered, missing, sources, pools);
        covered := AuthorSet(normal);
      }
      assert covered == AuthorSet(normal);
      sources, pools, missing := PullCelebrities(user, celebrities, cursor, limit, old(indexes), covered, missing, sources, pools);
      covered := covered + AuthorSet(celebrities);
      MergedRead(videos, follows, old(indexes), now, celebrityThreshold, user, cursor, limit,
                 covered, missing, sources, pools);
      NothingMoreLacked(videos, follows, now, celebrityThreshold, old(indexes), indexes);
      rows := MergeHeap.Merge(sources, limit);
    }

    /** Each celebrity's own index, one after the other. */
    method PullCelebrities(user: nat, celebrities: seq<nat>, cursor: Option<Key>, limit: nat, ghost indexes0: Indexes,
                           ghost covered0: set<nat>, ghost missing0: set<Key>,
                           sources0: seq<seq<Key>>, ghost pools0: seq<set<Key>>)
      returns (sources: seq<seq<Key>>, ghost pools: seq<set<Key>>, ghost missing: set<Key>)
      requires Valid() && limit > 0
      requires Increasing(celebrities) && forall a :: a in celebrities ==> Celebrity(a)
      requires covered0 !! AuthorSet(celebrities)
      requires forall a :: a in celebrities ==> At(indexes, Author(a)) == At(indexes0, Author(a))
      requires AllKeptOrFresh(videos, follows, now, celebrityThreshold, indexes0, indexes)
      requires Gathered(videos, follows, indexes0, now, celebrityThreshold, user, cursor, limit, covered0, missing0, sources0, pools0)
      modifies this`indexes
      ensures Valid()
      ensures AllKeptOrFresh(videos, follows, now, celebrityThreshold, indexes0, indexes)
      ensures Gathered(videos, follows, indexes0, now, celebrityThreshold, user, cursor, limit,
                       covered0 + AuthorSet(celebrities), missing, sources, pools)
      ensures forall u :: At(indexes, Inbox(u)) == At(old(indexes), Inbox(u))
      ensures healthy ==> forall a :: a in celebrities ==> Live(At(indexes, Author(a)), now).ready == Some([a])
    {
      sources, pools, missing := sources0, pools0, missing0;
      ghost var covered := covered0;
      assert covered0 == covered0 + AuthorSet(celebrities[..0]);
      for i := 0 to |celebrities|
        invariant Valid()
        invariant forall j :: i <= j < |celebrities| ==>
                    At(indexes, Author(celebrities[j])) == At(indexes0, Author(celebrities[j]))
        invariant forall u :: At(indexes, Inbox(u)) == At(old(indexes), Inbox(u))
        invariant healthy ==> forall j :: 0 <= j < i ==> Live(At(indexes, Author(celebrities[j])), now).ready == Some([celebrities[j]])
        invariant AllKeptOrFresh(videos, follows, now, celebrityThreshold, indexes0, indexes)
        invariant covered == covered0 + AuthorSet(celebrities[..i])
        invariant Gathered(videos, follows, indexes0, now, celebrityThreshold, user, cursor, limit,
                           covered, missing, sources, pools)
      {
        var a := celebrities[i];
        assert a in celebrities && a in AuthorSet(celebrities);
        assert AuthorSet([a]) == {a};
        assert a !in celebrities[..i];
        assert SoleSource(user, Author(a), [a]);
        sources, pools, missing := PullSource(user, Author(a), [a], cursor, limit, indexes0, covered, missing, sources, pools);
        covered := covered + {a};
        assert celebrities[..i + 1] == celebrities[..i] + [a];
      }
      assert celebrities[..|celebrities|] == celebrities;
    }

    /** These are all the authors for whom anybody's reads consult the index under this key. */
    ghost predicate SoleSource(user: nat, key: SourceKey, authors: seq<nat>)
      reads this
    {
      && (forall a :: a in authors ==> SourceOf(follows, celebrityThreshold, user, a) == key)
      && (forall reader, a :: a in Followed(follows, reader) && SourceOf(follows, celebrityThreshold, reader, a) == key ==>
                                a in authors)
    }

    /** Appends one more source to those gathered. */
    method PullSource(user: nat, key: SourceKey, authors: seq<nat>, cursor: Option<Key>, limit: nat,
                      ghost indexes0: Indexes, ghost covered: set<nat>, ghost missing: set<Key>,
                      sources: seq<seq<Key>>, ghost pools: seq<set<Key>>)
      returns (sources': seq<seq<Key>>, ghost pools': seq<set<Key>>, ghost missing': set<Key>)
      requires Valid() && limit > 0
      requires At(indexes, key) == At(indexes0, key)
      requires SoleSource(user, key, authors)
      requires AllKeptOrFresh(videos, follows, now, celebrityThreshold, indexes0, indexes)
      requires covered !! AuthorSet(authors)
      requires Gathered(videos, follows, indexes0, now, celebrityThreshold, user, cursor, limit,
                        covered, missing, sources, pools)
      modifies this`indexes
      ensures Valid()
      ensures forall other :: other != key ==> At(indexes, other) == At(old(indexes), other)
      ensures AllKeptOrFresh(videos, follows, now, celebrityThreshold, indexes0, indexes)
      ensures Gathered(videos, follows, indexes0, now, celebrityThreshold, user, cursor, limit,
                       covered + AuthorSet(authors), missing', sources', pools')
      ensures healthy ==> Live(At(indexes, key), now).ready == Some(authors)
    {
      var rows;
      ghost var lost;
      rows, lost := Source(key, authors, cursor, limit);
      SourceIsKeptOrFresh(user, key, authors, indexes0);
      OneMoreKeptOrFresh(videos, follows, now, celebrityThreshold, indexes0, old(indexes), indexes, key);
      LostIsLacked(user, key, AuthorSet(authors), lost, indexes0);
      GatherSource(videos, follows, indexes0, now, celebrityThreshold, user, cursor, limit,
                   covered, missing, sources, pools, AuthorSet(authors), lost);
      sources' := sources + [rows];
      pools' := pools + [Before(ByAuthors(videos, AuthorSet(authors)) - lost, cursor)];
      missing' := missing + lost;
    }

    lemma SourceIsKeptOrFresh(user: nat, key: SourceKey, authors: seq<nat>, indexes0: Indexes)
      requires SoleSource(user, key, authors)
      requires At(indexes, key) == At(indexes0, key) || At(indexes, key) == Rebuilt(At(indexes0, key), authors)
      ensures KeptOrFresh(videos, follows, now, celebrityThreshold, indexes0, indexes, key)
    {
      if At(indexes, key) != At(indexes0, key) {
        forall reader, k | k in ByAuthors(videos, Followed(follows, reader))
                           && SourceOf(follows, celebrityThreshold, reader, videos[k.id].author) == key
          ensures !Lacks(Live(At(indexes, key), now).members, k)
        {
          ByAuthorsKey(videos, AuthorSet(authors), k);
          RebuiltLacksNothing(videos, At(indexes0, key), now, authors, capacity, k);
        }
      }
    }

    lemma LostIsLacked(user: nat, key: SourceKey, authors: set<nat>, lost: set<Key>, indexes0: Indexes)
      requires lost == {} || lost == Missing(videos, authors, Live(At(indexes0, key), now).members)
      requires lost != {} ==> Live(At(indexes0, key), now).ready.Some?
                              && AuthorSet(Live(At(indexes0, key), now).ready.value) == authors
      requires forall a :: a in authors ==> SourceOf(follows, celebrityThreshold, user, a) == key
      ensures lost <= ByAuthors(videos, authors)
      ensures forall k :: k in lost ==>
                LackedBySource(videos, follows, indexes0, now, celebrityThreshold, user, k)
    {
      forall k | k in lost
        ensures LackedBySource(videos, follows, indexes0, now, celebrityThreshold, user, k)
      {
        ByAuthorsKey(videos, authors, k);
      }
    }

    /** One pipelined command per key; any of them may be lost, and a failure may be reported for
        commands that did run. */
    method AppendFollowingBatch(keys: seq<SourceKey>, k: Key) returns (ok: bool, ghost applied: set<SourceKey>)
      modifies this`indexes
      ensures indexes == PushTo(old(indexes), applied, now, k, capacity)
      ensures applied <= KeySet(keys)
      ensures ok ==> applied == KeySet(keys)
      ensures healthy ==> ok
    {
      applied := {};
      ok := true;
      PushNowhere(k);
      for i := 0 to |keys|
        invariant indexes == PushTo(old(indexes), applied, now, k, capacity)
        invariant applied <= KeySet(keys[..i])
        invariant ok ==> applied == KeySet(keys[..i])
        invariant healthy ==> ok
      {
        assert KeySet(keys[..i + 1]) == KeySet(keys[..i]) + {keys[i]} by {
          assert keys[..i + 1] == keys[..i] + [keys[i]];
        }
        var lost: bool, unsure: bool := *, *;
        if healthy || !lost {
          PushOne(indexes, keys[i], now, k, capacity);
          PushTwice(old(indexes), applied, {keys[i]}, now, k, capacity);
          indexes := indexes[keys[i] := Append(At(indexes, keys[i]), now, {k}, capacity, None)];
          applied := applied + {keys[i]};
        }
        if !healthy && (lost || unsure) {
          ok := false;
        }
      }
      assert keys[..|keys|] == keys;
    }

    lemma PushNowhere(k: Key)
      ensures PushTo(indexes, {}, now, k, capacity) == indexes
    {
    }

    /** Time passes, and others write to any of the indexes: rebuilds, and the fan-outs of other posts
        or of the same one. */
    method OthersWrite(k: Key) returns (ghost ops: seq<CacheOp>)
      modifies this`indexes, this`now
      ensures CameBy(old(indexes), old(now), ops, k, capacity, indexes, now) && Reached(ops) == {}
    {
      ops := [];
      var n: nat :| n >= 0;
      for i := 0 to n
        invariant CameBy(old(indexes), old(now), ops, k, capacity, indexes, now) && Reached(ops) == {}
      {
        var key: SourceKey := *;
        var write: Write := *;
        if write.now >= now {
          ghost var between, mid := indexes, now;
          OneOp(indexes, Elsewhere(key, write), now, k, capacity);
          indexes := indexes[key := Written(At(indexes, key), write, capacity)];
          now := write.now;
          ComesFurther(old(indexes), old(now), ops, k, capacity, between, mid, [Elsewhere(key, write)], indexes, now);
          ops := ops + [Elsewhere(key, write)];
        }
      }
      ghost var mid := now;
      var pause: nat :| pause >= 0;
      now := now + pause;
      ComesFurther(old(indexes), old(now), ops, k, capacity, indexes, mid, [], indexes, now);
      assert ops + [] == ops;
    }

    /** Fan-out of one post.  The follower table may change between the queries: followersAt(0) is
        what the count sees and followersAt(i) what the i-th batch query sees.  Time passes and others
        write before each append.  Within a day of its start the author's index, and below the threshold
        the inbox of whoever has followed at every batch query, then holds the post or is full of newer
        ones.  Whoever follows throughout a successful run below the threshold has
        been reached.  Any query may fail: the lookup is number 0, the count 1, and the i-th batch i + 1. */
    method Publish(videoID: nat, followersAt: nat -> set<nat>, failing: set<nat>)
      returns (ok: bool, ghost ops: seq<CacheOp>, rounds: nat)
      requires Valid()
      requires forall i: nat, f :: f in followersAt(i) ==> 0 < f <= MAX_UINT
      modifies this`indexes, this`now
      ensures 0 in failing ==> !ok && Reached(ops) == {}
      ensures 0 !in failing && videoID !in videos ==> ok && Reached(ops) == {}
      ensures videoID !in videos ==> indexes == old(indexes)
      ensures videoID in videos ==>
                && CameBy(old(indexes), old(now), ops, FeedKey(videoID, videos[videoID]), capacity, indexes, now)
                && Reachable(Reached(ops), videos[videoID].author, followersAt, rounds)
                && (ok ==> Author(videos[videoID].author) in Reached(ops))
                && (ok ==> 1 !in failing && (|followersAt(0)| < celebrityThreshold ==> rounds > 0 && NoneFailed(failing, rounds)))
                && (|followersAt(0)| >= celebrityThreshold ==> Reached(ops) <= {Author(videos[videoID].author)})
                && (ok && |followersAt(0)| < celebrityThreshold ==>
                     forall u :: Throughout(u, followersAt, rounds) ==> Inbox(u) in Reached(ops))
      ensures healthy && failing == {} ==> ok
      ensures ok && videoID in videos && now <= old(now) + 86_400_000 ==>
                && Author(videos[videoID].author) in indexes && now <= indexes[Author(videos[videoID].author)].until
                && (|| Key(videos[videoID].time, 0, videoID) in indexes[Author(videos[videoID].author)].members
                   || (|indexes[Author(videos[videoID].author)].members| >= capacity
                       && forall m :: m in indexes[Author(videos[videoID].author)].members ==>
                            || m.major > videos[videoID].time
                            || (m.major == videos[videoID].time && (m.minor > 0 || (m.minor == 0 && m.id > videoID)))))
      ensures ok && videoID in videos && |followersAt(0)| < celebrityThreshold && now <= old(now) + 86_400_000 ==>
                forall u :: (forall i :: 1 <= i <= rounds ==> u in followersAt(i)) ==>
                  && Inbox(u) in indexes && now <= indexes[Inbox(u)].until
                  && (|| Key(videos[videoID].time, 0, videoID) in indexes[Inbox(u)].members
                   || (|indexes[Inbox(u)].members| >= capacity
                       && forall m :: m in indexes[Inbox(u)].members ==>
                            || m.major > videos[videoID].time
                            || (m.major == videos[videoID].time && (m.minor > 0 || (m.minor == 0 && m.id > videoID)))))
    {
      if 0 in failing {
        return false, [], 0;
      }
      if videoID !in videos {
        return true, [], 0;
      }
      ok, ops, rounds := PublishRow(videos[videoID].author, FeedKey(videoID, videos[videoID]), followersAt, failing);
      if now <= old(now) + TTL {
        ReachedShows(old(indexes), old(now), ops, FeedKey(videoID, videos[videoID]), capacity, indexes, now);
      }
      forall u | ok && |followersAt(0)| < celebrityThreshold && (forall i :: 1 <= i <= rounds ==> u in followersAt(i))
        ensures Inbox(u) in Reached(ops)
      {
        assert Throughout(u, followersAt, rounds);
      }
    }

    /** One append among everybody else's, at its own time. */
    method AppendLater(keys: seq<SourceKey>, k: Key) returns (ok: bool, ghost ops: seq<CacheOp>)
      modifies this`indexes, this`now
      ensures CameBy(old(indexes), old(now), ops, k, capacity, indexes, now)
      ensures Reached(ops) <= KeySet(keys) && (ok ==> Reached(ops) == KeySet(keys)) && (healthy ==> ok)
    {
      ops := OthersWrite(k);
      ghost var between, applied := indexes, {};
      ok, applied := AppendFollowingBatch(keys, k);
      OneOp(between, CacheOp.Push(now, applied), now, k, capacity);
      ComesFurther(old(indexes), old(now), ops, k, capacity, between, now, [CacheOp.Push(now, applied)], indexes, now);
      ops := ops + [CacheOp.Push(now, applied)];
    }

    /** The author's own index first, then the inboxes of an ordinary author's followers. */
    method PublishRow(author: nat, k: Key, followersAt: nat -> set<nat>, failing: set<nat>)
      returns (ok: bool, ghost ops: seq<CacheOp>, rounds: nat)
      requires Valid()
      requires forall i: nat, f :: f in followersAt(i) ==> 0 < f <= MAX_UINT
      modifies this`indexes, this`now
      ensures CameBy(old(indexes), old(now), ops, k, capacity, indexes, now)
      ensures Reachable(Reached(ops), author, followersAt, rounds)
      ensures ok ==> Author(author) in Reached(ops) && 1 !in failing
      ensures |followersAt(0)| >= celebrityThreshold ==> Reached(ops) <= {Author(author)}
      ensures healthy && failing == {} ==> ok
      ensures ok && |followersAt(0)| < celebrityThreshold ==>
                && rounds > 0 && NoneFailed(failing, rounds)
                && forall u :: Throughout(u, followersAt, rounds) ==> Inbox(u) in Reached(ops)
    {
      rounds := 0;
      ok, ops := AppendLater([Author(author)], k);
      if !ok {
        return;
      }
      if 1 in failing {
        return false, ops, 0;
      }
      if |followersAt(0)| >= celebrityThreshold {
        return;
      }
      ok, ops, rounds := FanOut(author, k, followersAt, failing, ops, old(indexes), old(now));
    }

    /** No batch query up to this round failed. */
    predicate NoneFailed(failing: set<nat>, rounds: nat) {
      forall n :: n in failing ==> !(2 <= n <= rounds + 1)
    }

    /** One round of the batch loop. */
    method NextBatch(author: nat, k: Key, followersAt: nat -> set<nat>, rounds: nat, after: nat,
                     ghost ops: seq<CacheOp>, ghost indexes0: Indexes, ghost start: int)
      returns (done: bool, ok: bool, after': nat, ghost ops': seq<CacheOp>)
      requires fanoutBatch > 0
      requires forall i: nat, f :: f in followersAt(i) ==> 0 < f <= MAX_UINT
      requires CameBy(indexes0, start, ops, k, capacity, indexes, now)
      requires FannedOut(Reached(ops), author, followersAt, rounds, after)
      modifies this`indexes, this`now
      ensures CameBy(indexes0, start, ops', k, capacity, indexes, now)
      ensures FannedOut(Reached(ops'), author, followersAt, rounds + 1, after')
      ensures done && ok ==> FannedOut(Reached(ops'), author, followersAt, rounds + 1, MAX_UINT)
      ensures after <= after' && (!done ==> ok && after < after' <= MAX_UINT) && (done ==> after' == after)
      ensures healthy ==> ok
    {
      ghost var between, mid, more := indexes, now, [];
      done, ok, after', more := PushBatch(followersAt(rounds + 1), k, after);
      ExtendFanout(Reached(ops), author, followersAt, rounds, followersAt(rounds + 1), after, after', Reached(more), ok, done);
      ComesFurther(indexes0, start, ops, k, capacity, between, mid, more, indexes, now);
      ops' := ops + more;
    }

    /** The batch loop: it ends because the ids it has passed only grow. */
    method FanOut(author: nat, k: Key, followersAt: nat -> set<nat>, failing: set<nat>,
                  ghost ops0: seq<CacheOp>, ghost indexes0: Indexes, ghost start: int)
      returns (ok: bool, ghost ops: seq<CacheOp>, rounds: nat)
      requires fanoutBatch > 0
      requires forall i: nat, f :: f in followersAt(i) ==> 0 < f <= MAX_UINT
      requires FannedOut(Reached(ops0), author, followersAt, 0, 0)
      requires CameBy(indexes0, start, ops0, k, capacity, indexes, now)
      modifies this`indexes, this`now
      ensures CameBy(indexes0, start, ops, k, capacity, indexes, now)
      ensures Author(author) in Reached(ops) && Reachable(Reached(ops), author, followersAt, rounds)
      ensures ok ==> rounds > 0 && NoneFailed(failing, rounds)
      ensures ok ==> forall u :: Throughout(u, followersAt, rounds) ==> Inbox(u) in Reached(ops)
      ensures healthy && failing == {} ==> ok
    {
      ops, rounds, ok := ops0, 0, true;
      var after: nat := 0;
      var done := false;
      while !done
        invariant after <= MAX_UINT
        invariant CameBy(indexes0, start, ops, k, capacity, indexes, now)
        invariant FannedOut(Reached(ops), author, followersAt, rounds, after)
        invariant ok ==> NoneFailed(failing, rounds)
        invariant done && ok ==> rounds > 0 && FannedOut(Reached(ops), author, followersAt, rounds, MAX_UINT)
        invariant !done ==> ok
        invariant healthy && failing == {} ==> ok
        decreases !done, MAX_UINT - after
      {
        if rounds + 2 in failing {
          return false, ops, rounds;
        }
        done, ok, after, ops := NextBatch(author, k, followersAt, rounds, after, ops, indexes0, start);
        rounds := rounds + 1;
      }
      forall u | ok && Throughout(u, followersAt, rounds) ensures Inbox(u) in Reached(ops) {
        assert u in followersAt(1);
      }
    }

    /** The next batch of followers after the last one reached; done when there is none or a
        command failed. */
    method PushBatch(followers: set<nat>, k: Key, after: nat)
      returns (done: bool, ok: bool, after': nat, ghost ops: seq<CacheOp>)
      requires fanoutBatch > 0
      modifies this`indexes, this`now
      ensures CameBy(old(indexes), old(now), ops, k, capacity, indexes, now)
      ensures forall key :: key in Reached(ops) ==> key.Inbox? && key.user in followers
      ensures after' >= after && (!done ==> after' > after && after' in followers) && (done ==> after' == after)
      ensures !ok ==> done
      ensures healthy ==> ok
      ensures done && ok ==> forall f :: f in followers ==> f <= after
      ensures ok ==> forall f :: f in followers && after < f <= after' ==> Inbox(f) in Reached(ops)
    {
      done, ok, after', ops := true, true, after, [];
      var waiting := set f | f in followers && f > after;
      var batch := Smallest(waiting, fanoutBatch);
      if |batch| == 0 {
        assert forall f :: f in waiting ==> f in batch;
        assert forall f :: f in followers && f > after ==> f in waiting;
        return;
      }
      var keys := InboxKeys(batch);
      ok, ops := AppendLater(keys, k);
      forall key | key in Reached(ops) ensures key.Inbox? && key.user in batch {
        var i :| 0 <= i < |keys| && keys[i] == key;
      }
      if ok {
        done := false;
        after' := batch[|batch| - 1];
        assert after' in batch;
        forall f | f in followers && after < f <= after' ensures Inbox(f) in Reached(ops) {
          assert f in waiting;
        }
      }
    }

    method InboxKeys(followers: seq<nat>) returns (keys: seq<SourceKey>)
      ensures |keys| == |followers| && forall i :: 0 <= i < |keys| ==> keys[i] == Inbox(followers[i])
      ensures forall f :: f in followers <==> Inbox(f) in keys
    {
      keys := [];
      for i := 0 to |followers|
        invariant |keys| == i && forall j :: 0 <= j < i ==> keys[j] == Inbox(followers[j])
      {
        keys := keys + [Inbox(followers[i])];
      }
      forall f | f in followers ensures Inbox(f) in keys {
        var j :| 0 <= j < |followers| && followers[j] == f;
        assert keys[j] == Inbox(f);
      }
    }
  }
}
