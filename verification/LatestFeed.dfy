/** The latest feed: a hot Redis timeline stitched to cold rows of the database.

    Times are whole milliseconds.  The timeline orders by its score, the create time, and the
    database by create_time alone; rows of one millisecond stand here in the order of their keys.
 */
module LatestFeed {
  import opened Ranking
  import opened FeedDatabase
  import Timeline = FollowingIndex

  /** nextTime is the create time of the last item and 0 when there is none. */
  datatype LatestReply = LatestReply(items: seq<Key>, nextTime: int, hasMore: bool)
  datatype Outcome = Served(reply: LatestReply) | RedisFailed | DatabaseFailed

  const REBUILD_LIMIT: nat := 1000

  /** WHERE create_time < before. */
  function Earlier(pool: set<Key>, before: Option<int>): set<Key> {
    set k | k in pool && (before.None? || k.major < before.value)
  }

  function AllVideos(videos: Videos): set<Key> {
    set id | id in videos :: FeedKey(id, videos[id])
  }

  function ListLatestQuery(videos: Videos, limit: nat, before: Option<int>): seq<Key> {
    Top(Earlier(AllVideos(videos), before), limit)
  }

  /** The last item's time is the next cursor; a full page may have more behind it. */
  function ReplyOf(items: seq<Key>, limit: nat): LatestReply {
    LatestReply(items, if items == [] then 0 else items[|items| - 1].major, |items| == limit)
  }

  /** The specification: the feed without Redis. */
  function LatestFromDB(videos: Videos, limit: nat, before: Option<int>): LatestReply {
    ReplyOf(ListLatestQuery(videos, limit, before), limit)
  }

  predicate Simultaneous(a: Key, b: Key) {
    a.major == b.major
  }

  ghost predicate DistinctTimes(keys: set<Key>) {
    forall a, b {:trigger Simultaneous(a, b)} :: a in keys && b in keys && Simultaneous(a, b) ==> a == b
  }

  /** Timeline entries are posts, perhaps deleted since, scored by their create time. */
  predicate Dated(videos: Videos, timeline: set<Key>) {
    forall k :: k in timeline && k.id in videos ==> k == FeedKey(k.id, videos[k.id])
  }

  ghost predicate Scored(videos: Videos, timeline: set<Key>) {
    Dated(videos, timeline) && DistinctTimes(timeline + AllVideos(videos))
  }

  /** Every video newer than some timeline entry is on the timeline. */
  ghost predicate UpwardClosed(videos: Videos, timeline: set<Key>) {
    forall k, m :: k in AllVideos(videos) && m in timeline && Ahead(k, m) ==> k in timeline
  }

  // ---------------------------------------------------------------- entity lookups

  /** The rows found for these ids, in the order of the ids. */
  function Surviving(videos: Videos, keys: seq<Key>): seq<Key> {
    if keys == [] then []
    else (if keys[0].id in videos then [FeedKey(keys[0].id, videos[keys[0].id])] else [])
         + Surviving(videos, keys[1..])
  }

  lemma {:induction false} SurvivingElements(videos: Videos, keys: seq<Key>)
    requires forall k :: k in keys && k.id in videos ==> k == FeedKey(k.id, videos[k.id])
    ensures forall k :: k in Surviving(videos, keys) <==> k in keys && k.id in videos
    ensures |Surviving(videos, keys)| <= |keys|
    ensures |Surviving(videos, keys)| == |keys| ==> Surviving(videos, keys) == keys
    ensures Descending(keys) ==> Descending(Surviving(videos, keys))
  {
    if keys != [] {
      var rest := keys[1..];
      assert keys == [keys[0]] + rest;
      SurvivingElements(videos, rest);
      if Descending(keys) {
        assert forall k :: k in rest ==> Ahead(keys[0], k);
      }
    }
  }

  /** A tier of the entity cache holds rows of the database. */
  predicate Agrees(videos: Videos, tier: Videos) {
    forall id :: id in tier ==> id in videos && FeedKey(id, tier[id]) == FeedKey(id, videos[id])
  }

  /** Local cache, then Redis, then the database for whatever is still missing; the rows come back
      in the order of the ids and unknown ids are dropped. */
  method GetVideoByIDs(videos: Videos, local: Videos, redis: Videos, redisDown: bool, ids: seq<Key>)
    returns (rows: seq<Key>)
    requires Agrees(videos, local) && Agrees(videos, redis)
    ensures rows == Surviving(videos, ids)
  {
    var found: Videos := map[];
    var missedLocal: seq<nat> := [];
    for i := 0 to |ids|
      invariant Agrees(videos, found)
      invariant forall j :: 0 <= j < i ==> ids[j].id in found || ids[j].id in missedLocal
    {
      var id := ids[i].id;
      if id in local {
        found := found[id := local[id]];
      } else {
        missedLocal := missedLocal + [id];
      }
    }
    var missedRedis: seq<nat> := missedLocal;
    if !redisDown {
      missedRedis := [];
      for i := 0 to |missedLocal|
        invariant Agrees(videos, found)
        invariant forall j :: 0 <= j < |ids| ==>
                    ids[j].id in found || ids[j].id in missedLocal[i..] || ids[j].id in missedRedis
      {
        var id := missedLocal[i];
        assert missedLocal[i..] == [id] + missedLocal[i + 1..];
        if id in redis {
          found := found[id := redis[id]];
        } else {
          missedRedis := missedRedis + [id];
        }
      }
    }
    for i := 0 to |missedRedis|
      invariant Agrees(videos, found)
      invariant forall j :: 0 <= j < |ids| && ids[j].id in videos ==> ids[j].id in found || ids[j].id in missedRedis[i..]
    {
      var id := missedRedis[i];
      assert missedRedis[i..] == [id] + missedRedis[i + 1..];
      if id in videos {
        found := found[id := videos[id]];
      }
    }
    rows := [];
    for i := 0 to |ids|
      invariant rows == Surviving(videos, ids[..i])
    {
      assert ids[..i + 1] == ids[..i] + [ids[i]];
      SurvivingAppend(videos, ids[..i], ids[i]);
      var id := ids[i].id;
      if id in found {
        rows := rows + [FeedKey(id, found[id])];
      }
    }
    assert ids[..|ids|] == ids;
  }

  lemma {:induction false} SurvivingAppend(videos: Videos, keys: seq<Key>, k: Key)
    ensures Surviving(videos, keys + [k])
         == Surviving(videos, keys) + (if k.id in videos then [FeedKey(k.id, videos[k.id])] else [])
  {
    if keys == [] {
      assert keys + [k] == [k] && [k][1..] == [];
      assert Surviving(videos, []) == [];
    } else {
      var longer := keys + [k];
      assert longer[0] == keys[0] && longer[1..] == keys[1..] + [k];
      SurvivingAppend(videos, keys[1..], k);
      var first := if keys[0].id in videos then [FeedKey(keys[0].id, videos[keys[0].id])] else [];
      assert Surviving(videos, longer) == first + Surviving(videos, keys[1..] + [k]);
    }
  }

  // ---------------------------------------------------------------- the stitch

  ghost predicate Coherent(videos: Videos, timeline: set<Key>) {
    Scored(videos, timeline) && UpwardClosed(videos, timeline)
  }

  /** Keys listed before everything else come first. */
  lemma FrontThenRest(front: seq<Key>, pool: set<Key>, rest: set<Key>, n: nat, tail: seq<Key>)
    requires Descending(front) && |front| <= n
    requires Elements(front) + rest == pool
    requires forall f, r :: f in front && r in rest ==> Ahead(f, r)
    requires IsTop(rest, n - |front|, tail)
    ensures IsTop(pool, n, front + tail)
  {
    var page := front + tail;
    forall i, j | 0 <= i < j < |page| ensures Ahead(page[i], page[j]) {
      if i < |front| <= j {
        assert page[i] in front && page[j] == tail[j - |front|] && tail[j - |front|] in rest;
      }
    }
    forall k | k in page ensures k in pool {
      assert k in front || k in tail;
      assert k in Elements(front) + rest;
    }
    forall k | k in pool && k !in page ensures |page| == n && AllAhead(page, k) {
      assert k in Elements(front) + rest && k !in front;
      assert k in rest && k !in tail && AllAhead(tail, k);
    }
  }

  /** The rows the hot path finds: the first timeline entries below the cursor, deleted ones dropped. */
  ghost predicate HotRows(videos: Videos, timeline: set<Key>, before: Option<int>, limit: nat, hot: seq<Key>) {
    exists page :: IsTop(Earlier(timeline, before), limit, page) && hot == Surviving(videos, page)
  }

  /** The posts a page leaves out: below the cursor and not among the hot rows, though no older than
      the last of them, where the cold rows and the next page go on. */
  function Lost(videos: Videos, before: Option<int>, hot: seq<Key>): set<Key> {
    if hot == [] then {}
    else set k | k in Earlier(AllVideos(videos), before) && k !in hot && k.major >= hot[|hot| - 1].major
  }

  lemma HotRowsAreRows(videos: Videos, timeline: set<Key>, before: Option<int>, limit: nat, hot: seq<Key>)
    requires Dated(videos, timeline) && HotRows(videos, timeline, before, limit, hot)
    ensures |hot| <= limit && Descending(hot) && Elements(hot) <= timeline
    ensures Elements(hot) <= Earlier(AllVideos(videos), before) - Lost(videos, before, hot)
  {
    var page :| IsTop(Earlier(timeline, before), limit, page) && hot == Surviving(videos, page);
    SurvivingElements(videos, page);
  }

  lemma LastIsLeast(hot: seq<Key>, k: Key)
    requires Descending(hot) && k in hot
    ensures hot != [] && k.major >= hot[|hot| - 1].major && (k != hot[|hot| - 1] ==> Ahead(k, hot[|hot| - 1]))
  {
    var i :| 0 <= i < |hot| && hot[i] == k;
    assert i == |hot| - 1 || Ahead(hot[i], hot[|hot| - 1]);
  }

  /** With distinct times, what a page leaves out is what is not on the timeline yet. */
  lemma LostIsLate(videos: Videos, timeline: set<Key>, before: Option<int>, limit: nat, hot: seq<Key>, k: Key)
    requires Scored(videos, timeline) && HotRows(videos, timeline, before, limit, hot)
    requires k in Lost(videos, before, hot)
    ensures k !in timeline && hot[|hot| - 1] in timeline && Ahead(k, hot[|hot| - 1])
  {
    var page :| IsTop(Earlier(timeline, before), limit, page) && hot == Surviving(videos, page);
    SurvivingElements(videos, page);
    var last := hot[|hot| - 1];
    assert last in hot && last in page && k != last;
    assert !Simultaneous(k, last);
    assert Ahead(k, last) && !Ahead(last, k);
    assert k in page || k !in Earlier(timeline, before);
  }

  /** Hot rows and then cold rows from the last survivor: the page of the database without the lost. */
  lemma StitchedPage(videos: Videos, timeline: set<Key>, before: Option<int>, limit: nat, hot: seq<Key>, cold: seq<Key>)
    requires Dated(videos, timeline) && HotRows(videos, timeline, before, limit, hot)
    requires 0 < |hot| <= limit
    requires IsTop(Earlier(AllVideos(videos), Some(hot[|hot| - 1].major)), limit - |hot|, cold)
    ensures IsTop(Earlier(AllVideos(videos), before) - Lost(videos, before, hot), limit, hot + cold)
  {
    HotRowsAreRows(videos, timeline, before, limit, hot);
    var pool := Earlier(AllVideos(videos), before) - Lost(videos, before, hot);
    var last := hot[|hot| - 1];
    var rest := Earlier(AllVideos(videos), Some(last.major));
    assert last in Elements(hot);
    forall k | k in hot ensures k.major >= last.major {
      LastIsLeast(hot, k);
    }
    assert Elements(hot) + rest == pool;
    FrontThenRest(hot, pool, rest, limit, cold);
  }

  /** The cold rows for the places the hot rows leave, after the last survivor or, when there is
      none, at the request's own cursor. */
  function ColdRows(videos: Videos, hot: seq<Key>, before: Option<int>, limit: nat): seq<Key> {
    if |hot| >= limit then []
    else ListLatestQuery(videos, limit - |hot|, if |hot| > 0 then Some(hot[|hot| - 1].major) else before)
  }

  function Stitched(videos: Videos, hot: seq<Key>, before: Option<int>, limit: nat): seq<Key> {
    hot + ColdRows(videos, hot, before, limit)
  }

  function PerhapsStitched(videos: Videos, hot: seq<Key>, before: Option<int>, limit: nat, coldFails: bool): seq<Key> {
    if coldFails then hot else Stitched(videos, hot, before, limit)
  }

  lemma ColdRowsAreTop(videos: Videos, hot: seq<Key>, before: Option<int>, limit: nat)
    requires |hot| <= limit
    ensures IsTop(Earlier(AllVideos(videos), if |hot| > 0 then Some(hot[|hot| - 1].major) else before), limit - |hot|,
                  ColdRows(videos, hot, before, limit))
  {
  }

  /** Hot survivors and the cold rows after them are the page of the database without the lost. */
  lemma StitchIsPage(videos: Videos, timeline: set<Key>, before: Option<int>, limit: nat, hot: seq<Key>)
    requires Dated(videos, timeline) && limit > 0
    requires HotRows(videos, timeline, before, limit, hot)
    ensures IsTop(Earlier(AllVideos(videos), before) - Lost(videos, before, hot), limit, Stitched(videos, hot, before, limit))
  {
    HotRowsAreRows(videos, timeline, before, limit, hot);
    ColdRowsAreTop(videos, hot, before, limit);
    if hot == [] {
      NothingHot(videos, before, limit);
    } else {
      StitchedPage(videos, timeline, before, limit, hot, ColdRows(videos, hot, before, limit));
    }
  }

  lemma NothingHot(videos: Videos, before: Option<int>, limit: nat)
    ensures IsTop(Earlier(AllVideos(videos), before) - Lost(videos, before, []), limit, Stitched(videos, [], before, limit))
  {
    var all := Earlier(AllVideos(videos), before);
    ColdRowsAreTop(videos, [], before, limit);
    assert all - {} == all;
    assert [] + ColdRows(videos, [], before, limit) == ColdRows(videos, [], before, limit);
  }

  /** Lost posts show on this page unless it is full of hot rows and they are listed after all of them. */
  predicate Harmless(lost: set<Key>, limit: nat, hot: seq<Key>) {
    lost == {} || (|hot| == limit > 0 && forall k :: k in lost ==> Ahead(hot[limit - 1], k))
  }

  /** The page is the database's if and only if its lost posts are harmless; with distinct times, if
      and only if the timeline has every post below the cursor that is newer than the last survivor. */
  lemma StitchIsExact(videos: Videos, timeline: set<Key>, before: Option<int>, limit: nat, hot: seq<Key>)
    requires Dated(videos, timeline) && limit > 0
    requires HotRows(videos, timeline, before, limit, hot)
    ensures Stitched(videos, hot, before, limit) == ListLatestQuery(videos, limit, before)
       <==> Harmless(Lost(videos, before, hot), limit, hot)
    ensures Scored(videos, timeline) ==>
              (Harmless(Lost(videos, before, hot), limit, hot) <==> Lost(videos, before, hot) == {})
  {
    var all, lost := Earlier(AllVideos(videos), before), Lost(videos, before, hot);
    var page := Stitched(videos, hot, before, limit);
    StitchIsPage(videos, timeline, before, limit, hot);
    HotRowsAreRows(videos, timeline, before, limit, hot);
    if Harmless(lost, limit, hot) {
      HarmlessIsExact(all, lost, limit, hot, page);
    } else {
      var k :| k in lost && (|hot| < limit || !Ahead(hot[limit - 1], k));
      LostIsMissed(all, lost, limit, hot, page, k);
    }
    if Scored(videos, timeline) && lost != {} {
      var k :| k in lost;
      LostIsLate(videos, timeline, before, limit, hot, k);
    }
  }

  lemma HarmlessIsExact(all: set<Key>, lost: set<Key>, limit: nat, hot: seq<Key>, page: seq<Key>)
    requires IsTop(all - lost, limit, page) && hot <= page && Descending(hot) && Harmless(lost, limit, hot)
    ensures page == Top(all, limit)
  {
    if lost == {} {
      assert all - {} == all;
    } else {
      assert page == hot;
      forall k | k in lost ensures AllAhead(page, k) {
        forall q | q in page ensures Ahead(q, k) {
          LastIsLeast(hot, q);
        }
      }
    }
    TopUnique(all, limit, page, Top(all, limit));
  }

  /** A page that lacks a row, and holds one listed after it or is not full, is not the database's. */
  lemma LostIsMissed(all: set<Key>, lost: set<Key>, limit: nat, hot: seq<Key>, page: seq<Key>, k: Key)
    requires k in all && k in lost && IsTop(all - lost, limit, page) && hot <= page && hot != []
    requires k.major >= hot[|hot| - 1].major && k !in hot
    requires |hot| < limit || !Ahead(hot[limit - 1], k)
    requires forall q :: q in page && q !in hot ==> q.major < hot[|hot| - 1].major
    ensures page != Top(all, limit)
  {
    assert k !in page;
    var last := hot[|hot| - 1];
    assert last == page[|hot| - 1] && last in page;
    if |page| == limit && |hot| < limit {
      var q := page[|hot|];
      assert q in page;
      assert Ahead(page[|hot| - 1], page[|hot|]);
      NotInPrefix(page, |hot|);
      assert !Ahead(q, k);
      assert !AllAhead(page, k);
    } else if |page| == limit {
      assert !AllAhead(page, k);
    }
  }

  lemma NotInPrefix(page: seq<Key>, n: nat)
    requires Descending(page) && n < |page|
    ensures page[n] !in page[..n]
  {
    forall i | 0 <= i < n ensures page[i] != page[n] {
      assert Ahead(page[i], page[n]);
    }
  }

  /** An upward closed timeline with distinct times loses nothing. */
  lemma NothingLost(videos: Videos, timeline: set<Key>, before: Option<int>, limit: nat, hot: seq<Key>)
    requires Coherent(videos, timeline) && HotRows(videos, timeline, before, limit, hot)
    ensures Lost(videos, before, hot) == {}
  {
    forall k ensures k !in Lost(videos, before, hot) {
      if k in Lost(videos, before, hot) {
        LostIsLate(videos, timeline, before, limit, hot, k);
      }
    }
  }

  function HotSurvivors(videos: Videos, timeline: set<Key>, before: Option<int>, limit: nat): seq<Key> {
    Surviving(videos, Top(Earlier(timeline, before), limit))
  }

  /** Posts an older one has overtaken on its way to the timeline. */
  function Overtaken(videos: Videos, timeline: set<Key>): set<Key> {
    set k, m | k in AllVideos(videos) && m in timeline && Ahead(k, m) && k !in timeline :: k
  }

  function LatestWithout(videos: Videos, limit: nat, before: Option<int>, lost: set<Key>): LatestReply {
    ReplyOf(Top(Earlier(AllVideos(videos), before) - lost, limit), limit)
  }

  /** What is lost has been passed by the page: it is no older than the last row. */
  ghost predicate PassedBy(lost: set<Key>, items: seq<Key>) {
    forall k :: k in lost ==> items != [] && k.major >= items[|items| - 1].major
  }

  lemma StitchOfTop(videos: Videos, timeline: set<Key>, before: Option<int>, limit: nat)
    requires Dated(videos, timeline) && limit > 0
    ensures var hot := HotSurvivors(videos, timeline, before, limit);
            var lost := Lost(videos, before, hot);
            && Stitched(videos, hot, before, limit) == Top(Earlier(AllVideos(videos), before) - lost, limit)
            && lost <= Earlier(AllVideos(videos), before) && PassedBy(lost, Stitched(videos, hot, before, limit))
            && (Scored(videos, timeline) ==> lost <= Overtaken(videos, timeline))
            && (Coherent(videos, timeline) ==> lost == {})
  {
    var page := Top(Earlier(timeline, before), limit);
    var hot := Surviving(videos, page);
    assert HotRows(videos, timeline, before, limit, hot);
    StitchIsPage(videos, timeline, before, limit, hot);
    HotRowsAreRows(videos, timeline, before, limit, hot);
    var pool, stitched := Earlier(AllVideos(videos), before) - Lost(videos, before, hot), Stitched(videos, hot, before, limit);
    TopUnique(pool, limit, stitched, Top(pool, limit));
    LostIsPassed(videos, before, hot, stitched);
    if Scored(videos, timeline) {
      LostIsOvertaken(videos, timeline, before, limit, hot);
    }
    if Coherent(videos, timeline) {
      NothingLost(videos, timeline, before, limit, hot);
    }
  }

  /** What may be lost over this timeline: posts the page has passed, with distinct times only ones
      overtaken on their way, and none over an upward closed timeline. */
  ghost predicate Losable(videos: Videos, timeline: set<Key>, limit: nat, before: Option<int>, lost: set<Key>) {
    && lost <= Earlier(AllVideos(videos), before)
    && PassedBy(lost, LatestWithout(videos, limit, before, lost).items)
    && (Scored(videos, timeline) ==> lost <= Overtaken(videos, timeline))
    && (Coherent(videos, timeline) ==> lost == {})
  }

  lemma LostIsPassed(videos: Videos, before: Option<int>, hot: seq<Key>, page: seq<Key>)
    requires hot <= page && Descending(page)
    ensures PassedBy(Lost(videos, before, hot), page)
  {
    if hot != [] {
      assert page[|hot| - 1] in page;
      LastIsLeast(page, page[|hot| - 1]);
    }
  }

  /** A request served from the timeline. */
  lemma StitchedReply(videos: Videos, timeline: set<Key>, before: Option<int>, limit: nat, base: seq<Key>,
                      coldFails: bool, lost: set<Key>)
    requires Dated(videos, timeline) && limit > 0
    requires var hot := HotSurvivors(videos, timeline, before, limit);
             lost == Lost(videos, before, hot) && base == PerhapsStitched(videos, hot, before, limit, coldFails)
    ensures base <= LatestWithout(videos, limit, before, lost).items
    ensures !coldFails ==> ReplyOf(base, limit) == LatestWithout(videos, limit, before, lost)
    ensures Losable(videos, timeline, limit, before, lost)
  {
    StitchOfTop(videos, timeline, before, limit);
  }

  lemma LostIsOvertaken(videos: Videos, timeline: set<Key>, before: Option<int>, limit: nat, hot: seq<Key>)
    requires Scored(videos, timeline) && HotRows(videos, timeline, before, limit, hot)
    ensures Lost(videos, before, hot) <= Overtaken(videos, timeline)
  {
    forall k | k in Lost(videos, before, hot) ensures k in Overtaken(videos, timeline) {
      LostIsLate(videos, timeline, before, limit, hot, k);
    }
  }

  /** A timeline rebuilt from the newest rows is upward closed. */
  lemma RebuiltIsCoherent(videos: Videos, recent: seq<Key>)
    requires recent == ListLatestQuery(videos, REBUILD_LIMIT, None)
    ensures Dated(videos, Elements(recent)) && UpwardClosed(videos, Elements(recent))
    ensures Scored(videos, {}) ==> Coherent(videos, Elements(recent))
  {
    var pool := AllVideos(videos);
    assert Earlier(pool, None) == pool;
    assert {} + pool == pool;
    assert Elements(recent) + pool == pool;
    forall k, m | k in pool && m in Elements(recent) && Ahead(k, m) ensures k in Elements(recent) {
      assert k in recent || AllAhead(recent, k);
    }
  }

  /** So is the timeline its consumer keeps, the newest REBUILD_LIMIT of everything ever published,
      once every video's event has been consumed, whatever has been deleted since and in whatever
      order Redis keeps equal scores. */
  lemma ConsumedIsCoherent(videos: Videos, published: set<Key>)
    requires Timeline.DistinctScores(published)
    requires AllVideos(videos) <= Timeline.UntiedAll(published)
    requires forall k :: k in published && k.id in videos ==> Timeline.Untied(k) == FeedKey(k.id, videos[k.id])
    ensures Coherent(videos, Timeline.UntiedAll(Newest(published, REBUILD_LIMIT)))
  {
    var plain := Timeline.UntiedAll(published);
    Timeline.TieOrderIsImmaterial(published, REBUILD_LIMIT);
    var timeline := Newest(plain, REBUILD_LIMIT);
    forall a, b | a in plain && b in plain && Simultaneous(a, b) ensures a == b {
      var x :| x in published && Timeline.Untied(x) == a;
      var y :| y in published && Timeline.Untied(y) == b;
      assert Timeline.SameScore(x, y);
    }
    forall k, m | k in AllVideos(videos) && m in timeline && Ahead(k, m) ensures k in timeline {
      assert AllAhead(Top(plain, REBUILD_LIMIT), k) || k in timeline;
    }
  }

  lemma EmptyDatabase(videos: Videos, before: Option<int>, limit: nat)
    requires ListLatestQuery(videos, REBUILD_LIMIT, None) == [] && limit > 0
    ensures LatestFromDB(videos, limit, before) == LatestReply([], 0, false)
  {
    var pool := AllVideos(videos);
    assert Earlier(pool, None) == pool;
    TopCount(pool, REBUILD_LIMIT);
    assert Earlier(pool, before) <= pool;
    assert Top({}, limit) == [];
  }

  /** Whether every entry is at least as new as the request's cursor. */
  predicate Cold(timeline: set<Key>, before: Option<int>, now: int) {
    forall k :: k in timeline ==> (if before.Some? then before.value else now) <= k.major
  }

  /** What the page of a request leaves out: nothing if the database answers, else what the stitch loses. */
  function LossAt(videos: Videos, timeline: set<Key>, limit: nat, before: Option<int>, now: int, unreachable: bool): set<Key> {
    if unreachable || Cold(timeline, before, now) then {}
    else Lost(videos, before, HotSurvivors(videos, timeline, before, limit))
  }

  /** A page, or the front of one, said of the videos table alone. */
  lemma PageOfTable(videos: Videos, limit: nat, before: Option<int>, lost: set<Key>, page: LatestReply, reply: LatestReply)
    requires page == LatestWithout(videos, limit, before, lost) && reply.items <= page.items
    ensures |page.items| <= limit && (page.hasMore <==> |page.items| == limit)
    ensures page.nextTime == if page.items == [] then 0 else page.items[|page.items| - 1].major
    ensures forall k :: k in reply.items ==>
              && k.id in videos && k == Key(videos[k.id].time, 0, k.id) && k !in lost
              && (before.Some? ==> videos[k.id].time < before.value)
    ensures forall i, j :: 0 <= i < j < |reply.items| ==>
              var a, b := reply.items[i], reply.items[j];
              a.major > b.major || (a.major == b.major && a.id > b.id)
    ensures forall id ::
              id in videos && (before.Some? ==> videos[id].time < before.value) ==>
                || Key(videos[id].time, 0, id) in page.items
                || Key(videos[id].time, 0, id) in lost
                || (|page.items| == limit
                    && forall k :: k in page.items ==> k.major > videos[id].time || (k.major == videos[id].time && k.id > id))
  {
    var pool := Earlier(AllVideos(videos), before) - lost;
    forall i | 0 <= i < |reply.items| ensures reply.items[i] in page.items && reply.items[i] in pool {
      assert reply.items[i] == page.items[i];
    }
    forall k | k in page.items ensures k in pool {
    }
    forall i, j | 0 <= i < j < |reply.items| ensures Ahead(reply.items[i], reply.items[j]) {
      assert reply.items[i] == page.items[i] && reply.items[j] == page.items[j];
    }
    forall i | 0 <= i < |reply.items| ensures reply.items[i].minor == 0 {
      assert reply.items[i] in pool;
    }
    forall id | id in videos && (before.Some? ==> videos[id].time < before.value)
      ensures || Key(videos[id].time, 0, id) in page.items
              || Key(videos[id].time, 0, id) in lost
              || (|page.items| == limit
                  && forall k :: k in page.items ==> k.major > videos[id].time || (k.major == videos[id].time && k.id > id))
    {
      var own := Key(videos[id].time, 0, id);
      assert own == FeedKey(id, videos[id]);
      if own !in page.items && own !in lost {
        assert own in pool && AllAhead(page.items, own);
      }
    }
  }

  /** A request that was served, said of the videos table alone. */
  lemma OutcomeOfTable(videos: Videos, limit: nat, before: Option<int>, lost: set<Key>, coldFails: bool, outcome: Outcome)
    requires outcome.Served? ==> outcome.reply.items <= LatestWithout(videos, limit, before, lost).items
    requires outcome.Served? && !coldFails ==> outcome.reply == LatestWithout(videos, limit, before, lost)
    ensures outcome.Served? ==> forall k :: k in outcome.reply.items ==>
              && k.id in videos && k == Key(videos[k.id].time, 0, k.id) && k !in lost
              && (before.Some? ==> videos[k.id].time < before.value)
    ensures outcome.Served? ==> forall i, j :: 0 <= i < j < |outcome.reply.items| ==>
              var a, b := outcome.reply.items[i], outcome.reply.items[j];
              a.major > b.major || (a.major == b.major && a.id > b.id)
    ensures outcome.Served? && !coldFails ==> forall id ::
              id in videos && (before.Some? ==> videos[id].time < before.value) ==>
                || Key(videos[id].time, 0, id) in outcome.reply.items
                || Key(videos[id].time, 0, id) in lost
                || (|outcome.reply.items| == limit
                    && forall k :: k in outcome.reply.items ==>
                         k.major > videos[id].time || (k.major == videos[id].time && k.id > id))
    ensures outcome.Served? && !coldFails ==>
              |outcome.reply.items| <= limit && (outcome.reply.hasMore <==> |outcome.reply.items| == limit)
    ensures outcome.Served? && !coldFails ==>
              outcome.reply.nextTime == if outcome.reply.items == [] then 0
                                        else outcome.reply.items[|outcome.reply.items| - 1].major
  {
    if outcome.Served? {
      PageOfTable(videos, limit, before, lost, LatestWithout(videos, limit, before, lost), outcome.reply);
    }
  }

  /** The refill, said of the videos table alone. */
  lemma RefillOfTable(videos: Videos)
    ensures var refill := Elements(ListLatestQuery(videos, REBUILD_LIMIT, None));
            && |refill| <= 1000
            && (forall k :: k in refill ==> k.id in videos && k == Key(videos[k.id].time, 0, k.id))
            && forall id :: id in videos ==>
                 || Key(videos[id].time, 0, id) in refill
                 || (|refill| == 1000
                     && forall k :: k in refill ==> k.major > videos[id].time || (k.major == videos[id].time && k.id > id))
  {
    var rows := ListLatestQuery(videos, REBUILD_LIMIT, None);
    assert Earlier(AllVideos(videos), None) - {} == Earlier(AllVideos(videos), None);
    PageOfTable(videos, REBUILD_LIMIT, None, {}, ReplyOf(rows, REBUILD_LIMIT), ReplyOf(rows, REBUILD_LIMIT));
    ElementsCount(rows);
  }

  /** What may go wrong during one request, how often the refill fails before it succeeds, and the
      entity rows the caches hold. */
  datatype Weather = Weather(unreachable: bool, rangeFails: bool, mgetFails: bool, addFails: nat,
                             queryFails: bool, coldFails: bool, local: Videos, redis: Videos)

  /** The feed's two stores: the videos table and the Redis timeline. */
  class LatestService {
    var videos: Videos
    var timeline: set<Key>

    constructor (videos: Videos, timeline: set<Key>)
      ensures this.videos == videos && this.timeline == timeline
    {
      this.videos, this.timeline := videos, timeline;
    }

    /** One request.  The reply is the database's without the posts that are lost, and a failed cold
        query cuts it short; over an upward closed timeline with distinct times nothing is lost. */
    method Respond(limit: nat, before: Option<int>, now: int, weather: Weather)
      returns (outcome: Outcome, ghost lost: set<Key>)
      requires limit > 0 && Dated(videos, timeline)
      requires Agrees(videos, weather.local) && Agrees(videos, weather.redis)
      modifies this`timeline
      ensures Dated(videos, timeline) && (old(Scored(videos, timeline)) ==> Scored(videos, timeline))
      ensures timeline == old(timeline) || (old(timeline) == {} && timeline == Refill())
      ensures timeline == old(timeline) <== old(timeline) != {} || weather.unreachable || weather.queryFails
      ensures old(timeline) == {} && !weather.unreachable && !weather.queryFails ==> timeline == Refill()
      ensures lost == if outcome.Served? then LostBy(limit, before, now, weather.unreachable) else {}
      ensures Losable(videos, old(timeline), limit, before, lost)
      ensures outcome.Served? && !weather.coldFails ==> outcome.reply == LatestWithout(videos, limit, before, lost)
      ensures outcome.Served? && !weather.coldFails && old(Coherent(videos, timeline)) ==>
                outcome.reply == LatestFromDB(videos, limit, before)
      ensures outcome.Served? ==> outcome.reply.items <= LatestWithout(videos, limit, before, lost).items
      ensures outcome.RedisFailed? ==> weather.rangeFails && !weather.unreachable
      ensures outcome.DatabaseFailed? ==> weather.queryFails
    {
      outcome, lost := Serve(limit, before, now, weather);
      RefillIsCoherent();
      LossIsLosable(limit, before, now, weather.unreachable);
      NoneIsLosable(videos, timeline, limit, before);
      NoneLost(videos, limit, before);
      if old(timeline) != timeline {
        RefilledLosesNothing(videos, timeline, limit, before, lost);
      }
    }

    /** The same, said of the videos table alone: the rows are videos older than the cursor, newest first;
        every other such video is lost, or the page is full of newer ones, or its cold query failed; and a
        refilled timeline has the newest thousand. */
    method ListLatest(limit: nat, before: Option<int>, now: int, weather: Weather)
      returns (outcome: Outcome, ghost lost: set<Key>)
      requires limit > 0 && Dated(videos, timeline)
      requires Agrees(videos, weather.local) && Agrees(videos, weather.redis)
      modifies this`timeline
      ensures Dated(videos, timeline) && (old(Scored(videos, timeline)) ==> Scored(videos, timeline))
      ensures timeline == old(timeline) || (old(timeline) == {} && timeline == Refill())
      ensures timeline == old(timeline) <== old(timeline) != {} || weather.unreachable || weather.queryFails
      ensures old(timeline) == {} && !weather.unreachable && !weather.queryFails ==> timeline == Refill()
      ensures lost == if outcome.Served? then LostBy(limit, before, now, weather.unreachable) else {}
      ensures Losable(videos, old(timeline), limit, before, lost)
      ensures outcome.Served? && !weather.coldFails ==> outcome.reply == LatestWithout(videos, limit, before, lost)
      ensures outcome.Served? && !weather.coldFails && old(Coherent(videos, timeline)) ==>
                outcome.reply == LatestFromDB(videos, limit, before)
      ensures outcome.Served? ==> outcome.reply.items <= LatestWithout(videos, limit, before, lost).items
      ensures outcome.RedisFailed? ==> weather.rangeFails && !weather.unreachable
      ensures outcome.DatabaseFailed? ==> weather.queryFails
      ensures outcome.Served? ==> forall k :: k in outcome.reply.items ==>
                && k.id in videos && k == Key(videos[k.id].time, 0, k.id) && k !in lost
                && (before.Some? ==> videos[k.id].time < before.value)
      ensures outcome.Served? ==> forall i, j :: 0 <= i < j < |outcome.reply.items| ==>
                var a, b := outcome.reply.items[i], outcome.reply.items[j];
                a.major > b.major || (a.major == b.major && a.id > b.id)
      ensures outcome.Served? && !weather.coldFails ==> forall id ::
                id in videos && (before.Some? ==> videos[id].time < before.value) ==>
                  || Key(videos[id].time, 0, id) in outcome.reply.items
                  || Key(videos[id].time, 0, id) in lost
                  || (|outcome.reply.items| == limit
                      && forall k :: k in outcome.reply.items ==>
                           k.major > videos[id].time || (k.major == videos[id].time && k.id > id))
      ensures outcome.Served? && !weather.coldFails ==>
                |outcome.reply.items| <= limit && (outcome.reply.hasMore <==> |outcome.reply.items| == limit)
      ensures outcome.Served? && !weather.coldFails ==>
                outcome.reply.nextTime == if outcome.reply.items == [] then 0
                                          else outcome.reply.items[|outcome.reply.items| - 1].major
      ensures weather.unreachable ==> lost == {}
      ensures timeline != old(timeline) ==>
                && |timeline| <= 1000
                && (forall k :: k in timeline ==> k.id in videos && k == Key(videos[k.id].time, 0, k.id))
                && forall id :: id in videos ==>
                     || Key(videos[id].time, 0, id) in timeline
                     || (|timeline| == 1000
                         && forall k :: k in timeline ==> k.major > videos[id].time || (k.major == videos[id].time && k.id > id))
    {
      outcome, lost := Respond(limit, before, now, weather);
      OutcomeOfTable(videos, limit, before, lost, weather.coldFails, outcome);
      if timeline != old(timeline) {
        RefillOfTable(videos);
      }
    }

    /** The newest rows, which fill an empty timeline. */
    function Refill(): set<Key>
      reads this
    {
      Elements(ListLatestQuery(videos, REBUILD_LIMIT, None))
    }

    lemma RefillIsCoherent()
      ensures Dated(videos, Refill()) && UpwardClosed(videos, Refill())
      ensures Scored(videos, {}) ==> Coherent(videos, Refill())
    {
      RebuiltIsCoherent(videos, ListLatestQuery(videos, REBUILD_LIMIT, None));
    }

    lemma LossIsLosable(limit: nat, before: Option<int>, now: int, unreachable: bool)
      requires limit > 0 && Dated(videos, timeline)
      ensures Losable(videos, timeline, limit, before, LostBy(limit, before, now, unreachable))
    {
      NoneIsLosable(videos, timeline, limit, before);
      var hot := HotSurvivors(videos, timeline, before, limit);
      StitchedReply(videos, timeline, before, limit, Stitched(videos, hot, before, limit), false, Lost(videos, before, hot));
    }

    /** The hot path when the cursor is above the oldest timeline entry, else the database.
        An empty timeline is refilled and the request starts over. */
    method Serve(limit: nat, before: Option<int>, now: int, weather: Weather)
      returns (outcome: Outcome, ghost lost: set<Key>)
      requires limit > 0 && Dated(videos, timeline)
      requires Agrees(videos, weather.local) && Agrees(videos, weather.redis)
      modifies this`timeline
      ensures Dated(videos, timeline)
      ensures timeline == old(timeline) <== old(timeline) != {} || weather.unreachable || weather.queryFails
      ensures old(timeline) == {} && !weather.unreachable && !weather.queryFails ==> timeline == Refill()
      ensures lost == if outcome.Served? then LostBy(limit, before, now, weather.unreachable) else {}
      ensures outcome.Served? && !weather.coldFails ==> outcome.reply == LatestWithout(videos, limit, before, lost)
      ensures outcome.Served? ==> outcome.reply.items <= LatestWithout(videos, limit, before, lost).items
      ensures outcome.RedisFailed? ==> weather.rangeFails && !weather.unreachable
      ensures outcome.DatabaseFailed? ==> weather.queryFails
      decreases timeline == {}, weather.addFails
    {
      lost := {};
      NoneLost(videos, limit, before);
      if weather.unreachable {
        if weather.queryFails {
          return DatabaseFailed, {};
        }
        return Served(LatestFromDB(videos, limit, before)), {};
      }
      if timeline == {} {
        if weather.queryFails {
          return DatabaseFailed, {};
        }
        var recent := ListLatestQuery(videos, REBUILD_LIMIT, None);
        if |recent| == 0 {
          EmptyDatabase(videos, before, limit);
          return Served(LatestReply([], 0, false)), {};
        }
        RebuiltIsCoherent(videos, recent);
        Rebuild(recent, weather.addFails > 0);
        assert recent[0] in Elements(recent);
        outcome, lost := Serve(limit, before, now,
                               weather.(addFails := if weather.addFails > 0 then weather.addFails - 1 else 0));
        return;
      }
      outcome, lost := FromTimeline(limit, before, now, weather);
    }

    /** What the page of a request that is served leaves out. */
    function LostBy(limit: nat, before: Option<int>, now: int, unreachable: bool): set<Key>
      reads this
    {
      LossAt(videos, timeline, limit, before, now, unreachable)
    }

    /** A timeline with entries: cold requests go to the database, hot ones are stitched. */
    method FromTimeline(limit: nat, before: Option<int>, now: int, weather: Weather)
      returns (outcome: Outcome, ghost lost: set<Key>)
      requires limit > 0 && Dated(videos, timeline) && timeline != {}
      requires Agrees(videos, weather.local) && Agrees(videos, weather.redis)
      ensures lost == if outcome.Served? then LostBy(limit, before, now, false) else {}
      ensures outcome.Served? && !weather.coldFails ==> outcome.reply == LatestWithout(videos, limit, before, lost)
      ensures outcome.Served? ==> outcome.reply.items <= LatestWithout(videos, limit, before, lost).items
      ensures outcome.RedisFailed? ==> weather.rangeFails
      ensures outcome.DatabaseFailed? ==> weather.queryFails
    {
      lost := {};
      NoneLost(videos, limit, before);
      var watermark := Watermark();
      var requested := if before.Some? then before.value else now;
      if requested <= watermark {
        if weather.queryFails {
          return DatabaseFailed, {};
        }
        var cold := ListLatestQuery(videos, limit, before);
        return Served(ReplyOf(cold, limit)), {};
      }
      if weather.rangeFails {
        return RedisFailed, {};
      }
      var base := HotPage(limit, before, weather);
      lost := Lost(videos, before, HotSurvivors(videos, timeline, before, limit));
      outcome := Served(ReplyOf(base, limit));
    }

    method HotPage(limit: nat, before: Option<int>, weather: Weather) returns (base: seq<Key>)
      requires limit > 0 && Dated(videos, timeline)
      requires Agrees(videos, weather.local) && Agrees(videos, weather.redis)
      ensures var without := LatestWithout(videos, limit, before, Lost(videos, before, HotSurvivors(videos, timeline, before, limit)));
              base <= without.items && (!weather.coldFails ==> ReplyOf(base, limit) == without)
    {
      base := Stitch(limit, before, weather);
      StitchedReply(videos, timeline, before, limit, base, weather.coldFails,
                    Lost(videos, before, HotSurvivors(videos, timeline, before, limit)));
    }

    /** The score of the oldest timeline entry. */
    method Watermark() returns (score: int)
      requires timeline != {}
      ensures exists k :: k in timeline && k.major == score
      ensures forall k :: k in timeline ==> score <= k.major
    {
      TopCount(timeline, |timeline|);
      var entries := Top(timeline, |timeline|);
      var oldest := entries[|entries| - 1];
      assert oldest in entries;
      forall k | k in timeline ensures oldest.major <= k.major {
        assert k in entries;
        var i :| 0 <= i < |entries| && entries[i] == k;
        assert i == |entries| - 1 || Ahead(entries[i], oldest);
      }
      score := oldest.major;
    }

    /** Hot entries first, then cold rows for the places that are left, unless their query fails. */
    method Stitch(limit: nat, before: Option<int>, weather: Weather) returns (base: seq<Key>)
      requires Agrees(videos, weather.local) && Agrees(videos, weather.redis)
      ensures base == PerhapsStitched(videos, HotSurvivors(videos, timeline, before, limit), before, limit, weather.coldFails)
    {
      var ids := Top(Earlier(timeline, before), limit);
      var hot := GetVideoByIDs(videos, weather.local, weather.redis, weather.mgetFails, ids);
      base := AddCold(hot, limit, before, weather.coldFails);
    }

    method AddCold(hot: seq<Key>, limit: nat, before: Option<int>, fails: bool) returns (base: seq<Key>)
      ensures base == PerhapsStitched(videos, hot, before, limit, fails)
    {
      base := hot;
      if |base| < limit && !fails {
        var coldCursor := if |base| > 0 then Some(base[|base| - 1].major) else before;
        base := base + ListLatestQuery(videos, limit - |base|, coldCursor);
      }
    }

    /** Fills an empty timeline with the newest rows of the database, in one command. */
    method Rebuild(recent: seq<Key>, fails: bool)
      requires timeline == {}
      modifies this`timeline
      ensures timeline == if fails then {} else Elements(recent)
    {
      var entries: set<Key> := {};
      for i := 0 to |recent|
        invariant entries == Elements(recent[..i])
      {
        assert recent[..i + 1] == recent[..i] + [recent[i]];
        entries := entries + {recent[i]};
      }
      assert recent[..|recent|] == recent;
      if !fails {
        timeline := timeline + entries;
      }
    }
  }

  /** After a refill, with distinct times, nothing is lost. */
  lemma RefilledLosesNothing(videos: Videos, timeline: set<Key>, limit: nat, before: Option<int>, lost: set<Key>)
    requires Losable(videos, timeline, limit, before, lost)
    requires Scored(videos, {}) ==> Coherent(videos, timeline)
    ensures Losable(videos, {}, limit, before, lost)
  {
  }

  lemma NoneIsLosable(videos: Videos, timeline: set<Key>, limit: nat, before: Option<int>)
    ensures Losable(videos, timeline, limit, before, {})
  {
  }

  lemma NoneLost(videos: Videos, limit: nat, before: Option<int>)
    ensures LatestWithout(videos, limit, before, {}) == LatestFromDB(videos, limit, before)
  {
    var all := Earlier(AllVideos(videos), before);
    assert all - {} == all;
  }
}
