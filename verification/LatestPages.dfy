/** Paging through the latest feed: a client that asks for what is older than the last row it was shown,
    until has_more is false, over tables that stand still.
 */
module LatestPages {
  import opened Ranking
  import opened FeedDatabase
  import opened LatestFeed

  /** A cursor of one column resumes exactly after a row if and only if no other row of the same
      millisecond is listed after it; otherwise those rows are never shown. */
  lemma OneColumnCursorIsExactUnlessTied(videos: Videos, k: Key)
    requires k in AllVideos(videos)
    ensures Earlier(AllVideos(videos), Some(k.major)) == Before(AllVideos(videos), Some(k))
       <==> !exists other :: other in AllVideos(videos) && other.major == k.major && Ahead(k, other)
  {
    var earlier, after := Earlier(AllVideos(videos), Some(k.major)), Before(AllVideos(videos), Some(k));
    forall other | other in AllVideos(videos) && other.major == k.major && Ahead(k, other)
      ensures other in after && other !in earlier
    {
    }
    assert earlier <= after;
  }

  // ---------------------------------------------------------------- one page

  /** Rows of the last row's millisecond that did not fit on the page. */
  function Split(rest: set<Key>, page: seq<Key>): set<Key> {
    if page == [] then {} else set k | k in rest && k !in page && k.major == page[|page| - 1].major
  }

  /** Where the next request goes on, if there is one. */
  function Rest(pool: set<Key>, items: seq<Key>, limit: nat): set<Key> {
    if |items| == limit > 0 then Earlier(pool, Some(items[limit - 1].major)) else {}
  }

  ghost predicate Partition(whole: set<Key>, a: set<Key>, b: set<Key>, c: set<Key>) {
    whole == a + b + c && a !! b && a !! c && b !! c
  }

  lemma RowsAbove(page: seq<Key>, k: Key)
    requires Descending(page) && k in page
    ensures page != [] && k.major >= page[|page| - 1].major
  {
    var i :| 0 <= i < |page| && page[i] == k;
    assert i == |page| - 1 || Ahead(page[i], page[|page| - 1]);
  }

  /** A row that is neither on the page nor lost comes after a full page. */
  lemma OffThePage(whole: set<Key>, lost: set<Key>, items: seq<Key>, limit: nat, k: Key)
    requires limit > 0 && IsTop(whole - lost, limit, items)
    requires k in whole && k !in lost && k !in items
    ensures |items| == limit && items[limit - 1].major >= k.major
  {
    assert AllAhead(items, k) && items[|items| - 1] in items;
  }

  /** What a request asks for is on its page, or left out by it for good, or left for the next one. */
  lemma OnePage(pool: set<Key>, before: Option<int>, lost: set<Key>, items: seq<Key>, limit: nat)
    requires limit > 0 && lost <= Earlier(pool, before) && PassedBy(lost, items)
    requires IsTop(Earlier(pool, before) - lost, limit, items)
    ensures Partition(Earlier(pool, before), Elements(items), lost + Split(Earlier(pool, before) - lost, items), Rest(pool, items, limit))
  {
    var whole, split, next := Earlier(pool, before), Split(Earlier(pool, before) - lost, items), Rest(pool, items, limit);
    forall k | k in items ensures k in whole && k !in lost && k !in split && k !in next {
      RowsAbove(items, k);
      assert k in whole - lost;
    }
    forall k | k in whole && k !in lost && k !in items ensures k in split || k in next {
      OffThePage(whole, lost, items, limit, k);
    }
    forall k | k in next ensures k in whole && k !in lost && k !in split {
      assert items[limit - 1] in items && items[limit - 1] in whole;
    }
  }

  lemma PageShrinks(pool: set<Key>, before: Option<int>, last: Key)
    requires last in Earlier(pool, before)
    ensures |Earlier(pool, Some(last.major))| < |Earlier(pool, before)|
  {
    SubsetCount(Earlier(pool, Some(last.major)) + {last}, Earlier(pool, before));
  }

  // ---------------------------------------------------------------- a run of ListLatest

  /** A request that was served: its cursor, the clock, whether Redis was out of reach, its reply's
      items and what they leave out. */
  datatype Page = Page(before: Option<int>, now: int, unreachable: bool, items: seq<Key>, lost: set<Key>)

  function SplitOf(pool: set<Key>, p: Page): set<Key> {
    Split(Earlier(pool, p.before) - p.lost, p.items)
  }

  /** All that one page leaves out. */
  function LeftOut(pool: set<Key>, p: Page): set<Key> {
    p.lost + SplitOf(pool, p)
  }

  /** All that the pages leave out, and all that they show. */
  ghost function Skipped(pool: set<Key>, pages: seq<Page>): set<Key> {
    set i, k | 0 <= i < |pages| && k in LeftOut(pool, pages[i]) :: k
  }

  ghost function Shown(pages: seq<Page>): set<Key> {
    set i, k | 0 <= i < |pages| && k in pages[i].items :: k
  }

  predicate Clean(pool: set<Key>, pages: seq<Page>) {
    forall i :: 0 <= i < |pages| ==> pages[i].lost == {} && SplitOf(pool, pages[i]) == {}
  }

  predicate NothingLostBy(pages: seq<Page>) {
    forall i :: 0 <= i < |pages| ==> pages[i].lost == {}
  }

  lemma CleanIffNothingSkipped(pool: set<Key>, pages: seq<Page>)
    ensures Clean(pool, pages) <==> Skipped(pool, pages) == {}
  {
    forall i, k | 0 <= i < |pages| && k in LeftOut(pool, pages[i]) ensures k in Skipped(pool, pages) {
    }
    if Skipped(pool, pages) == {} {
      forall i | 0 <= i < |pages| ensures LeftOut(pool, pages[i]) == {} {
        forall k ensures k !in LeftOut(pool, pages[i]) {
          assert k !in Skipped(pool, pages);
        }
      }
      forall i | 0 <= i < |pages| ensures pages[i].lost == {} && SplitOf(pool, pages[i]) == {} {
        assert pages[i].lost <= LeftOut(pool, pages[i]) && SplitOf(pool, pages[i]) <= LeftOut(pool, pages[i]);
      }
    }
  }

  /** The cursor a client sends for a reply's next time: 0 asks for the first page. */
  function CursorOf(nextTime: int): Option<int> {
    if nextTime > 0 then Some(nextTime) else None
  }

  /** What the request after these pages asks for. */
  function Asks(pages: seq<Page>): Option<int> {
    if pages == [] then None
    else
      var items := pages[|pages| - 1].items;
      if items == [] then None else CursorOf(items[|items| - 1].major)
  }

  /** The page is ListLatest's over these tables and this timeline. */
  ghost predicate IsPage(videos: Videos, timeline: set<Key>, limit: nat, p: Page) {
    && p.lost == LossAt(videos, timeline, limit, p.before, p.now, p.unreachable)
    && p.items == Top(Earlier(AllVideos(videos), p.before) - p.lost, limit)
  }

  ghost predicate ArePages(videos: Videos, timeline: set<Key>, limit: nat, pages: seq<Page>) {
    forall i :: 0 <= i < |pages| ==> IsPage(videos, timeline, limit, pages[i])
  }

  /** Each request is for the cursor of the full page before it. */
  predicate Chained(pages: seq<Page>, limit: nat) {
    forall i {:trigger pages[i]} :: 0 <= i < |pages| ==>
      pages[i].before == Asks(pages[..i]) && (i + 1 < |pages| ==> |pages[i].items| == limit)
  }

  ghost predicate IsRun(videos: Videos, timeline: set<Key>, limit: nat, pages: seq<Page>) {
    ArePages(videos, timeline, limit, pages) && Chained(pages, limit)
  }

  /** Between two requests: what is shown, what is skipped for good, and what is still asked for. */
  ghost predicate Progress(pool: set<Key>, pages: seq<Page>, rows: seq<Key>, hasMore: bool, before: Option<int>) {
    && Elements(rows) == Shown(pages) && Descending(rows) && before == Asks(pages)
    && Partition(pool, Elements(rows), Skipped(pool, pages), if hasMore then Earlier(pool, before) else {})
    && (hasMore && rows != [] ==> before == Some(rows[|rows| - 1].major))
  }

  lemma MorePartition(whole: set<Key>, rows: set<Key>, skipped: set<Key>, asked: set<Key>, items: set<Key>, out: set<Key>, next: set<Key>)
    requires Partition(whole, rows, skipped, asked) && Partition(asked, items, out, next)
    ensures Partition(whole, rows + items, skipped + out, next)
  {
  }

  lemma MoreRows(rows: seq<Key>, items: seq<Key>, before: Option<int>)
    requires Descending(rows) && Descending(items)
    requires rows != [] ==> before == Some(rows[|rows| - 1].major)
    requires forall k :: k in items ==> before.None? || k.major < before.value
    ensures Descending(rows + items)
  {
    var all := rows + items;
    forall i, j | 0 <= i < j < |all| ensures Ahead(all[i], all[j]) {
      if i < |rows| <= j {
        assert items[j - |rows|] in items;
        assert i == |rows| - 1 || Ahead(rows[i], rows[|rows| - 1]);
      }
    }
  }

  lemma AddParts(pool: set<Key>, pages: seq<Page>, rows: seq<Key>, p: Page, limit: nat)
    requires limit > 0 && p.lost <= Earlier(pool, p.before) && PassedBy(p.lost, p.items)
    requires IsTop(Earlier(pool, p.before) - p.lost, limit, p.items)
    requires Partition(pool, Elements(rows), Skipped(pool, pages), Earlier(pool, p.before))
    ensures Partition(pool, Elements(rows + p.items), Skipped(pool, pages) + LeftOut(pool, p), Rest(pool, p.items, limit))
  {
    OnePage(pool, p.before, p.lost, p.items, limit);
    MorePartition(pool, Elements(rows), Skipped(pool, pages), Earlier(pool, p.before),
                  Elements(p.items), LeftOut(pool, p), Rest(pool, p.items, limit));
    BothElements(rows, p.items);
  }

  lemma AddRows(pool: set<Key>, rows: seq<Key>, p: Page, limit: nat)
    requires Descending(rows) && (rows != [] ==> p.before == Some(rows[|rows| - 1].major))
    requires IsTop(Earlier(pool, p.before) - p.lost, limit, p.items)
    ensures Descending(rows + p.items)
  {
    MoreRows(rows, p.items, p.before);
  }

  lemma NextAsks(pool: set<Key>, pages: seq<Page>, p: Page, limit: nat)
    requires IsTop(Earlier(pool, p.before) - p.lost, limit, p.items) && |p.items| == limit > 0
    requires forall k :: k in pool ==> k.major > 0
    ensures Asks(pages + [p]) == Some(p.items[limit - 1].major)
    ensures |Earlier(pool, Asks(pages + [p]))| < |Earlier(pool, p.before)|
    ensures Rest(pool, p.items, limit) == Earlier(pool, Asks(pages + [p]))
  {
    LastItem(pool, p, limit);
    PageShrinks(pool, p.before, p.items[limit - 1]);
  }

  lemma LogPage(pool: set<Key>, pages: seq<Page>, p: Page)
    ensures Shown(pages + [p]) == Shown(pages) + Elements(p.items)
    ensures Skipped(pool, pages + [p]) == Skipped(pool, pages) + LeftOut(pool, p)
  {
    var longer := pages + [p];
    assert longer[|pages|] == p && forall i :: 0 <= i < |pages| ==> longer[i] == pages[i];
    forall k | k in Shown(pages) + Elements(p.items) ensures k in Shown(longer) {
      if k in p.items {
        assert k in longer[|pages|].items;
      } else {
        var i :| 0 <= i < |pages| && k in pages[i].items;
        assert k in longer[i].items;
      }
    }
    forall k | k in Skipped(pool, pages) + LeftOut(pool, p) ensures k in Skipped(pool, longer) {
      if k in LeftOut(pool, p) {
        assert k in LeftOut(pool, longer[|pages|]);
      } else {
        var i :| 0 <= i < |pages| && k in LeftOut(pool, pages[i]);
        assert k in LeftOut(pool, longer[i]);
      }
    }
  }

  lemma Proceeds(pool: set<Key>, pages: seq<Page>, rows: seq<Key>, p: Page, limit: nat, before: Option<int>)
    requires Elements(rows) == Shown(pages) && Descending(rows + p.items) && before == Asks(pages + [p])
    requires Partition(pool, Elements(rows + p.items), Skipped(pool, pages) + LeftOut(pool, p), Rest(pool, p.items, limit))
    requires |p.items| == limit ==>
               limit > 0 && before == Some(p.items[limit - 1].major) && Rest(pool, p.items, limit) == Earlier(pool, before)
    requires |p.items| != limit ==> Rest(pool, p.items, limit) == {}
    ensures Progress(pool, pages + [p], rows + p.items, |p.items| == limit, before)
  {
    LogPage(pool, pages, p);
    BothElements(rows, p.items);
  }

  lemma AddPage(pool: set<Key>, pages: seq<Page>, rows: seq<Key>, p: Page, limit: nat)
    requires limit > 0 && Progress(pool, pages, rows, true, p.before)
    requires p.lost <= Earlier(pool, p.before) && PassedBy(p.lost, p.items)
    requires IsTop(Earlier(pool, p.before) - p.lost, limit, p.items)
    requires forall k :: k in pool ==> k.major > 0
    ensures Progress(pool, pages + [p], rows + p.items, |p.items| == limit, Asks(pages + [p]))
    ensures |p.items| == limit ==> |Earlier(pool, Asks(pages + [p]))| < |Earlier(pool, p.before)|
  {
    AddParts(pool, pages, rows, p, limit);
    AddRows(pool, rows, p, limit);
    if |p.items| == limit {
      NextAsks(pool, pages, p, limit);
    }
    Proceeds(pool, pages, rows, p, limit, Asks(pages + [p]));
  }

  lemma LastItem(pool: set<Key>, p: Page, limit: nat)
    requires IsTop(Earlier(pool, p.before) - p.lost, limit, p.items) && |p.items| == limit > 0
    ensures p.items[limit - 1] in Earlier(pool, p.before) && p.items[limit - 1] in pool
  {
    assert p.items[limit - 1] in p.items;
  }

  lemma BothElements(a: seq<Key>, b: seq<Key>)
    ensures Elements(a + b) == Elements(a) + Elements(b)
  {
  }

  /** A request the feed can serve whole, whatever the caches do. */
  predicate Fine(videos: Videos, weather: Weather) {
    && !weather.rangeFails && !weather.queryFails && !weather.coldFails
    && Agrees(videos, weather.local) && Agrees(videos, weather.redis)
  }

  lemma SomeWeatherIsFine(videos: Videos)
    ensures exists weather :: Fine(videos, weather)
  {
    assert Fine(videos, Weather(false, false, false, 0, false, false, map[], map[]));
  }

  /** The timeline stays, unless it was empty and is refilled by a request that reaches Redis. */
  ghost predicate Stays(videos: Videos, was: set<Key>, timeline: set<Key>, unreachable: bool) {
    var refill := Elements(ListLatestQuery(videos, REBUILD_LIMIT, None));
    timeline == if was == {} && !unreachable then refill else was
  }

  /** One page, of any clock and of caches in any state. */
  method Fetch(service: LatestService, limit: nat, before: Option<int>) returns (reply: LatestReply, ghost page: Page)
    requires limit > 0 && Dated(service.videos, service.timeline)
    modifies service`timeline
    ensures Dated(service.videos, service.timeline)
    ensures Stays(service.videos, old(service.timeline), service.timeline, page.unreachable)
    ensures IsPage(service.videos, service.timeline, limit, page) && page.before == before
    ensures reply == ReplyOf(page.items, limit)
    ensures page.lost <= Earlier(AllVideos(service.videos), before) && PassedBy(page.lost, page.items)
  {
    var clock: int := *;
    SomeWeatherIsFine(service.videos);
    var weather: Weather :| Fine(service.videos, weather);
    var outcome;
    ghost var lost;
    outcome, lost := service.ListLatest(limit, before, clock, weather);
    reply := outcome.reply;
    page := Page(before, clock, weather.unreachable, reply.items, lost);
  }

  /** The run so far, and that pages before a refill were served by the database. */
  ghost predicate Going(videos: Videos, timeline: set<Key>, limit: nat, pages: seq<Page>) {
    && IsRun(videos, timeline, limit, pages)
    && (timeline == {} && ListLatestQuery(videos, REBUILD_LIMIT, None) != [] ==>
          forall i :: 0 <= i < |pages| ==> pages[i].unreachable)
  }

  lemma PageStays(videos: Videos, was: set<Key>, timeline: set<Key>, limit: nat, page: Page, unreachable: bool)
    requires IsPage(videos, was, limit, page) && Stays(videos, was, timeline, unreachable)
    requires was == {} && ListLatestQuery(videos, REBUILD_LIMIT, None) != [] ==> page.unreachable
    ensures IsPage(videos, timeline, limit, page)
  {
    if was == {} && !unreachable && ListLatestQuery(videos, REBUILD_LIMIT, None) == [] {
      assert timeline == {};
    }
  }

  lemma PagesStay(videos: Videos, was: set<Key>, timeline: set<Key>, limit: nat, pages: seq<Page>, unreachable: bool)
    requires Going(videos, was, limit, pages) && Stays(videos, was, timeline, unreachable)
    ensures IsRun(videos, timeline, limit, pages)
  {
    forall i | 0 <= i < |pages| ensures IsPage(videos, timeline, limit, pages[i]) {
      PageStays(videos, was, timeline, limit, pages[i], unreachable);
    }
  }

  lemma ChainAndPage(pages: seq<Page>, page: Page, limit: nat)
    requires Chained(pages, limit) && page.before == Asks(pages) && (pages != [] ==> |pages[|pages| - 1].items| == limit)
    ensures Chained(pages + [page], limit)
  {
    var longer := pages + [page];
    forall i | 0 <= i < |longer| ensures longer[..i] == pages[..i] {
    }
    assert pages[..|pages|] == pages;
  }

  lemma GoesOn(videos: Videos, was: set<Key>, timeline: set<Key>, limit: nat, pages: seq<Page>, page: Page)
    requires Going(videos, was, limit, pages) && Stays(videos, was, timeline, page.unreachable)
    requires pages != [] ==> |pages[|pages| - 1].items| == limit
    requires page.before == Asks(pages) && IsPage(videos, timeline, limit, page)
    ensures Going(videos, timeline, limit, pages + [page])
  {
    PagesStay(videos, was, timeline, limit, pages, page.unreachable);
    ChainAndPage(pages, page, limit);
    if timeline == {} && ListLatestQuery(videos, REBUILD_LIMIT, None) != [] {
      RefillHasRows(ListLatestQuery(videos, REBUILD_LIMIT, None));
    }
  }

  lemma RefillHasRows(recent: seq<Key>)
    requires recent != []
    ensures Elements(recent) != {}
  {
    assert recent[0] in Elements(recent);
  }

  /** What holds between two requests of a client. */
  ghost predicate PagingOf(videos: Videos, timeline: set<Key>, limit: nat, pages: seq<Page>, rows: seq<Key>,
                           hasMore: bool, before: Option<int>) {
    && Going(videos, timeline, limit, pages)
    && Progress(AllVideos(videos), pages, rows, hasMore, before)
    && (hasMore || pages != [])
    && (pages != [] ==> (hasMore <==> |pages[|pages| - 1].items| == limit))
  }

  lemma Continues(videos: Videos, was: set<Key>, timeline: set<Key>, limit: nat, pages: seq<Page>, rows: seq<Key>, page: Page)
    requires limit > 0 && forall k :: k in AllVideos(videos) ==> k.major > 0
    requires PagingOf(videos, was, limit, pages, rows, true, page.before)
    requires Stays(videos, was, timeline, page.unreachable) && IsPage(videos, timeline, limit, page)
    requires page.lost <= Earlier(AllVideos(videos), page.before) && PassedBy(page.lost, page.items)
    ensures var reply := ReplyOf(page.items, limit);
            && PagingOf(videos, timeline, limit, pages + [page], rows + page.items, reply.hasMore, CursorOf(reply.nextTime))
            && (reply.hasMore ==>
                  |Earlier(AllVideos(videos), CursorOf(reply.nextTime))| < |Earlier(AllVideos(videos), page.before)|)
  {
    GoesOn(videos, was, timeline, limit, pages, page);
    NextPage(videos, timeline, limit, pages, rows, page);
  }

  /** What a client keeps of the feed it scrolls through. */
  class Client {
    var rows: seq<Key>
    var before: Option<int>
    var hasMore: bool
    ghost var pages: seq<Page>

    constructor ()
      ensures rows == [] && before == None && hasMore && pages == []
    {
      rows, before, hasMore, pages := [], None, true, [];
    }

    /** What holds between two requests. */
    ghost predicate Paging(service: LatestService, limit: nat)
      reads this, service
    {
      && Dated(service.videos, service.timeline)
      && PagingOf(service.videos, service.timeline, limit, pages, rows, hasMore, before)
    }

    /** The posts still asked for, and a last empty page. */
    ghost function Remaining(service: LatestService): nat
      reads this, service
    {
      if hasMore then |Earlier(AllVideos(service.videos), before)| + 1 else 0
    }

    method LoadMore(service: LatestService, limit: nat)
      requires limit > 0 && (forall k :: k in AllVideos(service.videos) ==> k.major > 0)
      requires Paging(service, limit) && hasMore
      modifies this, service`timeline
      ensures Paging(service, limit)
      ensures |pages| == |old(pages)| + 1 && Remaining(service) < old(Remaining(service))
    {
      ghost var was := service.timeline;
      ghost var page;
      var reply;
      reply, page := Fetch(service, limit, before);
      Continues(service.videos, was, service.timeline, limit, pages, rows, page);
      Take(reply, page);
    }

    method Take(reply: LatestReply, ghost page: Page)
      modifies this
      ensures rows == old(rows) + reply.items && hasMore == reply.hasMore && before == CursorOf(reply.nextTime)
      ensures pages == old(pages) + [page]
    {
      hasMore := reply.hasMore;
      before := CursorOf(reply.nextTime);
      rows := rows + reply.items;
      pages := pages + [page];
    }

    method LoadAll(service: LatestService, limit: nat)
      requires limit > 0 && (forall k :: k in AllVideos(service.videos) ==> k.major > 0)
      requires Paging(service, limit)
      modifies this, service`timeline
      ensures Paging(service, limit) && !hasMore
      ensures |pages| <= |old(pages)| + old(Remaining(service))
    {
      while hasMore
        invariant Paging(service, limit) && |pages| + Remaining(service) <= |old(pages)| + old(Remaining(service))
        decreases Remaining(service)
      {
        LoadMore(service, limit);
      }
    }
  }

  /** A client of the latest feed that sends each next time back until has_more is false, over fixed
      tables and a timeline that only a refill of an empty one changes.  It is done within one request
      per post and one more, and is shown posts newest first, each at most once: all of them but those
      its pages lost or split.  So it is shown every post if and only if no page loses or splits any. */
  method ReadLatest(service: LatestService, limit: nat) returns (rows: seq<Key>, ghost pages: seq<Page>)
    requires limit > 0 && Dated(service.videos, service.timeline)
    requires forall k :: k in AllVideos(service.videos) ==> k.major > 0
    modifies service`timeline
    ensures IsRun(service.videos, service.timeline, limit, pages) && Elements(rows) == Shown(pages)
    ensures 0 < |pages| <= |AllVideos(service.videos)| + 1 && |pages[|pages| - 1].items| != limit
    ensures Descending(rows)
    ensures Elements(rows) == AllVideos(service.videos) - Skipped(AllVideos(service.videos), pages)
    ensures Elements(rows) == AllVideos(service.videos) <==> Clean(AllVideos(service.videos), pages)
    ensures NothingLostBy(pages) ==>
              (Elements(rows) == AllVideos(service.videos) <==> NoTieAtCut(Sorted(AllVideos(service.videos)), limit))
    ensures forall k :: k in rows ==> k.id in service.videos && k == Key(service.videos[k.id].time, 0, k.id)
    ensures forall i, j :: 0 <= i < j < |rows| ==>
              rows[i].major > rows[j].major || (rows[i].major == rows[j].major && rows[i].id > rows[j].id)
    ensures forall id :: id in service.videos ==>
              || Key(service.videos[id].time, 0, id) in rows
              || exists i :: 0 <= i < |pages|
                   && (Key(service.videos[id].time, 0, id) in pages[i].lost
                       || (pages[i].items != [] && Key(service.videos[id].time, 0, id) !in pages[i].items
                           && pages[i].items[|pages[i].items| - 1].major == service.videos[id].time))
    ensures NothingLostBy(pages) && (forall a, b :: a in service.videos && b in service.videos && service.videos[a].time == service.videos[b].time ==> a == b) ==>
              forall id :: id in service.videos ==> Key(service.videos[id].time, 0, id) in rows
  {
    var client := new Client();
    NothingYet(service.videos, service.timeline, limit);
    client.LoadAll(service, limit);
    rows, pages := client.rows, client.pages;
    RunIsOver(service.videos, service.timeline, limit, pages, rows, client.before);
    RunOfTable(service.videos, rows, pages);
  }

  /** What a finished run has shown, said of the videos table alone: a video it has not shown was lost by a
      page, or has the time of the last row of a page it was not on. */
  lemma RunOfTable(videos: Videos, rows: seq<Key>, pages: seq<Page>)
    requires Descending(rows) && Elements(rows) == AllVideos(videos) - Skipped(AllVideos(videos), pages)
    requires Elements(rows) == Shown(pages)
    ensures forall k :: k in rows ==> k.id in videos && k == Key(videos[k.id].time, 0, k.id)
    ensures forall i, j :: 0 <= i < j < |rows| ==>
              rows[i].major > rows[j].major || (rows[i].major == rows[j].major && rows[i].id > rows[j].id)
    ensures forall id :: id in videos ==>
              || Key(videos[id].time, 0, id) in rows
              || exists i :: 0 <= i < |pages|
                   && (Key(videos[id].time, 0, id) in pages[i].lost
                       || (pages[i].items != [] && Key(videos[id].time, 0, id) !in pages[i].items
                           && pages[i].items[|pages[i].items| - 1].major == videos[id].time))
    ensures NothingLostBy(pages) && (forall a, b :: a in videos && b in videos && videos[a].time == videos[b].time ==> a == b) ==>
              forall id :: id in videos ==> Key(videos[id].time, 0, id) in rows
  {
    forall k | k in rows ensures k.id in videos && k == Key(videos[k.id].time, 0, k.id) {
      assert k in Elements(rows);
    }
    forall i, j | 0 <= i < j < |rows| ensures Ahead(rows[i], rows[j]) {
    }
    forall i | 0 <= i < |rows| ensures rows[i].minor == 0 {
      assert rows[i] in rows;
    }
    forall id | id in videos && Key(videos[id].time, 0, id) !in rows
      ensures exists i :: 0 <= i < |pages|
                && (Key(videos[id].time, 0, id) in pages[i].lost
                    || (pages[i].items != [] && Key(videos[id].time, 0, id) !in pages[i].items
                        && pages[i].items[|pages[i].items| - 1].major == videos[id].time))
    {
      var own := Key(videos[id].time, 0, id);
      assert own == FeedKey(id, videos[id]) && own !in Elements(rows);
      var i :| 0 <= i < |pages| && own in LeftOut(AllVideos(videos), pages[i]);
    }
    if NothingLostBy(pages) && forall a, b :: a in videos && b in videos && videos[a].time == videos[b].time ==> a == b {
      forall id | id in videos ensures Key(videos[id].time, 0, id) in rows {
        TiesAreSplit(videos, rows, pages, id);
      }
    }
  }

  lemma TiesAreSplit(videos: Videos, rows: seq<Key>, pages: seq<Page>, id: nat)
    requires id in videos && Elements(rows) == Shown(pages) && NothingLostBy(pages)
    requires forall k :: k in rows ==> k.id in videos && k == Key(videos[k.id].time, 0, k.id)
    requires forall a, b :: a in videos && b in videos && videos[a].time == videos[b].time ==> a == b
    requires Key(videos[id].time, 0, id) in rows
             || exists i :: 0 <= i < |pages|
                  && (Key(videos[id].time, 0, id) in pages[i].lost
                      || (pages[i].items != [] && Key(videos[id].time, 0, id) !in pages[i].items
                          && pages[i].items[|pages[i].items| - 1].major == videos[id].time))
    ensures Key(videos[id].time, 0, id) in rows
  {
    forall i | 0 <= i < |pages| && pages[i].items != [] ensures pages[i].items[|pages[i].items| - 1] in rows {
      assert pages[i].items[|pages[i].items| - 1] in pages[i].items;
      assert pages[i].items[|pages[i].items| - 1] in Shown(pages);
      assert pages[i].items[|pages[i].items| - 1] in Elements(rows);
    }
  }

  lemma NothingYet(videos: Videos, timeline: set<Key>, limit: nat)
    ensures Going(videos, timeline, limit, []) && Progress(AllVideos(videos), [], [], true, None)
    ensures Earlier(AllVideos(videos), None) == AllVideos(videos)
  {
    assert Earlier(AllVideos(videos), None) == AllVideos(videos);
  }

  /** What a finished run has shown. */
  lemma RunIsOver(videos: Videos, timeline: set<Key>, limit: nat, pages: seq<Page>, rows: seq<Key>, before: Option<int>)
    requires limit > 0 && pages != [] && IsRun(videos, timeline, limit, pages) && |pages[|pages| - 1].items| != limit
    requires Progress(AllVideos(videos), pages, rows, false, before)
    requires forall k :: k in AllVideos(videos) ==> k.major > 0
    ensures Elements(rows) == AllVideos(videos) - Skipped(AllVideos(videos), pages)
    ensures Elements(rows) == AllVideos(videos) <==> Clean(AllVideos(videos), pages)
    ensures NothingLostBy(pages) ==> (Elements(rows) == AllVideos(videos) <==> NoTieAtCut(Sorted(AllVideos(videos)), limit))
  {
    var pool := AllVideos(videos);
    CleanIffNothingSkipped(pool, pages);
    AllButSkipped(pool, Elements(rows), Skipped(pool, pages));
    if NothingLostBy(pages) {
      LosslessPages(videos, timeline, limit, pages);
      LosslessIsComplete(pool, limit, pages, rows);
    }
  }

  lemma LosslessIsComplete(pool: set<Key>, limit: nat, pages: seq<Page>, rows: seq<Key>)
    requires limit > 0 && pages != [] && Chained(pages, limit) && |pages[|pages| - 1].items| != limit
    requires OfDatabase(pool, limit, pages) && Elements(rows) == Shown(pages) && forall k :: k in pool ==> k.major > 0
    ensures Elements(rows) == pool <==> NoTieAtCut(Sorted(pool), limit)
  {
    LosslessRun(pool, limit, pages, 0);
    assert pages[..0] == [] && pages[0..] == pages;
    assert Earlier(pool, None) == pool;
    LatestPagesAreComplete(pool, limit, None);
  }

  /** Without losses the pages are the database's. */
  predicate OfDatabase(pool: set<Key>, limit: nat, pages: seq<Page>) {
    forall i :: 0 <= i < |pages| ==> pages[i].items == Top(Earlier(pool, pages[i].before), limit)
  }

  lemma LosslessPages(videos: Videos, timeline: set<Key>, limit: nat, pages: seq<Page>)
    requires ArePages(videos, timeline, limit, pages) && NothingLostBy(pages)
    ensures OfDatabase(AllVideos(videos), limit, pages)
  {
    forall i | 0 <= i < |pages| ensures pages[i].items == Top(Earlier(AllVideos(videos), pages[i].before), limit) {
      LosslessPage(videos, timeline, limit, pages[i]);
    }
  }

  lemma LosslessPage(videos: Videos, timeline: set<Key>, limit: nat, p: Page)
    requires IsPage(videos, timeline, limit, p) && p.lost == {}
    ensures p.items == Top(Earlier(AllVideos(videos), p.before), limit)
  {
    var asked := Earlier(AllVideos(videos), p.before);
    assert asked - {} == asked;
  }

  lemma {:induction false} LosslessRun(pool: set<Key>, limit: nat, pages: seq<Page>, i: nat)
    requires limit > 0 && i < |pages| && Chained(pages, limit) && |pages[|pages| - 1].items| != limit
    requires OfDatabase(pool, limit, pages) && forall k :: k in pool ==> k.major > 0
    ensures Elements(LatestAll(pool, limit, pages[i].before)) == Shown(pages[i..])
    decreases |pages| - i
  {
    FirstShown(pages[i..]);
    if i + 1 < |pages| {
      PageThenNext(pool, limit, pages, i);
      LosslessRun(pool, limit, pages, i + 1);
      assert pages[i..][1..] == pages[i + 1..];
      BothElements(pages[i].items, LatestAll(pool, limit, pages[i + 1].before));
    } else {
      assert pages[i..][1..] == [];
    }
  }

  lemma FirstShown(pages: seq<Page>)
    requires pages != []
    ensures Shown(pages) == Elements(pages[0].items) + Shown(pages[1..])
  {
    forall k | k in Shown(pages[1..]) ensures k in Shown(pages) {
      var i :| 0 <= i < |pages[1..]| && k in pages[1..][i].items;
      assert k in pages[i + 1].items;
    }
    forall k | k in Shown(pages) ensures k in Elements(pages[0].items) + Shown(pages[1..]) {
      var i :| 0 <= i < |pages| && k in pages[i].items;
      assert i > 0 ==> k in pages[1..][i - 1].items;
    }
  }

  lemma PageThenNext(pool: set<Key>, limit: nat, pages: seq<Page>, i: nat)
    requires limit > 0 && i + 1 < |pages| && Chained(pages, limit) && OfDatabase(pool, limit, pages)
    requires forall k :: k in pool ==> k.major > 0
    ensures LatestAll(pool, limit, pages[i].before) == pages[i].items + LatestAll(pool, limit, pages[i + 1].before)
  {
    var items := pages[i].items;
    assert items[limit - 1] in items;
    assert pages[..i + 1][i] == pages[i] && |pages[..i + 1]| == i + 1;
    assert pages[i + 1].before == Asks(pages[..i + 1]);
  }

  lemma AllButSkipped(pool: set<Key>, rows: set<Key>, skipped: set<Key>)
    requires Partition(pool, rows, skipped, {})
    ensures rows == pool - skipped && (rows == pool <==> skipped == {})
  {
  }

  lemma NextPage(videos: Videos, timeline: set<Key>, limit: nat, pages: seq<Page>, rows: seq<Key>, page: Page)
    requires limit > 0 && forall k :: k in AllVideos(videos) ==> k.major > 0
    requires IsPage(videos, timeline, limit, page) && Progress(AllVideos(videos), pages, rows, true, page.before)
    requires page.lost <= Earlier(AllVideos(videos), page.before) && PassedBy(page.lost, page.items)
    ensures var reply, before := ReplyOf(page.items, limit), Asks(pages + [page]);
            && Progress(AllVideos(videos), pages + [page], rows + page.items, reply.hasMore, before)
            && before == CursorOf(reply.nextTime)
            && (reply.hasMore ==> |Earlier(AllVideos(videos), before)| < |Earlier(AllVideos(videos), page.before)|)
  {
    AddPage(AllVideos(videos), pages, rows, page, limit);
    NextIsAsked(pages, page, limit);
  }

  lemma NextIsAsked(pages: seq<Page>, page: Page, limit: nat)
    ensures Asks(pages + [page]) == CursorOf(ReplyOf(page.items, limit).nextTime)
    ensures ReplyOf(page.items, limit).hasMore <==> |page.items| == limit
  {
  }

  // ---------------------------------------------------------------- when nothing is lost

  /** The pages of the database: each request asks for what is earlier than the last row shown. */
  function LatestAll(pool: set<Key>, limit: nat, before: Option<int>): seq<Key>
    requires limit > 0
    decreases |Earlier(pool, before)|
  {
    var page := Top(Earlier(pool, before), limit);
    if |page| < limit then page
    else
      PageIsAsked(pool, before, limit);
      page + LatestAll(pool, limit, Some(page[limit - 1].major))
  }

  lemma PageIsAsked(pool: set<Key>, before: Option<int>, limit: nat)
    requires limit > 0 && |Top(Earlier(pool, before), limit)| == limit
    ensures var last := Top(Earlier(pool, before), limit)[limit - 1];
            last in Earlier(pool, before) && |Earlier(pool, Some(last.major))| < |Earlier(pool, before)|
  {
    var page := Top(Earlier(pool, before), limit);
    assert page[limit - 1] in page;
    PageShrinks(pool, before, page[limit - 1]);
  }

  function Sorted(pool: set<Key>): seq<Key> {
    Top(pool, |pool|)
  }

  /** No two neighbours of the sorted list share a millisecond where a page of `limit` rows ends. */
  predicate NoTieAtCut(s: seq<Key>, limit: nat)
    requires limit > 0
  {
    forall i :: 0 < i < |s| && i % limit == 0 ==> s[i - 1].major != s[i].major
  }

  lemma OnePageLater(i: int, limit: nat)
    requires limit > 0
    ensures i % limit == 0 <==> (i + limit) % limit == 0
  {
    var q, r := i / limit, i % limit;
    assert i == q * limit + r;
    assert i + limit == (q + 1) * limit + r;
    QuotientIs(i + limit, limit, q + 1, r);
  }

  lemma QuotientIs(n: int, d: nat, q: int, r: int)
    requires d > 0 && 0 <= r < d && n == q * d + r
    ensures n % d == r
  {
    var p, m := n / d, n % d;
    assert n == p * d + m;
    assert (q - p) * d == m - r;
    assert q - p >= 1 ==> (q - p) * d >= d;
    assert q - p <= -1 ==> (q - p) * d <= -(d as int);
  }

  lemma CutsOfTail(page: seq<Key>, tail: seq<Key>, limit: nat)
    requires |page| == limit > 0
    ensures NoTieAtCut(page + tail, limit)
       <==> (tail == [] || page[limit - 1].major != tail[0].major) && NoTieAtCut(tail, limit)
  {
    var s := page + tail;
    OnePageLater(0, limit);
    forall i | 0 <= i < |tail| ensures i % limit == 0 <==> (i + limit) % limit == 0 {
      OnePageLater(i, limit);
    }
    if NoTieAtCut(s, limit) {
      assert tail != [] ==> s[limit - 1].major != s[limit].major;
      forall i | 0 < i < |tail| && i % limit == 0 ensures tail[i - 1].major != tail[i].major {
        assert s[i + limit - 1].major != s[i + limit].major;
      }
    } else {
      var i :| 0 < i < |s| && i % limit == 0 && s[i - 1].major == s[i].major;
      if i < limit {
        QuotientIs(i, limit, 0, i);
      } else if i > limit {
        assert (i - limit) % limit == 0;
        assert tail[i - limit - 1].major == tail[i - limit].major;
      }
    }
  }

  /** The rows behind a page start with those it splits off. */
  lemma TailAfterPage(rest: set<Key>, limit: nat)
    requires limit > 0 && |Top(rest, limit)| == limit
    ensures var page := Top(rest, limit);
            var behind := Before(rest, Some(page[limit - 1]));
            && Sorted(rest) == page + Sorted(behind)
            && (Split(rest, page) == {} <==> Sorted(behind) == [] || Sorted(behind)[0].major != page[limit - 1].major)
  {
    var page := Top(rest, limit);
    var last := page[limit - 1];
    var behind := Before(rest, Some(last));
    BeforeShrinks(rest, limit);
    TopResumes(rest, limit, |behind|, |rest|);
    TopCount(behind, |behind|);
    SplitIsBehind(rest, page, last);
    FirstIsNewest(behind, last);
  }

  lemma SplitIsBehind(rest: set<Key>, page: seq<Key>, last: Key)
    requires IsTop(rest, |page|, page) && page != [] && last == page[|page| - 1]
    ensures Split(rest, page) == set k | k in Before(rest, Some(last)) && k.major == last.major
  {
    assert last in page;
    forall k | k in page ensures k !in Before(rest, Some(last)) {
      var i :| 0 <= i < |page| && page[i] == k;
      assert i == |page| - 1 || Ahead(page[i], last);
    }
  }

  lemma FirstIsNewest(behind: set<Key>, last: Key)
    requires forall k :: k in behind ==> Ahead(last, k)
    ensures (set k | k in behind && k.major == last.major) == {}
       <==> Sorted(behind) == [] || Sorted(behind)[0].major != last.major
  {
    var s, tied := Sorted(behind), set k | k in behind && k.major == last.major;
    TopCount(behind, |behind|);
    if s != [] {
      assert s[0] in s && s[0] in behind;
      if tied != {} {
        var k :| k in tied;
        assert k in Elements(s);
        var i :| 0 <= i < |s| && s[i] == k;
        assert i == 0 || Ahead(s[0], s[i]);
      } else {
        assert s[0] !in tied;
      }
    } else {
      assert Elements(s) == {};
    }
  }

  /** Paging the database shows every post if and only if no two posts of one millisecond stand at the
      end of one page and the start of the next in the sorted list; the posts behind such a cut are
      never shown. */
  lemma {:induction false} LatestPagesAreComplete(pool: set<Key>, limit: nat, before: Option<int>)
    requires limit > 0
    ensures Elements(LatestAll(pool, limit, before)) <= Earlier(pool, before)
    ensures Elements(LatestAll(pool, limit, before)) == Earlier(pool, before)
       <==> NoTieAtCut(Sorted(Earlier(pool, before)), limit)
    decreases |Earlier(pool, before)|
  {
    var rest := Earlier(pool, before);
    TopCount(rest, limit);
    if |Top(rest, limit)| < limit {
      ShortListHasNoCut(rest, limit);
    } else {
      PageIsAsked(pool, before, limit);
      LatestPagesAreComplete(pool, limit, Some(Top(rest, limit)[limit - 1].major));
      FullPageThenRest(pool, limit, before, LatestAll(pool, limit, Some(Top(rest, limit)[limit - 1].major)));
    }
  }

  lemma ShortListHasNoCut(rest: set<Key>, limit: nat)
    requires limit > 0 && |rest| < limit
    ensures NoTieAtCut(Sorted(rest), limit)
  {
    TopCount(rest, |rest|);
    forall i | 0 < i < |rest| ensures i % limit != 0 {
      QuotientIs(i, limit, 0, i);
    }
  }

  lemma FullPageThenRest(pool: set<Key>, limit: nat, before: Option<int>, shown: seq<Key>)
    requires limit > 0 && |Top(Earlier(pool, before), limit)| == limit
    requires var next := Some(Top(Earlier(pool, before), limit)[limit - 1].major);
             && shown == LatestAll(pool, limit, next) && Elements(shown) <= Earlier(pool, next)
             && (Elements(shown) == Earlier(pool, next) <==> NoTieAtCut(Sorted(Earlier(pool, next)), limit))
    ensures Elements(LatestAll(pool, limit, before)) <= Earlier(pool, before)
    ensures Elements(LatestAll(pool, limit, before)) == Earlier(pool, before)
       <==> NoTieAtCut(Sorted(Earlier(pool, before)), limit)
  {
    var rest := Earlier(pool, before);
    var page := Top(rest, limit);
    assert rest - {} == rest;
    OnePage(pool, before, {}, page, limit);
    CutsAfterPage(pool, before, limit);
    BothElements(page, shown);
    CompleteIff(rest, Elements(page), Split(rest, page), Earlier(pool, Some(page[limit - 1].major)), Elements(shown));
  }

  lemma CutsAfterPage(pool: set<Key>, before: Option<int>, limit: nat)
    requires limit > 0 && |Top(Earlier(pool, before), limit)| == limit
    ensures var page := Top(Earlier(pool, before), limit);
            NoTieAtCut(Sorted(Earlier(pool, before)), limit)
            <==> Split(Earlier(pool, before), page) == {}
                 && NoTieAtCut(Sorted(Earlier(pool, Some(page[limit - 1].major))), limit)
  {
    var rest := Earlier(pool, before);
    var page := Top(rest, limit);
    TailAfterPage(rest, limit);
    CutsOfTail(page, Sorted(Before(rest, Some(page[limit - 1]))), limit);
    if Split(rest, page) == {} {
      NextIsBehind(pool, before, page, limit);
    }
  }

  lemma NextIsBehind(pool: set<Key>, before: Option<int>, page: seq<Key>, limit: nat)
    requires |page| == limit > 0 && IsTop(Earlier(pool, before), limit, page) && Split(Earlier(pool, before), page) == {}
    ensures Before(Earlier(pool, before), Some(page[limit - 1])) == Earlier(pool, Some(page[limit - 1].major))
  {
    var rest, last := Earlier(pool, before), page[limit - 1];
    assert last in page && last in rest;
    SplitIsBehind(rest, page, last);
    forall k | k in Before(rest, Some(last)) ensures k.major < last.major {
      assert k !in Split(rest, page);
    }
  }

  lemma CompleteIff(rest: set<Key>, page: set<Key>, split: set<Key>, next: set<Key>, shown: set<Key>)
    requires Partition(rest, page, split, next) && shown <= next
    ensures page + shown <= rest
    ensures page + shown == rest <==> split == {} && shown == next
  {
    if page + shown == rest {
      forall k | k in rest ensures k !in split && (k in next ==> k in shown) {
        assert k in page || k in shown;
      }
      assert split <= rest && next <= rest;
    }
  }

  // ---------------------------------------------------------------- inputs

  /** Two posts of one millisecond, one post a page: the second is never shown. */
  lemma TiedPostIsSkipped(a: Key, b: Key)
    requires Ahead(a, b) && a.major == b.major
    ensures LatestAll({a, b}, 1, None) == [a]
  {
    var pool := {a, b};
    assert Earlier(pool, None) == pool;
    TopUnique(pool, 1, [a], Top(pool, 1));
    assert Earlier(pool, Some(a.major)) == {};
    assert LatestAll(pool, 1, Some(a.major)) == [];
  }

  function ThreePosts(first: int, second: int, third: int): Videos {
    map[1 := Row(0, first, 0, 0), 2 := Row(0, second, 0, 0), 3 := Row(0, third, 0, 0)]
  }

  lemma ThreeKeys(first: int, second: int, third: int)
    ensures AllVideos(ThreePosts(first, second, third)) == {Key(first, 0, 1), Key(second, 0, 2), Key(third, 0, 3)}
  {
    var videos := ThreePosts(first, second, third);
    assert FeedKey(1, videos[1]) in AllVideos(videos);
    assert FeedKey(2, videos[2]) in AllVideos(videos);
    assert FeedKey(3, videos[3]) in AllVideos(videos);
  }

  /** Three posts of different times, of which the second is not on the timeline yet, one post a page:
      no page ends inside a millisecond, and yet the second is never shown. */
  lemma LatePostIsSkipped(first: int, second: int, third: int, now: int)
    requires now > first > second > third > 0
    ensures var videos, timeline := ThreePosts(first, second, third), {Key(first, 0, 1), Key(third, 0, 3)};
            && Scored(videos, timeline) && NoTieAtCut(Sorted(AllVideos(videos)), 1)
            && PageAt(videos, timeline, 1, None, now) == [Key(first, 0, 1)]
            && PageAt(videos, timeline, 1, Some(first), now) == [Key(third, 0, 3)]
            && PageAt(videos, timeline, 1, Some(third), now) == []
  {
    LateScored(first, second, third);
    LateFirst(first, second, third, now);
    LateSecond(first, second, third, now);
    LateThird(first, second, third, now);
  }

  lemma LateScored(first: int, second: int, third: int)
    requires first > second > third
    ensures var videos, timeline := ThreePosts(first, second, third), {Key(first, 0, 1), Key(third, 0, 3)};
            Scored(videos, timeline) && NoTieAtCut(Sorted(AllVideos(videos)), 1)
  {
    ThreeKeys(first, second, third);
    var all := {Key(first, 0, 1), Key(second, 0, 2), Key(third, 0, 3)};
    assert {Key(first, 0, 1), Key(third, 0, 3)} + all == all;
    DistinctHaveNoTie(all);
  }

  lemma LateFirst(first: int, second: int, third: int, now: int)
    requires now > first > second > third
    ensures PageAt(ThreePosts(first, second, third), {Key(first, 0, 1), Key(third, 0, 3)}, 1, None, now) == [Key(first, 0, 1)]
  {
    ThreeKeys(first, second, third);
    HotPageOf(ThreePosts(first, second, third), {Key(first, 0, 1), Key(third, 0, 3)}, None, now, Key(first, 0, 1));
  }

  lemma LateSecond(first: int, second: int, third: int, now: int)
    requires now > first > second > third
    ensures PageAt(ThreePosts(first, second, third), {Key(first, 0, 1), Key(third, 0, 3)}, 1, Some(first), now) == [Key(third, 0, 3)]
  {
    ThreeKeys(first, second, third);
    HotPageOf(ThreePosts(first, second, third), {Key(first, 0, 1), Key(third, 0, 3)}, Some(first), now, Key(third, 0, 3));
  }

  lemma LateThird(first: int, second: int, third: int, now: int)
    requires now > first > second > third
    ensures PageAt(ThreePosts(first, second, third), {Key(first, 0, 1), Key(third, 0, 3)}, 1, Some(third), now) == []
  {
    ThreeKeys(first, second, third);
    assert Cold({Key(first, 0, 1), Key(third, 0, 3)}, Some(third), now);
    assert Earlier(AllVideos(ThreePosts(first, second, third)), Some(third)) == {};
  }

  function PageAt(videos: Videos, timeline: set<Key>, limit: nat, before: Option<int>, now: int): seq<Key> {
    LatestWithout(videos, limit, before, LossAt(videos, timeline, limit, before, now, false)).items
  }

  lemma DistinctHaveNoTie(pool: set<Key>)
    requires DistinctTimes(pool)
    ensures NoTieAtCut(Sorted(pool), 1)
  {
    var s := Sorted(pool);
    forall i | 0 < i < |s| ensures s[i - 1].major != s[i].major {
      assert s[i - 1] in s && s[i] in s && Ahead(s[i - 1], s[i]);
      assert !Simultaneous(s[i - 1], s[i]);
    }
  }

  /** A hot page of one row that is still there. */
  lemma HotPageOf(videos: Videos, timeline: set<Key>, before: Option<int>, now: int, k: Key)
    requires !Cold(timeline, before, now) && IsTop(Earlier(timeline, before), 1, [k])
    requires k in Earlier(AllVideos(videos), before) && k.id in videos && k == FeedKey(k.id, videos[k.id])
    ensures PageAt(videos, timeline, 1, before, now) == [k]
  {
    TopUnique(Earlier(timeline, before), 1, [k], Top(Earlier(timeline, before), 1));
    var hot := HotSurvivors(videos, timeline, before, 1);
    assert [k][1..] == [] && Surviving(videos, []) == [];
    assert hot == [k];
    var pool := Earlier(AllVideos(videos), before) - Lost(videos, before, hot);
    TopUnique(pool, 1, [k], Top(pool, 1));
  }
}
