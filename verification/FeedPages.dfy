/** Cursor pagination: following the cursors of a list visits every row once, in order. */
module FeedPages {
  import opened Ranking
  import opened FeedDatabase
  import Codec = CursorCodec
  import FollowFeed

  /** One row more than asked for tells whether another page exists. */
  datatype Cut = Cut(items: seq<Key>, hasMore: bool)

  function CutPage(rows: seq<Key>, limit: nat): Cut {
    if |rows| > limit then Cut(rows[..limit], true) else Cut(rows, false)
  }

  function FollowingPage(pool: set<Key>, cursor: Option<Key>, limit: nat): Cut {
    CutPage(Top(Before(pool, cursor), limit + 1), limit)
  }

  /** next is the cursor text of the last item, empty when there is no item. */
  datatype FollowingReply = FollowingReply(items: seq<Key>, hasMore: bool, next: Codec.Text)

  function ReplyOf(page: Cut): FollowingReply {
    FollowingReply(page.items, page.hasMore,
                   if page.items == [] then [] else Codec.EncodeCursor(page.items[|page.items| - 1]))
  }

  /** The hybrid read of one row more than the limit, cut. */
  method HybridPage(service: FollowFeed.Service, limit: nat, cursor: Option<Key>, viewer: nat)
    returns (reply: Option<FollowingReply>, ghost missing: set<Key>)
    requires service.Valid()
    modifies service`indexes
    ensures service.Valid()
    ensures reply.None? <==> viewer != 0 && limit > 50
    ensures viewer == 0 ==> reply == Some(FollowingReply([], false, []))
    ensures viewer != 0 && limit <= 50 ==>
              var authors := Followed(service.follows, viewer);
              reply == Some(ReplyOf(CutPage(FollowFeed.QueryWithout(service.videos, authors, missing, cursor, limit + 1), limit)))
    ensures viewer != 0 && limit <= 50
            && FollowFeed.NothingLacked(service.videos, service.follows, old(service.indexes), service.now,
                                        service.celebrityThreshold, viewer)
            ==> missing == {} && reply == Some(ReplyOf(FollowingPage(ByAuthors(service.videos, Followed(service.follows, viewer)), cursor, limit)))
    ensures FollowFeed.NoMoreLacked(service.videos, service.follows, service.now, service.celebrityThreshold,
                                    old(service.indexes), service.indexes)
    ensures missing <= ByAuthors(service.videos, Followed(service.follows, viewer))
    ensures forall k :: k in missing ==>
              FollowFeed.LackedBySource(service.videos, service.follows, old(service.indexes), service.now,
                                        service.celebrityThreshold, viewer, k)
  {
    var answer;
    answer, missing := service.Read(viewer, cursor, limit + 1);
    match answer {
      case InvalidLimit => reply := None;
      case Rows(rows) =>
        var page := CutRows(rows, limit);
        reply := Some(ReplyOf(page));
    }
  }

  /** The endpoint: a page of the hybrid read, or the error of an impossible limit.  Said of the two
      tables alone: posts of followed authors after the cursor, newest first; each other such post is
      missing, or there is more and the page is full of newer ones; and more means such a post. */
  method ListFollowingCursor(service: FollowFeed.Service, limit: nat, cursor: Option<Key>, viewer: nat)
    returns (reply: Option<FollowingReply>, ghost missing: set<Key>)
    requires service.Valid()
    modifies service`indexes
    ensures service.Valid()
    ensures reply.None? <==> viewer != 0 && limit > 50
    ensures viewer == 0 ==> reply == Some(FollowingReply([], false, []))
    ensures viewer != 0 && limit <= 50 ==>
              var authors := Followed(service.follows, viewer);
              reply == Some(ReplyOf(CutPage(FollowFeed.QueryWithout(service.videos, authors, missing, cursor, limit + 1), limit)))
    ensures viewer != 0 && limit <= 50
            && FollowFeed.NothingLacked(service.videos, service.follows, old(service.indexes), service.now,
                                        service.celebrityThreshold, viewer)
            ==> missing == {} && reply == Some(ReplyOf(FollowingPage(ByAuthors(service.videos, Followed(service.follows, viewer)), cursor, limit)))
    ensures reply.Some? ==> forall k :: k in reply.value.items ==>
              && k.id in service.videos && (viewer, service.videos[k.id].author) in service.follows
              && k == Key(service.videos[k.id].time, 0, k.id)
    ensures reply.Some? ==> forall i, j :: 0 <= i < j < |reply.value.items| ==>
              var a, b := reply.value.items[i], reply.value.items[j];
              a.major > b.major || (a.major == b.major && a.id > b.id)
    ensures reply.Some? && cursor.Some? && cursor.value.minor == 0 ==> forall k :: k in reply.value.items ==>
              k.major < cursor.value.major || (k.major == cursor.value.major && k.id < cursor.value.id)
    ensures viewer != 0 && reply.Some? ==> forall id ::
              id in service.videos && (viewer, service.videos[id].author) in service.follows
              && (cursor.Some? ==> cursor.value.minor == 0
                                   && (service.videos[id].time < cursor.value.major
                                       || (service.videos[id].time == cursor.value.major && id < cursor.value.id))) ==>
                || Key(service.videos[id].time, 0, id) in reply.value.items
                || Key(service.videos[id].time, 0, id) in missing
                || (reply.value.hasMore && |reply.value.items| == limit
                    && forall k :: k in reply.value.items ==>
                         k.major > service.videos[id].time || (k.major == service.videos[id].time && k.id > id))
    ensures reply.Some? ==> |reply.value.items| <= limit
    ensures forall k :: k in missing ==>
              FollowFeed.LackedBySource(service.videos, service.follows, old(service.indexes), service.now,
                                        service.celebrityThreshold, viewer, k)
    ensures reply.Some? && reply.value.hasMore ==>
              exists id :: id in service.videos && (viewer, service.videos[id].author) in service.follows
                           && Key(service.videos[id].time, 0, id) !in missing
                           && Key(service.videos[id].time, 0, id) !in reply.value.items
    ensures reply.Some? ==> if reply.value.items == [] then reply.value.next == []
                            else reply.value.next == Codec.EncodeCursor(reply.value.items[|reply.value.items| - 1])
  {
    reply, missing := HybridPage(service, limit, cursor, viewer);
    if viewer != 0 && reply.Some? {
      ReplyOfTables(service.videos, service.follows, viewer, missing, cursor, limit, reply.value);
    }
  }

  /** A reply, said of the two tables alone. */
  lemma ReplyOfTables(videos: Videos, follows: Follows, viewer: nat, missing: set<Key>, cursor: Option<Key>, limit: nat,
                      reply: FollowingReply)
    requires reply == ReplyOf(CutPage(FollowFeed.QueryWithout(videos, Followed(follows, viewer), missing, cursor, limit + 1), limit))
    ensures |reply.items| <= limit
    ensures forall k :: k in reply.items ==>
              k.id in videos && (viewer, videos[k.id].author) in follows && k == Key(videos[k.id].time, 0, k.id)
    ensures forall i, j :: 0 <= i < j < |reply.items| ==>
              var a, b := reply.items[i], reply.items[j];
              a.major > b.major || (a.major == b.major && a.id > b.id)
    ensures cursor.Some? && cursor.value.minor == 0 ==> forall k :: k in reply.items ==>
              k.major < cursor.value.major || (k.major == cursor.value.major && k.id < cursor.value.id)
    ensures forall id ::
              id in videos && (viewer, videos[id].author) in follows
              && (cursor.Some? ==> cursor.value.minor == 0
                                   && (videos[id].time < cursor.value.major
                                       || (videos[id].time == cursor.value.major && id < cursor.value.id))) ==>
                || Key(videos[id].time, 0, id) in reply.items
                || Key(videos[id].time, 0, id) in missing
                || (reply.hasMore && |reply.items| == limit
                    && forall k :: k in reply.items ==>
                         k.major > videos[id].time || (k.major == videos[id].time && k.id > id))
    ensures reply.hasMore ==> exists id :: id in videos && (viewer, videos[id].author) in follows
                                           && Key(videos[id].time, 0, id) !in missing
                                           && Key(videos[id].time, 0, id) !in reply.items
  {
    CutOfTables(videos, follows, viewer, missing, cursor, limit);
    BehindTheCut(videos, follows, viewer, missing, cursor, limit);
  }

  /** A page cut from rows over the tables; whatever is on none of its places but on the longer one's is
      older than all of it. */
  lemma CutOfTables(videos: Videos, follows: Follows, viewer: nat, missing: set<Key>, cursor: Option<Key>, limit: nat)
    ensures var page := CutPage(FollowFeed.QueryWithout(videos, Followed(follows, viewer), missing, cursor, limit + 1), limit);
            && (forall k :: k in page.items ==>
                  k.id in videos && (viewer, videos[k.id].author) in follows && k == Key(videos[k.id].time, 0, k.id))
            && (forall i, j :: 0 <= i < j < |page.items| ==>
                  var a, b := page.items[i], page.items[j];
                  a.major > b.major || (a.major == b.major && a.id > b.id))
            && (cursor.Some? && cursor.value.minor == 0 ==> forall k :: k in page.items ==>
                  k.major < cursor.value.major || (k.major == cursor.value.major && k.id < cursor.value.id))
  {
    FollowFeed.PageOfTables(videos, follows, viewer, missing, cursor, limit + 1);
    var rows := FollowFeed.QueryWithout(videos, Followed(follows, viewer), missing, cursor, limit + 1);
    var page := CutPage(rows, limit);
    forall i | 0 <= i < |page.items| ensures page.items[i] in rows {
      assert page.items[i] == rows[i];
    }
  }

  lemma ExtraIsOlder(rows: seq<Key>, limit: nat)
    requires |rows| == limit + 1
    requires forall i, j :: 0 <= i < j < |rows| ==>
               rows[i].major > rows[j].major || (rows[i].major == rows[j].major && rows[i].id > rows[j].id)
    ensures forall k :: k in rows[..limit] ==>
              k.major > rows[limit].major || (k.major == rows[limit].major && k.id > rows[limit].id)
    ensures forall k :: k in rows ==> k in rows[..limit] || k == rows[limit]
    ensures rows[limit] in rows && rows[limit] !in rows[..limit]
  {
    assert rows == rows[..limit] + [rows[limit]];
  }

  /** What is not on the page. */
  lemma BehindTheCut(videos: Videos, follows: Follows, viewer: nat, missing: set<Key>, cursor: Option<Key>, limit: nat)
    ensures var page := CutPage(FollowFeed.QueryWithout(videos, Followed(follows, viewer), missing, cursor, limit + 1), limit);
            forall id ::
              id in videos && (viewer, videos[id].author) in follows
              && (cursor.Some? ==> cursor.value.minor == 0
                                   && (videos[id].time < cursor.value.major
                                       || (videos[id].time == cursor.value.major && id < cursor.value.id))) ==>
                || Key(videos[id].time, 0, id) in page.items
                || Key(videos[id].time, 0, id) in missing
                || (page.hasMore && |page.items| == limit
                    && forall k :: k in page.items ==> k.major > videos[id].time || (k.major == videos[id].time && k.id > id))
    ensures var page := CutPage(FollowFeed.QueryWithout(videos, Followed(follows, viewer), missing, cursor, limit + 1), limit);
            page.hasMore ==> exists id :: id in videos && (viewer, videos[id].author) in follows
                                          && Key(videos[id].time, 0, id) !in missing
                                          && Key(videos[id].time, 0, id) !in page.items
  {
    FollowFeed.PageOfTables(videos, follows, viewer, missing, cursor, limit + 1);
    var rows := FollowFeed.QueryWithout(videos, Followed(follows, viewer), missing, cursor, limit + 1);
    if |rows| > limit {
      ExtraIsOlder(rows, limit);
      var extra := rows[limit];
      assert extra in Before(ByAuthors(videos, Followed(follows, viewer)) - missing, cursor);
      assert Key(videos[extra.id].time, 0, extra.id) == extra;
    }
  }

  method CutRows(rows: seq<Key>, limit: nat) returns (page: Cut)
    ensures page == CutPage(rows, limit)
  {
    var hasMore := |rows| > limit;
    page := Cut(rows, hasMore);
    if hasMore {
      page := Cut(rows[..limit], hasMore);
    }
  }

  lemma PrefixIsTop(pool: set<Key>, n: nat, longer: seq<Key>)
    requires IsTop(pool, n + 1, longer) && |longer| == n + 1
    ensures IsTop(pool, n, longer[..n])
  {
    var page := longer[..n];
    assert longer == page + [longer[n]];
    assert longer[n] in longer;
    forall k | k in pool && k !in page ensures AllAhead(page, k) {
      forall q | q in page ensures Ahead(q, k) {
        var i :| 0 <= i < n && page[i] == q;
        assert longer[i] == q && Ahead(longer[i], longer[n]);
        assert k == longer[n] || (k !in longer && AllAhead(longer, k));
      }
    }
  }

  lemma TopPrefix(pool: set<Key>, n: nat)
    requires |pool| > n
    ensures |Top(pool, n + 1)| == n + 1 && Top(pool, n + 1)[..n] == Top(pool, n)
  {
    TopCount(pool, n + 1);
    var longer := Top(pool, n + 1);
    PrefixIsTop(pool, n, longer);
    TopUnique(pool, n, longer[..n], Top(pool, n));
  }

  /** The rows after a row that is itself after the cursor. */
  lemma BeforeBefore(pool: set<Key>, cursor: Option<Key>, k: Key)
    requires k in Before(pool, cursor)
    ensures Before(pool, Some(k)) == Before(Before(pool, cursor), Some(k))
  {
  }

  function Sorted(pool: set<Key>): seq<Key> {
    Top(pool, |pool|)
  }

  /** A full page and then everything after its last row. */
  lemma PageThenRest(pool: set<Key>, cursor: Option<Key>, limit: nat)
    requires limit > 0 && |Top(Before(pool, cursor), limit)| == limit
    ensures |Before(pool, Some(Top(Before(pool, cursor), limit)[limit - 1]))| == |Before(pool, cursor)| - limit
    ensures Sorted(Before(pool, cursor))
         == Top(Before(pool, cursor), limit) + Sorted(Before(pool, Some(Top(Before(pool, cursor), limit)[limit - 1])))
  {
    var rest := Before(pool, cursor);
    var last := Top(rest, limit)[limit - 1];
    assert last in Top(rest, limit);
    BeforeBefore(pool, cursor, last);
    BeforeShrinks(rest, limit);
    TopResumes(rest, limit, |rest| - limit, |rest|);
  }

  lemma ShortPageIsAll(pool: set<Key>, limit: nat)
    requires |pool| <= limit
    ensures Top(pool, limit) == Sorted(pool)
  {
    TopCount(pool, limit);
    TopUnique(pool, |pool|, Top(pool, limit), Sorted(pool));
  }

  /** The extra row is found exactly when rows remain behind a full page. */
  lemma ExtraRow(rest: set<Key>, limit: nat)
    ensures |Top(rest, limit + 1)| > limit <==> |rest| > limit
    ensures |rest| > limit ==> Top(rest, limit + 1)[..limit] == Top(rest, limit) && |Top(rest, limit)| == limit
    ensures |rest| <= limit ==> Top(rest, limit + 1) == Top(rest, limit)
  {
    if |rest| > limit {
      TopPrefix(rest, limit);
    } else {
      TopCount(rest, limit + 1);
      ShortPageIsAll(rest, limit);
      ShortPageIsAll(rest, limit + 1);
    }
  }

  /** A page has more behind it exactly when rows remain, and then it is full. */
  lemma HasMoreIsExact(pool: set<Key>, cursor: Option<Key>, limit: nat)
    requires limit > 0
    ensures FollowingPage(pool, cursor, limit).items == Top(Before(pool, cursor), limit)
    ensures FollowingPage(pool, cursor, limit).hasMore <==> |Before(pool, cursor)| > limit
    ensures FollowingPage(pool, cursor, limit).hasMore ==> |Top(Before(pool, cursor), limit)| == limit
  {
    ExtraRow(Before(pool, cursor), limit);
  }

  /** Where the next request resumes: after the last row, as its cursor text decodes. */
  function After(rows: seq<Key>): Option<Key> {
    if rows == [] then None else Some(rows[|rows| - 1])
  }

  lemma LastShrinks(pool: set<Key>, cursor: Option<Key>, last: Key)
    requires last in Before(pool, cursor)
    ensures |Before(pool, Some(last))| < |Before(pool, cursor)|
  {
    assert last !in Before(pool, Some(last));
    BeforeBefore(pool, cursor, last);
    SubsetCount(Before(pool, Some(last)) + {last}, Before(pool, cursor));
  }

  /** A page over any part of the pool: after the cursor, in order, and when more follows, less than
      before remains of the pool. */
  lemma PartialPage(pool: set<Key>, some: set<Key>, cursor: Option<Key>, limit: nat)
    requires limit > 0 && some <= pool
    ensures var page := FollowingPage(some, cursor, limit);
            && Descending(page.items) && Elements(page.items) <= Before(pool, cursor)
            && (page.hasMore ==>
                  && |page.items| == limit
                  && page.items[limit - 1] in pool
                  && |Before(pool, After(page.items))| < |Before(pool, cursor)|)
  {
    var page := FollowingPage(some, cursor, limit);
    HasMoreIsExact(some, cursor, limit);
    if page.hasMore {
      assert page.items[limit - 1] in page.items;
      LastShrinks(pool, cursor, page.items[limit - 1]);
    }
  }

  /** The rows shown so far: posts of the pool, newest first, each once, up to the cursor. */
  ghost predicate Shown(pool: set<Key>, rows: seq<Key>, cursor: Option<Key>) {
    Descending(rows) && Elements(rows) <= pool && cursor == After(rows)
  }

  lemma ShowMore(pool: set<Key>, rows: seq<Key>, cursor: Option<Key>, items: seq<Key>)
    requires Shown(pool, rows, cursor) && Descending(items) && Elements(items) <= Before(pool, cursor)
    ensures Descending(rows + items) && Elements(rows + items) <= pool
  {
    var all := rows + items;
    forall i, j | 0 <= i < j < |all| ensures Ahead(all[i], all[j]) {
      if i < |rows| <= j {
        assert all[j] in Elements(items);
        assert i == |rows| - 1 || Ahead(rows[i], rows[|rows| - 1]);
      }
    }
    forall k | k in Elements(all) ensures k in pool {
      assert k in rows || k in items;
      assert k in Elements(rows) || k in Elements(items);
    }
  }

  /** A client that has been shown these rows has exactly the rest to come. */
  ghost predicate Resumes(pool: set<Key>, rows: seq<Key>, hasMore: bool, cursor: Option<Key>) {
    if hasMore then Sorted(pool) == rows + Sorted(Before(pool, cursor)) else Sorted(pool) == rows
  }

  /** A page of the one-query read continues the rows. */
  lemma RequestAdvances(pool: set<Key>, limit: nat, rows: seq<Key>, cursor: Option<Key>)
    requires limit > 0 && Resumes(pool, rows, true, cursor)
    ensures var page := FollowingPage(pool, cursor, limit);
            Resumes(pool, rows + page.items, page.hasMore, After(page.items))
  {
    var page := FollowingPage(pool, cursor, limit);
    HasMoreIsExact(pool, cursor, limit);
    if page.hasMore {
      PageThenRest(pool, cursor, limit);
      Associative(rows, page.items, Sorted(Before(pool, After(page.items))));
    } else {
      ShortPageIsAll(Before(pool, cursor), limit);
    }
  }

  lemma Associative(a: seq<Key>, b: seq<Key>, c: seq<Key>)
    ensures a + (b + c) == (a + b) + c
  {
  }

  lemma NothingShown(pool: set<Key>)
    ensures Shown(pool, [], None) && Resumes(pool, [], true, None) && Before(pool, None) == pool
  {
    assert Before(pool, None) == pool;
    assert [] + Sorted(pool) == Sorted(pool);
  }

  /** Whether no ready index that this viewer's reads consult lacks a post. */
  ghost predicate Complete(service: FollowFeed.Service, viewer: nat)
    reads service
  {
    FollowFeed.NothingLacked(service.videos, service.follows, service.indexes, service.now,
                             service.celebrityThreshold, viewer)
  }

  ghost function Posts(service: FollowFeed.Service, viewer: nat): set<Key>
    reads service
  {
    ByAuthors(service.videos, Followed(service.follows, viewer))
  }

  /** One request with the cursor text of the reply before it. */
  method Request(service: FollowFeed.Service, viewer: nat, limit: nat, cursor: Codec.Text,
                 ghost rows: seq<Key>, ghost after: Option<Key>)
    returns (reply: FollowingReply)
    requires service.Valid() && viewer != 0 && 0 < limit <= 50
    requires forall k :: k in Posts(service, viewer) ==> Codec.IsPost(k)
    requires Codec.DecodeCursor(cursor) == Codec.Ok(after) && Shown(Posts(service, viewer), rows, after)
    modifies service`indexes
    ensures service.Valid() && (old(Complete(service, viewer)) ==> Complete(service, viewer))
    ensures Descending(rows + reply.items) && Elements(rows + reply.items) <= Posts(service, viewer)
    ensures reply.hasMore ==>
              && Shown(Posts(service, viewer), rows + reply.items, After(reply.items))
              && Codec.DecodeCursor(reply.next) == Codec.Ok(After(reply.items))
              && |Before(Posts(service, viewer), After(reply.items))| < |Before(Posts(service, viewer), after)|
    ensures old(Complete(service, viewer)) && Resumes(Posts(service, viewer), rows, true, after) ==>
              Resumes(Posts(service, viewer), rows + reply.items, reply.hasMore, After(reply.items))
  {
    var answer;
    ghost var missing;
    var decoded := Codec.DecodeCursor(cursor);
    answer, missing := HybridPage(service, limit, decoded.value, viewer);
    reply := answer.value;
    OneMorePage(Posts(service, viewer), missing, limit, rows, after, reply);
    if missing == {} && Resumes(Posts(service, viewer), rows, true, after) {
      OneExactPage(Posts(service, viewer), limit, rows, after, reply);
    }
  }

  /** A page over part of the posts continues the rows. */
  lemma OneMorePage(pool: set<Key>, missing: set<Key>, limit: nat, rows: seq<Key>, after: Option<Key>, reply: FollowingReply)
    requires limit > 0 && Shown(pool, rows, after) && forall k :: k in pool ==> Codec.IsPost(k)
    requires reply == ReplyOf(CutPage(Top(Before(pool - missing, after), limit + 1), limit))
    ensures Descending(rows + reply.items) && Elements(rows + reply.items) <= pool
    ensures reply.hasMore ==>
              && Shown(pool, rows + reply.items, After(reply.items))
              && Codec.DecodeCursor(reply.next) == Codec.Ok(After(reply.items))
              && |Before(pool, After(reply.items))| < |Before(pool, after)|
  {
    PartialPage(pool, pool - missing, after, limit);
    ShowMore(pool, rows, after, reply.items);
    if reply.hasMore {
      Codec.CursorRoundTrip(reply.items[limit - 1]);
      assert (rows + reply.items)[|rows| + limit - 1] == reply.items[limit - 1];
    }
  }

  /** And a page over all of them leaves exactly the rest. */
  lemma OneExactPage(pool: set<Key>, limit: nat, rows: seq<Key>, after: Option<Key>, reply: FollowingReply)
    requires limit > 0 && Resumes(pool, rows, true, after)
    requires reply == ReplyOf(CutPage(Top(Before(pool - {}, after), limit + 1), limit))
    ensures Resumes(pool, rows + reply.items, reply.hasMore, After(reply.items))
  {
    assert pool - {} == pool;
    RequestAdvances(pool, limit, rows, after);
  }

  /** Time passes between two requests. */
  method Pause(service: FollowFeed.Service, ghost viewer: nat)
    requires service.Valid()
    modifies service`now
    ensures service.Valid() && Posts(service, viewer) == old(Posts(service, viewer))
    ensures old(Complete(service, viewer)) ==> Complete(service, viewer)
  {
    var pause: nat :| pause >= 0;
    if Complete(service, viewer) {
      FollowFeed.TimeLacksNothing(service.videos, service.follows, service.indexes, service.now, service.now + pause,
                                  service.celebrityThreshold, viewer);
    }
    service.now := service.now + pause;
  }

  /** Between two requests other users read their feeds, rebuilding what they find not ready. */
  method OthersRead(service: FollowFeed.Service, ghost viewer: nat)
    requires service.Valid()
    modifies service`now, service`indexes
    ensures service.Valid() && Posts(service, viewer) == old(Posts(service, viewer))
    ensures old(Complete(service, viewer)) ==> Complete(service, viewer)
  {
    var visits: nat :| visits >= 0;
    for i := 0 to visits
      invariant service.Valid() && Posts(service, viewer) == old(Posts(service, viewer))
      invariant old(Complete(service, viewer)) ==> Complete(service, viewer)
    {
      Pause(service, viewer);
      var reader: nat :| reader >= 0;
      var cursor: Option<Key> :| cursor.None? || cursor.Some?;
      var limit: int := *;
      var reply;
      ghost var missing;
      reply, missing := service.Read(reader, cursor, limit);
    }
    Pause(service, viewer);
  }

  /** Between two requests others read, and when fan-outs run too the indexes may hold any entries that
      were printed from rows. */
  method Meanwhile(service: FollowFeed.Service, ghost viewer: nat, writers: bool)
    requires service.Valid()
    modifies service`now, service`indexes
    ensures service.Valid() && Posts(service, viewer) == old(Posts(service, viewer))
    ensures !writers && old(Complete(service, viewer)) ==> Complete(service, viewer)
  {
    OthersRead(service, viewer);
    if writers {
      var changed: FollowFeed.Indexes :|
        forall key :: key in changed ==> FollowFeed.Faithful(service.videos, changed[key].members);
      service.indexes := changed;
    }
  }

  lemma AllShown(pool: set<Key>, rows: seq<Key>)
    requires rows == Sorted(pool)
    ensures Elements(rows) == pool
  {
    TopCount(pool, |pool|);
  }

  /** What holds between the requests of a client. */
  ghost predicate Paging(service: FollowFeed.Service, viewer: nat, pool: set<Key>, rows: seq<Key>, hasMore: bool,
                         cursor: Codec.Text, after: Option<Key>)
    reads service
  {
    && service.Valid() && pool == Posts(service, viewer)
    && Descending(rows) && Elements(rows) <= pool
    && (hasMore ==> Shown(pool, rows, after) && Codec.DecodeCursor(cursor) == Codec.Ok(after))
  }

  /** A client of the endpoint that sends each next cursor back as the text it received, until
      has_more is false, at its own pace.  Whatever the indexes lack, and whatever `writers` do to
      them in between, it is done within one request per post and one more, and is shown posts of the
      followed authors, newest first, each at most once.  If no ready index lacks a post at the start
      and there is no writer but readers' rebuilds, it is shown all of them. */
  method FollowAll(service: FollowFeed.Service, viewer: nat, limit: nat, writers: bool) returns (rows: seq<Key>, requests: nat)
    requires service.Valid() && viewer != 0 && 0 < limit <= 50
    requires forall k :: k in Posts(service, viewer) ==> Codec.IsPost(k)
    modifies service`indexes, service`now
    ensures service.Valid()
    ensures Descending(rows) && Elements(rows) <= Posts(service, viewer)
    ensures requests <= |Posts(service, viewer)| + 1
    ensures !writers && old(Complete(service, viewer)) ==> Elements(rows) == Posts(service, viewer)
    ensures forall k :: k in rows ==>
              && k.id in service.videos && (viewer, service.videos[k.id].author) in service.follows
              && k == Key(service.videos[k.id].time, 0, k.id)
    ensures forall i, j :: 0 <= i < j < |rows| ==>
              rows[i].major > rows[j].major || (rows[i].major == rows[j].major && rows[i].id > rows[j].id)
    ensures !writers && old(Complete(service, viewer)) ==>
              forall id :: id in service.videos && (viewer, service.videos[id].author) in service.follows ==>
                             Key(service.videos[id].time, 0, id) in rows
  {
    ghost var pool := Posts(service, viewer);
    var cursor: Codec.Text := [];
    ghost var after: Option<Key> := None;
    var hasMore := true;
    rows, requests := [], 0;
    NothingShown(pool);
    while hasMore
      invariant Paging(service, viewer, pool, rows, hasMore, cursor, after)
      invariant !writers && old(Complete(service, viewer)) ==> Complete(service, viewer) && Resumes(pool, rows, hasMore, after)
      invariant requests + (if hasMore then |Before(pool, after)| + 1 else 0) <= |pool| + 1
      decreases hasMore, |Before(pool, after)|
    {
      Meanwhile(service, viewer, writers);
      var reply := Request(service, viewer, limit, cursor, rows, after);
      requests := requests + 1;
      rows := rows + reply.items;
      cursor := reply.next;
      hasMore := reply.hasMore;
      after := After(reply.items);
    }
    if !writers && old(Complete(service, viewer)) {
      AllShown(pool, rows);
    }
    RowsOfTables(service.videos, service.follows, viewer, rows);
  }

  /** What the rows of a run are, said of the two tables alone. */
  lemma RowsOfTables(videos: Videos, follows: Follows, viewer: nat, rows: seq<Key>)
    requires Descending(rows) && Elements(rows) <= ByAuthors(videos, Followed(follows, viewer))
    ensures forall k :: k in rows ==>
              k.id in videos && (viewer, videos[k.id].author) in follows && k == Key(videos[k.id].time, 0, k.id)
    ensures forall i, j :: 0 <= i < j < |rows| ==>
              rows[i].major > rows[j].major || (rows[i].major == rows[j].major && rows[i].id > rows[j].id)
    ensures Elements(rows) == ByAuthors(videos, Followed(follows, viewer)) ==>
              forall id :: id in videos && (viewer, videos[id].author) in follows ==> Key(videos[id].time, 0, id) in rows
  {
    forall k | k in rows
      ensures k.id in videos && (viewer, videos[k.id].author) in follows && k == Key(videos[k.id].time, 0, k.id)
    {
      assert k in Elements(rows);
      ByAuthorsKey(videos, Followed(follows, viewer), k);
    }
    forall i, j | 0 <= i < j < |rows|
      ensures rows[i].major > rows[j].major || (rows[i].major == rows[j].major && rows[i].id > rows[j].id)
    {
      assert rows[i] in rows && rows[j] in rows && Ahead(rows[i], rows[j]);
    }
    if Elements(rows) == ByAuthors(videos, Followed(follows, viewer)) {
      forall id | id in videos && (viewer, videos[id].author) in follows ensures Key(videos[id].time, 0, id) in rows {
        assert (viewer, videos[id].author).1 in Followed(follows, viewer);
        ByAuthorsKey(videos, Followed(follows, viewer), Key(videos[id].time, 0, id));
        assert Key(videos[id].time, 0, id) in Elements(rows);
      }
    }
  }

  // ---------------------------------------------------------------- ranked lists

  /** ORDER BY likes_count DESC, id DESC. */
  function LikesKey(id: nat, row: Row): Key {
    Key(row.likes, 0, id)
  }

  /** ORDER BY popularity DESC, create_time DESC, id DESC. */
  function PopularityKey(id: nat, row: Row): Key {
    Key(row.popularity, row.time, id)
  }

  /** The two-column cursor condition, as the query spells it. */
  predicate LikesWhere(id: nat, row: Row, likes: int, before: nat) {
    row.likes < likes || (row.likes == likes && id < before)
  }

  /** The three-column cursor condition; an incomplete cursor selects everything. */
  predicate PopularityWhere(id: nat, row: Row, popularity: int, time: Option<int>, before: nat) {
    if time.None? || before == 0 then true
    else
      || row.popularity < popularity
      || (row.popularity == popularity && row.time < time.value)
      || (row.popularity == popularity && row.time == time.value && id < before)
  }

  function LikesPool(videos: Videos): set<Key> {
    set id | id in videos :: LikesKey(id, videos[id])
  }

  function PopularityPool(videos: Videos): set<Key> {
    set id | id in videos :: PopularityKey(id, videos[id])
  }

  function LikesSelected(videos: Videos, cursor: Option<(int, nat)>): set<Key> {
    set id | id in videos && (cursor.None? || LikesWhere(id, videos[id], cursor.value.0, cursor.value.1))
      :: LikesKey(id, videos[id])
  }

  function PopularitySelected(videos: Videos, popularity: int, time: Option<int>, before: nat): set<Key> {
    set id | id in videos && PopularityWhere(id, videos[id], popularity, time, before)
      :: PopularityKey(id, videos[id])
  }

  /** The likes cursor selects exactly the rows listed strictly after the cursor row. */
  lemma LikesCursorIsSuccessor(videos: Videos, likes: int, id: nat)
    ensures LikesSelected(videos, Some((likes, id))) == Before(LikesPool(videos), Some(Key(likes, 0, id)))
    ensures LikesSelected(videos, None) == LikesPool(videos)
  {
  }

  /** So does the popularity cursor; without a time or an id it selects everything. */
  lemma PopularityCursorIsSuccessor(videos: Videos, popularity: int, time: int, id: nat)
    ensures id > 0 ==>
              PopularitySelected(videos, popularity, Some(time), id)
              == Before(PopularityPool(videos), Some(Key(popularity, time, id)))
    ensures PopularitySelected(videos, popularity, None, id) == PopularityPool(videos)
    ensures PopularitySelected(videos, popularity, Some(time), 0) == PopularityPool(videos)
  {
  }

  lemma PageIsInPool(pool: set<Key>, limit: nat)
    requires limit > 0 && |Top(pool, limit)| == limit
    ensures Top(pool, limit)[limit - 1] in pool
  {
    assert Top(pool, limit)[limit - 1] in Top(pool, limit);
  }

  /** The likes list page by page, each request with the WHERE clause of the last row.  has_more is
      "the page is full", so an exact multiple of the limit costs one empty page. */
  function LikesAll(videos: Videos, cursor: Option<(int, nat)>, limit: nat): seq<Key>
    requires limit > 0
    decreases |LikesSelected(videos, cursor)|
  {
    var page := Top(LikesSelected(videos, cursor), limit);
    if |page| < limit then page
    else
      var last := page[limit - 1];
      LikesShrink(videos, cursor, limit);
      page + LikesAll(videos, Some((last.major, last.id)), limit)
  }

  lemma LikesShrink(videos: Videos, cursor: Option<(int, nat)>, limit: nat)
    requires limit > 0 && |Top(LikesSelected(videos, cursor), limit)| == limit
    ensures var last := Top(LikesSelected(videos, cursor), limit)[limit - 1];
            && last.minor == 0
            && LikesSelected(videos, Some((last.major, last.id))) == Before(LikesSelected(videos, cursor), Some(last))
            && |LikesSelected(videos, Some((last.major, last.id)))| == |LikesSelected(videos, cursor)| - limit
  {
    var rest := LikesSelected(videos, cursor);
    var last := Top(rest, limit)[limit - 1];
    PageIsInPool(rest, limit);
    LikesCursorIsSuccessor(videos, last.major, last.id);
    if cursor.Some? {
      LikesCursorIsSuccessor(videos, cursor.value.0, cursor.value.1);
      BeforeBefore(LikesPool(videos), Some(Key(cursor.value.0, 0, cursor.value.1)), last);
    }
    BeforeShrinks(rest, limit);
  }

  /** All rows of a list: a full page and then all rows after it. */
  lemma SortedAfterPage(rest: set<Key>, limit: nat)
    requires limit > 0 && |Top(rest, limit)| == limit
    ensures Sorted(rest) == Top(rest, limit) + Sorted(Before(rest, Some(Top(rest, limit)[limit - 1])))
  {
    BeforeShrinks(rest, limit);
    TopResumes(rest, limit, |rest| - limit, |rest|);
  }

  lemma LikesFullPage(videos: Videos, cursor: Option<(int, nat)>, limit: nat, last: Key)
    requires limit > 0 && |Top(LikesSelected(videos, cursor), limit)| == limit
    requires last == Top(LikesSelected(videos, cursor), limit)[limit - 1]
    ensures |LikesSelected(videos, Some((last.major, last.id)))| < |LikesSelected(videos, cursor)|
    ensures LikesAll(videos, cursor, limit)
         == Top(LikesSelected(videos, cursor), limit) + LikesAll(videos, Some((last.major, last.id)), limit)
    ensures Sorted(LikesSelected(videos, cursor))
         == Top(LikesSelected(videos, cursor), limit) + Sorted(LikesSelected(videos, Some((last.major, last.id))))
  {
    LikesShrink(videos, cursor, limit);
    SortedAfterPage(LikesSelected(videos, cursor), limit);
  }

  /** Following the likes cursor visits every selected row once, in order. */
  lemma {:induction false} LikesPagesAreComplete(videos: Videos, cursor: Option<(int, nat)>, limit: nat)
    requires limit > 0
    ensures LikesAll(videos, cursor, limit) == Sorted(LikesSelected(videos, cursor))
    decreases |LikesSelected(videos, cursor)|
  {
    var rest := LikesSelected(videos, cursor);
    var page := Top(rest, limit);
    if |page| == limit {
      var last := page[limit - 1];
      LikesFullPage(videos, cursor, limit, last);
      LikesPagesAreComplete(videos, Some((last.major, last.id)), limit);
    } else {
      TopCount(rest, limit);
      ShortPageIsAll(rest, limit);
    }
  }

  /** The whole list by likes, said of the table alone. */
  lemma LikesListIsTable(videos: Videos, limit: nat)
    requires limit > 0
    ensures forall k :: k in LikesAll(videos, None, limit) ==> k.id in videos && k.major == videos[k.id].likes && k.minor == 0
    ensures forall id :: id in videos ==> Key(videos[id].likes, 0, id) in LikesAll(videos, None, limit)
    ensures var rows := LikesAll(videos, None, limit);
            forall i, j :: 0 <= i < j < |rows| ==>
              rows[i].major > rows[j].major || (rows[i].major == rows[j].major && rows[i].id > rows[j].id)
  {
    LikesPagesAreComplete(videos, None, limit);
    var rows, pool := LikesAll(videos, None, limit), LikesSelected(videos, None);
    AllShown(pool, rows);
    assert forall k :: k in rows ==> k in Elements(rows);
    forall id | id in videos ensures Key(videos[id].likes, 0, id) in rows {
      assert Key(videos[id].likes, 0, id) in Elements(rows);
    }
    forall i, j | 0 <= i < j < |rows|
      ensures rows[i].major > rows[j].major || (rows[i].major == rows[j].major && rows[i].id > rows[j].id)
    {
      assert rows[i] in rows && rows[j] in rows && Ahead(rows[i], rows[j]);
    }
  }

  /** The popularity list page by page; no cursor is the incomplete one. */
  function PopularityRest(videos: Videos, cursor: Option<Key>): set<Key> {
    if cursor.None? then PopularitySelected(videos, 0, None, 0)
    else PopularitySelected(videos, cursor.value.major, Some(cursor.value.minor), cursor.value.id)
  }

  function PopularityAll(videos: Videos, cursor: Option<Key>, limit: nat): seq<Key>
    requires limit > 0 && 0 !in videos
    decreases |PopularityRest(videos, cursor)|
  {
    var page := Top(PopularityRest(videos, cursor), limit);
    if |page| < limit then page
    else
      PopularityShrinks(videos, cursor, limit);
      page + PopularityAll(videos, Some(page[limit - 1]), limit)
  }

  lemma PopularityShrinks(videos: Videos, cursor: Option<Key>, limit: nat)
    requires limit > 0 && 0 !in videos && |Top(PopularityRest(videos, cursor), limit)| == limit
    ensures var last := Top(PopularityRest(videos, cursor), limit)[limit - 1];
            && PopularityRest(videos, Some(last)) == Before(PopularityRest(videos, cursor), Some(last))
            && |PopularityRest(videos, Some(last))| == |PopularityRest(videos, cursor)| - limit
  {
    var rest := PopularityRest(videos, cursor);
    var last := Top(rest, limit)[limit - 1];
    PageIsInPool(rest, limit);
    PopularityCursorIsSuccessor(videos, last.major, last.minor, last.id);
    if cursor.Some? && cursor.value.id > 0 {
      PopularityCursorIsSuccessor(videos, cursor.value.major, cursor.value.minor, cursor.value.id);
      BeforeBefore(PopularityPool(videos), cursor, last);
    }
    BeforeShrinks(rest, limit);
  }

  lemma PopularityFullPage(videos: Videos, cursor: Option<Key>, limit: nat, last: Key)
    requires limit > 0 && 0 !in videos && |Top(PopularityRest(videos, cursor), limit)| == limit
    requires last == Top(PopularityRest(videos, cursor), limit)[limit - 1]
    ensures |PopularityRest(videos, Some(last))| < |PopularityRest(videos, cursor)|
    ensures PopularityAll(videos, cursor, limit)
         == Top(PopularityRest(videos, cursor), limit) + PopularityAll(videos, Some(last), limit)
    ensures Sorted(PopularityRest(videos, cursor))
         == Top(PopularityRest(videos, cursor), limit) + Sorted(PopularityRest(videos, Some(last)))
  {
    PopularityShrinks(videos, cursor, limit);
    SortedAfterPage(PopularityRest(videos, cursor), limit);
  }

  /** Primary keys start at 1, so a cursor of a row is a complete one; following it visits every
      selected row once, in order. */
  lemma {:induction false} PopularityPagesAreComplete(videos: Videos, cursor: Option<Key>, limit: nat)
    requires limit > 0 && 0 !in videos
    ensures PopularityAll(videos, cursor, limit) == Sorted(PopularityRest(videos, cursor))
    decreases |PopularityRest(videos, cursor)|
  {
    var rest := PopularityRest(videos, cursor);
    var page := Top(rest, limit);
    if |page| == limit {
      var last := page[limit - 1];
      PopularityFullPage(videos, cursor, limit, last);
      PopularityPagesAreComplete(videos, Some(last), limit);
    } else {
      TopCount(rest, limit);
      ShortPageIsAll(rest, limit);
    }
  }

  /** The whole list by popularity, said of the table alone. */
  lemma PopularityListIsTable(videos: Videos, limit: nat)
    requires limit > 0 && 0 !in videos
    ensures forall k :: k in PopularityAll(videos, None, limit) ==>
              k.id in videos && k.major == videos[k.id].popularity && k.minor == videos[k.id].time
    ensures forall id :: id in videos ==> Key(videos[id].popularity, videos[id].time, id) in PopularityAll(videos, None, limit)
    ensures var rows := PopularityAll(videos, None, limit);
            forall i, j :: 0 <= i < j < |rows| ==>
              || rows[i].major > rows[j].major
              || (rows[i].major == rows[j].major
                  && (rows[i].minor > rows[j].minor || (rows[i].minor == rows[j].minor && rows[i].id > rows[j].id)))
  {
    PopularityPagesAreComplete(videos, None, limit);
    var rows, pool := PopularityAll(videos, None, limit), PopularityRest(videos, None);
    AllShown(pool, rows);
    assert forall k :: k in rows ==> k in Elements(rows);
    forall id | id in videos ensures Key(videos[id].popularity, videos[id].time, id) in rows {
      assert Key(videos[id].popularity, videos[id].time, id) in Elements(rows);
    }
    forall i, j | 0 <= i < j < |rows| ensures Ahead(rows[i], rows[j]) {
    }
  }
}
