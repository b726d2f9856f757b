/** The tables the feeds read, and the SQL queries over them as functions. */
module FeedDatabase {
  import opened Ranking

  /** The columns of a video that some list is ordered or filtered by. */
  datatype Row = Row(author: nat, time: int, likes: int, popularity: int)

  /** The videos table by primary key; the follows table as (follower, author) pairs. */
  type Videos = map<nat, Row>
  type Follows = set<(nat, nat)>

  /** ORDER BY create_time DESC, id DESC. */
  function FeedKey(id: nat, row: Row): Key {
    Key(row.time, 0, id)
  }

  /** WHERE author_id IN (authors). */
  function ByAuthors(videos: Videos, authors: set<nat>): set<Key> {
    set id | id in videos && videos[id].author in authors :: FeedKey(id, videos[id])
  }

  /** The SQL read of one page, the specification of every cached source. */
  function Query(videos: Videos, authors: set<nat>, cursor: Option<Key>, limit: nat): seq<Key> {
    Top(Before(ByAuthors(videos, authors), cursor), limit)
  }

  function Followed(follows: Follows, user: nat): set<nat> {
    set f | f in follows && f.0 == user :: f.1
  }

  function Followers(follows: Follows, author: nat): set<nat> {
    set f | f in follows && f.1 == author :: f.0
  }

  /** The one-query following feed, a join of the two tables. */
  function FromDB(videos: Videos, follows: Follows, user: nat, cursor: Option<Key>, limit: nat): seq<Key> {
    Query(videos, Followed(follows, user), cursor, limit)
  }

  lemma ByAuthorsKey(videos: Videos, authors: set<nat>, k: Key)
    ensures k in ByAuthors(videos, authors)
       <==> k.id in videos && videos[k.id].author in authors && k == FeedKey(k.id, videos[k.id])
  {
  }

  ghost predicate IsLeast(ids: set<nat>, m: nat) {
    m in ids && forall id :: id in ids ==> m <= id
  }

  lemma HasLeast(ids: set<nat>)
    requires ids != {}
    ensures exists m :: IsLeast(ids, m)
    decreases |ids|
  {
    var m :| m in ids;
    var rest := ids - {m};
    assert ids == {m} + rest;
    if rest == {} {
      assert IsLeast(ids, m);
    } else {
      HasLeast(rest);
      var r :| IsLeast(rest, r);
      assert IsLeast(ids, if r < m then r else m);
    }
  }

  function Least(ids: set<nat>): (m: nat)
    requires ids != {}
    ensures IsLeast(ids, m)
  {
    HasLeast(ids);
    assert exists m :: m in ids && forall id :: id in ids ==> m <= id by {
      var m :| IsLeast(ids, m);
    }
    var m :| m in ids && forall id :: id in ids ==> m <= id;
    m
  }

  ghost predicate IsSmallest(ids: set<nat>, limit: nat, page: seq<nat>) {
    && |page| <= limit
    && Increasing(page)
    && (forall id :: id in page ==> id in ids)
    && (forall id :: id in ids && id !in page ==> |page| == limit && AllBelow(page, id))
    && (|ids| <= limit ==> forall id :: id in ids ==> id in page)
  }

  ghost predicate AllBelow(page: seq<nat>, id: nat) {
    forall p :: p in page ==> p < id
  }

  lemma AddLeast(ids: set<nat>, m: nat, limit: nat, rest: seq<nat>)
    requires IsLeast(ids, m) && limit > 0 && IsSmallest(ids - {m}, limit - 1, rest)
    ensures IsSmallest(ids, limit, [m] + rest)
  {
    var page := [m] + rest;
    forall i, j | 0 <= i < j < |page| ensures page[i] < page[j] {
      assert page[j] == rest[j - 1] && rest[j - 1] in rest;
    }
    forall id | id in ids && id !in page ensures |page| == limit && AllBelow(page, id) {
      assert id != page[0] && id !in rest;
      assert AllBelow(rest, id);
    }
    assert forall id :: id in ids && id != m ==> id in ids - {m};
    assert page[0] == m;
  }

  /** ORDER BY on a primary key, ascending, cut by LIMIT. */
  function Smallest(ids: set<nat>, limit: nat): (page: seq<nat>)
    ensures IsSmallest(ids, limit, page)
    decreases limit
  {
    if ids == {} || limit == 0 then []
    else
      var m := Least(ids);
      var rest := Smallest(ids - {m}, limit - 1);
      AddLeast(ids, m, limit, rest);
      [m] + rest
  }

  predicate Increasing(page: seq<nat>) {
    forall i, j :: 0 <= i < j < |page| ==> page[i] < page[j]
  }

  /** A whole column, ascending. */
  function Column(ids: set<nat>): (page: seq<nat>)
    ensures Increasing(page)
    ensures forall id :: id in page <==> id in ids
  {
    Smallest(ids, |ids|)
  }
}
