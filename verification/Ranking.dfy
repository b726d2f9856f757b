/** The order every list in the system is cut by, and the algebra of "the first n of a pool".

    A row is ranked by a key of up to two sort columns followed by its primary key, largest
    first: (create_time, -, id) in the following feed, (likes_count, -, id) and
    (popularity, create_time, id) in the two ranked lists.  An SQL query with ORDER BY and LIMIT,
    a trimmed Redis sorted set and one page of a feed are all `Top` of some pool.
 */
module Ranking {

  datatype Option<+T> = None | Some(value: T)

  datatype Key = Key(major: int, minor: int, id: nat)

  /** a is listed strictly before b. */
  predicate Ahead(a: Key, b: Key) {
    a.major > b.major
    || (a.major == b.major && (a.minor > b.minor || (a.minor == b.minor && a.id > b.id)))
  }

  predicate Descending(s: seq<Key>) {
    forall i, j :: 0 <= i < j < |s| ==> Ahead(s[i], s[j])
  }

  function Elements(s: seq<Key>): set<Key> {
    set k | k in s
  }

  /** page is the first `limit` keys of the pool: ordered, within the pool, and a key is
      missing only when the page is full of keys listed before it. */
  ghost predicate IsTop(pool: set<Key>, limit: nat, page: seq<Key>) {
    && Descending(page)
    && |page| <= limit
    && (forall k :: k in page ==> k in pool)
    && (forall k :: k in pool && k !in page ==> |page| == limit && AllAhead(page, k))
  }

  ghost predicate AllAhead(page: seq<Key>, k: Key) {
    forall q :: q in page ==> Ahead(q, k)
  }

  ghost predicate Leads(pool: set<Key>, m: Key) {
    m in pool && forall k :: k in pool && k != m ==> Ahead(m, k)
  }

  lemma HasLeader(pool: set<Key>)
    requires pool != {}
    ensures exists m :: Leads(pool, m)
    decreases |pool|
  {
    var m :| m in pool;
    var rest := pool - {m};
    assert pool == {m} + rest;
    if rest == {} {
      assert Leads(pool, m);
    } else {
      HasLeader(rest);
      var r :| Leads(rest, r);
      assert Leads(pool, if Ahead(r, m) then r else m);
    }
  }

  lemma AddLeader(pool: set<Key>, m: Key, limit: nat, rest: seq<Key>)
    requires Leads(pool, m) && limit > 0 && IsTop(pool - {m}, limit - 1, rest)
    ensures IsTop(pool, limit, [m] + rest)
  {
    var page := [m] + rest;
    forall i, j | 0 <= i < j < |page| ensures Ahead(page[i], page[j]) {
      assert page[j] == rest[j - 1] && rest[j - 1] in rest;
    }
    forall k | k in pool && k !in page ensures |page| == limit && AllAhead(page, k) {
      assert k != page[0] && k !in rest;
      assert AllAhead(rest, k);
    }
  }

  function Leader(pool: set<Key>): (m: Key)
    requires pool != {}
    ensures Leads(pool, m)
  {
    HasLeader(pool);
    assert exists m :: m in pool && forall k :: k in pool && k != m ==> Ahead(m, k) by {
      var m :| Leads(pool, m);
    }
    var m :| m in pool && forall k :: k in pool && k != m ==> Ahead(m, k);
    m
  }

  /** ORDER BY ... LIMIT: the one list of the first `limit` keys (see TopUnique). */
  function Top(pool: set<Key>, limit: nat): (page: seq<Key>)
    ensures IsTop(pool, limit, page)
    decreases limit
  {
    if pool == {} || limit == 0 then []
    else
      var m := Leader(pool);
      var rest := Top(pool - {m}, limit - 1);
      AddLeader(pool, m, limit, rest);
      [m] + rest
  }

  lemma {:induction false} TopUnique(pool: set<Key>, limit: nat, a: seq<Key>, b: seq<Key>)
    requires IsTop(pool, limit, a) && IsTop(pool, limit, b)
    ensures a == b
    decreases limit
  {
    assert a != [] ==> a[0] in pool && a[0] in a;
    assert b != [] ==> b[0] in pool && b[0] in b;
    if a != [] && b != [] {
      LeadsPool(pool, limit, a);
      LeadsPool(pool, limit, b);
      assert a[0] == b[0] by {
        assert a[0] in a && b[0] in b;
      }
      DropFirst(pool, limit, a);
      DropFirst(pool, limit, b);
      TopUnique(pool - {a[0]}, limit - 1, a[1..], b[1..]);
      assert a == [a[0]] + a[1..] && b == [b[0]] + b[1..];
    }
  }

  lemma LeadsPool(pool: set<Key>, limit: nat, a: seq<Key>)
    requires IsTop(pool, limit, a) && a != []
    ensures forall k :: k in pool && k != a[0] ==> Ahead(a[0], k)
  {
    assert a[0] in a;
  }

  lemma DropFirst(pool: set<Key>, limit: nat, a: seq<Key>)
    requires IsTop(pool, limit, a) && a != []
    ensures IsTop(pool - {a[0]}, limit - 1, a[1..])
  {
    assert a == [a[0]] + a[1..];
    forall k | k in a[1..] ensures k in pool - {a[0]} {
      var i :| 0 <= i < |a[1..]| && a[1..][i] == k;
      assert a[i + 1] == k && Ahead(a[0], a[i + 1]);
    }
    forall k | k in pool - {a[0]} && k !in a[1..]
      ensures |a[1..]| == limit - 1 && AllAhead(a[1..], k)
    {
      assert k !in a;
    }
  }

  lemma ElementsCount(s: seq<Key>)
    requires Descending(s)
    ensures |Elements(s)| == |s|
  {
    if s != [] {
      var front, last := s[..|s| - 1], s[|s| - 1];
      ElementsCount(front);
      assert s == front + [last];
      assert Elements(s) == Elements(front) + {last};
      assert last !in front by {
        forall i | 0 <= i < |front| ensures front[i] != last {
          assert Ahead(s[i], s[|s| - 1]);
        }
      }
    }
  }

  lemma SubsetCount(a: set<Key>, b: set<Key>)
    requires a <= b
    ensures |a| <= |b|
    ensures |a| == |b| ==> a == b
  {
    assert b == a + (b - a);
  }

  /** A page holds min(limit, |pool|) keys. */
  lemma TopCount(pool: set<Key>, limit: nat)
    ensures |Top(pool, limit)| == if |pool| < limit then |pool| else limit
    ensures |pool| <= limit ==> Elements(Top(pool, limit)) == pool
  {
    var page := Top(pool, limit);
    ElementsCount(page);
    assert Elements(page) <= pool;
    SubsetCount(Elements(page), pool);
    if |page| < limit {
      assert Elements(page) == pool;
    }
  }

  /** n distinct keys of `sub` are listed before k. */
  ghost predicate Outranks(w: set<Key>, sub: set<Key>, n: nat, k: Key) {
    w <= sub && |w| >= n && forall q :: q in w ==> Ahead(q, k)
  }

  lemma OutrankedByPage(sub: set<Key>, n: nat, k: Key, w: set<Key>)
    requires Outranks(w, sub, n, k) && k !in sub
    ensures |Top(sub, n)| == n && AllAhead(Top(sub, n), k)
  {
    var page := Top(sub, n);
    ElementsCount(page);
    SubsetCount(w, sub);
    TopCount(sub, n);
    if w <= Elements(page) {
      SubsetCount(w, Elements(page));
    } else {
      var p :| p in w && p !in page;
      assert AllAhead(page, p);
    }
  }

  /** Discarding keys that n kept keys precede does not change the first n. */
  lemma TopAbsorbs(pool: set<Key>, sub: set<Key>, n: nat)
    requires sub <= pool
    requires forall k :: k in pool - sub ==> exists w :: Outranks(w, sub, n, k)
    ensures Top(pool, n) == Top(sub, n)
  {
    var page := Top(sub, n);
    ElementsCount(page);
    forall k | k in pool && k !in page
      ensures |page| == n && AllAhead(page, k)
    {
      if k !in sub {
        assert k in pool - sub;
        var w :| Outranks(w, sub, n, k);
        OutrankedByPage(sub, n, k, w);
      }
    }
    TopUnique(pool, n, Top(pool, n), page);
  }

  /** The keys a sorted set trimmed to `capacity` members keeps. */
  function Newest(pool: set<Key>, capacity: nat): (kept: set<Key>)
    ensures kept <= pool
  {
    Elements(Top(pool, capacity))
  }

  lemma NewestCount(pool: set<Key>, capacity: nat)
    ensures |Newest(pool, capacity)| == if |pool| < capacity then |pool| else capacity
    ensures |pool| <= capacity ==> Newest(pool, capacity) == pool
  {
    TopCount(pool, capacity);
    ElementsCount(Top(pool, capacity));
  }

  /** A key is trimmed away only when `capacity` kept keys are listed before it. */
  lemma TrimmedIsOutranked(pool: set<Key>, capacity: nat, k: Key)
    requires k in pool && k !in Newest(pool, capacity)
    ensures Outranks(Newest(pool, capacity), pool, capacity, k)
  {
    NewestCount(pool, capacity);
    assert AllAhead(Top(pool, capacity), k);
    if |pool| < capacity {
      assert false;
    }
  }

  /** Trimming early is harmless: the union of a trimmed set with more keys keeps the same. */
  lemma TrimThenUnion(a: set<Key>, b: set<Key>, capacity: nat)
    ensures Newest(Newest(a, capacity) + b, capacity) == Newest(a + b, capacity)
  {
    var sub := Newest(a, capacity) + b;
    forall k | k in (a + b) - sub ensures exists w :: Outranks(w, sub, capacity, k) {
      TrimmedIsOutranked(a, capacity, k);
      assert Outranks(Newest(a, capacity), sub, capacity, k);
    }
    TopAbsorbs(a + b, sub, capacity);
  }

  /** Keys strictly after a cursor; no cursor selects the whole pool. */
  function Before(pool: set<Key>, cursor: Option<Key>): set<Key> {
    set k | k in pool && (cursor.None? || Ahead(cursor.value, k))
  }

  /** Taking n and then m after the last key taken is the same as taking n + m at once. */
  lemma TopResumes(pool: set<Key>, n: nat, m: nat, total: nat)
    requires |Top(pool, n)| == n > 0 && total == n + m
    ensures Top(pool, total) == Top(pool, n) + Top(Before(pool, Some(Top(pool, n)[n - 1])), m)
  {
    var head := Top(pool, n);
    var last := head[n - 1];
    var rest := Before(pool, Some(last));
    var tail := Top(rest, m);
    var page := head + tail;
    assert last in head;
    assert Descending(page) by {
      forall i, j | 0 <= i < j < |page| ensures Ahead(page[i], page[j]) {
        if i < n <= j {
          assert page[j] == tail[j - n] && tail[j - n] in tail;
          assert i == n - 1 || Ahead(head[i], head[n - 1]);
        }
      }
    }
    forall k | k in pool && k !in page
      ensures |page| == total && AllAhead(page, k)
    {
      assert k !in head && Ahead(last, k);
      assert k in rest && k !in tail;
    }
    TopUnique(pool, total, Top(pool, total), page);
  }

  /** What is left after a full page is smaller by exactly that page. */
  lemma BeforeShrinks(pool: set<Key>, n: nat)
    requires |Top(pool, n)| == n > 0
    ensures |Before(pool, Some(Top(pool, n)[n - 1]))| == |pool| - n
  {
    var head := Top(pool, n);
    var last := head[n - 1];
    var rest := Before(pool, Some(last));
    ElementsCount(head);
    assert last in head;
    forall k | k in head ensures k !in rest {
      var i :| 0 <= i < n && head[i] == k;
      assert i == n - 1 || Ahead(head[i], head[n - 1]);
    }
    forall k | k in pool && k !in head ensures k in rest {
      assert AllAhead(head, k);
    }
    assert Elements(head) + rest == pool && Elements(head) !! rest;
  }
}
