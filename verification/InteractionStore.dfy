/** The database side of likes and comments: one transaction per delivery of an event.

    The transaction writes the consumed record, changes the relation and the counters, and
    enqueues a heat event.  Deliveries may repeat, arrive in any order and fail at any statement.
    Records of consumed events are kept forever, and the hash of their key is injective, so the
    key itself is stored here.
 */
module InteractionStore {
  import opened Ranking

  datatype Source = Likes | Comments

  datatype Event =
    | LikeEvent(id: string, action: string, user: nat, video: nat, at: nat)
    | CommentEvent(id: string, action: string, comment: nat, video: nat, author: nat,
                   username: string, content: string, at: nat)

  /** A derived heat event; the time 0 is the zero time. */
  datatype Heat = Heat(id: string, video: nat, change: int, at: nat)

  datatype Counts = Counts(likes: int, popularity: int)
  datatype Comment = Comment(video: nat, author: nat, username: string, content: string, at: nat)

  datatype Tables = Tables(
    videos: map<nat, Counts>,
    likes: map<(nat, nat), nat>,
    comments: map<nat, Comment>,
    consumed: set<string>,
    outbox: seq<Heat>)

  datatype Statement = InsertConsumed | LockVideo | ChangeRelation | UpdateCounters | InsertOutbox | Commit

  datatype Outcome = Invalid | Duplicate | Committed | RolledBack

  /** Committed and duplicate deliveries are acknowledged, the others are errors. */
  predicate Succeeds(outcome: Outcome) {
    outcome.Committed? || outcome.Duplicate?
  }

  // ---------------------------------------------------------------- keys

  function Name(source: Source): string {
    if source.Likes? then "like" else "comment"
  }

  /** Both the key of a consumed record and the ID of the derived heat event. */
  function Qualified(source: Source, id: string): string {
    Name(source) + ":" + id
  }

  function SourceOf(e: Event): Source {
    if e.LikeEvent? then Likes else Comments
  }

  function EventKey(e: Event): string {
    Qualified(SourceOf(e), e.id)
  }

  /** No like event shares its key with a comment event, whatever their IDs. */
  lemma QualifiedIsInjective(a: Source, x: string, b: Source, y: string)
    ensures Qualified(a, x) == Qualified(b, y) <==> a == b && x == y
  {
    var p, q := Qualified(a, x), Qualified(b, y);
    assert p[0] == Name(a)[0] && q[0] == Name(b)[0];
    assert p[|Name(a)| + 1..] == x && q[|Name(b)| + 1..] == y;
  }

  /** A like without a user or a video, which its worker drops. */
  predicate Ignored(e: Event) {
    e.LikeEvent? && (e.user == 0 || e.video == 0)
  }

  /** A delivery of the event may be acknowledged: it is recorded as consumed, or dropped. */
  predicate Settled(t: Tables, e: Event) {
    Ignored(e) || EventKey(e) in t.consumed
  }

  // ---------------------------------------------------------------- text

  predicate IsSpace(c: char) {
    || c in {'\t', '\n', '\U{b}', '\U{c}', '\r', ' ', '\U{85}', '\U{a0}', '\U{1680}'}
    || '\U{2000}' <= c <= '\U{200a}'
    || c in {'\U{2028}', '\U{2029}', '\U{202f}', '\U{205f}', '\U{3000}'}
  }

  /** By code point: the characters with Unicode's White_Space property. */
  lemma SpacesAre(c: char)
    ensures var n := c as int;
            IsSpace(c) <==> 9 <= n <= 13 || n == 32 || n == 133 || n == 160 || n == 5760 || 8192 <= n <= 8202
                            || n == 8232 || n == 8233 || n == 8239 || n == 8287 || n == 12288
  {
  }

  function TrimLeft(s: string): string
    decreases |s|
  {
    if s != [] && IsSpace(s[0]) then TrimLeft(s[1..]) else s
  }

  function TrimRight(s: string): string
    decreases |s|
  {
    if s != [] && IsSpace(s[|s| - 1]) then TrimRight(s[..|s| - 1]) else s
  }

  function TrimSpace(s: string): string {
    TrimRight(TrimLeft(s))
  }

  predicate Blank(s: string) {
    forall k :: 0 <= k < |s| ==> IsSpace(s[k])
  }

  lemma {:induction false} TrimLeftIsExact(s: string) returns (front: string)
    ensures s == front + TrimLeft(s) && Blank(front)
    ensures TrimLeft(s) != [] ==> !IsSpace(TrimLeft(s)[0])
    decreases |s|
  {
    front := "";
    if s != [] && IsSpace(s[0]) {
      front := TrimLeftIsExact(s[1..]);
      front := [s[0]] + front;
    }
  }

  lemma {:induction false} TrimRightIsExact(s: string) returns (back: string)
    ensures s == TrimRight(s) + back && Blank(back)
    ensures TrimRight(s) != [] ==> !IsSpace(TrimRight(s)[|TrimRight(s)| - 1]) && TrimRight(s)[0] == s[0]
    decreases |s|
  {
    back := "";
    if s != [] && IsSpace(s[|s| - 1]) {
      back := TrimRightIsExact(s[..|s| - 1]);
      back := back + [s[|s| - 1]];
    }
  }

  /** Only space is cut off, all of it at both ends; so blank text, and no other, trims to nothing. */
  lemma TrimIsExact(s: string) returns (front: string, back: string)
    ensures s == front + TrimSpace(s) + back && Blank(front) && Blank(back)
    ensures TrimSpace(s) != [] ==> !IsSpace(TrimSpace(s)[0]) && !IsSpace(TrimSpace(s)[|TrimSpace(s)| - 1])
    ensures TrimSpace(s) == [] <==> Blank(s)
  {
    front := TrimLeftIsExact(s);
    back := TrimRightIsExact(TrimLeft(s));
    if TrimSpace(s) != [] {
      assert s[|front|] == TrimSpace(s)[0];
    }
  }

  // ---------------------------------------------------------------- what an event does

  /** Events refused before any transaction starts. */
  predicate Refused(e: Event) {
    match e
    case LikeEvent(id, action, user, video, _) =>
      video == 0 || user == 0 || (action != "like" && action != "unlike") || id == ""
    case CommentEvent(id, action, _, _, _, _, _, _) =>
      (action != "publish" && action != "delete") || id == ""
  }

  function Greatest(a: int, b: int): int {
    if a < b then b else a
  }

  /** Both counters, never below zero. */
  function Adjusted(c: Counts, change: int): Counts {
    Counts(Greatest(c.likes + change, 0), Greatest(c.popularity + change, 0))
  }

  function HeatOf(e: Event, change: int): Heat {
    Heat(EventKey(e), e.video, change, e.at)
  }

  /** Whether the relation the event asks for differs from the one stored. */
  predicate Flips(t: Tables, e: Event)
    requires e.LikeEvent?
  {
    (e.action == "like") == ((e.video, e.user) !in t.likes)
  }

  /** The effect of one event, once; None is an error that aborts the transaction. */
  function Effect(t: Tables, e: Event, row: nat): Option<Tables> {
    match e
    case LikeEvent(_, action, user, video, at) =>
      if video !in t.videos || !Flips(t, e) then Some(t)
      else if at == 0 then None
      else
        var change := if action == "like" then 1 else -1;
        var rows := if action == "like" then t.likes[(video, user) := at] else t.likes - {(video, user)};
        Some(t.(likes := rows,
                videos := t.videos[video := Adjusted(t.videos[video], change)],
                outbox := t.outbox + [HeatOf(e, change)]))
    case CommentEvent(_, action, comment, video, author, username, content, at) =>
      if action == "delete" then
        if comment == 0 then None else Some(t.(comments := t.comments - {comment}))
      else if video == 0 || author == 0 || TrimSpace(content) == "" then None
      else if video !in t.videos then Some(t)
      else if row in t.comments || at == 0 then None
      else
        var c := t.videos[video];
        Some(t.(comments := t.comments[row := Comment(video, author, TrimSpace(username), TrimSpace(content), at)],
                videos := t.videos[video := Counts(c.likes, c.popularity + 1)],
                outbox := t.outbox + [HeatOf(e, 1)]))
  }

  /** One delivery: the event, the comment row ID the database would hand out, and whether some
      statement or the commit fails. */
  datatype Delivery = Delivery(event: Event, row: nat, struck: bool)

  datatype Attempted = Attempted(tables: Tables, outcome: Outcome)

  function Attempt(t: Tables, d: Delivery): Attempted {
    var key := EventKey(d.event);
    if Refused(d.event) then Attempted(t, Invalid)
    else if d.struck then Attempted(t, RolledBack)
    else if key in t.consumed then Attempted(t, Duplicate)
    else
      match Effect(t.(consumed := t.consumed + {key}), d.event, d.row)
      case None => Attempted(t, RolledBack)
      case Some(after) => Attempted(after, Committed)
  }

  /** The tables, changed statement by statement. */
  class Database {
    var videos: map<nat, Counts>
    var likes: map<(nat, nat), nat>
    var comments: map<nat, Comment>
    var consumed: set<string>
    var outbox: seq<Heat>

    ghost function View(): Tables
      reads this
    {
      Tables(videos, likes, comments, consumed, outbox)
    }

    constructor (videos: map<nat, Counts>)
      ensures View() == Tables(videos, map[], map[], {}, [])
    {
      this.videos, likes, comments, consumed, outbox := videos, map[], map[], {}, [];
    }

    method ApplyLikeEvent(e: Event, fails: Option<Statement>) returns (outcome: Outcome, ghost struck: bool)
      requires e.LikeEvent?
      modifies this
      ensures Attempted(View(), outcome) == Attempt(old(View()), Delivery(e, 0, struck))
      ensures struck ==> fails.Some?
    {
      struck := false;
      if e.video == 0 || e.user == 0 || (e.action != "like" && e.action != "unlike") {
        return Invalid, false;
      }
      outcome, struck := ConsumeEvent(e, 0, fails);
    }

    method ApplyCommentEvent(e: Event, row: nat, fails: Option<Statement>) returns (outcome: Outcome, ghost struck: bool)
      requires e.CommentEvent?
      modifies this
      ensures Attempted(View(), outcome) == Attempt(old(View()), Delivery(e, row, struck))
      ensures struck ==> fails.Some?
    {
      if e.action != "publish" && e.action != "delete" {
        return Invalid, false;
      }
      outcome, struck := ConsumeEvent(e, row, fails);
    }

    /** The transaction around an event: the consumed record first, then its effect, and on any
        error nothing of either. */
    method ConsumeEvent(e: Event, row: nat, fails: Option<Statement>) returns (outcome: Outcome, ghost struck: bool)
      requires e.id != "" ==> !Refused(e)
      modifies this
      ensures Attempted(View(), outcome) == Attempt(old(View()), Delivery(e, row, struck))
      ensures struck ==> fails.Some?
    {
      struck := false;
      if e.id == "" {
        return Invalid, false;
      }
      var key := Name(SourceOf(e)) + ":" + e.id;
      if fails == Some(InsertConsumed) {
        return RolledBack, true;
      }
      if key in consumed {
        return (if fails == Some(Commit) then RolledBack else Duplicate), fails == Some(Commit);
      }
      var savedVideos, savedLikes, savedComments, savedConsumed, savedOutbox :=
        videos, likes, comments, consumed, outbox;
      consumed := consumed + {key};
      var ok: bool;
      if e.LikeEvent? {
        ok, struck := ChangeLike(e, fails);
      } else {
        ok, struck := ChangeComment(e, row, fails);
      }
      if ok && fails == Some(Commit) {
        ok, struck := false, true;
      }
      if ok {
        return Committed, false;
      }
      videos, likes, comments, consumed, outbox :=
        savedVideos, savedLikes, savedComments, savedConsumed, savedOutbox;
      outcome := RolledBack;
    }

    method ChangeLike(e: Event, fails: Option<Statement>) returns (ok: bool, ghost struck: bool)
      requires e.LikeEvent? && !Refused(e)
      modifies this`videos, this`likes, this`outbox
      ensures struck ==> fails.Some? && !ok
      ensures !struck ==> ok == Effect(old(View()), e, 0).Some?
      ensures ok ==> View() == Effect(old(View()), e, 0).value
    {
      if fails == Some(LockVideo) {
        return false, true;
      }
      if e.video !in videos {
        return true, false;
      }
      var err, changed := false, false;
      var change := 1;
      if e.action == "like" {
        changed, err := LikeIgnoreDuplicate(e.video, e.user, e.at, fails);
      } else {
        change := -1;
        changed, err := DeleteByVideoAndAccount(e.video, e.user, fails);
      }
      if err || !changed {
        return !err, err;
      }
      if fails == Some(UpdateCounters) {
        return false, true;
      }
      videos := videos[e.video := Counts(Greatest(videos[e.video].likes + change, 0),
                                         Greatest(videos[e.video].popularity + change, 0))];
      ok, struck := EnqueuePopularity("like", e, change, fails);
    }

    method ChangeComment(e: Event, row: nat, fails: Option<Statement>) returns (ok: bool, ghost struck: bool)
      requires e.CommentEvent? && !Refused(e)
      modifies this`videos, this`comments, this`outbox
      ensures struck ==> fails.Some? && !ok
      ensures !struck ==> ok == Effect(old(View()), e, row).Some?
      ensures ok ==> View() == Effect(old(View()), e, row).value
    {
      if e.action == "delete" {
        if e.comment == 0 {
          return false, false;
        }
        if fails == Some(ChangeRelation) {
          return false, true;
        }
        comments := comments - {e.comment};
        return true, false;
      }
      if e.video == 0 || e.author == 0 || TrimSpace(e.content) == "" {
        return false, false;
      }
      if fails == Some(LockVideo) {
        return false, true;
      }
      if e.video !in videos {
        return true, false;
      }
      if fails == Some(ChangeRelation) {
        return false, true;
      }
      if row in comments {
        return false, false;
      }
      comments := comments[row := Comment(e.video, e.author, TrimSpace(e.username), TrimSpace(e.content), e.at)];
      if fails == Some(UpdateCounters) {
        return false, true;
      }
      var c := videos[e.video];
      videos := videos[e.video := c.(popularity := c.popularity + 1)];
      ok, struck := EnqueuePopularity("comment", e, 1, fails);
    }

    /** Inserts the like row; an existing row is not an error. */
    method LikeIgnoreDuplicate(video: nat, user: nat, at: nat, fails: Option<Statement>)
      returns (created: bool, err: bool)
      modifies this`likes
      ensures err ==> fails == Some(ChangeRelation) && !created
      ensures !err ==> created == (video != 0 && user != 0 && (video, user) !in old(likes))
      ensures likes == if created then old(likes)[(video, user) := at] else old(likes)
    {
      if video == 0 || user == 0 {
        return false, false;
      }
      if fails == Some(ChangeRelation) {
        return false, true;
      }
      if (video, user) in likes {
        return false, false;
      }
      likes := likes[(video, user) := at];
      return true, false;
    }

    method DeleteByVideoAndAccount(video: nat, user: nat, fails: Option<Statement>)
      returns (deleted: bool, err: bool)
      modifies this`likes
      ensures err ==> fails == Some(ChangeRelation) && !deleted
      ensures !err ==> deleted == (video != 0 && user != 0 && (video, user) in old(likes))
      ensures likes == if deleted then old(likes) - {(video, user)} else old(likes)
    {
      if video == 0 || user == 0 {
        return false, false;
      }
      if fails == Some(ChangeRelation) {
        return false, true;
      }
      deleted := (video, user) in likes;
      likes := likes - {(video, user)};
      return deleted, false;
    }

    method EnqueuePopularity(source: string, e: Event, change: int, fails: Option<Statement>)
      returns (ok: bool, ghost struck: bool)
      requires source == Name(SourceOf(e))
      modifies this`outbox
      ensures struck ==> fails == Some(InsertOutbox) && !ok
      ensures !struck ==> ok == (e.at != 0)
      ensures outbox == if ok then old(outbox) + [HeatOf(e, change)] else old(outbox)
    {
      if e.at == 0 {
        return false, false;
      }
      if fails == Some(InsertOutbox) {
        return false, true;
      }
      outbox := outbox + [Heat(source + ":" + e.id, e.video, change, e.at)];
      return true, false;
    }
  }

  // ---------------------------------------------------------------- exactly once

  function Run(t: Tables, trace: seq<Delivery>): Tables
    decreases |trace|
  {
    if trace == [] then t else Run(Attempt(t, trace[0]).tables, trace[1..])
  }

  /** The deliveries that commit: of each event, the first one no fault strikes. */
  function Kept(t: Tables, trace: seq<Delivery>): seq<Delivery>
    decreases |trace|
  {
    if trace == [] then []
    else
      var step := Attempt(t, trace[0]);
      (if step.outcome.Committed? then [trace[0]] else []) + Kept(step.tables, trace[1..])
  }

  /** The effects alone, with no inbox to consult. */
  function Raw(t: Tables, kept: seq<Delivery>): Tables
    decreases |kept|
  {
    if kept == [] then t
    else
      var d := kept[0];
      match Effect(t.(consumed := t.consumed + {EventKey(d.event)}), d.event, d.row)
      case None => Raw(t, kept[1..])
      case Some(after) => Raw(after, kept[1..])
  }

  ghost predicate DistinctEvents(kept: seq<Delivery>) {
    forall i, j :: 0 <= i < j < |kept| ==> EventKey(kept[i].event) != EventKey(kept[j].event)
  }

  function EventKeys(kept: seq<Delivery>): set<string> {
    set d | d in kept :: EventKey(d.event)
  }

  lemma EffectKeepsInbox(t: Tables, e: Event, row: nat)
    ensures Effect(t, e, row).Some? ==>
              Effect(t, e, row).value.consumed == t.consumed && Effect(t, e, row).value.videos.Keys == t.videos.Keys
  {
  }

  lemma EventKeysOfCons(d: Delivery, rest: seq<Delivery>)
    ensures EventKeys([d] + rest) == {EventKey(d.event)} + EventKeys(rest)
  {
    assert forall k :: k in [d] + rest <==> k == d || k in rest;
  }

  lemma CommittedStep(t: Tables, d: Delivery)
    ensures var step := Attempt(t, d);
            step.tables.consumed == if step.outcome.Committed? then t.consumed + {EventKey(d.event)} else t.consumed
    ensures Attempt(t, d).outcome.Committed? ==> EventKey(d.event) !in t.consumed && !d.struck
    ensures !Attempt(t, d).outcome.Committed? ==> Attempt(t, d).tables == t
  {
    EffectKeepsInbox(t.(consumed := t.consumed + {EventKey(d.event)}), d.event, d.row);
  }

  lemma DistinctCons(d: Delivery, rest: seq<Delivery>)
    requires DistinctEvents(rest) && EventKey(d.event) !in EventKeys(rest)
    ensures DistinctEvents([d] + rest)
  {
    var kept := [d] + rest;
    forall i, j | 0 <= i < j < |kept| ensures EventKey(kept[i].event) != EventKey(kept[j].event) {
      assert kept[j] == rest[j - 1] && rest[j - 1] in rest;
      assert EventKey(rest[j - 1].event) in EventKeys(rest);
    }
  }

  lemma {:induction false} KeptIsDistinct(t: Tables, trace: seq<Delivery>)
    ensures DistinctEvents(Kept(t, trace)) && EventKeys(Kept(t, trace)) !! t.consumed
    ensures Run(t, trace).consumed == t.consumed + EventKeys(Kept(t, trace))
    ensures forall d :: d in Kept(t, trace) ==> d in trace && !d.struck
    decreases |trace|
  {
    if trace != [] {
      var d := trace[0];
      var step := Attempt(t, d);
      var rest := Kept(step.tables, trace[1..]);
      assert trace == [d] + trace[1..];
      CommittedStep(t, d);
      KeptIsDistinct(step.tables, trace[1..]);
      if step.outcome.Committed? {
        EventKeysOfCons(d, rest);
        DistinctCons(d, rest);
      } else {
        assert [] + rest == rest;
      }
    }
  }

  lemma {:induction false} RunIsRaw(t: Tables, trace: seq<Delivery>)
    ensures Run(t, trace) == Raw(t, Kept(t, trace))
    decreases |trace|
  {
    if trace != [] {
      var d := trace[0];
      var step := Attempt(t, d);
      var rest := Kept(step.tables, trace[1..]);
      RunIsRaw(step.tables, trace[1..]);
      CommittedStep(t, d);
      if step.outcome.Committed? {
        assert ([d] + rest)[1..] == rest;
      } else {
        assert [] + rest == rest;
      }
    }
  }

  /** Whatever is repeated, reordered or aborted, the outcome is that of applying, once each and
      without any inbox, the first committed delivery of every event. */
  lemma ExactlyOnce(t: Tables, trace: seq<Delivery>)
    ensures Run(t, trace) == Raw(t, Kept(t, trace)) == Run(t, Kept(t, trace))
    ensures DistinctEvents(Kept(t, trace)) && EventKeys(Kept(t, trace)) !! t.consumed
    ensures Run(t, trace).consumed == t.consumed + EventKeys(Kept(t, trace))
    ensures forall d :: d in Kept(t, trace) ==> d in trace && !d.struck
  {
    RunIsRaw(t, trace);
    KeptSuffices(t, trace);
    KeptIsDistinct(t, trace);
  }

  /** Delivering only the kept deliveries has the same result as the whole trace. */
  lemma {:induction false} KeptSuffices(t: Tables, trace: seq<Delivery>)
    ensures Run(t, Kept(t, trace)) == Run(t, trace)
    decreases |trace|
  {
    if trace != [] {
      var d := trace[0];
      var step := Attempt(t, d);
      var rest := Kept(step.tables, trace[1..]);
      KeptSuffices(step.tables, trace[1..]);
      if step.outcome.Committed? {
        assert ([d] + rest)[1..] == rest;
      } else {
        assert [] + rest == rest;
      }
    }
  }

  lemma {:induction false} RunAppend(t: Tables, trace: seq<Delivery>, more: seq<Delivery>)
    ensures Run(t, trace + more) == Run(Run(t, trace), more)
    decreases |trace|
  {
    if trace == [] {
      assert trace + more == more;
    } else {
      assert (trace + more)[1..] == trace[1..] + more;
      RunAppend(Attempt(t, trace[0]).tables, trace[1..], more);
    }
  }

  /** Once an event has committed, delivering it again changes nothing, however much later: a like
      replayed after its unlike, or a publish replayed after its delete, stays without effect. */
  lemma ReplayChangesNothing(t: Tables, trace: seq<Delivery>, later: seq<Delivery>, replay: Delivery)
    requires EventKey(replay.event) in Run(t, trace).consumed
    ensures Run(t, trace + later + [replay]) == Run(t, trace + later)
  {
    RunAppend(t, trace, later);
    RunAppend(t, trace + later, [replay]);
    ExactlyOnce(Run(t, trace), later);
    var now := Run(t, trace + later);
    assert Attempt(now, replay).tables == now;
    assert [replay][1..] == [];
  }

  // ---------------------------------------------------------------- counters

  function RowsOf(likes: map<(nat, nat), nat>, video: nat): set<(nat, nat)> {
    set pair | pair in likes && pair.0 == video
  }

  function LikeRows(t: Tables, video: nat): set<(nat, nat)> {
    RowsOf(t.likes, video)
  }

  function HeatSum(outbox: seq<Heat>, video: nat): int {
    if outbox == [] then 0
    else HeatSum(outbox[..|outbox| - 1], video)
         + (if outbox[|outbox| - 1].video == video then outbox[|outbox| - 1].change else 0)
  }

  /** Deliveries that add a comment to the video. */
  function Published(e: Event, video: nat): nat {
    if e.CommentEvent? && e.action == "publish" && e.video == video then 1 else 0
  }

  function Publishes(kept: seq<Delivery>, video: nat): nat
    decreases |kept|
  {
    if kept == [] then 0
    else
      Published(kept[0].event, video) + Publishes(kept[1..], video)
  }

  /** The counters of a video: its like rows, and those plus `published`. */
  ghost predicate Counted(t: Tables, video: nat, published: nat)
    requires video in t.videos
  {
    t.videos[video] == Counts(|LikeRows(t, video)|, |LikeRows(t, video)| + published)
  }

  lemma RowAdded(likes: map<(nat, nat), nat>, pair: (nat, nat), at: nat, video: nat)
    requires pair !in likes
    ensures |RowsOf(likes[pair := at], video)| == |RowsOf(likes, video)| + (if pair.0 == video then 1 else 0)
  {
    assert RowsOf(likes[pair := at], video)
        == RowsOf(likes, video) + (if pair.0 == video then {pair} else {});
  }

  lemma RowRemoved(likes: map<(nat, nat), nat>, pair: (nat, nat), video: nat)
    requires pair in likes
    ensures |RowsOf(likes, video)| == |RowsOf(likes - {pair}, video)| + (if pair.0 == video then 1 else 0)
  {
    assert RowsOf(likes, video)
        == RowsOf(likes - {pair}, video) + (if pair.0 == video then {pair} else {});
  }

  /** The change of both counters that a like event amounts to. */
  function Delta(t: Tables, e: Event): int {
    if e.LikeEvent? && e.video in t.videos && Flips(t, e) then (if e.action == "like" then 1 else -1) else 0
  }

  lemma LikeRowsAfter(t: Tables, e: Event, row: nat, video: nat)
    requires !Refused(e) && Effect(t, e, row).Some?
    ensures |LikeRows(Effect(t, e, row).value, video)|
         == |LikeRows(t, video)| + (if e.video == video then Delta(t, e) else 0)
  {
    if Delta(t, e) > 0 {
      RowAdded(t.likes, (e.video, e.user), e.at, video);
    } else if Delta(t, e) < 0 {
      RowRemoved(t.likes, (e.video, e.user), video);
    }
  }

  /** An event keeps the counters exact, and the clamp at zero never changes a value. */
  lemma EffectKeepsCounted(t: Tables, e: Event, row: nat, video: nat, published: nat)
    requires !Refused(e) && Effect(t, e, row).Some?
    requires video in t.videos && Counted(t, video, published)
    ensures video in Effect(t, e, row).value.videos
    ensures Counted(Effect(t, e, row).value, video, published + Published(e, video))
    ensures e.video == video ==>
              var c := t.videos[video];
              Adjusted(c, Delta(t, e)) == Counts(c.likes + Delta(t, e), c.popularity + Delta(t, e))
  {
    LikeRowsAfter(t, e, row, video);
    if Delta(t, e) < 0 && e.video == video {
      assert (e.video, e.user) in LikeRows(t, video);
    }
  }

  /** In every reachable state likes_count is the number of like rows, and popularity is that
      number plus the committed comment publishes. */
  lemma {:induction false} CountersAreExact(t: Tables, trace: seq<Delivery>, video: nat, published: nat)
    requires video in t.videos && Counted(t, video, published)
    ensures video in Run(t, trace).videos
    ensures Counted(Run(t, trace), video, published + Publishes(Kept(t, trace), video))
    decreases |trace|
  {
    if trace != [] {
      var d := trace[0];
      var step := Attempt(t, d);
      var rest := Kept(step.tables, trace[1..]);
      if step.outcome.Committed? {
        var begun := t.(consumed := t.consumed + {EventKey(d.event)});
        assert LikeRows(begun, video) == LikeRows(t, video);
        EffectKeepsCounted(begun, d.event, d.row, video, published);
        CountersAreExact(step.tables, trace[1..], video, published + Published(d.event, video));
        var kept := [d] + rest;
        assert kept[0] == d && kept[1..] == rest;
        assert Kept(t, trace) == kept;
      } else {
        CommittedStep(t, d);
        CountersAreExact(t, trace[1..], video, published);
        assert [] + rest == rest;
      }
    }
  }

  // ---------------------------------------------------------------- relations

  /** Whether the user likes the video after these events, from what the events ask for alone. */
  function Liked(kept: seq<Delivery>, video: nat, user: nat, before: bool): bool
    decreases |kept|
  {
    if kept == [] then before
    else
      var e := kept[0].event;
      Liked(kept[1..], video, user,
            if e.LikeEvent? && e.video == video && e.user == user then e.action == "like" else before)
  }

  lemma EffectOnPair(t: Tables, e: Event, row: nat, video: nat, user: nat)
    requires !Refused(e) && Effect(t, e, row).Some? && video in t.videos
    ensures video in Effect(t, e, row).value.videos
    ensures (video, user) in Effect(t, e, row).value.likes
       <==> if e.LikeEvent? && e.video == video && e.user == user then e.action == "like" else (video, user) in t.likes
  {
  }

  /** A user likes a video exactly when the last event that took effect for the two is a like. */
  lemma {:induction false} LastEventDecides(t: Tables, trace: seq<Delivery>, video: nat, user: nat)
    requires video in t.videos
    ensures (video, user) in Run(t, trace).likes
       <==> Liked(Kept(t, trace), video, user, (video, user) in t.likes)
    decreases |trace|
  {
    if trace != [] {
      var d := trace[0];
      var step := Attempt(t, d);
      var rest := Kept(step.tables, trace[1..]);
      CommittedStep(t, d);
      if step.outcome.Committed? {
        EffectOnPair(t.(consumed := t.consumed + {EventKey(d.event)}), d.event, d.row, video, user);
        var kept := [d] + rest;
        assert kept[0] == d && kept[1..] == rest && Kept(t, trace) == kept;
      } else {
        assert [] + rest == rest;
      }
      LastEventDecides(step.tables, trace[1..], video, user);
    }
  }

  /** The comment under a row ID after these events. */
  function CommentAt(videos: set<nat>, kept: seq<Delivery>, row: nat, before: Option<Comment>): Option<Comment>
    decreases |kept|
  {
    if kept == [] then before
    else
      var e := kept[0].event;
      CommentAt(videos, kept[1..], row,
        if e.LikeEvent? then before
        else if e.action == "delete" then (if e.comment == row then None else before)
        else if kept[0].row == row && e.video in videos
        then Some(Comment(e.video, e.author, TrimSpace(e.username), TrimSpace(e.content), e.at))
        else before)
  }

  function Stored(t: Tables, row: nat): Option<Comment> {
    if row in t.comments then Some(t.comments[row]) else None
  }

  /** The comments are those published and not deleted since, under the IDs they were given, trimmed. */
  lemma {:induction false} CommentsFollowEvents(t: Tables, trace: seq<Delivery>, row: nat)
    ensures Stored(Run(t, trace), row) == CommentAt(t.videos.Keys, Kept(t, trace), row, Stored(t, row))
    decreases |trace|
  {
    if trace != [] {
      var d := trace[0];
      var step := Attempt(t, d);
      var rest := Kept(step.tables, trace[1..]);
      CommittedStep(t, d);
      CommentsFollowEvents(step.tables, trace[1..], row);
      if step.outcome.Committed? {
        EffectKeepsInbox(t.(consumed := t.consumed + {EventKey(d.event)}), d.event, d.row);
        var kept := [d] + rest;
        assert kept[0] == d && kept[1..] == rest && Kept(t, trace) == kept;
      } else {
        assert [] + rest == rest;
      }
    }
  }

  // ---------------------------------------------------------------- heat

  /** Heat is enqueued exactly when counters change, one event with the change of popularity;
      a like event that leaves the like rows as they are emits none. */
  lemma HeatFollowsChange(t: Tables, e: Event, row: nat, published: nat)
    requires !Refused(e) && Effect(t, e, row).Some?
    requires e.video in t.videos ==> Counted(t, e.video, published)
    ensures var after := Effect(t, e, row).value;
            && (after.outbox == t.outbox <==> after.videos == t.videos)
            && (e.LikeEvent? ==> (after.outbox == t.outbox <==> after.likes.Keys == t.likes.Keys))
            && (after.outbox != t.outbox ==>
                  && e.video in t.videos
                  && after.videos[e.video].popularity != t.videos[e.video].popularity
                  && after.outbox == t.outbox + [HeatOf(e, after.videos[e.video].popularity - t.videos[e.video].popularity)])
  {
    var after := Effect(t, e, row).value;
    if e.video in t.videos {
      EffectKeepsCounted(t, e, row, e.video, published);
    }
    if e.LikeEvent? && Delta(t, e) != 0 {
      assert (e.video, e.user) in after.likes.Keys <==> (e.video, e.user) !in t.likes.Keys;
    }
    if after.outbox != t.outbox {
      assert after.videos[e.video] != t.videos[e.video];
    }
  }

  lemma EffectConservesHeat(t: Tables, e: Event, row: nat, video: nat, published: nat)
    requires !Refused(e) && Effect(t, e, row).Some?
    requires video in t.videos && Counted(t, video, published)
    ensures video in Effect(t, e, row).value.videos
    ensures var after := Effect(t, e, row).value;
            HeatSum(after.outbox, video) - HeatSum(t.outbox, video)
            == after.videos[video].popularity - t.videos[video].popularity
  {
    var after := Effect(t, e, row).value;
    EffectKeepsCounted(t, e, row, video, published);
    if after.outbox != t.outbox {
      assert after.outbox[..|after.outbox| - 1] == t.outbox;
    }
  }

  /** Over any run, popularity moves by exactly the sum of the heat that was enqueued. */
  lemma {:induction false} HeatIsConserved(t: Tables, trace: seq<Delivery>, video: nat, published: nat)
    requires video in t.videos && Counted(t, video, published)
    ensures video in Run(t, trace).videos
    ensures HeatSum(Run(t, trace).outbox, video) - HeatSum(t.outbox, video)
         == Run(t, trace).videos[video].popularity - t.videos[video].popularity
    decreases |trace|
  {
    if trace != [] {
      var d := trace[0];
      var step := Attempt(t, d);
      if step.outcome.Committed? {
        var begun := t.(consumed := t.consumed + {EventKey(d.event)});
        EffectConservesHeat(begun, d.event, d.row, video, published);
        EffectKeepsCounted(begun, d.event, d.row, video, published);
        HeatIsConserved(step.tables, trace[1..], video, published + Published(d.event, video));
      } else {
        CommittedStep(t, d);
        HeatIsConserved(t, trace[1..], video, published);
      }
    }
  }

  /** Each heat event carries the key of a consumed event, and no two carry the same. */
  ghost predicate HeatIsKeyed(t: Tables) {
    && (forall i :: 0 <= i < |t.outbox| ==> t.outbox[i].id in t.consumed && t.outbox[i].change in {-1, 1})
    && (forall i, j :: 0 <= i < j < |t.outbox| ==> t.outbox[i].id != t.outbox[j].id)
  }

  lemma AttemptKeepsHeatKeyed(t: Tables, d: Delivery)
    requires HeatIsKeyed(t)
    ensures HeatIsKeyed(Attempt(t, d).tables)
  {
    CommittedStep(t, d);
  }

  lemma {:induction false} HeatStaysKeyed(t: Tables, trace: seq<Delivery>)
    requires HeatIsKeyed(t)
    ensures HeatIsKeyed(Run(t, trace))
    decreases |trace|
  {
    if trace != [] {
      AttemptKeepsHeatKeyed(t, trace[0]);
      HeatStaysKeyed(Attempt(t, trace[0]).tables, trace[1..]);
    }
  }

  // ---------------------------------------------------------------- deleted comments

  function CommentsOn(comments: map<nat, Comment>, video: nat): set<nat> {
    set row | row in comments && comments[row].video == video
  }

  function CommentRows(t: Tables, video: nat): set<nat> {
    CommentsOn(t.comments, video)
  }

  lemma CommentAdded(comments: map<nat, Comment>, row: nat, c: Comment, video: nat)
    requires row !in comments
    ensures |CommentsOn(comments[row := c], video)| == |CommentsOn(comments, video)| + (if c.video == video then 1 else 0)
  {
    assert CommentsOn(comments[row := c], video) == CommentsOn(comments, video) + (if c.video == video then {row} else {});
  }

  lemma CommentRemoved(comments: map<nat, Comment>, row: nat, video: nat)
    ensures |CommentsOn(comments, video)|
         == |CommentsOn(comments - {row}, video)| + (if row in comments && comments[row].video == video then 1 else 0)
  {
    assert CommentsOn(comments, video)
        == CommentsOn(comments - {row}, video) + (if row in comments && comments[row].video == video then {row} else {});
  }

  /** The delivery commits, and deletes a comment of this video. */
  predicate Removes(t: Tables, d: Delivery, video: nat) {
    && Attempt(t, d).outcome.Committed?
    && d.event.CommentEvent? && d.event.action == "delete"
    && d.event.comment in t.comments && t.comments[d.event.comment].video == video
  }

  function Removals(t: Tables, trace: seq<Delivery>, video: nat): nat
    decreases |trace|
  {
    if trace == [] then 0
    else (if Removes(t, trace[0], video) then 1 else 0) + Removals(Attempt(t, trace[0]).tables, trace[1..], video)
  }

  lemma EffectOnComments(t: Tables, e: Event, row: nat, video: nat)
    requires !Refused(e) && Effect(t, e, row).Some? && video in t.videos
    ensures var deleted := e.CommentEvent? && e.action == "delete" && e.comment in t.comments
                           && t.comments[e.comment].video == video;
            |CommentRows(Effect(t, e, row).value, video)| + (if deleted then 1 else 0)
            == |CommentRows(t, video)| + Published(e, video)
  {
    if e.CommentEvent? && e.action == "delete" {
      CommentRemoved(t.comments, e.comment, video);
    } else if e.CommentEvent? && e.video in t.videos {
      CommentAdded(t.comments, row, Comment(e.video, e.author, TrimSpace(e.username), TrimSpace(e.content), e.at), video);
    }
  }

  /** Comments are what was published without what was removed. */
  lemma {:induction false} CommentsAreCounted(t: Tables, trace: seq<Delivery>, video: nat)
    requires video in t.videos
    ensures |CommentRows(Run(t, trace), video)| + Removals(t, trace, video)
         == |CommentRows(t, video)| + Publishes(Kept(t, trace), video)
    decreases |trace|
  {
    if trace != [] {
      var d := trace[0];
      var step := Attempt(t, d);
      var rest := Kept(step.tables, trace[1..]);
      CommittedStep(t, d);
      if step.outcome.Committed? {
        var begun := t.(consumed := t.consumed + {EventKey(d.event)});
        EffectOnComments(begun, d.event, d.row, video);
        EffectKeepsInbox(begun, d.event, d.row);
        assert CommentRows(begun, video) == CommentRows(t, video);
        var kept := [d] + rest;
        assert kept[0] == d && kept[1..] == rest && Kept(t, trace) == kept;
      } else {
        assert [] + rest == rest;
      }
      CommentsAreCounted(step.tables, trace[1..], video);
    }
  }

  /** Some delivery of the trace removes a comment of the video from the tables it finds. */
  ghost predicate SomethingRemoved(t: Tables, trace: seq<Delivery>, video: nat) {
    exists i :: 0 <= i < |trace| && Removes(Run(t, trace[..i]), trace[i], video)
  }

  lemma {:induction false} RemovalsAreCounted(t: Tables, trace: seq<Delivery>, video: nat)
    ensures Removals(t, trace, video) > 0 <==> SomethingRemoved(t, trace, video)
    decreases |trace|
  {
    if trace != [] {
      var next, rest := Attempt(t, trace[0]).tables, trace[1..];
      RemovalsAreCounted(next, rest, video);
      forall i | 0 <= i < |rest| ensures Run(t, trace[..i + 1]) == Run(next, rest[..i]) && trace[i + 1] == rest[i] {
        assert trace[..i + 1] == [trace[0]] + rest[..i];
        assert trace[..i + 1][0] == trace[0] && trace[..i + 1][1..] == rest[..i];
      }
      assert trace[..0] == [];
      if Removes(t, trace[0], video) {
        assert Removes(Run(t, trace[..0]), trace[0], video);
      } else if SomethingRemoved(next, rest, video) {
        var i :| 0 <= i < |rest| && Removes(Run(next, rest[..i]), rest[i], video);
        assert Removes(Run(t, trace[..i + 1]), trace[i + 1], video);
      } else {
        forall i | 0 <= i < |trace| ensures !Removes(Run(t, trace[..i]), trace[i], video) {
          if i > 0 {
            assert !Removes(Run(next, rest[..i - 1]), rest[i - 1], video);
            assert Run(t, trace[..i - 1 + 1]) == Run(next, rest[..i - 1]);
          }
        }
      }
    }
  }

  /** Deleting a comment takes back neither its popularity nor its heat.  So after any run, popularity
      is the likes and comments that are there if and only if no committed delete has removed a
      comment of the video, and otherwise exceeds them by the number of those. */
  lemma PopularityOutlivesComments(t: Tables, trace: seq<Delivery>, video: nat)
    requires video in t.videos && Counted(t, video, |CommentRows(t, video)|)
    ensures video in Run(t, trace).videos
    ensures var after := Run(t, trace);
            after.videos[video].popularity
            == |LikeRows(after, video)| + |CommentRows(after, video)| + Removals(t, trace, video)
    ensures var after := Run(t, trace);
            after.videos[video].popularity == |LikeRows(after, video)| + |CommentRows(after, video)|
            <==> !SomethingRemoved(t, trace, video)
  {
    CountersAreExact(t, trace, video, |CommentRows(t, video)|);
    CommentsAreCounted(t, trace, video);
    RemovalsAreCounted(t, trace, video);
  }
}
