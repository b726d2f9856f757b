/** The like and comment workers: up to four attempts at one delivery, then one settlement. */
module EventWorker {
  import opened Ranking
  import opened InteractionStore

  const MAX_RETRIES: nat := 3

  /** A body that does not parse is dropped. */
  datatype Body = Garbage | Parsed(event: Event)

  datatype Settlement = Acked | Requeued | DeadLettered

  /** One attempt's environment: whether the worker is being stopped, which statement fails, whether
      the reply to the commit is lost, whether the worker is stopped in the pause that follows, and
      the row ID the database would give a comment. */
  datatype Turn = Turn(stopped: bool, fails: Option<Statement>, replyLost: bool, stoppedInPause: bool, row: nat)

  class Channel {
    ghost var settlements: seq<Settlement>

    constructor ()
      ensures settlements == []
    {
      settlements := [];
    }

    method Settle(s: Settlement)
      modifies this
      ensures settlements == old(settlements) + [s]
    {
      settlements := settlements + [s];
    }
  }

  predicate Dropped(body: Body) {
    body.Garbage? || Ignored(body.event)
  }

  method Process(db: Database, body: Body, turn: Turn) returns (ok: bool, ghost struck: bool)
    modifies db
    ensures Dropped(body) ==> ok && db.View() == old(db.View())
    ensures !Dropped(body) ==>
              var tried := Attempt(old(db.View()), Delivery(body.event, turn.row, struck));
              db.View() == tried.tables && ok == (Succeeds(tried.outcome) && !turn.replyLost)
    ensures struck ==> turn.fails.Some?
  {
    struck := false;
    if body.Garbage? {
      return true, false;
    }
    var e := body.event;
    var outcome: Outcome;
    match e {
      case LikeEvent(_, _, _, _, _) =>
        if e.user == 0 || e.video == 0 {
          return true, false;
        }
        outcome, struck := db.ApplyLikeEvent(e, turn.fails);
        LikesIgnoreRow(old(db.View()), e, turn.row, struck);
      case CommentEvent(_, _, _, _, _, _, _, _) =>
        outcome, struck := db.ApplyCommentEvent(e, turn.row, turn.fails);
    }
    ok := Succeeds(outcome) && !turn.replyLost;
  }

  lemma LikesIgnoreRow(t: Tables, e: Event, row: nat, struck: bool)
    requires e.LikeEvent?
    ensures Attempt(t, Delivery(e, 0, struck)) == Attempt(t, Delivery(e, row, struck))
  {
  }

  /** What a delivery may leave behind: nothing, or its event's effect exactly once. */
  ghost predicate AtMostOnce(before: Tables, after: Tables, body: Body) {
    after == before || (body.Parsed? && TookEffect(before, after, body.event))
  }

  ghost predicate TookEffect(before: Tables, after: Tables, e: Event) {
    exists row :: Attempt(before, Delivery(e, row, false)) == Attempted(after, Committed)
  }

  /** Whether a delivery is over with: dropped, or its event is recorded as consumed. */
  predicate Done(after: Tables, body: Body) {
    body.Garbage? || Settled(after, body.event)
  }

  lemma AnotherAttempt(before: Tables, now: Tables, e: Event, d: Delivery)
    requires d.event == e && AtMostOnce(before, now, Parsed(e))
    ensures AtMostOnce(before, Attempt(now, d).tables, Parsed(e))
    ensures Succeeds(Attempt(now, d).outcome) ==> EventKey(e) in Attempt(now, d).tables.consumed
    ensures !d.struck && Succeeds(Attempt(before, d).outcome) ==> Succeeds(Attempt(now, d).outcome)
  {
    CommittedStep(now, d);
    if now != before {
      var row :| Attempt(before, Delivery(e, row, false)) == Attempted(now, Committed);
      CommittedStep(before, Delivery(e, row, false));
    } else if Attempt(now, d).outcome.Committed? {
      assert Attempt(before, Delivery(e, d.row, false)) == Attempted(Attempt(now, d).tables, Committed);
    }
  }

  predicate Undisturbed(turn: Turn) {
    turn.fails.None? && !turn.replyLost
  }

  /** An attempt nothing interferes with would apply the event or find it consumed. */
  ghost predicate Applicable(t: Tables, body: Body, turn: Turn) {
    Dropped(body) || Succeeds(Attempt(t, Delivery(body.event, turn.row, false)).outcome)
  }

  /** Exactly one settlement.  An acknowledged delivery is done with, and any other has taken effect
      at most once; only a stopped worker requeues; and an event is dead-lettered only if all four
      attempts failed, none of them an undisturbed attempt at an applicable event. */
  method Deliver(db: Database, channel: Channel, body: Body, turns: seq<Turn>) returns (s: Settlement)
    requires |turns| == MAX_RETRIES + 1
    modifies db, channel
    ensures channel.settlements == old(channel.settlements) + [s]
    ensures AtMostOnce(old(db.View()), db.View(), body)
    ensures s.Acked? ==> Done(db.View(), body)
    ensures s.Requeued? ==> exists j :: 0 <= j < |turns| && (turns[j].stopped || turns[j].stoppedInPause)
    ensures s.DeadLettered? ==>
              forall j :: 0 <= j < |turns| ==>
                            !turns[j].stopped && !(Undisturbed(turns[j]) && Applicable(old(db.View()), body, turns[j]))
    ensures !turns[0].stopped && Undisturbed(turns[0]) && Applicable(old(db.View()), body, turns[0]) ==>
              s.Acked? && db.View() == if Dropped(body) then old(db.View())
                                       else Attempt(old(db.View()), Delivery(body.event, turns[0].row, false)).tables
    ensures !turns[0].stopped && Dropped(body) ==> s.Acked?
    ensures turns[0].stopped ==> s.Requeued? && db.View() == old(db.View())
  {
    var i := 0;
    while true
      invariant 0 <= i <= MAX_RETRIES
      invariant channel.settlements == old(channel.settlements)
      invariant AtMostOnce(old(db.View()), db.View(), body)
      invariant i > 0 ==> !Dropped(body) && !turns[0].stopped
      invariant i == 0 ==> db.View() == old(db.View())
      invariant forall j :: 0 <= j < i ==>
                              !turns[j].stopped && !(Undisturbed(turns[j]) && Applicable(old(db.View()), body, turns[j]))
      decreases MAX_RETRIES - i
    {
      if turns[i].stopped {
        channel.Settle(Requeued);
        return Requeued;
      }
      ghost var now := db.View();
      var ok, struck := Process(db, body, turns[i]);
      if !Dropped(body) {
        AnotherAttempt(old(db.View()), now, body.event, Delivery(body.event, turns[i].row, struck));
      }
      if !ok {
        if i >= MAX_RETRIES {
          channel.Settle(DeadLettered);
          return DeadLettered;
        }
        if turns[i].stoppedInPause {
          channel.Settle(Requeued);
          return Requeued;
        }
        i := i + 1;
        continue;
      }
      channel.Settle(Acked);
      return Acked;
    }
  }

  // ---------------------------------------------------------------- said of the tables alone

  /** What a like or unlike that commits does to the tables, field by field. */
  lemma LikeCommits(t: Tables, e: Event, row: nat)
    requires e.LikeEvent? && e.user != 0 && e.video != 0 && e.at != 0 && e.id != "" && e.action in {"like", "unlike"}
    requires "like:" + e.id !in t.consumed && e.video in t.videos
    ensures !Ignored(e) && Attempt(t, Delivery(e, row, false)).outcome.Committed?
    ensures var after := Attempt(t, Delivery(e, row, false)).tables;
            var change := (if e.action == "like" then 1 else 0) - (if (e.video, e.user) in t.likes then 1 else 0);
            && after.consumed == t.consumed + {"like:" + e.id} && after.comments == t.comments
            && after.likes == (if change == 1 then t.likes[(e.video, e.user) := e.at]
                               else if change == -1 then t.likes - {(e.video, e.user)} else t.likes)
            && after.videos == (if change == 0 then t.videos
                                else var c := t.videos[e.video];
                                     t.videos[e.video := Counts(if c.likes + change < 0 then 0 else c.likes + change,
                                                                if c.popularity + change < 0 then 0 else c.popularity + change)])
            && after.outbox == t.outbox + (if change == 0 then [] else [Heat("like:" + e.id, e.video, change, e.at)])
  {
    assert EventKey(e) == "like:" + e.id;
    assert t.outbox + [] == t.outbox;
  }

  /** Which comment events commit, whatever the worker does, and what the others leave. */
  lemma CommentCommits(t: Tables, e: Event, row: nat)
    requires e.CommentEvent? && e.id != "" && "comment:" + e.id !in t.consumed
    ensures Attempt(t, Delivery(e, row, false)).outcome.Committed? <==>
              || (e.action == "delete" && e.comment != 0)
              || (e.action == "publish" && e.video != 0 && e.author != 0 && TrimSpace(e.content) != ""
                  && (e.video in t.videos ==> e.at != 0 && row !in t.comments))
    ensures Attempt(t, Delivery(e, row, false)).outcome.Committed? ==>
              var after := Attempt(t, Delivery(e, row, false)).tables;
              && after.consumed == t.consumed + {"comment:" + e.id} && after.likes == t.likes
              && if e.action == "delete" then
                   after.comments == t.comments - {e.comment} && after.videos == t.videos && after.outbox == t.outbox
                 else if e.video !in t.videos then
                   after.comments == t.comments && after.videos == t.videos && after.outbox == t.outbox
                 else
                   && after.comments
                      == t.comments[row := Comment(e.video, e.author, TrimSpace(e.username), TrimSpace(e.content), e.at)]
                   && after.videos
                      == t.videos[e.video := Counts(t.videos[e.video].likes, t.videos[e.video].popularity + 1)]
                   && after.outbox == t.outbox + [Heat("comment:" + e.id, e.video, 1, e.at)]
    ensures !Attempt(t, Delivery(e, row, false)).outcome.Committed? ==> !Succeeds(Attempt(t, Delivery(e, row, false)).outcome)
  {
    assert EventKey(e) == "comment:" + e.id;
  }

  /** Events that are out of order: no transaction of theirs ever commits. */
  predicate OutOfOrder(e: Event, videos: set<nat>) {
    || e.id == ""
    || (e.LikeEvent? && e.action != "like" && e.action != "unlike")
    || (e.CommentEvent? && e.action != "publish" && e.action != "delete")
    || (e.CommentEvent? && e.action == "delete" && e.comment == 0)
    || (e.CommentEvent? && e.action == "publish"
        && (e.video == 0 || e.author == 0 || TrimSpace(e.content) == "" || (e.video in videos && e.at == 0)))
  }

  lemma KeyOf(e: Event)
    ensures EventKey(e) == (if e.LikeEvent? then "like:" else "comment:") + e.id
  {
  }

  lemma NeverCommits(before: Tables, after: Tables, e: Event)
    requires AtMostOnce(before, after, Parsed(e)) && EventKey(e) !in before.consumed
    ensures OutOfOrder(e, before.videos.Keys) ==> after == before && EventKey(e) !in after.consumed
  {
    if OutOfOrder(e, before.videos.Keys) && after != before {
      var row :| Attempt(before, Delivery(e, row, false)) == Attempted(after, Committed);
      assert false;
    }
  }

  /** The same worker, said of the event's own fields and the tables alone.  A like or unlike that is
      in order and undisturbed is acknowledged, recorded, and leaves its row exactly if it is a like, with
      both counters and the heat moved by the change in the rows.  A comment leaves its trimmed row, a
      delete none; one that is out of order is never acknowledged and leaves the tables as they were. */
  method HandleDelivery(db: Database, channel: Channel, body: Body, turns: seq<Turn>) returns (s: Settlement)
    requires |turns| == 4
    modifies db, channel
    ensures channel.settlements == old(channel.settlements) + [s]
    ensures AtMostOnce(old(db.View()), db.View(), body)
    ensures s.Acked? ==> Done(db.View(), body)
    ensures s.Requeued? ==> exists j :: 0 <= j < |turns| && (turns[j].stopped || turns[j].stoppedInPause)
    ensures s.DeadLettered? ==>
              forall j :: 0 <= j < |turns| ==>
                            !turns[j].stopped && !(Undisturbed(turns[j]) && Applicable(old(db.View()), body, turns[j]))
    ensures !turns[0].stopped && Undisturbed(turns[0]) && Applicable(old(db.View()), body, turns[0]) ==> s.Acked?
    ensures turns[0].stopped ==> s.Requeued? && db.View() == old(db.View())
    ensures body.Garbage? || (body.event.LikeEvent? && (body.event.user == 0 || body.event.video == 0)) ==>
              db.View() == old(db.View()) && (!turns[0].stopped ==> s.Acked?)
    ensures body.Parsed? && body.event.LikeEvent? && body.event.action in {"like", "unlike"}
            && body.event.user != 0 && body.event.video != 0 && body.event.at != 0 && body.event.id != ""
            && "like:" + body.event.id !in old(db.consumed) && body.event.video in old(db.videos)
            && !turns[0].stopped && turns[0].fails.None? && !turns[0].replyLost ==>
              var pair := (body.event.video, body.event.user);
              var change := (if body.event.action == "like" then 1 else 0) - (if pair in old(db.likes) then 1 else 0);
              && s.Acked? && db.consumed == old(db.consumed) + {"like:" + body.event.id}
              && (pair in db.likes <==> body.event.action == "like")
              && (forall other :: other != pair ==> (other in db.likes <==> other in old(db.likes)))
              && (forall other :: other in old(db.likes) && other in db.likes ==> db.likes[other] == old(db.likes)[other])
              && (change == 1 ==> db.likes[pair] == body.event.at)
              && db.comments == old(db.comments) && db.videos.Keys == old(db.videos).Keys
              && (forall v :: v in db.videos && (v != pair.0 || change == 0) ==> db.videos[v] == old(db.videos)[v])
              && (change != 0 ==>
                    var c := old(db.videos)[pair.0];
                    db.videos[pair.0] == Counts(if c.likes + change < 0 then 0 else c.likes + change,
                                                if c.popularity + change < 0 then 0 else c.popularity + change))
              && db.outbox == old(db.outbox)
                              + (if change == 0 then [] else [Heat("like:" + body.event.id, pair.0, change, body.event.at)])
    ensures body.Parsed? && body.event.CommentEvent? && body.event.id != "" && "comment:" + body.event.id !in old(db.consumed)
            && ((body.event.action == "delete" && body.event.comment != 0)
                || (body.event.action == "publish" && body.event.video != 0 && body.event.author != 0
                    && TrimSpace(body.event.content) != ""
                    && (body.event.video in old(db.videos) ==> body.event.at != 0 && turns[0].row !in old(db.comments))))
            && !turns[0].stopped && turns[0].fails.None? && !turns[0].replyLost ==>
              var e := body.event;
              && s.Acked? && db.consumed == old(db.consumed) + {"comment:" + e.id} && db.likes == old(db.likes)
              && (e.action == "delete" ==>
                    db.comments == old(db.comments) - {e.comment} && db.videos == old(db.videos) && db.outbox == old(db.outbox))
              && (e.action == "publish" && e.video !in old(db.videos) ==>
                    db.comments == old(db.comments) && db.videos == old(db.videos) && db.outbox == old(db.outbox))
              && (e.action == "publish" && e.video in old(db.videos) ==>
                    && db.comments == old(db.comments)[turns[0].row := Comment(e.video, e.author, TrimSpace(e.username), TrimSpace(e.content), e.at)]
                    && db.videos == old(db.videos)[e.video := Counts(old(db.videos)[e.video].likes, old(db.videos)[e.video].popularity + 1)]
                    && db.outbox == old(db.outbox) + [Heat("comment:" + e.id, e.video, 1, e.at)])
    ensures body.Parsed? && body.event.LikeEvent? && body.event.user != 0 && body.event.video != 0
            && "like:" + body.event.id !in old(db.consumed)
            && (body.event.id == "" || body.event.action !in {"like", "unlike"}) ==>
              !s.Acked? && db.View() == old(db.View())
    ensures body.Parsed? && body.event.CommentEvent? && "comment:" + body.event.id !in old(db.consumed)
            && (|| body.event.id == "" || body.event.action !in {"publish", "delete"}
                || (body.event.action == "delete" && body.event.comment == 0)
                || (body.event.action == "publish"
                    && (body.event.video == 0 || body.event.author == 0 || TrimSpace(body.event.content) == ""
                        || (body.event.video in old(db.videos) && body.event.at == 0)))) ==>
              !s.Acked? && db.View() == old(db.View())
  {
    s := Deliver(db, channel, body, turns);
    if body.Parsed? {
      var e := body.event;
      KeyOf(e);
      if "like:" + e.id !in old(db.consumed) && e.LikeEvent? {
        NeverCommits(old(db.View()), db.View(), e);
        if e.user != 0 && e.video != 0 && e.at != 0 && e.id != "" && e.action in {"like", "unlike"} && e.video in old(db.videos) {
          LikeCommits(old(db.View()), e, turns[0].row);
        }
      }
      if "comment:" + e.id !in old(db.consumed) && e.CommentEvent? {
        NeverCommits(old(db.View()), db.View(), e);
        if e.id != "" {
          CommentCommits(old(db.View()), e, turns[0].row);
        }
      }
    }
  }
}
