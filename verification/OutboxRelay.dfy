/** From the outbox table to the broker: the confirmed publisher and the poller that deletes a row
    only after its message is safely queued.
 */
module OutboxRelay {
  import opened FeedDatabase

  datatype OutboxRow = OutboxRow(exchange: string, key: string, payload: string, validJson: bool,
                                 video: nat, created: int, pending: bool)

  datatype Body = Payload(text: string) | TimelineEvent(outboxId: nat, video: nat, created: int)
  datatype Message = Message(exchange: string, key: string, body: Body)

  /** How the client learns about a send. */
  datatype Answer = SendError | NoConfirm | TimedOut | Nacked | Acked

  /** What becomes of one turn: whether its SELECT works, whether some queue is bound for the message,
      whether the broker queues it, what the client hears, and whether the transaction then commits. */
  datatype Fate = Fate(selects: bool, routable: bool, queued: bool, answer: Answer, commits: bool)

  /** The broker acknowledges a routable message only when it is queued; an uncertain one may be. */
  predicate Queued(fate: Fate) {
    fate.routable && (fate.queued || fate.answer.Acked?)
  }

  /** An unroutable mandatory message is returned before it is answered, and the return channel
      holds one: while an old return waits there, the answer behind a second one is never read. */
  function Heard(fate: Fate, mandatory: bool, waiting: nat): Answer {
    if !fate.routable && mandatory && waiting > 0 && !fate.answer.SendError? then TimedOut else fate.answer
  }

  predicate Uncertain(answer: Answer) {
    answer.SendError? || answer.NoConfirm? || answer.TimedOut?
  }

  /** One publisher per channel; `queued` is what the broker has taken from it so far. */
  class ConfirmedPublisher {
    var failed: bool
    var returned: nat
    ghost var queued: seq<Message>

    constructor ()
      ensures !failed && returned == 0 && queued == []
    {
      failed, returned, queued := false, 0, [];
    }

    /** Success means the message is queued.  After an uncertain delivery nothing is sent again. */
    method Publish(m: Message, mandatory: bool, valid: bool, fate: Fate) returns (ok: bool)
      modifies this
      ensures queued == old(queued) || queued == old(queued) + [m]
      ensures ok && (mandatory || fate.routable) ==> queued == old(queued) + [m]
      ensures ok <==> !old(failed) && valid && fate.answer.Acked?
                      && old(returned) == 0 && (fate.routable || !mandatory)
      ensures failed <==> old(failed) || (valid && Uncertain(Heard(fate, mandatory, old(returned))))
      ensures failed <==> || old(failed)
                          || (valid && (fate.answer.SendError? || fate.answer.NoConfirm? || fate.answer.TimedOut?
                                        || (!fate.routable && mandatory && old(returned) > 0)))
      ensures queued != old(queued) ==> fate.routable
      ensures ok ==> returned == old(returned)
      ensures old(failed) || !valid ==> queued == old(queued) && returned == old(returned)
      ensures old(returned) <= 1 ==> returned <= 1
    {
      if failed {
        return false;
      }
      if !valid {
        return false;
      }
      if Queued(fate) {
        queued := queued + [m];
      }
      var answer := Heard(fate, mandatory, returned);
      if answer.SendError? {
        failed := true;
        return false;
      }
      if !fate.routable && mandatory && returned == 0 {
        returned := 1;
      }
      if answer.NoConfirm? {
        failed := true;
        return false;
      }
      if answer.TimedOut? {
        failed := true;
        return false;
      }
      if answer.Nacked? {
        return false;
      }
      if returned > 0 {
        returned := returned - 1;
        return false;
      }
      return true;
    }
  }

  function MessageOf(id: nat, row: OutboxRow): Message {
    if row.exchange != "" then Message(row.exchange, row.key, Payload(row.payload))
    else Message("video.timeline.events", "video.timeline.publish", TimelineEvent(id, row.video, row.created))
  }

  predicate Publishable(row: OutboxRow) {
    row.exchange != "" ==> row.validJson && row.key != ""
  }

  /** The table, and the rows that other pollers hold locked. */
  class Outbox {
    var rows: map<nat, OutboxRow>
    var locked: set<nat>

    constructor (rows: map<nat, OutboxRow>, locked: set<nat>)
      ensures this.rows == rows && this.locked == locked
    {
      this.rows, this.locked := rows, locked;
    }

    function Claimable(): set<nat>
      reads this
    {
      Free(rows, locked)
    }

    /** Claims the lowest free pending row, publishes it and deletes it, or keeps it on any error. */
    method DispatchOutbox(publisher: ConfirmedPublisher, fate: Fate) returns (found: bool, ok: bool)
      modifies this`rows, publisher
      ensures found <==> fate.selects && old(Claimable()) != {}
      ensures !found ==> (ok <==> fate.selects && fate.commits)
      ensures !found ==> && publisher.queued == old(publisher.queued) && publisher.failed == old(publisher.failed)
                         && publisher.returned == old(publisher.returned)
      ensures !found || !ok ==> rows == old(rows)
      ensures found ==>
                var id := Least(old(Claimable()));
                && publisher.queued in {old(publisher.queued), old(publisher.queued) + [MessageOf(id, old(rows)[id])]}
                && (ok ==> && rows == old(rows) - {id}
                           && publisher.queued == old(publisher.queued) + [MessageOf(id, old(rows)[id])])
                && (ok <==> !old(publisher.failed) && Publishable(old(rows)[id]) && fate.answer.Acked?
                            && old(publisher.returned) == 0 && fate.routable && fate.commits)
      ensures found <==> fate.selects && exists id :: id in old(rows) && old(rows)[id].pending && id !in locked
      ensures found ==>
                var id := Least(old(Claimable()));
                && id in old(rows) && old(rows)[id].pending && id !in locked
                && (forall other :: other in old(rows) && old(rows)[other].pending && other !in locked ==> id <= other)
                && var row := old(rows)[id];
                   && (ok ==> rows == old(rows) - {id} && |publisher.queued| == |old(publisher.queued)| + 1
                              && publisher.returned == 0 && !publisher.failed)
                   && (publisher.queued != old(publisher.queued) ==>
                         publisher.queued == old(publisher.queued)
                           + [if row.exchange == ""
                              then Message(exchange := "video.timeline.events", key := "video.timeline.publish",
                                           body := TimelineEvent(outboxId := id, video := row.video, created := row.created))
                              else Message(exchange := row.exchange, key := row.key, body := Payload(text := row.payload))])
                   && (ok <==> && fate.answer.Acked? && fate.routable && fate.commits
                               && !old(publisher.failed) && old(publisher.returned) == 0
                               && (row.exchange != "" ==> row.validJson && row.key != ""))
    {
      if !fate.selects {
        return false, false;
      }
      var claimable := Claimable();
      assert forall id :: id in claimable <==> id in rows && rows[id].pending && id !in locked;
      if claimable == {} {
        return false, fate.commits;
      }
      var id := Least(claimable);
      var row := rows[id];
      if row.exchange != "" {
        if !row.validJson || row.key == "" {
          return true, false;
        }
        ok := publisher.Publish(Message(row.exchange, row.key, Payload(row.payload)), true, true, fate);
      } else {
        ok := publisher.Publish(
          Message("video.timeline.events", "video.timeline.publish", TimelineEvent(id, row.video, row.created)), true, true, fate);
      }
      if !ok || !fate.commits {
        return true, false;
      }
      rows := rows - {id};
      return true, true;
    }

    /** Meanwhile other pollers have deleted rows they held, new rows have been inserted, and other
        locks are held. */
    method Meanwhile(turn: Turn)
      requires Apart(rows, turn.added)
      modifies this`rows, this`locked
      ensures rows == old(rows) - Taken(old(rows), old(locked), turn) + turn.added && locked == turn.locked
      ensures Quiet(turn, old(locked)) ==> rows == old(rows) && Claimable() == old(Claimable())
    {
      rows := rows - Taken(rows, locked, turn) + turn.added;
      locked := turn.locked;
    }

    /** The poller until it is stopped or an error ends it, among others that keep the same contract and
        have queued what they deleted: every row that has ever been there and has left the table has its
        message queued, by this publisher or by theirs, and only messages of rows were sent.  Undisturbed,
        as many sound turns as there are rows leave none that can be claimed. */
    method RunOutboxPoller(publisher: ConfirmedPublisher, turns: seq<Turn>)
      returns (ok: bool, made: nat, ghost sent: seq<Message>, ghost others: set<Message>)
      requires FreshIds(rows, turns)
      modifies this`rows, this`locked, publisher
      ensures made <= |turns| && (ok ==> made == |turns|)
      ensures publisher.queued == old(publisher.queued) + sent
      ensures NothingLost(EverThere(old(rows), turns, made), rows, MessagesOf(publisher.queued), MessagesOf(sent), others)
      ensures NobodyElse(turns, made) ==> others == {}
      ensures ok && |turns| >= |old(rows)| && Undisturbed(turns, |turns|, old(locked)) ==> Claimable() == {}
      ensures !ok ==> made > 0
      ensures old(WellOff(publisher)) && AllSound(turns) ==> ok
    {
      StartsSoFar(rows, locked, publisher.queued, turns);
      ok, made, sent, others := RunTurns(publisher, turns, rows, locked, publisher.queued, WellOff(publisher) && AllSound(turns));
      if ok {
        EndsDrained(turns, old(locked), |old(rows)|, rows, locked);
      }
    }

    /** The loop: turn after turn, until they are over or one ends with an error. */
    method RunTurns(publisher: ConfirmedPublisher, turns: seq<Turn>, ghost start: map<nat, OutboxRow>, ghost locked0: set<nat>,
                    ghost queued0: seq<Message>, ghost well: bool)
      returns (ok: bool, made: nat, ghost sent: seq<Message>, ghost others: set<Message>)
      requires FreshIds(start, turns) && Ongoing(publisher, turns, 0, start, locked0, queued0, [], {}, well)
      modifies this`rows, this`locked, publisher
      ensures made <= |turns|
      ensures ok ==> made == |turns| && Ongoing(publisher, turns, made, start, locked0, queued0, sent, others, well)
      ensures !ok ==> made > 0 && !well && Ended(publisher, turns, made, start, queued0, sent, others)
    {
      ok, made, sent, others := true, 0, [], {};
      while ok && made < |turns|
        invariant made <= |turns|
        invariant ok ==> Ongoing(publisher, turns, made, start, locked0, queued0, sent, others, well)
        invariant !ok ==> made > 0 && !well && Ended(publisher, turns, made, start, queued0, sent, others)
        decreases |turns| - made
      {
        ok, sent, others := Advance(publisher, turns, made, start, locked0, queued0, sent, others, well);
        made := made + 1;
      }
    }

    /** Where a run has ended with an error in its n-th turn. */
    ghost predicate Ended(publisher: ConfirmedPublisher, turns: seq<Turn>, n: nat, start: map<nat, OutboxRow>,
                          queued0: seq<Message>, sent: seq<Message>, others: set<Message>)
      reads this, publisher
    {
      publisher.queued == queued0 + sent && Kept(start, turns, n, rows, publisher.queued, sent, others)
    }

    /** Where a run stands after n turns that ended without an error. */
    ghost predicate Ongoing(publisher: ConfirmedPublisher, turns: seq<Turn>, n: nat, start: map<nat, OutboxRow>, locked0: set<nat>,
                            queued0: seq<Message>, sent: seq<Message>, others: set<Message>, well: bool)
      reads this, publisher
    {
      && publisher.queued == queued0 + sent
      && SoFar(start, locked0, turns, n, rows, locked, publisher.queued, sent, others)
      && (well ==> WellOff(publisher) && AllSound(turns))
    }

    method Advance(publisher: ConfirmedPublisher, turns: seq<Turn>, i: nat, ghost start: map<nat, OutboxRow>, ghost locked0: set<nat>,
                   ghost queued0: seq<Message>, ghost sent: seq<Message>, ghost others: set<Message>, ghost well: bool)
      returns (sound: bool, ghost sent': seq<Message>, ghost others': set<Message>)
      requires i < |turns| && FreshIds(start, turns)
      requires Ongoing(publisher, turns, i, start, locked0, queued0, sent, others, well)
      modifies this`rows, this`locked, publisher
      ensures sound ==> Ongoing(publisher, turns, i + 1, start, locked0, queued0, sent', others', well)
      ensures Ended(publisher, turns, i + 1, start, queued0, sent', others')
      ensures well ==> sound
    {
      ghost var before, lockedThen := rows, locked;
      sound, sent', others' := TurnInRun(publisher, turns, i, start, queued0, sent, others);
      if sound {
        StillSoFar(start, locked0, turns, i, before, lockedThen, rows, locked, publisher.queued, sent', others');
      }
    }

    /** No failure and no unread return stands in the publisher's way, and no row is malformed. */
    predicate WellOff(publisher: ConfirmedPublisher)
      reads this, publisher
    {
      !publisher.failed && publisher.returned == 0 && AllPublishable(rows)
    }

    /** One turn of a run: what has happened meanwhile, then a dispatch. */
    method TurnInRun(publisher: ConfirmedPublisher, turns: seq<Turn>, i: nat, ghost start: map<nat, OutboxRow>,
                     ghost queued0: seq<Message>, ghost sent: seq<Message>, ghost others: set<Message>)
      returns (sound: bool, ghost sent': seq<Message>, ghost others': set<Message>)
      requires i < |turns| && publisher.queued == queued0 + sent && FreshIds(start, turns)
      requires Kept(start, turns, i, rows, publisher.queued, sent, others)
      modifies this`rows, this`locked, publisher
      ensures publisher.queued == queued0 + sent' && locked == turns[i].locked
      ensures Kept(start, turns, i + 1, rows, publisher.queued, sent', others')
      ensures sound && Quiet(turns[i], old(locked)) ==>
                if old(Claimable()) == {} then Claimable() == {} else |rows| == |old(rows)| - 1
      ensures old(WellOff(publisher)) && AllSound(turns) ==> sound && WellOff(publisher)
    {
      EverThereIsApart(start, turns, i, i);
      ArrivalKeeps(EverThere(start, turns, i), rows, locked, MessagesOf(publisher.queued), MessagesOf(sent), others, turns[i]);
      others' := others + MessagesTaken(rows, locked, turns[i]);
      Meanwhile(turns[i]);
      var found;
      found, sound, sent' := OneTurn(publisher, turns[i].fate, EverThere(start, turns, i + 1), queued0, sent, others');
    }

    /** One dispatch within a run: it relays at most the row it deletes. */
    method OneTurn(publisher: ConfirmedPublisher, fate: Fate, ghost all: map<nat, OutboxRow>,
                   ghost queued0: seq<Message>, ghost sent: seq<Message>, ghost others: set<Message>)
      returns (found: bool, sound: bool, ghost sent': seq<Message>)
      requires publisher.queued == queued0 + sent
      requires NothingLost(all, rows, MessagesOf(publisher.queued), MessagesOf(sent), others)
      modifies this`rows, publisher
      ensures publisher.queued == queued0 + sent'
      ensures NothingLost(all, rows, MessagesOf(publisher.queued), MessagesOf(sent'), others)
      ensures found <==> fate.selects && old(Claimable()) != {}
      ensures locked == old(locked)
      ensures sound ==> (found ==> |rows| == |old(rows)| - 1) && (!found ==> rows == old(rows) && Claimable() == {})
      ensures old(WellOff(publisher)) && GoodFate(fate) ==> sound && WellOff(publisher)
    {
      ghost var before, claimable := rows, Claimable();
      found, sound := DispatchOutbox(publisher, fate);
      sent' := sent;
      if found {
        ghost var id := Least(claimable);
        if publisher.queued != queued0 + sent {
          OnlyRowsAppend(all, sent, others, id);
          sent' := sent + [MessageOf(id, before[id])];
        }
        assert publisher.queued == queued0 + sent';
        RelayedMore(all, before, MessagesOf(queued0 + sent) + others, MessagesOf(publisher.queued) + others, id, rows, sound);
        if sound {
          assert rows.Keys == before.Keys - {id};
          assert |rows.Keys| == |before.Keys| - 1;
        }
      }
    }
  }

  /** One turn of the poller: rows that others have inserted, deleted and locked before it, and its fate. */
  datatype Turn = Turn(added: map<nat, OutboxRow>, left: set<nat>, locked: set<nat>, fate: Fate)

  predicate AllPublishable(rows: map<nat, OutboxRow>) {
    forall id :: id in rows ==> Publishable(rows[id])
  }

  predicate GoodFate(fate: Fate) {
    fate.selects && fate.routable && fate.answer.Acked? && fate.commits
  }

  /** Nothing goes wrong in the turn. */
  predicate Sound(turn: Turn) {
    GoodFate(turn.fate) && AllPublishable(turn.added)
  }

  predicate AllSound(turns: seq<Turn>) {
    forall i :: 0 <= i < |turns| ==> Sound(turns[i])
  }

  /** The pending rows nobody holds. */
  function Free(rows: map<nat, OutboxRow>, locked: set<nat>): set<nat> {
    set id | id in rows && rows[id].pending && id !in locked
  }

  /** Another poller deletes only a row it holds. */
  function Taken(rows: map<nat, OutboxRow>, locked: set<nat>, turn: Turn): set<nat> {
    set id | id in rows && id in locked && id in turn.left
  }

  function MessagesTaken(rows: map<nat, OutboxRow>, locked: set<nat>, turn: Turn): set<Message> {
    set id | id in rows && id in locked && id in turn.left :: MessageOf(id, rows[id])
  }

  function MessagesOf(sent: seq<Message>): set<Message> {
    set m | m in sent
  }

  /** Every row there has been in the first `n` turns. */
  function EverThere(start: map<nat, OutboxRow>, turns: seq<Turn>, n: nat): map<nat, OutboxRow>
    requires n <= |turns|
  {
    if n == 0 then start else EverThere(start, turns, n - 1) + turns[n - 1].added
  }

  predicate Apart(a: map<nat, OutboxRow>, b: map<nat, OutboxRow>) {
    a.Keys !! b.Keys
  }

  /** Primary keys are never given out twice. */
  ghost predicate FreshIds(start: map<nat, OutboxRow>, turns: seq<Turn>) {
    && (forall i :: 0 <= i < |turns| ==> Apart(start, turns[i].added))
    && (forall i, j :: 0 <= i < j < |turns| ==> Apart(turns[i].added, turns[j].added))
  }

  lemma {:induction false} EverThereIsApart(start: map<nat, OutboxRow>, turns: seq<Turn>, n: nat, i: nat)
    requires FreshIds(start, turns) && n <= i < |turns|
    ensures Apart(EverThere(start, turns, n), turns[i].added)
  {
    if n > 0 {
      EverThereIsApart(start, turns, n - 1, i);
      assert Apart(turns[n - 1].added, turns[i].added);
    }
  }

  /** Every row of the start and of every turn made is among them, and no other. */
  lemma {:induction false} EverThereHolds(start: map<nat, OutboxRow>, turns: seq<Turn>, n: nat, id: nat)
    requires FreshIds(start, turns) && n <= |turns|
    ensures id in EverThere(start, turns, n) <==>
              id in start || exists k :: 0 <= k < n && k < |turns| && id in turns[k].added
    ensures id in start ==> EverThere(start, turns, n)[id] == start[id]
    ensures forall k :: 0 <= k < n && k < |turns| && id in turns[k].added ==>
                          EverThere(start, turns, n)[id] == turns[k].added[id]
  {
    if n > 0 {
      EverThereHolds(start, turns, n - 1, id);
      EverThereIsApart(start, turns, n - 1, n - 1);
    }
  }

  /** Nothing that ever was in the table is lost, and nothing else was sent. */
  ghost predicate NothingLost(all: map<nat, OutboxRow>, rows: map<nat, OutboxRow>, queued: set<Message>, sent: set<Message>,
                              others: set<Message>) {
    Relayed(all, rows, queued + others) && OnlyRows(all, sent + others)
  }

  predicate NobodyElse(turns: seq<Turn>, n: nat) {
    forall k :: 0 <= k < n && k < |turns| ==> turns[k].left == {}
  }

  /** What every turn of a run keeps. */
  ghost predicate Kept(start: map<nat, OutboxRow>, turns: seq<Turn>, n: nat, rows: map<nat, OutboxRow>,
                       queued: seq<Message>, sent: seq<Message>, others: set<Message>) {
    && n <= |turns| && NothingLost(EverThere(start, turns, n), rows, MessagesOf(queued), MessagesOf(sent), others)
    && (NobodyElse(turns, n) ==> others == {})
  }

  ghost predicate SoFar(start: map<nat, OutboxRow>, locked0: set<nat>, turns: seq<Turn>, n: nat, rows: map<nat, OutboxRow>,
                        locked: set<nat>, queued: seq<Message>, sent: seq<Message>, others: set<Message>) {
    Kept(start, turns, n, rows, queued, sent, others) && Drained(turns, n, locked0, |start|, rows, locked)
  }

  lemma StartsSoFar(rows: map<nat, OutboxRow>, locked: set<nat>, queued: seq<Message>, turns: seq<Turn>)
    ensures SoFar(rows, locked, turns, 0, rows, locked, queued, [], {})
  {
  }

  lemma StillSoFar(start: map<nat, OutboxRow>, locked0: set<nat>, turns: seq<Turn>, n: nat, before: map<nat, OutboxRow>,
                   locked: set<nat>, after: map<nat, OutboxRow>, locked': set<nat>, queued: seq<Message>,
                   sent: seq<Message>, others: set<Message>)
    requires n < |turns| && Kept(start, turns, n + 1, after, queued, sent, others) && locked' == turns[n].locked
    requires Drained(turns, n, locked0, |start|, before, locked)
    requires Quiet(turns[n], locked) ==> if Free(before, locked) == {} then Free(after, locked') == {} else |after| == |before| - 1
    ensures SoFar(start, locked0, turns, n + 1, after, locked', queued, sent, others)
  {
    StillDrained(turns, n + 1, locked0, |start|, before, locked, after, locked');
  }

  lemma EndsDrained(turns: seq<Turn>, locked0: set<nat>, size0: nat, rows: map<nat, OutboxRow>, locked: set<nat>)
    requires Drained(turns, |turns|, locked0, size0, rows, locked)
    ensures |turns| >= size0 && Undisturbed(turns, |turns|, locked0) ==> Free(rows, locked) == {}
  {
    assert Free(rows, locked) <= rows.Keys;
  }

  lemma ArrivalKeeps(all: map<nat, OutboxRow>, rows: map<nat, OutboxRow>, locked: set<nat>, queued: set<Message>,
                     sent: set<Message>, others: set<Message>, turn: Turn)
    requires NothingLost(all, rows, queued, sent, others) && Apart(all, turn.added)
    ensures Apart(rows, turn.added) && (turn.left == {} ==> others + MessagesTaken(rows, locked, turn) == others)
    ensures NothingLost(all + turn.added, rows - Taken(rows, locked, turn) + turn.added, queued, sent,
                        others + MessagesTaken(rows, locked, turn))
  {
    assert forall id :: id in rows ==> id in all;
    TakenIsRelayed(all, rows, locked, queued, others, turn);
    TakenAreRows(all, rows, locked, sent, others, turn);
  }

  lemma TakenAreRows(all: map<nat, OutboxRow>, rows: map<nat, OutboxRow>, locked: set<nat>, sent: set<Message>,
                     others: set<Message>, turn: Turn)
    requires OnlyRows(all, sent + others) && Apart(all, turn.added)
    requires forall id :: id in rows ==> id in all && all[id] == rows[id]
    ensures OnlyRows(all + turn.added, sent + (others + MessagesTaken(rows, locked, turn)))
  {
    var added := turn.added;
    forall m | m in sent + (others + MessagesTaken(rows, locked, turn)) ensures IsRow(all + added, m) {
      if m in sent + others {
        var id :| id in all && m == MessageOf(id, all[id]);
        assert (all + added)[id] == all[id];
      } else {
        var id :| id in rows && m == MessageOf(id, rows[id]);
        assert (all + added)[id] == rows[id];
      }
    }
  }

  lemma TakenIsRelayed(all: map<nat, OutboxRow>, rows: map<nat, OutboxRow>, locked: set<nat>, queued: set<Message>,
                       others: set<Message>, turn: Turn)
    requires Relayed(all, rows, queued + others) && Apart(all, turn.added)
    ensures Relayed(all + turn.added, rows - Taken(rows, locked, turn) + turn.added,
                    queued + (others + MessagesTaken(rows, locked, turn)))
  {
    var after := rows - Taken(rows, locked, turn) + turn.added;
    forall id | id in all + turn.added && id !in after
      ensures MessageOf(id, (all + turn.added)[id]) in queued + (others + MessagesTaken(rows, locked, turn))
    {
      if id in rows {
        assert MessageOf(id, rows[id]) in MessagesTaken(rows, locked, turn);
      } else {
        assert MessageOf(id, all[id]) in queued + others;
      }
    }
  }

  predicate Quiet(turn: Turn, locked: set<nat>) {
    turn.added == map[] && turn.left == {} && turn.locked == locked
  }

  ghost predicate Undisturbed(turns: seq<Turn>, n: nat, locked: set<nat>) {
    forall i :: 0 <= i < n && i < |turns| ==> Quiet(turns[i], locked)
  }

  /** Undisturbed, each turn takes one of the rows, until none can be claimed. */
  ghost predicate Drained(turns: seq<Turn>, n: nat, locked0: set<nat>, size0: nat, rows: map<nat, OutboxRow>, locked: set<nat>) {
    Undisturbed(turns, n, locked0) ==> locked == locked0 && (Free(rows, locked) == {} || |rows| + n <= size0)
  }

  lemma StillDrained(turns: seq<Turn>, n: nat, locked0: set<nat>, size0: nat, before: map<nat, OutboxRow>, locked: set<nat>,
                     after: map<nat, OutboxRow>, locked': set<nat>)
    requires 0 < n <= |turns| && Drained(turns, n - 1, locked0, size0, before, locked) && locked' == turns[n - 1].locked
    requires Quiet(turns[n - 1], locked) ==> if Free(before, locked) == {} then Free(after, locked') == {} else |after| == |before| - 1
    ensures Drained(turns, n, locked0, size0, after, locked')
  {
  }

  ghost predicate Relayed(before: map<nat, OutboxRow>, after: map<nat, OutboxRow>, queued: set<Message>) {
    && (forall id :: id in after ==> id in before && after[id] == before[id])
    && (forall id :: id in before && id !in after ==> MessageOf(id, before[id]) in queued)
  }

  ghost predicate IsRow(rows: map<nat, OutboxRow>, m: Message) {
    exists id :: id in rows && m == MessageOf(id, rows[id])
  }

  ghost predicate OnlyRows(rows: map<nat, OutboxRow>, sent: set<Message>) {
    forall m :: m in sent ==> IsRow(rows, m)
  }

  lemma OnlyRowsAppend(rows: map<nat, OutboxRow>, sent: seq<Message>, others: set<Message>, id: nat)
    requires OnlyRows(rows, MessagesOf(sent) + others) && id in rows
    ensures OnlyRows(rows, MessagesOf(sent + [MessageOf(id, rows[id])]) + others)
  {
    forall m | m in MessagesOf(sent + [MessageOf(id, rows[id])]) + others ensures IsRow(rows, m) {
      assert m in MessagesOf(sent) + others || m == MessageOf(id, rows[id]);
    }
  }

  lemma RelayedMore(start: map<nat, OutboxRow>, before: map<nat, OutboxRow>, queued: set<Message>, queued': set<Message>,
                    id: nat, after: map<nat, OutboxRow>, deleted: bool)
    requires id in before && Relayed(start, before, queued) && queued <= queued'
    requires after == if deleted then before - {id} else before
    requires deleted ==> MessageOf(id, before[id]) in queued'
    ensures Relayed(start, after, queued')
  {
    forall k | k in start && k !in after ensures MessageOf(k, start[k]) in queued' {
      assert k !in before ==> MessageOf(k, start[k]) in queued;
    }
  }
}
