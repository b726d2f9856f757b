/** Each call of the poller and of the workers is a run of steps of the pipeline: what their contracts
    promise is what the guards of those steps ask for.
 */
module PipelineRefinement {
  import opened Ranking
  import opened FeedDatabase
  import opened InteractionStore
  import opened InteractionPipeline
  import EventWorker
  import HeatWorker
  import OutboxRelay
  import VideoDetail
  import HC = HeatCache

  lemma {:induction false} RunOneMore(s: State, run: seq<Step>, step: Step)
    requires CanRun(s, run) && Enabled(After(s, run), step)
    ensures CanRun(s, run + [step]) && After(s, run + [step]) == Next(After(s, run), step)
    decreases |run|
  {
    if run == [] {
      assert run + [step] == [step] && [step][1..] == [];
    } else {
      assert (run + [step])[0] == run[0] && (run + [step])[1..] == run[1..] + [step];
      RunOneMore(Next(s, run[0]), run[1..], step);
    }
  }

  // ---------------------------------------------------------------- the poller

  /** How events are written down; no two messages read the same. */
  ghost predicate IsCode(encode: Msg -> string) {
    forall a, b :: encode(a) == encode(b) ==> a == b
  }

  function Exchange(m: Msg): string {
    match m
    case Interaction(e) => if e.LikeEvent? then "like.events" else "comment.events"
    case HeatMsg(_) => "video.popularity.events"
  }

  function RoutingKey(m: Msg): string {
    match m
    case Interaction(e) => (if e.LikeEvent? then "like." else "comment.") + e.action
    case HeatMsg(_) => "video.popularity.update"
  }

  /** The outbox row that stands for a message, and what is sent for it. */
  ghost predicate StandsFor(row: OutboxRelay.OutboxRow, m: Msg, encode: Msg -> string) {
    row.pending && row.validJson && row.exchange == Exchange(m) && row.key == RoutingKey(m) && row.payload == encode(m)
  }

  function Sent(m: Msg, encode: Msg -> string): OutboxRelay.Message {
    OutboxRelay.Message(Exchange(m), RoutingKey(m), OutboxRelay.Payload(encode(m)))
  }

  /** What is sent tells the message. */
  lemma SentTellsMessage(a: Msg, b: Msg, encode: Msg -> string)
    requires IsCode(encode)
    ensures Sent(a, encode) == Sent(b, encode) <==> a == b
  {
  }

  /** The outbox table as the pipeline sees it: the same rows, each standing for its message, and the
      locked ones claimed. */
  ghost predicate SameRows(outbox: OutboxRelay.Outbox, s: State, encode: Msg -> string)
    reads outbox
  {
    && outbox.rows.Keys == s.rows.Keys && outbox.locked == s.claims.Keys
    && forall id :: id in s.rows ==> StandsFor(outbox.rows[id], s.rows[id], encode)
  }

  lemma DispatchSteps(s: State, id: nat, queued: bool, ok: bool) returns (run: seq<Step>)
    requires id in s.rows && id !in s.claims && (ok ==> queued)
    ensures CanRun(s, run)
    ensures After(s, run)
         == s.(rows := if ok then s.rows - {id} else s.rows,
               broker := if queued then s.broker + multiset{s.rows[id]} else s.broker)
  {
    run := [];
    RunOneMore(s, run, Claim(id));
    run := run + [Claim(id)];
    RunOneMore(s, run, Send(id, queued, ok));
    run := run + [Send(id, queued, ok)];
    var claimed := After(s, run);
    assert claimed.claims - {id} == s.claims;
    var last := if ok then Delete(id) else Release(id);
    RunOneMore(s, run, last);
    run := run + [last];
  }

  /** One turn of the poller: nothing, or a claim, a send, and then the delete or the release.  The
      step queues the row's message exactly when the publisher queued what stands for it. */
  method Poll(outbox: OutboxRelay.Outbox, publisher: OutboxRelay.ConfirmedPublisher, fate: OutboxRelay.Fate,
              ghost s: State, ghost encode: Msg -> string)
    returns (found: bool, ok: bool, ghost run: seq<Step>)
    requires SameRows(outbox, s, encode)
    modifies outbox`rows, publisher
    ensures CanRun(s, run) && SameRows(outbox, After(s, run), encode)
    ensures found <==> fate.selects && old(outbox.Claimable()) != {}
    ensures !found ==> run == [] && publisher.queued == old(publisher.queued)
    ensures found ==>
              var id := Least(old(outbox.Claimable()));
              && id in s.rows
              && (ok <==> id !in After(s, run).rows)
              && ((After(s, run).broker == s.broker && publisher.queued == old(publisher.queued))
                  || (After(s, run).broker == s.broker + multiset{s.rows[id]}
                      && publisher.queued == old(publisher.queued) + [Sent(s.rows[id], encode)]))
  {
    ghost var before := outbox.rows;
    ghost var claimable := outbox.Claimable();
    found, ok := outbox.DispatchOutbox(publisher, fate);
    run := [];
    if found {
      ghost var id := Least(claimable);
      assert id in before.Keys && StandsFor(before[id], s.rows[id], encode);
      RowIsSent(id, before[id], s.rows[id], encode);
      run := DispatchSteps(s, id, publisher.queued != old(publisher.queued), ok);
    }
  }

  lemma RowIsSent(id: nat, row: OutboxRelay.OutboxRow, m: Msg, encode: Msg -> string)
    requires StandsFor(row, m, encode)
    ensures OutboxRelay.MessageOf(id, row) == Sent(m, encode)
  {
    assert Exchange(m)[0] == 'l' || Exchange(m)[0] == 'c' || Exchange(m)[0] == 'v';
  }

  // ---------------------------------------------------------------- the like and comment workers

  /** Where a settled message goes. */
  function SettleStep(settlement: EventWorker.Settlement, m: Msg): Step {
    match settlement
    case Acked => Ack(m)
    case Requeued => Requeue(m)
    case DeadLettered => DeadLetter(m)
  }

  lemma SomeFreeId(rows: map<nat, Msg>) returns (id: nat)
    ensures id !in rows
  {
    id := 0;
    if rows.Keys != {} {
      var most := Most(rows.Keys);
      id := most + 1;
    }
  }

  lemma Most(ids: set<nat>) returns (most: nat)
    requires ids != {}
    ensures most in ids && forall id :: id in ids ==> id <= most
    decreases |ids|
  {
    most :| most in ids;
    var rest := ids - {most};
    assert ids == {most} + rest;
    if rest != {} {
      var other := Most(rest);
      most := if other > most then other else most;
    }
  }

  /** A like or comment delivery handled by its worker: at most one transaction that commits, and then
      the one settlement, with the guard of an acknowledgement met. */
  method HandleEvent(db: Database, channel: EventWorker.Channel, e: Event, turns: seq<EventWorker.Turn>, ghost s: State)
    returns (settlement: EventWorker.Settlement, ghost run: seq<Step>)
    requires |turns| == EventWorker.MAX_RETRIES + 1
    requires s.tables == db.View() && Interaction(e) in s.inFlight
    modifies db, channel
    ensures CanRun(s, run) && After(s, run).tables == db.View()
    ensures run != [] && run[|run| - 1] == SettleStep(settlement, Interaction(e))
    ensures After(s, run).inFlight == s.inFlight - multiset{Interaction(e)}
  {
    settlement := EventWorker.Deliver(db, channel, EventWorker.Parsed(e), turns);
    run := EventSteps(s, e, db.View(), settlement);
  }

  /** The steps of one delivery: a transaction if the tables changed, and the settlement. */
  lemma EventSteps(s: State, e: Event, after: Tables, settlement: EventWorker.Settlement) returns (run: seq<Step>)
    requires Interaction(e) in s.inFlight && EventWorker.AtMostOnce(s.tables, after, EventWorker.Parsed(e))
    requires settlement.Acked? ==> Settled(after, e)
    ensures CanRun(s, run) && After(s, run).tables == after
    ensures run != [] && run[|run| - 1] == SettleStep(settlement, Interaction(e))
    ensures After(s, run).inFlight == s.inFlight - multiset{Interaction(e)}
  {
    run := [];
    if after != s.tables {
      run := ConsumeStep(s, e, after);
    }
    RunOneMore(s, run, SettleStep(settlement, Interaction(e)));
    run := run + [SettleStep(settlement, Interaction(e))];
  }

  lemma ConsumeStep(s: State, e: Event, after: Tables) returns (run: seq<Step>)
    requires Interaction(e) in s.inFlight && EventWorker.TookEffect(s.tables, after, e)
    ensures CanRun(s, run) && After(s, run).tables == after && After(s, run).inFlight == s.inFlight
  {
    var row :| Attempt(s.tables, Delivery(e, row, false)) == Attempted(after, Committed);
    var id := SomeFreeId(s.rows);
    var step := Consume(e, row, false, id);
    run := [] + [step];
    RunOneMore(s, [], step);
  }

  // ---------------------------------------------------------------- the heat worker

  ghost predicate Unused(tokens: seq<string>, used: set<string>) {
    && (forall i :: 0 <= i < |tokens| ==> tokens[i] !in used && tokens[i] != "")
    && (forall i, j :: 0 <= i < j < |tokens| ==> tokens[i] != tokens[j])
  }

  /** One Apply step for each run of the script. */
  function Applies(h: Heat, tokens: seq<string>): seq<Step> {
    if tokens == [] then [] else Applies(h, tokens[..|tokens| - 1]) + [Apply(h, tokens[|tokens| - 1])]
  }

  function AppliedAll(s: State, h: Heat, tokens: seq<string>): State {
    if tokens == [] then s else Applied(AppliedAll(s, h, tokens[..|tokens| - 1]), h, tokens[|tokens| - 1])
  }

  function StoreOf(s: State): HeatWorker.Store {
    HeatWorker.Store(s.heat, s.cache)
  }

  /** Marks are left only by applied events. */
  predicate MarksApplied(s: State) {
    forall id :: id in s.heat.marks ==> id in s.applied
  }

  lemma ApplyIsScript(s: State, h: Heat, token: string)
    ensures StoreOf(Applied(s, h, token)) == HeatWorker.AfterScript(StoreOf(s), h, token)
    ensures Applied(s, h, token).tokens == s.tokens + {token} && Applied(s, h, token).inFlight == s.inFlight
    ensures MarksApplied(s) ==> MarksApplied(Applied(s, h, token))
    ensures MarksApplied(s) && HeatWorker.Accepts(HC.VerdictOn(s.heat, h)) ==> h.id in Applied(s, h, token).applied
  {
  }

  function SetOf(tokens: seq<string>): set<string> {
    set t | t in tokens
  }

  lemma {:induction false} AppliesAreScripts(s: State, h: Heat, tokens: seq<string>)
    ensures StoreOf(AppliedAll(s, h, tokens)) == HeatWorker.AfterScripts(StoreOf(s), h, tokens)
    ensures AppliedAll(s, h, tokens).tokens == s.tokens + SetOf(tokens) && AppliedAll(s, h, tokens).inFlight == s.inFlight
    ensures MarksApplied(s) ==> MarksApplied(AppliedAll(s, h, tokens))
  {
    if tokens != [] {
      var front, token := tokens[..|tokens| - 1], tokens[|tokens| - 1];
      assert tokens == front + [token];
      AppliesAreScripts(s, h, front);
      ApplyIsScript(AppliedAll(s, h, front), h, token);
      assert SetOf(tokens) == SetOf(front) + {token};
    }
  }

  lemma {:induction false} AppliesRun(s: State, h: Heat, tokens: seq<string>)
    requires HeatMsg(h) in s.inFlight && Unused(tokens, s.tokens)
    ensures CanRun(s, Applies(h, tokens)) && After(s, Applies(h, tokens)) == AppliedAll(s, h, tokens)
  {
    if tokens != [] {
      var front, token := tokens[..|tokens| - 1], tokens[|tokens| - 1];
      assert tokens == front + [token];
      AppliesRun(s, h, front);
      AppliesAreScripts(s, h, front);
      assert token !in front;
      RunOneMore(s, Applies(h, front), Apply(h, token));
    }
  }

  /** When the last run of the script accepted the event, it has been applied by then. */
  lemma AcceptedIsDone(s: State, h: Heat, tokens: seq<string>)
    requires MarksApplied(s) && tokens != []
    requires HeatWorker.Accepts(HC.VerdictOn(HeatWorker.AfterScripts(StoreOf(s), h, tokens[..|tokens| - 1]).heat, h))
    ensures h.id in AppliedAll(s, h, tokens).applied
  {
    var front := tokens[..|tokens| - 1];
    AppliesAreScripts(s, h, front);
    assert StoreOf(AppliedAll(s, h, front)).heat == AppliedAll(s, h, front).heat;
    ApplyIsScript(AppliedAll(s, h, front), h, tokens[|tokens| - 1]);
  }

  lemma {:induction false} ReachedAreUnused(turns: seq<HeatWorker.HeatTurn>, n: nat, used: set<string>)
    requires n <= |turns| && Unused(HeatWorker.TokensOf(turns), used)
    ensures Unused(HeatWorker.Reached(turns, n), used)
    ensures forall t :: t in HeatWorker.Reached(turns, n) ==> exists i :: 0 <= i < n && turns[i].token == t
  {
    if n > 0 {
      ReachedAreUnused(turns, n - 1, used);
      var tokens, front := HeatWorker.TokensOf(turns), HeatWorker.Reached(turns, n - 1);
      assert tokens[n - 1] == turns[n - 1].token;
      forall i | 0 <= i < |front| ensures front[i] != turns[n - 1].token {
        assert front[i] in front;
        var j :| 0 <= j < n - 1 && turns[j].token == front[i];
        assert tokens[j] == turns[j].token;
      }
    }
  }

  lemma LastReached(turns: seq<HeatWorker.HeatTurn>, n: nat)
    requires 0 < n <= |turns| && turns[n - 1].reaches
    ensures var sent := HeatWorker.Reached(turns, n);
            sent != [] && sent[..|sent| - 1] == HeatWorker.Reached(turns, n - 1)
  {
  }

  /** A heat delivery handled by its worker: the script's runs, and then the one settlement, with the
      guard of an acknowledgement met. */
  method HandleHeat(cache: HC.Cache, channel: EventWorker.Channel, h: Heat, turns: seq<HeatWorker.HeatTurn>, ghost s: State)
    returns (settlement: EventWorker.Settlement, ghost run: seq<Step>)
    requires |turns| == EventWorker.MAX_RETRIES + 1 && Unused(HeatWorker.TokensOf(turns), s.tokens)
    requires s.heat == cache.View() && s.cache == cache.Rows() && HeatMsg(h) in s.inFlight
    requires MarksApplied(s) && !HC.Malformed(h)
    modifies cache, channel
    ensures CanRun(s, run) && After(s, run).heat == cache.View() && After(s, run).cache == cache.Rows()
    ensures run != [] && run[|run| - 1] == SettleStep(settlement, HeatMsg(h))
    ensures After(s, run).inFlight == s.inFlight - multiset{HeatMsg(h)}
  {
    var attempts;
    settlement, attempts := HeatWorker.Deliver(cache, channel, HeatWorker.Parsed(h), turns);
    ghost var sent := HeatWorker.Reached(turns, attempts);
    ReachedAreUnused(turns, attempts, s.tokens);
    AppliesRun(s, h, sent);
    AppliesAreScripts(s, h, sent);
    assert StoreOf(AppliedAll(s, h, sent)) == HeatWorker.StoreOf(cache);
    if settlement.Acked? {
      LastReached(turns, attempts);
      AcceptedIsDone(s, h, sent);
    }
    run := Applies(h, sent);
    RunOneMore(s, run, SettleStep(settlement, HeatMsg(h)));
    run := run + [SettleStep(settlement, HeatMsg(h))];
  }

  // ---------------------------------------------------------------- a reader of one row

  /** Everybody's steps after the reader has captured its generation, and after it has read the table. */
  datatype Around = Around(first: seq<Step>, second: seq<Step>)

  ghost predicate Untouched(s: State, reader: nat, r: Reader) {
    reader in s.readers && s.readers[reader] == r
  }

  /** The moments at which a load reads the table and fills, in a run that leaves its reader alone. */
  ghost predicate Moments(s: State, reader: nat, id: nat, around: Around, atRead: State, atFill: State) {
    && reader !in s.readers
    && CanRun(Next(s, ReadGeneration(reader, id, HC.Detail)), around.first)
    && atRead == After(Next(s, ReadGeneration(reader, id, HC.Detail)), around.first)
    && Untouched(atRead, reader, GotGeneration(id, HC.Detail, HC.GenerationOf(s.cache, id)))
    && (id in atRead.tables.videos ==>
          && CanRun(Next(atRead, ReadRow(reader)), around.second)
          && atFill == After(Next(atRead, ReadRow(reader)), around.second)
          && Untouched(atFill, reader, GotRow(id, HC.Detail, HC.GenerationOf(s.cache, id), atRead.tables.videos[id])))
  }

  lemma {:induction false} RunMore(s: State, a: seq<Step>, b: seq<Step>)
    requires CanRun(s, a) && CanRun(After(s, a), b)
    ensures CanRun(s, a + b) && After(s, a + b) == After(After(s, a), b)
    decreases |a|
  {
    if a == [] {
      assert a + b == b;
    } else {
      assert (a + b)[0] == a[0] && (a + b)[1..] == a[1..] + b;
      RunMore(Next(s, a[0]), a[1..], b);
    }
  }

  lemma ThenRun(s: State, step: Step, more: seq<Step>)
    requires Enabled(s, step) && CanRun(Next(s, step), more)
    ensures CanRun(s, [step] + more) && After(s, [step] + more) == After(Next(s, step), more)
  {
    assert ([step] + more)[0] == step && ([step] + more)[1..] == more;
  }

  /** A load of a detail row among everybody else's steps is a reader's run through the pipeline: what it
      leaves in the cache is what its Fill step leaves, so the coherence of every run is the load's. */
  method LoadRow(cache: HC.Cache, id: nat, fails: bool, read: VideoDetail.Scene, fill: VideoDetail.Scene,
                 ghost s: State, ghost reader: nat, ghost around: Around, ghost atRead: State, ghost atFill: State)
    returns (answer: VideoDetail.Answer, ghost run: seq<Step>)
    requires s.cache == cache.Rows() && Moments(s, reader, id, around, atRead, atFill)
    requires read == VideoDetail.Scene(atRead.cache, atRead.tables.videos)
    requires id in read.videos ==> fill == VideoDetail.Scene(atFill.cache, atFill.tables.videos)
    modifies cache
    ensures CanRun(s, run) && After(s, run).cache == cache.Rows()
    ensures answer == if id in atRead.tables.videos then VideoDetail.Found(atRead.tables.videos[id]) else VideoDetail.NotFound
  {
    answer := VideoDetail.LoadAmong(cache, id, false, fails, read, fill);
    run := LoadSteps(s, reader, id, fails, around, atRead, atFill);
  }

  lemma LoadSteps(s: State, reader: nat, id: nat, fails: bool, around: Around, atRead: State, atFill: State) returns (run: seq<Step>)
    requires Moments(s, reader, id, around, atRead, atFill)
    ensures CanRun(s, run)
    ensures After(s, run).cache
         == if id !in atRead.tables.videos then atRead.cache
            else if fails then atFill.cache
            else HC.AfterFill(atFill.cache, HC.Detail, id, HC.GenerationOf(s.cache, id), atRead.tables.videos[id])
  {
    var begin := ReadGeneration(reader, id, HC.Detail);
    ThenRun(s, begin, around.first);
    run := [begin] + around.first;
    if id in atRead.tables.videos {
      ThenRun(atRead, ReadRow(reader), around.second);
      RunMore(s, run, [ReadRow(reader)] + around.second);
      run := run + ([ReadRow(reader)] + around.second);
      if !fails {
        RunOneMore(s, run, Fill(reader));
        run := run + [Fill(reader)];
      }
    }
  }
}
