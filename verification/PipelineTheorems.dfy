/** The main results about every run of the interaction pipeline, from empty stores on. */
module PipelineTheorems {
  import opened Ranking
  import opened InteractionStore
  import opened InteractionPipeline
  import opened CacheCoherence
  import HC = HeatCache

  // ---------------------------------------------------------------- both stores, replayed

  /** The database is what its deliveries, in their order, make of empty tables. */
  ghost predicate StoreReplays(videos: set<nat>, s: State) {
    s.tables == Run(EmptyTables(videos), s.consumes)
  }

  lemma ConsumeReplays(videos: set<nat>, s: State, d: Delivery, id: nat)
    requires StoreReplays(videos, s)
    ensures StoreReplays(videos, Consumed(s, d, id))
  {
    RunAppend(EmptyTables(videos), s.consumes, [d]);
    assert [d][1..] == [];
  }

  /** The heat in Redis is what its deliveries and the clock make of an empty Redis. */
  ghost predicate HeatReplays(s: State) {
    && s.heat == HC.Run(HC.FRESH, s.heatTrace)
    && OnlyEmitted(s.heatTrace, s.tables.outbox)
  }

  lemma RunOneMore(trace: seq<HC.Step>, last: HC.Step)
    ensures HC.Run(HC.FRESH, trace + [last]) == HC.Next(HC.Run(HC.FRESH, trace), last)
  {
    assert (trace + [last])[..|trace|] == trace;
  }

  ghost predicate OnlyEmitted(trace: seq<HC.Step>, log: seq<Heat>) {
    forall i :: 0 <= i < |trace| && trace[i].Deliver? ==> trace[i].heat in log
  }

  lemma OneMoreEmitted(trace: seq<HC.Step>, log: seq<Heat>, last: HC.Step)
    requires OnlyEmitted(trace, log) && (last.Deliver? ==> last.heat in log)
    ensures OnlyEmitted(trace + [last], log)
  {
  }

  lemma ApplyReplays(s: State, h: Heat, token: string)
    requires HeatReplays(s) && h in s.tables.outbox
    ensures HeatReplays(Applied(s, h, token))
  {
    RunOneMore(s.heatTrace, HC.Deliver(h));
    OneMoreEmitted(s.heatTrace, s.tables.outbox, HC.Deliver(h));
  }

  lemma TickReplays(s: State, ms: nat)
    requires HeatReplays(s)
    ensures HeatReplays(Next(s, Tick(ms)))
  {
    RunOneMore(s.heatTrace, HC.Tick(ms));
    OneMoreEmitted(s.heatTrace, s.tables.outbox, HC.Tick(ms));
  }

  lemma OneBody(s: State)
    requires HeatReplays(s) && HeatIsKeyed(s.tables)
    ensures HC.OneBodyPerId(s.heatTrace)
  {
    forall i, j | 0 <= i < |s.heatTrace| && 0 <= j < |s.heatTrace| && s.heatTrace[i].Deliver? && s.heatTrace[j].Deliver?
      ensures s.heatTrace[i].heat.id == s.heatTrace[j].heat.id ==> s.heatTrace[i].heat == s.heatTrace[j].heat
    {
      var a, b := s.heatTrace[i].heat, s.heatTrace[j].heat;
      var p :| 0 <= p < |s.tables.outbox| && s.tables.outbox[p] == a;
      var q :| 0 <= q < |s.tables.outbox| && s.tables.outbox[q] == b;
      assert p == q || a.id != b.id;
    }
  }

  ghost predicate Replays(videos: set<nat>, s: State) {
    StoreReplays(videos, s) && HeatReplays(s)
  }

  /** Readers and evictions leave the heat and the database alone. */
  lemma ReaderFrame(s: State, step: Step)
    requires Enabled(s, step) && AtRedis(step) && !step.Apply? && !step.Tick?
    ensures var s' := Next(s, step);
            s'.heat == s.heat && s'.tables == s.tables && s'.consumes == s.consumes && s'.heatTrace == s.heatTrace
  {
  }

  lemma ConsumeKeepsHeatReplay(s: State, d: Delivery, id: nat)
    requires HeatReplays(s) && Balanced(s.tables)
    ensures HeatReplays(Consumed(s, d, id))
  {
    AttemptEmits(s.tables, d);
    var before, after := s.tables.outbox, Attempt(s.tables, d).tables.outbox;
    forall h | h in before ensures h in after {
      var i :| 0 <= i < |before| && before[i] == h;
      assert after[..|before|][i] == h;
    }
  }

  lemma StepReplays(videos: set<nat>, s: State, step: Step)
    requires StoreInv(s) && PlacesInv(s) && Replays(videos, s) && Enabled(s, step)
    ensures Replays(videos, Next(s, step))
  {
    match step {
      case Consume(e, row, struck, id) =>
        ConsumeReplays(videos, s, Delivery(e, row, struck), id);
        ConsumeKeepsHeatReplay(s, Delivery(e, row, struck), id);
      case Apply(h, token) =>
        assert AtBroker(s, HeatMsg(h));
        ApplyReplays(s, h, token);
      case Tick(ms) => TickReplays(s, ms);
      case _ =>
        if AtRedis(step) {
          ReaderFrame(s, step);
        } else {
          RelayFrame(s, step);
        }
    }
  }

  // ---------------------------------------------------------------- every reachable state

  ghost predicate Inv(videos: set<nat>, s: State) {
    StoreInv(s) && PlacesInv(s) && CacheInv(s) && Replays(videos, s)
  }

  lemma InitInv(videos: set<nat>)
    ensures Inv(videos, Init(videos))
  {
    var s := Init(videos);
    forall v | v in s.tables.videos ensures LikeRows(s.tables, v) == {} {
    }
  }

  lemma {:induction false} RunKeepsInv(videos: set<nat>, s: State, run: seq<Step>)
    requires Inv(videos, s) && CanRun(s, run)
    ensures Inv(videos, After(s, run))
    decreases |run|
  {
    if run != [] {
      StepKeepsStore(s, run[0]);
      StepKeepsPlaces(s, run[0]);
      StepKeepsCache(s, run[0]);
      StepReplays(videos, s, run[0]);
      RunKeepsInv(videos, Next(s, run[0]), run[1..]);
    }
  }

  ghost predicate Reachable(videos: set<nat>, s: State) {
    exists run :: CanRun(Init(videos), run) && After(Init(videos), run) == s
  }

  lemma ReachableInv(videos: set<nat>, s: State)
    requires Reachable(videos, s)
    ensures Inv(videos, s)
  {
    var run :| CanRun(Init(videos), run) && After(Init(videos), run) == s;
    InitInv(videos);
    RunKeepsInv(videos, Init(videos), run);
  }

  // ---------------------------------------------------------------- results

  /** No loss: every accepted interaction and every heat event is in the outbox, at the broker, with
      a consumer, done or dead-lettered; and a claimed row whose publish was acknowledged, the only
      kind a poller deletes, is already past the outbox. */
  lemma NothingIsLost(videos: set<nat>, s: State)
    requires Reachable(videos, s)
    ensures forall e :: e in s.accepted ==> Somewhere(s, Interaction(e))
    ensures forall h :: h in s.tables.outbox ==> Somewhere(s, HeatMsg(h))
    ensures forall id :: Enabled(s, Delete(id)) ==> Relayed(s, s.rows[id])
  {
    ReachableInv(videos, s);
    forall e | e in s.accepted ensures Somewhere(s, Interaction(e)) {
      assert Entered(s, Interaction(e));
    }
    forall h | h in s.tables.outbox ensures Somewhere(s, HeatMsg(h)) {
      assert Entered(s, HeatMsg(h));
    }
  }

  /** The database has the effects of distinct events, each once, in the order they first committed. */
  lemma EffectsAreExactlyOnce(videos: set<nat>, s: State)
    requires Reachable(videos, s)
    ensures s.tables == Raw(EmptyTables(videos), Kept(EmptyTables(videos), s.consumes))
    ensures DistinctEvents(Kept(EmptyTables(videos), s.consumes))
  {
    ReachableInv(videos, s);
    ExactlyOnce(EmptyTables(videos), s.consumes);
  }

  /** Heat of the given IDs. */
  function HeatWhere(log: seq<Heat>, video: nat, ids: set<string>): int {
    if log == [] then 0
    else
      var h := log[|log| - 1];
      HeatWhere(log[..|log| - 1], video, ids) + (if h.video == video && h.id in ids then h.change else 0)
  }

  lemma {:induction false} HeatSplits(log: seq<Heat>, video: nat, a: set<string>, b: set<string>, c: set<string>)
    requires a !! b && a !! c && b !! c && forall h :: h in log ==> h.id in a + b + c
    ensures HeatSum(log, video) == HeatWhere(log, video, a) + HeatWhere(log, video, b) + HeatWhere(log, video, c)
  {
    if log != [] {
      var front, h := log[..|log| - 1], log[|log| - 1];
      assert log == front + [h];
      HeatSplits(front, video, a, b, c);
      assert h in log;
    }
  }

  function DeadHeat(s: State): set<string> {
    (set m | m in s.dead && m.HeatMsg? :: m.heat.id) - s.applied
  }

  function WaitingHeat(s: State): set<string> {
    (set h | h in s.tables.outbox :: h.id) - s.applied - DeadHeat(s)
  }

  /** Conservation: popularity is the heat applied, dead-lettered and still waiting, and what waits
      is in the outbox, at the broker or with a consumer. */
  lemma HeatAddsUp(videos: set<nat>, s: State, video: nat)
    requires Reachable(videos, s) && video in s.tables.videos
    ensures s.tables.videos[video].popularity
         == HeatWhere(s.tables.outbox, video, s.applied)
            + HeatWhere(s.tables.outbox, video, DeadHeat(s))
            + HeatWhere(s.tables.outbox, video, WaitingHeat(s))
    ensures forall h :: h in s.tables.outbox && h.id in WaitingHeat(s) ==>
              HeatMsg(h) in s.rows.Values || HeatMsg(h) in s.broker || HeatMsg(h) in s.inFlight
  {
    ReachableInv(videos, s);
    HeatSplits(s.tables.outbox, video, s.applied, DeadHeat(s), WaitingHeat(s));
    forall h | h in s.tables.outbox && h.id in WaitingHeat(s)
      ensures HeatMsg(h) in s.rows.Values || HeatMsg(h) in s.broker || HeatMsg(h) in s.inFlight
    {
      assert Entered(s, HeatMsg(h));
    }
  }

  ghost predicate CachedIn(s: State, video: nat, row: Counts) {
    || (video in s.cache.details && s.cache.details[video] == row)
    || (video in s.cache.entities && s.cache.entities[video] == row)
  }

  lemma {:induction false} UnchangedSince(s: State, n: nat, video: nat)
    requires StoreInv(s) && n <= |s.tables.outbox| && video in s.tables.videos
    requires forall i :: n <= i < |s.tables.outbox| ==> s.tables.outbox[i].video != video
    ensures s.history[n][video] == s.tables.videos[video]
    decreases |s.tables.outbox| - n
  {
    if n < |s.tables.outbox| {
      UnchangedSince(s, n + 1, video);
    }
  }

  /** Coherence: a cached row of either key reflects every commit whose heat Redis has applied,
      however late its reader filled it. */
  lemma CachedRowsAreCovered(videos: set<nat>, s: State, video: nat, row: Counts)
    requires Reachable(videos, s) && CachedIn(s, video, row)
    ensures Covers(FactsOf(s), video, row)
  {
    ReachableInv(videos, s);
  }

  /** Once no heat of a video is pending, its cached counters are those of the database. */
  lemma QuietRowsAreExact(videos: set<nat>, s: State, video: nat, row: Counts)
    requires Reachable(videos, s) && CachedIn(s, video, row)
    requires forall h :: h in s.tables.outbox && h.video == video ==> h.id in s.applied
    ensures video in s.tables.videos && row == s.tables.videos[video]
  {
    ReachableInv(videos, s);
    CachedRowsAreCovered(videos, s, video, row);
    var n: nat :| CoversAt(FactsOf(s), n, video, row);
    assert s.history[n].Keys == s.tables.videos.Keys;
    UnchangedSince(s, n, video);
  }

  /** Every live minute bucket holds the distinct heat of its minute that arrived in time. */
  lemma BucketsAreExactlyOnce(videos: set<nat>, s: State, minute: nat, video: nat)
    requires Reachable(videos, s) && HC.Alive(s.heat.now, HC.Deadline(minute))
    ensures HC.Score(s.heat, minute, video) == HC.HeatIn(HC.Effective(0, s.heatTrace), minute, video)
  {
    ReachableInv(videos, s);
    OneBody(s);
    assert HC.HeatInv(HC.FRESH, []);
    HC.HeatInvHolds(HC.FRESH, s.heatTrace);
  }
}
