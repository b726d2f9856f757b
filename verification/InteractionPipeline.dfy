/** The whole path of a like or comment as one step system: accepted into the outbox, relayed by
    concurrent pollers to an at-least-once broker, consumed in a database transaction that emits
    heat, and the heat relayed the same way to Redis, while readers fill the row caches and a clock
    runs.  Any step may happen whenever it is enabled; a crash of a poller is Release, of a
    consumer Requeue (before or after its transaction), of a reader Abandon.
 */
module InteractionPipeline {
  import opened Ranking
  import opened InteractionStore
  import HC = HeatCache

  datatype Msg = Interaction(event: Event) | HeatMsg(heat: Heat)

  /** A reader of one video row: it captures the generation, then reads the database, then fills. */
  datatype Reader =
    | GotGeneration(video: nat, tier: HC.Tier, generation: string)
    | GotRow(video: nat, tier: HC.Tier, generation: string, row: Counts)

  /** Besides the stores: what was accepted, the heat IDs Redis has applied, the tokens drawn so far,
      the videos table after every heat event, and the deliveries made to the database and Redis.
      tables.outbox lists all heat ever enqueued; the rows still waiting are in `rows`. */
  datatype State = State(
    tables: Tables,
    rows: map<nat, Msg>,
    claims: map<nat, bool>,
    broker: multiset<Msg>,
    inFlight: multiset<Msg>,
    dead: set<Msg>,
    heat: HC.HeatKeys,
    cache: HC.RowKeys,
    readers: map<nat, Reader>,
    accepted: set<Event>,
    applied: set<string>,
    tokens: set<string>,
    history: seq<map<nat, Counts>>,
    consumes: seq<Delivery>,
    heatTrace: seq<HC.Step>)

  datatype Step =
    | Accept(id: nat, event: Event)
    | Claim(id: nat)
    | Send(id: nat, queued: bool, acknowledged: bool)
    | Delete(id: nat)
    | Release(id: nat)
    | Deliver(m: Msg)
    | Requeue(m: Msg)
    | DeadLetter(m: Msg)
    | Ack(m: Msg)
    | Consume(event: Event, row: nat, struck: bool, id: nat)
    | Apply(heat: Heat, token: string)
    | ReadGeneration(reader: nat, video: nat, tier: HC.Tier)
    | ReadRow(reader: nat)
    | Fill(reader: nat)
    | Abandon(reader: nat)
    | Evict(tier: HC.Tier, video: nat)
    | Tick(ms: nat)

  /** A message its consumer may acknowledge. */
  predicate Done(s: State, m: Msg) {
    match m
    case Interaction(e) => Settled(s.tables, e)
    case HeatMsg(h) => h.id in s.applied
  }

  predicate Enabled(s: State, step: Step) {
    match step
    case Accept(id, _) => id !in s.rows
    case Claim(id) => id in s.rows && id !in s.claims
    case Send(id, queued, acknowledged) => id in s.rows && id in s.claims && (acknowledged ==> queued)
    case Delete(id) => id in s.rows && id in s.claims && s.claims[id]
    case Release(id) => id in s.claims
    case Deliver(m) => m in s.broker
    case Requeue(m) => m in s.inFlight
    case DeadLetter(m) => m in s.inFlight
    case Ack(m) => m in s.inFlight && Done(s, m)
    case Consume(e, _, _, id) => Interaction(e) in s.inFlight && id !in s.rows
    case Apply(h, token) => HeatMsg(h) in s.inFlight && token !in s.tokens && token != ""
    case ReadGeneration(reader, video, _) => reader !in s.readers
    case ReadRow(reader) =>
      reader in s.readers && s.readers[reader].GotGeneration? && s.readers[reader].video in s.tables.videos
    case Fill(reader) => reader in s.readers && s.readers[reader].GotRow?
    case Abandon(reader) => reader in s.readers
    case Evict(_, _) => true
    case Tick(_) => true
  }

  function Next(s: State, step: Step): State
    requires Enabled(s, step)
  {
    match step
    case Accept(id, e) => s.(rows := s.rows[id := Interaction(e)], accepted := s.accepted + {e})
    case Claim(id) => s.(claims := s.claims[id := false])
    case Send(id, queued, acknowledged) =>
      s.(broker := if queued then s.broker + multiset{s.rows[id]} else s.broker,
         claims := if acknowledged then s.claims[id := true] else s.claims)
    case Delete(id) => s.(rows := s.rows - {id}, claims := s.claims - {id})
    case Release(id) => s.(claims := s.claims - {id})
    case Deliver(m) => s.(broker := s.broker - multiset{m}, inFlight := s.inFlight + multiset{m})
    case Requeue(m) => s.(inFlight := s.inFlight - multiset{m}, broker := s.broker + multiset{m})
    case DeadLetter(m) => s.(inFlight := s.inFlight - multiset{m}, dead := s.dead + {m})
    case Ack(m) => s.(inFlight := s.inFlight - multiset{m})
    case Consume(e, row, struck, id) =>
      Consumed(s, Delivery(e, row, struck), id)
    case Apply(h, token) => Applied(s, h, token)
    case ReadGeneration(reader, video, tier) =>
      s.(readers := s.readers[reader := GotGeneration(video, tier, HC.GenerationOf(s.cache, video))])
    case ReadRow(reader) =>
      var r := s.readers[reader];
      s.(readers := s.readers[reader := GotRow(r.video, r.tier, r.generation, s.tables.videos[r.video])])
    case Fill(reader) =>
      var r := s.readers[reader];
      s.(cache := HC.AfterFill(s.cache, r.tier, r.video, r.generation, r.row),
         readers := s.readers - {reader})
    case Abandon(reader) => s.(readers := s.readers - {reader})
    case Evict(tier, video) =>
      s.(cache := if tier.Detail? then s.cache.(details := s.cache.details - {video})
                  else s.cache.(entities := s.cache.entities - {video}))
    case Tick(ms) =>
      s.(heat := s.heat.(now := s.heat.now + ms), heatTrace := s.heatTrace + [HC.Tick(ms)])
  }

  /** One transaction; heat it enqueues becomes an outbox row and a new version of the table. */
  function Consumed(s: State, d: Delivery, id: nat): State {
    var after := Attempt(s.tables, d).tables;
    var s' := s.(tables := after, consumes := s.consumes + [d]);
    if |after.outbox| <= |s.tables.outbox| then s'
    else s'.(rows := s.rows[id := HeatMsg(after.outbox[|after.outbox| - 1])],
             history := s.history + [after.videos])
  }

  /** The script: heat is added at most once, and the generation moves on whenever it says applied. */
  function Applied(s: State, h: Heat, token: string): State {
    var s' := s.(heat := HC.AfterHeat(s.heat, h), tokens := s.tokens + {token}, heatTrace := s.heatTrace + [HC.Deliver(h)]);
    if HC.VerdictOn(s.heat, h).Applied?
    then s'.(cache := HC.Invalidated(s.cache, h.video, token), applied := s.applied + {h.id})
    else s'
  }

  function EmptyTables(videos: set<nat>): Tables {
    Tables(map v | v in videos :: Counts(0, 0), map[], map[], {}, [])
  }

  function Init(videos: set<nat>): State {
    var t := EmptyTables(videos);
    State(t, map[], map[], multiset{}, multiset{}, {}, HC.FRESH, HC.NO_ROWS, map[], {}, {}, {}, [t.videos], [], [])
  }

  ghost predicate CanRun(s: State, run: seq<Step>)
    decreases |run|
  {
    run == [] || (Enabled(s, run[0]) && CanRun(Next(s, run[0]), run[1..]))
  }

  ghost function After(s: State, run: seq<Step>): State
    requires CanRun(s, run)
    decreases |run|
  {
    if run == [] then s else After(Next(s, run[0]), run[1..])
  }

  // ---------------------------------------------------------------- the database and its history

  /** Version i + 1 of the table differs from version i only in the row of heat event i. */
  ghost predicate Versioned(history: seq<map<nat, Counts>>, log: seq<Heat>, videos: map<nat, Counts>) {
    && |history| == |log| + 1
    && history[|log|] == videos
    && (forall i :: 0 <= i <= |log| ==> history[i].Keys == videos.Keys)
    && (forall i, v :: 0 <= i < |log| && v in videos && v != log[i].video ==> history[i][v] == history[i + 1][v])
  }

  predicate Sound(h: Heat) {
    !HC.Malformed(h)
  }

  /** Counters are exact, and popularity is the sum of all heat. */
  ghost predicate Balanced(t: Tables) {
    forall v :: v in t.videos ==>
                  && t.videos[v].popularity >= |LikeRows(t, v)|
                  && Counted(t, v, t.videos[v].popularity - |LikeRows(t, v)|)
                  && t.videos[v].popularity == HeatSum(t.outbox, v)
  }

  ghost predicate StoreInv(s: State) {
    && Versioned(s.history, s.tables.outbox, s.tables.videos)
    && HeatIsKeyed(s.tables)
    && (forall i :: 0 <= i < |s.tables.outbox| ==> Sound(s.tables.outbox[i]))
    && Balanced(s.tables)
  }

  lemma EffectKeepsBalanced(t: Tables, e: Event, row: nat)
    requires !Refused(e) && Effect(t, e, row).Some? && Balanced(t)
    ensures Balanced(Effect(t, e, row).value)
  {
    var after := Effect(t, e, row).value;
    forall v | v in after.videos
      ensures && after.videos[v].popularity >= |LikeRows(after, v)|
              && Counted(after, v, after.videos[v].popularity - |LikeRows(after, v)|)
              && after.videos[v].popularity == HeatSum(after.outbox, v)
    {
      EffectKeepsInbox(t, e, row);
      var published := t.videos[v].popularity - |LikeRows(t, v)|;
      EffectKeepsCounted(t, e, row, v, published);
      EffectConservesHeat(t, e, row, v, published);
    }
  }

  lemma EffectEmits(t: Tables, e: Event, row: nat)
    requires !Refused(e) && Effect(t, e, row).Some? && Balanced(t)
    ensures var after := Effect(t, e, row).value;
            if after.outbox == t.outbox then after.videos == t.videos
            else |after.outbox| == |t.outbox| + 1 && after.outbox[..|t.outbox|] == t.outbox
                 && Sound(after.outbox[|t.outbox|])
                 && after.videos.Keys == t.videos.Keys
                 && forall v :: v in t.videos && v != after.outbox[|t.outbox|].video ==> after.videos[v] == t.videos[v]
  {
    var after := Effect(t, e, row).value;
    EffectKeepsInbox(t, e, row);
    var published := if e.video in t.videos then t.videos[e.video].popularity - |LikeRows(t, e.video)| else 0;
    HeatFollowsChange(t, e, row, published);
  }

  lemma BegunIsBalanced(t: Tables, key: string)
    requires Balanced(t)
    ensures Balanced(t.(consumed := t.consumed + {key}))
  {
    var begun := t.(consumed := t.consumed + {key});
    assert forall v :: LikeRows(begun, v) == LikeRows(t, v);
  }

  lemma HistoryGrows(history: seq<map<nat, Counts>>, log: seq<Heat>, videos: map<nat, Counts>, h: Heat, after: map<nat, Counts>)
    requires Versioned(history, log, videos)
    requires after.Keys == videos.Keys && forall v :: v in videos && v != h.video ==> after[v] == videos[v]
    ensures Versioned(history + [after], log + [h], after)
  {
    var longer := log + [h];
    forall i, v | 0 <= i < |longer| && v in after && v != longer[i].video
      ensures (history + [after])[i][v] == (history + [after])[i + 1][v]
    {
      if i < |log| {
        assert longer[i] == log[i];
      }
    }
  }

  /** What a transaction leaves: the same counters and heat, or one heat event more. */
  lemma AttemptEmits(t: Tables, d: Delivery)
    requires Balanced(t)
    ensures var after := Attempt(t, d).tables;
            Balanced(after)
            && if |after.outbox| <= |t.outbox| then after.outbox == t.outbox && after.videos == t.videos
               else |after.outbox| == |t.outbox| + 1 && after.outbox[..|t.outbox|] == t.outbox
                    && Sound(after.outbox[|t.outbox|])
                    && after.videos.Keys == t.videos.Keys
                    && forall v :: v in t.videos && v != after.outbox[|t.outbox|].video ==> after.videos[v] == t.videos[v]
  {
    if Attempt(t, d).outcome.Committed? {
      var begun := t.(consumed := t.consumed + {EventKey(d.event)});
      BegunIsBalanced(t, EventKey(d.event));
      EffectEmits(begun, d.event, d.row);
      EffectKeepsBalanced(begun, d.event, d.row);
    } else {
      CommittedStep(t, d);
    }
  }

  lemma ConsumeKeepsStore(s: State, d: Delivery, id: nat)
    requires StoreInv(s)
    ensures StoreInv(Consumed(s, d, id))
  {
    AttemptKeepsHeatKeyed(s.tables, d);
    AttemptEmits(s.tables, d);
    var after := Attempt(s.tables, d).tables;
    if |after.outbox| > |s.tables.outbox| {
      var h := after.outbox[|s.tables.outbox|];
      assert after.outbox == s.tables.outbox + [h];
      HistoryGrows(s.history, s.tables.outbox, s.tables.videos, h, after.videos);
    }
  }

  // ---------------------------------------------------------------- nothing is lost

  /** Past the outbox: at the broker, with a consumer, done or dead-lettered. */
  ghost predicate Relayed(s: State, m: Msg) {
    AtBroker(s, m) || Done(s, m)
  }

  ghost predicate AtBroker(s: State, m: Msg) {
    m in s.broker || m in s.inFlight || m in s.dead
  }

  ghost predicate Somewhere(s: State, m: Msg) {
    m in s.rows.Values || Relayed(s, m)
  }

  /** What has entered the pipeline so far. */
  predicate Entered(s: State, m: Msg) {
    match m
    case Interaction(e) => e in s.accepted
    case HeatMsg(h) => h in s.tables.outbox
  }

  ghost predicate PlacesInv(s: State) {
    && (forall m: Msg :: Entered(s, m) ==> Somewhere(s, m))
    && (forall id :: id in s.claims ==> id in s.rows && (s.claims[id] ==> Relayed(s, s.rows[id])))
    && (forall id :: id in s.rows ==> Entered(s, s.rows[id]))
    && (forall m: Msg :: AtBroker(s, m) ==> Entered(s, m))
  }

  /** No message leaves the broker side undone, and none appears there. */
  lemma BrokerCarries(s: State, step: Step, m: Msg)
    requires Enabled(s, step)
    requires step.Deliver? || step.Requeue? || step.DeadLetter? || step.Ack?
    ensures Relayed(s, m) ==> Relayed(Next(s, step), m)
    ensures AtBroker(Next(s, step), m) ==> AtBroker(s, m)
  {
    var s' := Next(s, step);
    assert Done(s', m) == Done(s, m);
    if m != step.m {
      assert (m in s'.broker <==> m in s.broker) && (m in s'.inFlight <==> m in s.inFlight);
    }
  }

  /** A message stays past the outbox, arrives at the broker only from there, and stays entered;
      only the newcomer may enter. */
  ghost predicate Follows(s: State, s': State, newcomer: Option<Msg>, m: Msg) {
    && (Relayed(s, m) ==> Relayed(s', m))
    && (AtBroker(s', m) ==> AtBroker(s, m))
    && (Entered(s, m) ==> Entered(s', m))
    && (Entered(s', m) && !Entered(s, m) ==> newcomer == Some(m))
  }

  /** A step that leaves the outbox as it is, or adds one row for one new message. */
  lemma PlacesFollow(s: State, s': State, id: nat, newcomer: Option<Msg>)
    requires PlacesInv(s) && s'.claims == s.claims
    requires forall m: Msg :: Follows(s, s', newcomer, m)
    requires newcomer.None? ==> s'.rows == s.rows
    requires newcomer.Some? ==> id !in s.rows && s'.rows == s.rows[id := newcomer.value] && Entered(s', newcomer.value)
    ensures PlacesInv(s')
  {
    forall m: Msg | Entered(s', m) ensures Somewhere(s', m) {
      assert Follows(s, s', newcomer, m);
      if Entered(s, m) && m in s.rows.Values {
        var k :| k in s.rows && s.rows[k] == m;
        assert s'.rows[k] == m;
      } else if !Entered(s, m) {
        assert s'.rows[id] == m;
      }
    }
    forall m: Msg | AtBroker(s', m) ensures Entered(s', m) {
      assert Follows(s, s', newcomer, m);
    }
    forall k | k in s'.claims ensures k in s'.rows && (s'.claims[k] ==> Relayed(s', s'.rows[k])) {
      assert Follows(s, s', newcomer, s.rows[k]);
    }
    forall k | k in s'.rows ensures Entered(s', s'.rows[k]) {
      assert Follows(s, s', newcomer, s'.rows[k]);
    }
  }

  lemma AcceptKeepsPlaces(s: State, id: nat, e: Event)
    requires PlacesInv(s) && id !in s.rows
    ensures PlacesInv(Next(s, Accept(id, e)))
  {
    PlacesFollow(s, Next(s, Accept(id, e)), id, Some(Interaction(e)));
  }

  /** What a poller does with a row it has claimed, short of deleting it. */
  lemma ClaimKeepsPlaces(s: State, step: Step)
    requires PlacesInv(s) && Enabled(s, step)
    requires step.Claim? || step.Send? || step.Release?
    ensures PlacesInv(Next(s, step))
  {
    var s' := Next(s, step);
    forall m: Msg
      ensures Entered(s', m) == Entered(s, m) && (Relayed(s, m) ==> Relayed(s', m))
      ensures AtBroker(s', m) ==> AtBroker(s, m) || (step.Send? && m == s.rows[step.id])
    {
    }
    forall m: Msg | Entered(s', m) ensures Somewhere(s', m) {
      assert Somewhere(s, m);
    }
  }

  lemma DeleteKeepsPlaces(s: State, id: nat)
    requires PlacesInv(s) && Enabled(s, Delete(id))
    ensures PlacesInv(Next(s, Delete(id)))
  {
    var s' := Next(s, Delete(id));
    forall m: Msg ensures Entered(s', m) == Entered(s, m) && Relayed(s', m) == Relayed(s, m) {
    }
    forall m: Msg | Entered(s', m) ensures Somewhere(s', m) {
      if m in s.rows.Values {
        var k :| k in s.rows && s.rows[k] == m;
        assert k == id || s'.rows[k] == m;
      }
    }
  }

  lemma BrokerKeepsPlaces(s: State, step: Step)
    requires PlacesInv(s) && Enabled(s, step)
    requires step.Deliver? || step.Requeue? || step.DeadLetter? || step.Ack?
    ensures PlacesInv(Next(s, step))
  {
    var s' := Next(s, step);
    forall m: Msg ensures Follows(s, s', None, m) {
      BrokerCarries(s, step, m);
    }
    PlacesFollow(s, s', 0, None);
  }

  function Newcomer(s: State, d: Delivery): Option<Msg> {
    var after := Attempt(s.tables, d).tables.outbox;
    if |after| > |s.tables.outbox| then Some(HeatMsg(after[|after| - 1])) else None
  }

  lemma ConsumeCarries(s: State, d: Delivery, id: nat, m: Msg)
    requires Balanced(s.tables)
    ensures Follows(s, Consumed(s, d, id), Newcomer(s, d), m)
  {
    AttemptEmits(s.tables, d);
    CommittedStep(s.tables, d);
    var before, after := s.tables.outbox, Attempt(s.tables, d).tables.outbox;
    if |after| > |before| {
      assert after == before + [after[|before|]];
    }
  }

  lemma ConsumeKeepsPlaces(s: State, d: Delivery, id: nat)
    requires Balanced(s.tables) && PlacesInv(s) && id !in s.rows
    ensures PlacesInv(Consumed(s, d, id))
  {
    var s' := Consumed(s, d, id);
    forall m: Msg ensures Follows(s, s', Newcomer(s, d), m) {
      ConsumeCarries(s, d, id, m);
    }
    PlacesFollow(s, s', id, Newcomer(s, d));
  }

  /** Steps of readers, of Redis and of the clock. */
  predicate AtRedis(step: Step) {
    step.Apply? || step.ReadGeneration? || step.ReadRow? || step.Fill? || step.Abandon? || step.Evict? || step.Tick?
  }

  lemma RedisFrame(s: State, step: Step)
    requires Enabled(s, step) && AtRedis(step)
    ensures var s' := Next(s, step);
            && s'.rows == s.rows && s'.claims == s.claims && s'.tables == s.tables && s'.accepted == s.accepted
            && s'.broker == s.broker && s'.inFlight == s.inFlight && s'.dead == s.dead && s.applied <= s'.applied
  {
  }

  lemma RedisKeepsPlaces(s: State, step: Step)
    requires PlacesInv(s) && Enabled(s, step) && AtRedis(step)
    ensures PlacesInv(Next(s, step))
  {
    var s' := Next(s, step);
    RedisFrame(s, step);
    forall m: Msg ensures Follows(s, s', None, m) {
    }
    PlacesFollow(s, s', 0, None);
  }

  lemma StepKeepsStore(s: State, step: Step)
    requires StoreInv(s) && Enabled(s, step)
    ensures StoreInv(Next(s, step))
  {
    if step.Consume? {
      ConsumeKeepsStore(s, Delivery(step.event, step.row, step.struck), step.id);
    }
  }

  lemma StepKeepsPlaces(s: State, step: Step)
    requires StoreInv(s) && PlacesInv(s) && Enabled(s, step)
    ensures PlacesInv(Next(s, step))
  {
    if step.Consume? {
      ConsumeKeepsPlaces(s, Delivery(step.event, step.row, step.struck), step.id);
    } else if step.Deliver? || step.Requeue? || step.DeadLetter? || step.Ack? {
      BrokerKeepsPlaces(s, step);
    } else if AtRedis(step) {
      RedisKeepsPlaces(s, step);
    } else {
      match step {
        case Accept(id, e) => AcceptKeepsPlaces(s, id, e);
        case Delete(id) => DeleteKeepsPlaces(s, id);
        case _ => ClaimKeepsPlaces(s, step);
      }
    }
  }
}
