/** The Redis side of heat: the script that applies a heat event once, the minute buckets of the
    hot list, and the generation token that guards cached video rows.

    Times count milliseconds from the zero time, and a clock value passes for every key at once:
    a key with deadline D (in seconds) is gone when the clock is past D * 1000, while the script
    takes an event for active when D is greater than the clock's whole seconds.
 */
module HeatCache {
  import opened Ranking
  import opened InteractionStore

  const WINDOW: nat := 60

  function Minute(at: nat): nat {
    at / 60_000
  }

  /** In seconds: two hours after the minute began. */
  function Deadline(minute: nat): nat {
    minute * 60 + 7_200
  }

  predicate Alive(now: nat, deadline: nat) {
    now <= deadline * 1000
  }

  predicate Active(now: nat, minute: nat) {
    Deadline(minute) > now / 1000
  }

  datatype Bucket = Bucket(scores: map<nat, int>, deadline: nat)

  /** A hot list kept for paging; `until` is in milliseconds. */
  datatype Snapshot = Snapshot(scores: map<nat, int>, until: nat)

  /** The keys of the hot list.  Foreign keys hold a value of another type than the script expects. */
  datatype HeatKeys = HeatKeys(
    now: nat,
    marks: map<string, nat>,
    buckets: map<nat, Bucket>,
    foreignMarks: set<string>,
    foreignBuckets: set<nat>,
    snapshots: map<nat, Snapshot>)

  /** The cached rows of the two tiers, and the generation token of every video. */
  datatype RowKeys = RowKeys(generations: map<nat, string>, details: map<nat, Counts>, entities: map<nat, Counts>)

  datatype Verdict = InvalidEvent | TypeError | AlreadySeen | Applied

  predicate Malformed(h: Heat) {
    h.id == "" || h.video == 0 || h.change == 0 || h.at == 0
  }

  predicate Seen(r: HeatKeys, id: string) {
    id in r.marks && Alive(r.now, r.marks[id])
  }

  /** The score of a video in a minute bucket; an expired bucket is an absent one. */
  function Score(r: HeatKeys, minute: nat, video: nat): int {
    ScoreOf(LiveScores(r, minute), video)
  }

  function LiveScores(r: HeatKeys, minute: nat): map<nat, int> {
    if minute in r.buckets && Alive(r.now, r.buckets[minute].deadline) then r.buckets[minute].scores else map[]
  }

  function ScoreOf(scores: map<nat, int>, video: nat): int {
    if video in scores then scores[video] else 0
  }

  function GenerationOf(r: RowKeys, video: nat): string {
    if video in r.generations then r.generations[video] else ""
  }

  function VerdictOn(r: HeatKeys, h: Heat): Verdict {
    if Malformed(h) then InvalidEvent
    else if h.id in r.foreignMarks then TypeError
    else if Seen(r, h.id) then AlreadySeen
    else if Active(r.now, Minute(h.at)) && Minute(h.at) in r.foreignBuckets then TypeError
    else Applied
  }

  /** Heat and its mark are added only while the event's minute is active. */
  function AfterHeat(r: HeatKeys, h: Heat): HeatKeys {
    var minute := Minute(h.at);
    if VerdictOn(r, h) != Applied || !Active(r.now, minute) then r
    else
      var scores := LiveScores(r, minute);
      r.(buckets := r.buckets[minute := Bucket(scores[h.video := ScoreOf(scores, h.video) + h.change], Deadline(minute))],
         marks := r.marks[h.id := Deadline(minute)])
  }

  /** A new generation, and no cached row of either tier. */
  function Invalidated(c: RowKeys, video: nat, token: string): RowKeys {
    RowKeys(c.generations[video := token], c.details - {video}, c.entities - {video})
  }

  datatype Tier = Detail | Entity

  /** A row is stored only if the generation is still the one its reader captured. */
  function AfterFill(c: RowKeys, tier: Tier, video: nat, generation: string, row: Counts): RowKeys {
    if GenerationOf(c, video) != generation then c
    else if tier.Detail? then c.(details := c.details[video := row])
    else c.(entities := c.entities[video := row])
  }

  class Cache {
    var now: nat
    var marks: map<string, nat>
    var buckets: map<nat, Bucket>
    var generations: map<nat, string>
    var details: map<nat, Counts>
    var entities: map<nat, Counts>
    var foreignMarks: set<string>
    var foreignBuckets: set<nat>
    var snapshots: map<nat, Snapshot>

    function View(): HeatKeys
      reads this
    {
      HeatKeys(now, marks, buckets, foreignMarks, foreignBuckets, snapshots)
    }

    function Rows(): RowKeys
      reads this
    {
      RowKeys(generations, details, entities)
    }

    constructor ()
      ensures View() == FRESH && Rows() == NO_ROWS
    {
      now, marks, buckets, generations, details, entities := 0, map[], map[], map[], map[], map[];
      foreignMarks, foreignBuckets, snapshots := {}, {}, map[];
    }

    /** The script, command by command: types are checked before anything is written. */
    method RunScript(h: Heat, token: string) returns (verdict: Verdict)
      modifies this
      ensures verdict == VerdictOn(old(View()), h)
      ensures View() == AfterHeat(old(View()), h)
      ensures Rows() == if verdict.Applied? then Invalidated(old(Rows()), h.video, token) else old(Rows())
    {
      if h.id == "" || h.video == 0 || h.change == 0 || h.at == 0 {
        return InvalidEvent;
      }
      var minute := Minute(h.at);
      if h.id in foreignMarks {
        return TypeError;
      }
      if h.id in marks && Alive(now, marks[h.id]) {
        return AlreadySeen;
      }
      var active := Deadline(minute) > now / 1000;
      if active && minute in foreignBuckets {
        return TypeError;
      }
      Invalidate(h.video, token);
      if active {
        IncrementBy(minute, h.video, h.change);
        buckets := buckets[minute := buckets[minute].(deadline := Deadline(minute))];
        marks := marks[h.id := Deadline(minute)];
      }
      return Applied;
    }

    /** The script, said of the event and the keys alone: which events are refused or seen, and that heat
        goes to the minute it happened in while less than two hours have passed since that minute began. */
    method ApplyPopularity(h: Heat, token: string) returns (verdict: Verdict)
      modifies this
      ensures verdict == VerdictOn(old(View()), h)
      ensures View() == AfterHeat(old(View()), h)
      ensures Rows() == if verdict.Applied? then Invalidated(old(Rows()), h.video, token) else old(Rows())
      ensures verdict.InvalidEvent? <==> h.id == "" || h.video == 0 || h.change == 0 || h.at == 0
      ensures verdict.AlreadySeen? <==>
                && h.id != "" && h.video != 0 && h.change != 0 && h.at != 0
                && h.id !in old(foreignMarks) && h.id in old(marks) && now <= old(marks)[h.id] * 1000
      ensures h.id !in old(foreignMarks) && h.at / 60_000 !in old(foreignBuckets) ==> !verdict.TypeError?
      ensures !verdict.Applied? ==> buckets == old(buckets) && marks == old(marks) && generations == old(generations)
                                    && details == old(details) && entities == old(entities)
      ensures verdict.Applied? ==> generations == old(generations)[h.video := token]
                                   && details == old(details) - {h.video} && entities == old(entities) - {h.video}
      ensures now == old(now) && snapshots == old(snapshots)
      ensures verdict.Applied? && now / 1000 >= h.at / 60_000 * 60 + 7_200 ==> buckets == old(buckets) && marks == old(marks)
      ensures verdict.Applied? && now / 1000 < h.at / 60_000 * 60 + 7_200 ==>
                var m := h.at / 60_000;
                var live := if m in old(buckets) && now <= old(buckets)[m].deadline * 1000 then old(buckets)[m].scores else map[];
                && m * 60_000 <= h.at < (m + 1) * 60_000
                && marks == old(marks)[h.id := m * 60 + 7_200]
                && m in buckets && buckets[m].deadline == m * 60 + 7_200
                && buckets[m].scores == live[h.video := (if h.video in live then live[h.video] else 0) + h.change]
                && buckets == old(buckets)[m := buckets[m]]
    {
      verdict := RunScript(h, token);
    }

    /** A new generation and no cached rows, in one step. */
    method Invalidate(video: nat, token: string)
      modifies this`generations, this`details, this`entities
      ensures Rows() == Invalidated(old(Rows()), video, token)
    {
      generations := generations[video := token];
      details := details - {video};
      entities := entities - {video};
    }

    /** ZINCRBY: an absent or expired bucket starts empty, and keeps its deadline otherwise. */
    method IncrementBy(minute: nat, video: nat, change: int)
      modifies this`buckets
      ensures minute in buckets
      ensures var scores := LiveScores(old(View()), minute);
              buckets[minute].scores == scores[video := ScoreOf(scores, video) + change]
      ensures buckets == old(buckets)[minute := buckets[minute]]
    {
      var bucket := Bucket(map[], 0);
      if minute in buckets && Alive(now, buckets[minute].deadline) {
        bucket := buckets[minute];
      }
      var score := if video in bucket.scores then bucket.scores[video] else 0;
      buckets := buckets[minute := bucket.(scores := bucket.scores[video := score + change])];
    }

    /** An absent token reads as the empty string. */
    method VideoGeneration(video: nat) returns (generation: string)
      ensures generation == GenerationOf(Rows(), video)
    {
      generation := "";
      if video in generations {
        generation := generations[video];
      }
    }

    method SetVideoBytes(tier: Tier, video: nat, generation: string, row: Counts) returns (stored: bool)
      modifies this`details, this`entities
      ensures stored == (GenerationOf(old(Rows()), video) == generation)
      ensures Rows() == AfterFill(old(Rows()), tier, video, generation, row)
    {
      var current := VideoGeneration(video);
      if current != generation {
        return false;
      }
      match tier {
        case Detail => details := details[video := row];
        case Entity => entities := entities[video := row];
      }
      return true;
    }

    /** The snapshot every page of one asOf is cut from, taken by the first request for it and
        kept for two minutes; an empty union stores no key. */
    method HotList(asOf: nat) returns (scores: map<nat, int>)
      modifies this`snapshots
      ensures asOf in old(snapshots) && now <= old(snapshots)[asOf].until ==>
                scores == old(snapshots)[asOf].scores && snapshots == old(snapshots)
      ensures !(asOf in old(snapshots) && now <= old(snapshots)[asOf].until) ==>
                && (forall video :: ScoreOf(scores, video) == WindowScore(old(View()), asOf, video, WINDOW))
                && snapshots == if scores == map[] then old(snapshots) - {asOf}
                                else old(snapshots)[asOf := Snapshot(scores, now + 120_000)]
    {
      if asOf in snapshots && now <= snapshots[asOf].until {
        return snapshots[asOf].scores;
      }
      scores := HotSnapshot(asOf);
      snapshots := if scores == map[] then snapshots - {asOf} else snapshots[asOf := Snapshot(scores, now + 120_000)];
    }

    /** The sum of the minute buckets of the hour that ends at asOf. */
    method HotSnapshot(asOf: nat) returns (union: map<nat, int>)
      ensures forall video :: ScoreOf(union, video) == WindowScore(View(), asOf, video, WINDOW)
    {
      var minutes: seq<int> := [];
      for i := 0 to WINDOW
        invariant |minutes| == i && forall j :: 0 <= j < i ==> minutes[j] == asOf - j
      {
        minutes := minutes + [asOf - i];
      }
      union := map[];
      for i := 0 to |minutes|
        invariant forall video :: ScoreOf(union, video) == WindowScore(View(), asOf, video, i)
      {
        if minutes[i] >= 0 {
          union := AddScores(union, LiveScores(View(), minutes[i]));
        }
        assert forall video :: WindowScore(View(), asOf, video, i + 1)
                 == WindowScore(View(), asOf, video, i) + (if asOf - i >= 0 then Score(View(), asOf - i, video) else 0);
      }
    }
  }

  predicate KeptSnapshot(r: HeatKeys, asOf: nat) {
    asOf in r.snapshots && r.now <= r.snapshots[asOf].until
  }

  /** ZUNIONSTORE with SUM, two sets at a time. */
  function AddScores(a: map<nat, int>, b: map<nat, int>): (sum: map<nat, int>)
    ensures forall video :: ScoreOf(sum, video) == ScoreOf(a, video) + ScoreOf(b, video)
  {
    map video | video in a.Keys + b.Keys :: ScoreOf(a, video) + ScoreOf(b, video)
  }

  /** The video's live scores over the `count` minutes that end at asOf. */
  function WindowScore(r: HeatKeys, asOf: nat, video: nat, count: nat): int {
    if count == 0 then 0
    else WindowScore(r, asOf, video, count - 1)
         + (if asOf >= count - 1 then Score(r, asOf - (count - 1), video) else 0)
  }

  lemma {:induction false} SnapshotsDoNotCount(r: HeatKeys, asOf: nat, video: nat, count: nat)
    ensures WindowScore(r, asOf, video, count) == WindowScore(r.(snapshots := map[]), asOf, video, count)
  {
    if count > 0 {
      SnapshotsDoNotCount(r, asOf, video, count - 1);
    }
  }

  lemma {:induction false} ClockIsNow(start: nat, trace: seq<Step>)
    ensures Run(FRESH.(now := start), trace).now == Clock(start, trace)
    decreases |trace|
  {
    if trace != [] {
      ClockIsNow(start, trace[..|trace| - 1]);
    }
  }

  // ---------------------------------------------------------------- heat over time

  /** Time passes, or an event is delivered. */
  datatype Step = Tick(ms: nat) | Deliver(heat: Heat)

  function Next(r: HeatKeys, s: Step): HeatKeys {
    match s
    case Tick(ms) => r.(now := r.now + ms)
    case Deliver(h) => AfterHeat(r, h)
  }

  function Run(r: HeatKeys, trace: seq<Step>): HeatKeys
    decreases |trace|
  {
    if trace == [] then r else Next(Run(r, trace[..|trace| - 1]), trace[|trace| - 1])
  }

  function Clock(start: nat, trace: seq<Step>): nat
    decreases |trace|
  {
    if trace == [] then start
    else Clock(start, trace[..|trace| - 1])
         + (if trace[|trace| - 1].Tick? then trace[|trace| - 1].ms else 0)
  }

  /** The specification, from the trace and the clock alone: the distinct events, each at its first
      well-formed delivery less than two hours after its minute began. */
  function Effective(start: nat, trace: seq<Step>): seq<Heat>
    decreases |trace|
  {
    if trace == [] then []
    else
      var earlier := Effective(start, trace[..|trace| - 1]);
      var s := trace[|trace| - 1];
      if s.Deliver? && FirstInTime(earlier, Clock(start, trace[..|trace| - 1]), s.heat)
      then earlier + [s.heat] else earlier
  }

  ghost predicate Known(earlier: seq<Heat>, id: string) {
    exists h :: h in earlier && h.id == id
  }

  predicate FirstInTime(earlier: seq<Heat>, now: nat, h: Heat) {
    && h.id != "" && h.video != 0 && h.change != 0 && h.at != 0
    && now < h.at - h.at % 60_000 + 7_200_000
    && forall e :: e in earlier ==> e.id != h.id
  }

  function HeatIn(effective: seq<Heat>, minute: nat, video: nat): int {
    if effective == [] then 0
    else
      var h := effective[|effective| - 1];
      HeatIn(effective[..|effective| - 1], minute, video)
      + (if minute * 60_000 <= h.at < (minute + 1) * 60_000 && h.video == video then h.change else 0)
  }

  /** An event ID determines its event, since the body is stored once and sent as stored. */
  ghost predicate OneBodyPerId(trace: seq<Step>) {
    forall i, j :: 0 <= i < |trace| && 0 <= j < |trace| && trace[i].Deliver? && trace[j].Deliver? ==>
                     trace[i].heat.id == trace[j].heat.id ==> trace[i].heat == trace[j].heat
  }

  /** Nothing but these scripts writes the keys. */
  predicate Untouched(r: HeatKeys) {
    r.foreignMarks == {} && r.foreignBuckets == {}
  }

  ghost predicate MarksMatch(r: HeatKeys, effective: seq<Heat>) {
    && (forall h :: h in effective && Alive(r.now, Deadline(Minute(h.at))) ==>
          h.id in r.marks && r.marks[h.id] == Deadline(Minute(h.at)))
    && (forall id :: Seen(r, id) ==> Known(effective, id))
  }

  ghost predicate BucketsMatch(r: HeatKeys, effective: seq<Heat>) {
    && (forall minute :: minute in r.buckets ==> r.buckets[minute].deadline == Deadline(minute))
    && (forall minute, video :: Alive(r.now, Deadline(minute)) ==>
          Score(r, minute, video) == HeatIn(effective, minute, video))
  }

  ghost predicate HeatInv(r: HeatKeys, effective: seq<Heat>) {
    Untouched(r) && MarksMatch(r, effective) && BucketsMatch(r, effective)
  }

  lemma TickKeepsHeat(r: HeatKeys, ms: nat, effective: seq<Heat>)
    requires HeatInv(r, effective)
    ensures HeatInv(Next(r, Tick(ms)), effective)
  {
    var later := Next(r, Tick(ms));
    forall minute, video | Alive(later.now, Deadline(minute))
      ensures Score(later, minute, video) == HeatIn(effective, minute, video)
    {
      assert Score(r, minute, video) == HeatIn(effective, minute, video);
    }
    assert forall id :: Seen(later, id) ==> Seen(r, id);
  }

  lemma ActiveExactly(now: nat, minute: nat)
    ensures Active(now, minute) <==> now < Deadline(minute) * 1000
  {
  }

  /** An event is seen exactly when it is known and its minute's keys are still alive. */
  lemma SeenExactly(r: HeatKeys, effective: seq<Heat>, h: Heat)
    requires HeatInv(r, effective) && Active(r.now, Minute(h.at))
    requires forall e :: e in effective && e.id == h.id ==> e == h
    ensures Seen(r, h.id) <==> Known(effective, h.id)
  {
    ActiveExactly(r.now, Minute(h.at));
  }

  lemma DeliverKeepsMarks(r: HeatKeys, h: Heat, effective: seq<Heat>)
    requires HeatInv(r, effective)
    requires forall e :: e in effective && e.id == h.id ==> e == h
    ensures MarksMatch(AfterHeat(r, h), if FirstInTime(effective, r.now, h) then effective + [h] else effective)
  {
    ActiveExactly(r.now, Minute(h.at));
    if FirstInTime(effective, r.now, h) {
      var after := AfterHeat(r, h);
      assert VerdictOn(r, h) == Applied;
      forall id | Seen(after, id) ensures Known(effective + [h], id) {
        if id == h.id {
          assert h in effective + [h];
        } else {
          assert Seen(r, id);
          var e :| e in effective && e.id == id;
          assert e in effective + [h];
        }
      }
    } else if VerdictOn(r, h) == Applied && Active(r.now, Minute(h.at)) {
      SeenExactly(r, effective, h);
    }
  }

  lemma DeliverKeepsBuckets(r: HeatKeys, h: Heat, effective: seq<Heat>)
    requires HeatInv(r, effective)
    requires forall e :: e in effective && e.id == h.id ==> e == h
    ensures BucketsMatch(AfterHeat(r, h), if FirstInTime(effective, r.now, h) then effective + [h] else effective)
  {
    ActiveExactly(r.now, Minute(h.at));
    var after := AfterHeat(r, h);
    if FirstInTime(effective, r.now, h) {
      assert VerdictOn(r, h) == Applied;
      forall minute, video | Alive(after.now, Deadline(minute))
        ensures Score(after, minute, video) == HeatIn(effective + [h], minute, video)
      {
        assert (effective + [h])[..|effective|] == effective;
        assert Score(r, minute, video) == HeatIn(effective, minute, video);
      }
    } else if VerdictOn(r, h) == Applied && Active(r.now, Minute(h.at)) {
      SeenExactly(r, effective, h);
    }
  }

  lemma {:induction false} EffectiveDelivered(start: nat, trace: seq<Step>)
    ensures forall h :: h in Effective(start, trace) ==>
              exists i :: 0 <= i < |trace| && trace[i].Deliver? && trace[i].heat == h
    decreases |trace|
  {
    if trace != [] {
      var earlier := trace[..|trace| - 1];
      EffectiveDelivered(start, earlier);
      forall h | h in Effective(start, trace)
        ensures exists i :: 0 <= i < |trace| && trace[i].Deliver? && trace[i].heat == h
      {
        if h in Effective(start, earlier) {
          var i :| 0 <= i < |earlier| && earlier[i].Deliver? && earlier[i].heat == h;
          assert trace[i] == earlier[i];
        } else {
          assert trace[|trace| - 1].heat == h;
        }
      }
    }
  }

  lemma {:induction false} HeatInvHolds(r: HeatKeys, trace: seq<Step>)
    requires HeatInv(r, []) && OneBodyPerId(trace)
    ensures Run(r, trace).now == Clock(r.now, trace)
    ensures HeatInv(Run(r, trace), Effective(r.now, trace))
    decreases |trace|
  {
    if trace != [] {
      var earlier, last := trace[..|trace| - 1], trace[|trace| - 1];
      assert OneBodyPerId(earlier) by {
        assert forall i :: 0 <= i < |earlier| ==> earlier[i] == trace[i];
      }
      HeatInvHolds(r, earlier);
      var before, effective := Run(r, earlier), Effective(r.now, earlier);
      if last.Tick? {
        TickKeepsHeat(before, last.ms, effective);
      } else {
        forall e | e in effective && e.id == last.heat.id ensures e == last.heat {
          EffectiveDelivered(r.now, earlier);
          var i :| 0 <= i < |earlier| && earlier[i].Deliver? && earlier[i].heat == e;
          assert trace[i].heat == e && trace[|trace| - 1].heat == last.heat;
        }
        DeliverKeepsMarks(before, last.heat, effective);
        DeliverKeepsBuckets(before, last.heat, effective);
      }
    }
  }

  const FRESH: HeatKeys := HeatKeys(0, map[], map[], {}, {}, map[])
  const NO_ROWS: RowKeys := RowKeys(map[], map[], map[])

  /** At every clock value a live bucket holds, per video, the sum of the changes of the distinct
      events of its minute that were first delivered before its deadline. */
  lemma HeatIsExactlyOnce(start: nat, trace: seq<Step>, minute: nat, video: nat)
    requires OneBodyPerId(trace)
    requires Clock(start, trace) <= Deadline(minute) * 1000
    ensures Score(Run(FRESH.(now := start), trace), minute, video) == HeatIn(Effective(start, trace), minute, video)
  {
    var r := FRESH.(now := start);
    assert HeatInv(r, []);
    HeatInvHolds(r, trace);
  }

  /** Past its deadline a bucket is absent, and no delivery, first or repeated, brings it back. */
  lemma NoResurrection(start: nat, trace: seq<Step>, minute: nat, heat: Heat)
    requires OneBodyPerId(trace + [Deliver(heat)])
    requires Clock(start, trace) > Deadline(minute) * 1000
    ensures LiveScores(Run(FRESH.(now := start), trace), minute) == map[]
    ensures LiveScores(AfterHeat(Run(FRESH.(now := start), trace), heat), minute) == map[]
  {
    var r := FRESH.(now := start);
    assert HeatInv(r, []);
    var longer := trace + [Deliver(heat)];
    assert forall i :: 0 <= i < |trace| ==> longer[i] == trace[i];
    HeatInvHolds(r, trace);
    ActiveExactly(Clock(start, trace), minute);
  }

  /** A delivery of an event that has taken effect, before or after its mark expired, adds nothing
      to any bucket. */
  lemma ReplayAddsNothing(start: nat, trace: seq<Step>, h: Heat, minute: nat, video: nat)
    requires OneBodyPerId(trace + [Deliver(h)]) && h in Effective(start, trace)
    ensures Score(AfterHeat(Run(FRESH.(now := start), trace), h), minute, video)
         == Score(Run(FRESH.(now := start), trace), minute, video)
  {
    var r := FRESH.(now := start);
    assert HeatInv(r, []);
    var longer := trace + [Deliver(h)];
    assert forall i :: 0 <= i < |trace| ==> longer[i] == trace[i];
    HeatInvHolds(r, trace);
    var now := Run(r, trace);
    forall e | e in Effective(start, trace) && e.id == h.id ensures e == h {
      EffectiveDelivered(start, trace);
      var i :| 0 <= i < |trace| && trace[i].Deliver? && trace[i].heat == e;
      assert longer[i].heat == e && longer[|trace|].heat == h;
    }
    if Active(now.now, Minute(h.at)) {
      SeenExactly(now, Effective(start, trace), h);
    }
  }

  // ---------------------------------------------------------------- the hot window

  predicate InWindow(minute: nat, asOf: nat, count: nat) {
    minute <= asOf < minute + count
  }

  /** The changes of the events from one millisecond on and before another. */
  function HeatBetween(effective: seq<Heat>, from: int, to: int, video: nat): int {
    if effective == [] then 0
    else
      var h := effective[|effective| - 1];
      HeatBetween(effective[..|effective| - 1], from, to, video)
      + (if from <= h.at < to && h.video == video then h.change else 0)
  }

  /** The `count` minutes that end with minute asOf. */
  function WindowHeat(effective: seq<Heat>, asOf: nat, video: nat, count: nat): int {
    HeatBetween(effective, (asOf + 1 - count) * 60_000, (asOf + 1) * 60_000, video)
  }

  lemma {:induction false} WindowGrows(effective: seq<Heat>, asOf: nat, video: nat, count: nat)
    ensures WindowHeat(effective, asOf, video, count + 1)
         == WindowHeat(effective, asOf, video, count)
            + (if asOf >= count then HeatIn(effective, asOf - count, video) else 0)
  {
    if effective != [] {
      WindowGrows(effective[..|effective| - 1], asOf, video, count);
    }
  }

  lemma {:induction false} EmptyWindow(effective: seq<Heat>, asOf: nat, video: nat)
    ensures WindowHeat(effective, asOf, video, 0) == 0
  {
    if effective != [] {
      EmptyWindow(effective[..|effective| - 1], asOf, video);
    }
  }

  ghost predicate WindowAlive(now: nat, asOf: nat, count: nat) {
    forall minute :: InWindow(minute, asOf, count) ==> Alive(now, Deadline(minute))
  }

  /** The hour that ends at asOf is whole until 61 minutes after asOf began, and no longer; so for a
      current asOf no minute of it can have expired. */
  lemma WindowIsAlive(now: nat, asOf: nat)
    ensures asOf + 1 >= WINDOW ==> (WindowAlive(now, asOf, WINDOW) <==> now <= (asOf + 61) * 60_000)
    ensures asOf >= Minute(now) ==> WindowAlive(now, asOf, WINDOW)
  {
    if asOf + 1 >= WINDOW {
      assert InWindow(asOf + 1 - WINDOW, asOf, WINDOW);
    }
  }

  lemma {:induction false} WindowMatches(r: HeatKeys, effective: seq<Heat>, asOf: nat, video: nat, count: nat)
    requires HeatInv(r, effective) && WindowAlive(r.now, asOf, count)
    ensures WindowScore(r, asOf, video, count) == WindowHeat(effective, asOf, video, count)
  {
    if count == 0 {
      EmptyWindow(effective, asOf, video);
    } else {
      WindowMatches(r, effective, asOf, video, count - 1);
      WindowGrows(effective, asOf, video, count - 1);
      if asOf >= count - 1 {
        var minute := asOf - (count - 1);
        assert InWindow(minute, asOf, count) && Alive(r.now, Deadline(minute));
      }
    }
  }

  /** A snapshot of a window that is still whole scores every video with exactly the distinct events
      that took effect and whose minute lies in it; the current window always is. */
  lemma HotWindowIsExact(start: nat, trace: seq<Step>, asOf: nat, video: nat)
    requires OneBodyPerId(trace)
    requires Clock(start, trace) <= (asOf + 61) * 60_000 || WindowAlive(Clock(start, trace), asOf, WINDOW)
    ensures WindowScore(Run(FRESH.(now := start), trace), asOf, video, WINDOW)
         == HeatBetween(Effective(start, trace), (asOf - 59) * 60_000, (asOf + 1) * 60_000, video)
  {
    var r := FRESH.(now := start);
    assert HeatInv(r, []);
    HeatInvHolds(r, trace);
    WindowIsAlive(Clock(start, trace), asOf);
    WindowMatches(Run(r, trace), Effective(start, trace), asOf, video, WINDOW);
  }

  /** The hot list of a Redis that only these scripts have written: the hour's distinct events that were
      in time, to the millisecond, unless a snapshot is kept. */
  method HotListIsExact(cache: Cache, asOf: nat, ghost start: nat, ghost trace: seq<Step>) returns (scores: map<nat, int>)
    requires OneBodyPerId(trace) && cache.View().(snapshots := map[]) == Run(FRESH.(now := start), trace)
    requires cache.now <= (asOf + 61) * 60_000
    modifies cache`snapshots
    ensures !(asOf in old(cache.snapshots) && cache.now <= old(cache.snapshots)[asOf].until) ==> forall video ::
              ScoreOf(scores, video) == HeatBetween(Effective(start, trace), (asOf - 59) * 60_000, (asOf + 1) * 60_000, video)
  {
    ghost var before := cache.View();
    scores := cache.HotList(asOf);
    forall video
      ensures WindowScore(before, asOf, video, WINDOW)
           == HeatBetween(Effective(start, trace), (asOf - 59) * 60_000, (asOf + 1) * 60_000, video)
    {
      ClockIsNow(start, trace);
      HotWindowIsExact(start, trace, asOf, video);
      SnapshotsDoNotCount(before, asOf, video, WINDOW);
    }
  }

  /** Heat that arrives while a reader turns pages does not move its snapshot. */
  lemma {:induction false} PagesShareSnapshot(r: HeatKeys, trace: seq<Step>, asOf: nat)
    requires KeptSnapshot(Run(r, trace), asOf)
    ensures KeptSnapshot(r, asOf) && Run(r, trace).snapshots == r.snapshots
    decreases |trace|
  {
    if trace != [] {
      PagesShareSnapshot(r, trace[..|trace| - 1], asOf);
    }
  }
}
