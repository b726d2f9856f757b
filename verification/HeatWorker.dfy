/** The heat worker: the same loop as the other workers, around the Redis script. */
module HeatWorker {
  import opened InteractionStore
  import opened HeatCache
  import EventWorker

  datatype HeatBody = Garbage | Parsed(heat: Heat)

  /** One attempt's environment: whether the worker is being stopped, whether the command reaches
      Redis, whether its reply is lost, whether the worker is stopped in the pause that follows, and
      the random token drawn. */
  datatype HeatTurn = HeatTurn(stopped: bool, reaches: bool, replyLost: bool, stoppedInPause: bool, token: string)

  datatype Store = Store(heat: HeatKeys, rows: RowKeys)

  predicate Dropped(body: HeatBody) {
    body.Garbage? || body.heat.video == 0 || body.heat.change == 0
  }

  function StoreOf(cache: Cache): Store
    reads cache
  {
    Store(cache.View(), cache.Rows())
  }

  function AfterScript(s: Store, h: Heat, token: string): Store {
    if VerdictOn(s.heat, h).Applied? then Store(AfterHeat(s.heat, h), Invalidated(s.rows, h.video, token)) else s
  }

  /** The script run once for each of these tokens. */
  function AfterScripts(s: Store, h: Heat, tokens: seq<string>): Store {
    if tokens == [] then s
    else AfterScript(AfterScripts(s, h, tokens[..|tokens| - 1]), h, tokens[|tokens| - 1])
  }

  predicate Accepts(verdict: Verdict) {
    verdict.Applied? || verdict.AlreadySeen?
  }

  method Process(cache: Cache, body: HeatBody, turn: HeatTurn) returns (ok: bool, ghost sent: bool)
    modifies cache
    ensures Dropped(body) ==> ok && !sent && StoreOf(cache) == old(StoreOf(cache))
    ensures !Dropped(body) ==> sent == turn.reaches
    ensures sent ==> StoreOf(cache) == AfterScript(old(StoreOf(cache)), body.heat, turn.token)
    ensures !sent ==> StoreOf(cache) == old(StoreOf(cache))
    ensures !Dropped(body) && ok ==> sent && Accepts(VerdictOn(old(cache.View()), body.heat))
    ensures !Dropped(body) && turn.reaches && !turn.replyLost && Accepts(VerdictOn(old(cache.View()), body.heat)) ==> ok
  {
    sent := false;
    if body.Garbage? {
      return true, false;
    }
    var h := body.heat;
    if h.video == 0 || h.change == 0 {
      return true, false;
    }
    if !turn.reaches {
      return false, false;
    }
    var verdict := cache.ApplyPopularity(h, turn.token);
    ok, sent := (verdict == Applied || verdict == AlreadySeen) && !turn.replyLost, true;
  }

  function TokensOf(turns: seq<HeatTurn>): seq<string> {
    seq(|turns|, i requires 0 <= i < |turns| => turns[i].token)
  }

  /** The tokens of the first n attempts that reach Redis. */
  function Reached(turns: seq<HeatTurn>, n: nat): seq<string>
    requires n <= |turns|
  {
    if n == 0 then []
    else Reached(turns, n - 1) + (if turns[n - 1].reaches then [turns[n - 1].token] else [])
  }

  /** Redis after the first n attempts. */
  function AfterAttempts(s: Store, body: HeatBody, turns: seq<HeatTurn>, n: nat): Store
    requires n <= |turns|
  {
    if Dropped(body) then s else AfterScripts(s, body.heat, Reached(turns, n))
  }

  predicate Undisturbed(turn: HeatTurn) {
    turn.reaches && !turn.replyLost
  }

  /** An attempt at the n-th turn that nothing interferes with is accepted, or there is nothing to do. */
  predicate Welcome(s: Store, body: HeatBody, turns: seq<HeatTurn>, n: nat)
    requires n < |turns|
  {
    Dropped(body) || (Undisturbed(turns[n]) && Accepts(VerdictOn(AfterAttempts(s, body, turns, n).heat, body.heat)))
  }

  lemma OneMoreAttempt(s: Store, body: HeatBody, turns: seq<HeatTurn>, n: nat)
    requires n < |turns| && !Dropped(body)
    ensures AfterAttempts(s, body, turns, n + 1)
         == if turns[n].reaches then AfterScript(AfterAttempts(s, body, turns, n), body.heat, turns[n].token)
            else AfterAttempts(s, body, turns, n)
  {
    var sent := Reached(turns, n);
    assert (sent + [turns[n].token])[..|sent|] == sent;
    assert sent + [] == sent;
  }

  /** The n-th attempt of a delivery that found Redis at `start`. */
  method Attempt(cache: Cache, body: HeatBody, turns: seq<HeatTurn>, n: nat, ghost start: Store) returns (ok: bool)
    requires n < |turns| && StoreOf(cache) == AfterAttempts(start, body, turns, n)
    modifies cache
    ensures StoreOf(cache) == AfterAttempts(start, body, turns, n + 1)
    ensures Welcome(start, body, turns, n) ==> ok
    ensures Dropped(body) ==> ok
    ensures ok && !Dropped(body) ==>
              turns[n].reaches && Accepts(VerdictOn(AfterAttempts(start, body, turns, n).heat, body.heat))
  {
    ghost var sent;
    ok, sent := Process(cache, body, turns[n]);
    if !Dropped(body) {
      OneMoreAttempt(start, body, turns, n);
    }
  }

  /** Exactly one settlement, after so many attempts.  The script has run once for each attempt that
      reached Redis.  An acknowledged event was dropped or accepted by the last run, and a welcome
      attempt is acknowledged; only a stopped worker requeues; and an event is dead-lettered only after
      all four attempts, none of them a welcome one. */
  method Deliver(cache: Cache, channel: EventWorker.Channel, body: HeatBody, turns: seq<HeatTurn>)
    returns (s: EventWorker.Settlement, attempts: nat)
    requires |turns| == EventWorker.MAX_RETRIES + 1
    modifies cache, channel
    ensures channel.settlements == old(channel.settlements) + [s]
    ensures attempts <= |turns| && StoreOf(cache) == AfterAttempts(old(StoreOf(cache)), body, turns, attempts)
    ensures forall j :: 0 <= j < attempts ==> !turns[j].stopped
    ensures forall j :: 0 <= j < attempts && Welcome(old(StoreOf(cache)), body, turns, j) ==> s.Acked? && j == attempts - 1
    ensures s.Acked? ==>
              && attempts > 0
              && (Dropped(body) || (turns[attempts - 1].reaches
                    && Accepts(VerdictOn(AfterAttempts(old(StoreOf(cache)), body, turns, attempts - 1).heat, body.heat))))
    ensures s.Requeued? ==> (attempts < |turns| && turns[attempts].stopped) || (attempts > 0 && turns[attempts - 1].stoppedInPause)
    ensures s.DeadLettered? ==> attempts == |turns|
  {
    attempts := 0;
    while true
      invariant attempts <= EventWorker.MAX_RETRIES
      invariant channel.settlements == old(channel.settlements)
      invariant attempts > 0 ==> !Dropped(body)
      invariant StoreOf(cache) == AfterAttempts(old(StoreOf(cache)), body, turns, attempts)
      invariant forall j :: 0 <= j < attempts ==> !turns[j].stopped && !Welcome(old(StoreOf(cache)), body, turns, j)
      decreases EventWorker.MAX_RETRIES - attempts
    {
      if turns[attempts].stopped {
        channel.Settle(EventWorker.Requeued);
        return EventWorker.Requeued, attempts;
      }
      var ok := Attempt(cache, body, turns, attempts, old(StoreOf(cache)));
      if !ok {
        if attempts >= EventWorker.MAX_RETRIES {
          channel.Settle(EventWorker.DeadLettered);
          return EventWorker.DeadLettered, attempts + 1;
        }
        if turns[attempts].stoppedInPause {
          channel.Settle(EventWorker.Requeued);
          return EventWorker.Requeued, attempts + 1;
        }
        attempts := attempts + 1;
        continue;
      }
      channel.Settle(EventWorker.Acked);
      return EventWorker.Acked, attempts + 1;
    }
  }

  /** The first attempt at an event that is in order, said of the event and the keys alone. */
  lemma FirstAttempt(s: Store, h: Heat, turns: seq<HeatTurn>)
    requires turns != [] && turns[0].reaches && !turns[0].replyLost
    requires h.id != "" && h.video != 0 && h.change != 0 && h.at != 0
    requires h.id !in s.heat.foreignMarks && h.at / 60_000 !in s.heat.foreignBuckets
    ensures Welcome(s, Parsed(h), turns, 0)
    ensures var after, m := AfterAttempts(s, Parsed(h), turns, 1), h.at / 60_000;
            var seen := h.id in s.heat.marks && s.heat.now <= s.heat.marks[h.id] * 1000;
            && (seen ==> after == s)
            && (!seen && s.heat.now / 1000 >= m * 60 + 7_200 ==> after.heat == s.heat)
            && (!seen && s.heat.now / 1000 < m * 60 + 7_200 ==>
                  var live := if m in s.heat.buckets && s.heat.now <= s.heat.buckets[m].deadline * 1000
                              then s.heat.buckets[m].scores else map[];
                  && after.heat.marks == s.heat.marks[h.id := m * 60 + 7_200]
                  && after.heat.buckets
                     == s.heat.buckets[m := Bucket(live[h.video := (if h.video in live then live[h.video] else 0) + h.change], m * 60 + 7_200)])
            && (!seen ==> after.rows == RowKeys(s.rows.generations[h.video := turns[0].token],
                                                s.rows.details - {h.video}, s.rows.entities - {h.video}))
  {
    OneMoreAttempt(s, Parsed(h), turns, 0);
    assert AfterAttempts(s, Parsed(h), turns, 0) == s;
  }

  /** The same worker, said of the event and the keys alone: heat that is in order, undisturbed and not
      seen before is acknowledged, and adds its change to the minute it happened in while that lives; heat
      seen before is acknowledged and changes nothing; empty heat is dropped. */
  method HandleDelivery(cache: Cache, channel: EventWorker.Channel, body: HeatBody, turns: seq<HeatTurn>)
    returns (s: EventWorker.Settlement, attempts: nat)
    requires |turns| == 4
    modifies cache, channel
    ensures body.Garbage? || body.heat.video == 0 || body.heat.change == 0 ==>
              StoreOf(cache) == old(StoreOf(cache)) && (!turns[0].stopped ==> s.Acked?)
    ensures body.Parsed? && body.heat.id != "" && body.heat.video != 0 && body.heat.change != 0 && body.heat.at != 0
            && body.heat.id !in old(cache.foreignMarks) && body.heat.at / 60_000 !in old(cache.foreignBuckets)
            && !turns[0].stopped && turns[0].reaches && !turns[0].replyLost ==>
              var h, m := body.heat, body.heat.at / 60_000;
              var seen := h.id in old(cache.marks) && old(cache.now) <= old(cache.marks)[h.id] * 1000;
              && s.Acked? && attempts == 1
              && (seen || old(cache.now) / 1000 >= m * 60 + 7_200 ==>
                    cache.buckets == old(cache.buckets) && cache.marks == old(cache.marks))
              && (!seen && old(cache.now) / 1000 < m * 60 + 7_200 ==>
                    var live := if m in old(cache.buckets) && old(cache.now) <= old(cache.buckets)[m].deadline * 1000
                                then old(cache.buckets)[m].scores else map[];
                    && cache.marks == old(cache.marks)[h.id := m * 60 + 7_200]
                    && cache.buckets
                       == old(cache.buckets)[m := Bucket(live[h.video := (if h.video in live then live[h.video] else 0) + h.change], m * 60 + 7_200)])
              && (!seen ==> && cache.generations == old(cache.generations)[h.video := turns[0].token]
                            && cache.details == old(cache.details) - {h.video} && cache.entities == old(cache.entities) - {h.video})
    ensures channel.settlements == old(channel.settlements) + [s]
    ensures attempts <= |turns| && StoreOf(cache) == AfterAttempts(old(StoreOf(cache)), body, turns, attempts)
    ensures forall j :: 0 <= j < attempts ==> !turns[j].stopped
    ensures forall j :: 0 <= j < attempts && Welcome(old(StoreOf(cache)), body, turns, j) ==> s.Acked? && j == attempts - 1
    ensures s.Acked? ==>
              && attempts > 0
              && (Dropped(body) || (turns[attempts - 1].reaches
                    && Accepts(VerdictOn(AfterAttempts(old(StoreOf(cache)), body, turns, attempts - 1).heat, body.heat))))
    ensures s.Requeued? ==> (attempts < |turns| && turns[attempts].stopped) || (attempts > 0 && turns[attempts - 1].stoppedInPause)
    ensures s.DeadLettered? ==> attempts == |turns|
  {
    s, attempts := Deliver(cache, channel, body, turns);
    assert Dropped(body) ==> Welcome(old(StoreOf(cache)), body, turns, 0);
    if body.Parsed? && body.heat.id != "" && body.heat.video != 0 && body.heat.change != 0 && body.heat.at != 0
       && body.heat.id !in old(cache.foreignMarks) && body.heat.at / 60_000 !in old(cache.foreignBuckets)
       && turns[0].reaches && !turns[0].replyLost {
      FirstAttempt(old(StoreOf(cache)), body.heat, turns);
    }
  }
}
