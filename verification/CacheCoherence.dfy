/** What every run of the interaction pipeline keeps: no cached row misses a change whose heat has
    reached Redis, heat adds up to popularity, and both stores hold exactly-once effects.
 */
module CacheCoherence {
  import opened Ranking
  import opened InteractionStore
  import opened InteractionPipeline
  import HC = HeatCache

  // ---------------------------------------------------------------- how current a row is

  /** All that a row's currency depends on. */
  datatype Facts = Facts(history: seq<map<nat, Counts>>, log: seq<Heat>, applied: set<string>)

  function FactsOf(s: State): Facts {
    Facts(s.history, s.tables.outbox, s.applied)
  }

  /** The row as it was after n heat events, none of whose later changes has been applied in Redis. */
  ghost predicate CoversAt(f: Facts, n: nat, video: nat, row: Counts) {
    && n < |f.history|
    && video in f.history[n] && f.history[n][video] == row
    && forall i :: n <= i < |f.log| && f.log[i].video == video ==> f.log[i].id !in f.applied
  }

  ghost predicate Covers(f: Facts, video: nat, row: Counts) {
    exists n: nat :: CoversAt(f, n, video, row)
  }

  ghost predicate RowsCovered(f: Facts, rows: map<nat, Counts>) {
    forall v :: v in rows ==> Covers(f, v, rows[v])
  }

  function Emitted(f: Facts, h: Heat, videos: map<nat, Counts>): Facts {
    f.(history := f.history + [videos], log := f.log + [h])
  }

  /** New heat has not been applied yet, so it makes no row stale. */
  lemma NewHeatKeepsCovers(f: Facts, h: Heat, videos: map<nat, Counts>, video: nat, row: Counts)
    requires Covers(f, video, row) && h.id !in f.applied
    ensures Covers(Emitted(f, h, videos), video, row)
  {
    var f' := Emitted(f, h, videos);
    var n: nat :| CoversAt(f, n, video, row);
    assert f'.history[n] == f.history[n];
    assert CoversAt(f', n, video, row);
  }

  /** Applying heat of one video leaves the rows of the others as current as they were. */
  lemma AppliedHeatKeepsCovers(f: Facts, h: Heat, video: nat, row: Counts)
    requires h in f.log && video != h.video && Covers(f, video, row)
    requires forall i, j :: 0 <= i < j < |f.log| ==> f.log[i].id != f.log[j].id
    ensures Covers(f.(applied := f.applied + {h.id}), video, row)
  {
    var n: nat :| CoversAt(f, n, video, row);
    var k :| 0 <= k < |f.log| && f.log[k] == h;
    forall i | n <= i < |f.log| && f.log[i].video == video ensures f.log[i].id != h.id {
    }
    assert CoversAt(f.(applied := f.applied + {h.id}), n, video, row);
  }

  // ---------------------------------------------------------------- the invariant

  ghost predicate TokensInv(marks: map<string, nat>, generations: map<nat, string>, applied: set<string>, consumed: set<string>, tokens: set<string>) {
    && (forall id :: id in marks ==> id in applied)
    && applied <= consumed
    && (forall v :: v in generations ==> generations[v] in tokens)
    && "" !in tokens
  }

  ghost predicate ReaderOk(f: Facts, cache: HC.RowKeys, tokens: set<string>, r: Reader) {
    && (r.generation == "" || r.generation in tokens)
    && (r.GotRow? && r.generation == HC.GenerationOf(cache, r.video) ==> Covers(f, r.video, r.row))
  }

  ghost predicate ReadersOk(f: Facts, cache: HC.RowKeys, tokens: set<string>, readers: map<nat, Reader>) {
    forall k :: k in readers ==> ReaderOk(f, cache, tokens, readers[k])
  }

  /** Both cached tiers are covered, and so is every row still on its way into them, unless its
      generation is over. */
  ghost predicate CacheInv(s: State) {
    && TokensInv(s.heat.marks, s.cache.generations, s.applied, s.tables.consumed, s.tokens)
    && RowsCovered(FactsOf(s), s.cache.details) && RowsCovered(FactsOf(s), s.cache.entities)
    && ReadersOk(FactsOf(s), s.cache, s.tokens, s.readers)
  }

  lemma ConsumeFacts(s: State, d: Delivery, id: nat)
    requires Balanced(s.tables)
    ensures var f, f' := FactsOf(s), FactsOf(Consumed(s, d, id));
            f' == f || exists h: Heat, videos :: h.id !in s.tables.consumed && f' == Emitted(f, h, videos)
  {
    AttemptEmits(s.tables, d);
    CommittedStep(s.tables, d);
    var before, after := s.tables.outbox, Attempt(s.tables, d).tables;
    if |after.outbox| > |before| {
      var h := after.outbox[|before|];
      assert after.outbox == before + [h];
      assert FactsOf(Consumed(s, d, id)) == Emitted(FactsOf(s), h, after.videos);
    }
  }

  lemma ConsumeKeepsCache(s: State, d: Delivery, id: nat)
    requires Balanced(s.tables) && CacheInv(s)
    ensures CacheInv(Consumed(s, d, id))
  {
    var s' := Consumed(s, d, id);
    CommittedStep(s.tables, d);
    ConsumeFacts(s, d, id);
    var f, f' := FactsOf(s), FactsOf(s');
    forall v, row | Covers(f, v, row) ensures Covers(f', v, row) {
      if f' != f {
        var h: Heat, videos :| h.id !in s.tables.consumed && f' == Emitted(f, h, videos);
        NewHeatKeepsCovers(f, h, videos, v, row);
      }
    }
  }

  ghost predicate IdsDistinct(f: Facts) {
    forall i, j :: 0 <= i < j < |f.log| ==> f.log[i].id != f.log[j].id
  }

  lemma ApplyKeepsReaders(f: Facts, cache: HC.RowKeys, tokens: set<string>, readers: map<nat, Reader>, h: Heat, token: string)
    requires IdsDistinct(f) && h in f.log && token != "" && token !in tokens
    requires ReadersOk(f, cache, tokens, readers)
    ensures ReadersOk(f.(applied := f.applied + {h.id}), HC.Invalidated(cache, h.video, token), tokens + {token}, readers)
  {
    var after := HC.Invalidated(cache, h.video, token);
    forall k | k in readers
      ensures ReaderOk(f.(applied := f.applied + {h.id}), after, tokens + {token}, readers[k])
    {
      var r := readers[k];
      assert ReaderOk(f, cache, tokens, r);
      if r.GotRow? && r.generation == HC.GenerationOf(after, r.video) {
        assert r.generation != token;
        AppliedHeatKeepsCovers(f, h, r.video, r.row);
      }
    }
  }

  lemma ApplyKeepsRows(f: Facts, rows: map<nat, Counts>, h: Heat)
    requires IdsDistinct(f) && h in f.log && RowsCovered(f, rows)
    ensures RowsCovered(f.(applied := f.applied + {h.id}), rows - {h.video})
  {
    forall v | v in rows - {h.video} ensures Covers(f.(applied := f.applied + {h.id}), v, rows[v]) {
      AppliedHeatKeepsCovers(f, h, v, rows[v]);
    }
  }

  lemma ApplyKeepsTokens(s: State, h: Heat, token: string)
    requires CacheInv(s) && h.id in s.tables.consumed && token != "" && token !in s.tokens
    ensures var s' := Applied(s, h, token);
            TokensInv(s'.heat.marks, s'.cache.generations, s'.applied, s'.tables.consumed, s'.tokens)
  {
  }

  lemma ApplyKeepsCache(s: State, h: Heat, token: string)
    requires HeatIsKeyed(s.tables) && CacheInv(s) && h in s.tables.outbox && token != "" && token !in s.tokens
    ensures CacheInv(Applied(s, h, token))
  {
    ApplyKeepsTokens(s, h, token);
    if HC.VerdictOn(s.heat, h).Applied? {
      ApplyKeepsRows(FactsOf(s), s.cache.details, h);
      ApplyKeepsRows(FactsOf(s), s.cache.entities, h);
      ApplyKeepsReaders(FactsOf(s), s.cache, s.tokens, s.readers, h, token);
    }
  }

  /** A row read now is as current as can be. */
  lemma ReadRowKeepsCache(s: State, reader: nat)
    requires StoreInv(s) && CacheInv(s) && Enabled(s, ReadRow(reader))
    ensures CacheInv(Next(s, ReadRow(reader)))
  {
    var s' := Next(s, ReadRow(reader));
    var r := s'.readers[reader];
    assert CoversAt(FactsOf(s'), |s.tables.outbox|, r.video, r.row);
    assert ReaderOk(FactsOf(s), s.cache, s.tokens, s.readers[reader]);
  }

  /** Fewer readers under the same generations. */
  lemma ReadersKeep(f: Facts, cache: HC.RowKeys, cache': HC.RowKeys, tokens: set<string>,
                    readers: map<nat, Reader>, readers': map<nat, Reader>)
    requires ReadersOk(f, cache, tokens, readers) && cache'.generations == cache.generations
    requires forall k :: k in readers' ==> k in readers && readers'[k] == readers[k]
    ensures ReadersOk(f, cache', tokens, readers')
  {
    forall k | k in readers' ensures ReaderOk(f, cache', tokens, readers'[k]) {
      assert ReaderOk(f, cache, tokens, readers[k]);
      assert HC.GenerationOf(cache', readers[k].video) == HC.GenerationOf(cache, readers[k].video);
    }
  }

  lemma RowStored(f: Facts, rows: map<nat, Counts>, video: nat, row: Counts)
    requires RowsCovered(f, rows) && Covers(f, video, row)
    ensures RowsCovered(f, rows[video := row])
  {
  }

  /** The guard: a row is stored only under the generation its reader captured, so it is covered. */
  lemma FillKeepsRows(f: Facts, cache: HC.RowKeys, tokens: set<string>, r: Reader)
    requires r.GotRow? && ReaderOk(f, cache, tokens, r)
    requires RowsCovered(f, cache.details) && RowsCovered(f, cache.entities)
    ensures var after := HC.AfterFill(cache, r.tier, r.video, r.generation, r.row);
            && RowsCovered(f, after.details) && RowsCovered(f, after.entities)
            && after.generations == cache.generations
  {
    if r.generation == HC.GenerationOf(cache, r.video) {
      if r.tier.Detail? {
        RowStored(f, cache.details, r.video, r.row);
      } else {
        RowStored(f, cache.entities, r.video, r.row);
      }
    }
  }

  lemma FillKeepsCache(s: State, reader: nat)
    requires CacheInv(s) && Enabled(s, Fill(reader))
    ensures CacheInv(Next(s, Fill(reader)))
  {
    var s' := Next(s, Fill(reader));
    assert FactsOf(s') == FactsOf(s);
    FillKeepsRows(FactsOf(s), s.cache, s.tokens, s.readers[reader]);
    ReadersKeep(FactsOf(s), s.cache, s'.cache, s.tokens, s.readers, s'.readers);
  }

  predicate Within<T(==)>(a: map<nat, T>, b: map<nat, T>) {
    forall k :: k in a ==> k in b && a[k] == b[k]
  }

  /** Nothing but fewer cached rows and fewer readers. */
  predicate Shrinks(s: State, s': State) {
    && FactsOf(s') == FactsOf(s) && s'.tables == s.tables && s'.tokens == s.tokens
    && s'.cache.generations == s.cache.generations && s'.heat.marks == s.heat.marks
    && Within(s'.cache.details, s.cache.details) && Within(s'.cache.entities, s.cache.entities)
    && Within(s'.readers, s.readers)
  }

  lemma ShrinkingKeepsCache(s: State, s': State)
    requires CacheInv(s) && Shrinks(s, s')
    ensures CacheInv(s')
  {
    ReadersKeep(FactsOf(s), s.cache, s'.cache, s.tokens, s.readers, s'.readers);
  }

  lemma AbandonShrinks(s: State, reader: nat)
    requires Enabled(s, Abandon(reader))
    ensures Shrinks(s, Next(s, Abandon(reader)))
  {
  }

  lemma EvictShrinks(s: State, tier: HC.Tier, video: nat)
    ensures Shrinks(s, Next(s, Evict(tier, video)))
  {
  }

  lemma TickShrinks(s: State, ms: nat)
    ensures Shrinks(s, Next(s, Tick(ms)))
  {
  }

  /** Pollers and the broker touch neither the database's history nor Redis. */
  lemma RelayFrame(s: State, step: Step)
    requires Enabled(s, step) && !AtRedis(step) && !step.Consume?
    ensures var s' := Next(s, step);
            && s'.tables == s.tables && s'.history == s.history && s'.applied == s.applied && s'.tokens == s.tokens
            && s'.heat == s.heat && s'.cache == s.cache && s'.readers == s.readers && s'.consumes == s.consumes && s'.heatTrace == s.heatTrace
  {
  }

  lemma ReadGenerationKeepsCache(s: State, reader: nat, video: nat, tier: HC.Tier)
    requires CacheInv(s) && Enabled(s, ReadGeneration(reader, video, tier))
    ensures CacheInv(Next(s, ReadGeneration(reader, video, tier)))
  {
  }

  lemma OtherStepsKeepCache(s: State, step: Step)
    requires CacheInv(s) && Enabled(s, step)
    requires step.Abandon? || step.Evict? || step.Tick? || (!AtRedis(step) && !step.Consume?)
    ensures CacheInv(Next(s, step))
  {
    assert Shrinks(s, Next(s, step)) by {
      match step {
        case Abandon(reader) => AbandonShrinks(s, reader);
        case Evict(tier, video) => EvictShrinks(s, tier, video);
        case Tick(ms) => TickShrinks(s, ms);
        case _ => RelayFrame(s, step);
      }
    }
    ShrinkingKeepsCache(s, Next(s, step));
  }

  lemma StepKeepsCache(s: State, step: Step)
    requires StoreInv(s) && PlacesInv(s) && CacheInv(s) && Enabled(s, step)
    ensures CacheInv(Next(s, step))
  {
    match step {
      case Consume(e, row, struck, id) => ConsumeKeepsCache(s, Delivery(e, row, struck), id);
      case Apply(h, token) =>
        assert AtBroker(s, HeatMsg(h));
        ApplyKeepsCache(s, h, token);
      case ReadRow(reader) => ReadRowKeepsCache(s, reader);
      case Fill(reader) => FillKeepsCache(s, reader);
      case ReadGeneration(reader, video, tier) => ReadGenerationKeepsCache(s, reader, video, tier);
      case _ => OtherStepsKeepCache(s, step);
    }
  }
}
