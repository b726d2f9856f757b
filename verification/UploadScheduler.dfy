/** The browser's side of an upload: which chunks are sent, how many at a time, how often, and how
    progress is counted.  Each upload in flight ends in one of the two callbacks, in any order.
 */
module UploadScheduler {
  import ChunkUpload

  const CHUNK_SIZE: nat := 5_242_880
  const MAX_CONCURRENT: nat := 3
  const MAX_RETRIES: nat := 3

  /** Math.ceil(file.size / CHUNK_SIZE): the chunk count the server is told. */
  function Ceiling(size: nat): nat {
    ChunkUpload.ChunkCount(size, CHUNK_SIZE)
  }

  /** The size of chunk i; only the last one may be short. */
  function ChunkBytes(size: nat, i: nat): int {
    if i + 1 == Ceiling(size) then size - i * CHUNK_SIZE else CHUNK_SIZE
  }

  /** The bytes of some of the chunks, the way a resumed upload computes them: as if all were whole,
      corrected for a short last one. */
  function Bytes(size: nat, chunks: set<nat>): int {
    |chunks| * CHUNK_SIZE + (if Ceiling(size) - 1 in chunks then ChunkBytes(size, Ceiling(size) - 1) - CHUNK_SIZE else 0)
  }

  /** One chunk more counts for its own bytes. */
  lemma OneMoreChunk(size: nat, chunks: set<nat>, i: nat)
    requires size > 0 && i !in chunks
    ensures Bytes(size, chunks + {i}) == Bytes(size, chunks) + ChunkBytes(size, i)
  {
  }

  lemma {:induction false} CountBelow(n: nat, chunks: set<nat>)
    requires forall i: nat :: i in chunks <==> i < n
    ensures |chunks| == n
  {
    if n == 0 {
      assert chunks == {};
    } else {
      CountBelow(n - 1, chunks - {n - 1});
    }
  }

  /** All chunks of a file are exactly its bytes. */
  lemma AllBytes(size: nat)
    requires size > 0
    ensures Bytes(size, Missing(size, {})) == size
  {
    CountBelow(Ceiling(size), Missing(size, {}));
  }

  /** Math.round(uploaded / size * 100), halves up. */
  function Percent(uploaded: int, size: nat): int
    requires size > 0
  {
    (200 * uploaded + size) / (2 * size)
  }

  lemma DivBounds(p: int, d: nat)
    requires d > 0
    ensures d * (p / d) <= p < d * (p / d + 1)
  {
    assert p == d * (p / d) + p % d;
    assert d * (p / d + 1) == d * (p / d) + d;
  }

  lemma Monotone(d: nat, a: int, b: int)
    ensures a <= b ==> d * a <= d * b
  {
    if a <= b {
      assert d * (b - a) >= 0;
      assert d * b == d * a + d * (b - a);
    }
  }

  lemma QuotientBetween(d: nat, q: int, low: int, high: int)
    requires d > 0 && d * low < d * (q + 1) && d * q < d * high
    ensures low <= q < high
  {
    Monotone(d, q + 1, low);
    Monotone(d, high, q);
  }

  /** The nearest whole number of hundredths, the upper one of two. */
  lemma PercentIsRounded(uploaded: int, size: nat)
    requires 0 < size
    ensures 2 * size * Percent(uploaded, size) <= 200 * uploaded + size < 2 * size * (Percent(uploaded, size) + 1)
    ensures uploaded == size ==> Percent(uploaded, size) == 100
    ensures 0 <= uploaded <= size ==> 0 <= Percent(uploaded, size) <= 100
  {
    DivBounds(200 * uploaded + size, 2 * size);
    if 0 <= uploaded <= size {
      QuotientBetween(2 * size, Percent(uploaded, size), 0, 101);
    }
    if uploaded == size {
      QuotientBetween(2 * size, Percent(uploaded, size), 100, 101);
    }
  }

  predicate Less(s: seq<nat>, j: nat, k: nat)
    requires j < |s| && k < |s|
  {
    s[j] < s[k]
  }

  predicate Ascending(s: seq<nat>) {
    forall j: nat, k: nat :: j < k < |s| ==> Less(s, j, k)
  }

  function Members(s: seq<nat>): set<nat> {
    set i | i in s
  }

  /** How the upload of a chunk stands, once it has been started. */
  datatype Phase = Running | Finished | Broken

  type Flights = map<nat, Phase>

  function In(f: Flights, phase: Phase): set<nat> {
    set i | i in f && f[i] == phase
  }

  /** A broken upload keeps its place among the active. */
  function Occupying(f: Flights): set<nat> {
    set i | i in f && f[i] != Finished
  }

  ghost predicate Fits(started: set<nat>, f: Flights, active: nat) {
    f.Keys == started && active == |Occupying(f)| <= MAX_CONCURRENT
  }

  lemma SomeoneRuns(started: set<nat>, f: Flights, active: nat)
    requires Fits(started, f, active) && active > 0 && In(f, Broken) == {}
    ensures In(f, Running) != {}
  {
    var i :| i in Occupying(f);
    assert i !in In(f, Broken);
    assert i in In(f, Running);
  }

  lemma StartFits(started: set<nat>, f: Flights, active: nat, ci: nat)
    requires Fits(started, f, active) && active < MAX_CONCURRENT && ci !in started
    ensures Fits(started + {ci}, f[ci := Running], active + 1)
    ensures In(f[ci := Running], Finished) == In(f, Finished) && In(f[ci := Running], Broken) == In(f, Broken)
  {
    assert Occupying(f[ci := Running]) == Occupying(f) + {ci};
  }

  lemma EndFits(started: set<nat>, f: Flights, active: nat, ci: nat)
    requires Fits(started, f, active) && ci in In(f, Running)
    ensures active > 0 && Fits(started, f[ci := Finished], active - 1)
    ensures In(f[ci := Finished], Finished) == In(f, Finished) + {ci}
    ensures In(f[ci := Finished], Broken) == In(f, Broken)
  {
    assert Occupying(f) == Occupying(f[ci := Finished]) + {ci};
  }

  lemma FailFits(started: set<nat>, f: Flights, active: nat, ci: nat)
    requires Fits(started, f, active) && ci in In(f, Running)
    ensures Fits(started, f[ci := Broken], active)
    ensures In(f[ci := Broken], Finished) == In(f, Finished) && In(f[ci := Broken], Broken) == In(f, Broken) + {ci}
  {
    assert Occupying(f[ci := Broken]) == Occupying(f);
  }

  /** One upload in the browser. */
  class Upload {
    const size: nat
    const resumed: set<nat>
    const pending: seq<nat>
    var idx: nat
    var active: nat
    var done: bool
    var resolved: bool
    var rejected: bool
    var uploadedBytes: int
    var percent: int
    var flights: Flights

    ghost predicate Planned() {
      size > 0 && Members(pending) == Missing(size, resumed) && Ascending(pending)
    }

    ghost predicate Valid()
      reads this
    {
      && idx <= |pending| && Fits(Members(pending[..idx]), flights, active)
      && (done <==> In(flights, Broken) != {}) && rejected == done
      && (resolved ==> active == 0 && !done && idx == |pending|)
      && uploadedBytes == Bytes(size, resumed + In(flights, Finished))
      && size > 0 && percent == Percent(uploadedBytes, size)
    }

    /** The promise is settled, or as much is under way as there may be. */
    ghost predicate Busy()
      reads this
    {
      rejected || resolved || active == MAX_CONCURRENT || (active > 0 && idx == |pending|)
    }

    constructor (size: nat, resumed: set<nat>)
      requires size > 0 && forall i :: i in resumed ==> i < Ceiling(size)
      ensures Planned() && Valid() && this.size == size && this.resumed == resumed
      ensures idx == 0 && !resolved && !rejected && flights == map[]
    {
      this.size, this.resumed := size, resumed;
      idx, active, done, resolved, rejected := 0, 0, false, false, false;
      flights := map[];
      uploadedBytes := |resumed| * CHUNK_SIZE
        + (if Ceiling(size) - 1 in resumed then size - (Ceiling(size) - 1) * CHUNK_SIZE - CHUNK_SIZE else 0);
      percent := Percent(|resumed| * CHUNK_SIZE
        + (if Ceiling(size) - 1 in resumed then size - (Ceiling(size) - 1) * CHUNK_SIZE - CHUNK_SIZE else 0), size);
      var missing := ListMissing(size, resumed);
      pending := missing;
      assert In(map[], Finished) == {} && In(map[], Broken) == {} && Occupying(map[]) == {};
      assert resumed + {} == resumed;
      assert missing[..0] == [];
    }

    /** Starts uploads while there is room, and resolves when the last one has ended. */
    method Next()
      requires Planned() && Valid()
      modifies this`idx, this`active, this`resolved, this`flights
      ensures Valid() && Busy() && active <= 3
      ensures !old(done) && !resolved ==> active == 3 || (active > 0 && idx == |pending|)
      ensures old(done) ==> idx == old(idx) && flights == old(flights) && resolved == old(resolved)
      ensures old(idx) <= idx && In(flights, Finished) == In(old(flights), Finished) && In(flights, Broken) == In(old(flights), Broken)
      ensures old(resolved) ==> resolved
    {
      if done {
        return;
      }
      if idx >= |pending| && active == 0 {
        resolved := true;
        return;
      }
      while active < MAX_CONCURRENT && idx < |pending|
        invariant Valid() && !done && resolved == old(resolved)
        invariant old(idx) <= idx
        invariant In(flights, Finished) == In(old(flights), Finished) && In(flights, Broken) == In(old(flights), Broken)
        invariant active > 0 || idx < |pending|
      {
        StartOne();
      }
    }

    /** Takes the next pending chunk, which no upload has had before. */
    method StartOne()
      requires Planned() && Valid() && active < MAX_CONCURRENT && idx < |pending|
      modifies this`idx, this`active, this`flights
      ensures Valid() && idx == old(idx) + 1 && active == old(active) + 1
      ensures flights == old(flights)[pending[old(idx)] := Running] && pending[old(idx)] !in old(flights)
      ensures In(flights, Finished) == In(old(flights), Finished) && In(flights, Broken) == In(old(flights), Broken)
    {
      NextChunkFits(pending, idx, flights, active);
      var ci := pending[idx];
      idx := idx + 1;
      active := active + 1;
      flights := flights[ci := Running];
    }

    /** An upload succeeds: progress first, then the scheduler. */
    method OnSuccess(ci: nat)
      requires Planned() && Valid() && ci in In(flights, Running)
      modifies this`idx, this`active, this`resolved, this`flights, this`uploadedBytes, this`percent
      ensures Valid() && Busy()
      ensures In(flights, Finished) == In(old(flights), Finished) + {ci} && In(flights, Broken) == In(old(flights), Broken)
    {
      AdvanceProgress(ci);
      EndFits(Members(pending[..idx]), flights, active, ci);
      flights := flights[ci := Finished];
      active := active - 1;
      Next();
    }

    lemma StartedIsMissing(ci: nat)
      requires Planned() && Valid() && ci in flights
      ensures ci in Missing(size, resumed)
    {
      assert ci in Members(pending[..idx]);
      assert ci in Members(pending);
    }

    /** A chunk under way is one that was missing and has not been counted. */
    lemma UnderWay(ci: nat)
      requires Planned() && Valid() && ci in In(flights, Running)
      ensures ci < Ceiling(size) && ci !in resumed + In(flights, Finished) && !resolved
    {
      EndFits(Members(pending[..idx]), flights, active, ci);
      assert ci in Members(pending[..idx]);
      assert ci in Members(pending);
    }

    method AdvanceProgress(ci: nat)
      requires Planned() && Valid() && ci in In(flights, Running)
      modifies this`uploadedBytes, this`percent
      ensures uploadedBytes == Bytes(size, resumed + In(flights[ci := Finished], Finished)) && !resolved
      ensures percent == Percent(uploadedBytes, size)
    {
      UnderWay(ci);
      OneMoreChunk(size, resumed + In(flights, Finished), ci);
      EndFits(Members(pending[..idx]), flights, active, ci);
      assert resumed + In(flights, Finished) + {ci} == resumed + (In(flights, Finished) + {ci});
      var chunkBytes := if ci == Ceiling(size) - 1 then size - ci * CHUNK_SIZE else CHUNK_SIZE;
      uploadedBytes := uploadedBytes + chunkBytes;
      percent := Percent(uploadedBytes, size);
    }

    /** An upload has failed for good: the promise is rejected and nothing more is started. */
    method OnFailure(ci: nat)
      requires Planned() && Valid() && ci in In(flights, Running)
      modifies this`done, this`rejected, this`flights
      ensures Valid() && rejected && flights == old(flights)[ci := Broken]
    {
      UnderWay(ci);
      FailFits(Members(pending[..idx]), flights, active, ci);
      done := true;
      rejected := true;
      flights := flights[ci := Broken];
    }

    /** Resolved: every chunk is on the server and the progress is exactly the file's size. */
    lemma ResolvedMeansComplete()
      requires Planned() && Valid() && resolved
      requires forall i :: i in resumed ==> i < Ceiling(size)
      ensures Missing(size, resumed) == In(flights, Finished) && !rejected
      ensures uploadedBytes == size && percent == 100
    {
      assert pending[..idx] == pending;
      assert resumed + In(flights, Finished) == Missing(size, {}) by {
        forall i: nat | i in Missing(size, {}) ensures i in resumed + In(flights, Finished) {
          assert i in resumed || i in Missing(size, resumed);
        }
        forall i | i in In(flights, Finished) ensures i in Missing(size, {}) {
          assert i in Missing(size, resumed);
        }
      }
      AllBytes(size);
      PercentIsRounded(size, size);
    }

    /** At any time the progress shown is the nearest hundredth of the bytes there. */
    lemma ProgressIsRounded()
      requires Valid()
      ensures 2 * size * percent <= 200 * uploadedBytes + size < 2 * size * (percent + 1)
    {
      PercentIsRounded(uploadedBytes, size);
    }

    ghost function Unfinished(): set<nat>
      reads this
    {
      Missing(size, resumed) - In(flights, Finished)
    }
  }

  function Missing(size: nat, resumed: set<nat>): set<nat> {
    set i: nat | i < Ceiling(size) && i !in resumed
  }

  /** The chunks still to be sent, in order. */
  method ListMissing(size: nat, resumed: set<nat>) returns (pending: seq<nat>)
    ensures Members(pending) == Missing(size, resumed) && Ascending(pending)
  {
    pending := [];
    for i := 0 to Ceiling(size)
      invariant forall k: nat :: k in pending <==> k < i && k !in resumed
      invariant Ascending(pending)
    {
      if i !in resumed {
        AscendingAppend(pending, i);
        pending := pending + [i];
      }
    }
  }

  lemma AscendingAppend(s: seq<nat>, i: nat)
    requires Ascending(s) && forall k :: k in s ==> k < i
    ensures Ascending(s + [i])
  {
    var longer := s + [i];
    forall j: nat, k: nat | j < k < |longer| ensures Less(longer, j, k) {
      if k < |s| {
        assert Less(s, j, k);
      } else {
        assert s[j] in s;
      }
    }
  }

  /** The next pending chunk has not been started. */
  lemma StartsNew(pending: seq<nat>, idx: nat)
    requires idx < |pending| && Ascending(pending)
    ensures pending[idx] !in Members(pending[..idx])
    ensures Members(pending[..idx + 1]) == Members(pending[..idx]) + {pending[idx]}
  {
    forall j: nat | j < idx ensures pending[j] != pending[idx] {
      assert Less(pending, j, idx);
    }
    assert pending[..idx + 1] == pending[..idx] + [pending[idx]];
  }

  /** No upload has had the next pending chunk before. */
  lemma NextChunkFits(pending: seq<nat>, idx: nat, f: Flights, active: nat)
    requires idx < |pending| && Ascending(pending) && active < MAX_CONCURRENT
    requires Fits(Members(pending[..idx]), f, active)
    ensures pending[idx] !in f
    ensures In(f[pending[idx] := Running], Finished) == In(f, Finished)
    ensures In(f[pending[idx] := Running], Broken) == In(f, Broken)
    ensures Fits(Members(pending[..idx + 1]), f[pending[idx] := Running], active + 1)
  {
    StartsNew(pending, idx);
    StartFits(Members(pending[..idx]), f, active, pending[idx]);
  }

  /** Up to three tries, stopping at the first that works. */
  method TryChunk(works: seq<bool>) returns (ok: bool, tries: nat)
    requires |works| == 3
    ensures ok <==> true in works
    ensures ok ==> 1 <= tries <= 3 && works[tries - 1] && forall k :: 0 <= k < tries - 1 ==> !works[k]
    ensures !ok ==> tries == 3
  {
    tries := 0;
    while tries < MAX_RETRIES
      invariant tries <= MAX_RETRIES
      invariant forall k :: 0 <= k < tries ==> !works[k]
    {
      tries := tries + 1;
      if works[tries - 1] {
        return true, tries;
      }
    }
    ok := false;
  }

  /** One chunk, to its callback: progress counts once, and only if some try works. */
  method UploadOne(upload: Upload, ci: nat, works: seq<bool>) returns (ok: bool)
    requires upload.Planned() && upload.Valid() && ci in In(upload.flights, Running) && |works| == MAX_RETRIES
    modifies upload
    ensures upload.Valid() && (upload.Busy() || !ok)
    ensures ok <==> true in works
    ensures ok ==> In(upload.flights, Finished) == In(old(upload.flights), Finished) + {ci}
                   && In(upload.flights, Broken) == In(old(upload.flights), Broken)
    ensures !ok ==> upload.rejected && upload.flights == old(upload.flights)[ci := Broken]
  {
    var tries;
    ok, tries := TryChunk(works);
    if ok {
      upload.OnSuccess(ci);
    } else {
      upload.OnFailure(ci);
    }
  }

  /** What the tries for each chunk would give. */
  type Tries = map<nat, seq<bool>>

  ghost predicate Told(works: Tries, finished: set<nat>, broken: set<nat>) {
    && (forall i :: i in finished ==> i in works && true in works[i])
    && (forall i :: i in broken ==> i in works && true !in works[i])
  }

  ghost predicate Foretells(works: Tries, size: nat, resumed: set<nat>) {
    forall i :: i in Missing(size, resumed) ==> i in works && |works[i]| == MAX_RETRIES
  }

  /** Some upload in flight ends. */
  method Round(upload: Upload, works: Tries)
    requires upload.Planned() && upload.Valid() && upload.Busy() && !upload.resolved && !upload.rejected
    requires Foretells(works, upload.size, upload.resumed) && Told(works, In(upload.flights, Finished), In(upload.flights, Broken))
    modifies upload
    ensures upload.Valid() && Told(works, In(upload.flights, Finished), In(upload.flights, Broken))
    ensures !upload.rejected ==> upload.Busy() && |upload.Unfinished()| < |old(upload.Unfinished())|
  {
    SomeoneRuns(Members(upload.pending[..upload.idx]), upload.flights, upload.active);
    var ci :| ci in In(upload.flights, Running);
    upload.UnderWay(ci);
    ghost var unfinished := upload.Unfinished();
    assert ci in unfinished;
    var ok := UploadOne(upload, ci, works[ci]);
    if ok {
      assert upload.Unfinished() == unfinished - {ci};
    } else {
      FailFits(old(Members(upload.pending[..upload.idx])), old(upload.flights), old(upload.active), ci);
    }
  }

  /** A whole upload, the uploads in flight ending in any order and with any outcome: it settles, and
      it resolves exactly when no chunk fails for good. */
  method RunUpload(size: nat, resumed: set<nat>, works: Tries) returns (upload: Upload)
    requires size > 0 && (forall i :: i in resumed ==> i < Ceiling(size)) && Foretells(works, size, resumed)
    ensures fresh(upload) && upload.Valid() && upload.size == size && upload.resumed == resumed
    ensures upload.resolved != upload.rejected
    ensures upload.resolved <==> forall i :: i in Missing(size, resumed) ==> true in works[i]
    ensures upload.resolved ==> upload.uploadedBytes == size && upload.percent == 100
    ensures upload.rejected ==> exists i :: i in Missing(size, resumed) && true !in works[i]
    ensures upload.resolved <==> forall i: nat :: i * 5_242_880 < size && i !in resumed ==> i in works && true in works[i]
  {
    upload := new Upload(size, resumed);
    upload.Next();
    while !upload.resolved && !upload.rejected
      invariant upload.Planned() && upload.Valid() && Told(works, In(upload.flights, Finished), In(upload.flights, Broken))
      invariant upload.rejected || upload.Busy()
      decreases !upload.rejected, |upload.Unfinished()|, !upload.resolved
    {
      Round(upload, works);
    }
    if upload.resolved {
      upload.ResolvedMeansComplete();
    } else {
      var i :| i in In(upload.flights, Broken);
      upload.StartedIsMissing(i);
    }
    MissingIsShort(size, resumed);
  }

  /** The chunks of a file are those that begin before its end. */
  lemma MissingIsShort(size: nat, resumed: set<nat>)
    requires size > 0
    ensures forall i: nat :: i in Missing(size, resumed) <==> i * 5_242_880 < size && i !in resumed
  {
    ChunkUpload.CountIsExact(size, CHUNK_SIZE);
  }
}
