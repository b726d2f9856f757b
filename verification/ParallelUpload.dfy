/** Chunk requests and resumes in parallel.  Each loads the session, a chunk request stores its chunk
    and sets its bit in the copy, and the whole copy is written back, so what a round of them leaves
    is decided by how many of the others each had seen finish when it loaded.
 */
module ParallelUpload {
  import opened Ranking
  import opened ChunkUpload

  datatype Failure = Nothing | Disk | Save

  /** One request of a round: the chunk it brings, or none for a resume that refreshes the session;
      how many of the round's requests had finished when it loaded; and what fails in it. */
  datatype Visit = Visit(chunk: Option<nat>, seen: nat, fails: Failure)

  /** The requests of one round in the order in which they finish, with a write or without.  Chunks
      may be brought more than once, or be there already. */
  predicate IsRound(bits: seq<bool>, visits: seq<Visit>) {
    forall m :: 0 <= m < |visits| ==> visits[m].seen <= m && (visits[m].chunk.Some? ==> visits[m].chunk.value < |bits|)
  }

  /** It has a copy to write back: a chunk that was there already is accepted unread. */
  predicate Holds(v: Visit, copy: seq<bool>) {
    v.chunk.Some? ==> v.chunk.value < |copy| && !copy[v.chunk.value] && !v.fails.Disk?
  }

  predicate Writes(v: Visit, copy: seq<bool>) {
    Holds(v, copy) && !v.fails.Save?
  }

  function Marked(copy: seq<bool>, chunk: Option<nat>): (marked: seq<bool>)
    ensures |marked| == |copy|
  {
    if chunk.Some? && chunk.value < |copy| then copy[chunk.value := true] else copy
  }

  /** The session's bits after the first m requests have finished. */
  function BitsAfter(bits: seq<bool>, visits: seq<Visit>, m: nat): (after: seq<bool>)
    requires m <= |visits| && IsRound(bits, visits)
    ensures |after| == |bits|
    decreases m
  {
    if m == 0 then bits
    else
      var copy := BitsAfter(bits, visits, visits[m - 1].seen);
      if Writes(visits[m - 1], copy) then Marked(copy, visits[m - 1].chunk) else BitsAfter(bits, visits, m - 1)
  }

  predicate WritesAt(bits: seq<bool>, visits: seq<Visit>, i: nat)
    requires i < |visits| && IsRound(bits, visits)
  {
    Writes(visits[i], BitsAfter(bits, visits, visits[i].seen))
  }

  /** The requests whose copies the state builds on: the last one that wrote, the last one before
      that it had seen, ... */
  function Chain(bits: seq<bool>, visits: seq<Visit>, m: nat): set<nat>
    requires m <= |visits| && IsRound(bits, visits)
    decreases m
  {
    if m == 0 then {}
    else if WritesAt(bits, visits, m - 1) then {m - 1} + Chain(bits, visits, visits[m - 1].seen)
    else Chain(bits, visits, m - 1)
  }

  lemma {:induction false} ChainIsEarlier(bits: seq<bool>, visits: seq<Visit>, m: nat)
    requires m <= |visits| && IsRound(bits, visits)
    ensures forall i :: i in Chain(bits, visits, m) ==> i < m && WritesAt(bits, visits, i)
    decreases m
  {
    if m > 0 {
      ChainIsEarlier(bits, visits, visits[m - 1].seen);
      ChainIsEarlier(bits, visits, m - 1);
    }
  }

  predicate Brings(visits: seq<Visit>, i: nat, b: nat) {
    i < |visits| && visits[i].chunk == Some(b)
  }

  /** A bit is set exactly when it was, or when a request on the chain of the last write brought it. */
  lemma {:induction false} BitSurvives(bits: seq<bool>, visits: seq<Visit>, m: nat, b: nat)
    requires IsRound(bits, visits) && m <= |visits| && b < |bits|
    ensures BitsAfter(bits, visits, m)[b] <==> bits[b] || exists i :: i in Chain(bits, visits, m) && Brings(visits, i, b)
    decreases m
  {
    if m > 0 {
      var seen := visits[m - 1].seen;
      if WritesAt(bits, visits, m - 1) {
        BitSurvives(bits, visits, seen, b);
        var chain := Chain(bits, visits, m);
        assert m - 1 in chain && forall i :: i in chain <==> i == m - 1 || i in Chain(bits, visits, seen);
        assert visits[m - 1].chunk == Some(b) ==> Brings(visits, m - 1, b);
      } else {
        BitSurvives(bits, visits, m - 1, b);
      }
    }
  }

  /** But whatever was set when the round began stays set, in every copy and after every write. */
  lemma OldBitsStay(bits: seq<bool>, visits: seq<Visit>, m: nat)
    requires m <= |visits| && IsRound(bits, visits)
    ensures forall b :: 0 <= b < |bits| && bits[b] ==> BitsAfter(bits, visits, m)[b]
  {
    forall b | 0 <= b < |bits| && bits[b] ensures BitsAfter(bits, visits, m)[b] {
      BitSurvives(bits, visits, m, b);
    }
  }

  /** The client was told that its chunk is there. */
  predicate Answered(bits: seq<bool>, visits: seq<Visit>, i: nat)
    requires IsRound(bits, visits)
  {
    && i < |visits| && visits[i].chunk.Some?
    && (visits[i].fails.Nothing? || BitsAfter(bits, visits, visits[i].seen)[visits[i].chunk.value])
  }

  /** Every chunk whose client was told that it is there has its bit when the round is over. */
  predicate NothingLost(bits: seq<bool>, visits: seq<Visit>)
    requires IsRound(bits, visits)
  {
    forall i :: 0 <= i < |visits| && Answered(bits, visits, i) ==>
                  BitsAfter(bits, visits, |visits|)[visits[i].chunk.value]
  }

  /** A write that later ones did not build on does no harm if it brought nothing they did not. */
  predicate Spare(bits: seq<bool>, visits: seq<Visit>, i: nat)
    requires IsRound(bits, visits)
  {
    i < |visits| && (visits[i].chunk.None?
                     || exists j :: j in Chain(bits, visits, |visits|) && Brings(visits, j, visits[i].chunk.value))
  }

  predicate OffChain(bits: seq<bool>, visits: seq<Visit>, i: nat)
    requires IsRound(bits, visits)
  {
    i < |visits| && WritesAt(bits, visits, i) && i !in Chain(bits, visits, |visits|)
  }

  lemma WrittenIsKept(bits: seq<bool>, visits: seq<Visit>, i: nat)
    requires IsRound(bits, visits) && i < |visits| && WritesAt(bits, visits, i)
    requires OffChain(bits, visits, i) ==> Spare(bits, visits, i)
    ensures visits[i].chunk.Some? ==> BitsAfter(bits, visits, |visits|)[visits[i].chunk.value]
  {
    if visits[i].chunk.Some? {
      BitSurvives(bits, visits, |visits|, visits[i].chunk.value);
      assert Brings(visits, i, visits[i].chunk.value);
    }
  }

  lemma AnsweredIsKept(bits: seq<bool>, visits: seq<Visit>, i: nat)
    requires IsRound(bits, visits) && Answered(bits, visits, i)
    requires forall j: nat :: OffChain(bits, visits, j) ==> Spare(bits, visits, j)
    ensures BitsAfter(bits, visits, |visits|)[visits[i].chunk.value]
  {
    var b, seen := visits[i].chunk.value, visits[i].seen;
    if BitsAfter(bits, visits, seen)[b] {
      BitSurvives(bits, visits, seen, b);
      OldBitsStay(bits, visits, |visits|);
      if j :| j in Chain(bits, visits, seen) && Brings(visits, j, b) {
        ChainIsEarlier(bits, visits, seen);
        WrittenIsKept(bits, visits, j);
      }
    } else {
      WrittenIsKept(bits, visits, i);
    }
  }

  /** Exactly when no accepted chunk loses its bit, whatever is sent twice, refreshed or failing:
      every write that the last one does not build on is spare. */
  lemma NothingLostIffSpare(bits: seq<bool>, visits: seq<Visit>)
    requires IsRound(bits, visits)
    ensures NothingLost(bits, visits) <==> forall i: nat :: OffChain(bits, visits, i) ==> Spare(bits, visits, i)
  {
    if NothingLost(bits, visits) {
      forall i: nat | OffChain(bits, visits, i) ensures Spare(bits, visits, i) {
        if visits[i].chunk.Some? {
          assert Answered(bits, visits, i);
          BitSurvives(bits, visits, |visits|, visits[i].chunk.value);
          OldBitsStay(bits, visits, visits[i].seen);
        }
      }
    } else {
      var i :| 0 <= i < |visits| && Answered(bits, visits, i) && !BitsAfter(bits, visits, |visits|)[visits[i].chunk.value];
      if forall j: nat :: OffChain(bits, visits, j) ==> Spare(bits, visits, j) {
        AnsweredIsKept(bits, visits, i);
      }
    }
  }

  /** Every request that writes loaded after the write before its own. */
  predicate InTurn(bits: seq<bool>, visits: seq<Visit>, n: nat)
    requires IsRound(bits, visits) && n <= |visits|
  {
    forall k, m :: 0 <= k < m < n && WritesAt(bits, visits, k) && WritesAt(bits, visits, m) ==> k < visits[m].seen
  }

  function Writers(bits: seq<bool>, visits: seq<Visit>, n: nat): set<nat>
    requires IsRound(bits, visits) && n <= |visits|
  {
    set i: nat | i < n && WritesAt(bits, visits, i)
  }

  /** Requests that do not write are not seen on the chain. */
  lemma {:induction false} ChainSkips(bits: seq<bool>, visits: seq<Visit>, a: nat, b: nat)
    requires IsRound(bits, visits) && a <= b <= |visits|
    requires forall k: nat :: a <= k < b ==> !WritesAt(bits, visits, k)
    ensures Chain(bits, visits, b) == Chain(bits, visits, a)
    decreases b - a
  {
    if a < b {
      ChainSkips(bits, visits, a, b - 1);
    }
  }

  lemma {:induction false} WholeChain(bits: seq<bool>, visits: seq<Visit>, n: nat)
    requires IsRound(bits, visits) && n <= |visits|
    ensures Chain(bits, visits, n) == Writers(bits, visits, n) <==> InTurn(bits, visits, n)
    decreases n
  {
    if n > 0 {
      WholeChain(bits, visits, n - 1);
      if !WritesAt(bits, visits, n - 1) {
        assert Writers(bits, visits, n) == Writers(bits, visits, n - 1);
      } else {
        LastInTurn(bits, visits, n);
      }
    }
  }

  lemma LastInTurn(bits: seq<bool>, visits: seq<Visit>, n: nat)
    requires IsRound(bits, visits) && 0 < n <= |visits| && WritesAt(bits, visits, n - 1)
    requires Chain(bits, visits, n - 1) == Writers(bits, visits, n - 1) <==> InTurn(bits, visits, n - 1)
    ensures Chain(bits, visits, n) == Writers(bits, visits, n) <==> InTurn(bits, visits, n)
  {
    var seen := visits[n - 1].seen;
    if k: nat :| seen <= k < n - 1 && WritesAt(bits, visits, k) {
      ChainIsEarlier(bits, visits, seen);
      assert k in Writers(bits, visits, n) && k !in Chain(bits, visits, n);
    } else {
      ChainSkips(bits, visits, seen, n - 1);
      LongerChain(bits, visits, n);
      assert InTurn(bits, visits, n) <==> InTurn(bits, visits, n - 1);
    }
  }

  lemma LongerChain(bits: seq<bool>, visits: seq<Visit>, n: nat)
    requires IsRound(bits, visits) && 0 < n <= |visits| && WritesAt(bits, visits, n - 1)
    requires Chain(bits, visits, visits[n - 1].seen) == Chain(bits, visits, n - 1)
    ensures Chain(bits, visits, n) == Writers(bits, visits, n)
       <==> Chain(bits, visits, n - 1) == Writers(bits, visits, n - 1)
  {
    var chain, writers := Chain(bits, visits, n - 1), Writers(bits, visits, n - 1);
    ChainIsEarlier(bits, visits, n - 1);
    assert Chain(bits, visits, n) == {n - 1} + chain && Writers(bits, visits, n) == {n - 1} + writers;
    assert ({n - 1} + chain) - {n - 1} == chain && ({n - 1} + writers) - {n - 1} == writers;
  }

  predicate SameChunk(a: Visit, b: Visit) {
    a.chunk == b.chunk
  }

  /** Every request brings a chunk of its own. */
  predicate Distinct(visits: seq<Visit>) {
    && (forall m :: 0 <= m < |visits| ==> visits[m].chunk.Some?)
    && forall m, n :: 0 <= m < n < |visits| ==> !SameChunk(visits[m], visits[n])
  }

  /** Requests in turn lose nothing.  When each brings its own chunk, as one client's do, nothing else
      saves them: requests that overlap always lose some. */
  lemma NothingLostIffInTurn(bits: seq<bool>, visits: seq<Visit>)
    requires IsRound(bits, visits)
    ensures InTurn(bits, visits, |visits|) ==> NothingLost(bits, visits)
    ensures Distinct(visits) ==> (NothingLost(bits, visits) <==> InTurn(bits, visits, |visits|))
  {
    NothingLostIffSpare(bits, visits);
    WholeChain(bits, visits, |visits|);
    if InTurn(bits, visits, |visits|) {
      forall i: nat | i < |visits| ensures !OffChain(bits, visits, i) {
        assert WritesAt(bits, visits, i) ==> i in Writers(bits, visits, |visits|);
      }
    } else if Distinct(visits) {
      ChainIsEarlier(bits, visits, |visits|);
      var i :| i in Writers(bits, visits, |visits|) && i !in Chain(bits, visits, |visits|);
      NotSpare(bits, visits, i);
    }
  }

  lemma NotSpare(bits: seq<bool>, visits: seq<Visit>, i: nat)
    requires IsRound(bits, visits) && OffChain(bits, visits, i) && Distinct(visits)
    ensures !Spare(bits, visits, i)
  {
    forall j | j in Chain(bits, visits, |visits|) && j < |visits| ensures !Brings(visits, j, visits[i].chunk.value) {
      assert j < i ==> !SameChunk(visits[j], visits[i]);
      assert i < j ==> !SameChunk(visits[i], visits[j]);
    }
  }

  function MissingBits(bits: seq<bool>): set<nat> {
    set i | 0 <= i < |bits| && !bits[i]
  }

  /** Some chunk of the round is on the chain of the last write. */
  predicate Useful(bits: seq<bool>, visits: seq<Visit>) {
    IsRound(bits, visits) && exists i :: i in Chain(bits, visits, |visits|) && i < |visits| && visits[i].chunk.Some?
  }

  /** A round leaves no more chunks missing, and strictly fewer exactly when some chunk of it is on the
      chain of the last write: so whenever the last to write brought a chunk. */
  lemma RoundShrinks(bits: seq<bool>, visits: seq<Visit>)
    requires IsRound(bits, visits)
    ensures MissingBits(BitsAfter(bits, visits, |visits|)) <= MissingBits(bits)
    ensures |MissingBits(BitsAfter(bits, visits, |visits|))| < |MissingBits(bits)| <==> Useful(bits, visits)
  {
    var after, n := BitsAfter(bits, visits, |visits|), |visits|;
    OldBitsStay(bits, visits, n);
    ChainIsEarlier(bits, visits, n);
    if Useful(bits, visits) {
      var i :| i in Chain(bits, visits, n) && i < n && visits[i].chunk.Some?;
      var b := visits[i].chunk.value;
      BitSurvives(bits, visits, n, b);
      OldBitsStay(bits, visits, visits[i].seen);
      assert Brings(visits, i, b) && b in MissingBits(bits) - MissingBits(after);
      SmallerSet(MissingBits(after), MissingBits(bits), b);
    } else {
      forall b | b in MissingBits(bits) ensures b in MissingBits(after) {
        BitSurvives(bits, visits, n, b);
      }
      assert MissingBits(after) == MissingBits(bits);
    }
  }

  lemma SmallerSet(a: set<nat>, b: set<nat>, x: nat)
    requires a <= b && x in b - a
    ensures |a| < |b|
  {
    assert b == a + {x} + (b - a - {x});
  }

  // ---------------------------------------------------------------- rounds on the server

  /** The upload is this client's: its session and its declared hashes are those of the file. */
  ghost predicate Mine(server: ChunkServer, id: nat, account: nat, file: Bytes)
    reads server
  {
    && server.Valid() && server.UploadBacked(id)
    && id in server.sessions && server.sessions[id].account == account
    && Honest(server.sessions[id], server.declared, file)
  }

  /** The account's unfinished upload of this file can be resumed. */
  ghost predicate Resumes(server: ChunkServer, id: nat, account: nat)
    requires id in server.sessions
    reads server
  {
    var s := server.sessions[id];
    && 0 < s.fileSize <= MAX_SIZE && s.chunkSize > 0 && s.total > 0
    && (account, s.fileHash) in server.hashes && server.hashes[(account, s.fileHash)] == id
  }

  /** The handler of the round's j-th request. */
  function Slot(first: nat, j: nat): nat {
    first + j
  }

  predicate Free(handlers: map<nat, Handler>, first: nat, n: nat) {
    forall j: nat :: j < n ==> Slot(first, j) !in handlers
  }

  /** What a request holds between its load of this session and its write. */
  function CopyOf(session: Session, chunk: Option<nat>): Handler {
    Handler(session.(bits := Marked(session.bits, chunk)), if chunk.Some? then chunk.value else 0)
  }

  /** One chunk request up to its write: load, check, store. */
  method LoadAndStore(server: ChunkServer, id: nat, account: nat, file: Bytes, index: nat, diskFails: bool, h: nat)
    returns (answer: Option<Status>)
    requires Mine(server, id, account, file) && h !in server.handlers
    requires index < |server.sessions[id].bits|
    modifies server
    ensures Mine(server, id, account, file) && server.sessions == old(server.sessions) && server.hashes == old(server.hashes)
    ensures answer == if server.sessions[id].bits[index] then Some(Accepted) else if diskFails then Some(ServerError) else None
    ensures server.handlers == if answer.None? then old(server.handlers)[h := CopyOf(server.sessions[id], Some(index))]
                               else old(server.handlers)
  {
    var body := Slice(file, server.sessions[id].chunkSize, index);
    answer := server.BeginChunk(h, id, account, index);
    if answer.None? {
      answer := server.StoreChunk(h, MD5(body), body, diskFails);
      assert diskFails ==> server.handlers == old(server.handlers);
    }
  }

  /** The client asks what is there; the request then holds a copy to write back as it was. */
  method StartResume(server: ChunkServer, id: nat, account: nat, ghost file: Bytes, h: nat) returns (status: Status)
    requires Mine(server, id, account, file) && Resumes(server, id, account) && h !in server.handlers
    modifies server
    ensures Mine(server, id, account, file) && server.sessions == old(server.sessions) && server.hashes == old(server.hashes)
    ensures server.handlers == old(server.handlers)[h := CopyOf(server.sessions[id], None)]
    ensures status.Resumed? && forall i :: i in status.uploaded <==> i in SetBits(server.sessions[id].bits)
  {
    var s := server.sessions[id];
    status := server.InitChunkUpload(h, account, s.fileSize, s.chunkSize, s.total, s.fileHash, id, false, false);
  }

  /** The load of any request of a round. */
  method Load(server: ChunkServer, id: nat, account: nat, file: Bytes, v: Visit, h: nat)
    requires Mine(server, id, account, file) && Resumes(server, id, account) && h !in server.handlers
    requires v.chunk.Some? ==> v.chunk.value < |server.sessions[id].bits|
    modifies server
    ensures Mine(server, id, account, file) && server.sessions == old(server.sessions) && server.hashes == old(server.hashes)
    ensures server.handlers == if Holds(v, server.sessions[id].bits) then old(server.handlers)[h := CopyOf(server.sessions[id], v.chunk)]
                               else old(server.handlers)
  {
    if v.chunk.Some? {
      var answer := LoadAndStore(server, id, account, file, v.chunk.value, v.fails.Disk?, h);
    } else {
      var status := StartResume(server, id, account, file, h);
    }
  }

  /** The requests whose load comes before the phase is over, or is one of the first `upto` in it. */
  predicate Loaded(visits: seq<Visit>, phase: nat, upto: nat, j: nat)
    requires j < |visits|
  {
    visits[j].seen < phase || (visits[j].seen == phase && j < upto)
  }

  predicate HoldsAt(bits: seq<bool>, visits: seq<Visit>, j: nat)
    requires IsRound(bits, visits) && j < |visits|
  {
    Holds(visits[j], BitsAfter(bits, visits, visits[j].seen))
  }

  /** What request j holds between its load and its write: the copy it loaded, with its own bit. */
  function Held(start: Session, visits: seq<Visit>, j: nat): Handler
    requires IsRound(start.bits, visits) && j < |visits|
  {
    CopyOf(start.(bits := BitsAfter(start.bits, visits, visits[j].seen)), visits[j].chunk)
  }

  /** Request j holds its copy exactly when it has loaded and not finished. */
  ghost predicate SlotAt(handlers: map<nat, Handler>, start: Session, visits: seq<Visit>, first: nat,
                         done: nat, upto: nat, j: nat)
    requires IsRound(start.bits, visits) && j < |visits|
  {
    if done <= j && Loaded(visits, done, upto, j) && HoldsAt(start.bits, visits, j)
    then Slot(first, j) in handlers && handlers[Slot(first, j)] == Held(start, visits, j)
    else Slot(first, j) !in handlers
  }

  /** After `done` requests have finished. */
  ghost predicate Pending(handlers: map<nat, Handler>, start: Session, visits: seq<Visit>, first: nat, done: nat, upto: nat)
    requires IsRound(start.bits, visits)
  {
    forall j: nat :: j < |visits| ==>
      SlotAt(handlers, start, visits, first, done, upto, j)
  }

  lemma LoadKeepsPending(handlers: map<nat, Handler>, start: Session, visits: seq<Visit>, first: nat, done: nat, j: nat,
                         handlers': map<nat, Handler>)
    requires IsRound(start.bits, visits) && j < |visits| && visits[j].seen == done
    requires Pending(handlers, start, visits, first, done, j)
    requires handlers' == if HoldsAt(start.bits, visits, j) then handlers[Slot(first, j) := Held(start, visits, j)] else handlers
    ensures Pending(handlers', start, visits, first, done, j + 1)
  {
    var upto := j + 1;
    forall i: nat | i < |visits| ensures SlotAt(handlers', start, visits, first, done, upto, i)
    {
      assert SlotAt(handlers, start, visits, first, done, j, i);
    }
  }

  lemma NotYetLoaded(handlers: map<nat, Handler>, start: Session, visits: seq<Visit>, first: nat, done: nat, j: nat)
    requires IsRound(start.bits, visits) && j < |visits| && Pending(handlers, start, visits, first, done, j)
    ensures visits[j].seen == done ==> Slot(first, j) !in handlers
    ensures visits[j].seen != done ==> Pending(handlers, start, visits, first, done, j + 1)
  {
    assert SlotAt(handlers, start, visits, first, done, j, j);
    if visits[j].seen != done {
      var upto := j + 1;
      forall i: nat | i < |visits| ensures SlotAt(handlers, start, visits, first, done, upto, i)
      {
        assert SlotAt(handlers, start, visits, first, done, j, i);
      }
    }
  }

  lemma WriteKeepsPending(handlers: map<nat, Handler>, start: Session, visits: seq<Visit>, first: nat, done: nat)
    requires IsRound(start.bits, visits) && done < |visits|
    requires Pending(handlers, start, visits, first, done, |visits|)
    ensures Slot(first, done) in handlers <==> HoldsAt(start.bits, visits, done)
    ensures Slot(first, done) in handlers ==> handlers[Slot(first, done)] == Held(start, visits, done)
    ensures Pending(handlers - {Slot(first, done)}, start, visits, first, done + 1, 0)
  {
    var after, next := handlers - {Slot(first, done)}, done + 1;
    assert SlotAt(handlers, start, visits, first, done, |visits|, done);
    forall i: nat | i < |visits| ensures SlotAt(after, start, visits, first, next, 0, i)
    {
      assert SlotAt(handlers, start, visits, first, done, |visits|, i);
    }
  }

  /** The requests of everybody else. */
  ghost predicate SameOthers(a: map<nat, Handler>, b: map<nat, Handler>, first: nat, n: nat) {
    forall h :: !(first <= h < first + n) ==> (h in a <==> h in b) && (h in a ==> a[h] == b[h])
  }

  lemma AllWritten(a: map<nat, Handler>, b: map<nat, Handler>, first: nat, n: nat)
    requires SameOthers(a, b, first, n) && Free(a, first, n) && Free(b, first, n)
    ensures a == b
  {
    forall h | first <= h < first + n ensures h !in a && h !in b {
      assert Slot(first, h - first) == h;
    }
  }

  /** Where a round stands after `done` requests have finished. */
  ghost predicate RoundAt(server: ChunkServer, start: Session, visits: seq<Visit>, first: nat, done: nat, upto: nat)
    requires IsRound(start.bits, visits) && done <= |visits|
    reads server
  {
    && start.id in server.sessions
    && server.sessions[start.id] == start.(bits := BitsAfter(start.bits, visits, done))
    && Pending(server.handlers, start, visits, first, done, upto)
  }

  /** All loads that come after `done` requests have finished and before the next does. */
  method LoadPhase(server: ChunkServer, account: nat, file: Bytes, ghost start: Session, id: nat,
                   visits: seq<Visit>, first: nat, done: nat)
    requires IsRound(start.bits, visits) && done <= |visits| && id == start.id
    requires Mine(server, id, account, file) && Resumes(server, id, account) && RoundAt(server, start, visits, first, done, 0)
    modifies server
    ensures Mine(server, id, account, file) && RoundAt(server, start, visits, first, done, |visits|)
    ensures server.hashes == old(server.hashes) && SameOthers(server.handlers, old(server.handlers), first, |visits|)
  {
    for j := 0 to |visits|
      invariant Mine(server, id, account, file) && RoundAt(server, start, visits, first, done, j)
      invariant server.hashes == old(server.hashes) && SameOthers(server.handlers, old(server.handlers), first, |visits|)
    {
      NotYetLoaded(server.handlers, start, visits, first, done, j);
      if visits[j].seen == done {
        ghost var before := server.handlers;
        Load(server, id, account, file, visits[j], Slot(first, j));
        LoadKeepsPending(before, start, visits, first, done, j, server.handlers);
      }
    }
  }

  /** The next request finishes: with its write, with a write that fails, or without one. */
  method WritePhase(server: ChunkServer, account: nat, ghost file: Bytes, ghost start: Session, id: nat,
                    visits: seq<Visit>, first: nat, done: nat) returns (status: Option<Status>)
    requires IsRound(start.bits, visits) && done < |visits| && id == start.id
    requires Mine(server, id, account, file) && RoundAt(server, start, visits, first, done, |visits|)
    modifies server
    ensures Mine(server, id, account, file) && RoundAt(server, start, visits, first, done + 1, 0)
    ensures status == if !HoldsAt(start.bits, visits, done) then None
                      else Some(if visits[done].fails.Save? then ServerError else Accepted)
    ensures server.hashes == old(server.hashes) && SameOthers(server.handlers, old(server.handlers), first, |visits|)
  {
    WriteKeepsPending(server.handlers, start, visits, first, done);
    status := None;
    if Slot(first, done) in server.handlers {
      var answer := server.SaveSession(Slot(first, done), visits[done].fails.Save?);
      status := Some(answer);
    } else {
      assert server.handlers - {Slot(first, done)} == server.handlers;
    }
  }

  /** A round of requests on the server, loads and writes interleaved in any way. */
  method RunRound(server: ChunkServer, id: nat, account: nat, file: Bytes, visits: seq<Visit>, first: nat)
    requires Mine(server, id, account, file) && Resumes(server, id, account) && Free(server.handlers, first, |visits|)
    requires IsRound(server.sessions[id].bits, visits)
    modifies server
    ensures Mine(server, id, account, file) && Resumes(server, id, account)
    ensures server.sessions[id] == old(server.sessions[id]).(bits := BitsAfter(old(server.sessions[id]).bits, visits, |visits|))
    ensures server.handlers == old(server.handlers) && server.hashes == old(server.hashes)
  {
    ghost var start := server.sessions[id];
    for done := 0 to |visits|
      invariant Mine(server, id, account, file) && RoundAt(server, start, visits, first, done, 0)
      invariant server.hashes == old(server.hashes) && SameOthers(server.handlers, old(server.handlers), first, |visits|)
    {
      LoadPhase(server, account, file, start, id, visits, first, done);
      var status := WritePhase(server, account, file, start, id, visits, first, done);
    }
    NothingPending(server.handlers, start, visits, first);
    AllWritten(server.handlers, old(server.handlers), first, |visits|);
  }

  lemma NothingPending(handlers: map<nat, Handler>, start: Session, visits: seq<Visit>, first: nat)
    requires IsRound(start.bits, visits) && Pending(handlers, start, visits, first, |visits|, 0)
    ensures Free(handlers, first, |visits|)
  {
    forall j: nat | j < |visits| ensures Slot(first, j) !in handlers {
      assert SlotAt(handlers, start, visits, first, |visits|, 0, j);
    }
  }

  // ---------------------------------------------------------------- resume until complete

  lemma SomeRound(bits: seq<bool>)
    requires MissingBits(bits) != {}
    ensures exists visits :: Useful(bits, visits)
  {
    var i :| i in MissingBits(bits);
    var visits := [Visit(Some(i), 0, Nothing)];
    assert IsRound(bits, visits) && WritesAt(bits, visits, 0);
    assert 0 in Chain(bits, visits, 1) && Useful(bits, visits);
  }

  lemma NoneMissing(bits: seq<bool>)
    requires MissingBits(bits) == {}
    ensures AllSet(bits)
  {
    forall i | 0 <= i < |bits| ensures bits[i] {
      assert i !in MissingBits(bits);
    }
  }

  /** Rounds of any kind, useful or not, among which some chunk may get through. */
  method IdleRounds(server: ChunkServer, id: nat, account: nat, file: Bytes, first: nat)
    requires Mine(server, id, account, file) && Resumes(server, id, account)
    requires forall n: nat :: Free(server.handlers, first, n)
    modifies server
    ensures Mine(server, id, account, file) && Resumes(server, id, account) && server.handlers == old(server.handlers)
    ensures |MissingBits(server.sessions[id].bits)| <= |MissingBits(old(server.sessions[id]).bits)|
  {
    var n: nat :| n >= 0;
    for i := 0 to n
      invariant Mine(server, id, account, file) && Resumes(server, id, account) && server.handlers == old(server.handlers)
      invariant |MissingBits(server.sessions[id].bits)| <= |MissingBits(old(server.sessions[id]).bits)|
    {
      ghost var bits := server.sessions[id].bits;
      assert IsRound(bits, []);
      var visits: seq<Visit> :| IsRound(server.sessions[id].bits, visits);
      RunRound(server, id, account, file, visits, first);
      RoundShrinks(bits, visits);
      FewerOrSame(MissingBits(server.sessions[id].bits), MissingBits(bits));
    }
  }

  lemma FewerOrSame(a: set<nat>, b: set<nat>)
    requires a <= b
    ensures |a| <= |b|
  {
    assert b == a + (b - a);
  }

  /** A client that sends missing chunks, any of them, twice or once, in any order and overlapping in any
      way, resumes in between and has requests fail, until none is missing: at most as many useful rounds
      as chunks were missing, and the server joins exactly its file. */
  method UploadInRounds(server: ChunkServer, id: nat, account: nat, file: Bytes, first: nat)
    returns (status: Status, useful: nat)
    requires Mine(server, id, account, file) && Resumes(server, id, account)
    requires forall n: nat :: Free(server.handlers, first, n)
    modifies server
    ensures status == Joined(file)
    ensures useful <= |MissingBits(old(server.sessions[id]).bits)|
  {
    useful := 0;
    IdleRounds(server, id, account, file, first);
    while MissingBits(server.sessions[id].bits) != {}
      invariant Mine(server, id, account, file) && Resumes(server, id, account)
      invariant server.handlers == old(server.handlers)
      invariant useful + |MissingBits(server.sessions[id].bits)| <= |MissingBits(old(server.sessions[id]).bits)|
      decreases |MissingBits(server.sessions[id].bits)|
    {
      ghost var bits := server.sessions[id].bits;
      SomeRound(bits);
      var visits: seq<Visit> :| Useful(server.sessions[id].bits, visits);
      RunRound(server, id, account, file, visits, first);
      RoundShrinks(bits, visits);
      IdleRounds(server, id, account, file, first);
      useful := useful + 1;
    }
    NoneMissing(server.sessions[id].bits);
    status := server.CompleteChunkUpload(id, account, false, None, false, false, file);
  }

  /** The browser keeps three requests in flight, so it does lose bits: two that overlap leave one. */
  lemma TwoAtOnce(bits: seq<bool>, i: nat, j: nat)
    requires i < |bits| && j < |bits| && i != j && !bits[i] && !bits[j]
    ensures var round := [Visit(Some(i), 0, Nothing), Visit(Some(j), 0, Nothing)];
            IsRound(bits, round) && BitsAfter(bits, round, 2) == bits[j := true]
  {
    var round := [Visit(Some(i), 0, Nothing), Visit(Some(j), 0, Nothing)];
    assert IsRound(bits, round) && BitsAfter(bits, round, 0) == bits;
  }

  /** And so does a resume whose refresh lands after a chunk it had not seen: the chunk's bit goes. */
  lemma RefreshLosesBit(bits: seq<bool>, i: nat)
    requires i < |bits| && !bits[i]
    ensures var round := [Visit(Some(i), 0, Nothing), Visit(None, 0, Nothing)];
            IsRound(bits, round) && Answered(bits, round, 0) && BitsAfter(bits, round, 2) == bits
  {
    var round := [Visit(Some(i), 0, Nothing), Visit(None, 0, Nothing)];
    assert IsRound(bits, round) && BitsAfter(bits, round, 0) == bits;
  }
}
