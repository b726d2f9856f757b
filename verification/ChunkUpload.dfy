/** Resumable upload on the server: a session in Redis with one bit per chunk, chunk files on disk,
    and requests that load the session, work, and write their whole copy of it back.

    Between the load and the write of one request any other request may run, so writes may be lost.
    A chunk file is written in one step.  MD5 is injective: a digest is modelled by its preimage.
 */
module ChunkUpload {
  import opened Ranking

  type Bytes = seq<bv8>

  datatype Digest = Digest(of: Bytes)

  function MD5(body: Bytes): Digest {
    Digest(body)
  }

  datatype Session = Session(id: nat, account: nat, fileSize: nat, chunkSize: nat, total: nat, fileHash: Digest, bits: seq<bool>)

  datatype Status =
    | BadRequest | NotFound | Forbidden | ServerError | HashMismatch
    | Accepted
    | Resumed(id: nat, uploaded: seq<nat>)
    | Created(id: nat)
    | Incomplete(missing: nat, completed: nat)
    | Joined(content: Bytes)

  const MAX_SIZE: nat := 209_715_200

  function SetBits(bits: seq<bool>): set<nat> {
    set i | 0 <= i < |bits| && bits[i]
  }

  lemma OneMoreBit(bits: seq<bool>, i: nat)
    requires i < |bits|
    ensures SetBits(bits[..i + 1]) == SetBits(bits[..i]) + (if bits[i] then {i} else {})
    ensures i !in SetBits(bits[..i])
    ensures |SetBits(bits[..i + 1])| == |SetBits(bits[..i])| + (if bits[i] then 1 else 0)
  {
    assert SetBits(bits[..i + 1]) == SetBits(bits[..i]) + (if bits[i] then {i} else {});
  }

  /** The indices of the set bits, ascending. */
  method UploadedChunks(bits: seq<bool>) returns (indices: seq<nat>)
    ensures forall i :: i in indices <==> i in SetBits(bits)
    ensures forall j, k :: 0 <= j < k < |indices| ==> indices[j] < indices[k]
    ensures |indices| == |SetBits(bits)|
  {
    indices := [];
    assert SetBits(bits[..0]) == {};
    for i := 0 to |bits|
      invariant forall k :: k in indices <==> k in SetBits(bits[..i])
      invariant forall j :: 0 <= j < |indices| ==> indices[j] < i
      invariant forall j, k :: 0 <= j < k < |indices| ==> indices[j] < indices[k]
      invariant |indices| == |SetBits(bits[..i])|
    {
      OneMoreBit(bits, i);
      if bits[i] {
        indices := indices + [i];
      }
    }
    assert bits[..|bits|] == bits;
  }

  predicate AllSet(bits: seq<bool>) {
    forall i :: 0 <= i < |bits| ==> bits[i]
  }

  method IsComplete(bits: seq<bool>) returns (complete: bool)
    ensures complete <==> AllSet(bits)
  {
    for i := 0 to |bits|
      invariant forall j :: 0 <= j < i ==> bits[j]
    {
      if !bits[i] {
        return false;
      }
    }
    return true;
  }

  /** The missing chunks, reported as at most five. */
  method CountMissing(bits: seq<bool>) returns (missing: nat)
    ensures missing == if |bits| - |SetBits(bits)| > 5 then 5 else |bits| - |SetBits(bits)|
  {
    missing := 0;
    assert SetBits(bits[..0]) == {};
    for i := 0 to |bits|
      invariant missing <= 5 && missing == i - |SetBits(bits[..i])|
    {
      OneMoreBit(bits, i);
      if !bits[i] {
        missing := missing + 1;
        if missing > 5 {
          FewerBits(bits, i + 1);
          missing := 5;
          return;
        }
      }
    }
    assert bits[..|bits|] == bits;
  }

  lemma FewerBits(bits: seq<bool>, n: nat)
    requires n <= |bits|
    ensures |bits| - |SetBits(bits)| >= n - |SetBits(bits[..n])|
    decreases |bits| - n
  {
    if n == |bits| {
      assert bits[..n] == bits;
    } else {
      OneMoreBit(bits, n);
      FewerBits(bits, n + 1);
    }
  }

  lemma SetAndUnset(bits: seq<bool>)
    ensures |set i: nat | i < |bits| && bits[i]| == |SetBits(bits)|
    ensures |set i: nat | i < |bits| && !bits[i]| == |bits| - |SetBits(bits)|
  {
    var on, off := set i: nat | i < |bits| && bits[i], set i: nat | i < |bits| && !bits[i];
    assert on == SetBits(bits);
    CountAll(on + off, |bits|);
    assert |on + off| == |on| + |off|;
  }

  lemma {:induction false} CountAll(all: set<nat>, n: nat)
    requires forall i: nat :: i in all <==> i < n
    ensures |all| == n
  {
    if n == 0 {
      assert all == {};
    } else {
      CountAll(all - {n - 1}, n - 1);
    }
  }

  /** Every set bit has its chunk on disk. */
  ghost predicate Backed(s: Session, chunks: map<(nat, nat), Bytes>) {
    forall i :: i in SetBits(s.bits) ==> (s.id, i) in chunks
  }

  /** A request under way holds its own copy of the session. */
  datatype Handler = Handler(session: Session, index: nat)

  class ChunkServer {
    var sessions: map<nat, Session>
    var hashes: map<(nat, Digest), nat>
    var chunks: map<(nat, nat), Bytes>
    var handlers: map<nat, Handler>
    ghost var declared: map<(nat, nat), Digest>

    /** What every operation keeps: sessions have one bit per chunk, and each stored chunk is the
        content whose hash was declared with it. */
    ghost predicate Valid()
      reads this
    {
      && (forall id :: id in sessions ==> sessions[id].id == id && |sessions[id].bits| == sessions[id].total)
      && (forall h :: h in handlers ==> |handlers[h].session.bits| == handlers[h].session.total)
      && (forall k :: k in chunks ==> k in declared && MD5(chunks[k]) == declared[k])
    }

    /** What every operation but a complete of the upload keeps as well: each set bit of the upload,
        stored or in a request's copy, has its chunk. */
    ghost predicate UploadBacked(id: nat)
      reads this
    {
      && (id in sessions ==> Backed(sessions[id], chunks))
      && (forall h :: h in handlers && handlers[h].session.id == id ==> Backed(handlers[h].session, chunks))
    }

    predicate Resumable(account: nat, fileHash: Digest)
      reads this
    {
      (account, fileHash) in hashes && hashes[(account, fileHash)] in sessions
    }

    constructor ()
      ensures Valid() && (forall id :: UploadBacked(id)) && sessions == map[] && chunks == map[] && handlers == map[]
    {
      sessions, hashes, chunks, handlers, declared := map[], map[], map[], map[], map[];
    }

    /** A new session, or the account's unfinished one for the same file: the request then holds a
        copy of it to refresh, and answers with the chunks that need not be sent again. */
    method InitChunkUpload(h: nat, account: nat, fileSize: nat, chunkSize: nat, total: nat, fileHash: Digest, id: nat,
                           saveFails: bool, hashFails: bool) returns (status: Status)
      requires Valid() && h !in handlers
      modifies this`sessions, this`hashes, this`handlers
      ensures Valid()
      ensures forall u :: old(UploadBacked(u)) ==> UploadBacked(u)
      ensures status in {BadRequest, ServerError, Created(id)} || status.Resumed?
      ensures status == BadRequest <==> fileSize < 1 || chunkSize < 1 || total < 1 || fileSize > 209_715_200
      ensures status != BadRequest ==> (status.Resumed? <==> old(Resumable(account, fileHash)))
      ensures status == ServerError <==>
                && !(fileSize < 1 || chunkSize < 1 || total < 1 || fileSize > 209_715_200)
                && !old(Resumable(account, fileHash)) && (saveFails || hashFails)
      ensures status == ServerError && saveFails ==> sessions == old(sessions)
      ensures status == BadRequest ==> sessions == old(sessions)
      ensures status.Resumed? ==>
                && (account, fileHash) in old(hashes) && old(hashes)[(account, fileHash)] == status.id
                && status.id in sessions && sessions == old(sessions)
                && handlers == old(handlers)[h := Handler(sessions[status.id], 0)]
                && forall i :: i in status.uploaded <==> i in SetBits(sessions[status.id].bits)
      ensures status.Created? ==>
                && id in sessions && SetBits(sessions[id].bits) == {} && hashes == old(hashes)[(account, fileHash) := id]
                && sessions == old(sessions)[id := Session(id, account, fileSize, chunkSize, total, fileHash, sessions[id].bits)]
      ensures !status.Resumed? ==> handlers == old(handlers)
      ensures !status.Created? ==> hashes == old(hashes)
    {
      if fileSize < 1 || chunkSize < 1 || total < 1 {
        return BadRequest;
      }
      if fileSize > MAX_SIZE {
        return BadRequest;
      }
      if (account, fileHash) in hashes {
        var existing := hashes[(account, fileHash)];
        if existing in sessions {
          var session := sessions[existing];
          handlers := handlers[h := Handler(session, 0)];
          var uploaded := UploadedChunks(session.bits);
          return Resumed(existing, uploaded);
        }
      }
      var session := Session(id, account, fileSize, chunkSize, total, fileHash, seq(total, _ => false));
      if saveFails {
        return ServerError;
      }
      sessions := sessions[id := session];
      if hashFails {
        return ServerError;
      }
      hashes := hashes[(account, fileHash) := id];
      return Created(id);
    }

    /** The first part of a chunk request: its checks, on the session as it is now. */
    method BeginChunk(h: nat, id: nat, account: nat, index: int) returns (status: Option<Status>)
      requires Valid() && h !in handlers
      modifies this`handlers
      ensures Valid()
      ensures forall u :: old(UploadBacked(u)) ==> UploadBacked(u)
      ensures status.None? <==> id in sessions && sessions[id].account == account
                                && 0 <= index < sessions[id].total && index !in SetBits(sessions[id].bits)
      ensures status.None? ==> handlers == old(handlers)[h := Handler(sessions[id], index)]
      ensures status.Some? ==> handlers == old(handlers)
      ensures status == Some(NotFound) <==> id !in sessions
      ensures status == Some(BadRequest) <==>
                id in sessions && sessions[id].account == account && !(0 <= index < sessions[id].total)
      ensures status == Some(Forbidden) <==> id in sessions && sessions[id].account != account
      ensures status == Some(Accepted) <==>
                id in sessions && sessions[id].account == account && index in SetBits(sessions[id].bits)
      ensures status == Some(Accepted) && UploadBacked(id) ==> (id, index as nat) in chunks
    {
      if id !in sessions {
        return Some(NotFound);
      }
      var session := sessions[id];
      if session.account != account {
        return Some(Forbidden);
      }
      if index < 0 || index >= session.total {
        return Some(BadRequest);
      }
      if session.bits[index] {
        return Some(Accepted);
      }
      handlers := handlers[h := Handler(session, index)];
      return None;
    }

    /** The second part: the body is stored if its hash is the declared one. */
    method StoreChunk(h: nat, chunkHash: Digest, body: Bytes, diskFails: bool) returns (status: Option<Status>)
      requires Valid() && h in handlers && handlers[h].index < handlers[h].session.total
      modifies this`chunks, this`handlers, this`declared
      ensures Valid()
      ensures forall u :: old(UploadBacked(u)) ==> UploadBacked(u)
      ensures status.None? <==> MD5(body) == chunkHash && !diskFails
      ensures status == Some(HashMismatch) <==> MD5(body) != chunkHash
      ensures status.Some? ==> handlers == old(handlers) - {h} && chunks == old(chunks) && declared == old(declared)
      ensures MD5(body) == chunkHash && diskFails ==> status == Some(ServerError)
      ensures status.None? ==>
                var was := old(handlers)[h];
                && chunks == old(chunks)[(was.session.id, was.index) := body]
                && declared == old(declared)[(was.session.id, was.index) := chunkHash]
                && handlers == old(handlers)[h := was.(session := was.session.(bits := was.session.bits[was.index := true]))]
    {
      var request := handlers[h];
      var session := request.session;
      if MD5(body) != chunkHash {
        handlers := handlers - {h};
        return Some(HashMismatch);
      }
      if diskFails {
        handlers := handlers - {h};
        return Some(ServerError);
      }
      var key := (session.id, request.index);
      chunks := chunks[key := body];
      declared := declared[key := chunkHash];
      handlers := handlers[h := request.(session := session.(bits := session.bits[request.index := true]))];
      return None;
    }

    /** The last part, of a chunk request and of a resume alike: the whole copy is written back. */
    method SaveSession(h: nat, fails: bool) returns (status: Status)
      requires Valid() && h in handlers
      modifies this`sessions, this`handlers
      ensures Valid()
      ensures forall u :: old(UploadBacked(u)) ==> UploadBacked(u)
      ensures handlers == old(handlers) - {h}
      ensures var copy := old(handlers)[h].session;
              sessions == if fails then old(sessions) else old(sessions)[copy.id := copy]
      ensures status == if fails then ServerError else Accepted
    {
      var session := handlers[h].session;
      handlers := handlers - {h};
      if fails {
        return ServerError;
      }
      sessions := sessions[session.id := session];
      return Accepted;
    }

    /** A session's day is over. */
    method Expire(id: nat)
      requires Valid()
      modifies this`sessions
      ensures Valid() && sessions == old(sessions) - {id}
      ensures forall u :: old(UploadBacked(u)) ==> UploadBacked(u)
    {
      sessions := sessions - {id};
    }

    /** Joins the chunks of a complete session, then removes them and the two keys in Redis; what the
        deletes answer is ignored. */
    method CompleteChunkUpload(id: nat, account: nat, dirFails: bool, unreadable: Option<nat>,
                               sessionStays: bool, hashStays: bool, ghost file: Bytes)
      returns (status: Status)
      requires Valid()
      modifies this`sessions, this`hashes, this`chunks
      ensures Valid()
      ensures status.Joined? ==>
                && id in old(sessions) && old(sessions)[id].account == account
                && status.content == Join(old(chunks), id, old(sessions)[id].total)
                && (forall k :: k in chunks <==> k in old(chunks) && k.0 != id)
                && (forall k :: k in chunks ==> chunks[k] == old(chunks)[k])
                && sessions == (if sessionStays then old(sessions) else old(sessions) - {id})
                && hashes == (if hashStays then old(hashes) else old(hashes) - {(account, old(sessions)[id].fileHash)})
      ensures status.Joined? && Honest(old(sessions)[id], declared, file) ==> status.content == file
      ensures status.Joined? && old(sessions)[id].total > 0 ==>
                (UploadBacked(id) <==> !sessionStays && forall r :: r in handlers && handlers[r].session.id == id ==>
                                                                   SetBits(handlers[r].session.bits) == {})
      ensures forall u :: old(UploadBacked(u)) && u != id ==> UploadBacked(u)
      ensures !status.Joined? ==> sessions == old(sessions) && chunks == old(chunks) && hashes == old(hashes)
      ensures id in old(sessions) && old(sessions)[id].account == account && !dirFails && unreadable.None? ==>
                (status.Joined? <==> AllSet(old(sessions)[id].bits)
                                     && forall i :: 0 <= i < old(sessions)[id].total ==> (id, i) in old(chunks))
      ensures status == NotFound <==> id !in old(sessions)
      ensures status == Forbidden <==> id in old(sessions) && old(sessions)[id].account != account
      ensures id in old(sessions) && old(sessions)[id].account == account ==>
                (status.Incomplete? <==> exists i :: 0 <= i < |old(sessions)[id].bits| && !old(sessions)[id].bits[i])
      ensures status.Incomplete? ==>
                var bits := old(sessions)[id].bits;
                var unset := |set i: nat | i < |bits| && !bits[i]|;
                && status.completed == |set i: nat | i < |bits| && bits[i]|
                && status.missing == if unset < 5 then unset else 5
      ensures id in old(sessions) && old(sessions)[id].account == account && !status.Joined? ==>
                status == ServerError || (status.Incomplete? && !AllSet(old(sessions)[id].bits))
    {
      if id !in sessions {
        return NotFound;
      }
      var session := sessions[id];
      if session.account != account {
        return Forbidden;
      }
      var complete := IsComplete(session.bits);
      if !complete {
        var missing := CountMissing(session.bits);
        SetAndUnset(session.bits);
        var uploaded := UploadedChunks(session.bits);
        return Incomplete(missing, |uploaded|);
      }
      if dirFails {
        return ServerError;
      }
      var ok, content := JoinChunks(session, unreadable);
      if !ok {
        return ServerError;
      }
      if Honest(session, declared, file) {
        JoinedIsOriginal(session, declared, file, chunks);
      }
      CleanUp(session, sessionStays, hashStays);
      return Joined(content);
    }

    method JoinChunks(session: Session, unreadable: Option<nat>) returns (ok: bool, content: Bytes)
      ensures ok ==> content == Join(chunks, session.id, session.total)
      ensures ok ==> forall i :: 0 <= i < session.total ==> (session.id, i) in chunks
      ensures unreadable.None? && (forall i :: 0 <= i < session.total ==> (session.id, i) in chunks) ==> ok
    {
      content := [];
      for i := 0 to session.total
        invariant content == Join(chunks, session.id, i)
        invariant forall j :: 0 <= j < i ==> (session.id, j) in chunks
      {
        if unreadable == Some(i) || (session.id, i) !in chunks {
          return false, [];
        }
        content := content + chunks[(session.id, i)];
      }
      return true, content;
    }

    /** Every file of the upload goes, and the two keys in Redis unless their deletes fail.  A session
        that survives then claims chunks that are gone, as does any request that still holds one. */
    method CleanUp(session: Session, sessionStays: bool, hashStays: bool)
      requires Valid() && session.id in sessions && sessions[session.id] == session
      modifies this`sessions, this`hashes, this`chunks
      ensures Valid()
      ensures forall k :: k in chunks <==> k in old(chunks) && k.0 != session.id
      ensures forall k :: k in chunks ==> chunks[k] == old(chunks)[k]
      ensures sessions == if sessionStays then old(sessions) else old(sessions) - {session.id}
      ensures hashes == if hashStays then old(hashes) else old(hashes) - {(session.account, session.fileHash)}
      ensures UploadBacked(session.id) <==>
                (sessionStays ==> SetBits(session.bits) == {})
                && forall r :: r in handlers && handlers[r].session.id == session.id ==> SetBits(handlers[r].session.bits) == {}
      ensures forall u :: old(UploadBacked(u)) && u != session.id ==> UploadBacked(u)
    {
      chunks := map k | k in chunks && k.0 != session.id :: chunks[k];
      if !sessionStays {
        sessions := sessions - {session.id};
      }
      if !hashStays {
        hashes := hashes - {(session.account, session.fileHash)};
      }
      assert !sessionStays ==> session.id !in sessions;
      BackedAfter(chunks, session);
      forall r | r in handlers && handlers[r].session.id == session.id
        ensures Backed(handlers[r].session, chunks) <==> SetBits(handlers[r].session.bits) == {}
      {
        BackedAfter(chunks, handlers[r].session);
      }
    }
  }

  /** Once an upload has no chunks. */
  lemma BackedAfter(chunks: map<(nat, nat), Bytes>, s: Session)
    requires forall k :: k in chunks ==> k.0 != s.id
    ensures Backed(s, chunks) <==> SetBits(s.bits) == {}
  {
    if i :| i in SetBits(s.bits) {
      assert (s.id, i) !in chunks;
    }
  }

  /** The chunks 0 to n, one after the other. */
  function Join(chunks: map<(nat, nat), Bytes>, id: nat, n: nat): Bytes {
    if n == 0 then []
    else Join(chunks, id, n - 1) + (if (id, n - 1) in chunks then chunks[(id, n - 1)] else [])
  }

  // ---------------------------------------------------------------- round trip

  function Min(a: int, b: int): int {
    if a < b then a else b
  }

  /** The client's chunk i of a file, for any chunk size. */
  function Slice(file: Bytes, size: nat, i: nat): Bytes {
    var start := i * size;
    if start >= |file| then [] else file[start..Min(start + size, |file|)]
  }

  /** Math.ceil(size of the file / chunk size). */
  function ChunkCount(length: nat, size: nat): nat
    requires size > 0
  {
    (length + size - 1) / size
  }

  lemma CountIsExact(length: nat, size: nat)
    requires size > 0
    ensures ChunkCount(length, size) * size >= length
    ensures length > 0 ==> 0 < ChunkCount(length, size) && (ChunkCount(length, size) - 1) * size < length
  {
    var n := ChunkCount(length, size);
    assert length + size - 1 == n * size + (length + size - 1) % size;
    assert (n - 1) * size == n * size - size;
    assert length > 0 ==> n * size > 0 && n != 0;
  }

  lemma SliceAppends(file: Bytes, size: nat, i: nat, start: nat)
    requires start == i * size
    ensures file[..Min(start, |file|)] + Slice(file, size, i) == file[..Min(start + size, |file|)]
  {
    if start < |file| {
      assert file[..start] + file[start..Min(start + size, |file|)] == file[..Min(start + size, |file|)];
    }
  }

  /** Joining the first n chunks of a file gives its first n * size bytes. */
  lemma {:induction false} SlicesJoin(file: Bytes, size: nat, chunks: map<(nat, nat), Bytes>, id: nat, n: nat, end: nat)
    requires forall i :: 0 <= i < n ==> (id, i) in chunks && chunks[(id, i)] == Slice(file, size, i)
    requires end == n * size
    ensures Join(chunks, id, n) == file[..Min(end, |file|)]
  {
    if n > 0 {
      var start := (n - 1) * size;
      assert end == start + size;
      SlicesJoin(file, size, chunks, id, n - 1, start);
      SliceAppends(file, size, n - 1, start);
      assert chunks[(id, n - 1)] == Slice(file, size, n - 1);
    }
  }

  /** The session and the declared hashes are those a client computes from this file. */
  ghost predicate Honest(s: Session, declared: map<(nat, nat), Digest>, file: Bytes) {
    && s.chunkSize > 0 && s.total == ChunkCount(|file|, s.chunkSize)
    && forall i :: 0 <= i < s.total && (s.id, i) in declared ==> declared[(s.id, i)] == MD5(Slice(file, s.chunkSize, i))
  }

  /** Chunks that match the declared hashes join to the client's file, whatever the order, the
      repeats and the resumes in which they came. */
  lemma JoinedIsOriginal(s: Session, declared: map<(nat, nat), Digest>, file: Bytes, chunks: map<(nat, nat), Bytes>)
    requires Honest(s, declared, file)
    requires forall k :: k in chunks ==> k in declared && MD5(chunks[k]) == declared[k]
    requires forall i :: 0 <= i < s.total ==> (s.id, i) in chunks
    ensures Join(chunks, s.id, s.total) == file
  {
    forall i | 0 <= i < s.total ensures (s.id, i) in chunks && chunks[(s.id, i)] == Slice(file, s.chunkSize, i) {
      assert MD5(chunks[(s.id, i)]) == declared[(s.id, i)];
    }
    SlicesJoin(file, s.chunkSize, chunks, s.id, s.total, s.total * s.chunkSize);
    CountIsExact(|file|, s.chunkSize);
    assert file[..|file|] == file;
  }

  // ---------------------------------------------------------------- a cleanup that failed

  /** The session claims every chunk, and the disk has none of them. */
  ghost predicate Stranded(server: ChunkServer, id: nat)
    reads server
  {
    && id in server.sessions && server.sessions[id].total > 0 && AllSet(server.sessions[id].bits)
    && forall i :: (id, i) !in server.chunks
  }

  /** A complete whose deletes in Redis fail leaves its session stranded, if no request brings a chunk. */
  method FailedCleanup(server: ChunkServer, id: nat, account: nat, hashStays: bool, ghost file: Bytes)
    returns (status: Status)
    requires server.Valid() && id in server.sessions && server.sessions[id].account == account
    requires server.sessions[id].total > 0
    modifies server
    ensures server.Valid() && (status.Joined? ==> Stranded(server, id))
  {
    status := server.CompleteChunkUpload(id, account, false, None, true, hashStays, file);
  }

  /** What a client then sees, as long as the session lives.  The upload resumes as all there. */
  method ResumeStranded(server: ChunkServer, h: nat, id: nat) returns (status: Status)
    requires server.Valid() && Stranded(server, id) && h !in server.handlers
    requires var s := server.sessions[id];
             && 0 < s.fileSize <= MAX_SIZE && s.chunkSize > 0
             && (s.account, s.fileHash) in server.hashes && server.hashes[(s.account, s.fileHash)] == id
    modifies server
    ensures server.Valid() && Stranded(server, id) && server.sessions == old(server.sessions)
    ensures status.Resumed? && status.id == id
    ensures forall i: nat :: i in status.uploaded <==> i < server.sessions[id].total
  {
    var s := server.sessions[id];
    assert forall i: nat :: i in SetBits(s.bits) <==> i < s.total;
    status := server.InitChunkUpload(h, s.account, s.fileSize, s.chunkSize, s.total, s.fileHash, id, false, false);
    var refreshed := server.SaveSession(h, false);
    assert server.sessions == old(server.sessions);
  }

  /** A chunk sent again is accepted unread, ... */
  method SendToStranded(server: ChunkServer, h: nat, id: nat, index: nat) returns (status: Option<Status>)
    requires server.Valid() && Stranded(server, id) && h !in server.handlers && index < server.sessions[id].total
    modifies server
    ensures server.Valid() && Stranded(server, id) && server.sessions == old(server.sessions)
    ensures status == Some(Accepted) && server.handlers == old(server.handlers)
  {
    status := server.BeginChunk(h, id, server.sessions[id].account, index);
  }

  /** ... and every complete fails. */
  method CompleteStranded(server: ChunkServer, id: nat, tries: nat, ghost file: Bytes) returns (answers: seq<Status>)
    requires server.Valid() && Stranded(server, id)
    modifies server
    ensures server.Valid() && Stranded(server, id) && server.sessions == old(server.sessions)
    ensures |answers| == tries && forall k :: 0 <= k < tries ==> answers[k] == ServerError
  {
    answers := [];
    for k := 0 to tries
      invariant server.Valid() && Stranded(server, id)
      invariant server.sessions == old(server.sessions)
      invariant |answers| == k && forall j :: 0 <= j < k ==> answers[j] == ServerError
    {
      assert (id, 0) !in server.chunks;
      var answer := server.CompleteChunkUpload(id, server.sessions[id].account, false, None, false, false, file);
      answers := answers + [answer];
    }
  }

  /** Only when the session's day is over does the file start anew. */
  method AfterExpiry(server: ChunkServer, h: nat, id: nat, account: nat, fileSize: nat, chunkSize: nat, total: nat,
                     fileHash: Digest, newId: nat) returns (status: Status)
    requires server.Valid() && h !in server.handlers && newId != id
    requires 0 < fileSize <= MAX_SIZE && chunkSize > 0 && total > 0
    requires (account, fileHash) in server.hashes ==> server.hashes[(account, fileHash)] == id
    modifies server
    ensures server.Valid() && status == Created(newId)
    ensures newId in server.sessions && SetBits(server.sessions[newId].bits) == {}
  {
    server.Expire(id);
    status := server.InitChunkUpload(h, account, fileSize, chunkSize, total, fileHash, newId, false, false);
  }
}
