/** The detail endpoint's way to one video row: the cache, then a lock so that few readers query the
    database at once, a short wait for another reader's fill, and the guarded fill.

    `LoadAmong` has everybody else's changes between its steps; the other methods are about a request
    during which the table stands still.
 */
module VideoDetail {
  import opened Ranking
  import opened InteractionStore
  import opened HeatCache

  const POLLS: nat := 5

  datatype LockReply = Locked | Busy | LockFailed

  /** What Redis and the other readers do during one request. */
  datatype Circumstances = Circumstances(
    firstReadFails: bool,
    lock: LockReply,
    secondReadFails: bool,
    /** Before each look: the request is cancelled, another reader has filled, the look fails. */
    cancelled: seq<bool>,
    filled: seq<bool>,
    lookFails: seq<bool>,
    generationFails: bool,
    fillFails: bool)

  datatype Answer = Found(row: Counts) | NotFound | Cancelled

  /** Cached detail rows are the database's. */
  ghost predicate Exact(cache: Cache, videos: map<nat, Counts>)
    reads cache
  {
    forall v :: v in cache.details ==> v in videos && cache.details[v] == videos[v]
  }

  method GetCached(cache: Cache, id: nat, fails: bool) returns (row: Option<Counts>)
    ensures row == if id in cache.details && !fails then Some(cache.details[id]) else None
  {
    row := None;
    if !fails && id in cache.details {
      row := Some(cache.details[id]);
    }
  }

  /** The cached rows and the table at one moment, as everybody else has left them. */
  datatype Scene = Scene(rows: RowKeys, videos: map<nat, Counts>)

  method Elapse(cache: Cache, scene: Scene)
    modifies cache`generations, cache`details, cache`entities
    ensures cache.Rows() == scene.rows
  {
    cache.generations, cache.details, cache.entities := scene.rows.generations, scene.rows.details, scene.rows.entities;
  }

  /** Generation first, then the database, then the fill under that generation, with anything happening
      in between: the table is read at one moment and the fill comes at another, and the generation is
      the one from before both. */
  method LoadAmong(cache: Cache, id: nat, generationFails: bool, fillFails: bool, read: Scene, fill: Scene)
    returns (answer: Answer)
    modifies cache`generations, cache`details, cache`entities
    ensures answer == if id in read.videos then Found(read.videos[id]) else NotFound
    ensures id !in read.videos ==> cache.Rows() == read.rows
    ensures id in read.videos ==>
              cache.Rows() == if generationFails || fillFails || GenerationOf(fill.rows, id) != GenerationOf(old(cache.Rows()), id)
                              then fill.rows else fill.rows.(details := fill.rows.details[id := read.videos[id]])
  {
    var generation := cache.VideoGeneration(id);
    Elapse(cache, read);
    if id !in read.videos {
      return NotFound;
    }
    var row := read.videos[id];
    Elapse(cache, fill);
    if !generationFails && !fillFails {
      var stored := cache.SetVideoBytes(Detail, id, generation, row);
    }
    return Found(row);
  }

  /** The same while nobody else does anything. */
  method Load(cache: Cache, videos: map<nat, Counts>, id: nat, generationFails: bool, fillFails: bool)
    returns (answer: Answer)
    modifies cache`generations, cache`details, cache`entities
    ensures old(Exact(cache, videos)) ==> Exact(cache, videos)
    ensures cache.entities == old(cache.entities) && cache.generations == old(cache.generations)
    ensures answer == FromTable(videos, id)
    ensures cache.details == if id in videos && !generationFails && !fillFails
                             then old(cache.details)[id := videos[id]] else old(cache.details)
  {
    var still := Scene(cache.Rows(), videos);
    answer := LoadAmong(cache, id, generationFails, fillFails, still, still);
  }

  function FromTable(videos: map<nat, Counts>, id: nat): Answer {
    if id in videos then Found(videos[id]) else NotFound
  }

  /** The answer is the cached row or the table's, and the table's only if no look at the cache found
      a row: not the first, not the one under the lock, and none of the five of a reader that waits.
      Over a cache that agrees with the table every way gives the table's answer. */
  method GetDetail(cache: Cache?, videos: map<nat, Counts>, id: nat, c: Circumstances)
    returns (answer: Answer, queried: bool)
    requires |c.cancelled| == |c.filled| == |c.lookFails| == 5
    modifies if cache == null then {} else {cache}
    ensures cache == null ==> queried
    ensures cache != null && old(Exact(cache, videos)) ==>
              Exact(cache, videos) && (answer.Cancelled? || answer == FromTable(videos, id))
    ensures cache != null ==> cache.generations == old(cache.generations)
    ensures queried ==> answer == FromTable(videos, id)
    ensures !queried && !answer.Cancelled? ==> cache != null && id in cache.details && answer == Found(cache.details[id])
    ensures cache != null && !c.firstReadFails && id in old(cache.details) ==>
              !queried && answer == Found(old(cache.details)[id])
    ensures cache != null && queried && c.lock.Locked? ==> id !in old(cache.details) || c.secondReadFails
    ensures cache != null && queried && c.lock.Busy? ==>
              forall i :: 0 <= i < 5 ==> !c.cancelled[i] && (c.filled[i] && id in videos ==> c.lookFails[i])
    ensures answer.Cancelled? ==> cache != null && c.lock.Busy? && true in c.cancelled
  {
    queried := true;
    if cache == null {
      answer := FromTable(videos, id);
      return;
    }
    var row := GetCached(cache, id, c.firstReadFails);
    if row.Some? {
      return Found(row.value), false;
    }
    if c.lock.Locked? {
      row := GetCached(cache, id, c.secondReadFails);
      if row.Some? {
        return Found(row.value), false;
      }
      answer := Load(cache, videos, id, c.generationFails, c.fillFails);
      return;
    }
    if c.lock.Busy? {
      for i := 0 to POLLS
        invariant old(Exact(cache, videos)) ==> Exact(cache, videos)
        invariant cache.generations == old(cache.generations)
        invariant forall j :: 0 <= j < i ==> !c.cancelled[j] && (c.filled[j] && id in videos ==> c.lookFails[j])
      {
        if c.cancelled[i] {
          return Cancelled, false;
        }
        if c.filled[i] {
          var other := Load(cache, videos, id, false, false);
        }
        row := GetCached(cache, id, c.lookFails[i]);
        if row.Some? {
          return Found(row.value), false;
        }
      }
    }
    answer := Load(cache, videos, id, c.generationFails, c.fillFails);
  }
}
