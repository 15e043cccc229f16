/** The accept-path limiter: per-source token buckets in a bounded, self-pruning table. */
module RateLimit {
  import opened Bytes

  const TTL: real := 300.0
  const GC_INTERVAL: real := 60.0

  datatype Params = Params(rate: real, burst: nat, maxEntries: nat)

  /** What `newConnLimiter` guarantees after filling in defaults. */
  predicate ValidParams(p: Params) {
    p.rate > 0.0 && p.burst >= 1 && p.maxEntries >= 1
  }

  // ---------------------------------------------------------------- one bucket

  /** An exact token bucket; `last` is when it last let something through. */
  datatype Bucket = Bucket(tokens: real, last: Option<real>)

  function Fresh(p: Params): Bucket {
    Bucket(p.burst as real, None)
  }

  function Min(a: real, b: real): real {
    if a <= b then a else b
  }

  /** The tokens available at time `t`. */
  function Level(p: Params, b: Bucket, t: real): real {
    match b.last
    case None => p.burst as real
    case Some(last) => Min(p.burst as real, b.tokens + p.rate * (if t < last then 0.0 else t - last))
  }

  predicate Allows(p: Params, b: Bucket, t: real) {
    Level(p, b, t) >= 1.0
  }

  /** `AllowN(t, 1)`: a refusal leaves the bucket as it was. */
  function Take(p: Params, b: Bucket, t: real): Bucket {
    if Allows(p, b, t) then Bucket(Level(p, b, t) - 1.0, Some(t)) else b
  }

  // ---------------------------------------------------------------- the table

  datatype Entry = Entry(bucket: Bucket, seen: real)
  type Table = map<string, Entry>
  datatype Limiter = Limiter(table: Table, lastGC: Option<real>)

  /** `gcLocked`: entries unseen for longer than the TTL go. */
  function Prune(t: Table, now: real): Table {
    map ip | ip in t && now - t[ip].seen <= TTL :: t[ip]
  }

  function Gc(l: Limiter, now: real): Limiter {
    if l.lastGC.None? || now - l.lastGC.value >= GC_INTERVAL then Limiter(Prune(l.table, now), Some(now)) else l
  }

  /** `evictOldestLocked`'s scan in the order in which the map is visited; the empty string means
      nothing chosen yet. */
  function Stalest(t: Table, order: seq<string>): string {
    if order == [] then ""
    else
      var n := |order| - 1;
      var prev := Stalest(t, order[..n]);
      if order[n] !in t then prev
      else if prev == "" || prev !in t || t[order[n]].seen < t[prev].seen then order[n]
      else prev
  }

  /** `order` visits each entry of the table once. */
  ghost predicate Lists(order: seq<string>, t: Table) {
    (forall ip :: ip in order <==> ip in t) && forall i, j :: 0 <= i < j < |order| ==> order[i] != order[j]
  }

  function Evict(t: Table, order: seq<string>): Table {
    var ip := Stalest(t, order);
    if ip != "" then t - {ip} else t
  }

  /** A connection from `ip` at time `at`; `order` is how an eviction, if any, visits the table. */
  datatype Request = Request(ip: string, at: real, order: seq<string>)

  /** The request is from a new source and finds the table full. */
  predicate Full(p: Params, l: Limiter, r: Request) {
    r.ip !in Gc(l, r.at).table && |Gc(l, r.at).table| >= p.maxEntries
  }

  /** The table as the request finds it, with room for a new entry. */
  function Room(p: Params, l: Limiter, r: Request): Table {
    var t := Gc(l, r.at).table;
    if Full(p, l, r) then Evict(t, r.order) else t
  }

  /** The bucket that answers a request. */
  function Filed(p: Params, l: Limiter, r: Request): Bucket {
    var t := Gc(l, r.at).table;
    if r.ip in t then t[r.ip].bucket else Fresh(p)
  }

  function AllowStep(p: Params, l: Limiter, r: Request): Limiter {
    Limiter(Room(p, l, r)[r.ip := Entry(Take(p, Filed(p, l, r), r.at), r.at)], Gc(l, r.at).lastGC)
  }

  function AllowAnswer(p: Params, l: Limiter, r: Request): bool {
    Allows(p, Filed(p, l, r), r.at)
  }

  // ---------------------------------------------------------------- runs

  predicate Monotone(from: real, reqs: seq<Request>)
    decreases |reqs|
  {
    reqs != [] ==> from <= reqs[0].at && Monotone(reqs[0].at, reqs[1..])
  }

  function After(p: Params, l: Limiter, reqs: seq<Request>): Limiter
    decreases |reqs|
  {
    if reqs == [] then l else After(p, AllowStep(p, l, reqs[0]), reqs[1..])
  }

  /** No request finds the table full. */
  predicate NeverFull(p: Params, l: Limiter, reqs: seq<Request>)
    decreases |reqs|
  {
    reqs != [] ==> !Full(p, l, reqs[0]) && NeverFull(p, AllowStep(p, l, reqs[0]), reqs[1..])
  }

  /** Every eviction visits the whole table. */
  ghost predicate Scanned(p: Params, l: Limiter, reqs: seq<Request>)
    decreases |reqs|
  {
    reqs != [] ==>
      && (Full(p, l, reqs[0]) ==> Lists(reqs[0].order, Gc(l, reqs[0].at).table))
      && Scanned(p, AllowStep(p, l, reqs[0]), reqs[1..])
  }

  /** The limiter's answers. */
  function Answers(p: Params, l: Limiter, reqs: seq<Request>): seq<bool>
    decreases |reqs|
  {
    if reqs == [] then []
    else [AllowAnswer(p, l, reqs[0])] + Answers(p, AllowStep(p, l, reqs[0]), reqs[1..])
  }

  /** A limiter that keeps every bucket for ever. */
  type Kept = map<string, Bucket>

  function BucketOf(p: Params, k: Kept, ip: string): Bucket {
    if ip in k then k[ip] else Fresh(p)
  }

  function KeepStep(p: Params, k: Kept, ip: string, now: real): Kept {
    k[ip := Take(p, BucketOf(p, k, ip), now)]
  }

  function KeptAnswers(p: Params, k: Kept, reqs: seq<Request>): seq<bool>
    decreases |reqs|
  {
    if reqs == [] then []
    else [Allows(p, BucketOf(p, k, reqs[0].ip), reqs[0].at)]
         + KeptAnswers(p, KeepStep(p, k, reqs[0].ip, reqs[0].at), reqs[1..])
  }

  const EMPTY: Limiter := Limiter(map[], None)
}
