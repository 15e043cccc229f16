/** The lane transport: how bursts of packets become a byte stream, and back. */
module Lane {
  import opened Bytes

  const MAX_PKT: nat := 65535
  const AEAD_MAX: nat := 32
  const HDR_LEN: nat := 3
  const SINGLE: byte := 0
  const BATCH: byte := 1
  const MAX_BATCH: nat := 32
  const MAX_FRAME: nat := 60000
  const OVERHEAD: nat := 16

  // ---------------------------------------------------------------- frame protection

  /** A keyed AEAD: both functions take the 12-byte nonce first. */
  datatype Aead = Aead(seal: (bytes, bytes) -> bytes, open: (bytes, bytes) -> Option<bytes>)

  /** Opening undoes sealing, and sealing adds a tag of 16 bytes. */
  ghost predicate Seals(a: Aead) {
    forall n: bytes, p: bytes ::
      |a.seal(n, p)| == |p| + OVERHEAD && a.open(n, a.seal(n, p)) == Some(p)
  }

  /** Everything the lane relies on: moreover, whatever opens carries a tag. */
  ghost predicate Lawful(a: Aead) {
    Seals(a) && forall n: bytes, c: bytes :: a.open(n, c).Some? ==> |c| == |a.open(n, c).value| + OVERHEAD
  }

  datatype Mode = Plain | Keyed(aead: Aead)

  ghost predicate LawfulMode(m: Mode) {
    m.Keyed? ==> Lawful(m.aead)
  }

  /** The implicit nonce: the counter little-endian in 8 bytes, then four zero bytes. */
  function Nonce(counter: nat): (n: bytes)
    ensures |n| == 12
  {
    LittleEndian(counter, 8) + [0, 0, 0, 0]
  }

  function Next(m: Mode, counter: nat): nat {
    if m.Plain? then counter else (counter + 1) % TWO64
  }

  function Advance(m: Mode, counter: nat, frames: nat): nat
    decreases frames
  {
    if frames == 0 then counter else Advance(m, Next(m, counter), frames - 1)
  }

  function Overhead(m: Mode): nat {
    if m.Plain? then 0 else OVERHEAD
  }

  /** The longest packet a lane reads from its TUN. */
  function MaxRead(m: Mode): nat {
    MAX_PKT - Overhead(m)
  }

  function Protect(m: Mode, counter: nat, payload: bytes): bytes {
    if m.Plain? then payload else m.aead.seal(Nonce(counter), payload)
  }

  function Unprotect(m: Mode, counter: nat, body: bytes): Option<bytes> {
    if m.Plain? then Some(body) else m.aead.open(Nonce(counter), body)
  }

  // ---------------------------------------------------------------- sender

  datatype Frame = Frame(kind: byte, payload: bytes)

  /** One frame on the wire; the length field keeps 16 bits of the body length. */
  function Encode(m: Mode, counter: nat, f: Frame): bytes {
    var body := Protect(m, counter, f.payload);
    [f.kind] + PutU16(|body|) + body
  }

  function Stream(m: Mode, counter: nat, frames: seq<Frame>): bytes
    decreases |frames|
  {
    if frames == [] then []
    else Encode(m, counter, frames[0]) + Stream(m, Next(m, counter), frames[1..])
  }

  function Unit(p: bytes): bytes {
    PutU16(|p|) + p
  }

  /** Greedy packing: `plain` is the batch under construction. */
  function Coalesce(pkts: seq<bytes>, plain: bytes, minRead: nat): seq<Frame>
    decreases |pkts|
  {
    if pkts == [] then FlushBatch(plain)
    else if |pkts[0]| < minRead then Coalesce(pkts[1..], plain, minRead)
    else if |plain| + 2 + |pkts[0]| > MAX_FRAME then
      FlushBatch(plain) + Coalesce(pkts[1..], Unit(pkts[0]), minRead)
    else Coalesce(pkts[1..], plain + Unit(pkts[0]), minRead)
  }

  function FlushBatch(plain: bytes): seq<Frame> {
    if plain == [] then [] else [Frame(BATCH, plain)]
  }

  /** The frames of one burst: a lone packet travels as a single frame. */
  function BurstFrames(burst: seq<bytes>, minRead: nat): seq<Frame> {
    if |burst| == 1 then
      if |burst[0]| < minRead then [] else [Frame(SINGLE, burst[0])]
    else Coalesce(burst, [], minRead)
  }

  function Frames(bursts: seq<seq<bytes>>, minRead: nat): seq<Frame> {
    if bursts == [] then []
    else BurstFrames(bursts[0], minRead) + Frames(bursts[1..], minRead)
  }

  /** The one-frame-per-packet sender, used when the packet source cannot batch. */
  function SingleFrames(pkts: seq<bytes>, minRead: nat): seq<Frame> {
    if pkts == [] then []
    else if |pkts[0]| < minRead then SingleFrames(pkts[1..], minRead)
    else [Frame(SINGLE, pkts[0])] + SingleFrames(pkts[1..], minRead)
  }

  // ---------------------------------------------------------------- receiver

  datatype Split = Split(units: seq<bytes>, rest: bytes, ok: bool)

  /** Splits a batch; `rest` is what no delivered unit accounts for. */
  function SplitBatch(pt: bytes): (s: Split)
    decreases |pt|
  {
    if |pt| < 2 then Split([], pt, true)
    else
      var l := GetU16(pt);
      if l > |pt| - 2 then Split([], pt, false)
      else
        var s := SplitBatch(pt[2 + l..]);
        Split([pt[2..2 + l]] + s.units, s.rest, s.ok)
  }

  datatype End = CleanEof | ShortHeader | ShortBody | OpenFailed | Malformed

  /** What one lane hands to its TUN, its counter when it stops, and why it stops. */
  datatype Received = Received(delivered: seq<bytes>, counter: nat, end: End)

  function After(units: seq<bytes>, r: Received): Received {
    r.(delivered := units + r.delivered)
  }

  function Receive(m: Mode, counter: nat, s: bytes): Received
    decreases |s|
  {
    if |s| == 0 then Received([], counter, CleanEof)
    else if |s| < HDR_LEN then Received([], counter, ShortHeader)
    else
      var n := GetU16(s[1..HDR_LEN]);
      if n == 0 then Receive(m, counter, s[HDR_LEN..])
      else if |s| - HDR_LEN < n then Received([], counter, ShortBody)
      else
        ReceiveBody(m, counter, s[0], s[HDR_LEN..HDR_LEN + n], s[HDR_LEN + n..])
  }

  function ReceiveBody(m: Mode, counter: nat, kind: byte, body: bytes, rest: bytes): Received
    decreases |rest| + 1
  {
    match Unprotect(m, counter, body)
    case None => Received([], Next(m, counter), OpenFailed)
    case Some(pt) =>
      if kind == BATCH then
        var sp := SplitBatch(pt);
        if sp.ok then After(sp.units, Receive(m, Next(m, counter), rest))
        else Received(sp.units, Next(m, counter), Malformed)
      else After([pt], Receive(m, Next(m, counter), rest))
  }

  // ---------------------------------------------------------------- what the lane is for

  /** The packets of a list that are long enough to send. */
  function Kept(pkts: seq<bytes>, minRead: nat): seq<bytes> {
    if pkts == [] then []
    else (if |pkts[0]| < minRead then [] else [pkts[0]]) + Kept(pkts[1..], minRead)
  }

  function Flatten(bursts: seq<seq<bytes>>): seq<bytes> {
    if bursts == [] then [] else bursts[0] + Flatten(bursts[1..])
  }

  /** The `ReadBatch` contract: up to `MAX_BATCH` packets, each within its buffer. */
  predicate Readable(m: Mode, bursts: seq<seq<bytes>>) {
    forall b :: b in bursts ==> |b| <= MAX_BATCH && Within(MaxRead(m), b)
  }

  predicate Within(limit: int, pkts: seq<bytes>) {
    forall p :: p in pkts ==> |p| <= limit
  }

  /** In a burst that is not a lone packet, every packet is at most `limit` long. */
  predicate BatchedWithin(limit: int, bursts: seq<seq<bytes>>) {
    forall b :: b in bursts && |b| != 1 ==> Within(limit, b)
  }

  /** The length field of a frame tells the true length of its body. */
  predicate HeaderExact(m: Mode, counter: nat, f: Frame) {
    GetU16(Encode(m, counter, f)[1..]) == |Encode(m, counter, f)| - HDR_LEN
  }
}
