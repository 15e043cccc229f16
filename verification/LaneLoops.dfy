/** The lane's loops over reused buffers, proved against the stream functions of `Lane`. */
module LaneLoops {
  import opened Bytes
  import opened Lane
  import LaneProofs

  const WIRE_LEN: nat := HDR_LEN + MAX_PKT + AEAD_MAX

  /** One direction of one lane: an AEAD and its implicit counter nonce. */
  class FrameAead {
    const aead: Aead
    var counter: nat
    var nonce: bytes

    ghost predicate Valid()
      reads this
    {
      counter < TWO64 && |nonce| == 12 && nonce[8..] == [0, 0, 0, 0] && Seals(aead)
    }

    constructor (a: Aead)
      requires Seals(a)
      ensures Valid() && aead == a && counter == 0
    {
      aead := a;
      counter := 0;
      nonce := seq(12, _ => 0);
    }

    method Seal(plaintext: bytes) returns (body: bytes)
      requires Valid()
      modifies this
      ensures Valid()
      ensures body == Protect(Keyed(aead), old(counter), plaintext)
      ensures counter == Next(Keyed(aead), old(counter))
    {
      nonce := LittleEndian(counter, 8) + nonce[8..];
      assert nonce == Nonce(counter);
      body := aead.seal(nonce, plaintext);
      counter := (counter + 1) % TWO64;
    }

    method Open(body: bytes) returns (plaintext: Option<bytes>)
      requires Valid()
      modifies this
      ensures Valid()
      ensures plaintext == Unprotect(Keyed(aead), old(counter), body)
      ensures counter == Next(Keyed(aead), old(counter))
    {
      nonce := LittleEndian(counter, 8) + nonce[8..];
      assert nonce == Nonce(counter);
      plaintext := aead.open(nonce, body);
      counter := (counter + 1) % TWO64;
    }
  }

  function ModeOf(a: FrameAead?): Mode {
    if a == null then Plain else Keyed(a.aead)
  }

  function CounterOf(a: FrameAead?): nat
    reads a
  {
    if a == null then 0 else a.counter
  }

  /** Writes one frame through the reused wire buffer. The buffer holds every payload the
      sender can build, including one that the length field cannot describe. */
  method Flush(wire: array<byte>, a: FrameAead?, kind: byte, payload: bytes) returns (sent: bytes)
    requires wire.Length == WIRE_LEN && (a != null ==> a.Valid())
    requires |payload| <= MaxRead(ModeOf(a)) + 2
    modifies wire, a
    ensures a != null ==> a.Valid()
    ensures sent == Encode(ModeOf(a), old(CounterOf(a)), Frame(kind, payload))
    ensures CounterOf(a) == Next(ModeOf(a), old(CounterOf(a)))
  {
    var body := payload;
    if a != null {
      body := a.Seal(payload);
    }
    sent := WriteFrame(wire, kind, body);
  }

  /** Fills the reused wire buffer with a header and a body, and writes that part of it. */
  method WriteFrame(wire: array<byte>, kind: byte, body: bytes) returns (sent: bytes)
    requires HDR_LEN + |body| <= wire.Length
    modifies wire
    ensures sent == [kind] + PutU16(|body|) + body
  {
    var len := PutU16(|body|);
    forall i | 0 <= i < |body| {
      wire[HDR_LEN + i] := body[i];
    }
    wire[0], wire[1], wire[2] := kind, len[0], len[1];
    sent := wire[..HDR_LEN + |body|];
    FrameParts(sent, kind, len, body);
  }

  lemma FrameParts(s: bytes, kind: byte, len: bytes, body: bytes)
    requires |len| == 2 && |s| == HDR_LEN + |body| && s[0] == kind && s[1] == len[0] && s[2] == len[1]
    requires forall i :: 0 <= i < |body| ==> s[HDR_LEN + i] == body[i]
    ensures s == [kind] + len + body
  {
    assert s[HDR_LEN..] == body;
    assert s[..HDR_LEN] == [kind] + len;
  }

  /** What is sent so far plus the encoding of `todo` is the whole stream of `all`. */
  ghost predicate Owed(m: Mode, counter: nat, sent: bytes, todo: seq<Frame>, start: nat, all: seq<Frame>) {
    && sent + Stream(m, counter, todo) == Stream(m, start, all)
    && Advance(m, counter, |todo|) == Advance(m, start, |all|)
  }

  lemma SendOne(m: Mode, counter: nat, sent: bytes, f: Frame, todo: seq<Frame>, start: nat, all: seq<Frame>)
    requires Owed(m, counter, sent, [f] + todo, start, all)
    ensures Owed(m, Next(m, counter), sent + Encode(m, counter, f), todo, start, all)
  {
    LaneProofs.StreamCons(m, counter, f, todo);
    Assoc(sent, Encode(m, counter, f), Stream(m, Next(m, counter), todo));
  }

  /** The batching sender, run over all the bursts its TUN will ever return. */
  method TunToSockBatch(a: FrameAead?, bursts: seq<seq<bytes>>, minRead: nat) returns (sent: bytes)
    requires a != null ==> a.Valid()
    requires Readable(ModeOf(a), bursts)
    modifies a
    ensures a != null ==> a.Valid()
    ensures sent == Stream(ModeOf(a), old(CounterOf(a)), Frames(bursts, minRead))
    ensures CounterOf(a) == Advance(ModeOf(a), old(CounterOf(a)), |Frames(bursts, minRead)|)
  {
    var wire := new byte[WIRE_LEN](_ => 0);
    ghost var m, start, all := ModeOf(a), CounterOf(a), Frames(bursts, minRead);
    sent := [];
    Unit0(Stream(m, start, all));
    assert bursts[0..] == bursts;
    for b := 0 to |bursts|
      invariant a != null ==> a.Valid()
      invariant Owed(m, CounterOf(a), sent, Frames(bursts[b..], minRead), start, all)
    {
      ghost var later := Frames(bursts[b + 1..], minRead);
      assert bursts[b..][1..] == bursts[b + 1..];
      var burst := bursts[b];
      assert burst in bursts && (|burst| == 1 ==> burst == [burst[0]]);
      assert Frames(bursts[b..], minRead) == BurstFrames(burst, minRead) + later;
      var out;
      if |burst| == 1 {
        out := SendSingle(wire, a, burst[0], minRead, sent, later, start, all);
      } else {
        out := SendBatch(wire, a, burst, minRead, sent, later, start, all);
      }
      sent := sent + out;
    }
    assert Frames(bursts[|bursts|..], minRead) == [];
    Unit0(sent);
  }

  /** A lone packet travels as a single frame, or not at all when it is too short. */
  method SendSingle(wire: array<byte>, a: FrameAead?, p: bytes, minRead: nat,
                    ghost before: bytes, ghost later: seq<Frame>, ghost start: nat, ghost all: seq<Frame>)
    returns (sent: bytes)
    requires wire.Length == WIRE_LEN && (a != null ==> a.Valid())
    requires |p| <= MaxRead(ModeOf(a))
    requires Owed(ModeOf(a), CounterOf(a), before, BurstFrames([p], minRead) + later, start, all)
    modifies wire, a
    ensures a != null ==> a.Valid()
    ensures Owed(ModeOf(a), CounterOf(a), before + sent, later, start, all)
  {
    if |p| < minRead {
      Unit0(later);
      Unit0(before);
      return [];
    }
    SendOne(ModeOf(a), CounterOf(a), before, Frame(SINGLE, p), later, start, all);
    sent := Flush(wire, a, SINGLE, p);
  }

  /** The packing loop over one burst of two or more packets. */
  method SendBatch(wire: array<byte>, a: FrameAead?, burst: seq<bytes>, minRead: nat,
                   ghost before: bytes, ghost later: seq<Frame>, ghost start: nat, ghost all: seq<Frame>)
    returns (sent: bytes)
    requires wire.Length == WIRE_LEN && (a != null ==> a.Valid())
    requires Within(MaxRead(ModeOf(a)), burst)
    requires Owed(ModeOf(a), CounterOf(a), before, Coalesce(burst, [], minRead) + later, start, all)
    modifies wire, a
    ensures a != null ==> a.Valid()
    ensures Owed(ModeOf(a), CounterOf(a), before + sent, later, start, all)
  {
    var plain: bytes := [];
    sent := [];
    Unit0(before);
    assert burst[0..] == burst;
    for i := 0 to |burst|
      invariant a != null ==> a.Valid()
      invariant |plain| <= MaxRead(ModeOf(a)) + 2
      invariant Owed(ModeOf(a), CounterOf(a), before + sent,
                     Coalesce(burst[i..], plain, minRead) + later, start, all)
    {
      var p := burst[i];
      assert burst[i..] == [p] + burst[i + 1..];
      var out;
      plain, out := PackNext(wire, a, plain, p, minRead, before + sent, burst[i + 1..], later, start, all);
      Assoc(before, sent, out);
      sent := sent + out;
    }
    var out := FlushIfAny(wire, a, plain, before + sent, later, start, all);
    Assoc(before, sent, out);
    sent := sent + out;
  }

  /** One turn of the packing loop: skip, or flush if needed and then append. */
  method PackNext(wire: array<byte>, a: FrameAead?, plain: bytes, p: bytes, minRead: nat,
                  ghost before: bytes, ghost rest: seq<bytes>, ghost later: seq<Frame>,
                  ghost start: nat, ghost all: seq<Frame>)
    returns (plain': bytes, sent: bytes)
    requires wire.Length == WIRE_LEN && (a != null ==> a.Valid())
    requires |plain| <= MaxRead(ModeOf(a)) + 2 && |p| <= MaxRead(ModeOf(a))
    requires Owed(ModeOf(a), CounterOf(a), before, Coalesce([p] + rest, plain, minRead) + later, start, all)
    modifies wire, a
    ensures a != null ==> a.Valid()
    ensures |plain'| <= MaxRead(ModeOf(a)) + 2
    ensures Owed(ModeOf(a), CounterOf(a), before + sent, Coalesce(rest, plain', minRead) + later, start, all)
  {
    PackOne(p, rest, plain, minRead, later);
    sent, plain' := [], plain;
    Unit0(before);
    if |p| < minRead {
      return;
    }
    if |plain| + 2 + |p| > MAX_FRAME {
      sent := FlushIfAny(wire, a, plain, before, Coalesce(rest, Unit(p), minRead) + later, start, all);
      plain' := [];
    }
    plain' := AppendUnit(plain', p);
  }

  function AppendUnit(plain: bytes, p: bytes): (r: bytes)
    ensures r == plain + Unit(p) && |r| == |plain| + 2 + |p|
    ensures plain == [] ==> r == Unit(p)
  {
    plain + PutU16(|p|) + p
  }

  /** One turn of the packing loop. */
  lemma PackOne(p: bytes, rest: seq<bytes>, plain: bytes, minRead: nat, later: seq<Frame>)
    ensures Coalesce([p] + rest, plain, minRead) + later
         == if |p| < minRead then Coalesce(rest, plain, minRead) + later
            else if |plain| + 2 + |p| > MAX_FRAME then
              FlushBatch(plain) + (Coalesce(rest, Unit(p), minRead) + later)
            else Coalesce(rest, plain + Unit(p), minRead) + later
  {
    assert ([p] + rest)[1..] == rest;
  }

  method FlushIfAny(wire: array<byte>, a: FrameAead?, plain: bytes,
                    ghost before: bytes, ghost todo: seq<Frame>, ghost start: nat, ghost all: seq<Frame>)
    returns (sent: bytes)
    requires wire.Length == WIRE_LEN && (a != null ==> a.Valid())
    requires |plain| <= MaxRead(ModeOf(a)) + 2
    requires Owed(ModeOf(a), CounterOf(a), before, FlushBatch(plain) + todo, start, all)
    modifies wire, a
    ensures a != null ==> a.Valid()
    ensures Owed(ModeOf(a), CounterOf(a), before + sent, todo, start, all)
  {
    if |plain| > 0 {
      SendOne(ModeOf(a), CounterOf(a), before, Frame(BATCH, plain), todo, start, all);
      sent := Flush(wire, a, BATCH, plain);
    } else {
      Unit0(todo);
      Unit0(before);
      sent := [];
    }
  }

  /** The one-frame-per-packet sender. */
  method TunToSock(a: FrameAead?, pkts: seq<bytes>, minRead: nat) returns (sent: bytes)
    requires a != null ==> a.Valid()
    requires Within(MaxRead(ModeOf(a)), pkts)
    modifies a
    ensures a != null ==> a.Valid()
    ensures sent == Stream(ModeOf(a), old(CounterOf(a)), SingleFrames(pkts, minRead))
    ensures CounterOf(a) == Advance(ModeOf(a), old(CounterOf(a)), |SingleFrames(pkts, minRead)|)
  {
    var wire := new byte[WIRE_LEN](_ => 0);
    ghost var m, start, all := ModeOf(a), CounterOf(a), SingleFrames(pkts, minRead);
    sent := [];
    Unit0(Stream(m, start, all));
    assert pkts[0..] == pkts;
    for i := 0 to |pkts|
      invariant a != null ==> a.Valid()
      invariant Owed(m, CounterOf(a), sent, SingleFrames(pkts[i..], minRead), start, all)
    {
      var p := pkts[i];
      assert pkts[i..][0] == p && pkts[i..][1..] == pkts[i + 1..] && p in pkts;
      if |p| < minRead {
        continue;
      }
      SendOne(m, CounterOf(a), sent, Frame(SINGLE, p), SingleFrames(pkts[i + 1..], minRead), start, all);
      var out := Flush(wire, a, SINGLE, p);
      sent := sent + out;
    }
    Unit0(sent);
  }

  // ---------------------------------------------------------------- receiver

  /** What the rest of a batch, then the rest of the stream, will give. */
  ghost function Pending(m: Mode, counter: nat, pt: bytes, rest: bytes): Received {
    var sp := SplitBatch(pt);
    if sp.ok then After(sp.units, Receive(m, counter, rest)) else Received(sp.units, counter, Malformed)
  }

  lemma HandOne(handed: seq<bytes>, u: bytes, r: Received)
    ensures After(handed, After([u], r)) == After(handed + [u], r)
    ensures handed + [u] <= After(handed, After([u], r)).delivered
  {
    Assoc(handed, [u], r.delivered);
  }

  ghost predicate NoneFatal(fatal: nat -> bool, writes: nat) {
    forall i: nat :: i < writes ==> !fatal(i)
  }

  /** What a frame of this kind, then the rest of the stream, will give. */
  ghost function FrameGives(m: Mode, counter: nat, kind: byte, pt: bytes, rest: bytes): Received {
    if kind == BATCH then Pending(m, counter, pt, rest) else After([pt], Receive(m, counter, rest))
  }

  /** `Receive` at a header that no body follows: an empty frame, or a stream cut short. */
  lemma HeaderAt(m: Mode, counter: nat, s: bytes, pos: nat)
    requires pos + HDR_LEN <= |s|
    ensures var n := GetU16(s[pos + 1..pos + HDR_LEN]); var e := pos + HDR_LEN;
      && (n == 0 ==> Receive(m, counter, s[pos..]) == Receive(m, counter, s[e..]))
      && (n != 0 && |s| - e < n ==> Receive(m, counter, s[pos..]) == Received([], counter, ShortBody))
  {
    var t := s[pos..];
    assert t[1..HDR_LEN] == s[pos + 1..pos + HDR_LEN] && t[HDR_LEN..] == s[pos + HDR_LEN..];
  }

  /** What a body that is opened to `p`, then the rest of the stream, will give. */
  ghost function BodyGives(m: Mode, counter: nat, kind: byte, p: Option<bytes>, rest: bytes): Received {
    match p
    case None => Received([], counter, OpenFailed)
    case Some(pt) => FrameGives(m, counter, kind, pt, rest)
  }

  /** `Receive` at a frame with a body, in terms of the stream after it. */
  lemma BodyAt(m: Mode, counter: nat, s: bytes, pos: nat, n: nat)
    requires pos + HDR_LEN + n <= |s| && n == GetU16(s[pos + 1..pos + HDR_LEN]) && n != 0
    ensures var e := pos + HDR_LEN;
      Receive(m, counter, s[pos..])
      == BodyGives(m, Next(m, counter), s[pos], Unprotect(m, counter, s[e..e + n]), s[e + n..])
  {
    var t := s[pos..];
    var e := pos + HDR_LEN;
    assert t[1..HDR_LEN] == s[pos + 1..e];
    assert t[HDR_LEN..HDR_LEN + n] == s[e..e + n] && t[HDR_LEN + n..] == s[e + n..];
  }

  datatype Verdict = Handed | BadBatch | Refused | Unopened

  /** Hands the units of one opened frame to the TUN. */
  method HandFrame(kind: byte, payload: bytes, before: seq<bytes>, fatal: nat -> bool,
                   ghost m: Mode, ghost counter: nat, ghost rest: bytes, ghost all: Received)
    returns (handed: seq<bytes>, verdict: Verdict)
    requires NoneFatal(fatal, |before|)
    requires After(before, FrameGives(m, counter, kind, payload, rest)) == all
    ensures verdict.Handed? ==> NoneFatal(fatal, |handed|) && After(handed, Receive(m, counter, rest)) == all
    ensures verdict.BadBatch? ==> NoneFatal(fatal, |handed|) && Received(handed, counter, Malformed) == all
    ensures verdict.Refused? ==> StoppedAtFatal(fatal, handed, all)
    ensures !verdict.Unopened?
  {
    handed := before;
    var pt := payload;
    if kind != BATCH {
      HandOne(handed, pt, Receive(m, counter, rest));
      handed := handed + [pt];
      return handed, if fatal(|handed| - 1) then Refused else Handed;
    }
    while |pt| >= 2
      invariant After(handed, Pending(m, counter, pt, rest)) == all
      invariant NoneFatal(fatal, |handed|)
      decreases |pt|
    {
      var l := GetU16(pt);
      if l > |pt| - 2 {
        Unit0(handed);
        return handed, BadBatch;
      }
      PendingUnit(m, counter, pt, rest);
      HandOne(handed, pt[2..2 + l], Pending(m, counter, pt[2 + l..], rest));
      handed := handed + [pt[2..2 + l]];
      if fatal(|handed| - 1) {
        return handed, Refused;
      }
      pt := pt[2 + l..];
    }
    Unit0(Receive(m, counter, rest).delivered);
    return handed, Handed;
  }

  /** The TUN has been handed everything up to and including the write it refused for good. */
  ghost predicate StoppedAtFatal(fatal: nat -> bool, handed: seq<bytes>, all: Received) {
    && handed <= all.delivered && |handed| > 0
    && NoneFatal(fatal, |handed| - 1) && fatal(|handed| - 1)
  }

  /** The receiver. `fatal(i)` says that the TUN refuses the `i`-th write for good; transient
      refusals are skipped. Without a fatal refusal the TUN is handed all of `Receive`'s
      packets; otherwise exactly those up to and including the refused one. */
  method SockToTun(s: bytes, a: FrameAead?, fatal: nat -> bool)
    returns (handed: seq<bytes>, end: Option<End>)
    requires a != null ==> a.Valid()
    modifies a
    ensures a != null ==> a.Valid()
    ensures end.Some? ==>
              && Received(handed, CounterOf(a), end.value) == Receive(ModeOf(a), old(CounterOf(a)), s)
              && NoneFatal(fatal, |handed|)
    ensures end.None? ==> StoppedAtFatal(fatal, handed, Receive(ModeOf(a), old(CounterOf(a)), s))
  {
    var wire := new byte[MAX_PKT + AEAD_MAX](_ => 0);
    ghost var m, all := ModeOf(a), Receive(ModeOf(a), CounterOf(a), s);
    handed := [];
    var pos := 0;
    assert s[0..] == s;
    Unit0(all.delivered);
    while true
      invariant 0 <= pos <= |s|
      invariant a != null ==> a.Valid()
      invariant After(handed, Receive(m, CounterOf(a), s[pos..])) == all
      invariant NoneFatal(fatal, |handed|)
      decreases |s| - pos
    {
      Unit0(handed);
      if |s| - pos < HDR_LEN {
        return handed, Some(if pos == |s| then CleanEof else ShortHeader);
      }
      HeaderAt(m, CounterOf(a), s, pos);
      var kind, n := s[pos], GetU16(s[pos + 1..pos + HDR_LEN]);
      pos := pos + HDR_LEN;
      if n == 0 {
        continue;
      }
      if |s| - pos < n {
        return handed, Some(ShortBody);
      }
      var verdict;
      handed, verdict := TakeBody(wire, s, a, pos, kind, n, handed, fatal, all);
      pos := pos + n;
      match verdict
      case Handed =>
      case BadBatch => return handed, Some(Malformed);
      case Refused => return handed, None;
      case Unopened => return handed, Some(OpenFailed);
    }
  }

  /** Reads, opens and hands on the body that starts at `pos`. */
  method TakeBody(wire: array<byte>, s: bytes, a: FrameAead?, pos: nat, kind: byte, n: nat, before: seq<bytes>,
                  fatal: nat -> bool, ghost all: Received)
    returns (handed: seq<bytes>, verdict: Verdict)
    requires (a != null ==> a.Valid()) && 0 < n <= wire.Length
    requires HDR_LEN <= pos && pos + n <= |s| && kind == s[pos - HDR_LEN] && n == GetU16(s[pos - HDR_LEN + 1..pos])
    requires NoneFatal(fatal, |before|)
    requires After(before, Receive(ModeOf(a), CounterOf(a), s[pos - HDR_LEN..])) == all
    modifies wire, a
    ensures a != null ==> a.Valid()
    ensures !verdict.Refused? ==> NoneFatal(fatal, |handed|)
    ensures verdict.Handed? ==> After(handed, Receive(ModeOf(a), CounterOf(a), s[pos + n..])) == all
    ensures verdict.BadBatch? ==> Received(handed, CounterOf(a), Malformed) == all
    ensures verdict.Refused? ==> StoppedAtFatal(fatal, handed, all)
    ensures verdict.Unopened? ==> Received(handed, CounterOf(a), OpenFailed) == all
  {
    BodyAt(ModeOf(a), CounterOf(a), s, pos - HDR_LEN, n);
    var body := ReadBody(wire, s, pos, n);
    var p := OpenBody(a, body);
    if p.None? {
      Unit0(before);
      return before, Unopened;
    }
    handed, verdict := HandFrame(kind, p.value, before, fatal, ModeOf(a), CounterOf(a), s[pos + n..], all);
  }

  /** Opens a frame body, or hands it on as it is when the lane is not encrypted. */
  method OpenBody(a: FrameAead?, body: bytes) returns (p: Option<bytes>)
    requires a != null ==> a.Valid()
    modifies a
    ensures a != null ==> a.Valid()
    ensures p == Unprotect(ModeOf(a), old(CounterOf(a)), body)
    ensures CounterOf(a) == Next(ModeOf(a), old(CounterOf(a)))
  {
    if a != null {
      p := a.Open(body);
    } else {
      p := Some(body);
    }
  }

  /** `io.ReadFull` of a frame body into the reused buffer. */
  method ReadBody(wire: array<byte>, s: bytes, pos: nat, n: nat) returns (body: bytes)
    requires n <= wire.Length && pos + n <= |s|
    modifies wire
    ensures body == s[pos..pos + n]
  {
    forall i | 0 <= i < n {
      wire[i] := s[pos + i];
    }
    body := wire[..n];
  }

  lemma PendingUnit(m: Mode, counter: nat, pt: bytes, rest: bytes)
    requires |pt| >= 2 && GetU16(pt) <= |pt| - 2
    ensures Pending(m, counter, pt, rest)
         == After([pt[2..2 + GetU16(pt)]], Pending(m, counter, pt[2 + GetU16(pt)..], rest))
  {
    var l := GetU16(pt);
    var sp := SplitBatch(pt[2 + l..]);
    var r := Receive(m, counter, rest);
    Assoc([pt[2..2 + l]], sp.units, r.delivered);
  }
}
