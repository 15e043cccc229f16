/** Round trip, cut safety, lockstep and batching of the lane transport. */
module LaneProofs {
  import opened Bytes
  import opened Lane

  // ---------------------------------------------------------------- the batch splitter

  function Print(us: seq<bytes>): bytes {
    if us == [] then [] else Unit(us[0]) + Print(us[1..])
  }

  lemma {:induction false} PrintSnoc(us: seq<bytes>, p: bytes)
    ensures Print(us + [p]) == Print(us) + Unit(p)
  {
    if us == [] {
      Unit0([p]);
      Unit0(Unit(p));
      ConsParts(p, []);
    } else {
      AppendParts(us, [p]);
      PrintSnoc(us[1..], p);
      Assoc(Unit(us[0]), Print(us[1..]), Unit(p));
    }
  }

  /** The first unit of a splittable plaintext, printed, is what the splitter consumed. */
  lemma FirstUnit(pt: bytes)
    requires |pt| >= 2 && GetU16(pt) <= |pt| - 2
    ensures Unit(pt[2..2 + GetU16(pt)]) + pt[2 + GetU16(pt)..] == pt
  {
    var l := GetU16(pt);
    U16Reprint(pt[..2]);
    assert GetU16(pt[..2]) == l;
    var u := pt[2..2 + l];
    assert Unit(u) == pt[..2] + u;
    assert pt[..2] + u + pt[2 + l..] == pt;
  }

  /** On any plaintext: printing the delivered units gives back exactly the consumed bytes, and
      the splitter stops only for want of a length field or of the bytes it announces. */
  lemma {:induction false} SplitIsExact(pt: bytes)
    ensures Print(SplitBatch(pt).units) + SplitBatch(pt).rest == pt
    ensures Small(SplitBatch(pt).units)
    ensures SplitBatch(pt).ok <==> |SplitBatch(pt).rest| < 2
    ensures !SplitBatch(pt).ok ==> GetU16(SplitBatch(pt).rest) > |SplitBatch(pt).rest| - 2
    decreases |pt|
  {
    if |pt| < 2 || GetU16(pt) > |pt| - 2 {
      Unit0(pt);
    } else {
      var l := GetU16(pt);
      var u, tail := pt[2..2 + l], pt[2 + l..];
      SplitIsExact(tail);
      FirstUnit(pt);
      PrintCons(u, SplitBatch(tail).units, SplitBatch(tail).rest);
    }
  }

  lemma PrintCons(u: bytes, us: seq<bytes>, rest: bytes)
    ensures Print([u] + us) + rest == Unit(u) + (Print(us) + rest)
  {
    ConsParts(u, us);
    Assoc(Unit(u), Print(us), rest);
  }

  function Prepend(us: seq<bytes>, s: Split): Split {
    s.(units := us + s.units)
  }

  lemma SplitUnit(u: bytes, more: bytes)
    requires |u| < 0x1_0000
    ensures SplitBatch(Unit(u) + more) == Prepend([u], SplitBatch(more))
  {
    UnitParts(u, more);
  }

  lemma UnitParts(u: bytes, more: bytes)
    requires |u| < 0x1_0000
    ensures var pt := Unit(u) + more;
      |pt| == 2 + |u| + |more| && GetU16(pt) == |u| && pt[2..2 + |u|] == u && pt[2 + |u|..] == more
  {
    Assoc(PutU16(|u|), u, more);
    U16RoundTrip(|u|, u + more);
    ThreeParts(PutU16(|u|), u, more);
  }

  lemma ThreeParts(a: bytes, b: bytes, c: bytes)
    ensures var s := a + b + c;
      |s| == |a| + |b| + |c| && s[|a|..|a| + |b|] == b && s[|a| + |b|..] == c
  {
  }

  /** Units put in front of any plaintext come out first, unchanged. */
  lemma {:induction false} SplitPrint(us: seq<bytes>, tail: bytes)
    requires Small(us)
    ensures SplitBatch(Print(us) + tail) == Prepend(us, SplitBatch(tail))
  {
    if us == [] {
      assert Print(us) + tail == tail;
      PrependTwice([], [], SplitBatch(tail));
    } else {
      var u, us' := us[0], us[1..];
      assert Print(us) + tail == Unit(u) + (Print(us') + tail);
      SplitUnit(u, Print(us') + tail);
      SplitPrint(us', tail);
      PrependTwice([u], us', SplitBatch(tail));
      assert us == [u] + us';
    }
  }

  lemma PrependTwice(a: seq<bytes>, b: seq<bytes>, s: Split)
    ensures Prepend(a, Prepend(b, s)) == Prepend(a + b, s) && Prepend([], s) == s
  {
    assert a + (b + s.units) == a + b + s.units && [] + s.units == s.units;
  }

  // ---------------------------------------------------------------- one frame, then a stream

  /** A frame the receiver can read: non-empty body, true length field, splittable batch. */
  predicate FrameOk(m: Mode, f: Frame) {
    && 0 < |f.payload| + Overhead(m) <= MAX_PKT
    && (f.kind == BATCH ==> SplitBatch(f.payload).ok)
  }

  function Carried(f: Frame): seq<bytes> {
    if f.kind == BATCH then SplitBatch(f.payload).units else [f.payload]
  }

  function CarriedBy(frames: seq<Frame>): seq<bytes> {
    if frames == [] then [] else Carried(frames[0]) + CarriedBy(frames[1..])
  }

  predicate AllOk(m: Mode, frames: seq<Frame>) {
    forall f :: f in frames ==> FrameOk(m, f)
  }

  lemma ReadWhole(m: Mode, counter: nat, kind: byte, length: bytes, body: bytes, rest: bytes)
    requires |length| == 2 && GetU16(length) == |body| > 0
    ensures Receive(m, counter, [kind] + length + body + rest) == ReceiveBody(m, counter, kind, body, rest)
  {
    var s := [kind] + length + body + rest;
    assert s[1..HDR_LEN] == length;
    assert s[HDR_LEN..HDR_LEN + |body|] == body && s[HDR_LEN + |body|..] == rest;
  }

  lemma ReceiveFrame(m: Mode, counter: nat, f: Frame, rest: bytes)
    requires LawfulMode(m) && FrameOk(m, f)
    ensures Receive(m, counter, Encode(m, counter, f) + rest)
         == After(Carried(f), Receive(m, Next(m, counter), rest))
  {
    var body := Protect(m, counter, f.payload);
    assert |body| == |f.payload| + Overhead(m);
    U16RoundTrip(|body|, []);
    Unit0(PutU16(|body|));
    ReadWhole(m, counter, f.kind, PutU16(|body|), body, rest);
    assert Unprotect(m, counter, body) == Some(f.payload);
  }

  lemma AfterAfter(a: seq<bytes>, b: seq<bytes>, r: Received)
    ensures After(a, After(b, r)) == After(a + b, r)
  {
    assert a + (b + r.delivered) == a + b + r.delivered;
  }

  lemma {:induction false} ReceiveStream(m: Mode, counter: nat, frames: seq<Frame>, rest: bytes)
    requires LawfulMode(m) && AllOk(m, frames)
    ensures Receive(m, counter, Stream(m, counter, frames) + rest)
         == After(CarriedBy(frames), Receive(m, Advance(m, counter, |frames|), rest))
    decreases |frames|
  {
    if frames == [] {
      assert Stream(m, counter, frames) + rest == rest;
      var r := Receive(m, counter, rest);
      assert [] + r.delivered == r.delivered;
    } else {
      var more := Stream(m, Next(m, counter), frames[1..]) + rest;
      assert Stream(m, counter, frames) + rest == Encode(m, counter, frames[0]) + more;
      ReceiveFrame(m, counter, frames[0], more);
      ReceiveStream(m, Next(m, counter), frames[1..], rest);
      AfterAfter(Carried(frames[0]), CarriedBy(frames[1..]),
                 Receive(m, Advance(m, Next(m, counter), |frames| - 1), rest));
    }
  }

  // ---------------------------------------------------------------- the senders' frames

  lemma {:induction false} CarriedByAppend(a: seq<Frame>, b: seq<Frame>)
    ensures CarriedBy(a + b) == CarriedBy(a) + CarriedBy(b)
  {
    if a == [] {
      Unit0(b);
      Unit0(CarriedBy(b));
    } else {
      AppendParts(a, b);
      CarriedByAppend(a[1..], b);
      Assoc(Carried(a[0]), CarriedBy(a[1..]), CarriedBy(b));
    }
  }

  lemma {:induction false} KeptAppend(a: seq<bytes>, b: seq<bytes>, minRead: nat)
    ensures Kept(a + b, minRead) == Kept(a, minRead) + Kept(b, minRead)
  {
    if a == [] {
      Unit0(b);
      Unit0(Kept(b, minRead));
    } else {
      AppendParts(a, b);
      KeptAppend(a[1..], b, minRead);
      Assoc(if |a[0]| < minRead then [] else [a[0]], Kept(a[1..], minRead), Kept(b, minRead));
    }
  }

  predicate Small(us: seq<bytes>) {
    forall u :: u in us ==> |u| < 0x1_0000
  }

  lemma FlushedBatch(m: Mode, us: seq<bytes>)
    requires Small(us) && |Print(us)| <= MaxRead(m)
    ensures Carries(m, FlushBatch(Print(us)), us)
  {
    SplitPrint(us, []);
    assert Print(us) + [] == Print(us);
    assert us + [] == us;
    if us != [] {
      var f := Frame(BATCH, Print(us));
      assert [f][1..] == [];
      assert CarriedBy([f]) == Carried(f) + CarriedBy([]);
    }
  }

  ghost predicate Carries(m: Mode, frames: seq<Frame>, pkts: seq<bytes>) {
    AllOk(m, frames) && CarriedBy(frames) == pkts
  }

  lemma CarriesAppend(m: Mode, a: seq<Frame>, b: seq<Frame>, ps: seq<bytes>, qs: seq<bytes>)
    requires Carries(m, a, ps) && Carries(m, b, qs)
    ensures Carries(m, a + b, ps + qs)
  {
    CarriedByAppend(a, b);
  }

  /** Packing loses, reorders and changes nothing: `us` is what the open batch already holds. */
  lemma {:induction false} CoalesceCarries(m: Mode, pkts: seq<bytes>, us: seq<bytes>, minRead: nat)
    requires Small(us) && |Print(us)| <= MaxRead(m)
    requires Within(MaxRead(m) - 2, pkts)
    ensures Carries(m, Coalesce(pkts, Print(us), minRead), us + Kept(pkts, minRead))
    decreases |pkts|
  {
    if pkts == [] {
      FlushedBatch(m, us);
      Unit0(us);
    } else {
      var p, rest := pkts[0], pkts[1..];
      if |p| < minRead {
        CoalesceCarries(m, rest, us, minRead);
        Unit0(Kept(rest, minRead));
      } else if |Print(us)| + 2 + |p| > MAX_FRAME {
        FlushedBatch(m, us);
        PrintOne(p);
        CoalesceCarries(m, rest, [p], minRead);
        CarriesAppend(m, FlushBatch(Print(us)), Coalesce(rest, Unit(p), minRead), us, [p] + Kept(rest, minRead));
      } else {
        PrintSnoc(us, p);
        CoalesceCarries(m, rest, us + [p], minRead);
        Assoc(us, [p], Kept(rest, minRead));
      }
    }
  }

  lemma PrintOne(p: bytes)
    ensures Print([p]) == Unit(p)
  {
    PrintSnoc([], p);
    Unit0([p]);
    Unit0(Unit(p));
  }

  lemma BurstCarries(m: Mode, burst: seq<bytes>, minRead: nat)
    requires 1 <= minRead
    requires Within(if |burst| == 1 then MaxRead(m) else MaxRead(m) - 2, burst)
    ensures Carries(m, BurstFrames(burst, minRead), Kept(burst, minRead))
  {
    if |burst| == 1 {
      assert burst == [burst[0]];
      assert Kept(burst[1..], minRead) == [];
      if |burst[0]| >= minRead {
        var f := Frame(SINGLE, burst[0]);
        assert [f][1..] == [];
        assert CarriedBy([f]) == Carried(f) + CarriedBy([]);
      }
    } else {
      assert Print([]) == [];
      CoalesceCarries(m, burst, [], minRead);
      assert [] + Kept(burst, minRead) == Kept(burst, minRead);
    }
  }

  lemma {:induction false} FramesCarry(m: Mode, bursts: seq<seq<bytes>>, minRead: nat)
    requires 1 <= minRead && Readable(m, bursts) && BatchedWithin(MaxRead(m) - 2, bursts)
    ensures Carries(m, Frames(bursts, minRead), Kept(Flatten(bursts), minRead))
    decreases |bursts|
  {
    if bursts == [] {
    } else {
      var rest := bursts[1..];
      BurstCarries(m, bursts[0], minRead);
      FramesCarry(m, rest, minRead);
      CarriesAppend(m, BurstFrames(bursts[0], minRead), Frames(rest, minRead),
                    Kept(bursts[0], minRead), Kept(Flatten(rest), minRead));
      KeptAppend(bursts[0], Flatten(rest), minRead);
    }
  }

  lemma {:induction false} SingleFramesCarry(m: Mode, pkts: seq<bytes>, minRead: nat)
    requires 1 <= minRead && Within(MaxRead(m), pkts)
    ensures Carries(m, SingleFrames(pkts, minRead), Kept(pkts, minRead))
    decreases |pkts|
  {
    if pkts == [] {
    } else {
      SingleFramesCarry(m, pkts[1..], minRead);
      if |pkts[0]| >= minRead {
        var fs := SingleFrames(pkts[1..], minRead);
        assert ([Frame(SINGLE, pkts[0])] + fs)[1..] == fs;
      }
    }
  }

  // ---------------------------------------------------------------- main theorems

  /** Lane round trip: the receiver hands its TUN exactly the packets of length at least
      `minRead`, unchanged and in order, and stops cleanly with the sender's counter. */
  lemma RoundTrip(m: Mode, counter: nat, bursts: seq<seq<bytes>>, minRead: nat)
    requires LawfulMode(m) && 1 <= minRead
    requires Readable(m, bursts) && BatchedWithin(MaxRead(m) - 2, bursts)
    ensures Receive(m, counter, Stream(m, counter, Frames(bursts, minRead)))
         == Received(Kept(Flatten(bursts), minRead),
                     Advance(m, counter, |Frames(bursts, minRead)|), CleanEof)
  {
    var frames := Frames(bursts, minRead);
    FramesCarry(m, bursts, minRead);
    ReceiveStream(m, counter, frames, []);
    assert Stream(m, counter, frames) + [] == Stream(m, counter, frames);
    assert CarriedBy(frames) + [] == CarriedBy(frames);
  }

  /** Batching refines the one-frame-per-packet path: the receiver cannot tell them apart. */
  lemma BatchingRefinesSingles(m: Mode, counter: nat, bursts: seq<seq<bytes>>, minRead: nat)
    requires LawfulMode(m) && 1 <= minRead
    requires Readable(m, bursts) && BatchedWithin(MaxRead(m) - 2, bursts)
    ensures Receive(m, counter, Stream(m, counter, Frames(bursts, minRead))).delivered
         == Receive(m, counter, Stream(m, counter, SingleFrames(Flatten(bursts), minRead))).delivered
  {
    RoundTrip(m, counter, bursts, minRead);
    var singles := SingleFrames(Flatten(bursts), minRead);
    FlattenWithin(bursts, MaxRead(m));
    SingleFramesCarry(m, Flatten(bursts), minRead);
    ReceiveStream(m, counter, singles, []);
    assert Stream(m, counter, singles) + [] == Stream(m, counter, singles);
    assert CarriedBy(singles) + [] == CarriedBy(singles);
  }

  lemma {:induction false} FlattenWithin(bursts: seq<seq<bytes>>, limit: nat)
    requires forall b :: b in bursts ==> Within(limit, b)
    ensures Within(limit, Flatten(bursts))
    decreases |bursts|
  {
    if bursts == [] {
    } else {
      FlattenWithin(bursts[1..], limit);
      assert bursts[0] in bursts && Flatten(bursts) == bursts[0] + Flatten(bursts[1..]);
    }
  }

  lemma CutBody(m: Mode, counter: nat, kind: byte, body: bytes, cut: bytes, rest: bytes)
    requires Receive(m, Next(m, counter), cut).delivered <= Receive(m, Next(m, counter), rest).delivered
    ensures ReceiveBody(m, counter, kind, body, cut).delivered
         <= ReceiveBody(m, counter, kind, body, rest).delivered
  {
  }

  /** Cutting any stream, well formed or not, only shortens what is delivered. */
  lemma {:induction false} CutDeliversPrefix(m: Mode, counter: nat, s: bytes, k: nat)
    requires k <= |s|
    ensures Receive(m, counter, s[..k]).delivered <= Receive(m, counter, s).delivered
    decreases |s|
  {
    if k < HDR_LEN || k - HDR_LEN < GetU16(s[1..HDR_LEN]) {
      CutIsEmpty(m, counter, s, k);
    } else {
      var e := HDR_LEN + GetU16(s[1..HDR_LEN]);
      CutParts(s, k, e);
      if e == HDR_LEN {
        CutDeliversPrefix(m, counter, s[e..], k - e);
      } else {
        CutDeliversPrefix(m, Next(m, counter), s[e..], k - e);
        CutBody(m, counter, s[0], s[HDR_LEN..e], s[e..][..k - e], s[e..]);
      }
    }
  }

  /** A cut inside the first header or body delivers nothing. */
  lemma CutIsEmpty(m: Mode, counter: nat, s: bytes, k: nat)
    requires k <= |s| && (k < HDR_LEN || k - HDR_LEN < GetU16(s[1..HDR_LEN]))
    ensures Receive(m, counter, s[..k]).delivered == []
  {
    if k >= HDR_LEN {
      assert s[..k][1..HDR_LEN] == s[1..HDR_LEN];
    }
  }

  lemma CutParts(s: bytes, k: nat, e: nat)
    requires HDR_LEN <= e <= k <= |s|
    ensures s[..k][0] == s[0] && s[..k][1..HDR_LEN] == s[1..HDR_LEN]
    ensures s[..k][HDR_LEN..e] == s[HDR_LEN..e] && s[..k][e..] == s[e..][..k - e]
  {
  }

  /** Prefix safety: a sender's stream cut after any byte delivers a prefix of the sent packets. */
  lemma PrefixSafety(m: Mode, counter: nat, bursts: seq<seq<bytes>>, minRead: nat, k: nat)
    requires LawfulMode(m) && 1 <= minRead
    requires Readable(m, bursts) && BatchedWithin(MaxRead(m) - 2, bursts)
    requires k <= |Stream(m, counter, Frames(bursts, minRead))|
    ensures Receive(m, counter, Stream(m, counter, Frames(bursts, minRead))[..k]).delivered
         <= Kept(Flatten(bursts), minRead)
  {
    RoundTrip(m, counter, bursts, minRead);
    CutDeliversPrefix(m, counter, Stream(m, counter, Frames(bursts, minRead)), k);
  }

  // ---------------------------------------------------------------- lockstep nonces

  lemma WrapOnce(k: nat)
    ensures (TWO64 + k) % TWO64 == k % TWO64
  {
  }

  lemma {:induction false} AdvanceCounts(m: Mode, counter: nat, k: nat)
    requires m.Keyed? && counter < TWO64
    ensures Advance(m, counter, k) == (counter + k) % TWO64
    decreases k
  {
    if k == 0 {
    } else {
      var c := (counter + 1) % TWO64;
      assert c == counter + 1 || (counter + 1 == TWO64 && c == 0);
      AdvanceCounts(m, c, k - 1);
      WrapOnce(k - 1);
    }
  }

  lemma {:induction false} StreamSplits(m: Mode, counter: nat, frames: seq<Frame>, k: nat)
    requires k <= |frames|
    ensures Stream(m, counter, frames)
         == Stream(m, counter, frames[..k]) + Stream(m, Advance(m, counter, k), frames[k..])
    decreases k
  {
    if k == 0 {
      assert frames[0..] == frames;
    } else {
      var f, tail := frames[0], frames[1..];
      StreamSplits(m, Next(m, counter), tail, k - 1);
      assert frames[..k] == [f] + tail[..k - 1] && tail[k - 1..] == frames[k..];
      StreamCons(m, counter, f, tail[..k - 1]);
      Assoc(Encode(m, counter, f), Stream(m, Next(m, counter), tail[..k - 1]),
            Stream(m, Advance(m, counter, k), frames[k..]));
    }
  }

  lemma StreamCons(m: Mode, counter: nat, f: Frame, fs: seq<Frame>)
    ensures Stream(m, counter, [f] + fs) == Encode(m, counter, f) + Stream(m, Next(m, counter), fs)
  {
    assert ([f] + fs)[1..] == fs;
  }

  /** At every frame boundary both ends have counted the same frames: the sender goes on with
      counter `start + k`, and that is where a receiver of the first `k` frames stands. */
  lemma Lockstep(m: Mode, start: nat, frames: seq<Frame>, k: nat)
    requires LawfulMode(m) && AllOk(m, frames) && k <= |frames| && start < TWO64
    ensures Stream(m, start, frames)
         == Stream(m, start, frames[..k]) + Stream(m, Advance(m, start, k), frames[k..])
    ensures Receive(m, start, Stream(m, start, frames[..k])).counter == Advance(m, start, k)
    ensures m.Keyed? ==> Advance(m, start, k) == (start + k) % TWO64
  {
    StreamSplits(m, start, frames, k);
    BoundaryCounter(m, start, frames[..k]);
    if m.Keyed? {
      AdvanceCounts(m, start, k);
    }
  }

  lemma BoundaryCounter(m: Mode, start: nat, frames: seq<Frame>)
    requires LawfulMode(m) && AllOk(m, frames)
    ensures Receive(m, start, Stream(m, start, frames)).counter == Advance(m, start, |frames|)
  {
    ReceiveStream(m, start, frames, []);
    assert Stream(m, start, frames) + [] == Stream(m, start, frames);
  }

  /** The batching sender's frames keep lockstep; none has an empty body, which the receiver
      would skip without counting. */
  lemma SenderKeepsLockstep(m: Mode, start: nat, bursts: seq<seq<bytes>>, minRead: nat, k: nat)
    requires LawfulMode(m) && 1 <= minRead && k <= |Frames(bursts, minRead)| && start < TWO64
    requires Readable(m, bursts) && BatchedWithin(MaxRead(m) - 2, bursts)
    ensures Receive(m, start, Stream(m, start, Frames(bursts, minRead)[..k])).counter == Advance(m, start, k)
    ensures forall f, c :: f in Frames(bursts, minRead) ==> |Protect(m, c, f.payload)| > 0
  {
    FramesCarry(m, bursts, minRead);
    Lockstep(m, start, Frames(bursts, minRead), k);
  }

  /** The nonce under which a fresh key's sender seals its `i`-th frame. */
  function FrameNonce(m: Mode, i: nat): bytes {
    Nonce(Advance(m, 0, i))
  }

  ghost predicate DistinctNonces(m: Mode, frames: nat) {
    forall i: nat, j: nat :: i < j < frames ==> FrameNonce(m, i) != FrameNonce(m, j)
  }

  lemma NonceInjective(i: nat, j: nat)
    requires i < TWO64 && j < TWO64 && Nonce(i) == Nonce(j)
    ensures i == j
  {
    Pow2At64();
    Pow256IsPow2(8);
    assert Nonce(i)[..8] == LittleEndian(i, 8) && Nonce(j)[..8] == LittleEndian(j, 8);
    LittleEndianInjective(i, j, 8);
  }

  lemma FrameNonceRepeats(m: Mode, i: nat, j: nat)
    requires m.Keyed?
    ensures FrameNonce(m, i) == FrameNonce(m, j) <==> i % TWO64 == j % TWO64
  {
    AdvanceCounts(m, 0, i);
    AdvanceCounts(m, 0, j);
    if FrameNonce(m, i) == FrameNonce(m, j) {
      NonceInjective(i % TWO64, j % TWO64);
    }
  }

  /** A key is good for exactly `2^64` frames: no nonce repeats up to there, and one does after. */
  lemma NoncesRepeatOnlyAfterWrap(m: Mode, frames: nat)
    requires m.Keyed?
    ensures DistinctNonces(m, frames) <==> frames <= TWO64
  {
    if frames > TWO64 {
      FrameNonceRepeats(m, 0, TWO64);
    } else {
      forall i: nat, j: nat | i < j < frames ensures FrameNonce(m, i) != FrameNonce(m, j) {
        FrameNonceRepeats(m, i, j);
      }
    }
  }

  // ---------------------------------------------------------------- the tight packet bound

  lemma ExactMeansShort(m: Mode, counter: nat, f: Frame)
    requires LawfulMode(m)
    ensures HeaderExact(m, counter, f) <==> |f.payload| <= MaxRead(m)
  {
    var body := Protect(m, counter, f.payload);
    assert |body| == |f.payload| + Overhead(m);
    assert Encode(m, counter, f)[1..] == PutU16(|body|) + body;
    U16RoundTrip(|body|, body);
  }

  predicate Fits(limit: nat, frames: seq<Frame>) {
    forall f :: f in frames ==> |f.payload| <= limit
  }

  lemma FitsAppend(limit: nat, a: seq<Frame>, b: seq<Frame>)
    ensures Fits(limit, a + b) <==> Fits(limit, a) && Fits(limit, b)
  {
    assert forall f :: f in a + b <==> f in a || f in b;
  }

  lemma {:induction false} CoalesceFits(limit: nat, pkts: seq<bytes>, plain: bytes, minRead: nat)
    requires MAX_FRAME <= limit && minRead + 2 <= limit
    ensures Fits(limit, Coalesce(pkts, plain, minRead)) <==> |plain| <= limit && Within(limit - 2, pkts)
    decreases |pkts|
  {
    if pkts == [] {
      if plain != [] {
        assert Frame(BATCH, plain) in FlushBatch(plain);
      }
    } else {
      var p, rest := pkts[0], pkts[1..];
      assert Within(limit - 2, pkts) <==> |p| <= limit - 2 && Within(limit - 2, rest);
      if |p| < minRead {
        CoalesceFits(limit, rest, plain, minRead);
      } else if |plain| + 2 + |p| > MAX_FRAME {
        CoalesceFits(limit, rest, Unit(p), minRead);
        FitsAppend(limit, FlushBatch(plain), Coalesce(rest, Unit(p), minRead));
        if plain != [] {
          assert Frame(BATCH, plain) in FlushBatch(plain);
        }
      } else {
        CoalesceFits(limit, rest, plain + Unit(p), minRead);
      }
    }
  }

  lemma {:induction false} FramesFit(m: Mode, bursts: seq<seq<bytes>>, minRead: nat)
    requires Readable(m, bursts) && minRead <= MAX_FRAME
    ensures Fits(MaxRead(m), Frames(bursts, minRead)) <==> BatchedWithin(MaxRead(m) - 2, bursts)
    decreases |bursts|
  {
    if bursts == [] {
    } else {
      var b, rest := bursts[0], bursts[1..];
      FramesFit(m, rest, minRead);
      FitsAppend(MaxRead(m), BurstFrames(b, minRead), Frames(rest, minRead));
      assert BatchedWithin(MaxRead(m) - 2, bursts) <==>
             BatchedWithin(MaxRead(m) - 2, rest) && (|b| != 1 ==> Within(MaxRead(m) - 2, b)) by {
        assert bursts == [b] + rest;
      }
      assert b in bursts && Within(MaxRead(m), b);
      if |b| == 1 {
        assert b[0] in b;
      } else {
        CoalesceFits(MaxRead(m), b, [], minRead);
      }
    }
  }

  /** Every length field is true exactly when batched packets leave room for their sub-length. */
  lemma HeadersExactIff(m: Mode, counter: nat, bursts: seq<seq<bytes>>, minRead: nat)
    requires LawfulMode(m) && Readable(m, bursts) && minRead <= MAX_FRAME
    ensures (forall f :: f in Frames(bursts, minRead) ==> HeaderExact(m, counter, f))
       <==> BatchedWithin(MaxRead(m) - 2, bursts)
  {
    FramesFit(m, bursts, minRead);
    forall f | f in Frames(bursts, minRead)
      ensures HeaderExact(m, counter, f) <==> |f.payload| <= MaxRead(m)
    {
      ExactMeansShort(m, counter, f);
    }
  }

  ghost predicate RoundTrips(m: Mode, bursts: seq<seq<bytes>>, minRead: nat) {
    Receive(m, 0, Stream(m, 0, Frames(bursts, minRead))).delivered == Kept(Flatten(bursts), minRead)
  }

  /** Bounding batched packets by `limit` makes the round trip hold. */
  ghost predicate SafeLimit(m: Mode, limit: nat, minRead: nat) {
    forall bursts: seq<seq<bytes>> ::
      Readable(m, bursts) && BatchedWithin(limit, bursts) ==> RoundTrips(m, bursts, minRead)
  }

  /** The bound is tight in every mode: two bytes below the read size is safe, more is not. */
  lemma SafeLimitIff(m: Mode, limit: nat, minRead: nat)
    requires LawfulMode(m) && 1 <= minRead <= MAX_FRAME
    ensures SafeLimit(m, limit, minRead) <==> limit <= MaxRead(m) - 2
  {
    if limit <= MaxRead(m) - 2 {
      forall bursts: seq<seq<bytes>> | Readable(m, bursts) && BatchedWithin(limit, bursts)
        ensures RoundTrips(m, bursts, minRead)
      {
        assert BatchedWithin(MaxRead(m) - 2, bursts);
        RoundTrip(m, 0, bursts, minRead);
      }
    } else {
      var p := Zeros(MaxRead(m) - 1);
      assert !RoundTrips(m, [[p, []]], minRead) by {
        OversizeIsLost(m, 0, p, minRead);
        OversizeAlone(p, minRead);
      }
      OversizeIsReadable(m, p);
    }
  }

  lemma OversizeIsReadable(m: Mode, p: bytes)
    requires |p| <= MaxRead(m)
    ensures Readable(m, [[p, []]]) && forall limit :: |p| <= limit ==> BatchedWithin(limit, [[p, []]])
  {
  }

  // ---------------------------------------------------------------- what a stream can carry

  lemma {:induction false} UnitsFit(pt: bytes, u: bytes)
    requires u in SplitBatch(pt).units
    ensures |u| + 2 <= |pt|
    decreases |pt|
  {
    var l := GetU16(pt);
    if u == pt[2..2 + l] {
    } else {
      UnitsFit(pt[2 + l..], u);
    }
  }

  /** A frame's units are no longer than its body without the tag. */
  lemma BodyCarries(m: Mode, counter: nat, kind: byte, body: bytes, rest: bytes, u: bytes)
    requires LawfulMode(m) && u in ReceiveBody(m, counter, kind, body, rest).delivered
    ensures |u| + Overhead(m) <= |body| || u in Receive(m, Next(m, counter), rest).delivered
  {
    var pt := Unprotect(m, counter, body);
    if pt.Some? {
      assert |body| == |pt.value| + Overhead(m);
      if u in SplitBatch(pt.value).units {
        UnitsFit(pt.value, u);
      }
    }
  }

  /** Nothing is delivered that is longer than the stream it came from, header and tag included. */
  lemma {:induction false} DeliveredFits(m: Mode, counter: nat, s: bytes, u: bytes)
    requires LawfulMode(m) && u in Receive(m, counter, s).delivered
    ensures |u| + Overhead(m) + HDR_LEN <= |s|
    decreases |s|
  {
    var n := GetU16(s[1..HDR_LEN]);
    if n == 0 {
      DeliveredFits(m, counter, s[HDR_LEN..], u);
    } else {
      var body, rest := s[HDR_LEN..HDR_LEN + n], s[HDR_LEN + n..];
      BodyCarries(m, counter, s[0], body, rest, u);
      if |u| + Overhead(m) > |body| {
        DeliveredFits(m, Next(m, counter), rest, u);
      }
    }
  }

  /** In every mode, a packet that leaves no room for its sub-length, sent in a burst that is not
      a lone packet, is not delivered. */
  lemma OversizeIsLost(m: Mode, counter: nat, p: bytes, minRead: nat)
    requires LawfulMode(m) && 1 <= minRead <= MAX_FRAME && MaxRead(m) - 2 < |p| <= MaxRead(m)
    ensures p !in Receive(m, counter, Stream(m, counter, Frames([[p, []]], minRead))).delivered
  {
    OversizeAlone(p, minRead);
    var f := Frame(BATCH, Unit(p));
    StreamCons(m, counter, f, []);
    Unit0([f]);
    Unit0(Encode(m, counter, f));
    OversizeFrameLoses(m, counter, p);
  }

  lemma OversizeFrameLoses(m: Mode, counter: nat, p: bytes)
    requires LawfulMode(m) && MaxRead(m) - 2 < |p| <= MaxRead(m)
    ensures p !in Receive(m, counter, Encode(m, counter, Frame(BATCH, Unit(p)))).delivered
  {
    var body := Protect(m, counter, Unit(p));
    var s := Encode(m, counter, Frame(BATCH, Unit(p)));
    var n := |body| - 0x1_0000;
    assert n == 0 || n == 1;
    assert PutU16(0x1_0000) == [0, 0] && PutU16(0x1_0001) == [0, 1];
    if p in Receive(m, counter, s).delivered {
      if n == 0 {
        assert s == [BATCH, 0, 0] + body;
        SkipZeroLength(m, counter, BATCH, body);
        DeliveredFits(m, counter, body, p);
      } else {
        var first, rest := body[..1], body[1..];
        assert s == [BATCH] + [0, 1] + first + rest;
        ReadWhole(m, counter, BATCH, [0, 1], first, rest);
        BodyCarries(m, counter, BATCH, first, rest, p);
        DeliveredFits(m, Next(m, counter), rest, p);
      }
    }
  }

  lemma OversizeAlone(p: bytes, minRead: nat)
    requires |p| > MAX_FRAME && 1 <= minRead <= MAX_FRAME
    ensures Frames([[p, []]], minRead) == [Frame(BATCH, Unit(p))]
    ensures Kept(Flatten([[p, []]]), minRead) == [p]
  {
    var b: seq<bytes> := [p, []];
    var bs: seq<seq<bytes>> := [b];
    assert b[1..] == [[]] && b[1..][1..] == [] && bs[1..] == [];
    assert Coalesce(b[1..], Unit(p), minRead) == Coalesce([], Unit(p), minRead);
    assert Coalesce(b, [], minRead) == FlushBatch([]) + Coalesce(b[1..], Unit(p), minRead);
    assert Frames(bs, minRead) == BurstFrames(b, minRead) + Frames([], minRead);
    assert Flatten(bs) == b + Flatten([]) == b;
    assert Kept(b[1..], minRead) == [];
    assert Kept(b, minRead) == [p] + Kept(b[1..], minRead);
  }

  // ---------------------------------------------------------------- and what it may carry instead

  /** Two zero packets of 65534 bytes in one burst in open mode: the length field wraps to zero,
      the receiver skips it, and hands on 65024 bytes that were never a packet. */
  lemma OversizeBurstIsMisread(minRead: nat)
    requires minRead <= MAX_FRAME
    ensures var z := Zeros(65534);
      && Kept(Flatten([[z, z]]), minRead) == [z, z]
      && var got := Receive(Plain, 0, Stream(Plain, 0, Frames([[z, z]], minRead))).delivered;
         |got| > 0 && got[0] == Zeros(65024)
  {
    var z := Zeros(65534);
    var f := Frame(BATCH, Unit(z));
    OversizeFrames(z, minRead);
    assert [f, f][1..] == [f];
    var rest := Stream(Plain, 0, [f]);
    var t := [255] + [254, 0] + Zeros(65024) + (Zeros(509) + rest);
    OversizeOnTheWire(rest);
    SkipZeroLength(Plain, 0, BATCH, t);
    ReadWhole(Plain, 0, 255, [254, 0], Zeros(65024), Zeros(509) + rest);
  }

  lemma OversizeOnTheWire(rest: bytes)
    ensures Encode(Plain, 0, Frame(BATCH, Unit(Zeros(65534)))) + rest
         == [BATCH, 0, 0] + ([255] + [254, 0] + Zeros(65024) + (Zeros(509) + rest))
  {
    assert PutU16(65534) == [255, 254] && PutU16(0x1_0000) == [0, 0];
    assert Zeros(65534) == [0] + Zeros(65024) + Zeros(509);
  }

  lemma SkipZeroLength(m: Mode, counter: nat, kind: byte, t: bytes)
    ensures Receive(m, counter, [kind, 0, 0] + t) == Receive(m, counter, t)
  {
    var s := [kind, 0, 0] + t;
    assert s[1..HDR_LEN] == [0, 0] && s[HDR_LEN..] == t;
  }

  lemma OversizeFrames(z: bytes, minRead: nat)
    requires |z| > MAX_FRAME && minRead <= MAX_FRAME
    ensures Frames([[z, z]], minRead) == [Frame(BATCH, Unit(z)), Frame(BATCH, Unit(z))]
    ensures Kept(Flatten([[z, z]]), minRead) == [z, z]
  {
    var f := Frame(BATCH, Unit(z));
    var b := [z, z];
    var bs: seq<seq<bytes>> := [b];
    assert b[1..] == [z] && [z][1..] == [] && bs[1..] == [];
    assert Coalesce([], Unit(z), minRead) == [f];
    assert Coalesce([z], Unit(z), minRead) == [f] + Coalesce([], Unit(z), minRead);
    assert Coalesce(b, [], minRead) == FlushBatch([]) + Coalesce([z], Unit(z), minRead);
    assert Frames([b], minRead) == BurstFrames(b, minRead) + Frames([], minRead);
    assert Flatten([b]) == b + Flatten([]) == b;
    assert Kept([z], minRead) == [z] + Kept([], minRead);
    assert Kept(b, minRead) == [z] + Kept([z], minRead);
  }
}
