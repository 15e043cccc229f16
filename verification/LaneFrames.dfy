/** How bursts are packed into frames, and what ends a lane or is skipped on it. */
module LaneFrames {
  import opened Bytes
  import opened Lane
  import opened LaneProofs

  // ---------------------------------------------------------------- packing

  /** A batch of at most 60000 bytes, or of a single unit. */
  ghost predicate BatchFits(b: bytes) {
    |b| >= 2 && (|b| <= 60000 || |b| == 2 + GetU16(b))
  }

  /** Batch frames, each as full as it could be: the first unit of the next would not have fitted. */
  ghost predicate Packed(frames: seq<Frame>) {
    && (forall i :: 0 <= i < |frames| ==> frames[i].kind == 1 && BatchFits(frames[i].payload))
    && forall i :: 0 <= i < |frames| - 1 ==> |frames[i].payload| + 2 + GetU16(frames[i + 1].payload) > 60000
  }

  lemma UnitStarts(p: bytes, more: bytes)
    requires |p| <= MAX_PKT
    ensures |Unit(p)| == 2 + |p| && GetU16(Unit(p)) == |p| && GetU16(Unit(p) + more) == |p|
  {
    UnitParts(p, more);
    UnitParts(p, []);
    Unit0(Unit(p));
  }

  lemma SameStart(a: bytes, b: bytes)
    requires |a| >= 2 && a <= b
    ensures GetU16(b) == GetU16(a)
  {
    assert b[0] == a[0] && b[1] == a[1];
  }

  lemma PackedCons(f: Frame, frames: seq<Frame>)
    requires f.kind == 1 && BatchFits(f.payload) && Packed(frames)
    requires frames != [] ==> |f.payload| + 2 + GetU16(frames[0].payload) > 60000
    ensures Packed([f] + frames)
  {
    var all := [f] + frames;
    forall i | 0 <= i < |all| - 1 ensures |all[i].payload| + 2 + GetU16(all[i + 1].payload) > 60000 {
      assert all[i + 1] == frames[i];
      if i > 0 {
        assert all[i] == frames[i - 1];
      }
    }
  }

  /** `plain` is the batch under construction, which the first frame completes. */
  lemma {:induction false} CoalescePacks(pkts: seq<bytes>, plain: bytes, minRead: nat)
    requires Within(MAX_PKT, pkts) && (plain == [] || BatchFits(plain))
    ensures Packed(Coalesce(pkts, plain, minRead))
    ensures plain != [] ==> Coalesce(pkts, plain, minRead) != [] && plain <= Coalesce(pkts, plain, minRead)[0].payload
    decreases |pkts|
  {
    if pkts == [] {
    } else {
      var p, rest := pkts[0], pkts[1..];
      assert p in pkts;
      UnitStarts(p, []);
      if |p| < minRead {
        CoalescePacks(rest, plain, minRead);
      } else if |plain| + 2 + |p| > MAX_FRAME {
        CoalescePacks(rest, Unit(p), minRead);
        FlushPacks(plain, p, Coalesce(rest, Unit(p), minRead));
      } else {
        AppendFits(plain, p);
        CoalescePacks(rest, plain + Unit(p), minRead);
      }
    }
  }

  lemma AppendFits(plain: bytes, p: bytes)
    requires (plain == [] || BatchFits(plain)) && |p| <= MAX_PKT && |plain| + 2 + |p| <= 60000
    ensures BatchFits(plain + Unit(p)) && plain <= plain + Unit(p)
  {
  }

  lemma FlushPacks(plain: bytes, p: bytes, frames: seq<Frame>)
    requires (plain == [] || BatchFits(plain)) && |p| <= MAX_PKT && |plain| + 2 + |p| > 60000
    requires Packed(frames) && frames != [] && Unit(p) <= frames[0].payload
    ensures Packed(FlushBatch(plain) + frames)
    ensures plain != [] ==> FlushBatch(plain) + frames != [] && plain <= (FlushBatch(plain) + frames)[0].payload
  {
    if plain == [] {
      Unit0(frames);
    } else {
      UnitStarts(p, []);
      SameStart(Unit(p), frames[0].payload);
      PackedCons(Frame(1, plain), frames);
    }
  }

  /** A lone packet travels at once in a single frame; several that are queued travel in batch frames
      that are as full as the order of the packets allows, of at most 60000 bytes each unless one
      packet alone is longer. */
  lemma BurstIsPacked(burst: seq<bytes>, minRead: nat)
    requires Within(MAX_PKT, burst)
    ensures |burst| == 1 ==> BurstFrames(burst, minRead) == if |burst[0]| < minRead then [] else [Frame(0, burst[0])]
    ensures |burst| != 1 ==> Packed(BurstFrames(burst, minRead))
  {
    if |burst| != 1 {
      CoalescePacks(burst, [], minRead);
    }
  }

  // ---------------------------------------------------------------- after good frames

  /** A frame body that does not open ends the lane: everything before it has been delivered, nothing
      after it is, and it has been counted. */
  lemma UnopenedEnds(m: Mode, counter: nat, frames: seq<Frame>, kind: byte, body: bytes, rest: bytes)
    requires LawfulMode(m) && AllOk(m, frames) && 0 < |body| < 0x1_0000
    requires Unprotect(m, Advance(m, counter, |frames|), body) == None
    ensures Receive(m, counter, Stream(m, counter, frames) + ([kind] + PutU16(|body|) + body + rest))
         == Received(CarriedBy(frames), Next(m, Advance(m, counter, |frames|)), OpenFailed)
  {
    var c := Advance(m, counter, |frames|);
    LengthRead(|body|);
    ReadWhole(m, c, kind, PutU16(|body|), body, rest);
    ReceiveStream(m, counter, frames, [kind] + PutU16(|body|) + body + rest);
    Unit0(CarriedBy(frames));
  }

  lemma LengthRead(n: nat)
    requires n < 0x1_0000
    ensures GetU16(PutU16(n)) == n
  {
    U16RoundTrip(n, []);
    Unit0(PutU16(n));
  }

  /** A batch that does not split ends the lane after the units before the fault. */
  lemma MalformedEnds(m: Mode, counter: nat, frames: seq<Frame>, body: bytes, pt: bytes, rest: bytes)
    requires LawfulMode(m) && AllOk(m, frames) && 0 < |body| < 0x1_0000
    requires Unprotect(m, Advance(m, counter, |frames|), body) == Some(pt) && !SplitBatch(pt).ok
    ensures Receive(m, counter, Stream(m, counter, frames) + ([1] + PutU16(|body|) + body + rest))
         == Received(CarriedBy(frames) + SplitBatch(pt).units, Next(m, Advance(m, counter, |frames|)), Malformed)
  {
    var c := Advance(m, counter, |frames|);
    LengthRead(|body|);
    ReadWhole(m, c, 1, PutU16(|body|), body, rest);
    ReceiveStream(m, counter, frames, [1] + PutU16(|body|) + body + rest);
  }

  /** A frame of length zero is as if it were not there, and is not counted. */
  lemma EmptyIsSkipped(m: Mode, counter: nat, frames: seq<Frame>, kind: byte, rest: bytes)
    requires LawfulMode(m) && AllOk(m, frames)
    ensures Receive(m, counter, Stream(m, counter, frames) + ([kind, 0, 0] + rest))
         == Receive(m, counter, Stream(m, counter, frames) + rest)
  {
    var s := [kind, 0, 0] + rest;
    assert s[1..3] == [0, 0] && s[3..] == rest;
    ReceiveStream(m, counter, frames, s);
    ReceiveStream(m, counter, frames, rest);
  }
}
