/** Deriving a client's IPv6 address from a digest of its id. */
module AddrV6 {
  import opened Bytes
  import opened Addr

  ghost predicate V6Subnet(p: Prefix) {
    ValidPrefix(p) && p.family == F6 && p.bits <= 126
  }

  function NetBytes(p: Prefix): (b: bytes)
    ensures |b| == 16
  {
    BigEndian(p.net, 16)
  }

  /** Digest bytes from the right, network bytes from the left, and one mixed byte when the
      prefix ends inside a byte. */
  function CandidateBytes(p: Prefix, d: Digest): (out: bytes)
    requires p.bits <= 128
    ensures |out| == 16
  {
    var full, rem := (128 - p.bits) / 8, (128 - p.bits) % 8;
    seq(16, j requires 0 <= j < 16 =>
      if j > 15 - full then d[15 - j]
      else if j == 15 - full && rem > 0 then Mix(NetBytes(p)[j], d[full], rem)
      else NetBytes(p)[j])
  }

  function SetLowBit(x: byte): (r: byte)
    ensures r == if x % 2 == 0 then x + 1 else x
  {
    OrStep(x / 2, x % 2, 0, 1);
    BitIdentities(x / 2);
    BitOr(x, 1)
  }

  function AddrOf(b: bytes): (a: Addr)
    requires |b| == 16
    ensures a.V6? && a.Num() == OfBigEndian(b)
  {
    FitsAddr(b);
    V6(OfBigEndian(b))
  }

  /** `v6FromClientID`. */
  function V6Candidate(p: Prefix, d: Digest): Addr
    requires p.bits <= 128
  {
    var out := CandidateBytes(p, d);
    if OfBigEndian(out) == p.net then AddrOf(out[15 := SetLowBit(out[15])]) else AddrOf(out)
  }

  // ---------------------------------------------------------------- the same network bits

  /** Two numbers that share everything above position `t*f` have the same quotient. */
  lemma SameTop(q: nat, t: nat, r: nat, f: nat, x: nat)
    requires r < t && x < f
    ensures ((q * t + r) * f + x) / (t * f) == q
  {
    var d, s := t * f, r * f + x;
    Regroup(q, t, r, f, x);
    MulGap(r, t, f);
    DivModUnique(q * d + s, d, q, s);
  }

  lemma Regroup(q: nat, t: nat, r: nat, f: nat, x: nat)
    ensures (q * t + r) * f + x == q * (t * f) + (r * f + x)
  {
    assert (q * t + r) * f == (q * t) * f + r * f;
    assert (q * t) * f == q * (t * f);
  }

  /** `b` as a number: the bytes before position `n`, scaled, plus the rest. */
  lemma HeadTail(b: bytes, n: nat)
    requires n <= |b|
    ensures OfBigEndian(b) == OfBigEndian(b[..n]) * Pow256(|b| - n) + OfBigEndian(b[n..])
    ensures OfBigEndian(b[n..]) < Pow256(|b| - n)
  {
    Joined(b, n, b[..n], b[n..]);
    OfBigEndianBound(b[n..]);
  }

  lemma Joined(b: bytes, n: nat, head: bytes, tail: bytes)
    requires b == head + tail && |head| == n
    ensures OfBigEndian(b) == OfBigEndian(head) * Pow256(|b| - n) + OfBigEndian(tail)
  {
    OfBigEndianAppend(head, tail);
  }

  /** Agreement on all bytes before the last `full`. */
  lemma AgreeOnBytes(a: bytes, b: bytes, full: nat)
    requires |a| == |b| == 16 && full <= 16 && a[..16 - full] == b[..16 - full]
    ensures OfBigEndian(a) / Pow256(full) == OfBigEndian(b) / Pow256(full)
  {
    HeadTail(a, 16 - full);
    HeadTail(b, 16 - full);
    var h, f := OfBigEndian(a[..16 - full]), Pow256(full);
    DivModUnique(OfBigEndian(a), f, h, OfBigEndian(a[16 - full..]));
    DivModUnique(OfBigEndian(b), f, h, OfBigEndian(b[16 - full..]));
  }

  /** The weight of bit position `8*full + rem`. */
  function Scale(full: nat, rem: nat): (n: nat)
    ensures n >= 1
  {
    MulGe(Pow2(rem), 1, Pow256(full));
    Pow2(rem) * Pow256(full)
  }

  /** What is left above the boundary position: the bytes before the boundary byte, and that
      byte's bits above `rem`. */
  lemma TopOf(a: bytes, full: nat, rem: nat, q: nat, r: nat)
    requires |a| == 16 && full < 16 && rem < 8 && r < Pow2(rem)
    requires a[15 - full] == q * Pow2(rem) + r
    ensures OfBigEndian(a) / Scale(full, rem) == OfBigEndian(a[..15 - full]) * Pow2(8 - rem) + q
  {
    var top := OfBigEndian(a[..15 - full]) * Pow2(8 - rem) + q;
    BoundaryTop(a, full, rem, q, r, top);
    HeadTail(a, 16 - full);
    SameTop(top, Pow2(rem), r, Pow256(full), OfBigEndian(a[16 - full..]));
  }

  lemma BoundaryTop(a: bytes, full: nat, rem: nat, q: nat, r: nat, top: nat)
    requires |a| == 16 && full < 16 && rem < 8
    requires a[15 - full] == q * Pow2(rem) + r
    requires top == OfBigEndian(a[..15 - full]) * Pow2(8 - rem) + q
    ensures OfBigEndian(a[..16 - full]) == top * Pow2(rem) + r
  {
    assert a[..16 - full] == a[..15 - full] + [a[15 - full]];
    OfBigEndianSnoc(a[..15 - full], a[15 - full]);
    Pow2Add(8 - rem, rem);
    Pow2Eight();
    SplitByte(OfBigEndian(a[..15 - full]), Pow2(8 - rem), Pow2(rem), q, r);
  }

  lemma SplitByte(h: nat, upper: nat, lower: nat, q: nat, r: nat)
    requires upper * lower == 256
    ensures 256 * h + (q * lower + r) == (h * upper + q) * lower + r
  {
    Regroup(h, upper, q, lower, r);
  }

  lemma ScaleIsPow2(full: nat, rem: nat)
    ensures Pow2(rem + 8 * full) == Scale(full, rem)
  {
    Pow256IsPow2(full);
    Pow2Add(rem, 8 * full);
  }

  lemma HostCountParts(p: Prefix)
    requires V6Subnet(p)
    ensures HostCount(p) == Scale((128 - p.bits) / 8, (128 - p.bits) % 8)
  {
    ScaleIsPow2((128 - p.bits) / 8, (128 - p.bits) % 8);
  }

  lemma NetBytesValue(p: Prefix)
    requires V6Subnet(p)
    ensures OfBigEndian(NetBytes(p)) == p.net
  {
    NetFits(p);
    BigEndianRoundTrip(p.net, 16);
  }

  lemma NetFits(p: Prefix)
    requires V6Subnet(p)
    ensures p.net < Pow256(16)
  {
    Pow256IsPow2(16);
  }

  lemma CandidateAgrees(p: Prefix, d: Digest, full: nat, rem: nat)
    requires V6Subnet(p) && full == (128 - p.bits) / 8 && rem == (128 - p.bits) % 8
    ensures OfBigEndian(CandidateBytes(p, d)) / Scale(full, rem)
         == OfBigEndian(NetBytes(p)) / Scale(full, rem)
  {
    var out, net := CandidateBytes(p, d), NetBytes(p);
    CandidateHead(p, d, full, rem);
    if rem == 0 {
      AgreeOnBytes(out, net, full);
    } else {
      AgreeOnBits(out, net, d[full], full, rem);
    }
  }

  lemma CandidateHead(p: Prefix, d: Digest, full: nat, rem: nat)
    requires p.bits <= 128 && full == (128 - p.bits) / 8 && rem == (128 - p.bits) % 8
    ensures rem == 0 ==> CandidateBytes(p, d)[..16 - full] == NetBytes(p)[..16 - full]
    ensures full < 16 ==> CandidateBytes(p, d)[..15 - full] == NetBytes(p)[..15 - full]
    ensures rem > 0 ==> full < 16 && CandidateBytes(p, d)[15 - full] == Mix(NetBytes(p)[15 - full], d[full], rem)
  {
  }

  /** Agreement on all bytes before the boundary byte, which is mixed. */
  lemma AgreeOnBits(out: bytes, net: bytes, x: byte, full: nat, rem: nat)
    requires |out| == |net| == 16 && full < 16 && 0 < rem < 8
    requires out[..15 - full] == net[..15 - full] && out[15 - full] == Mix(net[15 - full], x, rem)
    ensures OfBigEndian(out) / Scale(full, rem) == OfBigEndian(net) / Scale(full, rem)
  {
    var q, r, _, r' := MixParts(net[15 - full], x, rem);
    ShlIsMul(q, rem);
    TopOf(out, full, rem, q, r');
    TopOf(net, full, rem, q, r);
  }

  /** The derived bytes agree with the subnet on all its network bits. */
  lemma CandidateKeepsNetwork(p: Prefix, d: Digest)
    requires V6Subnet(p)
    ensures OfBigEndian(CandidateBytes(p, d)) / HostCount(p) == p.net / HostCount(p)
  {
    HostCountParts(p);
    NetBytesValue(p);
    CandidateAgrees(p, d, (128 - p.bits) / 8, (128 - p.bits) % 8);
  }

  // ---------------------------------------------------------------- the host bits

  lemma ModScale(x: nat, y: nat, r: nat, f: nat)
    requires y < f && r > 0 && f > 0
    ensures (x * f + y) % (r * f) == (x % r) * f + y
  {
    var q, s := x / r, x % r;
    DivModParts(x, r);
    Regroup(q, r, s, f, y);
    MulGap(s, r, f);
    DivModUnique(x * f + y, r * f, q, s * f + y);
  }

  /** The lowest byte decides what is left modulo a divisor of 256. */
  lemma LowByte(h: nat, b: nat, r: nat, k: nat)
    requires r * k == 256 && r > 0
    ensures (256 * h + b) % r == b % r
  {
    DivModParts(b, r);
    var q, s := b / r, b % r;
    Spread(h, q, r, k);
    DivModUnique(256 * h + b, r, k * h + q, s);
  }

  lemma Spread(h: nat, q: nat, r: nat, k: nat)
    ensures (k * h + q) * r == (r * k) * h + q * r
  {
    assert (k * h + q) * r == (k * h) * r + q * r;
    assert (k * h) * r == (r * k) * h;
  }

  lemma MixLow(net: byte, host: byte, rem: nat)
    requires rem < 8
    ensures Mix(net, host, rem) % Pow2(rem) == host % Pow2(rem)
  {
    var q, r, q', r' := MixParts(net, host, rem);
    ShlIsMul(q, rem);
    ShlIsMul(q', rem);
    DivModUnique(Mix(net, host, rem), Pow2(rem), q, r');
    DivModUnique(host, Pow2(rem), q', r');
  }

  /** The byte that holds the boundary, in the candidate and in the digest. */
  lemma BoundaryAgrees(p: Prefix, d: Digest, full: nat, rem: nat)
    requires p.bits <= 128 && full == (128 - p.bits) / 8 && rem == (128 - p.bits) % 8
    ensures OfBigEndian(CandidateBytes(p, d)[..16 - full]) % Pow2(rem) == OfLittleEndian(d[full..16]) % Pow2(rem)
  {
    if rem == 0 {
      assert Pow2(rem) == 1;
    } else {
      CandidateHead(p, d, full, rem);
      MixLow(NetBytes(p)[15 - full], d[full], rem);
      LastByte(CandidateBytes(p, d)[..16 - full], rem);
      FirstByte(d[full..16], rem);
    }
  }

  lemma LastByte(b: bytes, rem: nat)
    requires b != [] && rem <= 8
    ensures OfBigEndian(b) % Pow2(rem) == b[|b| - 1] % Pow2(rem)
  {
    Pow2Add(rem, 8 - rem);
    Pow2Eight();
    LowByte(OfBigEndian(b[..|b| - 1]), b[|b| - 1], Pow2(rem), Pow2(8 - rem));
  }

  lemma FirstByte(b: bytes, rem: nat)
    requires b != [] && rem <= 8
    ensures OfLittleEndian(b) % Pow2(rem) == b[0] % Pow2(rem)
  {
    Pow2Add(rem, 8 - rem);
    Pow2Eight();
    LowByte(OfLittleEndian(b[1..]), b[0], Pow2(rem), Pow2(8 - rem));
  }

  lemma TailIsDigest(p: Prefix, d: Digest, full: nat)
    requires p.bits <= 128 && full == (128 - p.bits) / 8
    ensures OfBigEndian(CandidateBytes(p, d)[16 - full..]) == OfLittleEndian(d[..full])
  {
    Mirrored(CandidateBytes(p, d)[16 - full..], d[..full]);
  }

  lemma HostIsDigest(p: Prefix, d: Digest, full: nat, rem: nat)
    requires V6Subnet(p) && full == (128 - p.bits) / 8 && rem == (128 - p.bits) % 8
    ensures OfBigEndian(CandidateBytes(p, d)) % Scale(full, rem) == OfLittleEndian(d[..16]) % Scale(full, rem)
  {
    CandidateSplit(p, d, full);
    DigestSplit(d, full);
    BoundaryAgrees(p, d, full, rem);
    SameMod(OfBigEndian(CandidateBytes(p, d)[..16 - full]), OfLittleEndian(d[full..16]), OfLittleEndian(d[..full]),
            Pow2(rem), Pow256(full));
  }

  lemma SameMod(x: nat, x': nat, y: nat, r: nat, f: nat)
    requires y < f && r > 0 && x % r == x' % r
    ensures (x * f + y) % (r * f) == (x' * f + y) % (r * f)
  {
    ModScale(x, y, r, f);
    ModScale(x', y, r, f);
  }

  lemma CandidateSplit(p: Prefix, d: Digest, full: nat)
    requires p.bits <= 128 && full == (128 - p.bits) / 8
    ensures var out := CandidateBytes(p, d);
      OfBigEndian(out) == OfBigEndian(out[..16 - full]) * Pow256(full) + OfLittleEndian(d[..full])
    ensures OfLittleEndian(d[..full]) < Pow256(full)
  {
    HeadTail(CandidateBytes(p, d), 16 - full);
    TailIsDigest(p, d, full);
  }

  lemma DigestSplit(d: Digest, full: nat)
    requires full <= 16
    ensures OfLittleEndian(d[..16]) == OfLittleEndian(d[full..16]) * Pow256(full) + OfLittleEndian(d[..full])
  {
    JoinedLow(d[..16], full, d[..full], d[full..16]);
  }

  lemma JoinedLow(b: bytes, n: nat, head: bytes, tail: bytes)
    requires b == head + tail && |head| == n
    ensures OfLittleEndian(b) == OfLittleEndian(tail) * Pow256(n) + OfLittleEndian(head)
  {
    OfLittleEndianAppend(head, tail);
  }

  /** The digest's part of the address: its first sixteen bytes as a number, least significant first,
      as far as the host bits go; where that is zero, one. */
  function HostPart(p: Prefix, d: Digest): nat {
    var h := OfLittleEndian(d[..16]) % HostCount(p);
    if h == 0 then 1 else h
  }

  lemma LowBitAddsOne(b: bytes)
    requires |b| == 16 && OfBigEndian(b) % 2 == 0
    ensures OfBigEndian(b[15 := SetLowBit(b[15])]) == OfBigEndian(b) + 1
  {
    var h := b[..15];
    var c := b[15 := SetLowBit(b[15])];
    assert b == h + [b[15]] && c == h + [SetLowBit(b[15])];
    OfBigEndianSnoc(h, b[15]);
    OfBigEndianSnoc(h, SetLowBit(b[15]));
  }

  lemma NetIsEven(p: Prefix)
    requires V6Subnet(p)
    ensures p.net % 2 == 0 && HostCount(p) >= 4
  {
    var half := Pow2(HostBits(p) - 1);
    assert half == 2 * Pow2(HostBits(p) - 2);
    var q := NetQuotient(p);
    EvenMultiple(p.net, q, half);
  }

  lemma EvenMultiple(n: nat, q: nat, half: nat)
    requires n == q * (2 * half)
    ensures n % 2 == 0
  {
    assert n == 2 * (q * half);
  }

  /** For every digest the candidate lies in the subnet and is not the network address. */
  lemma CandidateInSubnet(p: Prefix, d: Digest)
    requires V6Subnet(p)
    ensures V6Candidate(p, d).V6? && Contains(p, V6Candidate(p, d))
    ensures V6Candidate(p, d) != NetAddr(p)
  {
    var out := CandidateBytes(p, d);
    CandidateKeepsNetwork(p, d);
    if OfBigEndian(out) == p.net {
      NetIsEven(p);
      LowBitAddsOne(out);
      ContainsIsRange(p, V6Candidate(p, d));
    }
  }

  /** The candidate is the network address plus the digest's part, so that equally many digests lead
      to each host. */
  lemma CandidateIs(p: Prefix, d: Digest)
    requires V6Subnet(p)
    ensures V6Candidate(p, d).V6? && V6Candidate(p, d).Num() == p.net + HostPart(p, d)
  {
    var out, n := CandidateBytes(p, d), HostCount(p);
    CandidateKeepsNetwork(p, d);
    HostCountParts(p);
    HostIsDigest(p, d, (128 - p.bits) / 8, (128 - p.bits) % 8);
    DivModParts(OfBigEndian(out), n);
    DivModParts(p.net, n);
    if OfBigEndian(out) == p.net {
      NetIsEven(p);
      LowBitAddsOne(out);
    }
  }

  // ---------------------------------------------------------------- the loop

  lemma IsCandidate(p: Prefix, d: Digest, s: bytes)
    requires p.bits <= 128 && |s| == 16
    requires var full, rem := (128 - p.bits) / 8, (128 - p.bits) % 8;
      forall j :: 0 <= j < 16 ==>
        s[j] == if j > 15 - full then d[15 - j]
                else if j == 15 - full && rem > 0 then Mix(NetBytes(p)[j], d[full], rem)
                else NetBytes(p)[j]
    ensures s == CandidateBytes(p, d)
  {
  }

  /** `v6FromClientID` as written: overwrite host bytes, mix the boundary byte, avoid the
      network address. */
  method V6FromClientID(p: Prefix, digest: Digest) returns (a: Addr)
    requires V6Subnet(p)
    ensures a == V6Candidate(p, digest)
  {
    var net := NetBytes(p);
    var out := new byte[16](i requires 0 <= i < 16 => net[i]);
    var full := (128 - p.bits) / 8;
    var rem := (128 - p.bits) % 8;
    for i := 0 to full
      invariant forall j :: 0 <= j < 16 ==> out[j] == if j > 15 - i then digest[15 - j] else net[j]
    {
      out[15 - i] := digest[i];
    }
    if rem > 0 {
      var boundary := 15 - full;
      out[boundary] := Mix(net[boundary], digest[full], rem);
    }
    IsCandidate(p, digest, out[..]);
    if OfBigEndian(out[..]) == p.net {
      ghost var was := out[..];
      out[15] := SetLowBit(out[15]);
      assert out[..] == was[15 := SetLowBit(was[15])];
    }
    a := AddrOf(out[..]);
  }
}
