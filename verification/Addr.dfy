/** IP addresses, prefixes, and the address arithmetic of the pool. */
module Addr {
  import opened Bytes

  type U32 = x: int | 0 <= x < 0x1_0000_0000
  type U128 = x: int | 0 <= x < TWO64 * TWO64

  datatype Family = F4 | F6

  /** `netip.Addr` without zones. */
  datatype Addr = Invalid | V4(n4: U32) | V6(n6: U128) {
    predicate Is(f: Family) {
      if f == F4 then V4? else V6?
    }
    predicate IsUnspecified() {
      this == V4(0) || this == V6(0)
    }
    function Num(): nat {
      match this
      case Invalid => 0
      case V4(n) => n
      case V6(n) => n
    }
  }

  /** Four or sixteen bytes are an address. */
  lemma FitsAddr(b: bytes)
    ensures |b| == 4 ==> OfBigEndian(b) < 0x1_0000_0000
    ensures |b| == 16 ==> OfBigEndian(b) < TWO64 * TWO64
  {
    OfBigEndianRoundTrip(b);
    Pow256IsPow2(|b|);
    Pow2Widths();
  }

  /** An address fits four or sixteen bytes. */
  lemma FitsBytes(a: Addr)
    ensures a.V4? ==> a.n4 < Pow256(4)
    ensures a.V6? ==> a.n6 < Pow256(16)
  {
    Pow256IsPow2(4);
    Pow256IsPow2(16);
    Pow2Widths();
  }

  function Width(f: Family): nat {
    if f == F4 then 32 else 128
  }

  /** A masked prefix: `net` has no host bits. */
  datatype Prefix = Prefix(family: Family, net: nat, bits: nat)

  ghost predicate ValidPrefix(p: Prefix) {
    p.bits <= Width(p.family) && p.net + HostCount(p) <= Pow2(Width(p.family)) && p.net % HostCount(p) == 0
  }

  function HostBits(p: Prefix): nat {
    if p.bits <= Width(p.family) then Width(p.family) - p.bits else 0
  }

  function HostCount(p: Prefix): (n: nat)
    ensures n >= 1
  {
    Pow2(HostBits(p))
  }

  function NetAddr(p: Prefix): Addr
    requires ValidPrefix(p)
  {
    Pow2Widths();
    if p.family == F4 then V4(p.net) else V6(p.net)
  }

  /** `netip.Prefix.Contains`: the addresses agree once the host bits are shifted away. */
  predicate Contains(p: Prefix, a: Addr) {
    a.Is(p.family) && a.Num() / HostCount(p) == p.net / HostCount(p)
  }

  /** A prefix is an interval of addresses. */
  lemma ContainsIsRange(p: Prefix, a: Addr)
    requires ValidPrefix(p)
    ensures Contains(p, a) <==> a.Is(p.family) && p.net <= a.Num() < p.net + HostCount(p)
  {
    SameQuotient(a.Num(), p.net, HostCount(p));
  }

  lemma SameQuotient(n: nat, base: nat, d: nat)
    requires d > 0 && base % d == 0
    ensures n / d == base / d <==> base <= n < base + d
  {
    var q := base / d;
    assert base == q * d + 0 by { DivModParts(base, d); }
    DivModParts(n, d);
    if base <= n < base + d {
      DivModUnique(n, d, q, n - base);
    }
  }

  lemma DivModParts(n: nat, d: nat)
    requires d > 0
    ensures n == (n / d) * d + n % d && 0 <= n % d < d
  {
    assert n == d * (n / d) + n % d;
  }

  // ---------------------------------------------------------------- IPv4 successor

  /** `Addr.As4`. */
  function As4(a: U32): (b: bytes)
    ensures |b| == 4 && Value4(b) == a
  {
    var h := a / 256;
    var q := h / 256;
    [q / 256, q % 256, h % 256, a % 256]
  }

  function Value4(b: bytes): (n: int)
    requires |b| == 4
    ensures 0 <= n < 0x1_0000_0000
  {
    var b0: int, b1: int, b2: int, b3: int := b[0], b[1], b[2], b[3];
    b0 * 0x100_0000 + b1 * 0x1_0000 + b2 * 256 + b3
  }

  /** `nextAddr`: the byte-carry loop is addition of one modulo `2^32`. */
  method NextAddr(a: U32) returns (r: U32)
    ensures r == (a + 1) % 0x1_0000_0000
  {
    ghost var was := As4(a);
    var b := new byte[4](i requires 0 <= i < 4 => As4(a)[i]);
    var i := 3;
    while i >= 0
      invariant -1 <= i <= 3
      invariant forall j :: i < j < 4 ==> b[j] == 0 && was[j] == 255
      invariant forall j :: 0 <= j <= i ==> b[j] == was[j]
    {
      var up: int := b[i];
      b[i] := (up + 1) % 256;
      if b[i] != 0 {
        break;
      }
      i := i - 1;
    }
    CarryAdds(was, b[..], i);
    r := Value4(b[..]);
  }

  /** The carry ran through the 255s on the right and stopped at byte `i`, or ran off the end. */
  lemma CarryAdds(was: bytes, now: bytes, i: int)
    requires |was| == |now| == 4 && -1 <= i < 4
    requires forall j :: i < j < 4 ==> now[j] == 0 && was[j] == 255
    requires forall j :: 0 <= j < i ==> now[j] == was[j]
    requires i >= 0 ==> now[i] as int == was[i] as int + 1
    ensures Value4(now) == (Value4(was) + 1) % 0x1_0000_0000
  {
    if i == -1 {
      assert Value4(was) == 0xFFFF_FFFF;
    } else {
      assert Value4(now) == Value4(was) + 1;
    }
  }

  // ---------------------------------------------------------------- IPv4 broadcast

  /** `broadcast4`: the network address with `0xFFFFFFFF >> bits` or-ed in. */
  function Broadcast4(p: Prefix): nat {
    BitOr(p.net, 0xFFFF_FFFF / Pow2(p.bits))
  }

  lemma BroadcastValue(p: Prefix)
    requires ValidPrefix(p) && p.family == F4
    ensures Broadcast4(p) == p.net + HostCount(p) - 1
  {
    var q := NetQuotient(p);
    ShiftedMask(HostBits(p), p.bits);
    OrMask(p.net, q, HostBits(p));
  }

  lemma NetQuotient(p: Prefix) returns (q: nat)
    requires ValidPrefix(p)
    ensures p.net == q * HostCount(p)
  {
    DivModParts(p.net, HostCount(p));
    q := p.net / HostCount(p);
  }

  lemma ShiftedMask(k: nat, bits: nat)
    requires k + bits == 32
    ensures 0xFFFF_FFFF / Pow2(bits) == Pow2(k) - 1
  {
    Pow2At32();
    Pow2Add(k, bits);
    MaskShift(Pow2(k), Pow2(bits));
  }

  lemma OrMask(n: nat, q: nat, k: nat)
    requires n == q * Pow2(k)
    ensures BitOr(n, Pow2(k) - 1) == n + Pow2(k) - 1
  {
    ShlIsMul(q, k);
    OrLowBits(q, k);
  }

  lemma MaskShift(h: nat, d: nat)
    requires h >= 1 && d >= 1 && h * d == 0x1_0000_0000
    ensures 0xFFFF_FFFF / d == h - 1
  {
    assert (h - 1) * d == h * d - d;
    DivModUnique(0xFFFF_FFFF, d, h - 1, d - 1);
  }

  /** It is the last address of the subnet. */
  lemma BroadcastIsLast(p: Prefix)
    requires ValidPrefix(p) && p.family == F4
    ensures Broadcast4(p) < 0x1_0000_0000 && Contains(p, V4(Broadcast4(p)))
    ensures forall a: Addr :: Contains(p, a) ==> a.Num() <= Broadcast4(p)
  {
    Pow2At32();
    BroadcastValue(p);
    forall a: Addr | Contains(p, a) ensures a.Num() <= Broadcast4(p) {
      ContainsIsRange(p, a);
    }
    ContainsIsRange(p, V4(Broadcast4(p)));
  }

  // ---------------------------------------------------------------- IPv6 host derivation

  /** A SHA-256 digest. */
  type Digest = d: bytes | |d| == 32 witness seq(32, _ => 0)

  /** `0xFF >> (8 - rem)`: the low `rem` bits of a byte. */
  function HostMask(rem: nat): (m: nat)
    requires rem < 8
    ensures m == LowMask(rem)
  {
    MaskByte(rem);
    0xFF / Pow2(8 - rem)
  }

  /** `(net &^ mask) | (host & mask)`. */
  function Mix(net: byte, host: byte, rem: nat): byte
    requires rem < 8
  {
    MixIsByte(net, host, rem);
    BitOr(BitAndNot(net, HostMask(rem)), BitAnd(host, HostMask(rem)))
  }

  lemma MaskByte(rem: nat)
    requires rem < 8
    ensures 0xFF / Pow2(8 - rem) == LowMask(rem)
  {
    if rem == 0 { assert Pow2(8) == 256; }
    else if rem == 1 { assert Pow2(7) == 128; }
    else if rem == 2 { assert Pow2(6) == 64; }
    else if rem == 3 { assert Pow2(5) == 32; }
    else if rem == 4 { assert Pow2(4) == 16; assert LowMask(4) == 15; }
    else if rem == 5 { assert Pow2(3) == 8; assert LowMask(5) == 31; }
    else if rem == 6 { assert Pow2(2) == 4; assert LowMask(6) == 63; }
    else { assert Pow2(1) == 2; assert LowMask(7) == 127; }
  }

  lemma MixIsByte(net: byte, host: byte, rem: nat)
    requires rem < 8
    ensures BitOr(BitAndNot(net, HostMask(rem)), BitAnd(host, HostMask(rem))) < 256
  {
    var _, _, _, _ := MixParts(net, host, rem);
  }

  /** The mixed byte has the network byte's bits above `rem` and the host byte's below. */
  lemma MixParts(net: byte, host: byte, rem: nat) returns (q: nat, r: nat, q': nat, r': nat)
    requires rem < 8
    ensures net == Shl(q, rem) + r && host == Shl(q', rem) + r' && r <= LowMask(rem) && r' <= LowMask(rem)
    ensures Splices(net, host, LowMask(rem), Shl(q, rem) + r') && Shl(q, rem) + r' < 256
  {
    q, r := SplitAt(net, rem);
    q', r' := SplitAt(host, rem);
    SpliceLowBits(q, r, q', r', rem);
    ByteFits(q, r, rem);
  }

  lemma ByteFits(q: nat, r: nat, k: nat)
    requires k < 8 && Shl(q, k) + r < 256
    ensures Shl(q, k) + LowMask(k) < 256
  {
    assert LowMask(8) == 255;
    TopFits(q, r, k, 8);
  }

  /** A number's bits above and below position `k`. */
  lemma {:induction false} SplitAt(n: nat, k: nat) returns (q: nat, r: nat)
    ensures n == Shl(q, k) + r && r <= LowMask(k)
    decreases k
  {
    if k == 0 {
      q, r := n, 0;
    } else {
      var s;
      q, s := SplitAt(n / 2, k - 1);
      r := 2 * s + n % 2;
    }
  }

  lemma {:induction false} TopFits(q: nat, r: nat, k: nat, w: nat)
    requires k <= w && Shl(q, k) + r <= LowMask(w)
    ensures Shl(q, k) + LowMask(k) <= LowMask(w)
    decreases k
  {
    if k == 0 {
    } else {
      TopFits(q, 0, k - 1, w - 1);
    }
  }
}
