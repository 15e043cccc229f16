/** Bytes, fixed-width integers and the bitwise operators of the source, all over `int`. */
module Bytes {
  type byte = x: int | 0 <= x < 256
  type bytes = seq<byte>

  datatype Option<+T> = None | Some(value: T)

  const TWO64: nat := 0x1_0000_0000_0000_0000

  // ---------------------------------------------------------------- powers of two

  function Pow2(k: nat): (r: nat)
    ensures r >= 1
  {
    if k == 0 then 1 else 2 * Pow2(k - 1)
  }

  lemma {:induction false} Pow2Add(a: nat, b: nat)
    ensures Pow2(a + b) == Pow2(a) * Pow2(b)
  {
    if a == 0 {
    } else {
      Pow2Add(a - 1, b);
    }
  }

  lemma Pow2Eight()
    ensures Pow2(8) == 256
  {
  }

  lemma Pow2Square(k: nat, v: nat)
    requires Pow2(k) == v
    ensures Pow2(k + k) == v * v
  {
    Pow2Add(k, k);
  }

  lemma Pow2At32()
    ensures Pow2(32) == 0x1_0000_0000
  {
    Pow2Eight();
    Pow2Square(8, 256);
    Pow2Square(16, 0x1_0000);
  }

  lemma Pow2At64()
    ensures Pow2(64) == TWO64
  {
    Pow2At32();
    Pow2Square(32, 0x1_0000_0000);
  }

  lemma Pow2At128()
    ensures Pow2(128) == TWO64 * TWO64
  {
    Pow2At64();
    Pow2Square(64, TWO64);
  }

  lemma Pow2Widths()
    ensures Pow2(32) == 0x1_0000_0000 && Pow2(128) == TWO64 * TWO64
  {
    Pow2At32();
    Pow2At128();
  }

  lemma {:induction false} Pow2Monotone(a: nat, b: nat)
    requires a <= b
    ensures Pow2(a) <= Pow2(b)
  {
    if a == b {
    } else {
      Pow2Monotone(a, b - 1);
    }
  }

  // ---------------------------------------------------------------- 16-bit big-endian

  /** `binary.BigEndian.PutUint16(_, uint16(n))`: keeps the low 16 bits of `n`. */
  function PutU16(n: nat): (r: bytes)
    ensures |r| == 2
  {
    [(n / 256) % 256, n % 256]
  }

  function GetU16(b: bytes): (n: nat)
    requires |b| >= 2
    ensures n < 0x1_0000
  {
    256 * (b[0] as int) + b[1] as int
  }

  lemma U16RoundTrip(n: nat, rest: bytes)
    ensures GetU16(PutU16(n) + rest) == n % 0x1_0000
  {
    assert (PutU16(n) + rest)[0] == (n / 256) % 256 && (PutU16(n) + rest)[1] == n % 256;
    assert n == 0x1_0000 * (n / 0x1_0000) + 256 * ((n / 256) % 256) + n % 256;
  }

  lemma U16Reprint(b: bytes)
    requires |b| == 2
    ensures PutU16(GetU16(b)) == b
  {
    assert (256 * (b[0] as int) + b[1]) / 256 == b[0] && (256 * (b[0] as int) + b[1]) % 256 == b[1];
  }

  // ---------------------------------------------------------------- sequences

  lemma Assoc<T>(a: seq<T>, b: seq<T>, c: seq<T>)
    ensures a + (b + c) == a + b + c
  {
  }

  lemma Unit0<T>(s: seq<T>)
    ensures [] + s == s && s + [] == s
  {
  }

  lemma ConsParts<T>(x: T, s: seq<T>)
    ensures |[x] + s| > 0 && ([x] + s)[0] == x && ([x] + s)[1..] == s
  {
  }

  lemma AppendParts<T>(a: seq<T>, b: seq<T>)
    requires a != []
    ensures a + b != [] && (a + b)[0] == a[0] && (a + b)[1..] == a[1..] + b
  {
  }

  function Zeros(n: nat): (z: bytes)
    ensures |z| == n && forall i :: 0 <= i < n ==> z[i] == 0
  {
    seq(n, _ => 0)
  }

  lemma {:induction false} SubsetSize<T>(a: set<T>, b: set<T>)
    requires a <= b
    ensures |a| <= |b|
    decreases |a|
  {
    if a == {} {
    } else {
      var x :| x in a;
      SubsetSize(a - {x}, b - {x});
    }
  }

  // ---------------------------------------------------------------- k-byte integers

  function Pow256(k: nat): (r: nat)
    ensures r >= 1
  {
    if k == 0 then 1 else 256 * Pow256(k - 1)
  }

  lemma {:induction false} Pow256IsPow2(k: nat)
    ensures Pow256(k) == Pow2(8 * k)
  {
    if k == 0 {
    } else {
      Pow256IsPow2(k - 1);
      Pow2Add(8, 8 * (k - 1));
      Pow2Eight();
    }
  }

  function LittleEndian(n: nat, k: nat): (r: bytes)
    ensures |r| == k
  {
    if k == 0 then [] else [n % 256] + LittleEndian(n / 256, k - 1)
  }

  lemma {:induction false} LittleEndianInjective(m: nat, n: nat, k: nat)
    requires m < Pow256(k) && n < Pow256(k)
    requires LittleEndian(m, k) == LittleEndian(n, k)
    ensures m == n
  {
    if k == 0 {
    } else {
      var m', n' := m / 256, n / 256;
      LittleEndianParts(m, k);
      LittleEndianParts(n, k);
      LittleEndianInjective(m', n', k - 1);
    }
  }

  lemma LittleEndianParts(n: nat, k: nat)
    requires k > 0
    ensures LittleEndian(n, k)[0] == n % 256
    ensures LittleEndian(n, k)[1..] == LittleEndian(n / 256, k - 1)
  {
  }

  function BigEndian(n: nat, k: nat): (r: bytes)
    ensures |r| == k
  {
    if k == 0 then [] else BigEndian(n / 256, k - 1) + [n % 256]
  }

  function OfBigEndian(b: bytes): (n: nat)
  {
    if |b| == 0 then 0 else 256 * OfBigEndian(b[..|b| - 1]) + b[|b| - 1]
  }

  lemma OfBigEndianSnoc(b: bytes, x: byte)
    ensures OfBigEndian(b + [x]) == 256 * OfBigEndian(b) + x
  {
    assert (b + [x])[..|b|] == b;
  }

  lemma {:induction false} BigEndianRoundTrip(n: nat, k: nat)
    requires n < Pow256(k)
    ensures OfBigEndian(BigEndian(n, k)) == n
  {
    if k == 0 {
    } else {
      var q, r := ByteParts(n);
      BigEndianRoundTrip(q, k - 1);
      BigEndianReads(q, r, k - 1);
    }
  }

  lemma BigEndianReads(q: nat, r: byte, k: nat)
    requires OfBigEndian(BigEndian(q, k)) == q
    ensures OfBigEndian(BigEndian(256 * q + r, k + 1)) == 256 * q + r
  {
    BigEndianSnoc(q, r, k);
    OfBigEndianSnoc(BigEndian(q, k), r);
  }

  lemma ByteParts(n: nat) returns (q: nat, r: byte)
    ensures n == 256 * q + r
  {
    q, r := n / 256, n % 256;
  }

  lemma {:induction false} OfBigEndianRoundTrip(b: bytes)
    ensures OfBigEndian(b) < Pow256(|b|)
    ensures BigEndian(OfBigEndian(b), |b|) == b
  {
    if b == [] {
    } else {
      var a, x := b[..|b| - 1], b[|b| - 1];
      OfBigEndianRoundTrip(a);
      assert b == a + [x];
      OfBigEndianSnoc(a, x);
      BigEndianSnoc(OfBigEndian(a), x, |a|);
    }
  }

  lemma OfBigEndianBound(b: bytes)
    ensures OfBigEndian(b) < Pow256(|b|)
  {
    OfBigEndianRoundTrip(b);
  }

  lemma BigEndianSnoc(n: nat, x: byte, k: nat)
    ensures BigEndian(256 * n + x, k + 1) == BigEndian(n, k) + [x]
  {
    assert (256 * n + x) / 256 == n && (256 * n + x) % 256 == x;
  }

  /** Byte `i` of `k`, the most significant first. */
  lemma {:induction false} BigEndianByte(n: nat, k: nat, i: nat)
    requires i < k
    ensures BigEndian(n, k)[i] == (n / Pow256(k - 1 - i)) % 256
  {
    if i == k - 1 {
      assert n / 1 == n;
    } else {
      BigEndianByte(n / 256, k - 1, i);
      DivDiv(n, Pow256(k - 2 - i));
    }
  }

  lemma DivDiv(n: nat, p: nat)
    requires p > 0
    ensures (n / 256) / p == n / (256 * p)
  {
    var q, r := n / 256, n % 256;
    var q', r' := q / p, q % p;
    assert n == 256 * q + r && q == p * q' + r';
    assert n == q' * (256 * p) + (256 * r' + r);
    DivModUnique(n, 256 * p, q', 256 * r' + r);
  }

  /** Byte `i`, the least significant first. */
  lemma {:induction false} LittleEndianByte(n: nat, k: nat, i: nat)
    requires i < k
    ensures LittleEndian(n, k)[i] == (n / Pow256(i)) % 256
  {
    if i == 0 {
      assert n / 1 == n;
    } else {
      LittleEndianByte(n / 256, k - 1, i - 1);
      DivDiv(n, Pow256(i - 1));
    }
  }

  lemma ScaleUp(h: nat, q: nat, y: nat, x: nat)
    ensures 256 * (h * q + y) + x == h * (256 * q) + (256 * y + x)
  {
  }

  /** Appending `tail` multiplies the value of `head` by `256^|tail|`. */
  lemma {:induction false} OfBigEndianAppend(head: bytes, tail: bytes)
    ensures OfBigEndian(head + tail) == OfBigEndian(head) * Pow256(|tail|) + OfBigEndian(tail)
  {
    if |tail| == 0 {
      assert head + tail == head;
    } else {
      var t, x := tail[..|tail| - 1], tail[|tail| - 1];
      assert tail == t + [x] && head + tail == head + t + [x];
      OfBigEndianAppend(head, t);
      OfBigEndianSnoc(head + t, x);
      OfBigEndianSnoc(t, x);
      ScaleUp(OfBigEndian(head), Pow256(|t|), OfBigEndian(t), x);
    }
  }

  function OfLittleEndian(b: bytes): (n: nat) {
    if b == [] then 0 else b[0] + 256 * OfLittleEndian(b[1..])
  }

  /** Appending `tail` adds it at `256^|head|`. */
  lemma {:induction false} OfLittleEndianAppend(head: bytes, tail: bytes)
    ensures OfLittleEndian(head + tail) == OfLittleEndian(tail) * Pow256(|head|) + OfLittleEndian(head)
    decreases |head|
  {
    if head == [] {
      Unit0(tail);
    } else {
      AppendParts(head, tail);
      OfLittleEndianAppend(head[1..], tail);
      ScaleUp(OfLittleEndian(tail), Pow256(|head| - 1), OfLittleEndian(head[1..]), head[0]);
    }
  }

  /** Read from the other end, the bytes are the same number. */
  lemma {:induction false} Mirrored(s: bytes, r: bytes)
    requires |s| == |r| && forall i :: 0 <= i < |s| ==> s[i] == r[|r| - 1 - i]
    ensures OfBigEndian(s) == OfLittleEndian(r)
    decreases |s|
  {
    if s == [] {
    } else {
      var n := |s| - 1;
      assert s == s[..n] + [s[n]];
      OfBigEndianSnoc(s[..n], s[n]);
      Mirrored(s[..n], r[1..]);
    }
  }

  // ---------------------------------------------------------------- bitwise operators

  /** Go's `a ^ b` on unsigned integers. */
  function BitXor(a: nat, b: nat): (r: nat)
    decreases a + b
  {
    if a == 0 && b == 0 then 0 else (if a % 2 == b % 2 then 0 else 1) + 2 * BitXor(a / 2, b / 2)
  }

  /** Go's `a | b`. */
  function BitOr(a: nat, b: nat): (r: nat)
    decreases a + b
  {
    if a == 0 && b == 0 then 0
    else (if a % 2 == 1 || b % 2 == 1 then 1 else 0) + 2 * BitOr(a / 2, b / 2)
  }

  /** Go's `a & b`. */
  function BitAnd(a: nat, b: nat): (r: nat)
    decreases a + b
  {
    if a == 0 && b == 0 then 0
    else (if a % 2 == 1 && b % 2 == 1 then 1 else 0) + 2 * BitAnd(a / 2, b / 2)
  }

  /** Go's `a &^ b`. */
  function BitAndNot(a: nat, b: nat): (r: nat)
    decreases a + b
  {
    if a == 0 && b == 0 then 0
    else (if a % 2 == 1 && b % 2 == 0 then 1 else 0) + 2 * BitAndNot(a / 2, b / 2)
  }

  lemma {:induction false} XorBound(a: nat, b: nat, k: nat)
    requires a < Pow2(k) && b < Pow2(k)
    ensures BitXor(a, b) < Pow2(k)
  {
    if k == 0 {
    } else {
      XorBound(a / 2, b / 2, k - 1);
    }
  }

  /** The bits of `2*q + b` are `b` and the bits of `q`. */
  lemma HalfOf(q: nat, b: nat)
    requires b < 2
    ensures (2 * q + b) / 2 == q && (2 * q + b) % 2 == b
  {
  }

  lemma XorStep(q: nat, b: nat, q': nat, b': nat)
    requires b < 2 && b' < 2
    ensures BitXor(2 * q + b, 2 * q' + b') == 2 * BitXor(q, q') + (if b == b' then 0 else 1)
  {
    HalfOf(q, b);
    HalfOf(q', b');
  }

  lemma {:induction false} XorInvolution(a: nat, b: nat)
    ensures BitXor(BitXor(a, b), b) == a
    decreases a + b
  {
    if a == 0 && b == 0 {
    } else {
      var q, l, q', l' := a / 2, a % 2, b / 2, b % 2;
      XorInvolution(q, q');
      XorInvolutionStep(q, l, q', l');
    }
  }

  lemma XorInvolutionStep(q: nat, l: nat, q': nat, l': nat)
    requires l < 2 && l' < 2 && BitXor(BitXor(q, q'), q') == q
    ensures BitXor(BitXor(2 * q + l, 2 * q' + l'), 2 * q' + l') == 2 * q + l
  {
    XorStep(q, l, q', l');
    XorStep(BitXor(q, q'), if l == l' then 0 else 1, q', l');
  }

  function BitOf(n: nat, i: nat): nat {
    if i == 0 then n % 2 else BitOf(n / 2, i - 1)
  }

  /** Bit by bit, one exactly where the two differ. */
  lemma {:induction false} XorBits(a: nat, b: nat, i: nat)
    ensures BitOf(BitXor(a, b), i) == if BitOf(a, i) == BitOf(b, i) then 0 else 1
    decreases i
  {
    XorHalf(a, b);
    if i == 0 {
    } else {
      XorBits(a / 2, b / 2, i - 1);
    }
  }

  lemma XorHalf(a: nat, b: nat)
    ensures BitXor(a, b) / 2 == BitXor(a / 2, b / 2) && BitXor(a, b) % 2 == if a % 2 == b % 2 then 0 else 1
  {
    XorStep(a / 2, a % 2, b / 2, b % 2);
    HalfOf(BitXor(a / 2, b / 2), if a % 2 == b % 2 then 0 else 1);
  }

  lemma {:induction false} BitIdentities(a: nat)
    ensures BitOr(a, 0) == a && BitAndNot(a, 0) == a && BitAnd(a, 0) == 0
  {
    if a == 0 {
    } else {
      BitIdentities(a / 2);
    }
  }

  lemma OrStep(q: nat, b: nat, q': nat, b': nat)
    requires b < 2 && b' < 2
    ensures BitOr(2 * q + b, 2 * q' + b') == 2 * BitOr(q, q') + (if b == 1 || b' == 1 then 1 else 0)
  {
    HalfOf(q, b);
    HalfOf(q', b');
  }

  /** `q << k`, one bit at a time. */
  function Shl(q: nat, k: nat): (r: nat)
    decreases k
  {
    if k == 0 then q else 2 * Shl(q, k - 1)
  }

  /** The low `k` bits set. */
  function LowMask(k: nat): (r: nat) {
    if k == 0 then 0 else 2 * LowMask(k - 1) + 1
  }

  lemma {:induction false} ShlIsMul(q: nat, k: nat)
    ensures Shl(q, k) == q * Pow2(k) && LowMask(k) == Pow2(k) - 1
  {
    if k == 0 {
    } else {
      ShlIsMul(q, k - 1);
      DoubleUp(q, Pow2(k - 1), 0, 0);
    }
  }

  lemma DoubleUp(q: nat, p: nat, s: nat, b: nat)
    ensures q * (2 * p) + (2 * s + b) == 2 * (q * p + s) + b
  {
  }

  /** Setting all of the low `k` bits of a multiple of `2^k`. */
  lemma {:induction false} OrLowBits(q: nat, k: nat)
    ensures BitOr(Shl(q, k), LowMask(k)) == Shl(q, k) + LowMask(k)
  {
    if k == 0 {
      BitIdentities(q);
    } else {
      OrLowBits(q, k - 1);
      OrStep(Shl(q, k - 1), 0, LowMask(k - 1), 1);
    }
  }

  /** Splicing `2*q + b` and `2*q' + b'` below bit `k`, one bit at a time. */
  lemma SpliceStep(q: nat, b: nat, q': nat, b': nat, m: nat)
    requires b < 2 && b' < 2
    ensures BitOr(BitAndNot(2 * q + b, 2 * m + 1), BitAnd(2 * q' + b', 2 * m + 1))
         == 2 * BitOr(BitAndNot(q, m), BitAnd(q', m)) + b'
  {
    HalfOf(q, b);
    HalfOf(q', b');
    HalfOf(m, 1);
    OrStep(BitAndNot(q, m), 0, BitAnd(q', m), b');
  }

  /** `(a &^ m) | (d & m)` with `m` the low `k` bits keeps `a`'s high part and `d`'s low part. */
  ghost predicate Splices(a: nat, d: nat, m: nat, x: nat) {
    BitOr(BitAndNot(a, m), BitAnd(d, m)) == x
  }

  lemma SpliceUp(a: nat, b: nat, d: nat, b': nat, m: nat, x: nat)
    requires b < 2 && b' < 2 && Splices(a, d, m, x)
    ensures Splices(2 * a + b, 2 * d + b', 2 * m + 1, 2 * x + b')
  {
    SpliceStep(a, b, d, b', m);
  }

  lemma SpliceNothing(a: nat, d: nat)
    ensures Splices(a, d, 0, a)
  {
    BitIdentities(a);
    BitIdentities(d);
  }

  lemma {:induction false} SpliceLowBits(q: nat, r: nat, q': nat, r': nat, k: nat)
    requires r <= LowMask(k) && r' <= LowMask(k)
    ensures Splices(Shl(q, k) + r, Shl(q', k) + r', LowMask(k), Shl(q, k) + r')
  {
    if k == 0 {
      SpliceNothing(q, q');
    } else {
      HalfWithin(r, LowMask(k - 1));
      HalfWithin(r', LowMask(k - 1));
      SpliceLowBits(q, r / 2, q', r' / 2, k - 1);
      SpliceLowBit(q, r, q', r', k);
    }
  }

  lemma HalfWithin(r: nat, m: nat)
    requires r <= 2 * m + 1
    ensures r / 2 <= m
  {
  }

  lemma ShlLow(q: nat, k: nat, r: nat)
    requires k > 0
    ensures Shl(q, k) + r == 2 * (Shl(q, k - 1) + r / 2) + r % 2
  {
  }

  lemma SpliceLowBit(q: nat, r: nat, q': nat, r': nat, k: nat)
    requires k > 0
    requires Splices(Shl(q, k - 1) + r / 2, Shl(q', k - 1) + r' / 2, LowMask(k - 1), Shl(q, k - 1) + r' / 2)
    ensures Splices(Shl(q, k) + r, Shl(q', k) + r', LowMask(k), Shl(q, k) + r')
  {
    ShlLow(q, k, r);
    ShlLow(q', k, r');
    ShlLow(q, k, r');
    SpliceUp(Shl(q, k - 1) + r / 2, r % 2, Shl(q', k - 1) + r' / 2, r' % 2, LowMask(k - 1), Shl(q, k - 1) + r' / 2);
  }

  lemma DivModUnique(n: nat, d: nat, q: nat, r: nat)
    requires d > 0 && n == q * d + r && r < d
    ensures n / d == q && n % d == r
  {
    var q', r' := n / d, n % d;
    assert n == d * q' + r';
    if q' < q {
      MulGap(q', q, d);
    } else if q < q' {
      MulGap(q, q', d);
    }
  }

  lemma MulGe(a: nat, b: nat, c: nat)
    requires a >= b
    ensures a * c >= b * c
  {
  }

  lemma MulGap(a: nat, b: nat, d: nat)
    requires a < b
    ensures a * d + d <= b * d
  {
    assert b * d == a * d + (b - a) * d;
    assert (b - a) * d == d + (b - a - 1) * d;
  }
}
