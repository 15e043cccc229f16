/** The bytes on the wire, position by position, as the protocol description lays them out. */
module WireFormat {
  import opened Bytes
  import opened Addr
  import opened Lane
  import opened Envelope
  import opened Handshake

  /** The number in two bytes, the more significant first. */
  function Number(high: int, low: int): int {
    256 * high + low
  }

  /** Type, two bytes of length with the more significant first, and the protected payload. */
  lemma FrameLayout(m: Mode, counter: nat, f: Frame)
    ensures var s, body := Encode(m, counter, f), Protect(m, counter, f.payload);
      |s| == 3 + |body| && s[0] == f.kind && Number(s[1], s[2]) == |body| % 0x1_0000 && s[3..] == body
  {
    var body := Protect(m, counter, f.payload);
    U16RoundTrip(|body|, []);
    Unit0(PutU16(|body|));
  }

  /** A unit of a batch: two bytes of length and the packet. */
  lemma UnitLayout(p: bytes)
    ensures |Unit(p)| == 2 + |p| && Number(Unit(p)[0], Unit(p)[1]) == |p| % 0x1_0000 && Unit(p)[2..] == p
  {
    U16RoundTrip(|p|, []);
    Unit0(PutU16(|p|));
  }

  /** The counter in eight bytes, least significant first, and four zero bytes. */
  lemma NonceLayout(counter: nat, i: nat)
    requires i < 12
    ensures |Nonce(counter)| == 12 && Nonce(counter)[i] == if i < 8 then (counter / Pow256(i)) % 256 else 0
  {
    if i < 8 {
      LittleEndianByte(counter, 8, i);
    }
  }

  /** The two lengths, the body and the padding. */
  ghost predicate LaidOut(b: bytes, body: bytes, pad: bytes) {
    && |b| == 4 + |body| + |pad| && Number(b[0], b[1]) == |body| && Number(b[2], b[3]) == |pad|
    && b[4..4 + |body|] == body && b[4 + |body|..] == pad
  }

  lemma InnerLayout(body: bytes, pad: bytes)
    requires |body| <= 4096 && |pad| <= 255
    ensures LaidOut(Inner(body, pad), body, pad)
  {
    LengthDecodes(|body|);
    LengthDecodes(|pad|);
  }

  /** The salt in the clear; then, under the keystream, the two lengths, the body and the padding. */
  lemma EnvelopeLayout(ks: KeyStreams, key: bytes, salt: bytes, body: bytes, pad: bytes)
    requires |salt| == 16 && |body| <= 4096 && |pad| <= 255
    ensures var s := Seal(ks, key, salt, body, pad);
      && s.Some? && |s.value| == 20 + |body| + |pad| && s.value[..16] == salt
      && LaidOut(XorAt(ks(key, salt), 0, s.value[16..]), body, pad)
  {
    var x := XorAt(ks(key, salt), 0, Inner(body, pad));
    assert (salt + x)[..16] == salt && (salt + x)[16..] == x;
    XorTwice(ks(key, salt), 0, Inner(body, pad));
    InnerLayout(body, pad);
  }

  /** Byte `i` of the stream is byte `i` of the plaintext with the bits flipped that are set in byte
      `i` of the keystream. */
  lemma KeystreamFlips(ks: nat -> byte, pos: nat, data: bytes, i: nat, bit: nat)
    requires i < |data|
    ensures BitOf(XorAt(ks, pos, data)[i], bit) == if BitOf(ks(pos + i), bit) == 1 then 1 - BitOf(data[i], bit) else BitOf(data[i], bit)
  {
    XorBits(data[i], ks(pos + i), bit);
    BitIsBit(data[i], bit);
    BitIsBit(ks(pos + i), bit);
  }

  lemma {:induction false} BitIsBit(n: nat, i: nat)
    ensures BitOf(n, i) <= 1
    decreases i
  {
    if i == 0 {
    } else {
      BitIsBit(n / 2, i - 1);
    }
  }

  /** An address slot: family 0 and zeros for none, 4 and four bytes and zeros, or 6 and sixteen bytes. */
  lemma SlotLayout(a: Addr, i: nat)
    requires i < 17
    ensures |EncodeSlot(a)| == 17
    ensures EncodeSlot(a)[i]
         == match Norm(a)
            case Invalid => 0
            case V4(n) => if i == 0 then 4 else if i <= 4 then (n / Pow256(4 - i)) % 256 else 0
            case V6(n) => if i == 0 then 6 else (n / Pow256(16 - i)) % 256
  {
    match Norm(a)
    case Invalid =>
    case V4(n) => if 1 <= i <= 4 { BigEndianByte(n, 4, i - 1); }
    case V6(n) => if 1 <= i { BigEndianByte(n, 16, i - 1); }
  }

  /** The client's 38 bytes. */
  lemma ClientLayout(h: Hello)
    ensures var b := BuildClient(h);
      && |b| == 38 && b[0] == 7 && b[1] == h.cipher && b[2] == h.lanes
      && b[3..20] == EncodeSlot(h.want4) && b[20..37] == EncodeSlot(h.want6) && b[37] == if h.uso then 1 else 0
  {
  }

  /** The server's 72 bytes. */
  lemma ServerLayout(a: Assignment, uso: bool)
    ensures var b := BuildServer(a, uso);
      && |b| == 72 && b[0] == 7
      && b[1..18] == EncodeSlot(a.v4) && b[18] == a.prefix4 && b[19..36] == EncodeSlot(a.peer4)
      && b[36..53] == EncodeSlot(a.v6) && b[53] == a.prefix6 && b[54..71] == EncodeSlot(a.peer6)
      && b[71] == if uso then 1 else 0
  {
    ServerSlices(a, uso);
  }

  // ---------------------------------------------------------------- what a reader makes of any bytes

  /** A slot of any other family than 4 or 6 is no address. */
  lemma SlotReads(b: bytes)
    requires |b| == 17
    ensures DecodeSlot(b)
         == if b[0] == 4 then AddrIn(b[1..5]) else if b[0] == 6 then AddrIn(b[1..17]) else Invalid
  {
    FitsAddr(b[1..5]);
    FitsAddr(b[1..17]);
  }

  /** Four or sixteen bytes as an address, the most significant first. */
  ghost function AddrIn(b: bytes): Addr
    requires |b| == 4 || |b| == 16
  {
    FitsAddr(b);
    if |b| == 4 then V4(OfBigEndian(b)) else V6(OfBigEndian(b))
  }

  /** A client payload is read if and only if it has 38 bytes and starts with 7; USO is the lowest flag. */
  lemma ClientReads(p: bytes)
    ensures ParseClient(p).Parsed? <==> |p| >= 38 && p[0] == 7
    ensures ParseClient(p).Parsed? ==>
      var h := ParseClient(p).value;
      && h.cipher == p[1] && h.lanes == p[2] && h.want4 == DecodeSlot(p[3..20]) && h.want6 == DecodeSlot(p[20..37])
      && h.uso == (p[37] % 2 == 1)
  {
    if |p| >= 38 {
      LowFlag(p[37]);
    }
  }

  lemma LowFlag(flags: byte)
    ensures HasUso(flags) <==> flags % 2 == 1
  {
    BitIdentities(flags / 2);
  }

  /** And a server payload if and only if it has 72 and starts with 7. */
  lemma ServerReads(p: bytes)
    ensures ParseServer(p).Parsed? <==> |p| >= 72 && p[0] == 7
    ensures ParseServer(p).Parsed? ==>
      var (a, uso) := ParseServer(p).value;
      && a.v4 == DecodeSlot(p[1..18]) && a.prefix4 == p[18] && a.peer4 == DecodeSlot(p[19..36])
      && a.v6 == DecodeSlot(p[36..53]) && a.prefix6 == p[53] && a.peer6 == DecodeSlot(p[54..71])
      && uso == (p[71] % 2 == 1)
  {
    if |p| >= 72 {
      LowFlag(p[71]);
    }
  }
}
