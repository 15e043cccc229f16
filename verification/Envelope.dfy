/** The handshake envelope: a clear salt, then lengths, body and padding under one keystream. */
module Envelope {
  import opened Bytes

  const SALT_LEN: nat := 16
  const MAX_PAD: nat := 255
  const MAX_BODY: nat := 4096

  /** Key and salt to an endless keystream (HKDF feeding ChaCha20). */
  type KeyStreams = (bytes, bytes) -> (nat -> byte)

  function XorByte(a: byte, b: byte): (r: byte)
    ensures BitXor(a, b) == r
  {
    Pow2Eight();
    XorBound(a, b, 8);
    BitXor(a, b)
  }

  /** `data` under the keystream from position `pos` on. */
  function XorAt(ks: nat -> byte, pos: nat, data: bytes): (r: bytes)
    ensures |r| == |data|
    ensures forall i :: 0 <= i < |data| ==> r[i] == XorByte(data[i], ks(pos + i))
  {
    seq(|data|, i requires 0 <= i < |data| => XorByte(data[i], ks(pos + i)))
  }

  function Inner(body: bytes, pad: bytes): (r: bytes)
    ensures |r| == 4 + |body| + |pad|
  {
    PutU16(|body|) + PutU16(|pad|) + body + pad
  }

  /** The envelope of a body; `None` when the body is too long to send. */
  function Seal(ks: KeyStreams, key: bytes, salt: bytes, body: bytes, pad: bytes): Option<bytes> {
    if |body| > MAX_BODY then None
    else Some(salt + XorAt(ks(key, salt), 0, Inner(body, pad)))
  }

  datatype ReadError = ShortSalt | ShortHeader | BodyTooLong | ShortBody
  datatype ReadResult = Read(body: bytes, rest: bytes) | ReadFailed(error: ReadError)

  /** Reads one envelope off a stream, deciphering header and remainder in two passes. */
  function Unseal(ks: KeyStreams, key: bytes, s: bytes): ReadResult {
    if |s| < SALT_LEN then ReadFailed(ShortSalt)
    else if |s| < SALT_LEN + 4 then ReadFailed(ShortHeader)
    else
      var stream := ks(key, s[..SALT_LEN]);
      var hdr := XorAt(stream, 0, s[SALT_LEN..SALT_LEN + 4]);
      var bodyLen, padLen := GetU16(hdr[0..2]), GetU16(hdr[2..4]);
      if bodyLen > MAX_BODY then ReadFailed(BodyTooLong)
      else if |s| < SALT_LEN + 4 + bodyLen + padLen then ReadFailed(ShortBody)
      else
        var end := SALT_LEN + 4 + bodyLen + padLen;
        Read(XorAt(stream, 4, s[SALT_LEN + 4..end])[..bodyLen], s[end..])
  }

  // ---------------------------------------------------------------- keystream laws

  /** One pass equals two passes over one continuous keystream. */
  lemma XorSplit(ks: nat -> byte, pos: nat, a: bytes, b: bytes)
    ensures XorAt(ks, pos, a + b) == XorAt(ks, pos, a) + XorAt(ks, pos + |a|, b)
  {
    var x, y := XorAt(ks, pos, a + b), XorAt(ks, pos, a) + XorAt(ks, pos + |a|, b);
    forall i | 0 <= i < |a + b| ensures x[i] == y[i] {
      if i >= |a| {
        assert (a + b)[i] == b[i - |a|] && pos + i == pos + |a| + (i - |a|);
      }
    }
  }

  lemma XorTwice(ks: nat -> byte, pos: nat, data: bytes)
    ensures XorAt(ks, pos, XorAt(ks, pos, data)) == data
  {
    var x := XorAt(ks, pos, data);
    forall i | 0 <= i < |data| ensures XorAt(ks, pos, x)[i] == data[i] {
      XorInvolution(data[i], ks(pos + i));
    }
  }

  // ---------------------------------------------------------------- theorems

  /** The parts of an envelope, as the reader cuts them. */
  lemma TwoPasses(ks: nat -> byte, salt: bytes, hdr: bytes, body: bytes, pad: bytes, rest: bytes)
    requires |hdr| == 4
    ensures salt + XorAt(ks, 0, hdr + body + pad) + rest
         == salt + XorAt(ks, 0, hdr) + XorAt(ks, 4, body + pad) + rest
  {
    Assoc(hdr, body, pad);
    XorSplit(ks, 0, hdr, body + pad);
    Assoc(salt, XorAt(ks, 0, hdr), XorAt(ks, 4, body + pad));
  }

  lemma EnvelopeParts(ks: KeyStreams, key: bytes, salt: bytes, body: bytes, pad: bytes, rest: bytes)
    requires |salt| == SALT_LEN && |body| <= MAX_BODY
    ensures var stream := ks(key, salt);
      Seal(ks, key, salt, body, pad).value + rest
      == salt + XorAt(stream, 0, PutU16(|body|) + PutU16(|pad|)) + XorAt(stream, 4, body + pad) + rest
  {
    TwoPasses(ks(key, salt), salt, PutU16(|body|) + PutU16(|pad|), body, pad, rest);
  }

  lemma HeaderDecodes(ks: nat -> byte, n: nat, m: nat)
    requires n < 0x1_0000 && m < 0x1_0000
    ensures var hdr := XorAt(ks, 0, XorAt(ks, 0, PutU16(n) + PutU16(m)));
      |hdr| == 4 && GetU16(hdr[0..2]) == n && GetU16(hdr[2..4]) == m
  {
    XorTwice(ks, 0, PutU16(n) + PutU16(m));
    LengthsDecode(n, m);
  }

  lemma LengthDecodes(n: nat)
    requires n < 0x1_0000
    ensures GetU16(PutU16(n)) == n
  {
    U16RoundTrip(n, []);
    Unit0(PutU16(n));
  }

  lemma LengthsDecode(n: nat, m: nat)
    requires n < 0x1_0000 && m < 0x1_0000
    ensures var hdr := PutU16(n) + PutU16(m);
      |hdr| == 4 && GetU16(hdr[0..2]) == n && GetU16(hdr[2..4]) == m
  {
    var a, b := PutU16(n), PutU16(m);
    assert (a + b)[0..2] == a && (a + b)[2..4] == b;
    LengthDecodes(n);
    LengthDecodes(m);
  }

  /** Envelope round trip: whatever follows on the stream, the reader returns the body and
      consumes exactly the envelope. */
  lemma EnvelopeRoundTrip(ks: KeyStreams, key: bytes, salt: bytes, body: bytes, pad: bytes, rest: bytes)
    requires |salt| == SALT_LEN && |body| <= MAX_BODY && |pad| <= MAX_PAD
    ensures Unseal(ks, key, Seal(ks, key, salt, body, pad).value + rest) == Read(body, rest)
  {
    var stream := ks(key, salt);
    var h, t := XorAt(stream, 0, PutU16(|body|) + PutU16(|pad|)), XorAt(stream, 4, body + pad);
    var s := Seal(ks, key, salt, body, pad).value + rest;
    EnvelopeParts(ks, key, salt, body, pad, rest);
    FourParts(salt, h, t, rest);
    HeaderDecodes(stream, |body|, |pad|);
    XorTwice(stream, 4, body + pad);
    assert (body + pad)[..|body|] == body;
  }

  lemma FourParts(a: bytes, b: bytes, c: bytes, d: bytes)
    requires |a| == SALT_LEN && |b| == 4
    ensures var s := a + b + c + d;
      && s[..SALT_LEN] == a && s[SALT_LEN..SALT_LEN + 4] == b
      && s[SALT_LEN + 4..SALT_LEN + 4 + |c|] == c && s[SALT_LEN + 4 + |c|..] == d
  {
  }

  /** An envelope cut short anywhere is never mistaken for a message. */
  lemma CutEnvelopeFails(ks: KeyStreams, key: bytes, salt: bytes, body: bytes, pad: bytes, k: nat)
    requires |salt| == SALT_LEN && |body| <= MAX_BODY && |pad| <= MAX_PAD
    requires k < |Seal(ks, key, salt, body, pad).value|
    ensures Unseal(ks, key, Seal(ks, key, salt, body, pad).value[..k]).ReadFailed?
  {
    var s := Seal(ks, key, salt, body, pad).value;
    if k >= SALT_LEN + 4 {
      var stream := ks(key, salt);
      var h, t := XorAt(stream, 0, PutU16(|body|) + PutU16(|pad|)), XorAt(stream, 4, body + pad);
      EnvelopeParts(ks, key, salt, body, pad, []);
      Unit0(s);
      FourParts(salt, h, t, []);
      HeaderDecodes(stream, |body|, |pad|);
      assert s[..k][..SALT_LEN] == s[..SALT_LEN] && s[..k][SALT_LEN..SALT_LEN + 4] == s[SALT_LEN..SALT_LEN + 4];
    }
  }

  lemma HeaderReprints(hdr: bytes)
    requires |hdr| == 4
    ensures PutU16(GetU16(hdr[0..2])) + PutU16(GetU16(hdr[2..4])) == hdr
  {
    U16Reprint(hdr[0..2]);
    U16Reprint(hdr[2..4]);
  }

  /** Conversely, whatever the reader accepts is an envelope of the body it returns, under the
      salt that leads the stream and some padding of at most 65535 bytes. */
  lemma AcceptedIsEnvelope(ks: KeyStreams, key: bytes, s: bytes) returns (pad: bytes)
    requires Unseal(ks, key, s).Read?
    ensures var r := Unseal(ks, key, s);
      && |r.body| <= MAX_BODY && |pad| < 0x1_0000
      && s == Seal(ks, key, s[..SALT_LEN], r.body, pad).value + r.rest
  {
    var r := Unseal(ks, key, s);
    var stream := ks(key, s[..SALT_LEN]);
    var hdr := XorAt(stream, 0, s[SALT_LEN..SALT_LEN + 4]);
    var n, m := GetU16(hdr[0..2]), GetU16(hdr[2..4]);
    pad := XorAt(stream, 4, s[SALT_LEN + 4..SALT_LEN + 4 + n + m])[n..];
    RebuildInner(stream, s, hdr, r.body, pad);
  }

  lemma RebuildInner(ks: nat -> byte, s: bytes, hdr: bytes, body: bytes, pad: bytes)
    requires SALT_LEN + 4 + |body| + |pad| <= |s|
    requires hdr == XorAt(ks, 0, s[SALT_LEN..SALT_LEN + 4]) && GetU16(hdr[0..2]) == |body| && GetU16(hdr[2..4]) == |pad|
    requires body == XorAt(ks, 4, s[SALT_LEN + 4..SALT_LEN + 4 + |body| + |pad|])[..|body|]
    requires pad == XorAt(ks, 4, s[SALT_LEN + 4..SALT_LEN + 4 + |body| + |pad|])[|body|..]
    ensures s == s[..SALT_LEN] + XorAt(ks, 0, Inner(body, pad)) + s[SALT_LEN + 4 + |body| + |pad|..]
  {
    HeaderReprints(hdr);
    Rebuild(ks, s, hdr, body, pad);
  }

  lemma Rebuild(ks: nat -> byte, s: bytes, hdr: bytes, body: bytes, pad: bytes)
    requires SALT_LEN + 4 + |body| + |pad| <= |s|
    requires hdr == XorAt(ks, 0, s[SALT_LEN..SALT_LEN + 4])
    requires body == XorAt(ks, 4, s[SALT_LEN + 4..SALT_LEN + 4 + |body| + |pad|])[..|body|]
    requires pad == XorAt(ks, 4, s[SALT_LEN + 4..SALT_LEN + 4 + |body| + |pad|])[|body|..]
    ensures s == s[..SALT_LEN] + XorAt(ks, 0, hdr + body + pad) + s[SALT_LEN + 4 + |body| + |pad|..]
  {
    var end := SALT_LEN + 4 + |body| + |pad|;
    assert body + pad == XorAt(ks, 4, s[SALT_LEN + 4..end]);
    Reencipher(ks, s, end);
    TwoPasses(ks, s[..SALT_LEN], hdr, body, pad, s[end..]);
  }

  /** Deciphering header and remainder and enciphering them again changes nothing. */
  lemma Reencipher(ks: nat -> byte, s: bytes, end: nat)
    requires SALT_LEN + 4 <= end <= |s|
    ensures s == s[..SALT_LEN] + XorAt(ks, 0, XorAt(ks, 0, s[SALT_LEN..SALT_LEN + 4]))
                 + XorAt(ks, 4, XorAt(ks, 4, s[SALT_LEN + 4..end])) + s[end..]
  {
    XorTwice(ks, 0, s[SALT_LEN..SALT_LEN + 4]);
    XorTwice(ks, 4, s[SALT_LEN + 4..end]);
  }
}

/** The envelope's readers and writers over byte buffers and a stateful keystream. */
module EnvelopeLoops {
  import opened Bytes
  import opened Envelope

  /** A keystream cipher that remembers how far it has been consumed. */
  class KeyStream {
    const stream: nat -> byte
    var pos: nat

    constructor (s: nat -> byte)
      ensures stream == s && pos == 0
    {
      stream := s;
      pos := 0;
    }

    /** Enciphers or deciphers a buffer in place. */
    method XorKeyStream(buf: array<byte>)
      modifies this, buf
      ensures buf[..] == XorAt(stream, old(pos), old(buf[..]))
      ensures pos == old(pos) + buf.Length
    {
      ghost var was := buf[..];
      for i := 0 to buf.Length
        invariant pos == old(pos) + i
        invariant forall j :: 0 <= j < i ==> buf[j] == XorByte(was[j], stream(old(pos) + j))
        invariant forall j :: i <= j < buf.Length ==> buf[j] == was[j]
      {
        buf[i] := XorByte(buf[i], stream(pos));
        pos := pos + 1;
      }
    }
  }

  /** A buffer holding the given bytes. */
  method BufferOf(data: bytes) returns (buf: array<byte>)
    ensures fresh(buf) && buf[..] == data
  {
    buf := new byte[|data|](i requires 0 <= i < |data| => data[i]);
  }

  /** The two lengths, the body and the padding laid out in one buffer. */
  method FillInner(body: bytes, pad: bytes) returns (inner: array<byte>)
    ensures fresh(inner) && inner[..] == Inner(body, pad)
  {
    inner := new byte[4 + |body| + |pad|](_ => 0);
    inner[0], inner[1] := PutU16(|body|)[0], PutU16(|body|)[1];
    inner[2], inner[3] := PutU16(|pad|)[0], PutU16(|pad|)[1];
    forall i | 0 <= i < |body| {
      inner[4 + i] := body[i];
    }
    forall i | 0 <= i < |pad| {
      inner[4 + |body| + i] := pad[i];
    }
    assert inner[..4] == PutU16(|body|) + PutU16(|pad|);
    assert inner[4..4 + |body|] == body && inner[4 + |body|..] == pad;
    assert inner[..] == inner[..4] + inner[4..4 + |body|] + inner[4 + |body|..];
  }

  /** `salt` and `pad` are the random bytes drawn for this message. */
  method WriteObfMsg(ks: KeyStreams, key: bytes, body: bytes, salt: bytes, pad: bytes) returns (out: Option<bytes>)
    ensures out == Seal(ks, key, salt, body, pad)
  {
    if |body| > MAX_BODY {
      return None;
    }
    var cipher := new KeyStream(ks(key, salt));
    var inner := FillInner(body, pad);
    cipher.XorKeyStream(inner);
    out := Some(salt + inner[..]);
  }

  method ReadObfMsg(ks: KeyStreams, key: bytes, s: bytes) returns (r: ReadResult)
    ensures r == Unseal(ks, key, s)
  {
    if |s| < SALT_LEN {
      return ReadFailed(ShortSalt);
    }
    var cipher := new KeyStream(ks(key, s[..SALT_LEN]));
    if |s| < SALT_LEN + 4 {
      return ReadFailed(ShortHeader);
    }
    var hdr := BufferOf(s[SALT_LEN..SALT_LEN + 4]);
    cipher.XorKeyStream(hdr);
    var bodyLen := GetU16(hdr[..][0..2]);
    var padLen := GetU16(hdr[..][2..4]);
    if bodyLen > MAX_BODY {
      return ReadFailed(BodyTooLong);
    }
    var end := SALT_LEN + 4 + bodyLen + padLen;
    if |s| < end {
      return ReadFailed(ShortBody);
    }
    var buf := BufferOf(s[SALT_LEN + 4..end]);
    cipher.XorKeyStream(buf);
    r := Read(buf[..bodyLen], s[end..]);
  }
}
