/** Handshake payloads, and what two peers agree on once both have finished. */
module Handshake {
  import opened Bytes
  import opened Addr
  import opened Envelope

  const VERSION: byte := 7
  const SLOT_LEN: nat := 17
  const CLIENT_PAYLOAD_LEN: nat := 3 + 2 * SLOT_LEN + 1
  const SERVER_PAYLOAD_LEN: nat := 1 + 4 * SLOT_LEN + 3

  // ---------------------------------------------------------------- address slots

  function EncodeSlot(a: Addr): (b: bytes)
    ensures |b| == SLOT_LEN
  {
    if a == Invalid || a.IsUnspecified() then Zeros(17)
    else if a.V4? then [4] + BigEndian(a.n4, 4) + Zeros(12)
    else [6] + BigEndian(a.n6, 16)
  }

  function DecodeSlot(b: bytes): Addr {
    if |b| < SLOT_LEN then Invalid
    else if b[0] == 4 then
      FitsAddr(b[1..5]);
      V4(OfBigEndian(b[1..5]))
    else if b[0] == 6 then
      FitsAddr(b[1..17]);
      V6(OfBigEndian(b[1..17]))
    else Invalid
  }

  /** On the wire an unspecified address and no address are the same. */
  function Norm(a: Addr): Addr {
    if a.IsUnspecified() then Invalid else a
  }

  lemma SlotRoundTrip(a: Addr)
    ensures DecodeSlot(EncodeSlot(a)) == Norm(a)
  {
    var b := EncodeSlot(a);
    if a.V4? && !a.IsUnspecified() {
      assert b[1..5] == BigEndian(a.n4, 4);
      FitsBytes(a);
      BigEndianRoundTrip(a.n4, 4);
    } else if a.V6? && !a.IsUnspecified() {
      assert b[1..17] == BigEndian(a.n6, 16);
      FitsBytes(a);
      BigEndianRoundTrip(a.n6, 16);
    }
  }

  // ---------------------------------------------------------------- payloads

  datatype Hello = Hello(cipher: byte, lanes: byte, want4: Addr, want6: Addr, uso: bool)

  datatype Assignment = Assignment(v4: Addr, prefix4: byte, peer4: Addr, v6: Addr, prefix6: byte, peer6: Addr)

  function Flag(uso: bool): byte {
    if uso then 1 else 0
  }

  /** `flags & hsFlagUSO != 0`. */
  predicate HasUso(flags: byte) {
    BitAnd(flags, 1) != 0
  }

  lemma FlagRoundTrip(uso: bool)
    ensures HasUso(Flag(uso)) == uso
  {
  }

  function BuildClient(h: Hello): (b: bytes)
    ensures |b| == CLIENT_PAYLOAD_LEN
  {
    [VERSION, h.cipher, h.lanes] + EncodeSlot(h.want4) + EncodeSlot(h.want6) + [Flag(h.uso)]
  }

  datatype Parsed<T> = Parsed(value: T) | ShortPayload | WrongVersion

  function ParseClient(p: bytes): Parsed<Hello> {
    if |p| < CLIENT_PAYLOAD_LEN then ShortPayload
    else if p[0] != VERSION then WrongVersion
    else Parsed(Hello(p[1], p[2], DecodeSlot(p[3..20]), DecodeSlot(p[20..37]), HasUso(p[37])))
  }

  function BuildServer(a: Assignment, uso: bool): (b: bytes)
    ensures |b| == SERVER_PAYLOAD_LEN
  {
    [VERSION] + EncodeSlot(a.v4) + [a.prefix4] + EncodeSlot(a.peer4)
    + EncodeSlot(a.v6) + [a.prefix6] + EncodeSlot(a.peer6) + [Flag(uso)]
  }

  /** `parseServerPayload`, field by field as its cursor advances. */
  function ParseServer(p: bytes): Parsed<(Assignment, bool)> {
    if |p| < SERVER_PAYLOAD_LEN then ShortPayload
    else if p[0] != VERSION then WrongVersion
    else Parsed((Assignment(DecodeSlot(p[1..18]), p[18], DecodeSlot(p[19..36]),
                            DecodeSlot(p[36..53]), p[53], DecodeSlot(p[54..71])), HasUso(p[71])))
  }

  function NormHello(h: Hello): Hello {
    h.(want4 := Norm(h.want4), want6 := Norm(h.want6))
  }

  function NormAssignment(a: Assignment): Assignment {
    a.(v4 := Norm(a.v4), peer4 := Norm(a.peer4), v6 := Norm(a.v6), peer6 := Norm(a.peer6))
  }

  lemma ClientRoundTrip(h: Hello)
    ensures ParseClient(BuildClient(h)) == Parsed(NormHello(h))
  {
    var p := BuildClient(h);
    assert p[3..20] == EncodeSlot(h.want4) && p[20..37] == EncodeSlot(h.want6);
    SlotRoundTrip(h.want4);
    SlotRoundTrip(h.want6);
    FlagRoundTrip(h.uso);
  }

  lemma ServerSlices(a: Assignment, uso: bool)
    ensures var p := BuildServer(a, uso);
      && p[0] == VERSION && p[1..18] == EncodeSlot(a.v4) && p[18] == a.prefix4 && p[19..36] == EncodeSlot(a.peer4)
      && p[36..53] == EncodeSlot(a.v6) && p[53] == a.prefix6 && p[54..71] == EncodeSlot(a.peer6) && p[71] == Flag(uso)
  {
  }

  lemma ServerRoundTrip(a: Assignment, uso: bool)
    ensures ParseServer(BuildServer(a, uso)) == Parsed((NormAssignment(a), uso))
  {
    ServerSlices(a, uso);
    SlotRoundTrip(a.v4);
    SlotRoundTrip(a.peer4);
    SlotRoundTrip(a.v6);
    SlotRoundTrip(a.peer6);
    FlagRoundTrip(uso);
  }

  // ---------------------------------------------------------------- the two sides

  /** One Noise IK exchange seen as a box: two messages each way, the client key it proves, and
      the two directional keys it ends with. */
  datatype Noise = Noise(write1: bytes -> bytes, read1: bytes -> Option<bytes>,
                         write2: bytes -> bytes, read2: bytes -> Option<bytes>,
                         clientKey: bytes, toServer: bytes, toClient: bytes)

  /** The two messages that are sent come out at the other side. */
  ghost predicate Delivers(n: Noise, hello: Hello, reply: bytes) {
    && n.read1(n.write1(BuildClient(hello))) == Some(BuildClient(hello))
    && n.read2(n.write2(reply)) == Some(reply)
  }

  /** Nothing but the client's own message can be read as its first message. */
  ghost predicate OnlyHello(n: Noise, hello: Hello) {
    forall m: bytes, x: bytes :: n.read1(m) == Some(x) ==> x == BuildClient(hello)
  }

  ghost predicate OnlyReply(n: Noise, reply: bytes) {
    forall m: bytes, x: bytes :: n.read2(m) == Some(x) ==> x == reply
  }

  /** One box can both deliver what is sent and let nothing else through. */
  lemma IdealBox(hello: Hello, reply: bytes, clientKey: bytes, toServer: bytes, toClient: bytes) returns (n: Noise)
    ensures Delivers(n, hello, reply) && OnlyHello(n, hello) && OnlyReply(n, reply)
    ensures n.clientKey == clientKey && n.toServer == toServer && n.toClient == toClient
  {
    var first := BuildClient(hello);
    n := Noise((x: bytes) => x, (m: bytes) => if m == first then Some(m) else None,
               (x: bytes) => x, (m: bytes) => if m == reply then Some(m) else None,
               clientKey, toServer, toClient);
  }

  /** What a side knows when it is done; `tx` and `rx` are its transport keys. */
  datatype Identity = Identity(cipher: byte, tx: bytes, rx: bytes, lanes: byte, uso: bool, a: Assignment)

  datatype Wire = Wire(ks: KeyStreams, key: bytes)

  datatype Server = Server(cipher: byte, uso: bool, transport: (byte, bytes) -> bytes,
                           authorize: bytes -> Option<string>,
                           assign: (string, bytes, Addr, Addr) -> Option<Assignment>)

  datatype Accepted = NoIdentity | Rejected(clientKey: bytes) | Done(reply: bytes, id: Identity)

  /** The client's first bytes; `None` if the message does not fit an envelope. */
  function ClientOpen(w: Wire, n: Noise, hello: Hello, salt: bytes, pad: bytes): Option<bytes> {
    Seal(w.ks, w.key, salt, n.write1(BuildClient(hello)), pad)
  }

  /** `acceptHandshake` on whatever bytes arrive. */
  function Accept(w: Wire, n: Noise, s: Server, stream: bytes, salt: bytes, pad: bytes): Accepted {
    match Unseal(w.ks, w.key, stream)
    case ReadFailed(_) => NoIdentity
    case Read(msg, _) =>
      match n.read1(msg)
      case None => NoIdentity
      case Some(payload) =>
        match s.authorize(n.clientKey)
        case None => Rejected(n.clientKey)
        case Some(user) =>
          match ParseClient(payload)
          case ShortPayload => Rejected(n.clientKey)
          case WrongVersion => Rejected(n.clientKey)
          case Parsed(h) =>
            if h.cipher != s.cipher then Rejected(n.clientKey) else Answer(w, n, s, user, h, salt, pad)
  }

  function Answer(w: Wire, n: Noise, s: Server, user: string, h: Hello, salt: bytes, pad: bytes): Accepted {
    match s.assign(user, n.clientKey, h.want4, h.want6)
    case None => Rejected(n.clientKey)
    case Some(a) =>
      match Seal(w.ks, w.key, salt, n.write2(BuildServer(a, s.uso)), pad)
      case None => Rejected(n.clientKey)
      case Some(reply) =>
        Done(reply, Identity(s.cipher, s.transport(s.cipher, n.toClient), s.transport(s.cipher, n.toServer),
                             h.lanes, s.uso && h.uso, a))
  }

  /** The rest of `initiateHandshake` on whatever bytes come back. */
  function ClientFinish(w: Wire, n: Noise, hello: Hello, transport: (byte, bytes) -> bytes, stream: bytes): Option<Identity> {
    match Unseal(w.ks, w.key, stream)
    case ReadFailed(_) => None
    case Read(msg, _) =>
      match n.read2(msg)
      case None => None
      case Some(payload) =>
        match ParseServer(payload)
        case ShortPayload => None
        case WrongVersion => None
        case Parsed((a, uso)) =>
          Some(Identity(hello.cipher, transport(hello.cipher, n.toServer), transport(hello.cipher, n.toClient),
                        hello.lanes, hello.uso && uso, a))
  }

  /** Both sides describe the same lane: same cipher, lane count and USO decision, the same
      addresses up to "none", and each side's sending key is the other's receiving key. */
  ghost predicate Agree(c: Identity, s: Identity) {
    && c.cipher == s.cipher && c.tx == s.rx && c.rx == s.tx
    && c.lanes == s.lanes && c.uso == s.uso && c.a == NormAssignment(s.a)
  }

  /** What the two sides have settled: the client's cipher, which is the server's, and lane count; USO
      only if both offered it; the address that the server gave this user and key on these wishes;
      and the exchange's keys, one for each direction. */
  ghost predicate Settled(n: Noise, s: Server, hello: Hello, user: string, id: Identity) {
    && id.cipher == hello.cipher == s.cipher && id.lanes == hello.lanes && id.uso == (hello.uso && s.uso)
    && s.assign(user, n.clientKey, Norm(hello.want4), Norm(hello.want6)) == Some(id.a)
    && id.tx == s.transport(hello.cipher, n.toClient) && id.rx == s.transport(hello.cipher, n.toServer)
  }

  /** A server that finished read the client's own hello. */
  lemma ServerRead(w: Wire, n: Noise, s: Server, hello: Hello, stream: bytes, salt: bytes, pad: bytes)
    requires OnlyHello(n, hello) && Accept(w, n, s, stream, salt, pad).Done?
    ensures s.authorize(n.clientKey).Some? && hello.cipher == s.cipher
    ensures Accept(w, n, s, stream, salt, pad)
         == Answer(w, n, s, s.authorize(n.clientKey).value, NormHello(hello), salt, pad)
  {
    ClientRoundTrip(hello);
  }

  /** Handshake agreement: whatever bytes the network delivers to either side, if both finish
      over an ideal Noise exchange then they agree, on what was asked and answered, and the
      client's key was authorized. */
  lemma Agreement(w: Wire, n: Noise, s: Server, hello: Hello, stream1: bytes, stream2: bytes, salt: bytes, pad: bytes)
    requires OnlyHello(n, hello)
    requires Accept(w, n, s, stream1, salt, pad).Done?
    requires OnlyReply(n, BuildServer(Accept(w, n, s, stream1, salt, pad).id.a, s.uso))
    requires ClientFinish(w, n, hello, s.transport, stream2).Some?
    ensures Agree(ClientFinish(w, n, hello, s.transport, stream2).value, Accept(w, n, s, stream1, salt, pad).id)
    ensures s.authorize(n.clientKey).Some?
    ensures Settled(n, s, hello, s.authorize(n.clientKey).value, Accept(w, n, s, stream1, salt, pad).id)
  {
    ServerRead(w, n, s, hello, stream1, salt, pad);
    ServerRoundTrip(Accept(w, n, s, stream1, salt, pad).id.a, s.uso);
  }

  /** Which bytes the server answers, and what it makes of the others: without a readable first
      message nothing is known of the client; with one, the client's key is, and the server finishes
      exactly when the key is authorized, the payload parses and names the server's cipher, and there
      is an address to give and room for the reply. */
  lemma AcceptIff(w: Wire, n: Noise, s: Server, stream: bytes, salt: bytes, pad: bytes)
    ensures var r, e := Accept(w, n, s, stream, salt, pad), Unseal(w.ks, w.key, stream);
      if e.ReadFailed? || n.read1(e.body).None? then r == NoIdentity
      else
        var h := ParseClient(n.read1(e.body).value);
        if s.authorize(n.clientKey).None? || !h.Parsed? || h.value.cipher != s.cipher then r == Rejected(n.clientKey)
        else
          match s.assign(s.authorize(n.clientKey).value, n.clientKey, h.value.want4, h.value.want6)
          case None => r == Rejected(n.clientKey)
          case Some(a) =>
            if |n.write2(BuildServer(a, s.uso))| > 4096 then r == Rejected(n.clientKey)
            else r.Done? && r.id.a == a && Seal(w.ks, w.key, salt, n.write2(BuildServer(a, s.uso)), pad) == Some(r.reply)
  {
  }

  /** An authorized client with the right cipher always gets through to an identity, when the
      messages fit their envelopes and the bytes arrive, whatever follows them. */
  lemma Completes(w: Wire, n: Noise, s: Server, hello: Hello, salt1: bytes, pad1: bytes, salt2: bytes, pad2: bytes,
                  more1: bytes, more2: bytes, user: string, a: Assignment)
    requires Delivers(n, hello, BuildServer(a, s.uso)) && s.authorize(n.clientKey) == Some(user) && hello.cipher == s.cipher
    requires s.assign(user, n.clientKey, Norm(hello.want4), Norm(hello.want6)) == Some(a)
    requires |salt1| == SALT_LEN == |salt2| && |pad1| <= MAX_PAD && |pad2| <= MAX_PAD
    requires |n.write1(BuildClient(hello))| <= MAX_BODY && |n.write2(BuildServer(a, s.uso))| <= MAX_BODY
    ensures var r := Accept(w, n, s, ClientOpen(w, n, hello, salt1, pad1).value + more1, salt2, pad2);
      && r.Done? && r.id.a == a && Settled(n, s, hello, user, r.id)
      && ClientFinish(w, n, hello, s.transport, r.reply + more2).Some?
      && Agree(ClientFinish(w, n, hello, s.transport, r.reply + more2).value, r.id)
  {
    EnvelopeRoundTrip(w.ks, w.key, salt1, n.write1(BuildClient(hello)), pad1, more1);
    ClientRoundTrip(hello);
    EnvelopeRoundTrip(w.ks, w.key, salt2, n.write2(BuildServer(a, s.uso)), pad2, more2);
    ServerRoundTrip(a, s.uso);
  }
}
