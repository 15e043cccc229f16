/** Where an inner packet is going. */
module Routing {
  import opened Bytes
  import opened Addr

  const VIRTIO_NET_HDR_LEN: nat := 10

  /** `innerDst`: the destination field of an IPv4 or IPv6 header, if the packet has one. */
  function InnerDst(pkt: bytes, vnetHdr: bool): Option<Addr> {
    if vnetHdr then
      if |pkt| < VIRTIO_NET_HDR_LEN then None else HeaderDst(pkt[VIRTIO_NET_HDR_LEN..])
    else HeaderDst(pkt)
  }

  function HeaderDst(ip: bytes): Option<Addr> {
    if |ip| < 1 then None
    else if ip[0] / 16 == 4 then
      if |ip| < 20 then None
      else
        FitsAddr(ip[16..20]);
        Some(V4(OfBigEndian(ip[16..20])))
    else if ip[0] / 16 == 6 then
      if |ip| < 40 then None
      else
        FitsAddr(ip[24..40]);
        Some(V6(OfBigEndian(ip[24..40])))
    else None
  }

  /** An IPv4 header (section 3.1 of RFC 791): version nibble, then 15 bytes up to the
      destination; an IPv6 header (section 3 of RFC 8200): version nibble, then 23 bytes. */
  function Header(dst: Addr, low: nat, middle: bytes): bytes
    requires low < 16
  {
    match dst
    case Invalid => []
    case V4(n) => [4 * 16 + low] + middle + BigEndian(n, 4)
    case V6(n) => [6 * 16 + low] + middle + BigEndian(n, 16)
  }

  /** Whatever else the packet holds, the field read back is the one written. */
  lemma DstIsRead(dst: Addr, low: nat, middle: bytes, rest: bytes, virtio: bytes)
    requires dst != Invalid && low < 16 && |middle| == (if dst.V4? then 15 else 23)
    requires |virtio| == VIRTIO_NET_HDR_LEN
    ensures InnerDst(Header(dst, low, middle) + rest, false) == Some(dst)
    ensures InnerDst(virtio + (Header(dst, low, middle) + rest), true) == Some(dst)
  {
    var ip := Header(dst, low, middle) + rest;
    assert (virtio + ip)[VIRTIO_NET_HDR_LEN..] == ip;
    DstBytes(dst);
    if dst.V4? {
      assert ip[16..20] == BigEndian(dst.n4, 4);
    } else {
      assert ip[24..40] == BigEndian(dst.n6, 16);
    }
  }

  /** And whatever is read was written in such a header: every other packet has no destination. */
  lemma OnlyHeadersAreRead(pkt: bytes, vnetHdr: bool) returns (low: nat, middle: bytes, rest: bytes)
    requires InnerDst(pkt, vnetHdr).Some?
    ensures var dst := InnerDst(pkt, vnetHdr).value;
      && dst != Invalid && low < 16 && |middle| == (if dst.V4? then 15 else 23)
      && (vnetHdr ==> |pkt| >= 10) && pkt[if vnetHdr then 10 else 0..] == Header(dst, low, middle) + rest
  {
    var ip := pkt[if vnetHdr then 10 else 0..];
    low, middle, rest := HeaderParts(ip);
  }

  lemma HeaderParts(ip: bytes) returns (low: nat, middle: bytes, rest: bytes)
    requires HeaderDst(ip).Some?
    ensures var dst := HeaderDst(ip).value;
      dst != Invalid && low < 16 && |middle| == (if dst.V4? then 15 else 23) && ip == Header(dst, low, middle) + rest
  {
    low := ip[0] % 16;
    var from := if ip[0] / 16 == 4 then 16 else 24;
    var to := if ip[0] / 16 == 4 then 20 else 40;
    middle, rest := ip[1..from], ip[to..];
    OfBigEndianRoundTrip(ip[from..to]);
    CutInFour(ip, from, to);
  }

  lemma CutInFour(ip: bytes, from: nat, to: nat)
    requires 1 <= from <= to <= |ip|
    ensures ip == [ip[0]] + ip[1..from] + ip[from..to] + ip[to..]
  {
  }

  lemma DstBytes(dst: Addr)
    ensures dst.V4? ==> OfBigEndian(BigEndian(dst.n4, 4)) == dst.n4
    ensures dst.V6? ==> OfBigEndian(BigEndian(dst.n6, 16)) == dst.n6
  {
    FitsBytes(dst);
    if dst.V4? {
      BigEndianRoundTrip(dst.n4, 4);
    } else if dst.V6? {
      BigEndianRoundTrip(dst.n6, 16);
    }
  }
}

/** The multi-client control plane as a state machine over its locked steps. */
module Control {
  import opened Bytes
  import opened Addr
  import opened Users
  import opened AddrPool
  import opened Routing

  const IDLE: int := 90
  const QUEUE: nat := 256

  /** What is fixed while a server runs. */
  datatype Config = Config(db: Option<UserDb>, peerKey: bytes, derive: bytes -> ClientId, hash: Hash,
                           dst: bytes -> Option<Addr>)

  /** The server routes by inner destination, with or without virtio headers. */
  ghost predicate RoutesInner(cfg: Config, vnetHdr: bool) {
    forall pkt: bytes :: cfg.dst(pkt) == InnerDst(pkt, vnetHdr)
  }

  predicate HasUsers(cfg: Config) {
    cfg.db.Some? && cfg.db.value.byKey != map[]
  }

  /** `serverAuthorizer`: the user behind a static key, or a refusal. */
  function Authorize(cfg: Config, key: bytes): Option<string> {
    if HasUsers(cfg) then
      if key in cfg.db.value.byKey then Some(cfg.db.value.byKey[key].name) else None
    else if |cfg.peerKey| > 0 && key == cfg.peerKey then Some("")
    else None
  }

  const ZERO_ID: ClientId := [0,0,0,0,0,0,0,0,0,0,0,0,0,0,0,0]

  /** A handshake that has its addresses but has not resolved yet. */
  datatype Ident = Ident(id: ClientId, user: string, addrs: map<Family, Addr>, lanes: nat)

  type Sid = nat

  datatype Session = Session(id: ClientId, user: string, addrs: map<Family, Addr>, laneCount: nat,
                             outbound: seq<bytes>, nextLane: nat, active: int, lastSeen: int, closed: bool)

  /** `heap` holds every session object ever made, under its serial number; `sessions` and
      `ipIndex` refer to sessions by that number, as the source does by pointer. `shakes` are
      handshakes with addresses but no session yet, `refused` are clients whose quota refusal
      still owes a release, `unpaid` are torn-down sessions whose quota slot is still taken. */
  datatype Server = Server(heap: map<Sid, Session>, next: Sid,
                           sessions: map<ClientId, Sid>, ipIndex: map<Addr, Sid>,
                           pools: map<Family, Pool>, active: map<string, nat>,
                           shakes: map<nat, Ident>, nextShake: nat,
                           refused: multiset<ClientId>, unpaid: set<Sid>,
                           readers: map<nat, (bytes, Sid)>)

  predicate Among(addrs: map<Family, Addr>, a: Addr) {
    (F4 in addrs && addrs[F4] == a) || (F6 in addrs && addrs[F6] == a)
  }

  predicate Holds(s: Session, a: Addr) {
    Among(s.addrs, a)
  }

  predicate Live(m: Server, sid: Sid) {
    sid in m.heap && m.heap[sid].id in m.sessions && m.sessions[m.heap[sid].id] == sid
  }

  /** Unlinked by a collection and not torn down yet. */
  predicate Victim(m: Server, sid: Sid) {
    sid in m.heap && !m.heap[sid].closed && !Live(m, sid)
  }

  // ---------------------------------------------------------------- the pieces of a step

  function ReleaseAll(pools: map<Family, Pool>, id: ClientId): map<Family, Pool> {
    map f | f in pools :: Release(pools[f], id)
  }

  function ReleaseOrphan(m: Server, id: ClientId): Server {
    if id in m.sessions then m else m.(pools := ReleaseAll(m.pools, id))
  }

  /** After a failed handshake: the all-zero id stands for "no identity known". */
  function FailedHandshake(m: Server, id: ClientId): Server {
    if id == ZERO_ID then m else ReleaseOrphan(m, id)
  }

  predicate UsablePools(m: Server) {
    forall f :: f in m.pools ==> m.pools[f].subnet.bits <= 128
  }

  function Wanted(want: map<Family, Addr>, f: Family): Addr {
    if f in want then want[f] else Invalid
  }

  /** The assignment hook: one address per pool that can give one. */
  function AllocateAll(cfg: Config, pools: map<Family, Pool>, user: string, id: ClientId, want: map<Family, Addr>): map<Family, Pool>
    requires forall f :: f in pools ==> pools[f].subnet.bits <= 128
  {
    map f | f in pools :: Allocate(pools[f], user, id, Wanted(want, f), cfg.db, cfg.hash)
  }

  function Answers(cfg: Config, pools: map<Family, Pool>, user: string, id: ClientId, want: map<Family, Addr>): map<Family, Addr>
    requires forall f :: f in pools ==> pools[f].subnet.bits <= 128
  {
    map f | f in pools && Answer(pools[f], user, id, Wanted(want, f), cfg.db, cfg.hash).Some? ::
      Answer(pools[f], user, id, Wanted(want, f), cfg.db, cfg.hash).value
  }

  function StartHandshake(cfg: Config, m: Server, key: bytes, want: map<Family, Addr>, lanes: nat): Server
    requires UsablePools(m)
  {
    var id := cfg.derive(key);
    match Authorize(cfg, key)
    case None => FailedHandshake(m, id)
    case Some(user) =>
      Offer(m, AllocateAll(cfg, m.pools, user, id, want), Ident(id, user, Answers(cfg, m.pools, user, id, want), lanes))
  }

  /** A handshake with its addresses is under way. */
  function Offer(m: Server, pools: map<Family, Pool>, x: Ident): Server {
    m.(pools := pools, shakes := m.shakes[m.nextShake := x], nextShake := m.nextShake + 1)
  }

  function IndexAdd(index: map<Addr, Sid>, addrs: map<Family, Addr>, sid: Sid): map<Addr, Sid> {
    var i := if F4 in addrs then index[addrs[F4] := sid] else index;
    if F6 in addrs then i[addrs[F6] := sid] else i
  }

  function ClaimAll(pools: map<Family, Pool>, id: ClientId, addrs: map<Family, Addr>): map<Family, Pool> {
    map f | f in pools :: if f in addrs then Claim(pools[f], id, addrs[f]) else pools[f]
  }

  function ClampLanes(n: nat): nat {
    if n < 1 then 1 else if n > 64 then 64 else n
  }

  function NewSession(x: Ident, now: int): Session {
    Session(x.id, x.user, x.addrs, ClampLanes(x.lanes), [], 0, 0, now, false)
  }

  predicate QuotaRefuses(cfg: Config, m: Server, user: string) {
    HasUsers(cfg) && !SlotFree(cfg.db.value, m.active, user)
  }

  function CreateSession(cfg: Config, m: Server, x: Ident, now: int): Server {
    m.(heap := m.heap[m.next := NewSession(x, now)],
       next := m.next + 1,
       sessions := m.sessions[x.id := m.next],
       ipIndex := IndexAdd(m.ipIndex, x.addrs, m.next),
       pools := ClaimAll(m.pools, x.id, x.addrs),
       active := if HasUsers(cfg) then Taken(m.active, x.user) else m.active)
  }

  /** The critical section of `acquireSession`; a refusal still owes its release. */
  function AcquireSession(cfg: Config, m: Server, x: Ident, now: int): Server {
    if x.id in m.sessions then m
    else if QuotaRefuses(cfg, m, x.user) then m.(refused := m.refused + multiset{x.id})
    else CreateSession(cfg, m, x, now)
  }

  /** `hasAssignment`: an address of some family came with a prefix length that is not zero. */
  predicate Assigned(pools: map<Family, Pool>, addrs: map<Family, Addr>) {
    || (F4 in addrs && F4 in pools && pools[F4].subnet.bits != 0)
    || (F6 in addrs && F6 in pools && pools[F6].subnet.bits != 0)
  }

  /** A handshake without an assignment is turned away, and nothing is released. */
  function FinishHandshake(cfg: Config, m: Server, x: Ident, now: int): Server {
    if !Assigned(m.pools, x.addrs) then m else AcquireSession(cfg, m, x, now)
  }

  /** Finishing this handshake makes a session. */
  predicate Seats(cfg: Config, m: Server, x: Ident) {
    Assigned(m.pools, x.addrs) && x.id !in m.sessions && !QuotaRefuses(cfg, m, x.user)
  }

  predicate Stale(s: Session, now: int) {
    s.active == 0 && now - s.lastSeen > IDLE
  }

  /** The live session of `id` is due for collection. */
  predicate Due(m: Server, id: ClientId, now: int) {
    id in m.sessions && m.sessions[id] in m.heap && Stale(m.heap[m.sessions[id]], now)
  }

  /** Addresses that a collection takes out of the index. */
  ghost predicate Dropping(m: Server, a: Addr, now: int) {
    exists id :: Due(m, id, now) && Holds(m.heap[m.sessions[id]], a)
  }

  /** The locked part of `collect`: stale sessions leave both maps. */
  ghost function Unlink(m: Server, now: int): Server {
    m.(sessions := map id | id in m.sessions && !Due(m, id, now) :: m.sessions[id],
       ipIndex := map a | a in m.ipIndex && !Dropping(m, a, now) :: m.ipIndex[a])
  }

  /** `tearDown` up to the pool releases: close once and release the addresses. */
  function CloseSession(m: Server, sid: Sid): Server
    requires sid in m.heap
  {
    var s := m.heap[sid];
    if s.closed then m
    else m.(heap := m.heap[sid := s.(closed := true)],
            pools := ReleaseAll(m.pools, s.id),
            unpaid := m.unpaid + {sid})
  }

  /** The end of `tearDown`: give back the quota slot of a named user. */
  function ReturnSlot(cfg: Config, m: Server, sid: Sid): Server
    requires sid in m.heap
  {
    m.(active := FreedSlot(cfg, m.active, m.heap[sid].user), unpaid := m.unpaid - {sid})
  }

  function FreedSlot(cfg: Config, active: map<string, nat>, user: string): map<string, nat> {
    if user != "" && cfg.db.Some? then Dropped(cfg.db.value, active, user) else active
  }

  /** All of `tearDown`, with nothing in between. */
  function TearDown(cfg: Config, m: Server, sid: Sid): Server
    requires sid in m.heap
  {
    if m.heap[sid].closed then m else ReturnSlot(cfg, CloseSession(m, sid), sid).(unpaid := m.unpaid)
  }

  function SetSession(m: Server, sid: Sid, s: Session): Server {
    m.(heap := m.heap[sid := s])
  }

  function LaneStarted(s: Session, now: int): Session {
    s.(nextLane := s.nextLane + 1, active := s.active + 1, lastSeen := now)
  }

  function LaneEnded(s: Session, now: int): Session {
    s.(active := s.active - 1, lastSeen := now)
  }

  function Popped(s: Session): Session {
    if s.outbound == [] then s else s.(outbound := s.outbound[1..])
  }

  function Enqueue(s: Session, pkt: bytes, lost: bool): Session {
    if (s.closed && lost) || |s.outbound| >= QUEUE then s else s.(outbound := s.outbound + [pkt])
  }

  // ---------------------------------------------------------------- events

  datatype Event =
    | Handshake(key: bytes, want: map<Family, Addr>, lanes: nat)  // authenticated; authorize and allocate
    | Reject(key: bytes)                  // authenticated, then a bad payload or cipher
    | Abort(h: nat)                       // the answer could not be written
    | Finish(h: nat, now: int)            // acquireSession's critical section
    | ReleaseRefused(id: ClientId)        // releaseAll after a quota refusal
    | Collect(now: int)                   // collect's critical section
    | CollectAll                          // tearDownAll's critical section
    | Close(sid: Sid)                     // tearDown of an unlinked session: close and release
    | Pay(sid: Sid)                       // its last part: the quota slot
    | LaneUp(sid: Sid, now: int)
    | LaneDown(sid: Sid, now: int)
    | Route(reader: nat, pkt: bytes)      // index lookup of one packet
    | Push(reader: nat, lost: bool)       // the non-blocking send that follows
    | Pop(sid: Sid)                       // a lane reads the session's queue

  predicate DataEvent(e: Event) {
    e.LaneUp? || e.LaneDown? || e.Route? || e.Push? || e.Pop?
  }

  function LaneUpStep(m: Server, sid: Sid, now: int): Server {
    if sid in m.heap then SetSession(m, sid, LaneStarted(m.heap[sid], now)) else m
  }

  function LaneDownStep(m: Server, sid: Sid, now: int): Server {
    if sid in m.heap then SetSession(m, sid, LaneEnded(m.heap[sid], now)) else m
  }

  function PopStep(m: Server, sid: Sid): Server {
    if sid in m.heap then SetSession(m, sid, Popped(m.heap[sid])) else m
  }

  function RouteStep(cfg: Config, m: Server, r: nat, pkt: bytes): Server {
    if cfg.dst(pkt).None? || cfg.dst(pkt).value !in m.ipIndex then m
    else m.(readers := m.readers[r := (pkt, m.ipIndex[cfg.dst(pkt).value])])
  }

  function PushStep(m: Server, r: nat, lost: bool): Server {
    if r !in m.readers || m.readers[r].1 !in m.heap then m
    else
      var pkt, sid := m.readers[r].0, m.readers[r].1;
      SetSession(m.(readers := m.readers - {r}), sid, Enqueue(m.heap[sid], pkt, lost))
  }

  /** Lanes coming and going, and packets on their way. */
  function DataStep(cfg: Config, m: Server, e: Event): Server
    requires DataEvent(e)
  {
    match e
    case LaneUp(sid, now) => LaneUpStep(m, sid, now)
    case LaneDown(sid, now) => LaneDownStep(m, sid, now)
    case Route(r, pkt) => RouteStep(cfg, m, r, pkt)
    case Push(r, lost) => PushStep(m, r, lost)
    case Pop(sid) => PopStep(m, sid)
  }

  function Without(m: Server, h: nat): Server {
    m.(shakes := m.shakes - {h})
  }

  function AbortStep(m: Server, h: nat): Server {
    if h in m.shakes then FailedHandshake(Without(m, h), m.shakes[h].id) else m
  }

  function FinishStep(cfg: Config, m: Server, h: nat, now: int): Server {
    if h in m.shakes then FinishHandshake(cfg, Without(m, h), m.shakes[h], now) else m
  }

  function RefusedStep(m: Server, id: ClientId): Server {
    if id in m.refused then m.(refused := m.refused - multiset{id}, pools := ReleaseAll(m.pools, id)) else m
  }

  /** The locked part of `tearDownAll`. */
  function UnlinkAll(m: Server): Server {
    m.(sessions := map[], ipIndex := map[])
  }

  function CloseStep(m: Server, sid: Sid): Server {
    if Victim(m, sid) then CloseSession(m, sid) else m
  }

  function PayStep(cfg: Config, m: Server, sid: Sid): Server {
    if sid in m.unpaid && sid in m.heap then ReturnSlot(cfg, m, sid) else m
  }

  predicate SetUpEvent(e: Event) {
    e.Handshake? || e.Reject? || e.Abort? || e.Finish?
  }

  predicate SweepEvent(e: Event) {
    e.ReleaseRefused? || e.Collect? || e.CollectAll? || e.Close? || e.Pay?
  }

  ghost function Step(cfg: Config, m: Server, e: Event): Server
    requires UsablePools(m)
  {
    match e
    case Handshake(key, want, lanes) => StartHandshake(cfg, m, key, want, lanes)
    case Reject(key) => FailedHandshake(m, cfg.derive(key))
    case Abort(h) => AbortStep(m, h)
    case Finish(h, now) => FinishStep(cfg, m, h, now)
    case ReleaseRefused(id) => RefusedStep(m, id)
    case Collect(now) => Unlink(m, now)
    case CollectAll => UnlinkAll(m)
    case Close(sid) => CloseStep(m, sid)
    case Pay(sid) => PayStep(cfg, m, sid)
    case _ => DataStep(cfg, m, e)
  }

  /** Which of the pieces a step is. */
  lemma StepIs(cfg: Config, m: Server, e: Event)
    requires UsablePools(m)
    ensures match e
      case Handshake(key, want, lanes) => Step(cfg, m, e) == StartHandshake(cfg, m, key, want, lanes)
      case Reject(key) => Step(cfg, m, e) == FailedHandshake(m, cfg.derive(key))
      case Abort(h) => Step(cfg, m, e) == AbortStep(m, h)
      case Finish(h, now) => Step(cfg, m, e) == FinishStep(cfg, m, h, now)
      case ReleaseRefused(id) => Step(cfg, m, e) == RefusedStep(m, id)
      case Collect(now) => Step(cfg, m, e) == Unlink(m, now)
      case CollectAll => Step(cfg, m, e) == UnlinkAll(m)
      case Close(sid) => Step(cfg, m, e) == CloseStep(m, sid)
      case Pay(sid) => Step(cfg, m, e) == PayStep(cfg, m, sid)
      case _ => Step(cfg, m, e) == DataStep(cfg, m, e)
  {
  }

  lemma DataStepIs(cfg: Config, m: Server, e: Event)
    requires DataEvent(e)
    ensures match e
      case LaneUp(sid, now) => DataStep(cfg, m, e) == LaneUpStep(m, sid, now)
      case LaneDown(sid, now) => DataStep(cfg, m, e) == LaneDownStep(m, sid, now)
      case Route(r, pkt) => DataStep(cfg, m, e) == RouteStep(cfg, m, r, pkt)
      case Push(r, lost) => DataStep(cfg, m, e) == PushStep(m, r, lost)
      case Pop(sid) => DataStep(cfg, m, e) == PopStep(m, sid)
      case _ => true
  {
  }

  ghost function Start(pools: map<Family, Pool>): Server {
    Server(map[], 0, map[], map[], pools, map[], map[], 0, multiset{}, {}, map[])
  }
}
