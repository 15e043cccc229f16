/** What every interleaving of the control plane's locked steps keeps. */
module ControlSafety {
  import opened Bytes
  import opened Addr
  import opened Users
  import opened AddrPool
  import opened Routing
  import opened Control

  // ---------------------------------------------------------------- invariants

  /** Who may be who, and who may hold what; fixed for a run. */
  datatype Rules = Rules(auth: (ClientId, string) -> bool, right: (Family, ClientId, Addr) -> bool)

  ghost predicate SamePlaces(p: map<Family, Pool>, q: map<Family, Pool>) {
    && p.Keys == q.Keys
    && forall f :: f in p ==> p[f].subnet == q[f].subnet && p[f].reserved == q[f].reserved
  }

  ghost predicate AddrsRight(r: Rules, base: map<Family, Pool>, id: ClientId, addrs: map<Family, Addr>) {
    forall f :: f in addrs ==> f in base && r.right(f, id, addrs[f])
  }

  ghost predicate PoolRight(r: Rules, f: Family, p: Pool) {
    forall id :: id in p.byClient ==> r.right(f, id, p.byClient[id])
  }

  /** Every address on record, offered or in use is held by right. */
  ghost predicate Rights(r: Rules, base: map<Family, Pool>, m: Server) {
    && SamePlaces(base, m.pools)
    && (forall f :: f in m.pools ==> PoolRight(r, f, m.pools[f]))
    && (forall h :: h in m.shakes ==>
          r.auth(m.shakes[h].id, m.shakes[h].user) && AddrsRight(r, base, m.shakes[h].id, m.shakes[h].addrs))
    && (forall sid :: sid in m.heap ==>
          r.auth(m.heap[sid].id, m.heap[sid].user) && AddrsRight(r, base, m.heap[sid].id, m.heap[sid].addrs))
  }

  ghost predicate Shape(m: Server) {
    && (forall id :: id in m.sessions ==> m.sessions[id] in m.heap && m.heap[m.sessions[id]].id == id
                                          && !m.heap[m.sessions[id]].closed)
    && (forall sid :: sid in m.heap ==> sid < m.next && m.heap[sid].addrs != map[])
    && (forall h :: h in m.shakes ==> h < m.nextShake)
  }

  /** Each index entry points to a live session that was assigned that address. */
  ghost predicate IndexOk(m: Server) {
    forall a :: a in m.ipIndex ==> Live(m, m.ipIndex[a]) && Holds(m.heap[m.ipIndex[a]], a)
  }

  /** The packet is addressed to one of the session's own addresses. */
  ghost predicate Mine(cfg: Config, s: Session, pkt: bytes) {
    cfg.dst(pkt).Some? && Holds(s, cfg.dst(pkt).value)
  }

  ghost predicate QueueOk(cfg: Config, s: Session) {
    |s.outbound| <= QUEUE && forall i :: 0 <= i < |s.outbound| ==> Mine(cfg, s, s.outbound[i])
  }

  ghost predicate ReaderOk(cfg: Config, m: Server, held: (bytes, Sid)) {
    held.1 in m.heap && Mine(cfg, m.heap[held.1], held.0)
  }

  /** No queue of any session, live or gone, holds a packet for somebody else. */
  ghost predicate Delivery(cfg: Config, m: Server) {
    && (forall sid :: sid in m.heap ==> QueueOk(cfg, m.heap[sid]))
    && (forall r :: r in m.readers ==> ReaderOk(cfg, m, m.readers[r]))
  }

  // ---------------------------------------------------------------- Shape and IndexOk

  ghost predicate Linked(m: Server) {
    Shape(m) && IndexOk(m)
  }

  lemma IndexAddAt(index: map<Addr, Sid>, addrs: map<Family, Addr>, sid: Sid, a: Addr)
    ensures var added := Among(addrs, a);
      && (a in IndexAdd(index, addrs, sid) <==> a in index || added)
      && (a in IndexAdd(index, addrs, sid) ==> IndexAdd(index, addrs, sid)[a] == if added then sid else index[a])
  {
  }

  lemma CreateLinks(cfg: Config, m: Server, x: Ident, now: int)
    requires Linked(m) && x.addrs != map[] && x.id !in m.sessions
    ensures Linked(CreateSession(cfg, m, x, now))
  {
    var n := CreateSession(cfg, m, x, now);
    forall a | a in n.ipIndex ensures Live(n, n.ipIndex[a]) && Holds(n.heap[n.ipIndex[a]], a) {
      IndexAddAt(m.ipIndex, x.addrs, m.next, a);
    }
  }

  lemma UnlinkLinks(m: Server, now: int)
    requires Linked(m)
    ensures Linked(Unlink(m, now))
  {
    var n := Unlink(m, now);
    forall a | a in n.ipIndex ensures Live(n, n.ipIndex[a]) && Holds(n.heap[n.ipIndex[a]], a) {
      var id := m.heap[m.ipIndex[a]].id;
      assert Live(m, m.ipIndex[a]) && Holds(m.heap[m.ipIndex[a]], a);
      assert !Due(m, id, now);
    }
  }

  /** A session's queue, lanes and clock may change; what it is may not. */
  ghost predicate SameIdentity(s: Session, t: Session) {
    s.id == t.id && s.user == t.user && s.addrs == t.addrs
  }

  /** The same sessions, up to queues, lanes and clocks. */
  ghost predicate SameSessions(heap: map<Sid, Session>, heap': map<Sid, Session>) {
    && heap.Keys == heap'.Keys
    && forall sid :: sid in heap ==> SameIdentity(heap[sid], heap'[sid]) && heap'[sid].closed == heap[sid].closed
  }

  lemma SetFrame(m: Server, sid: Sid, t: Session)
    requires sid in m.heap && SameIdentity(m.heap[sid], t) && t.closed == m.heap[sid].closed
    ensures SameSessions(m.heap, SetSession(m, sid, t).heap)
  {
  }

  /** Data steps touch queues, lanes, clocks and readers only. */
  lemma DataFrame(cfg: Config, m: Server, e: Event)
    requires DataEvent(e)
    ensures SameSessions(m.heap, DataStep(cfg, m, e).heap)
    ensures DataStep(cfg, m, e) == m.(heap := DataStep(cfg, m, e).heap, readers := DataStep(cfg, m, e).readers)
  {
    DataStepIs(cfg, m, e);
    match e {
      case LaneUp(sid, now) => if sid in m.heap { SetFrame(m, sid, LaneStarted(m.heap[sid], now)); }
      case LaneDown(sid, now) => if sid in m.heap { SetFrame(m, sid, LaneEnded(m.heap[sid], now)); }
      case Pop(sid) => if sid in m.heap { SetFrame(m, sid, Popped(m.heap[sid])); }
      case Push(r, lost) =>
        if r in m.readers && m.readers[r].1 in m.heap {
          SetFrame(m, m.readers[r].1, Enqueue(m.heap[m.readers[r].1], m.readers[r].0, lost));
        }
      case Route(_, _) =>
    }
  }

  /** Sessions, index, quotas, debts and readers are the same. */
  ghost predicate OnlySetUp(m: Server, n: Server) {
    && n.heap == m.heap && n.next == m.next && n.sessions == m.sessions && n.ipIndex == m.ipIndex
    && n.active == m.active && n.refused == m.refused && n.unpaid == m.unpaid && n.readers == m.readers
  }

  lemma OfferFrame(m: Server, pools: map<Family, Pool>, x: Ident)
    ensures OnlySetUp(m, Offer(m, pools, x))
  {
  }

  lemma FailedFrame(m: Server, id: ClientId)
    ensures OnlySetUp(m, FailedHandshake(m, id))
  {
  }

  /** Starting a handshake touches pools and shakes only. */
  lemma HandshakeFrame(cfg: Config, m: Server, key: bytes, want: map<Family, Addr>, lanes: nat)
    requires UsablePools(m)
    ensures OnlySetUp(m, StartHandshake(cfg, m, key, want, lanes))
  {
    var id := cfg.derive(key);
    match Authorize(cfg, key) {
      case None => FailedFrame(m, id);
      case Some(user) =>
        OfferFrame(m, AllocateAll(cfg, m.pools, user, id, want),
                   Ident(id, user, Answers(cfg, m.pools, user, id, want), lanes));
    }
  }

  lemma TouchLinks(m: Server, sid: Sid, t: Session)
    requires Linked(m) && sid in m.heap && SameIdentity(m.heap[sid], t)
    requires t.closed == m.heap[sid].closed || !Live(m, sid)
    ensures Linked(SetSession(m, sid, t))
  {
  }

  // ---------------------------------------------------------------- Rights

  lemma ReleaseRights(r: Rules, base: map<Family, Pool>, m: Server, id: ClientId)
    requires Rights(r, base, m)
    ensures Rights(r, base, m.(pools := ReleaseAll(m.pools, id)))
  {
    var q := ReleaseAll(m.pools, id);
    forall f | f in q ensures PoolRight(r, f, q[f]) {
      assert PoolRight(r, f, m.pools[f]);
    }
  }

  lemma CreateRights(cfg: Config, r: Rules, base: map<Family, Pool>, m: Server, x: Ident, now: int)
    requires Rights(r, base, m) && r.auth(x.id, x.user) && AddrsRight(r, base, x.id, x.addrs)
    ensures Rights(r, base, CreateSession(cfg, m, x, now))
  {
    var q := ClaimAll(m.pools, x.id, x.addrs);
    forall f | f in q ensures PoolRight(r, f, q[f]) {
      assert PoolRight(r, f, m.pools[f]);
    }
  }

  lemma TouchRights(r: Rules, base: map<Family, Pool>, m: Server, sid: Sid, t: Session)
    requires Rights(r, base, m) && sid in m.heap && SameIdentity(m.heap[sid], t)
    ensures Rights(r, base, SetSession(m, sid, t))
  {
  }

  /** Asked with this key, the allocator answers and records only what the rules allow. */
  ghost predicate AllocatorObeys(cfg: Config, r: Rules, base: map<Family, Pool>, key: bytes) {
    forall f, p: Pool, pref ::
      f in base && p.subnet == base[f].subnet && p.reserved == base[f].reserved && PoolRight(r, f, p) ==>
        AllocationRight(cfg, r, f, p, key, pref)
  }

  ghost predicate AllocationRight(cfg: Config, r: Rules, f: Family, p: Pool, key: bytes, pref: Addr) {
    && p.subnet.bits <= 128 && Authorize(cfg, key).Some?
    && var id, user := cfg.derive(key), Authorize(cfg, key).value;
       var q, a := Allocate(p, user, id, pref, cfg.db, cfg.hash), Answer(p, user, id, pref, cfg.db, cfg.hash);
       && q.subnet == p.subnet && q.reserved == p.reserved
       && r.auth(id, user) && PoolRight(r, f, q) && (a.Some? ==> r.right(f, id, a.value))
  }

  lemma AllocateRights(cfg: Config, r: Rules, base: map<Family, Pool>, pools: map<Family, Pool>, key: bytes, want: map<Family, Addr>)
    requires AllocatorObeys(cfg, r, base, key) && SamePlaces(base, pools) && Authorize(cfg, key).Some?
    requires forall f :: f in pools ==> pools[f].subnet.bits <= 128 && PoolRight(r, f, pools[f])
    ensures var user, id := Authorize(cfg, key).value, cfg.derive(key);
      && SamePlaces(base, AllocateAll(cfg, pools, user, id, want))
      && (forall f :: f in pools ==> PoolRight(r, f, AllocateAll(cfg, pools, user, id, want)[f]))
      && AddrsRight(r, base, id, Answers(cfg, pools, user, id, want))
      && (base != map[] ==> r.auth(id, user))
  {
    forall f | f in pools ensures AllocationRight(cfg, r, f, pools[f], key, Wanted(want, f)) {
    }
    if base != map[] {
      var f :| f in base;
      assert AllocationRight(cfg, r, f, pools[f], key, Wanted(want, f));
    }
  }

  lemma HandshakeRights(cfg: Config, r: Rules, base: map<Family, Pool>, m: Server, key: bytes, want: map<Family, Addr>, lanes: nat)
    requires Rights(r, base, m) && AllocatorObeys(cfg, r, base, key) && UsablePools(m) && Authorize(cfg, key).Some? && base != map[]
    ensures Rights(r, base, StartHandshake(cfg, m, key, want, lanes))
  {
    AllocateRights(cfg, r, base, m.pools, key, want);
  }

  // ---------------------------------------------------------------- Delivery

  lemma TouchDelivery(cfg: Config, m: Server, sid: Sid, t: Session)
    requires Delivery(cfg, m) && sid in m.heap && SameIdentity(m.heap[sid], t) && QueueOk(cfg, t)
    ensures Delivery(cfg, SetSession(m, sid, t))
  {
    var n := SetSession(m, sid, t);
    forall r | r in n.readers ensures ReaderOk(cfg, n, n.readers[r]) {
      assert ReaderOk(cfg, m, m.readers[r]);
    }
  }

  lemma CreateDelivery(cfg: Config, m: Server, x: Ident, now: int)
    requires Delivery(cfg, m) && m.next !in m.heap
    ensures Delivery(cfg, CreateSession(cfg, m, x, now))
  {
    var n := CreateSession(cfg, m, x, now);
    forall r | r in n.readers ensures ReaderOk(cfg, n, n.readers[r]) {
      assert ReaderOk(cfg, m, m.readers[r]);
    }
  }

  lemma RouteDelivery(cfg: Config, m: Server, r: nat, pkt: bytes)
    requires Delivery(cfg, m) && IndexOk(m) && cfg.dst(pkt).Some? && cfg.dst(pkt).value in m.ipIndex
    ensures Delivery(cfg, m.(readers := m.readers[r := (pkt, m.ipIndex[cfg.dst(pkt).value])]))
  {
    var n := m.(readers := m.readers[r := (pkt, m.ipIndex[cfg.dst(pkt).value])]);
    forall q | q in n.readers ensures ReaderOk(cfg, n, n.readers[q]) {
      if q != r {
        assert ReaderOk(cfg, m, m.readers[q]);
      }
    }
  }

  lemma EnqueueQueue(cfg: Config, s: Session, pkt: bytes, lost: bool)
    requires QueueOk(cfg, s) && Mine(cfg, s, pkt)
    ensures QueueOk(cfg, Enqueue(s, pkt, lost)) && SameIdentity(s, Enqueue(s, pkt, lost))
    ensures Enqueue(s, pkt, lost).closed == s.closed
  {
  }

  // ---------------------------------------------------------------- all of it, step by step

  ghost predicate Inv(cfg: Config, r: Rules, base: map<Family, Pool>, m: Server) {
    Rights(r, base, m) && Linked(m) && Delivery(cfg, m)
  }

  ghost predicate Given(cfg: Config, r: Rules, base: map<Family, Pool>, e: Event) {
    && base != map[] && (e.Handshake? && Authorize(cfg, e.key).Some? ==> AllocatorObeys(cfg, r, base, e.key))
    && forall f :: f in base ==> base[f].subnet.bits <= 128
  }

  lemma ReleaseKeeps(cfg: Config, r: Rules, base: map<Family, Pool>, m: Server, id: ClientId)
    requires Inv(cfg, r, base, m)
    ensures Inv(cfg, r, base, m.(pools := ReleaseAll(m.pools, id)))
  {
    ReleaseRights(r, base, m, id);
    SameDelivery(cfg, m, m.(pools := ReleaseAll(m.pools, id)));
  }

  lemma SameDelivery(cfg: Config, m: Server, n: Server)
    requires Delivery(cfg, m) && n.heap == m.heap && n.readers == m.readers
    ensures Delivery(cfg, n)
  {
    forall r | r in n.readers ensures ReaderOk(cfg, n, n.readers[r]) {
      assert ReaderOk(cfg, m, m.readers[r]);
    }
  }

  lemma TouchKeeps(cfg: Config, r: Rules, base: map<Family, Pool>, m: Server, sid: Sid, t: Session)
    requires Inv(cfg, r, base, m) && sid in m.heap && SameIdentity(m.heap[sid], t) && QueueOk(cfg, t)
    requires t.closed == m.heap[sid].closed || !Live(m, sid)
    ensures Inv(cfg, r, base, SetSession(m, sid, t))
  {
    TouchLinks(m, sid, t);
    TouchRights(r, base, m, sid, t);
    TouchDelivery(cfg, m, sid, t);
  }

  lemma FailedKeeps(cfg: Config, r: Rules, base: map<Family, Pool>, m: Server, id: ClientId)
    requires Inv(cfg, r, base, m)
    ensures Inv(cfg, r, base, FailedHandshake(m, id))
  {
    ReleaseKeeps(cfg, r, base, m, id);
  }

  lemma OfferShape(cfg: Config, m: Server, key: bytes, want: map<Family, Addr>, lanes: nat)
    requires UsablePools(m) && Linked(m) && Authorize(cfg, key).Some?
    ensures Linked(StartHandshake(cfg, m, key, want, lanes))
  {
    var id, user := cfg.derive(key), Authorize(cfg, key).value;
    OfferLinked(m, AllocateAll(cfg, m.pools, user, id, want), Ident(id, user, Answers(cfg, m.pools, user, id, want), lanes));
  }

  lemma OfferLinked(m: Server, pools: map<Family, Pool>, x: Ident)
    requires Linked(m)
    ensures Linked(Offer(m, pools, x))
  {
  }

  lemma HandshakeKeeps(cfg: Config, r: Rules, base: map<Family, Pool>, m: Server, key: bytes, want: map<Family, Addr>, lanes: nat)
    requires Given(cfg, r, base, Handshake(key, want, lanes)) && Inv(cfg, r, base, m) && UsablePools(m)
    ensures Inv(cfg, r, base, StartHandshake(cfg, m, key, want, lanes))
  {
    if Authorize(cfg, key).None? {
      FailedKeeps(cfg, r, base, m, cfg.derive(key));
    } else {
      HandshakeRights(cfg, r, base, m, key, want, lanes);
      HandshakeFrame(cfg, m, key, want, lanes);
      OfferShape(cfg, m, key, want, lanes);
      SameDelivery(cfg, m, StartHandshake(cfg, m, key, want, lanes));
    }
  }

  lemma DropShakeKeeps(cfg: Config, r: Rules, base: map<Family, Pool>, m: Server, h: nat)
    requires Inv(cfg, r, base, m)
    ensures Inv(cfg, r, base, Without(m, h))
  {
    SameDelivery(cfg, m, Without(m, h));
  }

  lemma FinishKeeps(cfg: Config, r: Rules, base: map<Family, Pool>, m: Server, x: Ident, now: int)
    requires Inv(cfg, r, base, m) && r.auth(x.id, x.user) && AddrsRight(r, base, x.id, x.addrs)
    ensures Inv(cfg, r, base, FinishHandshake(cfg, m, x, now))
  {
    if Assigned(m.pools, x.addrs) && x.id !in m.sessions {
      if QuotaRefuses(cfg, m, x.user) {
        SameDelivery(cfg, m, FinishHandshake(cfg, m, x, now));
      } else {
        CreateRights(cfg, r, base, m, x, now);
        CreateLinks(cfg, m, x, now);
        CreateDelivery(cfg, m, x, now);
      }
    }
  }

  lemma UnlinkKeeps(cfg: Config, r: Rules, base: map<Family, Pool>, m: Server, now: int)
    requires Inv(cfg, r, base, m)
    ensures Inv(cfg, r, base, Unlink(m, now))
  {
    UnlinkLinks(m, now);
    SameDelivery(cfg, m, Unlink(m, now));
  }

  lemma UnlinkAllKeeps(cfg: Config, r: Rules, base: map<Family, Pool>, m: Server)
    requires Inv(cfg, r, base, m)
    ensures Inv(cfg, r, base, UnlinkAll(m))
  {
    SameDelivery(cfg, m, UnlinkAll(m));
  }

  lemma CloseKeeps(cfg: Config, r: Rules, base: map<Family, Pool>, m: Server, sid: Sid)
    requires Inv(cfg, r, base, m) && Victim(m, sid)
    ensures Inv(cfg, r, base, CloseSession(m, sid))
  {
    var s := m.heap[sid];
    var n := SetSession(m, sid, s.(closed := true));
    assert QueueOk(cfg, s.(closed := true)) by { assert QueueOk(cfg, s); }
    TouchKeeps(cfg, r, base, m, sid, s.(closed := true));
    ReleaseKeeps(cfg, r, base, n, s.id);
    SameDelivery(cfg, n, CloseSession(m, sid));
  }

  lemma CloseStepKeeps(cfg: Config, r: Rules, base: map<Family, Pool>, m: Server, sid: Sid)
    requires Inv(cfg, r, base, m)
    ensures Inv(cfg, r, base, CloseStep(m, sid))
  {
    if Victim(m, sid) {
      CloseKeeps(cfg, r, base, m, sid);
    }
  }

  /** Everything but quotas is the same. */
  ghost predicate OnlyPaid(m: Server, n: Server) {
    && n.heap == m.heap && n.next == m.next && n.sessions == m.sessions && n.ipIndex == m.ipIndex && n.pools == m.pools
    && n.shakes == m.shakes && n.nextShake == m.nextShake && n.refused == m.refused && n.readers == m.readers
  }

  lemma PayFrame(cfg: Config, m: Server, sid: Sid)
    ensures OnlyPaid(m, PayStep(cfg, m, sid))
  {
  }

  lemma OnlyPaidKeeps(cfg: Config, r: Rules, base: map<Family, Pool>, m: Server, n: Server)
    requires Inv(cfg, r, base, m) && OnlyPaid(m, n)
    ensures Inv(cfg, r, base, n)
  {
    SameDelivery(cfg, m, n);
  }

  lemma PayStepKeeps(cfg: Config, r: Rules, base: map<Family, Pool>, m: Server, sid: Sid)
    requires Inv(cfg, r, base, m)
    ensures Inv(cfg, r, base, PayStep(cfg, m, sid))
  {
    PayFrame(cfg, m, sid);
    OnlyPaidKeeps(cfg, r, base, m, PayStep(cfg, m, sid));
  }

  // ---------------------------------------------------------------- data steps

  lemma LaneUpKeeps(cfg: Config, r: Rules, base: map<Family, Pool>, m: Server, sid: Sid, now: int)
    requires Inv(cfg, r, base, m)
    ensures Inv(cfg, r, base, LaneUpStep(m, sid, now))
  {
    if sid in m.heap {
      assert QueueOk(cfg, m.heap[sid]);
      TouchKeeps(cfg, r, base, m, sid, LaneStarted(m.heap[sid], now));
    }
  }

  lemma LaneDownKeeps(cfg: Config, r: Rules, base: map<Family, Pool>, m: Server, sid: Sid, now: int)
    requires Inv(cfg, r, base, m)
    ensures Inv(cfg, r, base, LaneDownStep(m, sid, now))
  {
    if sid in m.heap {
      assert QueueOk(cfg, m.heap[sid]);
      TouchKeeps(cfg, r, base, m, sid, LaneEnded(m.heap[sid], now));
    }
  }

  lemma PopKeeps(cfg: Config, r: Rules, base: map<Family, Pool>, m: Server, sid: Sid)
    requires Inv(cfg, r, base, m)
    ensures Inv(cfg, r, base, PopStep(m, sid))
  {
    if sid in m.heap {
      assert QueueOk(cfg, m.heap[sid]);
      TouchKeeps(cfg, r, base, m, sid, Popped(m.heap[sid]));
    }
  }

  lemma RouteKeeps(cfg: Config, r: Rules, base: map<Family, Pool>, m: Server, rd: nat, pkt: bytes)
    requires Inv(cfg, r, base, m)
    ensures Inv(cfg, r, base, RouteStep(cfg, m, rd, pkt))
  {
    if cfg.dst(pkt).Some? && cfg.dst(pkt).value in m.ipIndex {
      RouteDelivery(cfg, m, rd, pkt);
    }
  }

  lemma PushKeeps(cfg: Config, r: Rules, base: map<Family, Pool>, m: Server, rd: nat, lost: bool)
    requires Inv(cfg, r, base, m)
    ensures Inv(cfg, r, base, PushStep(m, rd, lost))
  {
    if rd in m.readers {
      assert ReaderOk(cfg, m, m.readers[rd]);
      var pkt, sid := m.readers[rd].0, m.readers[rd].1;
      ReaderGone(cfg, m, rd);
      EnqueueQueue(cfg, m.heap[sid], pkt, lost);
      TouchKeeps(cfg, r, base, m.(readers := m.readers - {rd}), sid, Enqueue(m.heap[sid], pkt, lost));
    }
  }

  lemma DataKeeps(cfg: Config, r: Rules, base: map<Family, Pool>, m: Server, e: Event)
    requires Inv(cfg, r, base, m) && UsablePools(m) && DataEvent(e)
    ensures Inv(cfg, r, base, Step(cfg, m, e))
  {
    DataStepIs(cfg, m, e);
    StepIs(cfg, m, e);
    match e {
      case LaneUp(sid, now) => LaneUpKeeps(cfg, r, base, m, sid, now);
      case LaneDown(sid, now) => LaneDownKeeps(cfg, r, base, m, sid, now);
      case Pop(sid) => PopKeeps(cfg, r, base, m, sid);
      case Route(rd, pkt) => RouteKeeps(cfg, r, base, m, rd, pkt);
      case Push(rd, lost) => PushKeeps(cfg, r, base, m, rd, lost);
    }
  }

  lemma ReaderGone(cfg: Config, m: Server, rd: nat)
    requires Delivery(cfg, m)
    ensures Delivery(cfg, m.(readers := m.readers - {rd}))
  {
    var n := m.(readers := m.readers - {rd});
    forall q | q in n.readers ensures ReaderOk(cfg, n, n.readers[q]) {
      assert ReaderOk(cfg, m, m.readers[q]);
    }
  }

  // ---------------------------------------------------------------- any step

  lemma AbortStepKeeps(cfg: Config, r: Rules, base: map<Family, Pool>, m: Server, h: nat)
    requires Inv(cfg, r, base, m)
    ensures Inv(cfg, r, base, AbortStep(m, h))
  {
    if h in m.shakes {
      DropShakeKeeps(cfg, r, base, m, h);
      FailedKeeps(cfg, r, base, Without(m, h), m.shakes[h].id);
    }
  }

  lemma FinishStepKeeps(cfg: Config, r: Rules, base: map<Family, Pool>, m: Server, h: nat, now: int)
    requires Inv(cfg, r, base, m)
    ensures Inv(cfg, r, base, FinishStep(cfg, m, h, now))
  {
    if h in m.shakes {
      DropShakeKeeps(cfg, r, base, m, h);
      FinishKeeps(cfg, r, base, Without(m, h), m.shakes[h], now);
    }
  }

  lemma RefusedStepKeeps(cfg: Config, r: Rules, base: map<Family, Pool>, m: Server, id: ClientId)
    requires Inv(cfg, r, base, m)
    ensures Inv(cfg, r, base, RefusedStep(m, id))
  {
    var n := m.(refused := m.refused - multiset{id});
    SameDelivery(cfg, m, n);
    ReleaseKeeps(cfg, r, base, n, id);
  }

  lemma SetUpKeeps(cfg: Config, r: Rules, base: map<Family, Pool>, m: Server, e: Event)
    requires Given(cfg, r, base, e) && Inv(cfg, r, base, m) && UsablePools(m)
    requires SetUpEvent(e)
    ensures Inv(cfg, r, base, Step(cfg, m, e))
  {
    StepIs(cfg, m, e);
    match e {
      case Handshake(key, want, lanes) => HandshakeKeeps(cfg, r, base, m, key, want, lanes);
      case Reject(key) => FailedKeeps(cfg, r, base, m, cfg.derive(key));
      case Abort(h) => AbortStepKeeps(cfg, r, base, m, h);
      case Finish(h, now) => FinishStepKeeps(cfg, r, base, m, h, now);
    }
  }

  lemma SweepKeeps(cfg: Config, r: Rules, base: map<Family, Pool>, m: Server, e: Event)
    requires Inv(cfg, r, base, m) && UsablePools(m)
    requires SweepEvent(e)
    ensures Inv(cfg, r, base, Step(cfg, m, e))
  {
    StepIs(cfg, m, e);
    match e {
      case ReleaseRefused(id) => RefusedStepKeeps(cfg, r, base, m, id);
      case Collect(now) => UnlinkKeeps(cfg, r, base, m, now);
      case CollectAll => UnlinkAllKeeps(cfg, r, base, m);
      case Close(sid) => CloseStepKeeps(cfg, r, base, m, sid);
      case Pay(sid) => PayStepKeeps(cfg, r, base, m, sid);
    }
  }

  /** Rights only grow. */
  lemma RightsGrow(r: Rules, r': Rules, base: map<Family, Pool>, m: Server)
    requires Rights(r, base, m)
    requires (forall id, u :: r.auth(id, u) ==> r'.auth(id, u)) && forall f, id, a :: r.right(f, id, a) ==> r'.right(f, id, a)
    ensures Rights(r', base, m)
  {
    forall f | f in m.pools ensures PoolRight(r', f, m.pools[f]) {
      assert PoolRight(r, f, m.pools[f]);
    }
    forall h | h in m.shakes ensures AddrsRight(r', base, m.shakes[h].id, m.shakes[h].addrs) {
      assert AddrsRight(r, base, m.shakes[h].id, m.shakes[h].addrs);
    }
    forall sid | sid in m.heap ensures AddrsRight(r', base, m.heap[sid].id, m.heap[sid].addrs) {
      assert AddrsRight(r, base, m.heap[sid].id, m.heap[sid].addrs);
    }
  }

  lemma StepKeeps(cfg: Config, r: Rules, base: map<Family, Pool>, m: Server, e: Event)
    requires Given(cfg, r, base, e) && Inv(cfg, r, base, m) && UsablePools(m)
    ensures Inv(cfg, r, base, Step(cfg, m, e))
  {
    if SetUpEvent(e) {
      SetUpKeeps(cfg, r, base, m, e);
    } else if SweepEvent(e) {
      SweepKeeps(cfg, r, base, m, e);
    } else {
      DataKeeps(cfg, r, base, m, e);
    }
  }
}
