/** Exactly when the set-ups of several connections may interleave: addresses stay unique, pools
    sound and the index exact as long as no release robs a client that is live or being set up. */
module ControlPending {
  import opened Bytes
  import opened Addr
  import opened Users
  import opened AddrPool
  import opened Control
  import opened ControlSafety
  import opened ControlRuns
  import opened ControlSticky

  /** What every pending handshake was offered is still on record for its client. */
  ghost predicate Promised(m: Server) {
    forall h :: h in m.shakes ==> Recorded(m.pools, m.shakes[h].id, m.shakes[h].addrs)
  }

  /** The client has a handshake under way that was offered addresses. */
  ghost predicate Pending(m: Server, id: ClientId) {
    exists h :: h in m.shakes && m.shakes[h].id == id && m.shakes[h].addrs != map[]
  }

  /** A failed handshake of this client releases its addresses. */
  predicate Orphan(m: Server, id: ClientId) {
    id != ZERO_ID && id !in m.sessions
  }

  /** A release that takes effect, of a client with another handshake under way. */
  ghost predicate Robs(cfg: Config, m: Server, e: Event) {
    match e
    case Handshake(key, _, _) =>
      Authorize(cfg, key).None? && Orphan(m, cfg.derive(key)) && Pending(m, cfg.derive(key))
    case Reject(key) => Orphan(m, cfg.derive(key)) && Pending(m, cfg.derive(key))
    case Abort(h) =>
      h in m.shakes && Orphan(m, m.shakes[h].id) && Pending(Without(m, h), m.shakes[h].id)
    case ReleaseRefused(id) => id in m.refused && Pending(m, id)
    case Close(sid) => Victim(m, sid) && Pending(m, m.heap[sid].id)
    case _ => false
  }

  // ---------------------------------------------------------------- exactly which steps break a promise

  /** A change of pools that takes nobody's record breaks no promise. */
  lemma PoolsPromise(m: Server, q: map<Family, Pool>)
    requires Promised(m) && m.pools.Keys == q.Keys
    requires forall f, j :: f in m.pools && j in m.pools[f].byClient ==>
               j in q[f].byClient && q[f].byClient[j] == m.pools[f].byClient[j]
    ensures Promised(m.(pools := q))
  {
    forall h | h in m.shakes ensures Recorded(q, m.shakes[h].id, m.shakes[h].addrs) {
      OthersRecorded(m.pools, q, m.shakes[h].id, m.shakes[h].addrs);
    }
  }

  lemma ReleasePromiseIff(m: Server, id: ClientId)
    requires Promised(m)
    ensures Promised(m.(pools := ReleaseAll(m.pools, id))) <==> !Pending(m, id)
  {
    var q := ReleaseAll(m.pools, id);
    var n := m.(pools := q);
    if Pending(m, id) {
      var h :| h in m.shakes && m.shakes[h].id == id && m.shakes[h].addrs != map[];
      var f :| f in m.shakes[h].addrs;
      assert Recorded(m.pools, id, m.shakes[h].addrs);
      assert id !in q[f].byClient;
      assert !Recorded(n.pools, id, n.shakes[h].addrs);
    } else {
      forall h | h in m.shakes ensures Recorded(q, m.shakes[h].id, m.shakes[h].addrs) {
        assert Recorded(m.pools, m.shakes[h].id, m.shakes[h].addrs);
      }
    }
  }

  lemma FailedPromiseIff(m: Server, id: ClientId)
    requires Promised(m)
    ensures Promised(FailedHandshake(m, id)) <==> !(Orphan(m, id) && Pending(m, id))
  {
    ReleasePromiseIff(m, id);
  }

  /** Allocation keeps every record and answers with what is then on record. */
  lemma AllocateTells(cfg: Config, pools: map<Family, Pool>, user: string, id: ClientId, want: map<Family, Addr>)
    requires forall f :: f in pools ==> pools[f].subnet.bits <= 128
    ensures var q := AllocateAll(cfg, pools, user, id, want); var addrs := Answers(cfg, pools, user, id, want);
      && (forall f :: f in addrs <==> f in q && id in q[f].byClient) && Recorded(q, id, addrs)
      && (forall f, j :: f in pools && j in pools[f].byClient ==>
            j in q[f].byClient && q[f].byClient[j] == pools[f].byClient[j])
      && (forall f, j :: f in q && j != id && j in q[f].byClient ==> j in pools[f].byClient)
  {
    forall f | f in pools {
      AllocateTellsOne(pools[f], user, id, Wanted(want, f), cfg.db, cfg.hash);
    }
  }

  lemma AllocateTellsOne(p: Pool, user: string, id: ClientId, pref: Addr, db: Option<UserDb>, hash: Hash)
    requires p.subnet.bits <= 128
    ensures var q, a := Allocate(p, user, id, pref, db, hash), Answer(p, user, id, pref, db, hash);
      && (a.Some? <==> id in q.byClient) && (a.Some? ==> q.byClient[id] == a.value)
      && (forall j :: j in p.byClient ==> j in q.byClient && q.byClient[j] == p.byClient[j])
      && (forall j :: j != id && j in q.byClient ==> j in p.byClient)
  {
  }

  lemma OfferPromised(m: Server, q: map<Family, Pool>, x: Ident)
    requires Promised(m) && m.pools.Keys == q.Keys && Recorded(q, x.id, x.addrs)
    requires forall f, j :: f in m.pools && j in m.pools[f].byClient ==>
               j in q[f].byClient && q[f].byClient[j] == m.pools[f].byClient[j]
    ensures Promised(Offer(m, q, x))
  {
    PoolsPromise(m, q);
    var n := Offer(m, q, x);
    forall h | h in n.shakes ensures Recorded(n.pools, n.shakes[h].id, n.shakes[h].addrs) {
      assert h == m.nextShake || m.(pools := q).shakes[h] == n.shakes[h];
    }
  }

  lemma HandshakePromiseIff(cfg: Config, m: Server, key: bytes, want: map<Family, Addr>, lanes: nat)
    requires Promised(m) && UsablePools(m)
    ensures Promised(StartHandshake(cfg, m, key, want, lanes)) <==> !Robs(cfg, m, Handshake(key, want, lanes))
  {
    var id := cfg.derive(key);
    match Authorize(cfg, key)
    case None => FailedPromiseIff(m, id);
    case Some(user) =>
      AllocateTells(cfg, m.pools, user, id, want);
      OfferPromised(m, AllocateAll(cfg, m.pools, user, id, want),
                    Ident(id, user, Answers(cfg, m.pools, user, id, want), lanes));
  }

  /** Claiming what is already on record leaves every record alone. */
  lemma ClaimIsIdle(pools: map<Family, Pool>, x: Ident)
    requires Recorded(pools, x.id, x.addrs)
    ensures var q := ClaimAll(pools, x.id, x.addrs);
      q.Keys == pools.Keys && forall f :: f in pools ==> q[f].byClient == pools[f].byClient && q[f].subnet == pools[f].subnet
  {
  }

  lemma FinishPromised(cfg: Config, m: Server, x: Ident, now: int)
    requires Promised(m) && Recorded(m.pools, x.id, x.addrs)
    ensures Promised(FinishHandshake(cfg, m, x, now))
  {
    ClaimIsIdle(m.pools, x);
    PoolsPromise(m, ClaimAll(m.pools, x.id, x.addrs));
    var k := m.(pools := ClaimAll(m.pools, x.id, x.addrs));
    var n := FinishHandshake(cfg, m, x, now);
    forall h | h in n.shakes ensures Recorded(n.pools, n.shakes[h].id, n.shakes[h].addrs) {
      assert Recorded(m.pools, m.shakes[h].id, m.shakes[h].addrs);
      assert Recorded(k.pools, k.shakes[h].id, k.shakes[h].addrs);
    }
  }

  lemma DropPromised(m: Server, h: nat)
    requires Promised(m)
    ensures Promised(Without(m, h))
    ensures h in m.shakes ==> Recorded(m.pools, m.shakes[h].id, m.shakes[h].addrs)
  {
    var n := Without(m, h);
    forall k | k in n.shakes ensures Recorded(n.pools, n.shakes[k].id, n.shakes[k].addrs) {
      assert k in m.shakes;
    }
  }

  lemma SamePromises(m: Server, n: Server)
    requires n.shakes == m.shakes && n.pools == m.pools
    ensures Promised(n) <==> Promised(m)
  {
  }

  lemma ClosePromiseIff(cfg: Config, m: Server, sid: Sid)
    requires Promised(m)
    ensures Promised(CloseStep(m, sid)) <==> !Robs(cfg, m, Close(sid))
  {
    if Victim(m, sid) {
      ReleasePromiseIff(m, m.heap[sid].id);
      SamePromises(m.(pools := ReleaseAll(m.pools, m.heap[sid].id)), CloseSession(m, sid));
    }
  }

  lemma RefusedPromiseIff(cfg: Config, m: Server, id: ClientId)
    requires Promised(m)
    ensures Promised(RefusedStep(m, id)) <==> !Robs(cfg, m, ReleaseRefused(id))
  {
    if id in m.refused {
      ReleasePromiseIff(m, id);
      SamePromises(m.(pools := ReleaseAll(m.pools, id)), RefusedStep(m, id));
    }
  }

  lemma AbortPromiseIff(cfg: Config, m: Server, h: nat)
    requires Promised(m)
    ensures Promised(AbortStep(m, h)) <==> !Robs(cfg, m, Abort(h))
  {
    DropPromised(m, h);
    if h in m.shakes {
      FailedPromiseIff(Without(m, h), m.shakes[h].id);
    }
  }

  lemma FinishStepPromised(cfg: Config, m: Server, h: nat, now: int)
    requires Promised(m)
    ensures Promised(FinishStep(cfg, m, h, now))
  {
    DropPromised(m, h);
    if h in m.shakes {
      FinishPromised(cfg, Without(m, h), m.shakes[h], now);
    }
  }

  lemma PayPromised(cfg: Config, m: Server, sid: Sid)
    requires Promised(m)
    ensures Promised(PayStep(cfg, m, sid))
  {
    PayFrame(cfg, m, sid);
    SamePromises(m, PayStep(cfg, m, sid));
  }

  lemma DataPromised(cfg: Config, m: Server, e: Event)
    requires Promised(m) && DataEvent(e)
    ensures Promised(DataStep(cfg, m, e))
  {
    DataFrame(cfg, m, e);
    SamePromises(m, DataStep(cfg, m, e));
  }

  lemma UnlinkPromised(m: Server, now: int)
    requires Promised(m)
    ensures Promised(Unlink(m, now)) && Promised(UnlinkAll(m))
  {
    SamePromises(m, Unlink(m, now));
    SamePromises(m, UnlinkAll(m));
  }

  /** Exactly which steps take an address from a client being set up: a release that takes effect
      while the client has another handshake under way; and no other. */
  lemma PromisedIff(cfg: Config, m: Server, e: Event)
    requires Promised(m) && UsablePools(m)
    ensures Promised(Step(cfg, m, e)) <==> !Robs(cfg, m, e)
  {
    StepIs(cfg, m, e);
    match e {
      case Handshake(key, want, lanes) => HandshakePromiseIff(cfg, m, key, want, lanes);
      case Reject(key) => FailedPromiseIff(m, cfg.derive(key));
      case Abort(h) => AbortPromiseIff(cfg, m, h);
      case Finish(h, now) => FinishStepPromised(cfg, m, h, now);
      case ReleaseRefused(id) => RefusedPromiseIff(cfg, m, id);
      case Close(sid) => ClosePromiseIff(cfg, m, sid);
      case Collect(now) => UnlinkPromised(m, now);
      case CollectAll => UnlinkPromised(m, 0);
      case Pay(sid) => PayPromised(cfg, m, sid);
      case _ => DataPromised(cfg, m, e);
    }
  }

  // ---------------------------------------------------------------- pools stay sound

  ghost predicate SoundPools(pools: map<Family, Pool>) {
    forall f :: f in pools ==> PoolOk(pools[f]) && pools[f].subnet.family == f
  }

  lemma ReleaseSound(pools: map<Family, Pool>, id: ClientId)
    requires SoundPools(pools)
    ensures SoundPools(ReleaseAll(pools, id))
  {
    forall f | f in pools {
      AddrPool.ReleaseKeeps(pools[f], id);
    }
  }

  lemma ClaimSound(pools: map<Family, Pool>, x: Ident)
    requires SoundPools(pools) && Recorded(pools, x.id, x.addrs)
    ensures SoundPools(ClaimAll(pools, x.id, x.addrs))
  {
    forall f | f in pools && f in x.addrs {
      RecordKeeps(pools[f], x.id, x.addrs[f]);
    }
  }

  lemma AllocateSound(cfg: Config, pools: map<Family, Pool>, user: string, id: ClientId, want: map<Family, Addr>)
    requires SoundPools(pools) && forall f :: f in pools ==> pools[f].subnet.bits <= 128
    ensures SoundPools(AllocateAll(cfg, pools, user, id, want))
  {
    forall f | f in pools {
      AllocateKeeps(pools[f], user, id, Wanted(want, f), cfg.db, cfg.hash);
    }
  }

  lemma FailedSound(m: Server, id: ClientId)
    requires SoundPools(m.pools)
    ensures SoundPools(FailedHandshake(m, id).pools)
  {
    ReleaseSound(m.pools, id);
  }

  lemma HandshakeSound(cfg: Config, m: Server, key: bytes, want: map<Family, Addr>, lanes: nat)
    requires SoundPools(m.pools) && UsablePools(m)
    ensures SoundPools(StartHandshake(cfg, m, key, want, lanes).pools)
  {
    FailedSound(m, cfg.derive(key));
    if Authorize(cfg, key).Some? {
      AllocateSound(cfg, m.pools, Authorize(cfg, key).value, cfg.derive(key), want);
    }
  }

  lemma FinishSound(cfg: Config, m: Server, x: Ident, now: int)
    requires SoundPools(m.pools) && Recorded(m.pools, x.id, x.addrs)
    ensures SoundPools(FinishHandshake(cfg, m, x, now).pools)
  {
    ClaimSound(m.pools, x);
  }

  lemma FinishStepSound(cfg: Config, m: Server, h: nat, now: int)
    requires SoundPools(m.pools) && Promised(m)
    ensures SoundPools(FinishStep(cfg, m, h, now).pools)
  {
    if h in m.shakes {
      FinishSound(cfg, Without(m, h), m.shakes[h], now);
    }
  }

  lemma AbortSound(m: Server, h: nat)
    requires SoundPools(m.pools)
    ensures SoundPools(AbortStep(m, h).pools)
  {
    if h in m.shakes {
      FailedSound(Without(m, h), m.shakes[h].id);
    }
  }

  lemma RefusedSound(m: Server, id: ClientId)
    requires SoundPools(m.pools)
    ensures SoundPools(RefusedStep(m, id).pools)
  {
    ReleaseSound(m.pools, id);
  }

  lemma CloseSound(m: Server, sid: Sid)
    requires SoundPools(m.pools)
    ensures SoundPools(CloseStep(m, sid).pools)
  {
    if Victim(m, sid) {
      ReleaseSound(m.pools, m.heap[sid].id);
    }
  }

  lemma SetUpSound(cfg: Config, m: Server, e: Event)
    requires SoundPools(m.pools) && Promised(m) && UsablePools(m) && SetUpEvent(e)
    ensures SoundPools(Step(cfg, m, e).pools)
  {
    StepIs(cfg, m, e);
    match e {
      case Handshake(key, want, lanes) => HandshakeSound(cfg, m, key, want, lanes);
      case Reject(key) => FailedSound(m, cfg.derive(key));
      case Abort(h) => AbortSound(m, h);
      case Finish(h, now) => FinishStepSound(cfg, m, h, now);
    }
  }

  lemma SweepSound(cfg: Config, m: Server, e: Event)
    requires SoundPools(m.pools) && UsablePools(m) && SweepEvent(e)
    ensures SoundPools(Step(cfg, m, e).pools)
  {
    StepIs(cfg, m, e);
    match e {
      case ReleaseRefused(id) => RefusedSound(m, id);
      case Collect(now) =>
      case CollectAll =>
      case Close(sid) => CloseSound(m, sid);
      case Pay(sid) => PayFrame(cfg, m, sid);
    }
  }

  lemma StepSound(cfg: Config, m: Server, e: Event)
    requires SoundPools(m.pools) && Promised(m) && UsablePools(m)
    ensures SoundPools(Step(cfg, m, e).pools)
  {
    if SetUpEvent(e) {
      SetUpSound(cfg, m, e);
    } else if SweepEvent(e) {
      SweepSound(cfg, m, e);
    } else {
      StepIs(cfg, m, e);
      DataFrame(cfg, m, e);
    }
  }

  // ---------------------------------------------------------------- no address is shared

  /** The address is on record for this client. */
  ghost predicate OnRecord(pools: map<Family, Pool>, id: ClientId, a: Addr) {
    exists f :: f in pools && a.Is(f) && id in pools[f].byClient && pools[f].byClient[id] == a
  }

  lemma RecordedIsOnRecord(pools: map<Family, Pool>, id: ClientId, addrs: map<Family, Addr>, a: Addr)
    requires SoundPools(pools) && Recorded(pools, id, addrs) && Among(addrs, a)
    ensures OnRecord(pools, id, a)
  {
    var f :| f in addrs && addrs[f] == a;
    assert PoolOk(pools[f]);
  }

  /** Two records of one address are one client's. */
  lemma OnRecordOnce(pools: map<Family, Pool>, i: ClientId, j: ClientId, a: Addr)
    requires SoundPools(pools) && OnRecord(pools, i, a) && OnRecord(pools, j, a)
    ensures i == j
  {
    var f :| f in pools && a.Is(f) && i in pools[f].byClient && pools[f].byClient[i] == a;
    assert PoolOk(pools[f]);
  }

  lemma HeldIsOnRecord(m: Server, sid: Sid, a: Addr)
    requires Sticky(m) && SoundPools(m.pools) && Live(m, sid) && Holds(m.heap[sid], a)
    ensures OnRecord(m.pools, m.heap[sid].id, a)
  {
    RecordedIsOnRecord(m.pools, m.heap[sid].id, m.heap[sid].addrs, a);
  }

  ghost predicate Unique(m: Server) {
    forall s, t, a :: Live(m, s) && Live(m, t) && Holds(m.heap[s], a) && Holds(m.heap[t], a) ==> s == t
  }

  lemma RecordsMakeUnique(m: Server)
    requires Sticky(m) && SoundPools(m.pools)
    ensures Unique(m)
  {
    forall s, t, a | Live(m, s) && Live(m, t) && Holds(m.heap[s], a) && Holds(m.heap[t], a) ensures s == t {
      HeldIsOnRecord(m, s, a);
      HeldIsOnRecord(m, t, a);
      OnRecordOnce(m.pools, m.heap[s].id, m.heap[t].id, a);
    }
  }

  // ---------------------------------------------------------------- the index is exact

  /** The index has every address of every live session. */
  ghost predicate IndexFull(m: Server) {
    forall sid, a :: Live(m, sid) && Holds(m.heap[sid], a) ==> a in m.ipIndex && m.ipIndex[a] == sid
  }

  ghost predicate IndexExact(m: Server) {
    forall a, sid :: (a in m.ipIndex && m.ipIndex[a] == sid) <==> (Live(m, sid) && Holds(m.heap[sid], a))
  }

  lemma FullIsExact(m: Server)
    requires IndexOk(m) && IndexFull(m)
    ensures IndexExact(m)
  {
  }

  lemma SameIndex(m: Server, n: Server)
    requires IndexFull(m) && SameAddresses(m.heap, n.heap) && n.sessions == m.sessions && n.ipIndex == m.ipIndex
    ensures IndexFull(n)
  {
    forall sid, a | Live(n, sid) && Holds(n.heap[sid], a) ensures a in n.ipIndex && n.ipIndex[a] == sid {
      assert Live(m, sid) && Holds(m.heap[sid], a);
    }
  }

  ghost predicate SameAddresses(heap: map<Sid, Session>, heap': map<Sid, Session>) {
    heap.Keys == heap'.Keys && forall sid :: sid in heap ==> SameIdentity(heap[sid], heap'[sid])
  }

  /** An address promised to a client without a session belongs to no session. */
  lemma NotPromisedTwice(m: Server, x: Ident, sid: Sid, a: Addr)
    requires Shape(m) && Sticky(m) && SoundPools(m.pools) && Recorded(m.pools, x.id, x.addrs) && x.id !in m.sessions
    requires Live(m, sid) && Holds(m.heap[sid], a)
    ensures !Among(x.addrs, a)
  {
    if Among(x.addrs, a) {
      HeldIsOnRecord(m, sid, a);
      RecordedIsOnRecord(m.pools, x.id, x.addrs, a);
      OnRecordOnce(m.pools, x.id, m.heap[sid].id, a);
    }
  }

  lemma CreatedIndex(cfg: Config, m: Server, x: Ident, now: int)
    requires Shape(m) && IndexFull(m) && x.id !in m.sessions
    requires forall sid, a :: Live(m, sid) && Holds(m.heap[sid], a) ==> !Among(x.addrs, a)
    ensures IndexFull(CreateSession(cfg, m, x, now))
  {
    var n := CreateSession(cfg, m, x, now);
    forall sid, a | Live(n, sid) && Holds(n.heap[sid], a) ensures a in n.ipIndex && n.ipIndex[a] == sid {
      IndexAddAt(m.ipIndex, x.addrs, m.next, a);
      if sid == m.next {
        assert n.heap[sid] == NewSession(x, now) && Among(x.addrs, a);
      } else {
        assert n.heap[sid] == m.heap[sid] && Live(m, sid);
        assert !Among(x.addrs, a) && a in m.ipIndex && m.ipIndex[a] == sid;
      }
    }
  }

  lemma SeatIndex(cfg: Config, m: Server, x: Ident, now: int)
    requires Shape(m) && Sticky(m) && SoundPools(m.pools) && IndexFull(m) && Recorded(m.pools, x.id, x.addrs)
    requires x.id !in m.sessions
    ensures IndexFull(CreateSession(cfg, m, x, now))
  {
    forall sid, a | Live(m, sid) && Holds(m.heap[sid], a) ensures !Among(x.addrs, a) {
      NotPromisedTwice(m, x, sid, a);
    }
    CreatedIndex(cfg, m, x, now);
  }

  lemma UnseatedFrame(cfg: Config, m: Server, x: Ident, now: int)
    requires !Seats(cfg, m, x)
    ensures var n := FinishHandshake(cfg, m, x, now);
      n.heap == m.heap && n.sessions == m.sessions && n.ipIndex == m.ipIndex && n.pools == m.pools
  {
  }

  lemma FinishIndex(cfg: Config, m: Server, x: Ident, now: int)
    requires Shape(m) && Sticky(m) && SoundPools(m.pools) && IndexFull(m) && Recorded(m.pools, x.id, x.addrs)
    ensures IndexFull(FinishHandshake(cfg, m, x, now))
  {
    if Seats(cfg, m, x) {
      SeatIndex(cfg, m, x, now);
    } else {
      UnseatedFrame(cfg, m, x, now);
      SameIndex(m, FinishHandshake(cfg, m, x, now));
    }
  }

  lemma NotDropped(m: Server, now: int, sid: Sid, a: Addr)
    requires Sticky(m) && SoundPools(m.pools)
    requires Live(m, sid) && Holds(m.heap[sid], a) && !Due(m, m.heap[sid].id, now) && Shape(m)
    ensures !Dropping(m, a, now)
  {
    RecordsMakeUnique(m);
    if Dropping(m, a, now) {
      var id :| Due(m, id, now) && Holds(m.heap[m.sessions[id]], a);
      assert Live(m, m.sessions[id]);
    }
  }

  lemma UnlinkedIndex(m: Server, now: int)
    requires IndexFull(m)
    requires forall sid, a :: Live(m, sid) && Holds(m.heap[sid], a) && !Due(m, m.heap[sid].id, now) ==> !Dropping(m, a, now)
    ensures IndexFull(Unlink(m, now))
  {
    var n := Unlink(m, now);
    forall sid, a | Live(n, sid) && Holds(n.heap[sid], a) ensures a in n.ipIndex && n.ipIndex[a] == sid {
      assert Live(m, sid) && Holds(m.heap[sid], a) && !Due(m, m.heap[sid].id, now);
    }
  }

  lemma UnlinkIndex(m: Server, now: int)
    requires Shape(m) && Sticky(m) && SoundPools(m.pools) && IndexFull(m)
    ensures IndexFull(Unlink(m, now))
  {
    forall sid, a | Live(m, sid) && Holds(m.heap[sid], a) && !Due(m, m.heap[sid].id, now) ensures !Dropping(m, a, now) {
      NotDropped(m, now, sid, a);
    }
    UnlinkedIndex(m, now);
  }

  lemma FinishStepIndex(cfg: Config, m: Server, h: nat, now: int)
    requires Shape(m) && Sticky(m) && SoundPools(m.pools) && Promised(m) && IndexFull(m)
    ensures IndexFull(FinishStep(cfg, m, h, now))
  {
    if h in m.shakes {
      var k := Without(m, h);
      SameIndex(m, k);
      SameSticks(m, k);
      assert Shape(k);
      FinishIndex(cfg, k, m.shakes[h], now);
    }
  }

  lemma FailedIndex(m: Server, id: ClientId)
    requires IndexFull(m)
    ensures IndexFull(FailedHandshake(m, id))
  {
    FailedFrame(m, id);
    SameIndex(m, FailedHandshake(m, id));
  }

  lemma AbortIndex(m: Server, h: nat)
    requires IndexFull(m)
    ensures IndexFull(AbortStep(m, h))
  {
    if h in m.shakes {
      SameIndex(m, Without(m, h));
      FailedIndex(Without(m, h), m.shakes[h].id);
    }
  }

  lemma HandshakeIndex(cfg: Config, m: Server, key: bytes, want: map<Family, Addr>, lanes: nat)
    requires IndexFull(m) && UsablePools(m)
    ensures IndexFull(StartHandshake(cfg, m, key, want, lanes))
  {
    HandshakeFrame(cfg, m, key, want, lanes);
    SameIndex(m, StartHandshake(cfg, m, key, want, lanes));
  }

  lemma SetUpIndex(cfg: Config, m: Server, e: Event)
    requires Shape(m) && Sticky(m) && SoundPools(m.pools) && Promised(m) && IndexFull(m) && UsablePools(m)
    requires SetUpEvent(e)
    ensures IndexFull(Step(cfg, m, e))
  {
    StepIs(cfg, m, e);
    match e {
      case Handshake(key, want, lanes) => HandshakeIndex(cfg, m, key, want, lanes);
      case Reject(key) => FailedIndex(m, cfg.derive(key));
      case Abort(h) => AbortIndex(m, h);
      case Finish(h, now) => FinishStepIndex(cfg, m, h, now);
    }
  }

  lemma CloseIndex(m: Server, sid: Sid)
    requires IndexFull(m)
    ensures IndexFull(CloseStep(m, sid))
  {
    if Victim(m, sid) {
      SameIndex(m, CloseSession(m, sid));
    }
  }

  lemma RefusedIndex(m: Server, id: ClientId)
    requires IndexFull(m)
    ensures IndexFull(RefusedStep(m, id))
  {
    if id in m.refused {
      SameIndex(m, RefusedStep(m, id));
    }
  }

  lemma PayIndex(cfg: Config, m: Server, sid: Sid)
    requires IndexFull(m)
    ensures IndexFull(PayStep(cfg, m, sid))
  {
    PayFrame(cfg, m, sid);
    SameIndex(m, PayStep(cfg, m, sid));
  }

  lemma UnlinkAllIndex(m: Server)
    ensures IndexFull(UnlinkAll(m))
  {
  }

  lemma SweepIndex(cfg: Config, m: Server, e: Event)
    requires Shape(m) && Sticky(m) && SoundPools(m.pools) && IndexFull(m) && UsablePools(m)
    requires SweepEvent(e)
    ensures IndexFull(Step(cfg, m, e))
  {
    StepIs(cfg, m, e);
    match e {
      case Collect(now) => UnlinkIndex(m, now);
      case CollectAll => UnlinkAllIndex(m);
      case ReleaseRefused(id) => RefusedIndex(m, id);
      case Close(sid) => CloseIndex(m, sid);
      case Pay(sid) => PayIndex(cfg, m, sid);
    }
  }

  lemma StepIndex(cfg: Config, m: Server, e: Event)
    requires Shape(m) && Sticky(m) && SoundPools(m.pools) && Promised(m) && IndexFull(m) && UsablePools(m)
    ensures IndexFull(Step(cfg, m, e))
  {
    if DataEvent(e) {
      StepIs(cfg, m, e);
      DataFrame(cfg, m, e);
      SameIndex(m, DataStep(cfg, m, e));
    } else if SetUpEvent(e) {
      SetUpIndex(cfg, m, e);
    } else {
      SweepIndex(cfg, m, e);
    }
  }

  // ---------------------------------------------------------------- runs

  /** The step takes a record from a client that is live or being set up. */
  ghost predicate Disturbs(cfg: Config, m: Server, e: Event) {
    Unseats(m, e) || Robs(cfg, m, e)
  }

  ghost predicate Undisturbed(cfg: Config, ms: seq<Server>, es: seq<Event>) {
    |ms| == |es| + 1 && forall k :: 0 <= k < |es| ==> !Disturbs(cfg, ms[k], es[k])
  }

  /** Every live session and every pending handshake has its addresses on record. */
  ghost predicate Kept(m: Server) {
    Sticky(m) && Promised(m)
  }

  lemma KeptIff(cfg: Config, base: map<Family, Pool>, ms: seq<Server>, es: seq<Event>, k: nat)
    requires WfConfig(cfg) && FreshPools(base) && IsRun(cfg, base, ms, es) && k < |es| && Kept(ms[k])
    ensures Kept(ms[k + 1]) <==> !Disturbs(cfg, ms[k], es[k])
  {
    StickyAfterIff(cfg, base, ms, es, k + 1);
    StepTo(cfg, base, ms, es, k + 1);
    PromisedIff(cfg, ms[k], es[k]);
  }

  lemma {:induction false} KeptSoFar(cfg: Config, base: map<Family, Pool>, ms: seq<Server>, es: seq<Event>, i: nat)
    requires WfConfig(cfg) && FreshPools(base) && IsRun(cfg, base, ms, es) && i < |ms|
    requires Undisturbed(cfg, ms, es)
    ensures Kept(ms[i])
    decreases i
  {
    if i == 0 {
    } else {
      KeptSoFar(cfg, base, ms, es, i - 1);
      KeptIff(cfg, base, ms, es, i - 1);
    }
  }

  /** A run keeps every live session's and every pending handshake's addresses on record exactly
      when none of its steps is a release of a client that is live again or being set up. */
  lemma RunKeepsIff(cfg: Config, base: map<Family, Pool>, ms: seq<Server>, es: seq<Event>)
    requires WfConfig(cfg) && FreshPools(base) && IsRun(cfg, base, ms, es)
    ensures (forall i :: 0 <= i < |ms| ==> Kept(ms[i])) <==> Undisturbed(cfg, ms, es)
  {
    if Undisturbed(cfg, ms, es) {
      forall i | 0 <= i < |ms| ensures Kept(ms[i]) {
        KeptSoFar(cfg, base, ms, es, i);
      }
    }
    if forall i :: 0 <= i < |ms| ==> Kept(ms[i]) {
      forall k | 0 <= k < |es| ensures !Disturbs(cfg, ms[k], es[k]) {
        assert Kept(ms[k]) && Kept(ms[k + 1]);
        KeptIff(cfg, base, ms, es, k);
      }
    }
  }

  lemma StartSound(base: map<Family, Pool>)
    requires FreshPools(base)
    ensures SoundPools(base) && IndexFull(Start(base))
  {
  }

  lemma {:induction false} SoundSoFar(cfg: Config, base: map<Family, Pool>, ms: seq<Server>, es: seq<Event>, i: nat)
    requires WfConfig(cfg) && FreshPools(base) && IsRun(cfg, base, ms, es) && i < |ms|
    requires Undisturbed(cfg, ms, es)
    ensures SoundPools(ms[i].pools) && IndexFull(ms[i])
    decreases i
  {
    if i == 0 {
      StartSound(base);
    } else {
      SoundSoFar(cfg, base, ms, es, i - 1);
      KeptSoFar(cfg, base, ms, es, i - 1);
      SoundAfter(cfg, base, ms, es, i);
    }
  }

  lemma SoundAfter(cfg: Config, base: map<Family, Pool>, ms: seq<Server>, es: seq<Event>, i: nat)
    requires WfConfig(cfg) && FreshPools(base) && IsRun(cfg, base, ms, es) && 0 < i < |ms| && Kept(ms[i - 1])
    requires SoundPools(ms[i - 1].pools) && IndexFull(ms[i - 1])
    ensures SoundPools(ms[i].pools) && IndexFull(ms[i])
  {
    LinkedAlways(cfg, base, ms, es, i - 1);
    StepTo(cfg, base, ms, es, i);
    StepSound(cfg, ms[i - 1], es[i - 1]);
    StepIndex(cfg, ms[i - 1], es[i - 1]);
  }

  /** The control plane's main theorem. However the set-ups, aborts, collections and tear-downs of
      all clients interleave, in a run without such a release no two live sessions ever share an
      address, sessions and pending handshakes have theirs on record, the pools are sound, and the
      index is exactly the map from live sessions' addresses to those sessions. */
  lemma InterleavedSafety(cfg: Config, base: map<Family, Pool>, ms: seq<Server>, es: seq<Event>, i: nat)
    requires WfConfig(cfg) && FreshPools(base) && IsRun(cfg, base, ms, es) && i < |ms|
    requires Undisturbed(cfg, ms, es)
    ensures Unique(ms[i]) && IndexExact(ms[i]) && SoundPools(ms[i].pools) && Sticky(ms[i]) && Promised(ms[i])
  {
    KeptSoFar(cfg, base, ms, es, i);
    SoundSoFar(cfg, base, ms, es, i);
    LinkedAlways(cfg, base, ms, es, i);
    RecordsMakeUnique(ms[i]);
    FullIsExact(ms[i]);
  }

  /** With prompt releases only the releases of clients being set up are left to exclude. */
  lemma PromptSafety(cfg: Config, base: map<Family, Pool>, ms: seq<Server>, es: seq<Event>, i: nat)
    requires WfConfig(cfg) && FreshPools(base) && IsRun(cfg, base, ms, es) && i < |ms|
    requires forall k :: 0 <= k < |es| ==> Prompt(ms[k], es[k]) && !Robs(cfg, ms[k], es[k])
    ensures Unique(ms[i]) && IndexExact(ms[i]) && SoundPools(ms[i].pools) && Sticky(ms[i]) && Promised(ms[i])
  {
    forall k | 0 <= k < |es| ensures !Disturbs(cfg, ms[k], es[k]) {
      StickyAlways(cfg, base, ms, es, k);
    }
    InterleavedSafety(cfg, base, ms, es, i);
  }
}
