/** Interleavings that break what undisturbed runs guarantee, each as a run from the start. */
module ControlRaces {
  import opened Bytes
  import opened Addr
  import opened Users
  import opened AddrPool
  import opened Control
  import opened ControlSafety
  import opened ControlRuns
  import opened ControlSticky
  import opened ControlPending
  import opened ControlLeaks
  import opened ControlUsed

  /** The id that stands for "no identity" is never released: an aborted set-up of a client
      without a session leaves its pool record behind exactly when its id is all-zero. */
  lemma AbortLeaksIff(cfg: Config, m: Server, key: bytes, want: map<Family, Addr>, lanes: nat, f: Family)
    requires UsablePools(m) && Authorize(cfg, key).Some? && cfg.derive(key) !in m.sessions
    requires f in m.pools
    requires Answer(m.pools[f], Authorize(cfg, key).value, cfg.derive(key), Wanted(want, f), cfg.db, cfg.hash).Some?
    ensures var k := Step(cfg, m, Handshake(key, want, lanes));
      UsablePools(k) && (cfg.derive(key) in Step(cfg, k, Abort(m.nextShake)).pools[f].byClient <==> cfg.derive(key) == ZERO_ID)
  {
    var id, user := cfg.derive(key), Authorize(cfg, key).value;
    var k := Step(cfg, m, Handshake(key, want, lanes));
    forall g | g in m.pools ensures k.pools[g].subnet == m.pools[g].subnet {
    }
    AllocateTellsOne(m.pools[f], user, id, Wanted(want, f), cfg.db, cfg.hash);
  }

  // ---------------------------------------------------------------- single steps of the runs

  /** The handshake `h` is for this client and was offered `a`. */
  ghost predicate Offers(m: Server, h: nat, id: ClientId, user: string, f: Family, a: Addr) {
    h in m.shakes && m.shakes[h].id == id && m.shakes[h].user == user && f in m.shakes[h].addrs && m.shakes[h].addrs[f] == a
  }

  /** A session of this client that holds `a`, with no lane since `now`. */
  ghost predicate Seat(m: Server, sid: Sid, id: ClientId, user: string, f: Family, a: Addr, now: int) {
    && sid in m.heap && m.heap[sid].id == id && m.heap[sid].user == user && f in m.heap[sid].addrs && m.heap[sid].addrs[f] == a
    && !m.heap[sid].closed && m.heap[sid].active == 0 && m.heap[sid].lastSeen == now
  }

  ghost predicate Has(m: Server, f: Family, id: ClientId, a: Addr) {
    f in m.pools && id in m.pools[f].byClient && m.pools[f].byClient[id] == a
  }

  /** A client asks for a lane and is offered `a`. */
  lemma ReachOffer(cfg: Config, base: map<Family, Pool>, es: seq<Event>, m: Server, key: bytes, want: map<Family, Addr>, f: Family, a: Addr)
    returns (n: Server)
    requires WfConfig(cfg) && FreshPools(base) && Reach(cfg, base, es, m)
    requires Authorize(cfg, key).Some? && f in m.pools && m.pools[f].subnet.bits <= 128
    requires Answer(m.pools[f], Authorize(cfg, key).value, cfg.derive(key), Wanted(want, f), cfg.db, cfg.hash) == Some(a)
    ensures Reach(cfg, base, es + [Handshake(key, want, 1)], n)
    ensures OnlySetUp(m, n) && n.nextShake == m.nextShake + 1
    ensures Offers(n, m.nextShake, cfg.derive(key), Authorize(cfg, key).value, f, a)
    ensures n.shakes.Keys == m.shakes.Keys + {m.nextShake}
    ensures forall h :: h in m.shakes && h != m.nextShake ==> h in n.shakes && n.shakes[h] == m.shakes[h]
    ensures Has(n, f, cfg.derive(key), a)
    ensures n.pools[f] == Allocate(m.pools[f], Authorize(cfg, key).value, cfg.derive(key), Wanted(want, f), cfg.db, cfg.hash)
  {
    n := ReachStep(cfg, base, es, m, Handshake(key, want, 1));
    StepIs(cfg, m, Handshake(key, want, 1));
    HandshakeFrame(cfg, m, key, want, 1);
    OfferMade(cfg, m, key, want, f, a);
  }

  lemma OfferMade(cfg: Config, m: Server, key: bytes, want: map<Family, Addr>, f: Family, a: Addr)
    requires UsablePools(m) && Authorize(cfg, key).Some? && f in m.pools && m.pools[f].subnet.bits <= 128
    requires Answer(m.pools[f], Authorize(cfg, key).value, cfg.derive(key), Wanted(want, f), cfg.db, cfg.hash) == Some(a)
    ensures var n, id, user := StartHandshake(cfg, m, key, want, 1), cfg.derive(key), Authorize(cfg, key).value;
      && n.nextShake == m.nextShake + 1 && Offers(n, m.nextShake, id, user, f, a) && Has(n, f, id, a)
      && n.shakes.Keys == m.shakes.Keys + {m.nextShake}
      && (forall h :: h in m.shakes && h != m.nextShake ==> h in n.shakes && n.shakes[h] == m.shakes[h])
      && n.pools[f] == Allocate(m.pools[f], user, id, Wanted(want, f), cfg.db, cfg.hash)
  {
  }

  /** A client with its address on record is offered it again. */
  lemma ReachSameOffer(cfg: Config, base: map<Family, Pool>, es: seq<Event>, m: Server, key: bytes, f: Family, a: Addr)
    returns (n: Server)
    requires WfConfig(cfg) && FreshPools(base) && Reach(cfg, base, es, m) && Authorize(cfg, key).Some?
    requires Has(m, f, cfg.derive(key), a) && m.pools[f].subnet.bits <= 128
    ensures Reach(cfg, base, es + [Handshake(key, map[], 1)], n)
    ensures OnlySetUp(m, n) && n.nextShake == m.nextShake + 1
    ensures Offers(n, m.nextShake, cfg.derive(key), Authorize(cfg, key).value, f, a)
    ensures n.shakes.Keys == m.shakes.Keys + {m.nextShake}
    ensures forall h :: h in m.shakes && h != m.nextShake ==> h in n.shakes && n.shakes[h] == m.shakes[h]
    ensures f in n.pools && n.pools[f] == m.pools[f]
  {
    n := ReachOffer(cfg, base, es, m, key, map[], f, a);
  }

  /** A handshake becomes a session. */
  lemma ReachSeat(cfg: Config, base: map<Family, Pool>, es: seq<Event>, m: Server, h: nat, now: int,
                  id: ClientId, user: string, f: Family, a: Addr) returns (n: Server)
    requires WfConfig(cfg) && FreshPools(base) && Reach(cfg, base, es, m) && Offers(m, h, id, user, f, a)
    requires id !in m.sessions && !QuotaRefuses(cfg, m, user) && f in base && base[f].subnet.bits != 0
    ensures Reach(cfg, base, es + [Finish(h, now)], n)
    ensures n.sessions == m.sessions[id := m.next] && n.next == m.next + 1 && Seat(n, m.next, id, user, f, a, now)
    ensures n.heap == m.heap[m.next := n.heap[m.next]] && n.shakes == m.shakes - {h} && n.nextShake == m.nextShake
    ensures n.refused == m.refused && n.unpaid == m.unpaid
    ensures n.active == if HasUsers(cfg) then Taken(m.active, user) else m.active
    ensures f in m.pools && f in n.pools && n.pools[f] == Claim(m.pools[f], id, a) && m.pools[f].subnet == base[f].subnet
  {
    n := ReachStep(cfg, base, es, m, Finish(h, now));
    ReachPlaces(cfg, base, es, m);
    assert f == F4 || f == F6;
    assert Seats(cfg, m, m.shakes[h]);
    assert n == CreateSession(cfg, Without(m, h), m.shakes[h], now);
  }

  /** Releasing the addresses of a client that is live takes them from under its session. */
  lemma ReleaseOfLive(m: Server, n: Server, id: ClientId)
    requires id in m.sessions && m.sessions[id] in m.heap && m.heap[m.sessions[id]].addrs != map[]
    requires n.sessions == m.sessions && n.pools == ReleaseAll(m.pools, id)
    requires m.sessions[id] in n.heap && n.heap[m.sessions[id]].addrs == m.heap[m.sessions[id]].addrs
    ensures !Sticky(n)
  {
    var s := n.heap[n.sessions[id]];
    var f :| f in s.addrs;
    assert !Recorded(n.pools, id, s.addrs);
  }

  // ---------------------------------------------------------------- two sessions, one address

  /** Lane one of client one is offered `a`; its lane two is offered `a` as well and aborts, which
      frees `a`; client two asks for `a` and is offered it; both finish. */
  function ClashSchedule(k1: bytes, k2: bytes, f: Family, a: Addr): seq<Event> {
    [] + [Handshake(k1, map[], 1)] + [Handshake(k1, map[], 1)] + [Abort(1)] + [Handshake(k2, map[f := a], 1)]
    + [Finish(0, 0)] + [Finish(2, 0)]
  }

  /** Two authorized clients, a free address for the first that the second may ask for, quota. */
  ghost predicate CanClash(cfg: Config, base: map<Family, Pool>, k1: bytes, k2: bytes, f: Family, a: Addr) {
    && CanServe(cfg, base, k1, f, a) && Authorize(cfg, k2).Some?
    && cfg.derive(k1) != ZERO_ID && cfg.derive(k1) != cfg.derive(k2)
    && Granted(base[f], Authorize(cfg, k2).value, a, cfg.db)
    && (HasUsers(cfg) ==> SlotFree(cfg.db.value, OneTaken(cfg, Authorize(cfg, k1).value), Authorize(cfg, k2).value))
  }

  /** A client that the pool of family `f` would offer `a`. */
  ghost predicate CanOffer(cfg: Config, base: map<Family, Pool>, key: bytes, f: Family, a: Addr) {
    && f in base && base[f].subnet.bits <= 128 && Authorize(cfg, key).Some?
    && Answer(base[f], Authorize(cfg, key).value, cfg.derive(key), Invalid, cfg.db, cfg.hash) == Some(a)
  }

  /** And that may then have a session. */
  ghost predicate CanServe(cfg: Config, base: map<Family, Pool>, key: bytes, f: Family, a: Addr) {
    && CanOffer(cfg, base, key, f, a) && base[f].subnet.bits != 0
    && (HasUsers(cfg) ==> SlotFree(cfg.db.value, map[], Authorize(cfg, key).value))
  }

  /** The counters after the first session. */
  function OneTaken(cfg: Config, user: string): map<string, nat> {
    if HasUsers(cfg) then Taken(map[], user) else map[]
  }

  lemma OfferUndone(p: Pool, user: string, id: ClientId, a: Addr, db: Option<UserDb>, hash: Hash)
    requires ValidSubnet(p.subnet) && p.used == {} && p.byClient == map[] && Answer(p, user, id, Invalid, db, hash) == Some(a)
    ensures var q := Allocate(p, user, id, Invalid, db, hash);
      Release(q, id) == p && q.subnet == p.subnet && Contains(p.subnet, a)
  {
    ReleaseUndoesAllocate(p, user, id, Invalid, db, hash);
    ChoiceFits(p, user, id, Invalid, db, hash);
  }

  /** The client's first lane: an address is on record for it, and releasing it undoes that. */
  lemma FirstOffer(cfg: Config, base: map<Family, Pool>, key: bytes, f: Family, a: Addr) returns (m: Server)
    requires WfConfig(cfg) && FreshPools(base) && CanOffer(cfg, base, key, f, a)
    ensures Reach(cfg, base, [] + [Handshake(key, map[], 1)], m) && OnlySetUp(Start(base), m) && m.nextShake == 1
    ensures Offers(m, 0, cfg.derive(key), Authorize(cfg, key).value, f, a) && Has(m, f, cfg.derive(key), a)
    ensures m.shakes.Keys == {0} && m.pools[f].subnet == base[f].subnet && Contains(base[f].subnet, a)
    ensures Release(m.pools[f], cfg.derive(key)) == base[f]
  {
    var id, u := cfg.derive(key), Authorize(cfg, key).value;
    ReachStart(cfg, base);
    m := ReachOffer(cfg, base, [], Start(base), key, map[], f, a);
    OfferUndone(base[f], u, id, a, cfg.db, cfg.hash);
  }

  lemma SecondLaneAborts(cfg: Config, base: map<Family, Pool>, k1: bytes, f: Family, a: Addr) returns (m: Server)
    requires WfConfig(cfg) && FreshPools(base) && CanServe(cfg, base, k1, f, a) && cfg.derive(k1) != ZERO_ID
    ensures Reach(cfg, base, [] + [Handshake(k1, map[], 1)] + [Handshake(k1, map[], 1)] + [Abort(1)], m)
    ensures OnlySetUp(Start(base), m) && m.nextShake == 2 && f in m.pools && m.pools[f] == base[f]
    ensures Offers(m, 0, cfg.derive(k1), Authorize(cfg, k1).value, f, a) && m.shakes.Keys == {0}
  {
    var h := [Handshake(k1, map[], 1)];
    var m1 := FirstOffer(cfg, base, k1, f, a);
    var m2 := ReachSameOffer(cfg, base, [] + h, m1, k1, f, a);
    m := ReachStep(cfg, base, [] + h + h, m2, Abort(1));
    FailedFrame(m2.(shakes := m2.shakes - {1}), cfg.derive(k1));
  }

  lemma SecondClientOffered(cfg: Config, base: map<Family, Pool>, es: seq<Event>, m: Server, k2: bytes, f: Family, a: Addr)
    returns (n: Server)
    requires WfConfig(cfg) && FreshPools(base) && Reach(cfg, base, es, m) && Authorize(cfg, k2).Some?
    requires f in m.pools && f in base && m.pools[f] == base[f] && Granted(base[f], Authorize(cfg, k2).value, a, cfg.db)
    ensures Reach(cfg, base, es + [Handshake(k2, map[f := a], 1)], n)
    ensures OnlySetUp(m, n) && Offers(n, m.nextShake, cfg.derive(k2), Authorize(cfg, k2).value, f, a)
    ensures n.shakes.Keys == m.shakes.Keys + {m.nextShake} && n.nextShake == m.nextShake + 1
    ensures forall h :: h in m.shakes && h != m.nextShake ==> h in n.shakes && n.shakes[h] == m.shakes[h]
    ensures f in n.pools && n.pools[f] == Record(base[f], cfg.derive(k2), a)
  {
    n := ReachOffer(cfg, base, es, m, k2, map[f := a], f, a);
  }

  lemma BothSeated(cfg: Config, base: map<Family, Pool>, es: seq<Event>, m: Server, id1: ClientId, id2: ClientId,
                   u1: string, u2: string, f: Family, a: Addr) returns (n: Server)
    requires WfConfig(cfg) && FreshPools(base) && Reach(cfg, base, es, m) && OnlySetUp(Start(base), m)
    requires Offers(m, 0, id1, u1, f, a) && Offers(m, 2, id2, u2, f, a) && id1 != id2
    requires f in base && base[f].subnet.bits != 0
    requires HasUsers(cfg) ==> SlotFree(cfg.db.value, map[], u1) && SlotFree(cfg.db.value, OneTaken(cfg, u1), u2)
    ensures Reach(cfg, base, es + [Finish(0, 0)] + [Finish(2, 0)], n) && !Unique(n)
    ensures n.sessions == map[id1 := 0, id2 := 1] && n.heap.Keys == {0, 1} && n.heap[0].id == id1 && n.heap[1].id == id2
    ensures n.shakes == m.shakes - {0} - {2} && n.refused == multiset{}
    ensures f in m.pools && f in n.pools && n.pools[f] == Claim(Claim(m.pools[f], id1, a), id2, a)
  {
    var m1 := ReachSeat(cfg, base, es, m, 0, 0, id1, u1, f, a);
    n := ReachSeat(cfg, base, es + [Finish(0, 0)], m1, 2, 0, id2, u2, f, a);
    assert Live(n, 0) && Live(n, 1) && Holds(n.heap[0], a) && Holds(n.heap[1], a);
  }

  /** The schedule ends with one address in two live sessions. */
  lemma ClashRun(cfg: Config, base: map<Family, Pool>, k1: bytes, k2: bytes, f: Family, a: Addr) returns (m: Server)
    requires WfConfig(cfg) && FreshPools(base) && CanClash(cfg, base, k1, k2, f, a)
    ensures Reach(cfg, base, ClashSchedule(k1, k2, f, a), m) && !Unique(m)
  {
    var es := [] + [Handshake(k1, map[], 1)] + [Handshake(k1, map[], 1)] + [Abort(1)];
    m := SecondLaneAborts(cfg, base, k1, f, a);
    m := SecondClientOffered(cfg, base, es, m, k2, f, a);
    m := BothSeated(cfg, base, es + [Handshake(k2, map[f := a], 1)], m, cfg.derive(k1), cfg.derive(k2),
                    Authorize(cfg, k1).value, Authorize(cfg, k2).value, f, a);
  }

  // ---------------------------------------------------------------- an address of nobody

  /** As above, but before both finish, client one asks for a third lane and is offered `b`. */
  function StrandSchedule(k1: bytes, k2: bytes, f: Family, a: Addr): seq<Event> {
    [] + [Handshake(k1, map[], 1)] + [Handshake(k1, map[], 1)] + [Abort(1)] + [Handshake(k2, map[f := a], 1)]
    + [Handshake(k1, map[], 1)] + [Finish(0, 0)] + [Finish(2, 0)] + [Finish(3, 0)]
  }

  /** And with `a` gone, the pool would give client one `b`. */
  ghost predicate CanStrand(cfg: Config, base: map<Family, Pool>, k1: bytes, k2: bytes, f: Family, a: Addr, b: Addr) {
    && CanClash(cfg, base, k1, k2, f, a)
    && Answer(Record(base[f], cfg.derive(k2), a), Authorize(cfg, k1).value, cfg.derive(k1), Invalid, cfg.db, cfg.hash) == Some(b)
  }

  lemma ThirdLaneOffered(cfg: Config, base: map<Family, Pool>, es: seq<Event>, m: Server, k1: bytes, id2: ClientId,
                         f: Family, a: Addr, b: Addr)
    returns (n: Server)
    requires WfConfig(cfg) && FreshPools(base) && Reach(cfg, base, es, m) && Authorize(cfg, k1).Some? && m.nextShake == 3
    requires f in m.pools && f in base && m.pools[f] == Record(base[f], id2, a) && id2 != cfg.derive(k1)
    requires Answer(m.pools[f], Authorize(cfg, k1).value, cfg.derive(k1), Invalid, cfg.db, cfg.hash) == Some(b)
    ensures Reach(cfg, base, es + [Handshake(k1, map[], 1)], n)
    ensures OnlySetUp(m, n) && n.shakes.Keys == m.shakes.Keys + {3} && 3 in n.shakes && n.shakes[3].id == cfg.derive(k1)
    ensures forall h :: h in m.shakes && h != 3 ==> h in n.shakes && n.shakes[h] == m.shakes[h]
    ensures f in n.pools && n.pools[f] == Record(Record(base[f], id2, a), cfg.derive(k1), b) && b != a
  {
    n := ReachOffer(cfg, base, es, m, k1, map[], f, b);
    ChosenIsUnused(m.pools[f], Authorize(cfg, k1).value, cfg.derive(k1), Invalid, cfg.db, cfg.hash);
  }

  lemma ReplacedIsLost(p: Pool, id1: ClientId, id2: ClientId, a: Addr, b: Addr)
    requires p.byClient == map[] && id1 != id2 && a != b && a.Is(p.subnet.family)
    ensures LostIn(Claim(Claim(Record(Record(p, id2, a), id1, b), id1, a), id2, a), b)
  {
  }

  /** A lane of a client that has a session joins it. */
  lemma Joined(cfg: Config, base: map<Family, Pool>, es: seq<Event>, m: Server, h: nat) returns (n: Server)
    requires WfConfig(cfg) && FreshPools(base) && Reach(cfg, base, es, m) && h in m.shakes && m.shakes[h].id in m.sessions
    ensures Reach(cfg, base, es + [Finish(h, 0)], n) && n == Without(m, h)
  {
    n := ReachStep(cfg, base, es, m, Finish(h, 0));
  }

  lemma AtRest(m: Server, id1: ClientId, id2: ClientId)
    requires m.shakes == map[] && m.refused == multiset{} && m.heap.Keys == {0, 1} && id1 != id2
    requires m.sessions == map[id1 := 0, id2 := 1] && m.heap[0].id == id1 && m.heap[1].id == id2
    ensures Idle(m)
  {
    forall sid ensures !Victim(m, sid) {
      assert sid in m.heap ==> sid == 0 || sid == 1;
    }
  }

  /** Before both finish: three pending lanes, `a` on record for client two and `b` for client one. */
  ghost predicate Strained(base: map<Family, Pool>, m: Server, id1: ClientId, id2: ClientId, u1: string, u2: string,
                           f: Family, a: Addr, b: Addr) {
    && OnlySetUp(Start(base), m) && Offers(m, 0, id1, u1, f, a) && Offers(m, 2, id2, u2, f, a)
    && m.shakes.Keys == {0, 2, 3} && m.shakes[3].id == id1 && a != b
    && f in base && f in m.pools && m.pools[f] == Record(Record(base[f], id2, a), id1, b)
  }

  lemma ReachStrained(cfg: Config, base: map<Family, Pool>, k1: bytes, k2: bytes, f: Family, a: Addr, b: Addr) returns (m: Server)
    requires WfConfig(cfg) && FreshPools(base) && CanStrand(cfg, base, k1, k2, f, a, b)
    ensures Reach(cfg, base, [] + [Handshake(k1, map[], 1)] + [Handshake(k1, map[], 1)] + [Abort(1)]
                             + [Handshake(k2, map[f := a], 1)] + [Handshake(k1, map[], 1)], m)
    ensures Strained(base, m, cfg.derive(k1), cfg.derive(k2), Authorize(cfg, k1).value, Authorize(cfg, k2).value, f, a, b)
  {
    var es := [] + [Handshake(k1, map[], 1)] + [Handshake(k1, map[], 1)] + [Abort(1)];
    m := SecondLaneAborts(cfg, base, k1, f, a);
    m := SecondClientOffered(cfg, base, es, m, k2, f, a);
    m := ThirdLaneOffered(cfg, base, es + [Handshake(k2, map[f := a], 1)], m, k1, cfg.derive(k2), f, a, b);
  }

  lemma StrainedBreaks(cfg: Config, base: map<Family, Pool>, es: seq<Event>, m: Server, id1: ClientId, id2: ClientId,
                       u1: string, u2: string, f: Family, a: Addr, b: Addr) returns (n: Server)
    requires WfConfig(cfg) && FreshPools(base) && Reach(cfg, base, es, m) && Strained(base, m, id1, id2, u1, u2, f, a, b)
    requires id1 != id2 && base[f].subnet.bits != 0 && a.Is(base[f].subnet.family)
    requires HasUsers(cfg) ==> SlotFree(cfg.db.value, map[], u1) && SlotFree(cfg.db.value, OneTaken(cfg, u1), u2)
    ensures Reach(cfg, base, es + [Finish(0, 0)] + [Finish(2, 0)] + [Finish(3, 0)], n) && Idle(n) && Lost(n, f, b)
  {
    var k := BothSeated(cfg, base, es, m, id1, id2, u1, u2, f, a);
    ThirdIsLeft(m, k);
    n := Joined(cfg, base, es + [Finish(0, 0)] + [Finish(2, 0)], k, 3);
    ReplacedIsLost(base[f], id1, id2, a, b);
    AtRest(n, id1, id2);
  }

  lemma ThirdIsLeft(m: Server, k: Server)
    requires m.shakes.Keys == {0, 2, 3} && k.shakes == m.shakes - {0} - {2}
    ensures k.shakes == map[3 := m.shakes[3]] && Without(k, 3).shakes == map[]
  {
  }

  /** The schedule comes to rest with `b` used, on record for nobody and offered to nobody. */
  lemma StrandRun(cfg: Config, base: map<Family, Pool>, k1: bytes, k2: bytes, f: Family, a: Addr, b: Addr) returns (m: Server)
    requires WfConfig(cfg) && FreshPools(base) && CanStrand(cfg, base, k1, k2, f, a, b)
    ensures Reach(cfg, base, StrandSchedule(k1, k2, f, a), m) && Idle(m) && Lost(m, f, b)
  {
    m := ReachStrained(cfg, base, k1, k2, f, a, b);
    m := StrainedBreaks(cfg, base, [] + [Handshake(k1, map[], 1)] + [Handshake(k1, map[], 1)] + [Abort(1)]
                        + [Handshake(k2, map[f := a], 1)] + [Handshake(k1, map[], 1)], m,
                        cfg.derive(k1), cfg.derive(k2), Authorize(cfg, k1).value, Authorize(cfg, k2).value, f, a, b);
  }

  // ---------------------------------------------------------------- a record of nobody

  /** On a server whose prefix lengths are all zero, every client that is offered an address is
      turned away, and its record stays. */
  lemma ZeroPrefixRun(cfg: Config, base: map<Family, Pool>, key: bytes, f: Family, a: Addr) returns (m: Server)
    requires WfConfig(cfg) && FreshPools(base) && CanOffer(cfg, base, key, f, a)
    requires forall g :: g in base ==> base[g].subnet.bits == 0
    ensures Reach(cfg, base, [] + [Handshake(key, map[], 1)] + [Finish(0, 0)], m)
    ensures Idle(m) && m.sessions == map[] && Has(m, f, cfg.derive(key), a)
  {
    var es := [] + [Handshake(key, map[], 1)];
    var m1 := FirstOffer(cfg, base, key, f, a);
    ReachPlaces(cfg, base, es, m1);
    m := ReachStep(cfg, base, es, m1, Finish(0, 0));
    assert !Assigned(m1.pools, m1.shakes[0].addrs);
    assert m == m1.(shakes := m1.shakes - {0});
  }

  // ---------------------------------------------------------------- late releases

  lemma Unlinked(m: Server, id: ClientId, now: int)
    requires Shape(m) && Due(m, id, now)
    ensures id !in Unlink(m, now).sessions && Victim(Unlink(m, now), m.sessions[id])
  {
  }

  /** A client with records but no session gets them offered again. */
  lemma OfferedAgain(cfg: Config, m: Server, key: bytes, lanes: nat, addrs: map<Family, Addr>)
    requires UsablePools(m) && Authorize(cfg, key).Some? && Recorded(m.pools, cfg.derive(key), addrs)
    requires Assigned(m.pools, addrs)
    ensures var n := StartHandshake(cfg, m, key, map[], lanes);
      && UsablePools(n) && m.nextShake in n.shakes
      && n.shakes[m.nextShake].id == cfg.derive(key) && n.shakes[m.nextShake].user == Authorize(cfg, key).value
      && Assigned(n.pools, n.shakes[m.nextShake].addrs)
  {
    var id, user := cfg.derive(key), Authorize(cfg, key).value;
    AllocateTells(cfg, m.pools, user, id, map[]);
    AllocateStays(cfg, m.pools, user, id, map[]);
    StillAssigned(m.pools, AllocateAll(cfg, m.pools, user, id, map[]), addrs, Answers(cfg, m.pools, user, id, map[]));
  }

  lemma AllocateStays(cfg: Config, pools: map<Family, Pool>, user: string, id: ClientId, want: map<Family, Addr>)
    requires forall f :: f in pools ==> pools[f].subnet.bits <= 128
    ensures SamePlaces(pools, AllocateAll(cfg, pools, user, id, want))
  {
  }

  lemma StillAssigned(pools: map<Family, Pool>, q: map<Family, Pool>, addrs: map<Family, Addr>, offered: map<Family, Addr>)
    requires SamePlaces(pools, q) && Assigned(pools, addrs) && forall f :: f in addrs ==> f in offered
    ensures Assigned(q, offered)
  {
  }

  lemma Reseated(cfg: Config, m: Server, h: nat, now: int, gone: Sid)
    requires h in m.shakes && Seats(cfg, m, m.shakes[h])
    requires Victim(m, gone) && m.heap[gone].id == m.shakes[h].id && gone < m.next
    ensures var n := FinishHandshake(cfg, Without(m, h), m.shakes[h], now);
      Victim(n, gone) && !Sticky(CloseSession(n, gone))
  {
    var n := CreateSession(cfg, Without(m, h), m.shakes[h], now);
    assert Victim(n, gone);
    ReleaseOfLive(n, CloseSession(n, gone), m.shakes[h].id);
  }

  lemma ReconnectLoses(cfg: Config, m: Server, key: bytes, now: int, lanes: nat)
    requires Shape(m) && Sticky(m) && UsablePools(m)
    requires Authorize(cfg, key).Some? && Due(m, cfg.derive(key), now)
    requires Assigned(m.pools, m.heap[m.sessions[cfg.derive(key)]].addrs)
    requires !QuotaRefuses(cfg, m, Authorize(cfg, key).value)
    ensures var m1 := Unlink(m, now);
      UsablePools(m1) && var m2 := StartHandshake(cfg, m1, key, map[], lanes);
      m.nextShake in m2.shakes
      && var m3 := FinishHandshake(cfg, m2.(shakes := m2.shakes - {m.nextShake}), m2.shakes[m.nextShake], now);
      var gone := m.sessions[cfg.derive(key)];
      Victim(m3, gone) && !Sticky(CloseSession(m3, gone))
  {
    var id := cfg.derive(key);
    var gone := m.sessions[id];
    var m1 := Unlink(m, now);
    Unlinked(m, id, now);
    assert Recorded(m.pools, id, m.heap[gone].addrs);
    OfferedAgain(cfg, m1, key, lanes, m.heap[gone].addrs);
    HandshakeFrame(cfg, m1, key, map[], lanes);
    Reseated(cfg, StartHandshake(cfg, m1, key, map[], lanes), m.nextShake, now, gone);
  }

  /** Tear-down race, from any moment of any run with a client that is due: it is unlinked
      (`Collect`), reconnects before it is torn down (`Handshake`, `Finish`), and the tear-down of
      its old session (`Close`) takes the addresses from under its new one. */
  lemma TearDownRace(cfg: Config, base: map<Family, Pool>, ms: seq<Server>, es: seq<Event>, i: nat, key: bytes, now: int, lanes: nat)
    requires WfConfig(cfg) && FreshPools(base) && IsRun(cfg, base, ms, es) && i < |ms| && Sticky(ms[i])
    requires Authorize(cfg, key).Some? && Due(ms[i], cfg.derive(key), now)
    requires !QuotaRefuses(cfg, ms[i], Authorize(cfg, key).value)
    ensures var m1 := Unlink(ms[i], now);
      UsablePools(m1) && var m2 := StartHandshake(cfg, m1, key, map[], lanes);
      ms[i].nextShake in m2.shakes
      && var m3 := FinishHandshake(cfg, m2.(shakes := m2.shakes - {ms[i].nextShake}), m2.shakes[ms[i].nextShake], now);
      var gone := ms[i].sessions[cfg.derive(key)];
      Victim(m3, gone) && !Sticky(CloseSession(m3, gone))
  {
    LinkedAlways(cfg, base, ms, es, i);
    UsableAlways(cfg, base, ms, es, i);
    PlacesAlways(cfg, base, ms, es, i);
    AssignedAlways(cfg, base, ms, es, i);
    SamePlacesAssigned(base, ms[i].pools, ms[i].heap[ms[i].sessions[cfg.derive(key)]].addrs);
    ReconnectLoses(cfg, ms[i], key, now, lanes);
  }

  // ---------------------------------------------------------------- late releases, from the start

  /** The client's session has been unlinked and not torn down; its address is still on record. */
  ghost predicate JustCollected(cfg: Config, m: Server, id: ClientId, user: string, f: Family, a: Addr) {
    && m.sessions == map[] && m.next == 1 && Seat(m, 0, id, user, f, a, 0)
    && m.nextShake == 1 && m.shakes == map[] && m.refused == multiset{} && m.unpaid == {} && m.active == OneTaken(cfg, user)
    && Has(m, f, id, a) && m.pools[f].subnet.bits <= 128
  }

  lemma SeatIsDue(cfg: Config, m: Server, id: ClientId, user: string, f: Family, a: Addr)
    requires m.sessions == map[id := 0] && m.next == 1 && Seat(m, 0, id, user, f, a, 0) && m.nextShake == 1
    requires m.shakes == map[] && m.refused == multiset{} && m.unpaid == {} && m.active == OneTaken(cfg, user)
    requires Has(m, f, id, a) && m.pools[f].subnet.bits <= 128
    ensures JustCollected(cfg, Unlink(m, 91), id, user, f, a)
  {
    assert Due(m, id, 91);
  }

  /** A client connects, its lanes go, and the collector unlinks it. */
  function GoesStale(key: bytes): seq<Event> {
    [] + [Handshake(key, map[], 1)] + [Finish(0, 0)] + [Collect(91)]
  }

  lemma ReachCollected(cfg: Config, base: map<Family, Pool>, key: bytes, f: Family, a: Addr) returns (m: Server)
    requires WfConfig(cfg) && FreshPools(base) && CanServe(cfg, base, key, f, a)
    ensures Reach(cfg, base, GoesStale(key), m) && JustCollected(cfg, m, cfg.derive(key), Authorize(cfg, key).value, f, a)
  {
    var id, u, es := cfg.derive(key), Authorize(cfg, key).value, [] + [Handshake(key, map[], 1)];
    var m1 := FirstOffer(cfg, base, key, f, a);
    var m2 := ReachSeat(cfg, base, es, m1, 0, 0, id, u, f, a);
    m := ReachStep(cfg, base, es + [Finish(0, 0)], m2, Collect(91));
    StepIs(cfg, m2, Collect(91));
    SeatIsDue(cfg, m2, id, u, f, a);
  }

  /** A stale client is unlinked, reconnects, and only then is its old session torn down. */
  function TearDownSchedule(key: bytes): seq<Event> {
    GoesStale(key) + [Handshake(key, map[], 1)] + [Finish(1, 91)] + [Close(0)]
  }

  lemma ClosedLate(cfg: Config, base: map<Family, Pool>, es: seq<Event>, m: Server, id: ClientId) returns (n: Server)
    requires WfConfig(cfg) && FreshPools(base) && Reach(cfg, base, es, m)
    requires m.sessions == map[id := 1] && 1 in m.heap && m.heap[1].addrs != map[]
    requires 0 in m.heap && !m.heap[0].closed && m.heap[0].id == id
    ensures Reach(cfg, base, es + [Close(0)], n) && id in n.sessions && !Sticky(n)
  {
    n := ReachStep(cfg, base, es, m, Close(0));
    ReleaseOfLive(m, n, id);
  }

  /** The tear-down race as a run: unless the quota stops it, the reconnected client ends up with
      a session and without a record. */
  lemma TearDownRun(cfg: Config, base: map<Family, Pool>, key: bytes, f: Family, a: Addr) returns (m: Server)
    requires WfConfig(cfg) && FreshPools(base) && CanServe(cfg, base, key, f, a)
    requires HasUsers(cfg) ==> SlotFree(cfg.db.value, OneTaken(cfg, Authorize(cfg, key).value), Authorize(cfg, key).value)
    ensures Reach(cfg, base, TearDownSchedule(key), m) && cfg.derive(key) in m.sessions && !Sticky(m)
  {
    var h, es := [Handshake(key, map[], 1)], GoesStale(key);
    m := ReachCollected(cfg, base, key, f, a);
    m := ReachSameOffer(cfg, base, es, m, key, f, a);
    m := ReachSeat(cfg, base, es + h, m, 1, 91, cfg.derive(key), Authorize(cfg, key).value, f, a);
    m := ClosedLate(cfg, base, es + h + [Finish(1, 91)], m, cfg.derive(key));
  }

  /** A lane is refused because the client's old session still has the slot; the old session goes,
      another lane gets a session, and then comes the release that the refusal owes. */
  function RefusalSchedule(key: bytes, id: ClientId): seq<Event> {
    GoesStale(key) + [Handshake(key, map[], 1)] + [Handshake(key, map[], 1)] + [Finish(1, 91)]
    + [Close(0)] + [Pay(0)] + [Finish(2, 91)] + [ReleaseRefused(id)]
  }

  /** One lane of the client was refused, another is pending, and its old session is a victim. */
  ghost predicate Refused(cfg: Config, m: Server, id: ClientId, user: string, f: Family, a: Addr) {
    && Offers(m, 2, id, user, f, a) && id in m.refused && m.sessions == map[] && m.unpaid == {}
    && Seat(m, 0, id, user, f, a, 0) && m.active == OneTaken(cfg, user)
  }

  lemma LaneRefused(cfg: Config, base: map<Family, Pool>, es: seq<Event>, m: Server, id: ClientId, user: string, f: Family, a: Addr)
    returns (n: Server)
    requires WfConfig(cfg) && FreshPools(base) && Reach(cfg, base, es, m)
    requires Offers(m, 1, id, user, f, a) && Offers(m, 2, id, user, f, a) && m.sessions == map[] && m.unpaid == {}
    requires Seat(m, 0, id, user, f, a, 0) && m.active == OneTaken(cfg, user) && QuotaRefuses(cfg, m, user)
    requires f in base && base[f].subnet.bits != 0
    ensures Reach(cfg, base, es + [Finish(1, 91)], n) && Refused(cfg, n, id, user, f, a)
  {
    n := ReachStep(cfg, base, es, m, Finish(1, 91));
    ReachPlaces(cfg, base, es, m);
    assert f == F4 || f == F6;
    assert Assigned(m.pools, m.shakes[1].addrs);
    assert n == m.(shakes := m.shakes - {1}, refused := m.refused + multiset{id});
  }

  lemma ReachRefused(cfg: Config, base: map<Family, Pool>, key: bytes, f: Family, a: Addr) returns (m: Server)
    requires WfConfig(cfg) && FreshPools(base) && CanServe(cfg, base, key, f, a)
    requires HasUsers(cfg) && !SlotFree(cfg.db.value, OneTaken(cfg, Authorize(cfg, key).value), Authorize(cfg, key).value)
    ensures Reach(cfg, base, GoesStale(key) + [Handshake(key, map[], 1)] + [Handshake(key, map[], 1)] + [Finish(1, 91)], m)
    ensures Refused(cfg, m, cfg.derive(key), Authorize(cfg, key).value, f, a)
  {
    var h, es := [Handshake(key, map[], 1)], GoesStale(key);
    m := ReachCollected(cfg, base, key, f, a);
    m := ReachSameOffer(cfg, base, es, m, key, f, a);
    m := ReachSameOffer(cfg, base, es + h, m, key, f, a);
    m := LaneRefused(cfg, base, es + h + h, m, cfg.derive(key), Authorize(cfg, key).value, f, a);
  }

  lemma SlotIsBack(cfg: Config, base: map<Family, Pool>, es: seq<Event>, m: Server, id: ClientId, user: string, f: Family, a: Addr)
    returns (n: Server)
    requires WfConfig(cfg) && FreshPools(base) && Reach(cfg, base, es, m) && Refused(cfg, m, id, user, f, a)
    requires HasUsers(cfg) && SlotFree(cfg.db.value, map[], user) && user != ""
    ensures Reach(cfg, base, es + [Close(0)] + [Pay(0)], n)
    ensures Offers(n, 2, id, user, f, a) && id in n.refused && n.sessions == map[] && !QuotaRefuses(cfg, n, user)
  {
    var k := ReachStep(cfg, base, es, m, Close(0));
    assert Victim(m, 0) && k == CloseSession(m, 0);
    n := ReachStep(cfg, base, es + [Close(0)], k, Pay(0));
    assert n == ReturnSlot(cfg, k, 0) && Count(n.active, user) == 0;
  }

  lemma ReleasedLate(cfg: Config, base: map<Family, Pool>, es: seq<Event>, m: Server, id: ClientId) returns (n: Server)
    requires WfConfig(cfg) && FreshPools(base) && Reach(cfg, base, es, m) && id in m.refused
    requires id in m.sessions && m.sessions[id] in m.heap && m.heap[m.sessions[id]].addrs != map[]
    ensures Reach(cfg, base, es + [ReleaseRefused(id)], n) && id in n.sessions && !Sticky(n)
  {
    n := ReachStep(cfg, base, es, m, ReleaseRefused(id));
    ReleaseOfLive(m, n, id);
  }

  /** The late release of a refusal as a run: where the quota allows one session, the release that
      a refused lane owes takes the address from under the session of another lane. */
  lemma RefusalRun(cfg: Config, base: map<Family, Pool>, key: bytes, f: Family, a: Addr) returns (m: Server)
    requires WfConfig(cfg) && FreshPools(base) && CanServe(cfg, base, key, f, a)
    requires HasUsers(cfg) && !SlotFree(cfg.db.value, OneTaken(cfg, Authorize(cfg, key).value), Authorize(cfg, key).value)
    ensures Reach(cfg, base, RefusalSchedule(key, cfg.derive(key)), m) && cfg.derive(key) in m.sessions && !Sticky(m)
  {
    var h, id, u := [Handshake(key, map[], 1)], cfg.derive(key), Authorize(cfg, key).value;
    var es := GoesStale(key) + h + h + [Finish(1, 91)];
    m := ReachRefused(cfg, base, key, f, a);
    m := SlotIsBack(cfg, base, es, m, id, u, f, a);
    m := ReachSeat(cfg, base, es + [Close(0)] + [Pay(0)], m, 2, 91, id, u, f, a);
    m := ReleasedLate(cfg, base, es + [Close(0)] + [Pay(0)] + [Finish(2, 91)], m, id);
  }
}
