/** The control plane's safety over whole runs, with the server's own rules filled in. */
module ControlRuns {
  import opened Bytes
  import opened Addr
  import opened Users
  import opened AddrPool
  import opened Routing
  import opened Control
  import opened ControlSafety

  /** A database as its constructor leaves it, with at least one user, or none at all. */
  ghost predicate WfConfig(cfg: Config) {
    cfg.db.Some? ==>
      && HasUsers(cfg) && Agrees(cfg.db.value)
      && forall k :: k in cfg.db.value.byKey ==> cfg.db.value.byKey[k].name in cfg.db.value.byName
  }

  lemma ConstructedConfig(cfg: Config, users: seq<User>)
    requires cfg.db.Some? && users != [] && Acceptable(users) && Describes(cfg.db.value, users)
    ensures WfConfig(cfg)
  {
    ConstructorAgrees(cfg.db.value, users);
    assert users[0] in users;
    assert users[0].key in cfg.db.value.byKey;
  }

  /** The list has a user of this key and this name. */
  ghost predicate Enrolled(users: seq<User>, key: bytes, name: string) {
    exists i :: 0 <= i < |users| && users[i].key == key && users[i].name == name
  }

  /** The server was set up with this list of users, or with none. */
  ghost predicate SetUpWith(cfg: Config, users: seq<User>) {
    if cfg.db.Some? then Acceptable(users) && Describes(cfg.db.value, users) else users == []
  }

  /** Who is let in: with a list of users exactly those on it, each by its own key and under its own
      name; without one exactly the peer, if a peer key is set, without a name. */
  lemma AuthorizeIff(cfg: Config, users: seq<User>, key: bytes, name: string)
    requires SetUpWith(cfg, users)
    ensures Authorize(cfg, key) == Some(name)
       <==> if users != [] then Enrolled(users, key, name) else key == cfg.peerKey != [] && name == ""
  {
    if users != [] {
      assert users[0] in users;
      assert users[0].key in cfg.db.value.byKey;
      if Enrolled(users, key, name) {
        var i :| 0 <= i < |users| && users[i].key == key && users[i].name == name;
        assert users[i] in users;
      }
    } else if cfg.db.Some? {
      assert cfg.db.value.byKey == map[];
    }
  }

  /** Among these events is a handshake of this client with a key the server accepts for `user`. */
  ghost predicate Authorized(cfg: Config, past: seq<Event>, id: ClientId, user: string) {
    exists k :: 0 <= k < |past| && past[k].Handshake? && cfg.derive(past[k].key) == id
                && Authorize(cfg, past[k].key) == Some(user)
  }

  /** `id` has come to hold `a` in this pool by right: the address is in the subnet, and a
      handshake of the client was authorized for a user who may have it, which for a reserved
      address is only the one whom the database records as its owner. */
  ghost predicate Rightful(cfg: Config, past: seq<Event>, p: Pool, id: ClientId, a: Addr) {
    && Contains(p.subnet, a)
    && exists user :: Authorized(cfg, past, id, user) && Entitled(p.reserved, cfg.db, user, a)
  }

  ghost function RulesOf(cfg: Config, base: map<Family, Pool>, past: seq<Event>): Rules {
    Rules((id: ClientId, user: string) => Authorized(cfg, past, id, user),
          (f: Family, id: ClientId, a: Addr) => f in base && Rightful(cfg, past, base[f], id, a))
  }

  /** The pools a server starts with: sound subnets, nothing allocated. */
  ghost predicate FreshPools(base: map<Family, Pool>) {
    base != map[] && forall f :: f in base ==>
      base[f].subnet.family == f && ValidSubnet(base[f].subnet) && base[f].used == {} && base[f].byClient == map[]
  }

  /** The pool a server builds from its subnet, its own address and its users' reservations. */
  function ServerPool(db: Option<UserDb>, s: Prefix, serverIp: Addr): Option<Pool>
    requires ValidPrefix(s)
  {
    NewPool(s, {serverIp} + (if db.Some? then Reservations(db.value, s.family) else {}))
  }

  /** Its own address, the network address, the IPv4 broadcast address and every reservation in the
      database are reserved, and no other; and nothing is allocated. */
  lemma ServerPoolReserves(db: Option<UserDb>, s: Prefix, serverIp: Addr)
    requires ValidSubnet(s) && (db.Some? ==> Agrees(db.value))
    ensures var p := ServerPool(db, s, serverIp);
      && p.Some? && p.value.subnet == s && p.value.used == {} && p.value.byClient == map[]
      && NetAddr(s) in p.value.reserved && (serverIp != Invalid ==> serverIp in p.value.reserved)
      && (s.family == F4 ==>
            && Broadcast4(s) < 0x1_0000_0000 && V4(Broadcast4(s)) in p.value.reserved && Contains(s, V4(Broadcast4(s)))
            && forall a: Addr :: Contains(s, a) ==> a.Num() <= Broadcast4(s))
      && (db.Some? ==> forall a: Addr :: a.Is(s.family) && Owner(db.value, a) != "" ==> a in p.value.reserved)
      && forall a: Addr :: a in p.value.reserved ==>
           || a == NetAddr(s) || a == serverIp || (s.family == F4 && a == V4(Broadcast4(s)))
           || (db.Some? && a in Reservations(db.value, s.family))
  {
    if s.family == F4 {
      BroadcastIsLast(s);
    }
  }

  lemma AllocationIsRightful(cfg: Config, base: map<Family, Pool>, past: seq<Event>, f: Family, p: Pool, key: bytes, pref: Addr)
    requires WfConfig(cfg) && FreshPools(base) && f in base && Authorize(cfg, key).Some?
    requires Authorized(cfg, past, cfg.derive(key), Authorize(cfg, key).value)
    requires p.subnet == base[f].subnet && p.reserved == base[f].reserved && PoolRight(RulesOf(cfg, base, past), f, p)
    ensures AllocationRight(cfg, RulesOf(cfg, base, past), f, p, key, pref)
  {
    var id, user := cfg.derive(key), Authorize(cfg, key).value;
    ChoiceIsRightful(cfg, base[f], past, p, user, id, pref);
    ChoiceDecides(cfg, RulesOf(cfg, base, past), f, p, key, pref);
  }

  /** Only a new choice can be wrong. */
  lemma ChoiceDecides(cfg: Config, r: Rules, f: Family, p: Pool, key: bytes, pref: Addr)
    requires p.subnet.bits <= 128 && Authorize(cfg, key).Some? && r.auth(cfg.derive(key), Authorize(cfg, key).value)
    requires PoolRight(r, f, p)
    requires var c := Choose(p, Authorize(cfg, key).value, cfg.derive(key), pref, cfg.db, cfg.hash);
      c.Some? ==> r.right(f, cfg.derive(key), c.value)
    ensures AllocationRight(cfg, r, f, p, key, pref)
  {
  }

  lemma ChoiceIsRightful(cfg: Config, base: Pool, past: seq<Event>, p: Pool, user: string, id: ClientId, pref: Addr)
    requires WfConfig(cfg) && ValidSubnet(base.subnet) && p.subnet == base.subnet && p.reserved == base.reserved
    requires Authorized(cfg, past, id, user)
    ensures var c := Choose(p, user, id, pref, cfg.db, cfg.hash); c.Some? ==> Rightful(cfg, past, base, id, c.value)
  {
    assert KnownUser(cfg.db, user);
    ChoiceFits(p, user, id, pref, cfg.db, cfg.hash);
  }

  lemma RulesAreObeyed(cfg: Config, base: map<Family, Pool>, past: seq<Event>, e: Event)
    requires WfConfig(cfg) && FreshPools(base) && e in past
    ensures Given(cfg, RulesOf(cfg, base, past), base, e)
  {
    if e.Handshake? && Authorize(cfg, e.key).Some? {
      assert Authorized(cfg, past, cfg.derive(e.key), Authorize(cfg, e.key).value);
      forall f, p: Pool, pref |
        f in base && p.subnet == base[f].subnet && p.reserved == base[f].reserved && PoolRight(RulesOf(cfg, base, past), f, p)
        ensures AllocationRight(cfg, RulesOf(cfg, base, past), f, p, e.key, pref)
      {
        AllocationIsRightful(cfg, base, past, f, p, e.key, pref);
      }
    }
  }

  lemma AuthorizedGrows(cfg: Config, past: seq<Event>, e: Event, id: ClientId, user: string)
    requires Authorized(cfg, past, id, user)
    ensures Authorized(cfg, past + [e], id, user)
  {
    var k :| 0 <= k < |past| && past[k].Handshake? && cfg.derive(past[k].key) == id && Authorize(cfg, past[k].key) == Some(user);
    assert (past + [e])[k] == past[k];
  }

  lemma RightfulGrows(cfg: Config, past: seq<Event>, e: Event, p: Pool, id: ClientId, a: Addr)
    requires Rightful(cfg, past, p, id, a)
    ensures Rightful(cfg, past + [e], p, id, a)
  {
    var user :| Authorized(cfg, past, id, user) && Entitled(p.reserved, cfg.db, user, a);
    AuthorizedGrows(cfg, past, e, id, user);
  }

  lemma InvGrows(cfg: Config, base: map<Family, Pool>, past: seq<Event>, e: Event, m: Server)
    requires Inv(cfg, RulesOf(cfg, base, past), base, m)
    ensures Inv(cfg, RulesOf(cfg, base, past + [e]), base, m)
  {
    var r, r' := RulesOf(cfg, base, past), RulesOf(cfg, base, past + [e]);
    forall id, u | r.auth(id, u) ensures r'.auth(id, u) {
      AuthorizedGrows(cfg, past, e, id, u);
    }
    forall f, id, a | r.right(f, id, a) ensures r'.right(f, id, a) {
      RightfulGrows(cfg, past, e, base[f], id, a);
    }
    RightsGrow(r, r', base, m);
  }

  // ---------------------------------------------------------------- runs

  ghost predicate Stepped(cfg: Config, ms: seq<Server>, es: seq<Event>, i: nat) {
    i < |es| && |ms| == |es| + 1 && UsablePools(ms[i]) && ms[i + 1] == Step(cfg, ms[i], es[i])
  }

  /** The states of a run: each is the step of the one before it. */
  ghost predicate IsRun(cfg: Config, base: map<Family, Pool>, ms: seq<Server>, es: seq<Event>) {
    |ms| == |es| + 1 && ms[0] == Start(base) && forall i: nat :: i < |es| ==> Stepped(cfg, ms, es, i)
  }

  lemma StepTo(cfg: Config, base: map<Family, Pool>, ms: seq<Server>, es: seq<Event>, i: nat)
    requires IsRun(cfg, base, ms, es) && 0 < i < |ms|
    ensures UsablePools(ms[i - 1]) && ms[i] == Step(cfg, ms[i - 1], es[i - 1])
  {
    assert Stepped(cfg, ms, es, i - 1);
  }

  lemma StartOk(cfg: Config, base: map<Family, Pool>)
    requires FreshPools(base)
    ensures Inv(cfg, RulesOf(cfg, base, []), base, Start(base))
  {
  }

  /** Every state of every interleaving. */
  lemma {:induction false} InvAlways(cfg: Config, base: map<Family, Pool>, ms: seq<Server>, es: seq<Event>, i: nat)
    requires WfConfig(cfg) && FreshPools(base) && IsRun(cfg, base, ms, es) && i < |ms|
    ensures Inv(cfg, RulesOf(cfg, base, es[..i]), base, ms[i])
    decreases i
  {
    if i == 0 {
      StartOk(cfg, base);
      assert es[..0] == [];
    } else {
      InvAlways(cfg, base, ms, es, i - 1);
      InvAfter(cfg, base, ms, es, i);
    }
  }

  lemma InvAfter(cfg: Config, base: map<Family, Pool>, ms: seq<Server>, es: seq<Event>, i: nat)
    requires WfConfig(cfg) && FreshPools(base) && IsRun(cfg, base, ms, es) && 0 < i < |ms|
    requires Inv(cfg, RulesOf(cfg, base, es[..i - 1]), base, ms[i - 1])
    ensures Inv(cfg, RulesOf(cfg, base, es[..i]), base, ms[i])
  {
    var past, e := es[..i - 1], es[i - 1];
    assert es[..i] == past + [e];
    InvGrows(cfg, base, past, e, ms[i - 1]);
    RulesAreObeyed(cfg, base, es[..i], e);
    StepTo(cfg, base, ms, es, i);
    StepKeeps(cfg, RulesOf(cfg, base, es[..i]), base, ms[i - 1], e);
  }

  lemma LinkedAlways(cfg: Config, base: map<Family, Pool>, ms: seq<Server>, es: seq<Event>, i: nat)
    requires WfConfig(cfg) && FreshPools(base) && IsRun(cfg, base, ms, es) && i < |ms|
    ensures Linked(ms[i])
  {
    InvAlways(cfg, base, ms, es, i);
  }

  lemma PlacesAlways(cfg: Config, base: map<Family, Pool>, ms: seq<Server>, es: seq<Event>, i: nat)
    requires WfConfig(cfg) && FreshPools(base) && IsRun(cfg, base, ms, es) && i < |ms|
    ensures SamePlaces(base, ms[i].pools)
  {
    InvAlways(cfg, base, ms, es, i);
  }

  lemma UsableAlways(cfg: Config, base: map<Family, Pool>, ms: seq<Server>, es: seq<Event>, i: nat)
    requires WfConfig(cfg) && FreshPools(base) && IsRun(cfg, base, ms, es) && i < |ms|
    ensures UsablePools(ms[i])
  {
    PlacesAlways(cfg, base, ms, es, i);
  }

  lemma ExtendRun(cfg: Config, base: map<Family, Pool>, ms: seq<Server>, es: seq<Event>, e: Event, m: Server)
    requires IsRun(cfg, base, ms, es) && UsablePools(ms[|es|]) && m == Step(cfg, ms[|es|], e)
    ensures IsRun(cfg, base, ms + [m], es + [e])
  {
    var ms', es' := ms + [m], es + [e];
    forall i: nat | i < |es'| ensures Stepped(cfg, ms', es', i) {
      assert ms'[i] == ms[i];
      if i < |es| {
        assert Stepped(cfg, ms, es, i);
        assert es'[i] == es[i] && ms'[i + 1] == ms[i + 1];
      }
    }
  }

  /** No schedule of events gets stuck, so the theorems about runs are about every schedule. */
  lemma {:induction false} EveryScheduleRuns(cfg: Config, base: map<Family, Pool>, es: seq<Event>)
    returns (ms: seq<Server>)
    requires WfConfig(cfg) && FreshPools(base)
    ensures IsRun(cfg, base, ms, es)
    decreases |es|
  {
    if es == [] {
      ms := [Start(base)];
    } else {
      var n := |es| - 1;
      var before := EveryScheduleRuns(cfg, base, es[..n]);
      UsableAlways(cfg, base, before, es[..n], n);
      var m := Step(cfg, before[n], es[n]);
      ExtendRun(cfg, base, before, es[..n], es[n], m);
      assert es == es[..n] + [es[n]];
      ms := before + [m];
    }
  }

  /** Some run of the schedule `es` ends in `m`. */
  ghost predicate Reach(cfg: Config, base: map<Family, Pool>, es: seq<Event>, m: Server) {
    exists ms :: IsRun(cfg, base, ms, es) && ms[|es|] == m
  }

  lemma ReachStart(cfg: Config, base: map<Family, Pool>)
    ensures Reach(cfg, base, [], Start(base))
  {
    assert IsRun(cfg, base, [Start(base)], []);
  }

  lemma ReachStep(cfg: Config, base: map<Family, Pool>, es: seq<Event>, m: Server, e: Event) returns (n: Server)
    requires WfConfig(cfg) && FreshPools(base) && Reach(cfg, base, es, m)
    ensures UsablePools(m) && n == Step(cfg, m, e) && Reach(cfg, base, es + [e], n)
  {
    var ms :| IsRun(cfg, base, ms, es) && ms[|es|] == m;
    UsableAlways(cfg, base, ms, es, |es|);
    n := Step(cfg, m, e);
    ExtendRun(cfg, base, ms, es, e, n);
    assert (ms + [n])[|es + [e]|] == n;
  }

  lemma ReachPlaces(cfg: Config, base: map<Family, Pool>, es: seq<Event>, m: Server)
    requires WfConfig(cfg) && FreshPools(base) && Reach(cfg, base, es, m)
    ensures SamePlaces(base, m.pools)
  {
    var ms :| IsRun(cfg, base, ms, es) && ms[|es|] == m;
    PlacesAlways(cfg, base, ms, es, |es|);
  }

  // ---------------------------------------------------------------- every session has an assignment

  ghost predicate AllAssigned(base: map<Family, Pool>, heap: map<Sid, Session>) {
    forall sid :: sid in heap ==> Assigned(base, heap[sid].addrs)
  }

  lemma SamePlacesAssigned(base: map<Family, Pool>, pools: map<Family, Pool>, addrs: map<Family, Addr>)
    requires SamePlaces(base, pools)
    ensures Assigned(base, addrs) <==> Assigned(pools, addrs)
  {
  }

  lemma FinishAssigned(cfg: Config, base: map<Family, Pool>, m: Server, h: nat, now: int)
    requires SamePlaces(base, m.pools) && AllAssigned(base, m.heap)
    ensures AllAssigned(base, FinishStep(cfg, m, h, now).heap)
  {
    if h in m.shakes {
      SamePlacesAssigned(base, m.pools, m.shakes[h].addrs);
    }
  }

  lemma CloseAssigned(base: map<Family, Pool>, m: Server, sid: Sid)
    requires AllAssigned(base, m.heap)
    ensures AllAssigned(base, CloseStep(m, sid).heap)
  {
  }

  lemma StepAssigned(cfg: Config, base: map<Family, Pool>, m: Server, e: Event)
    requires SamePlaces(base, m.pools) && UsablePools(m) && AllAssigned(base, m.heap)
    ensures AllAssigned(base, Step(cfg, m, e).heap)
  {
    StepIs(cfg, m, e);
    match e {
      case Handshake(key, want, lanes) => HandshakeFrame(cfg, m, key, want, lanes);
      case Reject(key) => FailedFrame(m, cfg.derive(key));
      case Abort(h) => if h in m.shakes { FailedFrame(Without(m, h), m.shakes[h].id); }
      case Finish(h, now) => FinishAssigned(cfg, base, m, h, now);
      case ReleaseRefused(id) =>
      case Collect(now) =>
      case CollectAll =>
      case Close(sid) => CloseAssigned(base, m, sid);
      case Pay(sid) => PayFrame(cfg, m, sid);
      case _ => DataFrame(cfg, m, e);
    }
  }

  lemma AssignedAfter(cfg: Config, base: map<Family, Pool>, ms: seq<Server>, es: seq<Event>, i: nat)
    requires WfConfig(cfg) && FreshPools(base) && IsRun(cfg, base, ms, es) && 0 < i < |ms|
    requires AllAssigned(base, ms[i - 1].heap)
    ensures AllAssigned(base, ms[i].heap)
  {
    PlacesAlways(cfg, base, ms, es, i - 1);
    StepTo(cfg, base, ms, es, i);
    StepAssigned(cfg, base, ms[i - 1], es[i - 1]);
  }

  lemma {:induction false} AssignedAlways(cfg: Config, base: map<Family, Pool>, ms: seq<Server>, es: seq<Event>, i: nat)
    requires WfConfig(cfg) && FreshPools(base) && IsRun(cfg, base, ms, es) && i < |ms|
    ensures AllAssigned(base, ms[i].heap)
    decreases i
  {
    if i == 0 {
    } else {
      AssignedAlways(cfg, base, ms, es, i - 1);
      AssignedAfter(cfg, base, ms, es, i);
    }
  }

  /** Routing safety, in every interleaving, address clashes included: each index entry points
      to a live session that was assigned that address, and every packet in any session's queue
      has one of that session's own addresses as inner destination; queues hold at most 256. */
  lemma RoutingSafety(cfg: Config, base: map<Family, Pool>, vnetHdr: bool, ms: seq<Server>, es: seq<Event>, i: nat)
    requires WfConfig(cfg) && FreshPools(base) && RoutesInner(cfg, vnetHdr)
    requires IsRun(cfg, base, ms, es) && i < |ms|
    ensures forall a :: a in ms[i].ipIndex ==> Live(ms[i], ms[i].ipIndex[a]) && Holds(ms[i].heap[ms[i].ipIndex[a]], a)
    ensures forall sid :: sid in ms[i].heap ==> |ms[i].heap[sid].outbound| <= QUEUE
    ensures forall sid, k :: sid in ms[i].heap && 0 <= k < |ms[i].heap[sid].outbound| ==>
              var dst := InnerDst(ms[i].heap[sid].outbound[k], vnetHdr);
              dst.Some? && Holds(ms[i].heap[sid], dst.value)
  {
    InvAlways(cfg, base, ms, es, i);
    QueuesAreRouted(cfg, vnetHdr, ms[i]);
  }

  lemma QueuesAreRouted(cfg: Config, vnetHdr: bool, m: Server)
    requires RoutesInner(cfg, vnetHdr) && Delivery(cfg, m)
    ensures forall sid :: sid in m.heap ==> |m.heap[sid].outbound| <= QUEUE
    ensures forall sid, k :: sid in m.heap && 0 <= k < |m.heap[sid].outbound| ==>
              var dst := InnerDst(m.heap[sid].outbound[k], vnetHdr);
              dst.Some? && Holds(m.heap[sid], dst.value)
  {
    forall sid, k | sid in m.heap && 0 <= k < |m.heap[sid].outbound|
      ensures Mine(cfg, m.heap[sid], m.heap[sid].outbound[k])
    {
      assert QueueOk(cfg, m.heap[sid]);
    }
  }

  /** Reservation safety, in every interleaving: whoever is on record for an address got it after a
      handshake with an authorized key, the address lies in the pool's subnet and family, and a
      reserved one is on record only for a client that came with its owner's key. */
  lemma ReservationSafety(cfg: Config, base: map<Family, Pool>, ms: seq<Server>, es: seq<Event>, i: nat, f: Family, id: ClientId)
    returns (k: nat)
    requires WfConfig(cfg) && FreshPools(base) && IsRun(cfg, base, ms, es) && i < |ms|
    requires f in ms[i].pools && id in ms[i].pools[f].byClient
    ensures k < i && es[k].Handshake? && cfg.derive(es[k].key) == id && Authorize(cfg, es[k].key).Some?
    ensures if cfg.db.Some? then es[k].key in cfg.db.value.byKey else es[k].key == cfg.peerKey != []
    ensures f in base && var a := ms[i].pools[f].byClient[id];
      && Contains(base[f].subnet, a) && a.Is(f)
      && (a in base[f].reserved ==> cfg.db.Some? && cfg.db.value.byKey[es[k].key].name == Owner(cfg.db.value, a) != "")
  {
    InvAlways(cfg, base, ms, es, i);
    var a, past := ms[i].pools[f].byClient[id], es[..i];
    assert PoolRight(RulesOf(cfg, base, past), f, ms[i].pools[f]);
    assert Rightful(cfg, past, base[f], id, a);
    var user :| Authorized(cfg, past, id, user) && Entitled(base[f].reserved, cfg.db, user, a);
    k :| 0 <= k < |past| && past[k].Handshake? && cfg.derive(past[k].key) == id && Authorize(cfg, past[k].key) == Some(user);
  }

  /** The same in terms of the list of users: whoever is on record came with the key of a listed
      user, who reserves the address if it is a reserved one; without a list, with the peer's key. */
  lemma ListedSafety(cfg: Config, base: map<Family, Pool>, users: seq<User>, ms: seq<Server>, es: seq<Event>, i: nat,
                     f: Family, id: ClientId)
    returns (k: nat, u: nat)
    requires SetUpWith(cfg, users) && (cfg.db.Some? ==> users != []) && FreshPools(base)
    requires IsRun(cfg, base, ms, es) && i < |ms| && f in ms[i].pools && id in ms[i].pools[f].byClient
    ensures k < i && es[k].Handshake? && cfg.derive(es[k].key) == id && f in base
    ensures if users == [] then es[k].key == cfg.peerKey != [] && ms[i].pools[f].byClient[id] !in base[f].reserved
            else u < |users| && users[u].key == es[k].key
                 && (ms[i].pools[f].byClient[id] in base[f].reserved ==> ms[i].pools[f].byClient[id] in users[u].reserved)
  {
    u := 0;
    if users != [] {
      ConstructedConfig(cfg, users);
    }
    k := ReservationSafety(cfg, base, ms, es, i, f, id);
    if users != [] {
      var owner := cfg.db.value.byKey[es[k].key];
      u :| 0 <= u < |users| && users[u] == owner;
      OwnersList(cfg.db.value, users, u, ms[i].pools[f].byClient[id]);
    }
  }

  lemma OwnersList(db: UserDb, users: seq<User>, u: nat, a: Addr)
    requires Acceptable(users) && Describes(db, users) && u < |users|
    ensures Owner(db, a) == users[u].name <==> a in users[u].reserved
  {
    assert users[u] in users && ValidUser(users[u]);
    ConstructorAgrees(db, users);
  }

  /** What that means on a server's own pools: the network, broadcast and server addresses are on
      record for nobody unless the database gives them to somebody, and an address that the
      database reserves is on record only for a client that came with its owner's key. */
  lemma NobodyElses(cfg: Config, base: map<Family, Pool>, serverIp: Addr, ms: seq<Server>, es: seq<Event>, i: nat, f: Family, id: ClientId)
    requires WfConfig(cfg) && FreshPools(base) && IsRun(cfg, base, ms, es) && i < |ms|
    requires f in ms[i].pools && id in ms[i].pools[f].byClient
    requires f in base && Some(base[f]) == ServerPool(cfg.db, base[f].subnet, serverIp)
    ensures var a, s := ms[i].pools[f].byClient[id], base[f].subnet;
      var owner := if cfg.db.Some? then Owner(cfg.db.value, a) else "";
      && (owner == "" ==> a != serverIp && a != NetAddr(s) && (f == F4 ==> exists b: Addr :: Contains(s, b) && a.Num() < b.Num()))
      && (owner != "" ==> exists k :: 0 <= k < i && es[k].Handshake? && cfg.derive(es[k].key) == id
                                      && es[k].key in cfg.db.value.byKey && cfg.db.value.byKey[es[k].key].name == owner)
  {
    var k := ReservationSafety(cfg, base, ms, es, i, f, id);
    var a, s := ms[i].pools[f].byClient[id], base[f].subnet;
    ServerPoolReserves(cfg.db, s, serverIp);
    if s.family == F4 && V4(Broadcast4(s)) != a {
      assert a.Num() < V4(Broadcast4(s)).Num();
    }
  }
}
