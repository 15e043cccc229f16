/** What a handshake is offered: its client's record, its wish, its user's reservation, or a free address. */
module ControlOffers {
  import opened Bytes
  import opened Addr
  import opened Users
  import opened AddrPool
  import opened Control
  import opened ControlSafety
  import opened ControlRuns
  import opened ControlUsed

  /** From `m` to `n` a handshake of this client and user is offered `a`, which goes on record. */
  ghost predicate OfferedNow(m: Server, n: Server, id: ClientId, user: string, f: Family, a: Addr) {
    && m.nextShake in n.shakes && n.shakes[m.nextShake].id == id && n.shakes[m.nextShake].user == user
    && f in n.shakes[m.nextShake].addrs && n.shakes[m.nextShake].addrs[f] == a
    && f in n.pools && id in n.pools[f].byClient && n.pools[f].byClient[id] == a
  }

  lemma AnswerIsOffered(cfg: Config, m: Server, key: bytes, want: map<Family, Addr>, lanes: nat, user: string, f: Family, a: Addr)
    requires UsablePools(m) && Authorize(cfg, key) == Some(user) && f in m.pools
    requires Answer(m.pools[f], user, cfg.derive(key), Wanted(want, f), cfg.db, cfg.hash) == Some(a)
    ensures OfferedNow(m, StartHandshake(cfg, m, key, want, lanes), cfg.derive(key), user, f, a)
  {
  }

  /** The wish of a handshake for one family. */
  function Wish(e: Event, f: Family): Addr
    requires e.Handshake?
  {
    Wanted(e.want, f)
  }

  lemma OfferOf(cfg: Config, m: Server, e: Event, user: string, f: Family, k: nat)
    requires UsablePools(m) && f in m.pools && ValidSubnet(m.pools[f].subnet) && e.Handshake? && Authorize(cfg, e.key) == Some(user)
    ensures var p, id, n := m.pools[f], cfg.derive(e.key), StartHandshake(cfg, m, e.key, e.want, e.lanes);
      if id in p.byClient then OfferedNow(m, n, id, user, f, p.byClient[id])
      else if MayAsk(p, cfg.db, user, Wish(e, f)) then OfferedNow(m, n, id, user, f, Wish(e, f))
      else FirstUsable(p, OwnList(cfg.db, user), k) ==> OfferedNow(m, n, id, user, f, OwnList(cfg.db, user)[k])
  {
    AnswerIs(m.pools[f], user, cfg.derive(e.key), Wish(e, f), cfg.db, cfg.hash, k);
    var r := Answer(m.pools[f], user, cfg.derive(e.key), Wish(e, f), cfg.db, cfg.hash);
    if r.Some? {
      AnswerIsOffered(cfg, m, e.key, e.want, e.lanes, user, f, r.value);
    }
  }

  /** What an authorized handshake is offered, in every interleaving: the address on record; else
      the wish, if the user may have it; else the first usable address of the user's own list. */
  lemma OfferIs(cfg: Config, base: map<Family, Pool>, ms: seq<Server>, es: seq<Event>, i: nat, user: string, f: Family, k: nat)
    requires WfConfig(cfg) && FreshPools(base) && IsRun(cfg, base, ms, es) && i < |es| && f in base
    requires es[i].Handshake? && Authorize(cfg, es[i].key) == Some(user)
    ensures f in ms[i].pools && var p, id := ms[i].pools[f], cfg.derive(es[i].key);
      if id in p.byClient then OfferedNow(ms[i], ms[i + 1], id, user, f, p.byClient[id])
      else if MayAsk(p, cfg.db, user, Wish(es[i], f)) then OfferedNow(ms[i], ms[i + 1], id, user, f, Wish(es[i], f))
      else FirstUsable(p, OwnList(cfg.db, user), k) ==> OfferedNow(ms[i], ms[i + 1], id, user, f, OwnList(cfg.db, user)[k])
  {
    PlacesAlways(cfg, base, ms, es, i);
    StepTo(cfg, base, ms, es, i + 1);
    StepIs(cfg, ms[i], es[i]);
    OfferOf(cfg, ms[i], es[i], user, f, k);
  }

  // ---------------------------------------------------------------- the list of users

  lemma ListedUser(cfg: Config, users: seq<User>, u: nat)
    requires cfg.db.Some? && SetUpWith(cfg, users) && u < |users|
    ensures WfConfig(cfg) && Authorize(cfg, users[u].key) == Some(users[u].name)
    ensures OwnList(cfg.db, users[u].name) == users[u].reserved
  {
    ConstructedConfig(cfg, users);
    AuthorizeIff(cfg, users, users[u].key, users[u].name);
    assert users[u] in users && ValidUser(users[u]);
  }

  /** A listed user without a record, who asks for nothing in particular, is offered the first
      address of its own list that lies in the subnet and is not used. */
  lemma OwnIsOffered(cfg: Config, base: map<Family, Pool>, users: seq<User>, u: nat, k: nat,
                     ms: seq<Server>, es: seq<Event>, i: nat, f: Family)
    requires cfg.db.Some? && SetUpWith(cfg, users) && u < |users| && FreshPools(base) && f in base
    requires IsRun(cfg, base, ms, es) && i < |es| && es[i].Handshake? && es[i].key == users[u].key && f !in es[i].want
    requires f in ms[i].pools && cfg.derive(users[u].key) !in ms[i].pools[f].byClient
    requires FirstUsable(ms[i].pools[f], users[u].reserved, k)
    ensures OfferedNow(ms[i], ms[i + 1], cfg.derive(users[u].key), users[u].name, f, users[u].reserved[k])
  {
    ListedUser(cfg, users, u);
    OfferIs(cfg, base, ms, es, i, users[u].name, f, k);
  }

  /** A listed user's reservation is used by nobody else. */
  lemma OwnIsUnused(cfg: Config, base: map<Family, Pool>, users: seq<User>, u: nat, a: Addr, serverIp: Addr,
                    ms: seq<Server>, es: seq<Event>, i: nat, f: Family)
    requires cfg.db.Some? && SetUpWith(cfg, users) && u < |users| && FreshPools(base) && f in base
    requires ServerPool(cfg.db, base[f].subnet, serverIp) == Some(base[f])
    requires IsRun(cfg, base, ms, es) && i < |ms| && f in ms[i].pools && Freeable(ms[i].pools[f])
    requires a in users[u].reserved && a.Is(f) && cfg.derive(users[u].key) !in ms[i].pools[f].byClient
    ensures a !in ms[i].pools[f].used
  {
    if a in ms[i].pools[f].used {
      var id :| id in ms[i].pools[f].byClient && ms[i].pools[f].byClient[id] == a;
      ListedUser(cfg, users, u);
      OwnIsReserved(cfg, users, u, a, base[f], serverIp);
      var k, v := ListedSafety(cfg, base, users, ms, es, i, f, id);
      OnlyOneReserves(users, u, v, a);
    }
  }

  lemma OwnIsReserved(cfg: Config, users: seq<User>, u: nat, a: Addr, p: Pool, serverIp: Addr)
    requires cfg.db.Some? && SetUpWith(cfg, users) && u < |users| && a in users[u].reserved
    requires ValidSubnet(p.subnet) && ServerPool(cfg.db, p.subnet, serverIp) == Some(p) && a.Is(p.subnet.family)
    ensures a in p.reserved
  {
    OwnersList(cfg.db.value, users, u, a);
    ConstructorAgrees(cfg.db.value, users);
    assert ValidUser(users[u]);
    ServerPoolReserves(cfg.db, p.subnet, serverIp);
  }

  lemma OnlyOneReserves(users: seq<User>, u: nat, v: nat, a: Addr)
    requires Acceptable(users) && u < |users| && v < |users| && a in users[u].reserved && a in users[v].reserved
    ensures u == v
  {
    assert u < v ==> Apart(users[u], users[v]);
    assert v < u ==> Apart(users[v], users[u]);
  }

  /** Reservations are honoured: on a server's own pools, as long as no step has taken an address
      out of service, a listed user without a record who asks for nothing in particular is offered
      the first address of its own list that lies in the subnet, whatever the others do. */
  lemma ReservationHonoured(cfg: Config, base: map<Family, Pool>, users: seq<User>, u: nat, k: nat, serverIp: Addr,
                            ms: seq<Server>, es: seq<Event>, i: nat, f: Family)
    requires cfg.db.Some? && SetUpWith(cfg, users) && u < |users| && FreshPools(base) && f in base
    requires ServerPool(cfg.db, base[f].subnet, serverIp) == Some(base[f])
    requires IsRun(cfg, base, ms, es) && i < |es| && forall j :: 0 <= j < i ==> !Strands(cfg, ms[j], es[j])
    requires es[i].Handshake? && es[i].key == users[u].key && f !in es[i].want
    requires f in ms[i].pools && cfg.derive(users[u].key) !in ms[i].pools[f].byClient
    requires k < |users[u].reserved| && Contains(base[f].subnet, users[u].reserved[k])
    requires forall j :: 0 <= j < k ==> !Contains(base[f].subnet, users[u].reserved[j])
    ensures OfferedNow(ms[i], ms[i + 1], cfg.derive(users[u].key), users[u].name, f, users[u].reserved[k])
  {
    FreeableSoFar(cfg, base, ms, es, i);
    OwnIsUnused(cfg, base, users, u, users[u].reserved[k], serverIp, ms, es, i, f);
    SubnetKept(cfg, base, users, ms, es, i, f);
    FirstInSubnet(base[f], ms[i].pools[f], users[u].reserved, k);
    OwnIsOffered(cfg, base, users, u, k, ms, es, i, f);
  }

  lemma SubnetKept(cfg: Config, base: map<Family, Pool>, users: seq<User>, ms: seq<Server>, es: seq<Event>, i: nat, f: Family)
    requires cfg.db.Some? && SetUpWith(cfg, users) && users != [] && FreshPools(base) && f in base
    requires IsRun(cfg, base, ms, es) && i < |ms|
    ensures f in ms[i].pools && ms[i].pools[f].subnet == base[f].subnet
  {
    ConstructedConfig(cfg, users);
    PlacesAlways(cfg, base, ms, es, i);
  }

  lemma FirstInSubnet(base: Pool, p: Pool, rs: seq<Addr>, k: nat)
    requires p.subnet == base.subnet && k < |rs| && Contains(base.subnet, rs[k]) && rs[k] !in p.used
    requires forall j :: 0 <= j < k ==> !Contains(base.subnet, rs[j])
    ensures FirstUsable(p, rs, k)
  {
  }

  /** On a server's own pools, an authorized client without a record that asks for an address of the
      subnet that is not used, not reserved and not all-zero is offered it. */
  lemma WishIsOffered(cfg: Config, base: map<Family, Pool>, serverIp: Addr, ms: seq<Server>, es: seq<Event>, i: nat,
                      user: string, f: Family)
    requires WfConfig(cfg) && FreshPools(base) && IsRun(cfg, base, ms, es) && i < |es| && f in base
    requires ServerPool(cfg.db, base[f].subnet, serverIp) == Some(base[f])
    requires es[i].Handshake? && Authorize(cfg, es[i].key) == Some(user) && f in es[i].want
    requires f in ms[i].pools && cfg.derive(es[i].key) !in ms[i].pools[f].byClient
    requires var a := es[i].want[f];
      Contains(base[f].subnet, a) && a !in ms[i].pools[f].used && a !in base[f].reserved && a != V4(0) && a != V6(0)
    ensures OfferedNow(ms[i], ms[i + 1], cfg.derive(es[i].key), user, f, es[i].want[f])
  {
    var a := es[i].want[f];
    PlacesAlways(cfg, base, ms, es, i);
    ServerPoolReserves(cfg.db, base[f].subnet, serverIp);
    assert cfg.db.Some? ==> Owner(cfg.db.value, a) == "";
    OfferIs(cfg, base, ms, es, i, user, f, 0);
  }
}
