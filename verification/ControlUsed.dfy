/** Which steps take an address out of service: used, and on record for nobody. */
module ControlUsed {
  import opened Bytes
  import opened Addr
  import opened Users
  import opened AddrPool
  import opened Control
  import opened ControlSafety
  import opened ControlRuns
  import opened ControlSticky
  import opened ControlPending
  import opened ControlLeaks

  /** Every used address is on record for somebody, so that a release can free it. */
  ghost predicate Freeable(p: Pool) {
    p.used <= p.byClient.Values
  }

  ghost predicate AllFreeable(pools: map<Family, Pool>) {
    forall f :: f in pools ==> Freeable(pools[f])
  }

  /** Claiming `a` replaces another used address of the client which nobody else has on record. */
  ghost predicate ClaimStrands(p: Pool, id: ClientId, a: Addr) {
    && a.Is(p.subnet.family) && id in p.byClient && p.byClient[id] != a && p.byClient[id] in p.used
    && forall j :: j in p.byClient && j != id ==> p.byClient[j] != p.byClient[id]
  }

  /** The step makes a session whose claim does that. */
  ghost predicate Strands(cfg: Config, m: Server, e: Event) {
    && e.Finish? && e.h in m.shakes && Seats(cfg, m, m.shakes[e.h])
    && exists f :: f in m.pools && f in m.shakes[e.h].addrs
                   && ClaimStrands(m.pools[f], m.shakes[e.h].id, m.shakes[e.h].addrs[f])
  }

  // ---------------------------------------------------------------- one pool

  lemma RecordFreeable(p: Pool, id: ClientId, a: Addr)
    requires Freeable(p) && id !in p.byClient
    ensures Freeable(Record(p, id, a))
  {
    var q := Record(p, id, a);
    forall b | b in q.used ensures b in q.byClient.Values {
      if b == a {
        assert q.byClient[id] == a;
      } else {
        var j :| j in p.byClient && p.byClient[j] == b;
        assert q.byClient[j] == b;
      }
    }
  }

  lemma AllocateFreeable(p: Pool, user: string, id: ClientId, pref: Addr, db: Option<UserDb>, hash: Hash)
    requires Freeable(p) && p.subnet.bits <= 128
    ensures Freeable(Allocate(p, user, id, pref, db, hash))
  {
    if id !in p.byClient {
      match Choose(p, user, id, pref, db, hash)
      case None =>
      case Some(a) => RecordFreeable(p, id, a);
    }
  }

  lemma ReleaseFreeable(p: Pool, id: ClientId)
    requires Freeable(p)
    ensures Freeable(Release(p, id))
  {
    var q := Release(p, id);
    forall b | b in q.used ensures b in q.byClient.Values {
      var j :| j in p.byClient && p.byClient[j] == b;
      assert j in q.byClient && q.byClient[j] == b;
    }
  }

  lemma ClaimFreeableIff(p: Pool, id: ClientId, a: Addr)
    requires Freeable(p)
    ensures Freeable(Claim(p, id, a)) <==> !ClaimStrands(p, id, a)
  {
    var q := Claim(p, id, a);
    if ClaimStrands(p, id, a) {
      var b := p.byClient[id];
      assert b in q.used;
      forall j | j in q.byClient ensures q.byClient[j] != b {
      }
      assert b !in q.byClient.Values;
    } else if a.Is(p.subnet.family) {
      ClaimFreeable(p, id, a);
    }
  }

  lemma ClaimFreeable(p: Pool, id: ClientId, a: Addr)
    requires Freeable(p) && a.Is(p.subnet.family) && !ClaimStrands(p, id, a)
    ensures Freeable(Record(p, id, a))
  {
    var q := Record(p, id, a);
    forall b | b in q.used ensures b in q.byClient.Values {
      if b == a {
        assert q.byClient[id] == a;
      } else {
        var j :| j in p.byClient && p.byClient[j] == b;
        if j == id {
          var i :| i in p.byClient && i != id && p.byClient[i] == b;
          assert q.byClient[i] == b;
        } else {
          assert q.byClient[j] == b;
        }
      }
    }
  }

  // ---------------------------------------------------------------- steps

  lemma ReleaseAllFreeable(pools: map<Family, Pool>, id: ClientId)
    requires AllFreeable(pools)
    ensures AllFreeable(ReleaseAll(pools, id))
  {
    forall f | f in pools {
      ReleaseFreeable(pools[f], id);
    }
  }

  lemma AllocateAllFreeable(cfg: Config, pools: map<Family, Pool>, user: string, id: ClientId, want: map<Family, Addr>)
    requires AllFreeable(pools) && forall f :: f in pools ==> pools[f].subnet.bits <= 128
    ensures AllFreeable(AllocateAll(cfg, pools, user, id, want))
  {
    forall f | f in pools {
      AllocateFreeable(pools[f], user, id, Wanted(want, f), cfg.db, cfg.hash);
    }
  }

  lemma ClaimAllFreeableIff(pools: map<Family, Pool>, x: Ident)
    requires AllFreeable(pools)
    ensures AllFreeable(ClaimAll(pools, x.id, x.addrs)) <==>
            !(exists f :: f in pools && f in x.addrs && ClaimStrands(pools[f], x.id, x.addrs[f]))
  {
    var q := ClaimAll(pools, x.id, x.addrs);
    forall f | f in pools && f in x.addrs ensures Freeable(q[f]) <==> !ClaimStrands(pools[f], x.id, x.addrs[f]) {
      ClaimFreeableIff(pools[f], x.id, x.addrs[f]);
    }
  }

  lemma FailedFreeable(m: Server, id: ClientId)
    requires AllFreeable(m.pools)
    ensures AllFreeable(FailedHandshake(m, id).pools)
  {
    ReleaseAllFreeable(m.pools, id);
  }

  lemma HandshakeFreeable(cfg: Config, m: Server, key: bytes, want: map<Family, Addr>, lanes: nat)
    requires AllFreeable(m.pools) && UsablePools(m)
    ensures AllFreeable(StartHandshake(cfg, m, key, want, lanes).pools)
  {
    var id := cfg.derive(key);
    match Authorize(cfg, key)
    case None => FailedFreeable(m, id);
    case Some(user) => AllocateAllFreeable(cfg, m.pools, user, id, want);
  }

  lemma FinishFreeableIff(cfg: Config, m: Server, h: nat, now: int)
    requires AllFreeable(m.pools)
    ensures AllFreeable(FinishStep(cfg, m, h, now).pools) <==> !Strands(cfg, m, Finish(h, now))
  {
    if h in m.shakes && Seats(cfg, m, m.shakes[h]) {
      ClaimAllFreeableIff(m.pools, m.shakes[h]);
    }
  }

  /** Exactly which steps take an address out of service: a handshake becomes a session with an
      address that its client no longer has on record, and what it has on record instead is on
      record for nobody else; and no other. */
  lemma FreeableIff(cfg: Config, m: Server, e: Event)
    requires AllFreeable(m.pools) && UsablePools(m)
    ensures AllFreeable(Step(cfg, m, e).pools) <==> !Strands(cfg, m, e)
  {
    StepIs(cfg, m, e);
    match e {
      case Handshake(key, want, lanes) => HandshakeFreeable(cfg, m, key, want, lanes);
      case Reject(key) => FailedFreeable(m, cfg.derive(key));
      case Abort(h) => if h in m.shakes { FailedFreeable(Without(m, h), m.shakes[h].id); }
      case Finish(h, now) => FinishFreeableIff(cfg, m, h, now);
      case ReleaseRefused(id) => ReleaseAllFreeable(m.pools, id);
      case Collect(now) =>
      case CollectAll =>
      case Close(sid) => if Victim(m, sid) { ReleaseAllFreeable(m.pools, m.heap[sid].id); }
      case Pay(sid) => PayFrame(cfg, m, sid);
      case _ => DataFrame(cfg, m, e);
    }
  }

  // ---------------------------------------------------------------- runs

  lemma FreeableAfterIff(cfg: Config, base: map<Family, Pool>, ms: seq<Server>, es: seq<Event>, i: nat)
    requires IsRun(cfg, base, ms, es) && 0 < i < |ms| && AllFreeable(ms[i - 1].pools)
    ensures AllFreeable(ms[i].pools) <==> !Strands(cfg, ms[i - 1], es[i - 1])
  {
    StepTo(cfg, base, ms, es, i);
    FreeableIff(cfg, ms[i - 1], es[i - 1]);
  }

  ghost predicate NoneStrands(cfg: Config, ms: seq<Server>, es: seq<Event>) {
    |ms| == |es| + 1 && forall k :: 0 <= k < |es| ==> !Strands(cfg, ms[k], es[k])
  }

  lemma {:induction false} FreeableSoFar(cfg: Config, base: map<Family, Pool>, ms: seq<Server>, es: seq<Event>, i: nat)
    requires FreshPools(base) && IsRun(cfg, base, ms, es) && i < |ms|
    requires forall k :: 0 <= k < i ==> !Strands(cfg, ms[k], es[k])
    ensures AllFreeable(ms[i].pools)
    decreases i
  {
    if i == 0 {
    } else {
      FreeableSoFar(cfg, base, ms, es, i - 1);
      FreeableAfterIff(cfg, base, ms, es, i);
    }
  }

  /** In every interleaving: every used address is on record for somebody at every moment exactly
      when no step of the run takes one out of service. */
  lemma RunFreeableIff(cfg: Config, base: map<Family, Pool>, ms: seq<Server>, es: seq<Event>)
    requires FreshPools(base) && IsRun(cfg, base, ms, es)
    ensures (forall i :: 0 <= i < |ms| ==> AllFreeable(ms[i].pools)) <==> NoneStrands(cfg, ms, es)
  {
    if NoneStrands(cfg, ms, es) {
      forall i | 0 <= i < |ms| ensures AllFreeable(ms[i].pools) {
        FreeableSoFar(cfg, base, ms, es, i);
      }
    }
    if forall i :: 0 <= i < |ms| ==> AllFreeable(ms[i].pools) {
      forall k | 0 <= k < |es| ensures !Strands(cfg, ms[k], es[k]) {
        assert AllFreeable(ms[k].pools) && AllFreeable(ms[k + 1].pools);
        FreeableAfterIff(cfg, base, ms, es, k + 1);
      }
    }
  }

  // ---------------------------------------------------------------- lost for good

  /** The address is used, and nobody has it on record or was offered it. */
  ghost predicate Lost(m: Server, f: Family, a: Addr) {
    && f in m.pools && LostIn(m.pools[f], a)
    && forall h :: h in m.shakes && f in m.shakes[h].addrs ==> m.shakes[h].addrs[f] != a
  }

  ghost predicate LostIn(p: Pool, a: Addr) {
    a in p.used && forall id :: id in p.byClient ==> p.byClient[id] != a
  }

  /** What is used is not chosen. */
  lemma ChosenIsUnused(p: Pool, user: string, id: ClientId, pref: Addr, db: Option<UserDb>, hash: Hash)
    requires ValidSubnet(p.subnet)
    ensures var c := Choose(p, user, id, pref, db, hash); c.Some? ==> c.value !in p.used
  {
    ChoiceFits(p, user, id, pref, db, hash);
  }

  lemma AllocateLost(p: Pool, user: string, id: ClientId, pref: Addr, db: Option<UserDb>, hash: Hash, a: Addr)
    requires ValidSubnet(p.subnet) && LostIn(p, a)
    ensures LostIn(Allocate(p, user, id, pref, db, hash), a) && Answer(p, user, id, pref, db, hash) != Some(a)
  {
    ChosenIsUnused(p, user, id, pref, db, hash);
  }

  ghost predicate ValidPools(m: Server) {
    forall f :: f in m.pools ==> ValidSubnet(m.pools[f].subnet)
  }

  lemma HandshakeLost(cfg: Config, m: Server, key: bytes, want: map<Family, Addr>, lanes: nat, f: Family, a: Addr)
    requires ValidPools(m) && UsablePools(m) && Lost(m, f, a)
    ensures Lost(StartHandshake(cfg, m, key, want, lanes), f, a)
  {
    match Authorize(cfg, key)
    case None => FailedLost(m, cfg.derive(key), f, a);
    case Some(user) =>
      AllocateLost(m.pools[f], user, cfg.derive(key), Wanted(want, f), cfg.db, cfg.hash, a);
      OfferLost(m, AllocateAll(cfg, m.pools, user, cfg.derive(key), want),
                Ident(cfg.derive(key), user, Answers(cfg, m.pools, user, cfg.derive(key), want), lanes), f, a);
  }

  lemma OfferLost(m: Server, q: map<Family, Pool>, x: Ident, f: Family, a: Addr)
    requires Lost(m, f, a) && f in q && LostIn(q[f], a) && (f in x.addrs ==> x.addrs[f] != a)
    ensures Lost(Offer(m, q, x), f, a)
  {
  }

  lemma ReleaseLost(m: Server, n: Server, id: ClientId, f: Family, a: Addr)
    requires Lost(m, f, a) && n.pools == ReleaseAll(m.pools, id)
    requires forall h :: h in n.shakes ==> h in m.shakes && n.shakes[h] == m.shakes[h]
    ensures Lost(n, f, a)
  {
  }

  lemma FailedLost(m: Server, id: ClientId, f: Family, a: Addr)
    requires Lost(m, f, a)
    ensures Lost(FailedHandshake(m, id), f, a)
  {
    if id != ZERO_ID && id !in m.sessions {
      ReleaseLost(m, FailedHandshake(m, id), id, f, a);
    }
  }

  lemma FinishLost(cfg: Config, m: Server, x: Ident, now: int, f: Family, a: Addr)
    requires Lost(m, f, a) && (f in x.addrs ==> x.addrs[f] != a)
    ensures Lost(FinishHandshake(cfg, m, x, now), f, a)
  {
  }

  lemma AbortLost(m: Server, h: nat, f: Family, a: Addr)
    requires Lost(m, f, a)
    ensures Lost(AbortStep(m, h), f, a)
  {
    if h in m.shakes {
      FailedLost(Without(m, h), m.shakes[h].id, f, a);
    }
  }

  lemma FinishStepLost(cfg: Config, m: Server, h: nat, now: int, f: Family, a: Addr)
    requires Lost(m, f, a)
    ensures Lost(FinishStep(cfg, m, h, now), f, a)
  {
    if h in m.shakes {
      FinishLost(cfg, Without(m, h), m.shakes[h], now, f, a);
    }
  }

  lemma RefusedLost(m: Server, id: ClientId, f: Family, a: Addr)
    requires Lost(m, f, a)
    ensures Lost(RefusedStep(m, id), f, a)
  {
    if id in m.refused {
      ReleaseLost(m, RefusedStep(m, id), id, f, a);
    }
  }

  lemma CloseLost(m: Server, sid: Sid, f: Family, a: Addr)
    requires Lost(m, f, a)
    ensures Lost(CloseStep(m, sid), f, a)
  {
    if Victim(m, sid) {
      ReleaseLost(m, CloseSession(m, sid), m.heap[sid].id, f, a);
    }
  }

  lemma SameLost(m: Server, n: Server, f: Family, a: Addr)
    requires Lost(m, f, a) && n.pools == m.pools && n.shakes == m.shakes
    ensures Lost(n, f, a)
  {
  }

  lemma SetUpLost(cfg: Config, m: Server, e: Event, f: Family, a: Addr)
    requires ValidPools(m) && UsablePools(m) && Lost(m, f, a) && SetUpEvent(e)
    ensures Lost(Step(cfg, m, e), f, a)
  {
    StepIs(cfg, m, e);
    match e {
      case Handshake(key, want, lanes) => HandshakeLost(cfg, m, key, want, lanes, f, a);
      case Reject(key) => FailedLost(m, cfg.derive(key), f, a);
      case Abort(h) => AbortLost(m, h, f, a);
      case Finish(h, now) => FinishStepLost(cfg, m, h, now, f, a);
    }
  }

  lemma PayLost(cfg: Config, m: Server, sid: Sid, f: Family, a: Addr)
    requires Lost(m, f, a)
    ensures Lost(PayStep(cfg, m, sid), f, a)
  {
    PayFrame(cfg, m, sid);
    SameLost(m, PayStep(cfg, m, sid), f, a);
  }

  lemma SweepLost(cfg: Config, m: Server, e: Event, f: Family, a: Addr)
    requires UsablePools(m) && Lost(m, f, a) && SweepEvent(e)
    ensures Lost(Step(cfg, m, e), f, a)
  {
    StepIs(cfg, m, e);
    match e {
      case ReleaseRefused(id) => RefusedLost(m, id, f, a);
      case Collect(now) => SameLost(m, Unlink(m, now), f, a);
      case CollectAll => SameLost(m, UnlinkAll(m), f, a);
      case Close(sid) => CloseLost(m, sid, f, a);
      case Pay(sid) => PayLost(cfg, m, sid, f, a);
    }
  }

  lemma LostStays(cfg: Config, m: Server, e: Event, f: Family, a: Addr)
    requires ValidPools(m) && UsablePools(m) && Lost(m, f, a)
    ensures Lost(Step(cfg, m, e), f, a)
  {
    if SetUpEvent(e) {
      SetUpLost(cfg, m, e, f, a);
    } else if SweepEvent(e) {
      SweepLost(cfg, m, e, f, a);
    } else {
      StepIs(cfg, m, e);
      DataFrame(cfg, m, e);
      SameLost(m, DataStep(cfg, m, e), f, a);
    }
  }

  lemma ValidAlways(cfg: Config, base: map<Family, Pool>, ms: seq<Server>, es: seq<Event>, i: nat)
    requires WfConfig(cfg) && FreshPools(base) && IsRun(cfg, base, ms, es) && i < |ms|
    ensures ValidPools(ms[i])
  {
    PlacesAlways(cfg, base, ms, es, i);
  }

  lemma LostAfter(cfg: Config, base: map<Family, Pool>, ms: seq<Server>, es: seq<Event>, i: nat, f: Family, a: Addr)
    requires WfConfig(cfg) && FreshPools(base) && IsRun(cfg, base, ms, es) && 0 < i < |ms| && Lost(ms[i - 1], f, a)
    ensures Lost(ms[i], f, a)
  {
    ValidAlways(cfg, base, ms, es, i - 1);
    StepTo(cfg, base, ms, es, i);
    LostStays(cfg, ms[i - 1], es[i - 1], f, a);
  }

  /** An address that is used, on record for nobody and offered to nobody stays so for the rest of
      every run: no release frees it and no client is given it. */
  lemma {:induction false} LostForGood(cfg: Config, base: map<Family, Pool>, ms: seq<Server>, es: seq<Event>,
                                       i: nat, j: nat, f: Family, a: Addr)
    requires WfConfig(cfg) && FreshPools(base) && IsRun(cfg, base, ms, es) && i <= j < |ms| && Lost(ms[i], f, a)
    ensures Lost(ms[j], f, a)
    decreases j
  {
    if i == j {
    } else {
      LostForGood(cfg, base, ms, es, i, j - 1, f, a);
      LostAfter(cfg, base, ms, es, j, f, a);
    }
  }

  // ---------------------------------------------------------------- a run at rest

  /** An undisturbed run that leaves no record behind and comes to rest has in use exactly the
      addresses on record for clients with a live session. */
  lemma RestIsExact(cfg: Config, base: map<Family, Pool>, ms: seq<Server>, es: seq<Event>, i: nat, f: Family, a: Addr)
    requires WfConfig(cfg) && FreshPools(base) && IsRun(cfg, base, ms, es) && i < |ms| && Idle(ms[i])
    requires Undisturbed(cfg, ms, es) && NoneLeaks(ms, es) && f in ms[i].pools
    ensures a in ms[i].pools[f].used <==>
            exists id :: id in ms[i].sessions && id in ms[i].pools[f].byClient && ms[i].pools[f].byClient[id] == a
  {
    InterleavedSafety(cfg, base, ms, es, i);
    IdleIsClean(cfg, base, ms, es, i);
    assert PoolOk(ms[i].pools[f]);
  }
}
