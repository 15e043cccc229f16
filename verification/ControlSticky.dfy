/** Sticky addresses: a live session's pool records, and the two releases that can take them. */
module ControlSticky {
  import opened Bytes
  import opened Addr
  import opened Users
  import opened AddrPool
  import opened Control
  import opened ControlSafety
  import opened ControlRuns

  /** The pool's record for a client is the address its session uses. */
  ghost predicate Recorded(pools: map<Family, Pool>, id: ClientId, addrs: map<Family, Addr>) {
    forall f :: f in addrs ==> f in pools && id in pools[f].byClient && pools[f].byClient[id] == addrs[f]
  }

  /** For every live session and each family it was assigned, the pool keeps that address. */
  ghost predicate Sticky(m: Server) {
    forall id :: id in m.sessions && m.sessions[id] in m.heap ==> Recorded(m.pools, id, m.heap[m.sessions[id]].addrs)
  }

  /** Pools are filed under their own family, and rights are to addresses of that family. */
  ghost predicate ByFamily(r: Rules, base: map<Family, Pool>) {
    forall f :: f in base ==> base[f].subnet.family == f && forall id, a :: r.right(f, id, a) ==> a.Is(f)
  }

  /** While a session lives, allocating for its client answers with the same address and leaves
      the pool alone. */
  lemma StickyAnswer(cfg: Config, m: Server, id: ClientId, f: Family, user: string, pref: Addr)
    requires Sticky(m) && UsablePools(m) && id in m.sessions && m.sessions[id] in m.heap
    requires f in m.heap[m.sessions[id]].addrs
    ensures f in m.pools
    ensures Answer(m.pools[f], user, id, pref, cfg.db, cfg.hash) == Some(m.heap[m.sessions[id]].addrs[f])
    ensures Allocate(m.pools[f], user, id, pref, cfg.db, cfg.hash) == m.pools[f]
  {
    assert Recorded(m.pools, id, m.heap[m.sessions[id]].addrs);
  }

  // ---------------------------------------------------------------- steps

  lemma OthersRecorded(p: map<Family, Pool>, q: map<Family, Pool>, id: ClientId, addrs: map<Family, Addr>)
    requires Recorded(p, id, addrs) && p.Keys == q.Keys
    requires forall f :: f in p && id in p[f].byClient ==> id in q[f].byClient && q[f].byClient[id] == p[f].byClient[id]
    ensures Recorded(q, id, addrs)
  {
  }

  /** A change of pools that takes no live client's record. */
  lemma PoolsStick(m: Server, q: map<Family, Pool>)
    requires Sticky(m) && m.pools.Keys == q.Keys
    requires forall f, j :: f in m.pools && j in m.sessions && j in m.pools[f].byClient ==>
               j in q[f].byClient && q[f].byClient[j] == m.pools[f].byClient[j]
    ensures Sticky(m.(pools := q))
  {
    forall j | j in m.sessions && m.sessions[j] in m.heap ensures Recorded(q, j, m.heap[m.sessions[j]].addrs) {
      OthersRecorded(m.pools, q, j, m.heap[m.sessions[j]].addrs);
    }
  }

  lemma ReleaseSticks(m: Server, id: ClientId)
    requires Sticky(m) && id !in m.sessions
    ensures Sticky(m.(pools := ReleaseAll(m.pools, id)))
  {
    PoolsStick(m, ReleaseAll(m.pools, id));
  }

  /** Releasing a live client's addresses always unseats it. */
  lemma ReleaseUnseats(m: Server, id: ClientId)
    requires Shape(m) && Sticky(m) && id in m.sessions
    ensures !Sticky(m.(pools := ReleaseAll(m.pools, id)))
  {
    var s := m.heap[m.sessions[id]];
    var f :| f in s.addrs;
    var n := m.(pools := ReleaseAll(m.pools, id));
    assert Recorded(m.pools, id, s.addrs);
    assert id !in n.pools[f].byClient;
    assert !Recorded(n.pools, id, s.addrs);
  }

  lemma HandshakeSticks(cfg: Config, m: Server, key: bytes, want: map<Family, Addr>, lanes: nat)
    requires Sticky(m) && UsablePools(m)
    ensures Sticky(StartHandshake(cfg, m, key, want, lanes))
  {
    var id := cfg.derive(key);
    match Authorize(cfg, key)
    case None => FailedSticks(m, id);
    case Some(user) => AllocateSticks(cfg, m, user, id, want);
  }

  lemma FailedSticks(m: Server, id: ClientId)
    requires Sticky(m)
    ensures Sticky(FailedHandshake(m, id))
  {
    if id !in m.sessions { ReleaseSticks(m, id); }
  }

  lemma AllocateSticks(cfg: Config, m: Server, user: string, id: ClientId, want: map<Family, Addr>)
    requires Sticky(m) && UsablePools(m)
    ensures Sticky(m.(pools := AllocateAll(cfg, m.pools, user, id, want)))
  {
    var q := AllocateAll(cfg, m.pools, user, id, want);
    forall f, j | f in m.pools && j in m.pools[f].byClient
      ensures j in q[f].byClient && q[f].byClient[j] == m.pools[f].byClient[j]
    {
    }
    PoolsStick(m, q);
  }

  lemma CreateSticks(cfg: Config, r: Rules, base: map<Family, Pool>, m: Server, x: Ident, now: int)
    requires Sticky(m) && Shape(m) && x.id !in m.sessions
    requires ByFamily(r, base) && SamePlaces(base, m.pools) && AddrsRight(r, base, x.id, x.addrs)
    ensures Sticky(CreateSession(cfg, m, x, now))
  {
    var n := CreateSession(cfg, m, x, now);
    ClaimRecords(r, base, m.pools, x.id, x.addrs);
    forall j | j in n.sessions && n.sessions[j] in n.heap ensures Recorded(n.pools, j, n.heap[n.sessions[j]].addrs) {
      if j != x.id {
        OthersRecorded(m.pools, n.pools, j, m.heap[m.sessions[j]].addrs);
      }
    }
  }

  lemma ClaimRecords(r: Rules, base: map<Family, Pool>, pools: map<Family, Pool>, id: ClientId, addrs: map<Family, Addr>)
    requires ByFamily(r, base) && SamePlaces(base, pools) && AddrsRight(r, base, id, addrs)
    ensures var q := ClaimAll(pools, id, addrs);
      && Recorded(q, id, addrs)
      && forall f, j :: f in pools && j != id && j in pools[f].byClient ==>
           j in q[f].byClient && q[f].byClient[j] == pools[f].byClient[j]
  {
  }

  lemma FinishSticks(cfg: Config, r: Rules, base: map<Family, Pool>, m: Server, x: Ident, now: int)
    requires Sticky(m) && Shape(m)
    requires ByFamily(r, base) && SamePlaces(base, m.pools) && AddrsRight(r, base, x.id, x.addrs)
    ensures Sticky(FinishHandshake(cfg, m, x, now))
  {
    if Seats(cfg, m, x) {
      CreateSticks(cfg, r, base, m, x, now);
    }
  }

  lemma DataSticks(cfg: Config, m: Server, e: Event)
    requires Sticky(m) && DataEvent(e)
    ensures Sticky(DataStep(cfg, m, e))
  {
    var n := DataStep(cfg, m, e);
    DataFrame(cfg, m, e);
    forall j | j in n.sessions && n.sessions[j] in n.heap ensures Recorded(n.pools, j, n.heap[n.sessions[j]].addrs) {
      assert Recorded(m.pools, j, m.heap[m.sessions[j]].addrs);
    }
  }

  /** A pending release whose client is live again. */
  ghost predicate Unseats(m: Server, e: Event) {
    || (e.Close? && Victim(m, e.sid) && m.heap[e.sid].id in m.sessions)
    || (e.ReleaseRefused? && e.id in m.refused && e.id in m.sessions)
  }

  lemma ClosedFlagSticks(m: Server, sid: Sid)
    requires Sticky(m) && sid in m.heap
    ensures Sticky(SetSession(m, sid, m.heap[sid].(closed := true)))
  {
    var k := SetSession(m, sid, m.heap[sid].(closed := true));
    forall j | j in k.sessions && k.sessions[j] in k.heap ensures Recorded(k.pools, j, k.heap[k.sessions[j]].addrs) {
      assert Recorded(m.pools, j, m.heap[m.sessions[j]].addrs);
    }
  }

  lemma SameSticks(m: Server, n: Server)
    requires n.sessions == m.sessions && n.heap == m.heap && n.pools == m.pools
    ensures Sticky(n) <==> Sticky(m)
  {
  }

  lemma ReleaseSticksIff(m: Server, id: ClientId)
    requires Sticky(m) && Shape(m)
    ensures Sticky(m.(pools := ReleaseAll(m.pools, id))) <==> id !in m.sessions
  {
    if id in m.sessions {
      ReleaseUnseats(m, id);
    } else {
      ReleaseSticks(m, id);
    }
  }

  lemma CloseSticksIff(m: Server, sid: Sid)
    requires Sticky(m) && Shape(m)
    ensures Sticky(CloseStep(m, sid)) <==> !Unseats(m, Close(sid))
  {
    if Victim(m, sid) {
      var s := m.heap[sid];
      var k := SetSession(m, sid, s.(closed := true));
      ClosedFlagSticks(m, sid);
      assert Shape(k);
      ReleaseSticksIff(k, s.id);
      SameSticks(k.(pools := ReleaseAll(k.pools, s.id)), CloseSession(m, sid));
    }
  }

  lemma RefusedSticksIff(m: Server, id: ClientId)
    requires Sticky(m) && Shape(m)
    ensures Sticky(RefusedStep(m, id)) <==> !Unseats(m, ReleaseRefused(id))
  {
    if id in m.refused {
      ReleaseSticksIff(m, id);
      SameSticks(m.(pools := ReleaseAll(m.pools, id)), RefusedStep(m, id));
    }
  }

  lemma AbortSticks(m: Server, h: nat)
    requires Sticky(m)
    ensures Sticky(AbortStep(m, h))
  {
    if h in m.shakes {
      SameSticks(m, Without(m, h));
      FailedSticks(Without(m, h), m.shakes[h].id);
    }
  }

  lemma FinishStepSticks(cfg: Config, r: Rules, base: map<Family, Pool>, m: Server, h: nat, now: int)
    requires Sticky(m) && Shape(m) && Rights(r, base, m) && ByFamily(r, base)
    ensures Sticky(FinishStep(cfg, m, h, now))
  {
    if h in m.shakes {
      SameSticks(m, Without(m, h));
      FinishSticks(cfg, r, base, Without(m, h), m.shakes[h], now);
    }
  }

  lemma SetUpSticks(cfg: Config, r: Rules, base: map<Family, Pool>, m: Server, e: Event)
    requires Sticky(m) && Linked(m) && Rights(r, base, m) && ByFamily(r, base) && UsablePools(m)
    requires SetUpEvent(e)
    ensures Sticky(Step(cfg, m, e))
  {
    StepIs(cfg, m, e);
    match e {
      case Handshake(key, want, lanes) => HandshakeSticks(cfg, m, key, want, lanes);
      case Reject(key) => FailedSticks(m, cfg.derive(key));
      case Abort(h) => AbortSticks(m, h);
      case Finish(h, now) => FinishStepSticks(cfg, r, base, m, h, now);
    }
  }

  lemma PaySticks(cfg: Config, m: Server, sid: Sid)
    requires Sticky(m)
    ensures Sticky(PayStep(cfg, m, sid))
  {
    PayFrame(cfg, m, sid);
    SameSticks(m, PayStep(cfg, m, sid));
  }

  lemma UnlinkAllSticks(m: Server)
    ensures Sticky(UnlinkAll(m))
  {
  }

  lemma SweepSticksIff(cfg: Config, m: Server, e: Event)
    requires Sticky(m) && Shape(m) && UsablePools(m)
    requires SweepEvent(e)
    ensures Sticky(Step(cfg, m, e)) <==> !Unseats(m, e)
  {
    StepIs(cfg, m, e);
    match e {
      case ReleaseRefused(id) =>
        RefusedSticksIff(m, id);
      case Collect(now) =>
        UnlinkSticks(m, now);
      case CollectAll =>
        UnlinkAllSticks(m);
      case Close(sid) =>
        CloseSticksIff(m, sid);
      case Pay(sid) =>
        PaySticks(cfg, m, sid);
    }
  }

  lemma UnlinkSticks(m: Server, now: int)
    requires Sticky(m)
    ensures Sticky(Unlink(m, now))
  {
    var n := Unlink(m, now);
    forall j | j in n.sessions && n.sessions[j] in n.heap ensures Recorded(n.pools, j, n.heap[n.sessions[j]].addrs) {
      assert Recorded(m.pools, j, m.heap[m.sessions[j]].addrs);
    }
  }

  /** Exactly which steps break stickiness: a release that was owed to an earlier session or
      refusal of a client that has become live in the meantime; and no other. */
  lemma StickyIff(cfg: Config, r: Rules, base: map<Family, Pool>, m: Server, e: Event)
    requires Sticky(m) && Linked(m) && Rights(r, base, m) && ByFamily(r, base) && UsablePools(m)
    ensures Sticky(Step(cfg, m, e)) <==> !Unseats(m, e)
  {
    if DataEvent(e) {
      StepIs(cfg, m, e);
      DataSticks(cfg, m, e);
    } else if SetUpEvent(e) {
      SetUpSticks(cfg, r, base, m, e);
    } else {
      SweepSticksIff(cfg, m, e);
    }
  }

  // ---------------------------------------------------------------- runs with prompt releases

  /** Some release is owed: a victim not yet torn down, or a refusal not yet released. */
  ghost predicate Owing(m: Server) {
    (exists sid :: Victim(m, sid)) || m.refused != multiset{}
  }

  /** While a release is owed only releases and data steps happen: a collection is atomic with
      its tear-downs, a refusal with its release. */
  ghost predicate Prompt(m: Server, e: Event) {
    Owing(m) ==> e.Close? || e.Pay? || e.ReleaseRefused? || DataEvent(e)
  }

  /** Owed releases are for clients that are not live. */
  ghost predicate OwedToTheGone(m: Server) {
    && (forall sid :: Victim(m, sid) ==> m.heap[sid].id !in m.sessions)
    && (forall id :: id in m.refused ==> id !in m.sessions)
  }

  lemma GoneData(cfg: Config, m: Server, e: Event)
    requires OwedToTheGone(m) && DataEvent(e)
    ensures OwedToTheGone(DataStep(cfg, m, e))
  {
    var n := DataStep(cfg, m, e);
    DataFrame(cfg, m, e);
    forall sid | Victim(n, sid) ensures n.heap[sid].id !in n.sessions {
      assert Victim(m, sid);
    }
  }

  lemma GoneCreate(cfg: Config, m: Server, x: Ident, now: int)
    requires Shape(m) && !Owing(m)
    ensures OwedToTheGone(FinishHandshake(cfg, m, x, now))
  {
    var n := FinishHandshake(cfg, m, x, now);
    forall sid ensures !Victim(n, sid) {
      assert !Victim(m, sid);
    }
  }

  lemma GoneUnlink(m: Server, now: int)
    requires Shape(m) && !Owing(m)
    ensures OwedToTheGone(Unlink(m, now))
  {
    var n := Unlink(m, now);
    forall sid | Victim(n, sid) ensures n.heap[sid].id !in n.sessions {
      assert !Victim(m, sid);
    }
  }

  lemma GoneUnlinkAll(m: Server)
    requires !Owing(m)
    ensures OwedToTheGone(UnlinkAll(m))
  {
  }

  lemma GoneClose(m: Server, sid: Sid)
    requires OwedToTheGone(m)
    ensures OwedToTheGone(CloseStep(m, sid))
  {
    var n := CloseStep(m, sid);
    forall k | Victim(n, k) ensures n.heap[k].id !in n.sessions {
      assert Victim(m, k);
    }
  }

  lemma GonePools(m: Server, n: Server)
    requires OwedToTheGone(m) && n.heap == m.heap && n.sessions == m.sessions && n.refused <= m.refused
    ensures OwedToTheGone(n)
  {
    forall k | Victim(n, k) ensures n.heap[k].id !in n.sessions {
      assert Victim(m, k);
    }
  }

  lemma GoneFinish(cfg: Config, m: Server, h: nat, now: int)
    requires Shape(m) && OwedToTheGone(m) && !Owing(m)
    ensures OwedToTheGone(FinishStep(cfg, m, h, now))
  {
    if h in m.shakes {
      var k := Without(m, h);
      assert !Owing(k) by {
        forall sid ensures !Victim(k, sid) { assert !Victim(m, sid); }
      }
      GoneCreate(cfg, k, m.shakes[h], now);
    }
  }

  lemma GoneFailed(m: Server, id: ClientId)
    requires OwedToTheGone(m)
    ensures OwedToTheGone(FailedHandshake(m, id))
  {
    FailedFrame(m, id);
    GonePools(m, FailedHandshake(m, id));
  }

  lemma GoneAbort(m: Server, h: nat)
    requires OwedToTheGone(m)
    ensures OwedToTheGone(AbortStep(m, h))
  {
    if h in m.shakes {
      GonePools(m, Without(m, h));
      GoneFailed(Without(m, h), m.shakes[h].id);
    }
  }

  lemma GoneHandshake(cfg: Config, m: Server, key: bytes, want: map<Family, Addr>, lanes: nat)
    requires OwedToTheGone(m) && UsablePools(m)
    ensures OwedToTheGone(StartHandshake(cfg, m, key, want, lanes))
  {
    HandshakeFrame(cfg, m, key, want, lanes);
    GonePools(m, StartHandshake(cfg, m, key, want, lanes));
  }

  lemma GoneSetUp(cfg: Config, m: Server, e: Event)
    requires Shape(m) && OwedToTheGone(m) && UsablePools(m) && !Owing(m)
    requires SetUpEvent(e)
    ensures OwedToTheGone(Step(cfg, m, e))
  {
    StepIs(cfg, m, e);
    match e {
      case Handshake(key, want, lanes) => GoneHandshake(cfg, m, key, want, lanes);
      case Reject(key) => GoneFailed(m, cfg.derive(key));
      case Abort(h) => GoneAbort(m, h);
      case Finish(h, now) => GoneFinish(cfg, m, h, now);
    }
  }

  lemma GoneRefused(m: Server, id: ClientId)
    requires OwedToTheGone(m)
    ensures OwedToTheGone(RefusedStep(m, id))
  {
    if id in m.refused {
      GonePools(m, RefusedStep(m, id));
    }
  }

  lemma GonePay(cfg: Config, m: Server, sid: Sid)
    requires OwedToTheGone(m)
    ensures OwedToTheGone(PayStep(cfg, m, sid))
  {
    PayFrame(cfg, m, sid);
    GonePools(m, PayStep(cfg, m, sid));
  }

  lemma GoneSweep(cfg: Config, m: Server, e: Event)
    requires Shape(m) && OwedToTheGone(m) && UsablePools(m)
    requires e.ReleaseRefused? || e.Close? || e.Pay? || (!Owing(m) && (e.Collect? || e.CollectAll?))
    ensures OwedToTheGone(Step(cfg, m, e))
  {
    StepIs(cfg, m, e);
    match e {
      case ReleaseRefused(id) => GoneRefused(m, id);
      case Collect(now) => GoneUnlink(m, now);
      case CollectAll => GoneUnlinkAll(m);
      case Close(sid) => GoneClose(m, sid);
      case Pay(sid) => GonePay(cfg, m, sid);
    }
  }

  lemma GoneStep(cfg: Config, m: Server, e: Event)
    requires Shape(m) && OwedToTheGone(m) && UsablePools(m) && Prompt(m, e)
    ensures OwedToTheGone(Step(cfg, m, e))
  {
    if DataEvent(e) {
      StepIs(cfg, m, e);
      GoneData(cfg, m, e);
    } else if SetUpEvent(e) {
      GoneSetUp(cfg, m, e);
    } else {
      GoneSweep(cfg, m, e);
    }
  }

  lemma RulesByFamily(cfg: Config, base: map<Family, Pool>, past: seq<Event>)
    requires FreshPools(base)
    ensures ByFamily(RulesOf(cfg, base, past), base)
  {
  }

  lemma StickyAfterIff(cfg: Config, base: map<Family, Pool>, ms: seq<Server>, es: seq<Event>, i: nat)
    requires WfConfig(cfg) && FreshPools(base) && IsRun(cfg, base, ms, es) && 0 < i < |ms| && Sticky(ms[i - 1])
    ensures Sticky(ms[i]) <==> !Unseats(ms[i - 1], es[i - 1])
  {
    InvAlways(cfg, base, ms, es, i - 1);
    StepTo(cfg, base, ms, es, i);
    RulesByFamily(cfg, base, es[..i - 1]);
    StickyIff(cfg, RulesOf(cfg, base, es[..i - 1]), base, ms[i - 1], es[i - 1]);
  }

  lemma GoneAfter(cfg: Config, base: map<Family, Pool>, ms: seq<Server>, es: seq<Event>, i: nat)
    requires WfConfig(cfg) && FreshPools(base) && IsRun(cfg, base, ms, es) && 0 < i < |ms|
    requires OwedToTheGone(ms[i - 1]) && Prompt(ms[i - 1], es[i - 1])
    ensures OwedToTheGone(ms[i])
  {
    LinkedAlways(cfg, base, ms, es, i - 1);
    StepTo(cfg, base, ms, es, i);
    GoneStep(cfg, ms[i - 1], es[i - 1]);
  }

  lemma GoneUnseatsNone(m: Server, e: Event)
    requires OwedToTheGone(m)
    ensures !Unseats(m, e)
  {
  }

  /** Stickiness over runs: however handshakes, aborts and acquisitions of a client's lanes
      interleave, if releases are prompt then every live session keeps its pool records. */
  lemma {:induction false} StickyAlways(cfg: Config, base: map<Family, Pool>, ms: seq<Server>, es: seq<Event>, i: nat)
    requires WfConfig(cfg) && FreshPools(base) && IsRun(cfg, base, ms, es) && i < |ms|
    requires forall k :: 0 <= k < |es| ==> Prompt(ms[k], es[k])
    ensures Sticky(ms[i]) && OwedToTheGone(ms[i])
    decreases i
  {
    if i == 0 {
    } else {
      StickyAlways(cfg, base, ms, es, i - 1);
      GoneUnseatsNone(ms[i - 1], es[i - 1]);
      StickyAfterIff(cfg, base, ms, es, i);
      GoneAfter(cfg, base, ms, es, i);
    }
  }
}
