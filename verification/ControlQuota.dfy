/** Quota accounting: a user's counter is its sessions made minus those that gave their slot back. */
module ControlQuota {
  import opened Bytes
  import opened Addr
  import opened Users
  import opened AddrPool
  import opened Control
  import opened ControlSafety
  import opened ControlRuns

  ghost function Created(heap: map<Sid, Session>, name: string): set<Sid> {
    set sid | sid in heap && heap[sid].user == name
  }

  /** Torn down, and the slot given back. */
  ghost function Returned(heap: map<Sid, Session>, unpaid: set<Sid>, name: string): set<Sid> {
    set sid | sid in heap && heap[sid].user == name && heap[sid].closed && sid !in unpaid
  }

  ghost predicate Balanced(db: UserDb, m: Server, name: string) {
    && Count(m.active, name) == |Created(m.heap, name)| - |Returned(m.heap, m.unpaid, name)|
    && (name in db.byName && db.byName[name].maxConcurrent > 0 ==>
          Count(m.active, name) <= db.byName[name].maxConcurrent)
  }

  /** The counters of all users balance and respect their limits. */
  ghost predicate QuotaOk(cfg: Config, m: Server) {
    HasUsers(cfg) ==> forall n :: n in cfg.db.value.byName ==> Balanced(cfg.db.value, m, n)
  }

  /** Users of sessions and handshakes are in the database. */
  ghost predicate UsersKnown(cfg: Config, m: Server) {
    HasUsers(cfg) ==>
      && "" !in cfg.db.value.byName
      && (forall sid :: sid in m.heap ==> m.heap[sid].user in cfg.db.value.byName)
      && (forall h :: h in m.shakes ==> m.shakes[h].user in cfg.db.value.byName)
  }

  /** Only sessions that are torn down can have a slot to give back. */
  ghost predicate UnpaidClosed(m: Server) {
    forall sid :: sid in m.unpaid ==> sid in m.heap && m.heap[sid].closed
  }

  // ---------------------------------------------------------------- accounts

  lemma SameAccounts(cfg: Config, m: Server, n: Server)
    requires QuotaOk(cfg, m) && UnpaidClosed(m) && SameSessions(m.heap, n.heap)
    requires n.active == m.active && n.unpaid == m.unpaid
    ensures QuotaOk(cfg, n) && UnpaidClosed(n)
  {
    if HasUsers(cfg) {
      forall u | u in cfg.db.value.byName ensures Balanced(cfg.db.value, n, u) {
        assert Balanced(cfg.db.value, m, u);
        assert Created(m.heap, u) == Created(n.heap, u) && Returned(m.heap, m.unpaid, u) == Returned(n.heap, n.unpaid, u);
      }
    }
  }

  lemma OpenedReturned(heap: map<Sid, Session>, unpaid: set<Sid>, sid: Sid, s: Session, u: string)
    requires sid !in heap && !s.closed
    ensures Returned(heap[sid := s], unpaid, u) == Returned(heap, unpaid, u)
  {
  }

  lemma OpenedCreated(heap: map<Sid, Session>, sid: Sid, s: Session, u: string)
    requires sid !in heap
    ensures |Created(heap[sid := s], u)| == |Created(heap, u)| + (if u == s.user then 1 else 0)
  {
    if u == s.user {
      assert Created(heap[sid := s], u) == Created(heap, u) + {sid};
    } else {
      assert Created(heap[sid := s], u) == Created(heap, u);
    }
  }

  lemma OpenQuota(cfg: Config, m: Server, x: Ident, now: int)
    requires QuotaOk(cfg, m) && UnpaidClosed(m) && m.next !in m.heap && !QuotaRefuses(cfg, m, x.user)
    ensures QuotaOk(cfg, CreateSession(cfg, m, x, now)) && UnpaidClosed(CreateSession(cfg, m, x, now))
  {
    if HasUsers(cfg) {
      forall u | u in cfg.db.value.byName ensures Balanced(cfg.db.value, CreateSession(cfg, m, x, now), u) {
        OpenedBalanced(cfg, m, x, now, u);
      }
    }
  }

  lemma OpenedBalanced(cfg: Config, m: Server, x: Ident, now: int, u: string)
    requires HasUsers(cfg) && u in cfg.db.value.byName && Balanced(cfg.db.value, m, u) && m.next !in m.heap
    requires !QuotaRefuses(cfg, m, x.user)
    ensures Balanced(cfg.db.value, CreateSession(cfg, m, x, now), u)
  {
    OpenedReturned(m.heap, m.unpaid, m.next, NewSession(x, now), u);
    OpenedCreated(m.heap, m.next, NewSession(x, now), u);
  }

  /** Closing settles nothing yet: the slot stays taken until it is given back. */
  lemma CloseQuota(cfg: Config, m: Server, sid: Sid)
    requires QuotaOk(cfg, m) && UnpaidClosed(m) && sid in m.heap && !m.heap[sid].closed
    ensures QuotaOk(cfg, CloseSession(m, sid)) && UnpaidClosed(CloseSession(m, sid))
  {
    var n := CloseSession(m, sid);
    if HasUsers(cfg) {
      forall u | u in cfg.db.value.byName ensures Balanced(cfg.db.value, n, u) {
        assert Balanced(cfg.db.value, m, u);
        assert Created(n.heap, u) == Created(m.heap, u);
        assert Returned(n.heap, n.unpaid, u) == Returned(m.heap, m.unpaid, u);
      }
    }
  }

  lemma PaidReturned(heap: map<Sid, Session>, unpaid: set<Sid>, sid: Sid, u: string)
    requires sid in heap && heap[sid].closed && sid in unpaid
    ensures |Returned(heap, unpaid - {sid}, u)| == |Returned(heap, unpaid, u)| + (if u == heap[sid].user then 1 else 0)
  {
    assert Returned(heap, unpaid - {sid}, u) == Returned(heap, unpaid, u) + (if u == heap[sid].user then {sid} else {});
  }

  lemma StillTaken(heap: map<Sid, Session>, unpaid: set<Sid>, sid: Sid)
    requires sid in heap && sid in unpaid
    ensures |Returned(heap, unpaid, heap[sid].user)| < |Created(heap, heap[sid].user)|
  {
    var u := heap[sid].user;
    SubsetSize(Returned(heap, unpaid, u), Created(heap, u) - {sid});
  }

  /** Giving back takes exactly one unit off the owner's counter, which is never zero then. */
  lemma PayQuota(cfg: Config, m: Server, sid: Sid)
    requires QuotaOk(cfg, m) && UnpaidClosed(m) && UsersKnown(cfg, m) && sid in m.unpaid
    ensures QuotaOk(cfg, ReturnSlot(cfg, m, sid)) && UnpaidClosed(ReturnSlot(cfg, m, sid))
    ensures HasUsers(cfg) ==>
      && Count(m.active, m.heap[sid].user) > 0
      && Count(ReturnSlot(cfg, m, sid).active, m.heap[sid].user) == Count(m.active, m.heap[sid].user) - 1
  {
    var n, owner := ReturnSlot(cfg, m, sid), m.heap[sid].user;
    if HasUsers(cfg) {
      assert Balanced(cfg.db.value, m, owner);
      StillTaken(m.heap, m.unpaid, sid);
      forall u | u in cfg.db.value.byName ensures Balanced(cfg.db.value, n, u) {
        assert Balanced(cfg.db.value, m, u);
        PaidReturned(m.heap, m.unpaid, sid, u);
      }
    }
  }

  // ---------------------------------------------------------------- steps

  lemma FinishQuota(cfg: Config, m: Server, x: Ident, now: int)
    requires QuotaOk(cfg, m) && UnpaidClosed(m) && m.next !in m.heap
    ensures QuotaOk(cfg, FinishHandshake(cfg, m, x, now)) && UnpaidClosed(FinishHandshake(cfg, m, x, now))
  {
    if Seats(cfg, m, x) {
      OpenQuota(cfg, m, x, now);
    } else {
      SameAccounts(cfg, m, FinishHandshake(cfg, m, x, now));
    }
  }

  ghost predicate SameQuota(m: Server, n: Server) {
    n.heap == m.heap && n.active == m.active && n.unpaid == m.unpaid
  }

  lemma AbortQuiet(m: Server, h: nat)
    ensures SameQuota(m, AbortStep(m, h))
  {
    if h in m.shakes {
      FailedFrame(Without(m, h), m.shakes[h].id);
    }
  }

  /** Set-up, release and collection steps other than making and tearing down a session. */
  lemma QuietSteps(cfg: Config, m: Server, e: Event)
    requires UsablePools(m) && !DataEvent(e) && !e.Finish? && !e.Close? && !e.Pay?
    ensures SameQuota(m, Step(cfg, m, e))
  {
    StepIs(cfg, m, e);
    match e {
      case Handshake(key, want, lanes) => HandshakeFrame(cfg, m, key, want, lanes);
      case Reject(key) => FailedFrame(m, cfg.derive(key));
      case Abort(h) => AbortQuiet(m, h);
      case ReleaseRefused(id) =>
      case Collect(now) =>
      case CollectAll =>
    }
  }

  lemma FinishStepQuota(cfg: Config, m: Server, h: nat, now: int)
    requires QuotaOk(cfg, m) && UnpaidClosed(m) && m.next !in m.heap
    ensures QuotaOk(cfg, FinishStep(cfg, m, h, now)) && UnpaidClosed(FinishStep(cfg, m, h, now))
  {
    if h in m.shakes {
      SameAccounts(cfg, m, Without(m, h));
      FinishQuota(cfg, Without(m, h), m.shakes[h], now);
    }
  }

  lemma CloseStepQuota(cfg: Config, m: Server, sid: Sid)
    requires QuotaOk(cfg, m) && UnpaidClosed(m)
    ensures QuotaOk(cfg, CloseStep(m, sid)) && UnpaidClosed(CloseStep(m, sid))
  {
    if Victim(m, sid) {
      CloseQuota(cfg, m, sid);
    }
  }

  lemma PayStepQuota(cfg: Config, m: Server, sid: Sid)
    requires QuotaOk(cfg, m) && UnpaidClosed(m) && UsersKnown(cfg, m)
    ensures QuotaOk(cfg, PayStep(cfg, m, sid)) && UnpaidClosed(PayStep(cfg, m, sid))
  {
    if sid in m.unpaid {
      PayQuota(cfg, m, sid);
    }
  }

  lemma StepQuota(cfg: Config, m: Server, e: Event)
    requires QuotaOk(cfg, m) && UnpaidClosed(m) && UsersKnown(cfg, m) && UsablePools(m) && m.next !in m.heap
    ensures QuotaOk(cfg, Step(cfg, m, e)) && UnpaidClosed(Step(cfg, m, e))
  {
    StepIs(cfg, m, e);
    if DataEvent(e) {
      DataFrame(cfg, m, e);
      SameAccounts(cfg, m, DataStep(cfg, m, e));
    } else if e.Finish? {
      FinishStepQuota(cfg, m, e.h, e.now);
    } else if e.Close? {
      CloseStepQuota(cfg, m, e.sid);
    } else if e.Pay? {
      PayStepQuota(cfg, m, e.sid);
    } else {
      QuietSteps(cfg, m, e);
      SameAccounts(cfg, m, Step(cfg, m, e));
    }
  }

  lemma AuthorizedIsKnown(cfg: Config, past: seq<Event>, id: ClientId, user: string)
    requires WfConfig(cfg) && HasUsers(cfg) && Authorized(cfg, past, id, user)
    ensures user in cfg.db.value.byName
  {
  }

  lemma KnownUnderRights(cfg: Config, base: map<Family, Pool>, past: seq<Event>, m: Server)
    requires WfConfig(cfg) && Rights(RulesOf(cfg, base, past), base, m)
    ensures UsersKnown(cfg, m)
  {
    if HasUsers(cfg) {
      forall sid | sid in m.heap ensures m.heap[sid].user in cfg.db.value.byName {
        AuthorizedIsKnown(cfg, past, m.heap[sid].id, m.heap[sid].user);
      }
      forall h | h in m.shakes ensures m.shakes[h].user in cfg.db.value.byName {
        AuthorizedIsKnown(cfg, past, m.shakes[h].id, m.shakes[h].user);
      }
    }
  }

  // ---------------------------------------------------------------- runs

  lemma StartQuota(cfg: Config, base: map<Family, Pool>)
    ensures QuotaOk(cfg, Start(base)) && UnpaidClosed(Start(base))
  {
    var none: map<Sid, Session> := map[];
    assert forall n :: Created(none, n) == {} && Returned(none, {}, n) == {};
  }

  lemma KnownAlways(cfg: Config, base: map<Family, Pool>, ms: seq<Server>, es: seq<Event>, i: nat)
    requires WfConfig(cfg) && FreshPools(base) && IsRun(cfg, base, ms, es) && i < |ms|
    ensures UsersKnown(cfg, ms[i]) && ms[i].next !in ms[i].heap
  {
    InvAlways(cfg, base, ms, es, i);
    KnownUnderRights(cfg, base, es[..i], ms[i]);
  }

  /** Quota conservation in every interleaving: at every moment each user's counter equals the
      sessions made for it minus those torn down that gave their slot back, and never exceeds a
      positive limit. */
  lemma {:induction false} QuotaConserved(cfg: Config, base: map<Family, Pool>, ms: seq<Server>, es: seq<Event>, i: nat)
    requires WfConfig(cfg) && FreshPools(base) && IsRun(cfg, base, ms, es) && i < |ms|
    ensures QuotaOk(cfg, ms[i]) && UnpaidClosed(ms[i])
    decreases i
  {
    if i == 0 {
      StartQuota(cfg, base);
    } else {
      QuotaConserved(cfg, base, ms, es, i - 1);
      QuotaAfter(cfg, base, ms, es, i);
    }
  }

  lemma QuotaAfter(cfg: Config, base: map<Family, Pool>, ms: seq<Server>, es: seq<Event>, i: nat)
    requires WfConfig(cfg) && FreshPools(base) && IsRun(cfg, base, ms, es) && 0 < i < |ms|
    requires QuotaOk(cfg, ms[i - 1]) && UnpaidClosed(ms[i - 1])
    ensures QuotaOk(cfg, ms[i]) && UnpaidClosed(ms[i])
  {
    KnownAlways(cfg, base, ms, es, i - 1);
    StepTo(cfg, base, ms, es, i);
    StepQuota(cfg, ms[i - 1], es[i - 1]);
  }

  // ---------------------------------------------------------------- who is refused

  /** Sessions made for the user whose slot is not back yet. */
  ghost function Unreturned(m: Server, name: string): int {
    |Created(m.heap, name)| - |Returned(m.heap, m.unpaid, name)|
  }

  /** The user is at a positive limit. */
  ghost predicate AtLimit(cfg: Config, m: Server, name: string) {
    && cfg.db.Some? && name in cfg.db.value.byName && cfg.db.value.byName[name].maxConcurrent > 0
    && Unreturned(m, name) >= cfg.db.value.byName[name].maxConcurrent
  }

  /** Some family that was offered has a prefix length other than zero. */
  ghost predicate HasPrefix(base: map<Family, Pool>, addrs: map<Family, Addr>) {
    exists f :: f in addrs && f in base && base[f].subnet.bits >= 1
  }

  lemma LimitRefuses(cfg: Config, m: Server, name: string)
    requires WfConfig(cfg) && QuotaOk(cfg, m) && (cfg.db.Some? ==> name in cfg.db.value.byName)
    ensures QuotaRefuses(cfg, m, name) <==> AtLimit(cfg, m, name)
  {
    if cfg.db.Some? {
      assert Balanced(cfg.db.value, m, name);
    }
  }

  lemma PrefixAssigns(base: map<Family, Pool>, pools: map<Family, Pool>, addrs: map<Family, Addr>)
    requires SamePlaces(base, pools)
    ensures Assigned(pools, addrs) <==> HasPrefix(base, addrs)
  {
    if HasPrefix(base, addrs) {
      var f :| f in addrs && f in base && base[f].subnet.bits >= 1;
      assert f == F4 || f == F6;
    }
  }

  lemma FinishOutcome(cfg: Config, m: Server, h: nat, now: int)
    requires h in m.shakes && m.next !in m.heap
    ensures var x, n := m.shakes[h], FinishStep(cfg, m, h, now);
      && (m.next in n.heap <==> Assigned(m.pools, x.addrs) && x.id !in m.sessions && !QuotaRefuses(cfg, m, x.user))
      && n.refused == m.refused + (if Assigned(m.pools, x.addrs) && x.id !in m.sessions && QuotaRefuses(cfg, m, x.user)
                                   then multiset{x.id} else multiset{})
  {
  }

  /** In every interleaving: of a client without a session, a handshake with an assignment makes one
      unless its user is at a positive limit, counting the sessions whose slot is not back; then, and
      only then, it is refused. */
  lemma FinishIff(cfg: Config, base: map<Family, Pool>, ms: seq<Server>, es: seq<Event>, i: nat)
    requires WfConfig(cfg) && FreshPools(base) && IsRun(cfg, base, ms, es) && i < |es|
    requires es[i].Finish? && es[i].h in ms[i].shakes
    ensures var x := ms[i].shakes[es[i].h]; var asks := HasPrefix(base, x.addrs) && x.id !in ms[i].sessions;
      && (ms[i].next in ms[i + 1].heap <==> asks && !AtLimit(cfg, ms[i], x.user))
      && ms[i + 1].refused == ms[i].refused + (if asks && AtLimit(cfg, ms[i], x.user) then multiset{x.id} else multiset{})
  {
    var x := ms[i].shakes[es[i].h];
    QuotaConserved(cfg, base, ms, es, i);
    KnownAlways(cfg, base, ms, es, i);
    LimitRefuses(cfg, ms[i], x.user);
    PlacesAlways(cfg, base, ms, es, i);
    PrefixAssigns(base, ms[i].pools, x.addrs);
    StepTo(cfg, base, ms, es, i + 1);
    StepIs(cfg, ms[i], es[i]);
    FinishOutcome(cfg, ms[i], es[i].h, es[i].now);
  }

  // ---------------------------------------------------------------- once per session

  /** The step tears the session down, or gives its slot back. */
  ghost predicate Closes(m: Server, e: Event, sid: Sid) {
    e == Close(sid) && Victim(m, sid)
  }

  ghost predicate Pays(m: Server, e: Event, sid: Sid) {
    e == Pay(sid) && sid in m.unpaid
  }

  /** Torn down; `paid` says whether the slot is back as well. */
  ghost predicate Over(m: Server, sid: Sid, paid: bool) {
    sid in m.heap && m.heap[sid].closed && (paid ==> sid !in m.unpaid)
  }

  lemma FinishStepOver(cfg: Config, m: Server, h: nat, now: int, sid: Sid, paid: bool)
    requires Over(m, sid, paid) && m.next !in m.heap
    ensures Over(FinishStep(cfg, m, h, now), sid, paid)
  {
  }

  lemma CloseStepOver(m: Server, k: Sid, sid: Sid, paid: bool)
    requires Over(m, sid, paid)
    ensures Over(CloseStep(m, k), sid, paid)
  {
  }

  lemma PayStepOver(cfg: Config, m: Server, k: Sid, sid: Sid, paid: bool)
    requires Over(m, sid, paid)
    ensures Over(PayStep(cfg, m, k), sid, paid)
  {
    PayFrame(cfg, m, k);
  }

  lemma OverStays(cfg: Config, m: Server, e: Event, sid: Sid, paid: bool)
    requires Over(m, sid, paid) && UsablePools(m) && m.next !in m.heap
    ensures Over(Step(cfg, m, e), sid, paid)
  {
    if DataEvent(e) {
      StepIs(cfg, m, e);
      DataFrame(cfg, m, e);
    } else if e.Finish? {
      StepIs(cfg, m, e);
      FinishStepOver(cfg, m, e.h, e.now, sid, paid);
    } else if e.Close? {
      StepIs(cfg, m, e);
      CloseStepOver(m, e.sid, sid, paid);
    } else if e.Pay? {
      StepIs(cfg, m, e);
      PayStepOver(cfg, m, e.sid, sid, paid);
    } else {
      QuietSteps(cfg, m, e);
    }
  }

  lemma OverAfter(cfg: Config, base: map<Family, Pool>, ms: seq<Server>, es: seq<Event>, i: nat, sid: Sid, paid: bool)
    requires WfConfig(cfg) && FreshPools(base) && IsRun(cfg, base, ms, es) && 0 < i < |ms| && Over(ms[i - 1], sid, paid)
    ensures Over(ms[i], sid, paid)
  {
    KnownAlways(cfg, base, ms, es, i - 1);
    StepTo(cfg, base, ms, es, i);
    OverStays(cfg, ms[i - 1], es[i - 1], sid, paid);
  }

  lemma {:induction false} OverForGood(cfg: Config, base: map<Family, Pool>, ms: seq<Server>, es: seq<Event>,
                                       i: nat, j: nat, sid: Sid, paid: bool)
    requires WfConfig(cfg) && FreshPools(base) && IsRun(cfg, base, ms, es) && i <= j < |ms|
    requires Over(ms[i], sid, paid)
    ensures Over(ms[j], sid, paid)
    decreases j
  {
    if i == j {
    } else {
      OverForGood(cfg, base, ms, es, i, j - 1, sid, paid);
      OverAfter(cfg, base, ms, es, j, sid, paid);
    }
  }

  lemma ClosedIsOver(cfg: Config, base: map<Family, Pool>, ms: seq<Server>, es: seq<Event>, i: nat, sid: Sid)
    requires IsRun(cfg, base, ms, es) && i < |es| && Closes(ms[i], es[i], sid)
    ensures Over(ms[i + 1], sid, false)
  {
    StepTo(cfg, base, ms, es, i + 1);
    StepIs(cfg, ms[i], Close(sid));
  }

  /** In every interleaving a session is torn down at most once: from then on it stays closed and
      no later step tears it down again. */
  lemma ClosedOnce(cfg: Config, base: map<Family, Pool>, ms: seq<Server>, es: seq<Event>, i: nat, j: nat, sid: Sid)
    requires WfConfig(cfg) && FreshPools(base) && IsRun(cfg, base, ms, es) && i < j < |es|
    requires Closes(ms[i], es[i], sid)
    ensures sid in ms[j].heap && ms[j].heap[sid].closed && !Closes(ms[j], es[j], sid)
  {
    ClosedIsOver(cfg, base, ms, es, i, sid);
    OverForGood(cfg, base, ms, es, i + 1, j, sid, false);
  }

  lemma PaidIsOver(cfg: Config, base: map<Family, Pool>, ms: seq<Server>, es: seq<Event>, i: nat, sid: Sid)
    requires WfConfig(cfg) && FreshPools(base) && IsRun(cfg, base, ms, es) && i < |es| && Pays(ms[i], es[i], sid)
    ensures sid in ms[i].heap && ms[i].heap[sid].closed && Over(ms[i + 1], sid, true)
    ensures HasUsers(cfg) ==> var u := ms[i].heap[sid].user;
      Count(ms[i].active, u) > 0 && Count(ms[i + 1].active, u) == Count(ms[i].active, u) - 1
  {
    QuotaConserved(cfg, base, ms, es, i);
    KnownAlways(cfg, base, ms, es, i);
    PayQuota(cfg, ms[i], sid);
    StepTo(cfg, base, ms, es, i + 1);
    StepIs(cfg, ms[i], Pay(sid));
  }

  /** In every interleaving a session's slot is given back at most once, after its tear-down, and
      that takes one off a counter that is not zero. */
  lemma ReleasedOnce(cfg: Config, base: map<Family, Pool>, ms: seq<Server>, es: seq<Event>, i: nat, sid: Sid)
    requires WfConfig(cfg) && FreshPools(base) && IsRun(cfg, base, ms, es) && i < |es|
    requires Pays(ms[i], es[i], sid)
    ensures sid in ms[i].heap && ms[i].heap[sid].closed
    ensures HasUsers(cfg) ==> var u := ms[i].heap[sid].user;
      Count(ms[i].active, u) > 0 && Count(ms[i + 1].active, u) == Count(ms[i].active, u) - 1
    ensures forall j :: i < j < |es| ==> !Pays(ms[j], es[j], sid) && !Closes(ms[j], es[j], sid)
  {
    PaidIsOver(cfg, base, ms, es, i, sid);
    forall j | i < j < |es| ensures !Pays(ms[j], es[j], sid) && !Closes(ms[j], es[j], sid) {
      OverForGood(cfg, base, ms, es, i + 1, j, sid, true);
    }
  }
}
