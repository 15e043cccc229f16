/** Which steps leave a pool record behind that nobody answers for. */
module ControlLeaks {
  import opened Bytes
  import opened Addr
  import opened Users
  import opened AddrPool
  import opened Control
  import opened ControlSafety
  import opened ControlRuns
  import opened ControlSticky
  import opened ControlPending

  ghost predicate InSetUp(m: Server, f: Family, id: ClientId) {
    exists h :: h in m.shakes && m.shakes[h].id == id && f in m.shakes[h].addrs
  }

  ghost predicate BeingCollected(m: Server, id: ClientId) {
    exists sid :: Victim(m, sid) && m.heap[sid].id == id
  }

  /** Somebody answers for this client's record: a live session, a handshake that was offered it,
      or a refusal or tear-down that will release it. */
  ghost predicate Vouched(m: Server, f: Family, id: ClientId) {
    id in m.sessions || InSetUp(m, f, id) || id in m.refused || BeingCollected(m, id)
  }

  ghost predicate NoLeak(m: Server) {
    forall f, id :: f in m.pools && id in m.pools[f].byClient ==> Vouched(m, f, id)
  }

  /** Once the handshake `h` is gone, nobody answers for some record of its client. */
  ghost predicate LastVoucher(m: Server, h: nat) {
    h in m.shakes && exists f :: f in m.pools && m.shakes[h].id in m.pools[f].byClient
                                 && !Vouched(Without(m, h), f, m.shakes[h].id)
  }

  /** The two ways in which a set-up ends without a release: an abort under the all-zero id, and
      a handshake that is turned away because no prefix length it was given differs from zero. */
  ghost predicate Leaks(m: Server, e: Event) {
    || (e.Abort? && LastVoucher(m, e.h) && m.shakes[e.h].id == ZERO_ID)
    || (e.Finish? && LastVoucher(m, e.h) && !Assigned(m.pools, m.shakes[e.h].addrs))
  }

  // ---------------------------------------------------------------- steps

  /** Vouchers survive a change that keeps sessions, refusals and victims and loses no handshake. */
  lemma StillVouched(m: Server, n: Server, f: Family, id: ClientId)
    requires Vouched(m, f, id)
    requires id in m.sessions ==> id in n.sessions || BeingCollected(n, id)
    requires id in m.refused ==> id in n.refused
    requires forall h :: h in m.shakes && m.shakes[h].id == id ==> h in n.shakes && n.shakes[h] == m.shakes[h]
    requires forall k :: Victim(m, k) && m.heap[k].id == id ==> Victim(n, k) && n.heap[k].id == id
    ensures Vouched(n, f, id)
  {
    if InSetUp(m, f, id) {
      var h :| h in m.shakes && m.shakes[h].id == id && f in m.shakes[h].addrs;
      assert h in n.shakes && n.shakes[h].id == id && f in n.shakes[h].addrs;
    }
    if BeingCollected(m, id) {
      var k :| Victim(m, k) && m.heap[k].id == id;
      assert Victim(n, k) && n.heap[k].id == id;
    }
  }

  /** Releasing a client's records leaves nothing of it to answer for. */
  lemma ReleaseNoLeak(m: Server, id: ClientId)
    requires forall f, j :: f in m.pools && j in m.pools[f].byClient && j != id ==> Vouched(m, f, j)
    ensures NoLeak(m.(pools := ReleaseAll(m.pools, id)))
  {
    var n := m.(pools := ReleaseAll(m.pools, id));
    forall f, j | f in n.pools && j in n.pools[f].byClient ensures Vouched(n, f, j) {
      assert j != id && j in m.pools[f].byClient;
      StillVouched(m, n, f, j);
    }
  }

  lemma FailedNoLeak(m: Server, id: ClientId)
    requires NoLeak(m)
    ensures NoLeak(FailedHandshake(m, id))
  {
    ReleaseNoLeak(m, id);
  }

  lemma OfferNoLeak(m: Server, q: map<Family, Pool>, x: Ident)
    requires Shape(m) && NoLeak(m) && q.Keys == m.pools.Keys
    requires forall f :: f in q && x.id in q[f].byClient ==> f in x.addrs
    requires forall f, j :: f in q && j != x.id && j in q[f].byClient ==> j in m.pools[f].byClient
    ensures NoLeak(Offer(m, q, x))
  {
    var n := Offer(m, q, x);
    forall f, j | f in n.pools && j in n.pools[f].byClient ensures Vouched(n, f, j) {
      if j == x.id {
        assert n.shakes[m.nextShake] == x;
        assert InSetUp(n, f, j);
      } else {
        StillVouched(m, n, f, j);
      }
    }
  }

  lemma HandshakeNoLeak(cfg: Config, m: Server, key: bytes, want: map<Family, Addr>, lanes: nat)
    requires Shape(m) && NoLeak(m) && UsablePools(m)
    ensures NoLeak(StartHandshake(cfg, m, key, want, lanes))
  {
    var id := cfg.derive(key);
    match Authorize(cfg, key)
    case None => FailedNoLeak(m, id);
    case Some(user) =>
      AllocateTells(cfg, m.pools, user, id, want);
      OfferNoLeak(m, AllocateAll(cfg, m.pools, user, id, want),
                  Ident(id, user, Answers(cfg, m.pools, user, id, want), lanes));
  }

  /** The client `id` has just lost a handshake; only its own records may be without a voucher. */
  ghost predicate NoLeakBut(m: Server, id: ClientId) {
    forall f, j :: f in m.pools && j in m.pools[f].byClient && j != id ==> Vouched(m, f, j)
  }

  lemma ShakeLeaves(m: Server, h: nat)
    requires NoLeak(m) && h in m.shakes
    ensures NoLeakBut(Without(m, h), m.shakes[h].id)
    ensures NoLeak(Without(m, h)) <==> !LastVoucher(m, h)
  {
    var n, id := Without(m, h), m.shakes[h].id;
    forall f, j | f in n.pools && j in n.pools[f].byClient && j != id ensures Vouched(n, f, j) {
      StillVouched(m, n, f, j);
    }
  }

  lemma AbortNoLeakIff(m: Server, h: nat)
    requires NoLeak(m)
    ensures NoLeak(AbortStep(m, h)) <==> !Leaks(m, Abort(h))
  {
    if h in m.shakes {
      var k, id := Without(m, h), m.shakes[h].id;
      ShakeLeaves(m, h);
      if id != ZERO_ID {
        if id in m.sessions {
          assert !LastVoucher(m, h);
        } else {
          ReleaseNoLeak(k, id);
        }
      }
    }
  }

  lemma CreateNoLeak(cfg: Config, m: Server, x: Ident, now: int)
    requires NoLeakBut(m, x.id) && m.next !in m.heap && x.id !in m.sessions
    ensures NoLeak(CreateSession(cfg, m, x, now))
  {
    var n := CreateSession(cfg, m, x, now);
    forall f, j | f in n.pools && j in n.pools[f].byClient ensures Vouched(n, f, j) {
      if j != x.id {
        StillVouched(m, n, f, j);
      }
    }
  }

  lemma RefusalNoLeak(m: Server, id: ClientId)
    requires NoLeakBut(m, id)
    ensures NoLeak(m.(refused := m.refused + multiset{id}))
  {
    var n := m.(refused := m.refused + multiset{id});
    assert id in n.refused;
    forall f, j | f in n.pools && j in n.pools[f].byClient ensures Vouched(n, f, j) {
      if j != id {
        StillVouched(m, n, f, j);
      }
    }
  }

  lemma AcquireNoLeak(cfg: Config, m: Server, x: Ident, now: int)
    requires NoLeakBut(m, x.id) && m.next !in m.heap
    ensures NoLeak(AcquireSession(cfg, m, x, now))
  {
    if x.id in m.sessions {
      assert NoLeak(m);
    } else if QuotaRefuses(cfg, m, x.user) {
      RefusalNoLeak(m, x.id);
    } else {
      CreateNoLeak(cfg, m, x, now);
    }
  }

  lemma FinishNoLeakIff(cfg: Config, m: Server, h: nat, now: int)
    requires NoLeak(m) && m.next !in m.heap
    ensures NoLeak(FinishStep(cfg, m, h, now)) <==> !Leaks(m, Finish(h, now))
  {
    if h in m.shakes {
      ShakeLeaves(m, h);
      if Assigned(m.pools, m.shakes[h].addrs) {
        AcquireNoLeak(cfg, Without(m, h), m.shakes[h], now);
      }
    }
  }

  lemma UnlinkNoLeak(m: Server, n: Server)
    requires Shape(m) && NoLeak(m)
    requires n == m.(sessions := n.sessions, ipIndex := n.ipIndex)
    requires forall id :: id in n.sessions ==> id in m.sessions && n.sessions[id] == m.sessions[id]
    ensures NoLeak(n)
  {
    forall f, j | f in n.pools && j in n.pools[f].byClient ensures Vouched(n, f, j) {
      if j in m.sessions && j !in n.sessions {
        assert Victim(n, m.sessions[j]);
      }
      StillVouched(m, n, f, j);
    }
  }

  lemma CloseNoLeak(m: Server, sid: Sid)
    requires NoLeak(m)
    ensures NoLeak(CloseStep(m, sid))
  {
    if Victim(m, sid) {
      var n, id := CloseSession(m, sid), m.heap[sid].id;
      forall f, j | f in n.pools && j in n.pools[f].byClient ensures Vouched(n, f, j) {
        assert j != id && j in m.pools[f].byClient;
        StillVouched(m, n, f, j);
      }
    }
  }

  lemma RefusedNoLeak(m: Server, id: ClientId)
    requires NoLeak(m)
    ensures NoLeak(RefusedStep(m, id))
  {
    if id in m.refused {
      var n := RefusedStep(m, id);
      forall f, j | f in n.pools && j in n.pools[f].byClient ensures Vouched(n, f, j) {
        assert j != id && j in m.pools[f].byClient;
        StillVouched(m, n, f, j);
      }
    }
  }

  lemma TouchedNoLeak(m: Server, n: Server)
    requires NoLeak(m) && SameSessions(m.heap, n.heap)
    requires n.sessions == m.sessions && n.pools == m.pools && n.shakes == m.shakes && n.refused == m.refused
    ensures NoLeak(n)
  {
    forall f, j | f in n.pools && j in n.pools[f].byClient ensures Vouched(n, f, j) {
      StillVouched(m, n, f, j);
    }
  }

  lemma SetUpLeaksIff(cfg: Config, m: Server, e: Event)
    requires Shape(m) && NoLeak(m) && UsablePools(m)
    requires SetUpEvent(e)
    ensures NoLeak(Step(cfg, m, e)) <==> !Leaks(m, e)
  {
    StepIs(cfg, m, e);
    match e {
      case Handshake(key, want, lanes) => HandshakeNoLeak(cfg, m, key, want, lanes);
      case Reject(key) => FailedNoLeak(m, cfg.derive(key));
      case Abort(h) => AbortNoLeakIff(m, h);
      case Finish(h, now) => FinishNoLeakIff(cfg, m, h, now);
    }
  }

  lemma SweepNoLeak(cfg: Config, m: Server, e: Event)
    requires Shape(m) && NoLeak(m) && UsablePools(m)
    requires SweepEvent(e)
    ensures NoLeak(Step(cfg, m, e))
  {
    StepIs(cfg, m, e);
    match e {
      case ReleaseRefused(id) => RefusedNoLeak(m, id);
      case Collect(now) => UnlinkNoLeak(m, Unlink(m, now));
      case CollectAll => UnlinkNoLeak(m, UnlinkAll(m));
      case Close(sid) => CloseNoLeak(m, sid);
      case Pay(sid) =>
        PayFrame(cfg, m, sid);
        TouchedNoLeak(m, PayStep(cfg, m, sid));
    }
  }

  /** Exactly which steps leave a record behind: a set-up that ends without a release while nobody
      else answers for the record; and no other. */
  lemma NoLeakIff(cfg: Config, m: Server, e: Event)
    requires Shape(m) && NoLeak(m) && UsablePools(m)
    ensures NoLeak(Step(cfg, m, e)) <==> !Leaks(m, e)
  {
    if DataEvent(e) {
      StepIs(cfg, m, e);
      DataFrame(cfg, m, e);
      TouchedNoLeak(m, DataStep(cfg, m, e));
    } else if SetUpEvent(e) {
      SetUpLeaksIff(cfg, m, e);
    } else {
      SweepNoLeak(cfg, m, e);
    }
  }

  // ---------------------------------------------------------------- runs

  ghost predicate NoneLeaks(ms: seq<Server>, es: seq<Event>) {
    |ms| == |es| + 1 && forall k :: 0 <= k < |es| ==> !Leaks(ms[k], es[k])
  }

  lemma NoLeakAfterIff(cfg: Config, base: map<Family, Pool>, ms: seq<Server>, es: seq<Event>, i: nat)
    requires WfConfig(cfg) && FreshPools(base) && IsRun(cfg, base, ms, es) && 0 < i < |ms| && NoLeak(ms[i - 1])
    ensures NoLeak(ms[i]) <==> !Leaks(ms[i - 1], es[i - 1])
  {
    LinkedAlways(cfg, base, ms, es, i - 1);
    StepTo(cfg, base, ms, es, i);
    NoLeakIff(cfg, ms[i - 1], es[i - 1]);
  }

  lemma {:induction false} NoLeakSoFar(cfg: Config, base: map<Family, Pool>, ms: seq<Server>, es: seq<Event>, i: nat)
    requires WfConfig(cfg) && FreshPools(base) && IsRun(cfg, base, ms, es) && i < |ms|
    requires forall k :: 0 <= k < i ==> !Leaks(ms[k], es[k])
    ensures NoLeak(ms[i])
    decreases i
  {
    if i == 0 {
    } else {
      NoLeakSoFar(cfg, base, ms, es, i - 1);
      NoLeakAfterIff(cfg, base, ms, es, i);
    }
  }

  /** In every interleaving: every pool record is answered for at every moment, by a live session,
      a pending handshake that was offered it, or a release that is still owed, exactly when no
      step of the run ends a set-up without a release while nobody else answers for it. */
  lemma RunLeaksIff(cfg: Config, base: map<Family, Pool>, ms: seq<Server>, es: seq<Event>)
    requires WfConfig(cfg) && FreshPools(base) && IsRun(cfg, base, ms, es)
    ensures (forall i :: 0 <= i < |ms| ==> NoLeak(ms[i])) <==> NoneLeaks(ms, es)
  {
    if NoneLeaks(ms, es) {
      forall i | 0 <= i < |ms| ensures NoLeak(ms[i]) {
        NoLeakSoFar(cfg, base, ms, es, i);
      }
    }
    if forall i :: 0 <= i < |ms| ==> NoLeak(ms[i]) {
      forall k | 0 <= k < |es| ensures !Leaks(ms[k], es[k]) {
        assert NoLeak(ms[k]) && NoLeak(ms[k + 1]);
        NoLeakAfterIff(cfg, base, ms, es, k + 1);
      }
    }
  }

  /** An aborted set-up of the all-zero id. */
  predicate AbortsNameless(m: Server, e: Event) {
    e.Abort? && e.h in m.shakes && m.shakes[e.h].id == ZERO_ID
  }

  ghost predicate NoneNameless(ms: seq<Server>, es: seq<Event>) {
    |ms| == |es| + 1 && forall k :: 0 <= k < |es| ==> !AbortsNameless(ms[k], es[k])
  }

  ghost predicate NonZeroPrefixes(base: map<Family, Pool>) {
    forall f :: f in base ==> base[f].subnet.bits >= 1
  }

  lemma OthersStillVouch(m: Server, h: nat, f: Family, id: ClientId)
    requires Vouched(m, f, id) && h in m.shakes && !(m.shakes[h].id == id && f in m.shakes[h].addrs)
    ensures Vouched(Without(m, h), f, id)
  {
    var n := Without(m, h);
    if InSetUp(m, f, id) {
      var k :| k in m.shakes && m.shakes[k].id == id && f in m.shakes[k].addrs;
      assert k in n.shakes && n.shakes[k] == m.shakes[k];
    }
    if BeingCollected(m, id) {
      var sid :| Victim(m, sid) && m.heap[sid].id == id;
      assert Victim(n, sid);
    }
  }

  /** What a handshake alone answers for, it was offered. */
  lemma LastVoucherOffered(m: Server, h: nat) returns (f: Family)
    requires NoLeak(m) && LastVoucher(m, h)
    ensures f in m.pools && f in m.shakes[h].addrs
  {
    var n, id := Without(m, h), m.shakes[h].id;
    f :| f in m.pools && id in m.pools[f].byClient && !Vouched(n, f, id);
    if f !in m.shakes[h].addrs {
      OthersStillVouch(m, h, f, id);
    }
  }

  lemma NamedStepLeaksNot(base: map<Family, Pool>, m: Server, e: Event)
    requires NoLeak(m) && SamePlaces(base, m.pools) && NonZeroPrefixes(base) && !AbortsNameless(m, e)
    ensures !Leaks(m, e)
  {
    if e.Finish? && LastVoucher(m, e.h) {
      var f := LastVoucherOffered(m, e.h);
      assert f == F4 || f == F6;
      assert f in base && m.pools[f].subnet == base[f].subnet;
    }
  }

  lemma NamedAfterLeaksNot(cfg: Config, base: map<Family, Pool>, ms: seq<Server>, es: seq<Event>, i: nat)
    requires WfConfig(cfg) && FreshPools(base) && IsRun(cfg, base, ms, es) && 0 < i < |ms| && NoLeak(ms[i - 1])
    requires NonZeroPrefixes(base) && !AbortsNameless(ms[i - 1], es[i - 1])
    ensures !Leaks(ms[i - 1], es[i - 1])
  {
    PlacesAlways(cfg, base, ms, es, i - 1);
    NamedStepLeaksNot(base, ms[i - 1], es[i - 1]);
  }

  /** So with prefix lengths other than zero, only an aborted set-up of the all-zero id can leave a
      record that nobody answers for. */
  lemma {:induction false} NoLeakAlways(cfg: Config, base: map<Family, Pool>, ms: seq<Server>, es: seq<Event>, i: nat)
    requires WfConfig(cfg) && FreshPools(base) && IsRun(cfg, base, ms, es) && i < |ms|
    requires NonZeroPrefixes(base) && NoneNameless(ms, es)
    ensures NoLeak(ms[i]) && forall k :: 0 <= k < i ==> !Leaks(ms[k], es[k])
    decreases i
  {
    if i == 0 {
    } else {
      NoLeakAlways(cfg, base, ms, es, i - 1);
      NamedAfterLeaksNot(cfg, base, ms, es, i);
      NoLeakAfterIff(cfg, base, ms, es, i);
    }
  }

  /** No set-up is under way and no release is owed. */
  ghost predicate Idle(m: Server) {
    m.shakes == map[] && !Owing(m)
  }

  ghost predicate RecordsHaveSessions(m: Server) {
    forall f, id :: f in m.pools && id in m.pools[f].byClient ==> id in m.sessions
  }

  /** Whenever a run without such a step comes to rest, every record is that of a live session's
      client. */
  lemma IdleIsClean(cfg: Config, base: map<Family, Pool>, ms: seq<Server>, es: seq<Event>, i: nat)
    requires WfConfig(cfg) && FreshPools(base) && IsRun(cfg, base, ms, es) && i < |ms| && Idle(ms[i])
    requires forall k :: 0 <= k < i ==> !Leaks(ms[k], es[k])
    ensures RecordsHaveSessions(ms[i])
  {
    NoLeakSoFar(cfg, base, ms, es, i);
    forall f, id | f in ms[i].pools && id in ms[i].pools[f].byClient ensures id in ms[i].sessions {
      assert Vouched(ms[i], f, id);
    }
  }
}
