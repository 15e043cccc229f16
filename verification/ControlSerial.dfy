/** Set-ups and collections that do not interleave: the general theorems without provisos. */
module ControlSerial {
  import opened Bytes
  import opened Addr
  import opened Users
  import opened AddrPool
  import opened Control
  import opened ControlSafety
  import opened ControlRuns
  import opened ControlSticky
  import opened ControlPending
  import opened ControlLeaks

  /** One connection set-up at a time, from allocation to its abort, refusal or session; one
      collection at a time, with its tear-downs. Client ids are not all-zero. */
  ghost predicate Serial(cfg: Config, m: Server, e: Event) {
    && Prompt(m, e)
    && (m.shakes != map[] ==> e.Abort? || e.Finish? || e.Pay? || DataEvent(e))
    && (e.Handshake? ==> cfg.derive(e.key) != ZERO_ID)
  }

  ghost predicate SerialRun(cfg: Config, base: map<Family, Pool>, ms: seq<Server>, es: seq<Event>) {
    IsRun(cfg, base, ms, es) && forall k :: 0 <= k < |es| ==> Serial(cfg, ms[k], es[k])
  }

  ghost predicate OneShake(m: Server) {
    && (forall h :: h in m.shakes ==> m.shakes[h].id != ZERO_ID)
    && (forall h, k :: h in m.shakes && k in m.shakes ==> h == k)
  }

  lemma HandshakeShakes(cfg: Config, m: Server, key: bytes, want: map<Family, Addr>, lanes: nat)
    requires UsablePools(m)
    ensures var n := StartHandshake(cfg, m, key, want, lanes);
      || n.shakes == m.shakes
      || (m.nextShake in n.shakes && n.shakes == m.shakes[m.nextShake := n.shakes[m.nextShake]]
          && n.shakes[m.nextShake].id == cfg.derive(key))
  {
    var id := cfg.derive(key);
    match Authorize(cfg, key)
    case None =>
    case Some(user) =>
      OfferShakes(m, AllocateAll(cfg, m.pools, user, id, want), Ident(id, user, Answers(cfg, m.pools, user, id, want), lanes));
  }

  lemma OfferShakes(m: Server, pools: map<Family, Pool>, x: Ident)
    ensures Offer(m, pools, x).shakes == m.shakes[m.nextShake := x]
  {
  }

  lemma FinishShakes(cfg: Config, m: Server, x: Ident, now: int)
    ensures FinishHandshake(cfg, m, x, now).shakes == m.shakes
  {
  }

  /** Handshakes enter one by one and leave in any order. */
  lemma ShakesStep(cfg: Config, m: Server, e: Event, h: nat)
    requires UsablePools(m) && h in Step(cfg, m, e).shakes
    ensures (h in m.shakes && Step(cfg, m, e).shakes[h] == m.shakes[h])
         || (e.Handshake? && h == m.nextShake && Step(cfg, m, e).shakes[h].id == cfg.derive(e.key))
  {
    StepIs(cfg, m, e);
    match e {
      case Handshake(key, want, lanes) => HandshakeShakes(cfg, m, key, want, lanes);
      case Finish(k, now) =>
        if k in m.shakes {
          FinishShakes(cfg, Without(m, k), m.shakes[k], now);
        }
      case _ => if DataEvent(e) { DataFrame(cfg, m, e); }
    }
  }

  lemma OneShakeStep(cfg: Config, m: Server, e: Event)
    requires OneShake(m) && UsablePools(m) && Serial(cfg, m, e)
    ensures OneShake(Step(cfg, m, e))
  {
    var n := Step(cfg, m, e);
    forall h | h in n.shakes ensures n.shakes[h].id != ZERO_ID {
      ShakesStep(cfg, m, e, h);
    }
    forall h, k | h in n.shakes && k in n.shakes ensures h == k {
      ShakesStep(cfg, m, e, h);
      ShakesStep(cfg, m, e, k);
    }
  }

  lemma SerialNeverRobs(cfg: Config, m: Server, e: Event)
    requires OneShake(m) && Serial(cfg, m, e)
    ensures !Robs(cfg, m, e) && !AbortsNameless(m, e)
  {
    if m.shakes == map[] {
      assert forall id :: !Pending(m, id);
    }
  }

  lemma {:induction false} OneShakeAlways(cfg: Config, base: map<Family, Pool>, ms: seq<Server>, es: seq<Event>, i: nat)
    requires SerialRun(cfg, base, ms, es) && i < |ms|
    ensures OneShake(ms[i])
    decreases i
  {
    if i == 0 {
    } else {
      OneShakeAlways(cfg, base, ms, es, i - 1);
      StepTo(cfg, base, ms, es, i);
      OneShakeStep(cfg, ms[i - 1], es[i - 1]);
    }
  }

  /** In coarse steps all of it holds at every moment: no two live sessions share an address; each
      session's addresses are the pools' records for its client; the index is exact; and where no
      prefix length is zero, whenever no set-up or collection is under way every record is that of
      a live session's client, so aborts and refusals leak nothing. */
  lemma CoarseSafety(cfg: Config, base: map<Family, Pool>, ms: seq<Server>, es: seq<Event>, i: nat)
    requires WfConfig(cfg) && FreshPools(base) && SerialRun(cfg, base, ms, es) && i < |ms|
    ensures Unique(ms[i]) && Sticky(ms[i]) && IndexExact(ms[i]) && SoundPools(ms[i].pools)
    ensures Idle(ms[i]) && NonZeroPrefixes(base) ==> RecordsHaveSessions(ms[i])
  {
    forall k | 0 <= k < |es| ensures Prompt(ms[k], es[k]) && !Robs(cfg, ms[k], es[k]) && !AbortsNameless(ms[k], es[k]) {
      OneShakeAlways(cfg, base, ms, es, k);
      SerialNeverRobs(cfg, ms[k], es[k]);
    }
    PromptSafety(cfg, base, ms, es, i);
    if Idle(ms[i]) && NonZeroPrefixes(base) {
      NoLeakAlways(cfg, base, ms, es, i);
      IdleIsClean(cfg, base, ms, es, i);
    }
  }
}
