/** Which sessions a collection takes, told from the schedule alone. */
module ControlLanes {
  import opened Bytes
  import opened Addr
  import opened Users
  import opened AddrPool
  import opened Control
  import opened ControlSafety
  import opened ControlRuns
  import opened ControlQuota

  // ---------------------------------------------------------------- what the schedule says

  /** What one event adds to the lanes of a session. */
  function LaneChange(e: Event, sid: Sid): int {
    if e.LaneUp? && e.sid == sid then 1 else if e.LaneDown? && e.sid == sid then -1 else 0
  }

  /** Lanes that came minus lanes that went. */
  function Lanes(es: seq<Event>, sid: Sid): int {
    if es == [] then 0 else Lanes(es[..|es| - 1], sid) + LaneChange(es[|es| - 1], sid)
  }

  /** Lanes that came. */
  function Arrivals(es: seq<Event>, sid: Sid): nat {
    if es == [] then 0
    else Arrivals(es[..|es| - 1], sid) + (if es[|es| - 1].LaneUp? && es[|es| - 1].sid == sid then 1 else 0)
  }

  /** When a lane of the session last came or went; `made` if none has. */
  function LastLane(es: seq<Event>, sid: Sid, made: int): int {
    if es == [] then made
    else
      var e := es[|es| - 1];
      if (e.LaneUp? || e.LaneDown?) && e.sid == sid then e.now else LastLane(es[..|es| - 1], sid, made)
  }

  /** A session made at `made`, with `es` since, is left alone by this event. */
  predicate Spares(es: seq<Event>, sid: Sid, made: int, e: Event) {
    !e.CollectAll? && (e.Collect? ==> Lanes(es, sid) != 0 || e.now - LastLane(es, sid, made) <= 90)
  }

  /** No collection took the session: each found a lane attached, or one that came or went, or the
      session made, at most 90 seconds before. */
  ghost predicate Outlives(es: seq<Event>, sid: Sid, made: int) {
    forall k :: 0 <= k < |es| ==> Spares(es[..k], sid, made, es[k])
  }

  lemma LanesSnoc(es: seq<Event>, e: Event, sid: Sid, made: int)
    ensures Lanes(es + [e], sid) == Lanes(es, sid) + LaneChange(e, sid)
    ensures Arrivals(es + [e], sid) == Arrivals(es, sid) + (if e.LaneUp? && e.sid == sid then 1 else 0)
    ensures LastLane(es + [e], sid, made)
         == if (e.LaneUp? || e.LaneDown?) && e.sid == sid then e.now else LastLane(es, sid, made)
  {
    assert (es + [e])[..|es|] == es;
  }

  lemma OutlivesSnoc(es: seq<Event>, e: Event, sid: Sid, made: int)
    ensures Outlives(es + [e], sid, made) <==> Outlives(es, sid, made) && Spares(es, sid, made, e)
  {
    var all := es + [e];
    forall k | 0 <= k <= |es| ensures all[..k] == es[..k] {
    }
    assert all[|es|] == e && es[..|es|] == es;
    if Outlives(all, sid, made) {
      assert Spares(all[..|es|], sid, made, all[|es|]);
      forall k | 0 <= k < |es| ensures Spares(es[..k], sid, made, es[k]) {
        assert Spares(all[..k], sid, made, all[k]);
      }
    }
  }

  // ---------------------------------------------------------------- what steps do to one session

  /** A session as it was, except that it may have been closed. */
  ghost predicate SameButClosed(s: Session, t: Session) {
    t == s.(closed := t.closed)
  }

  lemma FinishSession(cfg: Config, m: Server, h: nat, now: int, sid: Sid)
    requires sid in m.heap && m.next !in m.heap
    ensures sid in FinishStep(cfg, m, h, now).heap && FinishStep(cfg, m, h, now).heap[sid] == m.heap[sid]
  {
  }

  lemma CloseOther(m: Server, k: Sid, sid: Sid)
    requires sid in m.heap
    ensures sid in CloseStep(m, k).heap && SameButClosed(m.heap[sid], CloseStep(m, k).heap[sid])
  {
  }

  /** Only lanes and packets change a session, apart from its end. */
  lemma QuietSession(cfg: Config, m: Server, e: Event, sid: Sid)
    requires sid in m.heap && m.next !in m.heap && UsablePools(m) && !DataEvent(e)
    ensures sid in Step(cfg, m, e).heap && SameButClosed(m.heap[sid], Step(cfg, m, e).heap[sid])
  {
    if e.Finish? {
      StepIs(cfg, m, e);
      FinishSession(cfg, m, e.h, e.now, sid);
    } else if e.Close? {
      StepIs(cfg, m, e);
      CloseOther(m, e.sid, sid);
    } else if e.Pay? {
      StepIs(cfg, m, e);
      PayFrame(cfg, m, e.sid);
    } else {
      QuietSteps(cfg, m, e);
    }
  }

  /** The session's counters say what the schedule since it was made says. */
  ghost predicate Counted(s: Session, es: seq<Event>, sid: Sid, made: int) {
    s.active == Lanes(es, sid) && s.nextLane == Arrivals(es, sid) && s.lastSeen == LastLane(es, sid, made)
  }

  lemma LaneHeap(m: Server, k: Sid, t: Session, sid: Sid)
    requires sid in m.heap
    ensures sid in SetSession(m, k, t).heap && SetSession(m, k, t).heap[sid] == if k == sid then t else m.heap[sid]
  {
  }

  lemma UpCounts(m: Server, k: Sid, now: int, sid: Sid, es: seq<Event>, made: int)
    requires sid in m.heap && Counted(m.heap[sid], es, sid, made)
    ensures sid in LaneUpStep(m, k, now).heap && Counted(LaneUpStep(m, k, now).heap[sid], es + [LaneUp(k, now)], sid, made)
  {
    LanesSnoc(es, LaneUp(k, now), sid, made);
    if k in m.heap {
      LaneHeap(m, k, LaneStarted(m.heap[k], now), sid);
    }
  }

  lemma DownCounts(m: Server, k: Sid, now: int, sid: Sid, es: seq<Event>, made: int)
    requires sid in m.heap && Counted(m.heap[sid], es, sid, made)
    ensures sid in LaneDownStep(m, k, now).heap && Counted(LaneDownStep(m, k, now).heap[sid], es + [LaneDown(k, now)], sid, made)
  {
    LanesSnoc(es, LaneDown(k, now), sid, made);
    if k in m.heap {
      LaneHeap(m, k, LaneEnded(m.heap[k], now), sid);
    }
  }

  lemma PacketCounts(cfg: Config, m: Server, e: Event, sid: Sid)
    requires sid in m.heap && (e.Route? || e.Push? || e.Pop?)
    ensures sid in DataStep(cfg, m, e).heap && DataStep(cfg, m, e).heap[sid].active == m.heap[sid].active
    ensures DataStep(cfg, m, e).heap[sid].lastSeen == m.heap[sid].lastSeen
    ensures DataStep(cfg, m, e).heap[sid].nextLane == m.heap[sid].nextLane
  {
    DataStepIs(cfg, m, e);
  }

  lemma DataCounts(cfg: Config, m: Server, e: Event, sid: Sid, es: seq<Event>, made: int)
    requires sid in m.heap && DataEvent(e) && Counted(m.heap[sid], es, sid, made)
    ensures sid in DataStep(cfg, m, e).heap && Counted(DataStep(cfg, m, e).heap[sid], es + [e], sid, made)
  {
    DataStepIs(cfg, m, e);
    match e {
      case LaneUp(k, now) => UpCounts(m, k, now, sid, es, made);
      case LaneDown(k, now) => DownCounts(m, k, now, sid, es, made);
      case _ =>
        PacketCounts(cfg, m, e, sid);
        LanesSnoc(es, e, sid, made);
    }
  }

  lemma StepCounts(cfg: Config, m: Server, e: Event, sid: Sid, es: seq<Event>, made: int)
    requires sid in m.heap && m.next !in m.heap && UsablePools(m) && Counted(m.heap[sid], es, sid, made)
    ensures sid in Step(cfg, m, e).heap && Counted(Step(cfg, m, e).heap[sid], es + [e], sid, made)
  {
    if DataEvent(e) {
      StepIs(cfg, m, e);
      DataCounts(cfg, m, e, sid, es, made);
    } else {
      QuietSession(cfg, m, e, sid);
      LanesSnoc(es, e, sid, made);
    }
  }

  // ---------------------------------------------------------------- what steps do to the links

  lemma FinishLive(cfg: Config, m: Server, h: nat, now: int, sid: Sid)
    requires sid in m.heap && m.next !in m.heap
    ensures Live(FinishStep(cfg, m, h, now), sid) <==> Live(m, sid)
  {
  }

  lemma UnlinkLive(m: Server, now: int, sid: Sid)
    requires sid in m.heap
    ensures Live(Unlink(m, now), sid) <==> Live(m, sid) && !(m.heap[sid].active == 0 && now - m.heap[sid].lastSeen > 90)
  {
  }

  lemma SameLive(m: Server, n: Server, sid: Sid)
    requires n.sessions == m.sessions && sid in m.heap && sid in n.heap && n.heap[sid].id == m.heap[sid].id
    ensures Live(n, sid) <==> Live(m, sid)
  {
  }

  lemma LinksKept(cfg: Config, m: Server, e: Event)
    requires UsablePools(m) && !e.Finish? && !e.Collect? && !e.CollectAll?
    ensures Step(cfg, m, e).sessions == m.sessions
  {
    StepIs(cfg, m, e);
    match e {
      case Handshake(key, want, lanes) => HandshakeFrame(cfg, m, key, want, lanes);
      case Reject(key) => FailedFrame(m, cfg.derive(key));
      case Abort(h) => if h in m.shakes { FailedFrame(Without(m, h), m.shakes[h].id); }
      case ReleaseRefused(id) =>
      case Close(sid) =>
      case Pay(sid) => PayFrame(cfg, m, sid);
      case _ => DataFrame(cfg, m, e);
    }
  }

  lemma SameSelf(cfg: Config, m: Server, e: Event, sid: Sid)
    requires sid in m.heap && m.next !in m.heap && UsablePools(m)
    ensures sid in Step(cfg, m, e).heap && Step(cfg, m, e).heap[sid].id == m.heap[sid].id
  {
    if DataEvent(e) {
      StepIs(cfg, m, e);
      DataFrame(cfg, m, e);
    } else {
      QuietSession(cfg, m, e, sid);
    }
  }

  lemma StepLive(cfg: Config, m: Server, e: Event, sid: Sid, es: seq<Event>, made: int)
    requires sid in m.heap && m.next !in m.heap && UsablePools(m) && Counted(m.heap[sid], es, sid, made)
    ensures Live(Step(cfg, m, e), sid) <==> Live(m, sid) && Spares(es, sid, made, e)
  {
    if e.Collect? {
      StepIs(cfg, m, e);
      UnlinkLive(m, e.now, sid);
    } else if e.CollectAll? {
      StepIs(cfg, m, e);
    } else if e.Finish? {
      StepIs(cfg, m, e);
      FinishLive(cfg, m, e.h, e.now, sid);
    } else {
      LinksKept(cfg, m, e);
      SameSelf(cfg, m, e, sid);
      SameLive(m, Step(cfg, m, e), sid);
    }
  }

  // ---------------------------------------------------------------- runs

  /** The `c`-th event makes the session. */
  ghost predicate Makes(ms: seq<Server>, es: seq<Event>, c: nat, sid: Sid) {
    c < |es| && |ms| == |es| + 1 && sid !in ms[c].heap && sid in ms[c + 1].heap
  }

  lemma OnlyFinishMakes(cfg: Config, m: Server, e: Event, sid: Sid)
    requires UsablePools(m) && sid !in m.heap && sid in Step(cfg, m, e).heap
    ensures e.Finish?
  {
    StepIs(cfg, m, e);
    if DataEvent(e) {
      DataFrame(cfg, m, e);
    } else if !e.Finish? && !e.Close? && !e.Pay? {
      QuietSteps(cfg, m, e);
    } else if e.Pay? {
      PayFrame(cfg, m, e.sid);
    }
  }

  lemma FinishMakes(cfg: Config, m: Server, h: nat, now: int, sid: Sid)
    requires sid !in m.heap && sid in FinishStep(cfg, m, h, now).heap
    ensures h in m.shakes && m.shakes[h].id !in m.sessions && Live(FinishStep(cfg, m, h, now), sid)
    ensures var x, lanes := m.shakes[h], m.shakes[h].lanes;
      FinishStep(cfg, m, h, now).heap[sid]
      == Session(x.id, x.user, x.addrs, if lanes == 0 then 1 else if lanes <= 64 then lanes else 64, [], 0, 0, now, false)
  {
  }

  /** A session is made by the `Finish` of a handshake, with that handshake's client, user and
      addresses and its lane count brought between 1 and 64, and is live then. */
  lemma MadeByFinish(cfg: Config, base: map<Family, Pool>, ms: seq<Server>, es: seq<Event>, c: nat, sid: Sid)
    requires IsRun(cfg, base, ms, es) && Makes(ms, es, c, sid)
    ensures es[c].Finish? && es[c].h in ms[c].shakes && ms[c].shakes[es[c].h].id !in ms[c].sessions && Live(ms[c + 1], sid)
    ensures var x, lanes := ms[c].shakes[es[c].h], ms[c].shakes[es[c].h].lanes;
      ms[c + 1].heap[sid]
      == Session(x.id, x.user, x.addrs, if lanes == 0 then 1 else if lanes <= 64 then lanes else 64, [], 0, 0, es[c].now, false)
  {
    StepTo(cfg, base, ms, es, c + 1);
    OnlyFinishMakes(cfg, ms[c], es[c], sid);
    StepIs(cfg, ms[c], es[c]);
    FinishMakes(cfg, ms[c], es[c].h, es[c].now, sid);
  }

  lemma {:induction false} EverySessionIsMade(cfg: Config, base: map<Family, Pool>, ms: seq<Server>, es: seq<Event>, i: nat, sid: Sid)
    returns (c: nat)
    requires IsRun(cfg, base, ms, es) && i < |ms| && sid in ms[i].heap
    ensures c < i && Makes(ms, es, c, sid)
    decreases i
  {
    if sid in ms[i - 1].heap {
      c := EverySessionIsMade(cfg, base, ms, es, i - 1, sid);
    } else {
      c := i - 1;
    }
  }

  lemma {:induction false} LanesAreCounted(cfg: Config, base: map<Family, Pool>, ms: seq<Server>, es: seq<Event>,
                                           c: nat, i: nat, sid: Sid)
    requires WfConfig(cfg) && FreshPools(base) && IsRun(cfg, base, ms, es) && Makes(ms, es, c, sid) && c < i < |ms|
    ensures es[c].Finish? && sid in ms[i].heap && Counted(ms[i].heap[sid], es[c + 1..i], sid, es[c].now)
    ensures Live(ms[i], sid) <==> Outlives(es[c + 1..i], sid, es[c].now)
    decreases i
  {
    if i == c + 1 {
      MadeByFinish(cfg, base, ms, es, c, sid);
      assert es[c + 1..i] == [];
    } else {
      LanesAreCounted(cfg, base, ms, es, c, i - 1, sid);
      CountedAfter(cfg, base, ms, es, c, i, sid);
    }
  }

  lemma CountedAfter(cfg: Config, base: map<Family, Pool>, ms: seq<Server>, es: seq<Event>, c: nat, i: nat, sid: Sid)
    requires WfConfig(cfg) && FreshPools(base) && IsRun(cfg, base, ms, es) && c + 1 < i < |ms| && es[c].Finish?
    requires sid in ms[i - 1].heap && Counted(ms[i - 1].heap[sid], es[c + 1..i - 1], sid, es[c].now)
    requires Live(ms[i - 1], sid) <==> Outlives(es[c + 1..i - 1], sid, es[c].now)
    ensures sid in ms[i].heap && Counted(ms[i].heap[sid], es[c + 1..i], sid, es[c].now)
    ensures Live(ms[i], sid) <==> Outlives(es[c + 1..i], sid, es[c].now)
  {
    var past, e := es[c + 1..i - 1], es[i - 1];
    assert es[c + 1..i] == past + [e];
    KnownAlways(cfg, base, ms, es, i - 1);
    StepTo(cfg, base, ms, es, i);
    StepCounts(cfg, ms[i - 1], e, sid, past, es[c].now);
    StepLive(cfg, ms[i - 1], e, sid, past, es[c].now);
    OutlivesSnoc(past, e, sid, es[c].now);
  }

  /** In every interleaving, on the schedule alone: a session is live exactly as long as no
      shutdown has come and every collection found a lane attached to it, or found that 90 seconds
      had not passed since it was made or a lane last came or went. */
  lemma LiveIff(cfg: Config, base: map<Family, Pool>, ms: seq<Server>, es: seq<Event>, c: nat, i: nat, sid: Sid)
    requires WfConfig(cfg) && FreshPools(base) && IsRun(cfg, base, ms, es) && Makes(ms, es, c, sid) && c < i < |ms|
    ensures es[c].Finish?
    ensures Live(ms[i], sid) <==> Outlives(es[c + 1..i], sid, es[c].now)
  {
    LanesAreCounted(cfg, base, ms, es, c, i, sid);
  }

  /** A collection leaves a session with a lane attached, and takes a live session without one if
      and only if it was made, and a lane of it last came or went, more than 90 seconds before. */
  lemma CollectTakesIff(cfg: Config, base: map<Family, Pool>, ms: seq<Server>, es: seq<Event>, c: nat, i: nat, sid: Sid)
    requires WfConfig(cfg) && FreshPools(base) && IsRun(cfg, base, ms, es) && Makes(ms, es, c, sid)
    requires c < i < |es| && es[i].Collect? && Live(ms[i], sid)
    ensures es[c].Finish?
    ensures Lanes(es[c + 1..i], sid) > 0 ==> Live(ms[i + 1], sid)
    ensures Lanes(es[c + 1..i], sid) == 0 ==>
              (!Live(ms[i + 1], sid) <==> es[i].now - LastLane(es[c + 1..i], sid, es[c].now) > 90)
  {
    LanesAreCounted(cfg, base, ms, es, c, i, sid);
    LanesAreCounted(cfg, base, ms, es, c, i + 1, sid);
    assert es[c + 1..i + 1] == es[c + 1..i] + [es[i]];
    OutlivesSnoc(es[c + 1..i], es[i], sid, es[c].now);
  }
}
