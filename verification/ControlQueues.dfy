/** Packets for a session: who is handed what, in which order, and what is dropped. */
module ControlQueues {
  import opened Bytes
  import opened Addr
  import opened Users
  import opened AddrPool
  import opened Routing
  import opened Control
  import opened ControlSafety
  import opened ControlRuns
  import opened ControlQuota
  import opened ControlLanes

  // ---------------------------------------------------------------- one step

  /** What the step adds to the session's queue: a packet a reader holds for it, if fewer than 256
      wait, unless the session is closed and the send is lost. */
  ghost function Added(m: Server, e: Event, sid: Sid): seq<bytes> {
    if e.Push? && e.reader in m.readers && m.readers[e.reader].1 == sid && sid in m.heap
       && |m.heap[sid].outbound| < 256 && !(m.heap[sid].closed && e.lost)
    then [m.readers[e.reader].0] else []
  }

  /** What the step takes from it: the packet that has waited longest. */
  ghost function Removed(m: Server, e: Event, sid: Sid): seq<bytes> {
    if e.Pop? && e.sid == sid && sid in m.heap && m.heap[sid].outbound != [] then [m.heap[sid].outbound[0]] else []
  }

  lemma PushQueue(m: Server, r: nat, lost: bool, sid: Sid)
    requires sid in m.heap
    ensures sid in PushStep(m, r, lost).heap
    ensures PushStep(m, r, lost).heap[sid].outbound == m.heap[sid].outbound + Added(m, Push(r, lost), sid)
  {
  }

  lemma PopQueue(m: Server, k: Sid, sid: Sid)
    requires sid in m.heap
    ensures sid in PopStep(m, k).heap
    ensures Removed(m, Pop(k), sid) + PopStep(m, k).heap[sid].outbound == m.heap[sid].outbound
  {
  }

  lemma UpQueue(m: Server, k: Sid, now: int, sid: Sid)
    requires sid in m.heap
    ensures sid in LaneUpStep(m, k, now).heap && LaneUpStep(m, k, now).heap[sid].outbound == m.heap[sid].outbound
  {
  }

  lemma DownQueue(m: Server, k: Sid, now: int, sid: Sid)
    requires sid in m.heap
    ensures sid in LaneDownStep(m, k, now).heap && LaneDownStep(m, k, now).heap[sid].outbound == m.heap[sid].outbound
  {
  }

  lemma DataQueue(cfg: Config, m: Server, e: Event, sid: Sid)
    requires DataEvent(e) && sid in m.heap
    ensures sid in DataStep(cfg, m, e).heap
    ensures Removed(m, e, sid) + DataStep(cfg, m, e).heap[sid].outbound == m.heap[sid].outbound + Added(m, e, sid)
  {
    DataStepIs(cfg, m, e);
    Unit0(m.heap[sid].outbound);
    match e {
      case LaneUp(k, now) => UpQueue(m, k, now, sid);
      case LaneDown(k, now) => DownQueue(m, k, now, sid);
      case Pop(k) => PopQueue(m, k, sid);
      case Push(r, lost) => PushQueue(m, r, lost, sid);
      case Route(_, _) =>
    }
  }

  ghost function Queue(m: Server, sid: Sid): seq<bytes> {
    if sid in m.heap then m.heap[sid].outbound else []
  }

  lemma NewQueue(cfg: Config, m: Server, e: Event, sid: Sid)
    requires UsablePools(m) && sid !in m.heap
    ensures Queue(Step(cfg, m, e), sid) == []
  {
    if sid in Step(cfg, m, e).heap {
      OnlyFinishMakes(cfg, m, e, sid);
      StepIs(cfg, m, e);
      FinishMakes(cfg, m, e.h, e.now, sid);
    }
  }

  /** What the step takes, before what it leaves, is what there was, before what it adds. */
  lemma StepQueue(cfg: Config, m: Server, e: Event, sid: Sid)
    requires UsablePools(m) && m.next !in m.heap
    ensures Removed(m, e, sid) + Queue(Step(cfg, m, e), sid) == Queue(m, sid) + Added(m, e, sid)
  {
    if sid !in m.heap {
      NewQueue(cfg, m, e, sid);
    } else if DataEvent(e) {
      StepIs(cfg, m, e);
      DataQueue(cfg, m, e, sid);
    } else {
      QuietSession(cfg, m, e, sid);
      Unit0(m.heap[sid].outbound);
    }
  }

  // ---------------------------------------------------------------- first in, first out

  ghost function AllAdded(ms: seq<Server>, es: seq<Event>, sid: Sid, i: nat): seq<bytes>
    requires i <= |es| < |ms|
  {
    if i == 0 then [] else AllAdded(ms, es, sid, i - 1) + Added(ms[i - 1], es[i - 1], sid)
  }

  ghost function AllRemoved(ms: seq<Server>, es: seq<Event>, sid: Sid, i: nat): seq<bytes>
    requires i <= |es| < |ms|
  {
    if i == 0 then [] else AllRemoved(ms, es, sid, i - 1) + Removed(ms[i - 1], es[i - 1], sid)
  }

  lemma Shift(gone: seq<bytes>, out: seq<bytes>, queue': seq<bytes>, queue: seq<bytes>, all: seq<bytes>, add: seq<bytes>)
    requires gone + queue == all && out + queue' == queue + add
    ensures gone + out + queue' == all + add
  {
    Assoc(gone, out, queue');
    Assoc(gone, queue, add);
  }

  ghost predicate InOrder(ms: seq<Server>, es: seq<Event>, sid: Sid, i: nat)
    requires i <= |es| < |ms|
  {
    AllRemoved(ms, es, sid, i) + Queue(ms[i], sid) == AllAdded(ms, es, sid, i)
  }

  lemma InOrderAfter(cfg: Config, base: map<Family, Pool>, ms: seq<Server>, es: seq<Event>, sid: Sid, i: nat)
    requires WfConfig(cfg) && FreshPools(base) && IsRun(cfg, base, ms, es) && 0 < i < |ms| && InOrder(ms, es, sid, i - 1)
    ensures InOrder(ms, es, sid, i)
  {
    KnownAlways(cfg, base, ms, es, i - 1);
    StepTo(cfg, base, ms, es, i);
    StepQueue(cfg, ms[i - 1], es[i - 1], sid);
    Shift(AllRemoved(ms, es, sid, i - 1), Removed(ms[i - 1], es[i - 1], sid), Queue(ms[i], sid),
          Queue(ms[i - 1], sid), AllAdded(ms, es, sid, i - 1), Added(ms[i - 1], es[i - 1], sid));
  }

  /** In every interleaving a session's lanes take its packets in the order in which they were
      queued, each once: those taken, followed by those that wait, are those queued. */
  lemma FirstInFirstOut(cfg: Config, base: map<Family, Pool>, ms: seq<Server>, es: seq<Event>, sid: Sid, i: nat)
    requires WfConfig(cfg) && FreshPools(base) && IsRun(cfg, base, ms, es) && i < |ms| && sid in ms[i].heap
    ensures AllRemoved(ms, es, sid, i) + ms[i].heap[sid].outbound == AllAdded(ms, es, sid, i)
  {
    InOrderAlways(cfg, base, ms, es, sid, i);
  }

  lemma {:induction false} InOrderAlways(cfg: Config, base: map<Family, Pool>, ms: seq<Server>, es: seq<Event>, sid: Sid, i: nat)
    requires WfConfig(cfg) && FreshPools(base) && IsRun(cfg, base, ms, es) && i < |ms|
    ensures InOrder(ms, es, sid, i)
    decreases i
  {
    if i == 0 {
    } else {
      InOrderAlways(cfg, base, ms, es, sid, i - 1);
      InOrderAfter(cfg, base, ms, es, sid, i);
    }
  }

  // ---------------------------------------------------------------- from lookup to queue

  /** The event is the reader's own. */
  predicate OfReader(e: Event, r: nat) {
    (e.Route? || e.Push?) && e.reader == r
  }

  lemma ReaderKept(cfg: Config, m: Server, e: Event, r: nat)
    requires UsablePools(m) && r in m.readers && !OfReader(e, r)
    ensures r in Step(cfg, m, e).readers && Step(cfg, m, e).readers[r] == m.readers[r]
  {
    StepIs(cfg, m, e);
    match e {
      case Handshake(key, want, lanes) => HandshakeFrame(cfg, m, key, want, lanes);
      case Reject(key) => FailedFrame(m, cfg.derive(key));
      case Abort(h) => if h in m.shakes { FailedFrame(Without(m, h), m.shakes[h].id); }
      case Finish(h, now) => FinishReaders(cfg, m, h, now);
      case ReleaseRefused(id) =>
      case Collect(now) =>
      case CollectAll =>
      case Close(sid) =>
      case Pay(sid) => PayFrame(cfg, m, sid);
      case _ => DataStepIs(cfg, m, e);
    }
  }

  lemma FinishReaders(cfg: Config, m: Server, h: nat, now: int)
    ensures FinishStep(cfg, m, h, now).readers == m.readers
  {
  }

  lemma {:induction false} Carries(cfg: Config, base: map<Family, Pool>, ms: seq<Server>, es: seq<Event>,
                                   i: nat, j: nat, r: nat, a: Addr)
    requires WfConfig(cfg) && FreshPools(base) && IsRun(cfg, base, ms, es) && i < j < |ms|
    requires es[i].Route? && es[i].reader == r && cfg.dst(es[i].pkt) == Some(a) && a in ms[i].ipIndex
    requires forall k :: i < k < j ==> !OfReader(es[k], r)
    ensures r in ms[j].readers && ms[j].readers[r] == (es[i].pkt, ms[i].ipIndex[a])
    decreases j
  {
    StepTo(cfg, base, ms, es, j);
    if j == i + 1 {
      StepIs(cfg, ms[i], es[i]);
      DataStepIs(cfg, ms[i], es[i]);
    } else {
      Carries(cfg, base, ms, es, i, j - 1, r, a);
      ReaderKept(cfg, ms[j - 1], es[j - 1], r);
    }
  }

  lemma ReaderFinds(cfg: Config, base: map<Family, Pool>, ms: seq<Server>, es: seq<Event>, i: nat, r: nat)
    requires WfConfig(cfg) && FreshPools(base) && IsRun(cfg, base, ms, es) && i < |ms| && r in ms[i].readers
    ensures ms[i].readers[r].1 in ms[i].heap
  {
    InvAlways(cfg, base, ms, es, i);
    assert ReaderOk(cfg, ms[i], ms[i].readers[r]);
  }

  /** In every interleaving: a packet that a reader looked up and then sends goes to the live session
      that the index gave for its inner destination. Unless that session has been torn down since,
      the packet ends up last in its queue if fewer than 256 wait, and is dropped otherwise; no other
      queue changes. */
  lemma RoutedIsQueued(cfg: Config, base: map<Family, Pool>, ms: seq<Server>, es: seq<Event>, i: nat, j: nat, r: nat, a: Addr)
    requires WfConfig(cfg) && FreshPools(base) && IsRun(cfg, base, ms, es) && i < j < |es|
    requires es[i].Route? && es[i].reader == r && cfg.dst(es[i].pkt) == Some(a) && a in ms[i].ipIndex
    requires es[j].Push? && es[j].reader == r && forall k :: i < k < j ==> !OfReader(es[k], r)
    ensures var sid := ms[i].ipIndex[a];
      && Live(ms[i], sid) && Holds(ms[i].heap[sid], a) && sid in ms[j].heap && sid in ms[j + 1].heap
      && var queue, queue' := ms[j].heap[sid].outbound, ms[j + 1].heap[sid].outbound;
      && (!ms[j].heap[sid].closed && |queue| < 256 ==> queue' == queue + [es[i].pkt])
      && (|queue| >= 256 ==> queue' == queue)
    ensures forall k :: k in ms[j].heap && k != ms[i].ipIndex[a] ==>
              k in ms[j + 1].heap && ms[j + 1].heap[k].outbound == ms[j].heap[k].outbound
  {
    var sid := ms[i].ipIndex[a];
    LinkedAlways(cfg, base, ms, es, i);
    Carries(cfg, base, ms, es, i, j, r, a);
    ReaderFinds(cfg, base, ms, es, j, r);
    StepTo(cfg, base, ms, es, j + 1);
    StepIs(cfg, ms[j], es[j]);
    DataStepIs(cfg, ms[j], es[j]);
    PushQueue(ms[j], r, es[j].lost, sid);
    Unit0(ms[j].heap[sid].outbound);
    forall k | k in ms[j].heap && k != sid
      ensures k in ms[j + 1].heap && ms[j + 1].heap[k].outbound == ms[j].heap[k].outbound
    {
      PushQueue(ms[j], r, es[j].lost, k);
      Unit0(ms[j].heap[k].outbound);
    }
  }
}
