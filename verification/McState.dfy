/** The control plane's object: its methods and loops, proved against the steps of `Control`. */
module McStateLoops {
  import opened Bytes
  import opened Addr
  import opened Users
  import opened AddrPool
  import opened Control
  import opened ControlSafety

  datatype Acquired = Existing(sid: Sid) | Fresh(sid: Sid) | OverQuota

  /** Tearing down one session after another. */
  ghost function CloseAll(cfg: Config, m: Server, victims: seq<Sid>): Server
    requires forall k :: k in victims ==> k in m.heap
    decreases |victims|
  {
    if victims == [] then m else CloseAll(cfg, TearDown(cfg, m, victims[0]), victims[1..])
  }

  class McState {
    const cfg: Config
    var heap: map<Sid, Session>
    var next: Sid
    var sessions: map<ClientId, Sid>
    var ipIndex: map<Addr, Sid>
    var pools: map<Family, Pool>
    var active: map<string, nat>

    /** The server state with this object's fields; `m` supplies what goroutines hold. */
    ghost function Into(m: Server): Server
      reads this
    {
      m.(heap := heap, next := next, sessions := sessions, ipIndex := ipIndex, pools := pools, active := active)
    }

    constructor (c: Config, ps: map<Family, Pool>)
      ensures cfg == c && Into(Start(ps)) == Start(ps)
    {
      cfg, heap, next, sessions, ipIndex, pools, active := c, map[], 0, map[], map[], ps, map[];
    }

    method ReleaseAll(id: ClientId)
      modifies this`pools
      ensures pools == Control.ReleaseAll(old(pools), id)
    {
      pools := map f | f in pools :: Release(pools[f], id);
    }

    method ReleaseOrphan(id: ClientId, ghost m: Server)
      modifies this`pools
      ensures Into(m) == Control.ReleaseOrphan(old(Into(m)), id)
    {
      if id in sessions {
        return;
      }
      ReleaseAll(id);
    }

    /** `acquireSession`; a quota refusal releases the client's addresses before it returns. */
    method AcquireSession(x: Ident, now: int, ghost m: Server) returns (r: Acquired)
      modifies this
      ensures r == if x.id in old(sessions) then Existing(old(sessions)[x.id])
                   else if QuotaRefuses(cfg, old(Into(m)), x.user) then OverQuota
                   else Fresh(old(next))
      ensures Into(m) == match r
        case Existing(_) => old(Into(m))
        case Fresh(_) => CreateSession(cfg, old(Into(m)), x, now)
        case OverQuota => old(Into(m)).(pools := Control.ReleaseAll(old(pools), x.id))
    {
      if x.id in sessions {
        return Existing(sessions[x.id]);
      }
      if HasUsers(cfg) {
        if !SlotFree(cfg.db.value, active, x.user) {
          ReleaseAll(x.id);
          return OverQuota;
        }
        active := Taken(active, x.user);
      }
      Register(x, now);
      r := Fresh(next - 1);
    }

    /** Makes the session object and enters it in both maps and the pools. */
    method Register(x: Ident, now: int)
      modifies this`heap, this`next, this`sessions, this`ipIndex, this`pools
      ensures heap == old(heap)[old(next) := NewSession(x, now)] && next == old(next) + 1
      ensures sessions == old(sessions)[x.id := old(next)]
      ensures ipIndex == IndexAdd(old(ipIndex), x.addrs, old(next))
      ensures pools == ClaimAll(old(pools), x.id, x.addrs)
    {
      var sid := next;
      heap := heap[sid := Session(x.id, x.user, x.addrs, ClampLanes(x.lanes), [], 0, 0, now, false)];
      next := next + 1;
      sessions := sessions[x.id := sid];
      if F4 in x.addrs {
        ipIndex := ipIndex[x.addrs[F4] := sid];
      }
      if F6 in x.addrs {
        ipIndex := ipIndex[x.addrs[F6] := sid];
      }
      pools := map f | f in pools :: if f in x.addrs then Claim(pools[f], x.id, x.addrs[f]) else pools[f];
    }

    /** `tearDown`. */
    method TearDown(sid: Sid, ghost m: Server)
      requires sid in heap
      modifies this
      ensures Into(m) == Control.TearDown(cfg, old(Into(m)), sid)
    {
      var s := heap[sid];
      if s.closed {
        return;
      }
      heap := heap[sid := s.(closed := true)];
      ReleaseAll(s.id);
      if s.user != "" && cfg.db.Some? {
        active := Dropped(cfg.db.value, active, s.user);
      }
    }

    /** The locked loop of `collect`: delete while looping, in any order, remembering victims. */
    method UnlinkStale(now: int, ghost m: Server) returns (victims: seq<Sid>)
      requires forall id :: id in sessions ==> sessions[id] in heap
      modifies this`sessions, this`ipIndex
      ensures Into(m) == Unlink(old(Into(m)), now)
      ensures AreDue(old(Into(m)), now, victims)
    {
      ghost var m0 := Into(m);
      var todo := sessions.Keys;
      victims := [];
      UnlinkStart(m0, now);
      while todo != {}
        invariant todo <= m0.sessions.Keys
        invariant Unlinking(m0, todo, now, sessions, ipIndex, victims)
        decreases |todo|
      {
        var id :| id in todo;
        victims := Visit(id, now, victims, m0, todo);
        todo := todo - {id};
      }
      UnlinkDone(m0, now, sessions, ipIndex, victims);
    }

    /** One turn of that loop. */
    method Visit(id: ClientId, now: int, seen: seq<Sid>, ghost m0: Server, ghost todo: set<ClientId>) returns (victims: seq<Sid>)
      requires id in todo && id in m0.sessions && m0.sessions[id] in m0.heap && heap == m0.heap
      requires Unlinking(m0, todo, now, sessions, ipIndex, seen)
      modifies this`sessions, this`ipIndex
      ensures Unlinking(m0, todo - {id}, now, sessions, ipIndex, victims)
    {
      victims := seen;
      var sid := sessions[id];
      var s := heap[sid];
      if s.active == 0 && now - s.lastSeen > IDLE {
        DropStep(m0, todo, id, now, sessions, ipIndex, victims);
        sessions := sessions - {id};
        ipIndex := DropAddrs(ipIndex, s.addrs);
        victims := victims + [sid];
      } else {
        KeepStep(m0, todo, id, now, sessions, ipIndex, victims);
      }
    }

    /** `collect`: unlink under the lock, then tear the victims down. */
    method Collect(now: int, ghost m: Server) returns (victims: seq<Sid>)
      requires forall id :: id in sessions ==> sessions[id] in heap
      modifies this
      ensures AreDue(old(Into(m)), now, victims)
      ensures Into(m) == CloseAll(cfg, Unlink(old(Into(m)), now), victims)
    {
      victims := UnlinkStale(now, m);
      ghost var m1 := Into(m);
      assert victims[0..] == victims;
      for i := 0 to |victims|
        invariant heap.Keys == m1.heap.Keys
        invariant CloseAll(cfg, Into(m), victims[i..]) == CloseAll(cfg, m1, victims)
      {
        assert victims[i..][0] == victims[i] && victims[i..][1..] == victims[i + 1..];
        TearDown(victims[i], m);
      }
      assert victims[|victims|..] == [];
    }
  }

  /** The sessions that a collection at `now` takes. */
  ghost predicate AreDue(m: Server, now: int, victims: seq<Sid>) {
    && (forall k :: k in victims ==> k in m.heap)
    && (forall k :: k in victims <==> exists id :: Due(m, id, now) && m.sessions[id] == k)
  }

  /** Addresses dropped for due clients already visited. */
  ghost predicate DroppedSoFar(m: Server, todo: set<ClientId>, a: Addr, now: int) {
    exists id :: id !in todo && Due(m, id, now) && Holds(m.heap[m.sessions[id]], a)
  }

  ghost predicate TakenSoFar(m: Server, todo: set<ClientId>, k: Sid, now: int) {
    exists id :: id !in todo && Due(m, id, now) && m.sessions[id] == k
  }

  /** The loop's state after visiting all clients but `todo`. */
  ghost predicate Unlinking(m: Server, todo: set<ClientId>, now: int,
                            sessions: map<ClientId, Sid>, index: map<Addr, Sid>, victims: seq<Sid>) {
    && (forall id :: id in sessions <==> id in m.sessions && (id in todo || !Due(m, id, now)))
    && (forall id :: id in sessions ==> sessions[id] == m.sessions[id])
    && (forall a :: a in index <==> a in m.ipIndex && !DroppedSoFar(m, todo, a, now))
    && (forall a :: a in index ==> index[a] == m.ipIndex[a])
    && (forall k :: k in victims <==> TakenSoFar(m, todo, k, now))
  }

  function DropAddrs(index: map<Addr, Sid>, addrs: map<Family, Addr>): map<Addr, Sid> {
    var i := if F4 in addrs then index - {addrs[F4]} else index;
    if F6 in addrs then i - {addrs[F6]} else i
  }

  lemma DroppedMore(m: Server, todo: set<ClientId>, id: ClientId, now: int, a: Addr)
    requires id in todo && Due(m, id, now)
    ensures DroppedSoFar(m, todo - {id}, a, now) <==> DroppedSoFar(m, todo, a, now) || Holds(m.heap[m.sessions[id]], a)
  {
    if DroppedSoFar(m, todo, a, now) {
      var j :| j !in todo && Due(m, j, now) && Holds(m.heap[m.sessions[j]], a);
      assert j !in todo - {id};
    }
    if Holds(m.heap[m.sessions[id]], a) {
      assert id !in todo - {id};
    }
  }

  lemma TakenMore(m: Server, todo: set<ClientId>, id: ClientId, now: int, k: Sid)
    requires id in todo && Due(m, id, now)
    ensures TakenSoFar(m, todo - {id}, k, now) <==> TakenSoFar(m, todo, k, now) || m.sessions[id] == k
  {
    if TakenSoFar(m, todo, k, now) {
      var j :| j !in todo && Due(m, j, now) && m.sessions[j] == k;
      assert j !in todo - {id};
    }
    if m.sessions[id] == k {
      assert id !in todo - {id};
    }
  }

  lemma DropStep(m: Server, todo: set<ClientId>, id: ClientId, now: int,
                 sessions: map<ClientId, Sid>, index: map<Addr, Sid>, victims: seq<Sid>)
    requires Unlinking(m, todo, now, sessions, index, victims) && id in todo && Due(m, id, now)
    ensures Unlinking(m, todo - {id}, now, sessions - {id}, DropAddrs(index, m.heap[m.sessions[id]].addrs),
                      victims + [m.sessions[id]])
  {
    forall a {
      DroppedMore(m, todo, id, now, a);
    }
    forall k {
      TakenMore(m, todo, id, now, k);
    }
  }

  lemma KeepStep(m: Server, todo: set<ClientId>, id: ClientId, now: int,
                 sessions: map<ClientId, Sid>, index: map<Addr, Sid>, victims: seq<Sid>)
    requires Unlinking(m, todo, now, sessions, index, victims) && id in todo && !Due(m, id, now)
    ensures Unlinking(m, todo - {id}, now, sessions, index, victims)
  {
    forall a ensures DroppedSoFar(m, todo - {id}, a, now) <==> DroppedSoFar(m, todo, a, now) {
      if DroppedSoFar(m, todo, a, now) {
        var j :| j !in todo && Due(m, j, now) && Holds(m.heap[m.sessions[j]], a);
        assert j !in todo - {id};
      }
    }
    forall k ensures TakenSoFar(m, todo - {id}, k, now) <==> TakenSoFar(m, todo, k, now) {
      if TakenSoFar(m, todo, k, now) {
        var j :| j !in todo && Due(m, j, now) && m.sessions[j] == k;
        assert j !in todo - {id};
      }
    }
  }

  lemma UnlinkStart(m: Server, now: int)
    ensures Unlinking(m, m.sessions.Keys, now, m.sessions, m.ipIndex, [])
  {
  }

  lemma UnlinkDone(m: Server, now: int, sessions: map<ClientId, Sid>, index: map<Addr, Sid>, victims: seq<Sid>)
    requires Unlinking(m, {}, now, sessions, index, victims)
    ensures m.(sessions := sessions, ipIndex := index) == Unlink(m, now) && AreDue(m, now, victims)
  {
    var n := Unlink(m, now);
    assert sessions == n.sessions;
    forall a ensures Dropping(m, a, now) <==> DroppedSoFar(m, {}, a, now) {
    }
    assert index == n.ipIndex;
  }

  /** `acquireSession` on a handshake with an assignment is its `Finish` step; an over-quota outcome
      is that step and the release it owes. */
  lemma AcquireIsSteps(cfg: Config, m: Server, h: nat, now: int)
    requires UsablePools(m) && h in m.shakes && Assigned(m.pools, m.shakes[h].addrs)
    ensures var x, k, n := m.shakes[h], Without(m, h), Step(cfg, m, Finish(h, now));
      && (x.id in m.sessions ==> n == k)
      && (x.id !in m.sessions && !QuotaRefuses(cfg, m, x.user) ==> n == CreateSession(cfg, k, x, now))
      && (x.id !in m.sessions && QuotaRefuses(cfg, m, x.user) ==>
            UsablePools(n) && Step(cfg, n, ReleaseRefused(x.id)) == k.(pools := Control.ReleaseAll(k.pools, x.id)))
  {
    var x := m.shakes[h];
    if x.id !in m.sessions && QuotaRefuses(cfg, m, x.user) {
      RefusalIsReleased(cfg, Without(m, h), x.id);
    }
  }

  lemma RefusalIsReleased(cfg: Config, m: Server, id: ClientId)
    requires UsablePools(m)
    ensures var n := m.(refused := m.refused + multiset{id});
      UsablePools(n) && Step(cfg, n, ReleaseRefused(id)) == m.(pools := Control.ReleaseAll(m.pools, id))
  {
    assert m.refused + multiset{id} - multiset{id} == m.refused;
  }

  /** The same tear-downs, as events of the state machine: close and release, then pay. */
  ghost function CloseEvents(cfg: Config, m: Server, victims: seq<Sid>): Server
    requires UsablePools(m)
    decreases |victims|
  {
    if victims == [] then m
    else
      CloseKeepsUsable(cfg, m, victims[0]);
      CloseEvents(cfg, Step(cfg, Step(cfg, m, Close(victims[0])), Pay(victims[0])), victims[1..])
  }

  lemma CloseKeepsUsable(cfg: Config, m: Server, sid: Sid)
    requires UsablePools(m)
    ensures UsablePools(Step(cfg, m, Close(sid))) && UsablePools(Step(cfg, Step(cfg, m, Close(sid)), Pay(sid)))
  {
  }

  /** Tearing down a session that nobody is paying for is its two steps, one after the other. */
  lemma TearDownIsSteps(cfg: Config, m: Server, sid: Sid)
    requires UsablePools(m) && sid in m.heap && !Live(m, sid) && sid !in m.unpaid
    ensures UsablePools(Step(cfg, m, Close(sid)))
    ensures TearDown(cfg, m, sid) == Step(cfg, Step(cfg, m, Close(sid)), Pay(sid))
  {
    CloseKeepsUsable(cfg, m, sid);
    StepIs(cfg, m, Close(sid));
    StepIs(cfg, CloseStep(m, sid), Pay(sid));
  }

  lemma TearDownFrame(cfg: Config, m: Server, sid: Sid)
    requires sid in m.heap && !Live(m, sid)
    ensures TearDown(cfg, m, sid).unpaid == m.unpaid
    ensures forall k :: k in m.heap ==> k in TearDown(cfg, m, sid).heap && (Live(TearDown(cfg, m, sid), k) <==> Live(m, k))
  {
  }

  /** `collect` is the `Collect` step followed by a `Close` and a `Pay` step per victim. */
  lemma {:induction false} SweepIsSteps(cfg: Config, m: Server, victims: seq<Sid>)
    requires UsablePools(m) && forall k :: k in victims ==> k in m.heap && !Live(m, k) && k !in m.unpaid
    ensures CloseAll(cfg, m, victims) == CloseEvents(cfg, m, victims)
    decreases |victims|
  {
    if victims == [] {
    } else {
      CloseKeepsUsable(cfg, m, victims[0]);
      TearDownIsSteps(cfg, m, victims[0]);
      TearDownFrame(cfg, m, victims[0]);
      SweepIsSteps(cfg, TearDown(cfg, m, victims[0]), victims[1..]);
    }
  }

  lemma {:induction false} CloseAllSettles(cfg: Config, m: Server, victims: seq<Sid>)
    requires (forall k :: k in victims ==> k in m.heap) && (forall k :: Victim(m, k) ==> k in victims)
    ensures forall k :: !Victim(CloseAll(cfg, m, victims), k)
    decreases |victims|
  {
    if victims == [] {
    } else {
      var n := TearDown(cfg, m, victims[0]);
      forall k | Victim(n, k) ensures k in victims[1..] {
        assert k != victims[0] && Victim(m, k);
      }
      CloseAllSettles(cfg, n, victims[1..]);
    }
  }

  /** A collection from a state that owes nothing leaves a state that owes nothing. */
  lemma SweepSettles(cfg: Config, m: Server, now: int, victims: seq<Sid>)
    requires Shape(m) && (forall k :: !Victim(m, k)) && AreDue(m, now, victims)
    ensures forall k :: !Victim(CloseAll(cfg, Unlink(m, now), victims), k)
    ensures forall k :: k in victims ==> !Live(Unlink(m, now), k)
  {
    var n := Unlink(m, now);
    forall k | Victim(n, k) ensures k in victims {
      assert !Victim(m, k);
      assert Due(m, m.heap[k].id, now) && m.sessions[m.heap[k].id] == k;
    }
    CloseAllSettles(cfg, n, victims);
  }
}
