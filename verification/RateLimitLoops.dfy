/** The limiter object and the handshake semaphore. */
module RateLimitLoops {
  import opened Bytes
  import opened RateLimit

  class ConnLimiter {
    const params: Params
    const disabled: bool
    var table: Table
    var lastGC: Option<real>

    function State(): Limiter
      reads this
    {
      Limiter(table, lastGC)
    }

    constructor (p: Params, off: bool)
      ensures params == p && disabled == off && State() == EMPTY
    {
      params, disabled, table, lastGC := p, off, map[], None;
    }

    /** `order` is how an eviction, if any, visited the table. */
    method AllowIP(ip: string, now: real) returns (ok: bool, ghost order: seq<string>)
      modifies this
      ensures disabled ==> ok && State() == old(State())
      ensures !disabled ==> var r := Request(ip, now, order);
        && State() == AllowStep(params, old(State()), r)
        && ok == AllowAnswer(params, old(State()), r)
        && (Full(params, old(State()), r) ==> Lists(order, Gc(old(State()), now).table))
    {
      order := [];
      if disabled {
        return true, order;
      }
      MaybeGc(now);
      ghost var g := State();
      assert g == Gc(old(State()), now);
      var b;
      b, order := FindOrMake(ip, now);
      ghost var r := Request(ip, now, order);
      assert b == Filed(params, old(State()), r);
      ok := Allows(params, b, now);
      table := table[ip := Entry(Take(params, b, now), now)];
      assert table == Room(params, old(State()), r)[ip := Entry(Take(params, b, now), now)];
    }

    method MaybeGc(now: real)
      modifies this
      ensures State() == Gc(old(State()), now)
    {
      if lastGC.None? || now - lastGC.value >= GC_INTERVAL {
        GcLocked(now);
      }
    }

    /** The source's bucket, made and filed if it is new; a full table loses an entry first. */
    method FindOrMake(ip: string, now: real) returns (b: Bucket, ghost order: seq<string>)
      modifies this`table
      ensures ip in old(table) ==> table == old(table) && b == table[ip].bucket
      ensures ip !in old(table) && |old(table)| < params.maxEntries ==> table == old(table)[ip := Entry(b, now)]
      ensures ip !in old(table) && |old(table)| >= params.maxEntries ==>
                Lists(order, old(table)) && table == Evict(old(table), order)[ip := Entry(b, now)]
      ensures ip !in old(table) ==> b == Fresh(params)
    {
      order := [];
      if ip in table {
        return table[ip].bucket, order;
      }
      if |table| >= params.maxEntries {
        order := EvictOldestLocked();
      }
      b := Fresh(params);
      table := table[ip := Entry(b, now)];
    }

    /** Deletes while looping, in any order. */
    method GcLocked(now: real)
      modifies this
      ensures table == Prune(old(table), now) && lastGC == Some(now)
    {
      var todo := table.Keys;
      while todo != {}
        invariant todo <= old(table).Keys
        invariant forall ip :: ip in table <==> ip in old(table) && (ip in todo || now - old(table)[ip].seen <= TTL)
        invariant forall ip :: ip in table ==> table[ip] == old(table)[ip]
        decreases |todo|
      {
        var ip :| ip in todo;
        if now - table[ip].seen > TTL {
          table := table - {ip};
        }
        todo := todo - {ip};
      }
      lastGC := Some(now);
    }

    method EvictOldestLocked() returns (ghost order: seq<string>)
      modifies this`table
      ensures Lists(order, old(table)) && table == Evict(old(table), order)
    {
      var oldestIP, oldest := "", 0.0;
      var todo := table.Keys;
      order := [];
      while todo != {}
        invariant forall ip :: ip in order <==> ip in table && ip !in todo
        invariant todo <= table.Keys
        invariant forall i, j :: 0 <= i < j < |order| ==> order[i] != order[j]
        invariant oldestIP == Stalest(table, order)
        invariant oldestIP != "" ==> oldestIP in table && oldest == table[oldestIP].seen
        decreases |todo|
      {
        var ip :| ip in todo;
        assert (order + [ip])[..|order|] == order;
        if oldestIP == "" || table[ip].seen < oldest {
          oldestIP, oldest := ip, table[ip].seen;
        }
        order := order + [ip];
        todo := todo - {ip};
      }
      if oldestIP != "" {
        table := table - {oldestIP};
      }
    }
  }

  // ---------------------------------------------------------------- in-flight handshakes

  /** Permits granted and not yet given back. */
  function Outstanding(released: seq<bool>): nat {
    if released == [] then 0
    else Outstanding(released[..|released| - 1]) + (if released[|released| - 1] then 0 else 1)
  }

  lemma OutstandingSnoc(released: seq<bool>, b: bool)
    ensures Outstanding(released + [b]) == Outstanding(released) + (if b then 0 else 1)
  {
    assert (released + [b])[..|released|] == released;
  }

  /** Giving back one outstanding permit. */
  lemma {:induction false} OutstandingRelease(released: seq<bool>, i: nat)
    requires i < |released| && !released[i]
    ensures Outstanding(released) == Outstanding(released[i := true]) + 1
    decreases |released|
  {
    var n := |released| - 1;
    var after := released[i := true];
    if i < n {
      assert after[..n] == released[..n][i := true];
      OutstandingRelease(released[..n], i);
    } else {
      assert after[..n] == released[..n];
    }
  }

  /** The channel of permits. Each grant comes with a release that works once; a disabled limiter
      grants everything and counts nothing. */
  class Semaphore {
    const capacity: nat
    const disabled: bool
    var inUse: nat
    var released: seq<bool>

    ghost predicate Valid()
      reads this
    {
      if disabled then inUse == 0 else inUse == Outstanding(released) && inUse <= capacity
    }

    constructor (n: nat, off: bool)
      ensures Valid() && capacity == n && disabled == off && released == []
    {
      capacity, disabled, inUse, released := n, off, 0, [];
    }

    /** Grants a permit unless all are taken. */
    method AcquireSlot() returns (permit: Option<nat>)
      requires Valid()
      modifies this
      ensures Valid()
      ensures permit.Some? <==> disabled || old(Outstanding(released)) < capacity
      ensures permit.Some? ==> permit.value == |old(released)| && released == old(released) + [false]
      ensures permit.None? ==> released == old(released)
    {
      if !disabled && inUse >= capacity {
        return None;
      }
      OutstandingSnoc(released, false);
      permit := Some(|released|);
      released := released + [false];
      if !disabled {
        inUse := inUse + 1;
      }
    }

    /** Gives a permit back; a second call does nothing, so the deferred release of a handshake
        that already released early is harmless. */
    method ReleaseSlot(permit: nat)
      requires Valid() && permit < |released|
      modifies this
      ensures Valid() && released == old(released)[permit := true]
      ensures old(released)[permit] || disabled ==> inUse == old(inUse)
      ensures !old(released)[permit] && !disabled ==> inUse == old(inUse) - 1
    {
      if released[permit] {
        assert released == released[permit := true];
        return;
      }
      OutstandingRelease(released, permit);
      released := released[permit := true];
      if !disabled {
        inUse := inUse - 1;
      }
    }
  }
}
