/** The pool object: its methods and loops, proved against the functions of `AddrPool`. */
module PoolLoops {
  import opened Bytes
  import opened Addr
  import opened AddrV6
  import opened Users
  import opened AddrPool

  class IpPool {
    const subnet: Prefix
    const reserved: set<Addr>
    var used: set<Addr>
    var byClient: map<ClientId, Addr>

    function State(): Pool
      reads this
    {
      AddrPool.Pool.Pool(subnet, reserved, used, byClient)
    }

    constructor (p: Pool)
      ensures State() == p
    {
      subnet, reserved, used, byClient := p.subnet, p.reserved, p.used, p.byClient;
    }

    /** Everything but an exhausted `/0`, on which the walk goes round for ever. */
    predicate WalkMustEnd()
      reads this
    {
      subnet.bits >= 1 || LowestFree(State(), subnet.net + 1).Some?
    }

    /** Sticky address, then a granted preference, then an own reservation, then the walk. */
    method AllocateFor(user: string, id: ClientId, preferred: Addr, db: Option<UserDb>, hash: Hash)
      returns (r: Option<Addr>)
      requires ValidSubnet(subnet) && (subnet.family == F4 && Walks(State(), user, id, preferred, db) ==> WalkMustEnd())
      modifies this
      ensures r == Answer(old(State()), user, id, preferred, db, hash)
      ensures State() == Allocate(old(State()), user, id, preferred, db, hash)
    {
      if id in byClient {
        return Some(byClient[id]);
      }
      if Granted(State(), user, preferred, db) {
        r := Some(preferred);
      } else {
        r := None;
        if db.Some? && user != "" {
          r := FindReserved(ReservedFor(db.value, user));
        }
        if r.None? {
          if subnet.family == F4 {
            r := Walk();
          } else {
            r := TryRounds(id, hash);
          }
        }
      }
      if r.Some? {
        used := used + {r.value};
        byClient := byClient[id := r.value];
      }
    }

    method FindReserved(rs: seq<Addr>) returns (r: Option<Addr>)
      ensures r == FirstFree(State(), rs)
    {
      assert rs[0..] == rs;
      for i := 0 to |rs|
        invariant FirstFree(State(), rs) == FirstFree(State(), rs[i..])
      {
        assert rs[i..][0] == rs[i] && rs[i..][1..] == rs[i + 1..];
        if !rs[i].Is(subnet.family) || !Contains(subnet, rs[i]) || rs[i] in used {
          continue;
        }
        return Some(rs[i]);
      }
      r := None;
    }

    /** The IPv4 walk; `n` counts without the wrap that `NextAddr` performs. */
    method Walk() returns (r: Option<Addr>)
      requires ValidSubnet(subnet) && subnet.family == F4 && WalkMustEnd()
      ensures r == LowestFree(State(), subnet.net + 1)
    {
      Pow2At32();
      var cur := NextAddr(subnet.net);
      ghost var n: nat := subnet.net + 1;
      while Contains(subnet, V4(cur))
        invariant subnet.net < n <= subnet.net + HostCount(subnet) && cur == n % 0x1_0000_0000
        invariant LowestFree(State(), subnet.net + 1) == LowestFree(State(), n)
        decreases subnet.net + HostCount(subnet) - n
      {
        assert n < 0x1_0000_0000 || subnet.bits >= 1;
        NoWrapInside(subnet, cur, n);
        if V4(cur) in reserved || V4(cur) in used {
          cur := NextAddr(cur);
          n := n + 1;
          continue;
        }
        return Some(V4(cur));
      }
      OutsideIsEnd(subnet, cur, n);
      r := None;
    }

    method TryRounds(id: ClientId, hash: Hash) returns (r: Option<Addr>)
      requires ValidSubnet(subnet) && subnet.family == F6
      ensures r == FirstCandidate(State(), id, hash, 0)
    {
      for round := 0 to ROUNDS
        invariant FirstCandidate(State(), id, hash, 0) == FirstCandidate(State(), id, hash, round)
      {
        var c := V6FromClientID(subnet, hash(round, id));
        if c in reserved || c in used {
          continue;
        }
        return Some(c);
      }
      r := None;
    }

    method Claim(id: ClientId, a: Addr)
      modifies this
      ensures State() == AddrPool.Claim(old(State()), id, a)
    {
      if !a.Is(subnet.family) {
        return;
      }
      used := used + {a};
      byClient := byClient[id := a];
    }

    method Release(id: ClientId)
      modifies this
      ensures State() == AddrPool.Release(old(State()), id)
    {
      if id in byClient {
        used := used - {byClient[id]};
        byClient := byClient - {id};
      }
    }
  }

  /** While the walk is inside the subnet it has not wrapped. */
  lemma NoWrapInside(s: Prefix, cur: U32, n: nat)
    requires ValidSubnet(s) && s.family == F4 && Contains(s, V4(cur)) && (s.bits >= 1 || n < 0x1_0000_0000)
    requires s.net < n <= s.net + HostCount(s) && cur == n % 0x1_0000_0000
    ensures cur == n < s.net + HostCount(s)
  {
    ContainsIsRange(s, V4(cur));
    SubnetFits(s);
  }

  lemma SubnetFits(s: Prefix)
    requires ValidSubnet(s) && s.family == F4
    ensures s.net + HostCount(s) <= 0x1_0000_0000 && (s.bits >= 1 ==> HostCount(s) < 0x1_0000_0000)
  {
    Pow2At32();
    if s.bits >= 1 {
      Pow2Monotone(32 - s.bits, 31);
      assert Pow2(32) == 2 * Pow2(31);
    }
  }

  lemma OutsideIsEnd(s: Prefix, cur: U32, n: nat)
    requires ValidSubnet(s) && s.family == F4 && !Contains(s, V4(cur))
    requires s.net < n <= s.net + HostCount(s) && cur == n % 0x1_0000_0000
    ensures n == s.net + HostCount(s)
  {
    ContainsIsRange(s, V4(cur));
    SubnetFits(s);
  }
}
