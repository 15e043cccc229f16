/** The sticky address pool: allocation, claims and releases as functions of its state. */
module AddrPool {
  import opened Bytes
  import opened Addr
  import opened AddrV6
  import opened Users

  type ClientId = id: bytes | |id| == 16 witness seq(16, _ => 0)

  /** SHA-256 of a round byte and a client id. */
  type Hash = (byte, ClientId) -> Digest

  datatype Pool = Pool(subnet: Prefix, reserved: set<Addr>, used: set<Addr>, byClient: map<ClientId, Addr>)

  /** A subnet the server can run a pool on. */
  ghost predicate ValidSubnet(s: Prefix) {
    ValidPrefix(s) && s.bits <= (if s.family == F4 then 30 else 126)
  }

  /** `newIPPool` on a masked subnet: the network address, the IPv4 broadcast address and every
      valid address of the list are reserved; a subnet without room for hosts is refused. */
  function NewPool(s: Prefix, reserved: set<Addr>): (r: Option<Pool>)
    requires ValidPrefix(s)
  {
    if s.family == F4 then
      if s.bits > 30 then None
      else
        BroadcastIsLast(s);
        Some(Pool(s, {NetAddr(s), V4(Broadcast4(s))} + (reserved - {Invalid}), {}, map[]))
    else if s.bits > 126 then None
    else Some(Pool(s, {NetAddr(s)} + (reserved - {Invalid}), {}, map[]))
  }

  // ---------------------------------------------------------------- allocation

  predicate OtherUserReserved(db: Option<UserDb>, user: string, a: Addr) {
    db.Some? && Owner(db.value, a) != "" && Owner(db.value, a) != user
  }

  predicate OwnReservation(db: Option<UserDb>, user: string, a: Addr) {
    db.Some? && Owner(db.value, a) == user
  }

  predicate Granted(p: Pool, user: string, preferred: Addr, db: Option<UserDb>) {
    && preferred.Is(p.subnet.family) && !preferred.IsUnspecified() && Contains(p.subnet, preferred)
    && preferred !in p.used && !OtherUserReserved(db, user, preferred)
    && (preferred !in p.reserved || OwnReservation(db, user, preferred))
  }

  function FirstFree(p: Pool, rs: seq<Addr>): Option<Addr> {
    if rs == [] then None
    else if !rs[0].Is(p.subnet.family) || !Contains(p.subnet, rs[0]) || rs[0] in p.used then FirstFree(p, rs[1..])
    else Some(rs[0])
  }

  /** The IPv4 walk from number `n` to the end of the subnet. */
  function LowestFree(p: Pool, n: nat): Option<Addr>
    decreases 0x1_0000_0000 - n
  {
    if n >= 0x1_0000_0000 || n >= p.subnet.net + HostCount(p.subnet) then None
    else if V4(n) in p.reserved || V4(n) in p.used then LowestFree(p, n + 1)
    else Some(V4(n))
  }

  const ROUNDS: nat := 8

  /** The IPv6 rounds from `round` on. */
  function FirstCandidate(p: Pool, id: ClientId, hash: Hash, round: nat): Option<Addr>
    requires p.subnet.bits <= 128
    decreases ROUNDS - round
  {
    if round >= ROUNDS then None
    else
      var c := V6Candidate(p.subnet, hash(round, id));
      if c in p.reserved || c in p.used then FirstCandidate(p, id, hash, round + 1) else Some(c)
  }

  /** The address a client without one would get. */
  function Choose(p: Pool, user: string, id: ClientId, preferred: Addr, db: Option<UserDb>, hash: Hash): Option<Addr>
    requires p.subnet.bits <= 128
  {
    if Granted(p, user, preferred, db) then Some(preferred)
    else
      var own := if db.Some? && user != "" then FirstFree(p, ReservedFor(db.value, user)) else None;
      if own.Some? then own
      else if p.subnet.family == F4 then LowestFree(p, p.subnet.net + 1)
      else FirstCandidate(p, id, hash, 0)
  }

  /** Neither the sticky map, nor the preference, nor a reservation settles it. */
  predicate Walks(p: Pool, user: string, id: ClientId, preferred: Addr, db: Option<UserDb>) {
    && id !in p.byClient && !Granted(p, user, preferred, db)
    && !(db.Some? && user != "" && FirstFree(p, ReservedFor(db.value, user)).Some?)
  }

  function Record(p: Pool, id: ClientId, a: Addr): Pool {
    p.(used := p.used + {a}, byClient := p.byClient[id := a])
  }

  /** The address `AllocateFor` answers with. */
  function Answer(p: Pool, user: string, id: ClientId, preferred: Addr, db: Option<UserDb>, hash: Hash): Option<Addr>
    requires p.subnet.bits <= 128
  {
    if id in p.byClient then Some(p.byClient[id]) else Choose(p, user, id, preferred, db, hash)
  }

  /** The pool after `AllocateFor`. */
  function Allocate(p: Pool, user: string, id: ClientId, preferred: Addr, db: Option<UserDb>, hash: Hash): Pool
    requires p.subnet.bits <= 128
  {
    if id in p.byClient then p
    else match Choose(p, user, id, preferred, db, hash)
         case None => p
         case Some(a) => Record(p, id, a)
  }

  function Claim(p: Pool, id: ClientId, a: Addr): Pool {
    if a.Is(p.subnet.family) then Record(p, id, a) else p
  }

  function Release(p: Pool, id: ClientId): Pool {
    if id in p.byClient then p.(used := p.used - {p.byClient[id]}, byClient := p.byClient - {id}) else p
  }

  // ---------------------------------------------------------------- what a pool keeps

  ghost predicate Injective(m: map<ClientId, Addr>) {
    forall i, j :: i in m && j in m && m[i] == m[j] ==> i == j
  }

  /** `used` is exactly the set of recorded addresses, no two clients share one, and all lie
      in the subnet. */
  ghost predicate PoolOk(p: Pool) {
    && ValidSubnet(p.subnet)
    && p.used == p.byClient.Values
    && Injective(p.byClient)
    && forall id :: id in p.byClient ==> Contains(p.subnet, p.byClient[id])
  }

  /** A caller may claim an address that is free or already its own, holding no other. */
  ghost predicate MayClaim(p: Pool, id: ClientId, a: Addr) {
    && Contains(p.subnet, a)
    && (a in p.used ==> id in p.byClient && p.byClient[id] == a)
    && (id in p.byClient ==> p.byClient[id] == a)
  }

  lemma RecordKeeps(p: Pool, id: ClientId, a: Addr)
    requires PoolOk(p) && MayClaim(p, id, a)
    ensures PoolOk(Record(p, id, a))
  {
    var q := Record(p, id, a);
    assert q.byClient[id] == a;
    forall x ensures x in q.used <==> x in q.byClient.Values {
      if x in p.used {
        var i :| i in p.byClient && p.byClient[i] == x;
        assert q.byClient[i] == x;
      }
    }
    assert forall i :: i in p.byClient ==> p.byClient[i] in p.used;
  }

  lemma ReleaseKeeps(p: Pool, id: ClientId)
    requires PoolOk(p)
    ensures PoolOk(Release(p, id))
  {
    if id in p.byClient {
      var q := Release(p, id);
      forall x ensures x in q.used <==> x in q.byClient.Values {
        if x in q.used {
          var i :| i in p.byClient && p.byClient[i] == x;
          assert i in q.byClient && q.byClient[i] == x;
        }
        if x in q.byClient.Values {
          var i :| i in q.byClient && q.byClient[i] == x;
          assert p.byClient[i] == x;
        }
      }
    }
  }

  // ---------------------------------------------------------------- the IPv4 walk

  /** Free to be walked into. */
  predicate Free(p: Pool, a: Addr) {
    a !in p.reserved && a !in p.used
  }

  /** The walk finds the lowest free address at or above `n`, and gives up exactly when there
      is none. */
  lemma {:induction false} WalkIsLowest(p: Pool, n: nat)
    requires ValidPrefix(p.subnet) && p.subnet.family == F4 && p.subnet.net <= n
    ensures match LowestFree(p, n)
      case Some(a) =>
        && Contains(p.subnet, a) && n <= a.Num() && Free(p, a)
        && forall b: Addr :: Contains(p.subnet, b) && n <= b.Num() && Free(p, b) ==> a.Num() <= b.Num()
      case None => forall b: Addr :: Contains(p.subnet, b) && n <= b.Num() ==> !Free(p, b)
    decreases 0x1_0000_0000 - n
  {
    Pow2At32();
    if n >= 0x1_0000_0000 || n >= p.subnet.net + HostCount(p.subnet) {
      forall b: Addr | Contains(p.subnet, b) && n <= b.Num() ensures false {
        ContainsIsRange(p.subnet, b);
      }
    } else {
      ContainsIsRange(p.subnet, V4(n));
      if !Free(p, V4(n)) {
        WalkIsLowest(p, n + 1);
        assert forall b: Addr :: b.V4? && b.Num() == n ==> b == V4(n);
      }
    }
  }

  /** The walk starts above the network address, which is always reserved, so it covers the
      whole subnet: exhaustion is reported exactly when no address is free. */
  lemma ExhaustedIff(p: Pool)
    requires ValidPrefix(p.subnet) && p.subnet.family == F4 && NetAddr(p.subnet) in p.reserved
    ensures LowestFree(p, p.subnet.net + 1).None? <==>
            forall b: Addr :: Contains(p.subnet, b) ==> !Free(p, b)
  {
    WalkIsLowest(p, p.subnet.net + 1);
    forall b: Addr | Contains(p.subnet, b) ensures b.Num() >= p.subnet.net + 1 || b == NetAddr(p.subnet) {
      ContainsIsRange(p.subnet, b);
    }
  }

  /** The address `k` steps after the network address. */
  function Walked(s: Prefix, k: nat): Addr {
    V4((s.net + k) % 0x1_0000_0000)
  }

  /** Stepping by one modulo `2^32` from the network address ever leaves the subnet exactly when
      the prefix is not empty: on a `/0` the walk would never end. */
  lemma WalkLeavesIff(s: Prefix)
    requires ValidPrefix(s) && s.family == F4
    ensures (exists k: nat :: !Contains(s, Walked(s, k))) <==> s.bits >= 1
  {
    if s.bits >= 1 {
      WalkedOut(s);
    } else {
      forall k: nat ensures Contains(s, Walked(s, k)) {
        WalkedOn(s, k);
      }
    }
  }

  lemma StepPast(net: nat, k: nat, size: nat)
    requires k > 0 && 2 * k <= size && net + k <= size
    ensures !(net <= (net + k) % size < net + k)
  {
    if net + k == size {
      assert (net + k) % size == 0;
    } else {
      assert (net + k) % size == net + k;
    }
  }

  lemma WalkedOut(s: Prefix)
    requires ValidPrefix(s) && s.family == F4 && s.bits >= 1
    ensures !Contains(s, Walked(s, HostCount(s)))
  {
    var k: nat := HostCount(s);
    HalfAtMost(s.bits);
    Pow2At32();
    StepPast(s.net, k, 0x1_0000_0000);
    ContainsIsRange(s, Walked(s, k));
  }

  lemma HalfAtMost(bits: nat)
    requires 1 <= bits <= 32
    ensures 2 * Pow2(32 - bits) <= Pow2(32)
  {
    Pow2Monotone(32 - bits, 31);
  }

  lemma WalkedOn(s: Prefix, k: nat)
    requires ValidPrefix(s) && s.family == F4 && s.bits == 0
    ensures Contains(s, Walked(s, k))
  {
    Pow2At32();
    ContainsIsRange(s, Walked(s, k));
  }

  /** The walk meets an end: an address outside the subnet or a free one. */
  ghost predicate WalkEnds(p: Pool) {
    exists k: nat :: k >= 1 && (!Contains(p.subnet, Walked(p.subnet, k)) || Free(p, Walked(p.subnet, k)))
  }

  lemma WalkStartsInside(s: Prefix)
    requires ValidPrefix(s) && s.family == F4
    ensures Walked(s, 0) == NetAddr(s) && Contains(s, NetAddr(s))
  {
    Pow2At32();
    ContainsIsRange(s, NetAddr(s));
  }

  lemma FoundIsWalked(p: Pool)
    requires ValidPrefix(p.subnet) && p.subnet.family == F4 && LowestFree(p, p.subnet.net + 1).Some?
    ensures WalkEnds(p)
  {
    var a := LowestFree(p, p.subnet.net + 1).value;
    WalkIsLowest(p, p.subnet.net + 1);
    assert Walked(p.subnet, a.Num() - p.subnet.net) == a;
  }

  /** So the walk ends on every pool but an exhausted `/0`. */
  lemma WalkEndsIff(p: Pool)
    requires ValidPrefix(p.subnet) && p.subnet.family == F4 && NetAddr(p.subnet) in p.reserved
    ensures WalkEnds(p) <==> p.subnet.bits >= 1 || LowestFree(p, p.subnet.net + 1).Some?
  {
    var s := p.subnet;
    WalkLeavesIff(s);
    if s.bits >= 1 {
      var k: nat :| !Contains(s, Walked(s, k));
      assert k >= 1 by { WalkStartsInside(s); }
    } else if LowestFree(p, s.net + 1).Some? {
      FoundIsWalked(p);
    } else {
      ExhaustedIff(p);
      forall k: nat ensures !Free(p, Walked(s, k)) {
        assert Contains(s, Walked(s, k));
      }
    }
  }

  // ---------------------------------------------------------------- a new pool

  /** An address a client could be given: not the network address, and in IPv4 not the last. */
  ghost predicate Host(s: Prefix, a: Addr)
    requires ValidPrefix(s)
  {
    && Contains(s, a) && a != NetAddr(s)
    && (s.family == F4 ==> exists b: Addr :: Contains(s, b) && a.Num() < b.Num())
  }

  ghost predicate RoomForTwo(s: Prefix)
    requires ValidPrefix(s)
  {
    exists a: Addr, b: Addr :: a != b && Host(s, a) && Host(s, b)
  }

  /** The addresses of a subnet above its network address. */
  function Nth(s: Prefix, k: nat): Addr
    requires ValidPrefix(s) && k < HostCount(s)
  {
    Pow2Widths();
    if s.family == F4 then V4(s.net + k) else V6(s.net + k)
  }

  lemma HostIsNth(s: Prefix, a: Addr)
    requires ValidPrefix(s)
    ensures Host(s, a) <==> exists k: nat :: 1 <= k < HostCount(s) - (if s.family == F4 then 1 else 0) && a == Nth(s, k)
  {
    ContainsIsRange(s, a);
    var last := HostCount(s) - (if s.family == F4 then 1 else 0);
    if Host(s, a) {
      if s.family == F4 {
        var b: Addr :| Contains(s, b) && a.Num() < b.Num();
        ContainsIsRange(s, b);
      }
      assert a == Nth(s, a.Num() - s.net);
    }
    if exists k: nat :: 1 <= k < last && a == Nth(s, k) {
      var k: nat :| 1 <= k < last && a == Nth(s, k);
      if s.family == F4 {
        ContainsIsRange(s, Nth(s, k + 1));
      }
    }
  }

  lemma RoomForTwoIff(s: Prefix)
    requires ValidPrefix(s)
    ensures RoomForTwo(s) <==> HostCount(s) >= 4
  {
    HostCountIsPower(s);
    if HostCount(s) >= 4 {
      HostIsNth(s, Nth(s, 1));
      HostIsNth(s, Nth(s, 2));
      assert Host(s, Nth(s, 1)) && Host(s, Nth(s, 2)) && Nth(s, 1) != Nth(s, 2);
    } else if RoomForTwo(s) {
      var a: Addr, b: Addr :| a != b && Host(s, a) && Host(s, b);
      HostIsNth(s, a);
      HostIsNth(s, b);
    }
  }

  lemma HostCountIsPower(s: Prefix)
    requires ValidPrefix(s)
    ensures HostCount(s) >= 4 <==> Width(s.family) - s.bits >= 2
    ensures HostCount(s) < 4 ==> HostCount(s) <= 2
  {
    var k := Width(s.family) - s.bits;
    if k >= 2 {
      Pow2Monotone(2, k);
    }
    assert Pow2(0) == 1 && Pow2(1) == 2 && Pow2(2) == 4;
  }

  /** A pool is made exactly for subnets that can serve two clients. It starts sound, and what it
      offers is exactly the hosts that the list does not reserve. */
  lemma NewPoolServes(s: Prefix, reserved: set<Addr>)
    requires ValidPrefix(s)
    ensures NewPool(s, reserved).Some? <==> RoomForTwo(s)
    ensures NewPool(s, reserved).Some? ==>
      && PoolOk(NewPool(s, reserved).value)
      && forall a: Addr :: Contains(s, a) ==> (Free(NewPool(s, reserved).value, a) <==> Host(s, a) && a !in reserved)
  {
    RoomForTwoIff(s);
    HostCountIsPower(s);
    if NewPool(s, reserved).Some? && s.family == F4 {
      BroadcastIsLast(s);
      forall a: Addr | Contains(s, a) ensures a != V4(Broadcast4(s)) <==> exists b: Addr :: Contains(s, b) && a.Num() < b.Num() {
        assert a.Num() <= Broadcast4(s);
        if a != V4(Broadcast4(s)) {
          assert a.Num() < V4(Broadcast4(s)).Num();
        }
      }
    }
  }

  // ---------------------------------------------------------------- every choice is fit to record

  lemma {:induction false} FirstFreeFits(p: Pool, rs: seq<Addr>)
    ensures FirstFree(p, rs).Some? ==>
      var a := FirstFree(p, rs).value; a in rs && Contains(p.subnet, a) && a !in p.used
  {
    if rs == [] {
    } else {
      FirstFreeFits(p, rs[1..]);
    }
  }

  lemma {:induction false} CandidateFits(p: Pool, id: ClientId, hash: Hash, round: nat)
    requires ValidSubnet(p.subnet) && p.subnet.family == F6
    ensures FirstCandidate(p, id, hash, round).Some? ==>
      var a := FirstCandidate(p, id, hash, round).value; Contains(p.subnet, a) && Free(p, a)
    decreases ROUNDS - round
  {
    if round >= ROUNDS {
    } else {
      CandidateInSubnet(p.subnet, hash(round, id));
      CandidateFits(p, id, hash, round + 1);
    }
  }

  /** May the user hold `a`: a reserved address belongs to its recorded owner only. */
  ghost predicate Entitled(reserved: set<Addr>, db: Option<UserDb>, user: string, a: Addr) {
    a in reserved ==> db.Some? && user != "" && Owner(db.value, a) == user
  }

  /** Users have names when there is a database, and its two halves agree. */
  ghost predicate KnownUser(db: Option<UserDb>, user: string) {
    db.Some? ==> user != "" && Agrees(db.value)
  }

  /** Where the preference rule over-reaches: a nameless user with a database present is handed
      any reserved address nobody owns. It is the only way past the reservations. */
  lemma OverreachIff(p: Pool, user: string, a: Addr, db: Option<UserDb>)
    requires a in p.reserved && Contains(p.subnet, a) && !a.IsUnspecified() && a !in p.used
    ensures Granted(p, user, a, db) && !Entitled(p.reserved, db, user, a)
       <==> db.Some? && user == "" && Owner(db.value, a) == ""
  {
  }

  lemma ChoiceFits(p: Pool, user: string, id: ClientId, preferred: Addr, db: Option<UserDb>, hash: Hash)
    requires ValidSubnet(p.subnet)
    ensures var c := Choose(p, user, id, preferred, db, hash);
      c.Some? ==>
        && Contains(p.subnet, c.value) && c.value !in p.used
        && (KnownUser(db, user) ==> Entitled(p.reserved, db, user, c.value))
  {
    if !Granted(p, user, preferred, db) {
      if db.Some? && user != "" {
        FirstFreeFits(p, ReservedFor(db.value, user));
      }
      if p.subnet.family == F4 {
        WalkIsLowest(p, p.subnet.net + 1);
      } else {
        CandidateFits(p, id, hash, 0);
      }
    }
  }

  /** Allocation keeps the pool sound, answers with the recorded address and changes nobody else. */
  lemma AllocateKeeps(p: Pool, user: string, id: ClientId, preferred: Addr, db: Option<UserDb>, hash: Hash)
    requires PoolOk(p)
    ensures var q := Allocate(p, user, id, preferred, db, hash); var a := Answer(p, user, id, preferred, db, hash);
      && PoolOk(q)
      && (a.Some? <==> id in q.byClient) && (a.Some? ==> q.byClient[id] == a.value)
      && forall j :: j != id ==> (j in q.byClient <==> j in p.byClient) && (j in p.byClient ==> q.byClient[j] == p.byClient[j])
  {
    if id !in p.byClient {
      ChoiceFits(p, user, id, preferred, db, hash);
      match Choose(p, user, id, preferred, db, hash)
      case None =>
      case Some(a) => RecordKeeps(p, id, a);
    }
  }

  /** Releasing what was just allocated gives back the pool as it was. */
  lemma ReleaseUndoesAllocate(p: Pool, user: string, id: ClientId, preferred: Addr, db: Option<UserDb>, hash: Hash)
    requires PoolOk(p) && id !in p.byClient
    ensures Release(Allocate(p, user, id, preferred, db, hash), id) == p
  {
    ChoiceFits(p, user, id, preferred, db, hash);
  }

  // ---------------------------------------------------------------- which address is chosen

  /** In the subnet, and so in the family, and not used. */
  predicate Usable(p: Pool, a: Addr) {
    Contains(p.subnet, a) && a !in p.used
  }

  /** The user may have `a` for the asking: nobody reserves it and neither does the server, or the
      user reserves it. */
  predicate MayAsk(p: Pool, db: Option<UserDb>, user: string, a: Addr) {
    && Usable(p, a) && a != V4(0) && a != V6(0)
    && match db
       case None => a !in p.reserved
       case Some(d) => Owner(d, a) == user || (Owner(d, a) == "" && a !in p.reserved)
  }

  /** The `k`-th address of the list is the first that is usable. */
  ghost predicate FirstUsable(p: Pool, rs: seq<Addr>, k: nat) {
    k < |rs| && Usable(p, rs[k]) && forall j :: 0 <= j < k ==> !Usable(p, rs[j])
  }

  ghost predicate NoneUsable(p: Pool, rs: seq<Addr>) {
    forall k :: 0 <= k < |rs| ==> !Usable(p, rs[k])
  }

  lemma {:induction false} FirstFreeAt(p: Pool, rs: seq<Addr>, k: nat)
    requires FirstUsable(p, rs, k)
    ensures FirstFree(p, rs) == Some(rs[k])
    decreases k
  {
    if k == 0 {
    } else {
      assert !Usable(p, rs[0]);
      TailUsable(p, rs, k);
      FirstFreeAt(p, rs[1..], k - 1);
    }
  }

  lemma TailUsable(p: Pool, rs: seq<Addr>, k: nat)
    requires FirstUsable(p, rs, k) && k > 0
    ensures FirstUsable(p, rs[1..], k - 1)
  {
    forall j | 0 <= j < k - 1 ensures !Usable(p, rs[1..][j]) {
      assert rs[1..][j] == rs[j + 1];
    }
  }

  lemma {:induction false} NoneFree(p: Pool, rs: seq<Addr>)
    requires NoneUsable(p, rs)
    ensures FirstFree(p, rs) == None
  {
    if rs == [] {
    } else {
      assert !Usable(p, rs[0]);
      forall k | 0 <= k < |rs[1..]| ensures !Usable(p, rs[1..][k]) {
        assert rs[1..][k] == rs[k + 1];
      }
      NoneFree(p, rs[1..]);
    }
  }

  lemma AskedIsGranted(p: Pool, user: string, a: Addr, db: Option<UserDb>)
    ensures Granted(p, user, a, db) <==> MayAsk(p, db, user, a)
  {
  }

  /** The lowest free address above the network address. */
  ghost predicate LowestHost(p: Pool, a: Addr) {
    && Contains(p.subnet, a) && Free(p, a) && p.subnet.net < a.Num()
    && forall b: Addr :: Contains(p.subnet, b) && Free(p, b) && p.subnet.net < b.Num() ==> a.Num() <= b.Num()
  }

  /** The candidate of round `n`. */
  function RoundAddr(p: Pool, id: ClientId, hash: Hash, n: byte): Addr
    requires p.subnet.bits <= 128
  {
    V6Candidate(p.subnet, hash(n, id))
  }

  /** It is the first free one from round `from` on. */
  ghost predicate FirstRound(p: Pool, id: ClientId, hash: Hash, from: nat, n: nat)
    requires p.subnet.bits <= 128
  {
    from <= n < 8 && Free(p, RoundAddr(p, id, hash, n)) && forall k :: from <= k < n ==> !Free(p, RoundAddr(p, id, hash, k))
  }

  lemma OneRound(p: Pool, id: ClientId, hash: Hash, round: nat)
    requires p.subnet.bits <= 128 && round < 8
    ensures var a := RoundAddr(p, id, hash, round);
      FirstCandidate(p, id, hash, round) == if Free(p, a) then Some(a) else FirstCandidate(p, id, hash, round + 1)
  {
  }

  lemma {:induction false} RoundFrom(p: Pool, id: ClientId, hash: Hash, round: nat, n: nat)
    requires p.subnet.bits <= 128 && FirstRound(p, id, hash, round, n)
    ensures FirstCandidate(p, id, hash, round) == Some(RoundAddr(p, id, hash, n))
    decreases 8 - round
  {
    OneRound(p, id, hash, round);
    if round == n {
    } else {
      assert !Free(p, RoundAddr(p, id, hash, round));
      RoundFrom(p, id, hash, round + 1, n);
    }
  }

  lemma {:induction false} NoRoundFrom(p: Pool, id: ClientId, hash: Hash, round: nat)
    requires p.subnet.bits <= 128 && round <= 8 && forall n :: round <= n < 8 ==> !Free(p, RoundAddr(p, id, hash, n))
    ensures FirstCandidate(p, id, hash, round) == None
    decreases 8 - round
  {
    if round == 8 {
    } else {
      OneRound(p, id, hash, round);
      NoRoundFrom(p, id, hash, round + 1);
    }
  }

  /** What is left when neither the record, nor the wish, nor the user's list settles it: in IPv4 the
      lowest free host; in IPv6 the derived candidate of the least of eight rounds that is free; and
      nothing exactly when there is no such address. */
  ghost predicate FromPool(p: Pool, id: ClientId, hash: Hash, r: Option<Addr>)
    requires p.subnet.bits <= 128
  {
    if p.subnet.family == F4 then
      match r
      case Some(a) => LowestHost(p, a)
      case None => forall b: Addr :: !LowestHost(p, b)
    else
      && (forall n: nat :: FirstRound(p, id, hash, 0, n) ==> r == Some(RoundAddr(p, id, hash, n)))
      && ((forall n :: 0 <= n < 8 ==> !Free(p, RoundAddr(p, id, hash, n))) ==> r == None)
  }

  lemma LeastRound(p: Pool, id: ClientId, hash: Hash)
    requires p.subnet.bits <= 128 && p.subnet.family == F6
    ensures FromPool(p, id, hash, FirstCandidate(p, id, hash, 0))
  {
    forall n: nat | FirstRound(p, id, hash, 0, n) ensures FirstCandidate(p, id, hash, 0) == Some(RoundAddr(p, id, hash, n)) {
      RoundFrom(p, id, hash, 0, n);
    }
    if forall n :: 0 <= n < 8 ==> !Free(p, RoundAddr(p, id, hash, n)) {
      NoRoundFrom(p, id, hash, 0);
    }
  }

  lemma PoolChooses(p: Pool, id: ClientId, hash: Hash)
    requires ValidSubnet(p.subnet)
    ensures FromPool(p, id, hash, if p.subnet.family == F4 then LowestFree(p, p.subnet.net + 1) else FirstCandidate(p, id, hash, 0))
  {
    if p.subnet.family == F4 {
      WalkIsLowest(p, p.subnet.net + 1);
    } else {
      LeastRound(p, id, hash);
    }
  }

  /** The addresses that are the user's own. */
  function OwnList(db: Option<UserDb>, user: string): seq<Addr> {
    if db.Some? && user != "" then ReservedFor(db.value, user) else []
  }

  lemma ChooseUnasked(p: Pool, user: string, id: ClientId, wish: Addr, db: Option<UserDb>, hash: Hash)
    requires p.subnet.bits <= 128 && !MayAsk(p, db, user, wish)
    ensures var own := FirstFree(p, OwnList(db, user));
      Choose(p, user, id, wish, db, hash)
      == if own.Some? then own else if p.subnet.family == F4 then LowestFree(p, p.subnet.net + 1) else FirstCandidate(p, id, hash, 0)
  {
    AskedIsGranted(p, user, wish, db);
  }

  /** The order of choice: the address on record; else the wish, if the user may have it; else the
      first usable address of the user's own list; else what the pool gives. */
  lemma AnswerIs(p: Pool, user: string, id: ClientId, wish: Addr, db: Option<UserDb>, hash: Hash, k: nat)
    requires ValidSubnet(p.subnet)
    ensures var r := Answer(p, user, id, wish, db, hash);
      if id in p.byClient then r == Some(p.byClient[id])
      else if MayAsk(p, db, user, wish) then r == Some(wish)
      else
        && (FirstUsable(p, OwnList(db, user), k) ==> r == Some(OwnList(db, user)[k]))
        && (NoneUsable(p, OwnList(db, user)) ==> FromPool(p, id, hash, r))
  {
    AskedIsGranted(p, user, wish, db);
    if !MayAsk(p, db, user, wish) {
      ChooseUnasked(p, user, id, wish, db, hash);
      if FirstUsable(p, OwnList(db, user), k) {
        FirstFreeAt(p, OwnList(db, user), k);
      }
      if NoneUsable(p, OwnList(db, user)) {
        NoneFree(p, OwnList(db, user));
        PoolChooses(p, id, hash);
      }
    }
  }

  // ---------------------------------------------------------------- runs of a pool

  datatype PoolOp =
    | OpAllocate(user: string, id: ClientId, preferred: Addr)
    | OpClaim(id: ClientId, addr: Addr)
    | OpRelease(id: ClientId)

  function Apply(p: Pool, op: PoolOp, db: Option<UserDb>, hash: Hash): Pool
    requires p.subnet.bits <= 128
  {
    match op
    case OpAllocate(u, id, pref) => Allocate(p, u, id, pref, db, hash)
    case OpClaim(id, a) => Claim(p, id, a)
    case OpRelease(id) => Release(p, id)
  }

  /** Every claim in the run is one its caller may make. */
  ghost predicate ClaimsAllowed(p: Pool, ops: seq<PoolOp>, db: Option<UserDb>, hash: Hash)
    requires p.subnet.bits <= 128
    decreases |ops|
  {
    ops != [] ==>
      && (ops[0].OpClaim? ==> MayClaim(p, ops[0].id, ops[0].addr))
      && ClaimsAllowed(Apply(p, ops[0], db, hash), ops[1..], db, hash)
  }

  function RunPool(p: Pool, ops: seq<PoolOp>, db: Option<UserDb>, hash: Hash): Pool
    requires p.subnet.bits <= 128
    decreases |ops|
  {
    if ops == [] then p else RunPool(Apply(p, ops[0], db, hash), ops[1..], db, hash)
  }

  lemma {:induction false} RunKeepsPool(p: Pool, ops: seq<PoolOp>, db: Option<UserDb>, hash: Hash)
    requires PoolOk(p) && ClaimsAllowed(p, ops, db, hash)
    ensures PoolOk(RunPool(p, ops, db, hash))
    decreases |ops|
  {
    if ops == [] {
    } else {
      match ops[0] {
        case OpAllocate(u, id, pref) => AllocateKeeps(p, u, id, pref, db, hash);
        case OpClaim(id, a) => RecordKeeps(p, id, a);
        case OpRelease(id) => ReleaseKeeps(p, id);
      }
      RunKeepsPool(Apply(p, ops[0], db, hash), ops[1..], db, hash);
    }
  }
}
