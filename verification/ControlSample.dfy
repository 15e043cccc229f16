/** Small servers on which every race of `ControlRaces` happens. */
module ControlSample {
  import opened Bytes
  import opened Addr
  import opened Users
  import opened AddrPool
  import opened Control
  import opened ControlRuns
  import opened ControlSticky
  import opened ControlPending
  import opened ControlLeaks
  import opened ControlUsed
  import opened ControlRaces

  /** 32-byte keys. */
  const KEY1: bytes := [1] + Zeros(31)
  const KEY2: bytes := [2] + Zeros(31)
  const ID1: ClientId := [1,0,0,0,0,0,0,0,0,0,0,0,0,0,0,0]
  const ID2: ClientId := [2,0,0,0,0,0,0,0,0,0,0,0,0,0,0,0]

  /** The server at 10.0.0.1 in 10.0.0.0/24; the first free address is 10.0.0.2. */
  const NET: Prefix := Prefix(F4, 0x0A00_0000, 24)
  const SERVER: Addr := V4(0x0A00_0001)
  const SECOND: Addr := V4(0x0A00_0002)
  const THIRD: Addr := V4(0x0A00_0003)

  /** One session at a time for the first user, any number for the second; no reservations. */
  function Db(): UserDb {
    var u1, u2 := User("one", KEY1, 1, []), User("two", KEY2, 0, []);
    UserDb(map[KEY1 := u1, KEY2 := u2], map["one" := u1, "two" := u2], map[], map[])
  }

  function Sample(): Config {
    Config(Some(Db()), [], (key: bytes) => if key == KEY1 then ID1 else ID2,
           (round: byte, id: ClientId) => Zeros(32), (pkt: bytes) => None)
  }

  lemma NetIsValid()
    ensures ValidSubnet(NET) && HostCount(NET) == 256 && V4(0x0A00_0000) == NetAddr(NET) && Broadcast4(NET) == 0x0A00_00FF
  {
    Pow2At32();
    assert Pow2(8) == 256;
    BroadcastValue(NET);
  }

  function SamplePool(): Pool {
    Pool(NET, {V4(0x0A00_0000), V4(0x0A00_00FF), SERVER}, {}, map[])
  }

  function SampleBase(): map<Family, Pool> {
    map[F4 := SamplePool()]
  }

  /** The pools are what the server at `SERVER` with this one subnet starts from. */
  ghost predicate ServersOwn(net: Prefix, base: map<Family, Pool>) {
    ValidSubnet(net) && base.Keys == {F4} && ServerPool(Some(Db()), net, SERVER) == Some(base[F4])
  }

  lemma SampleIsServers()
    ensures ServersOwn(NET, SampleBase())
  {
    NetIsValid();
    assert ServerPool(Some(Db()), NET, SERVER).value.reserved == SamplePool().reserved;
  }

  lemma SampleIsWf()
    ensures WfConfig(Sample()) && FreshPools(SampleBase())
  {
    NetIsValid();
    SampleKeys();
    assert "" !in Db().byName;
    forall k | k in Db().byKey ensures Db().byKey[k].name in Db().byName {
    }
    forall a: Addr ensures Owner(Db(), a) == "" {
    }
    assert Agrees(Db());
    assert F4 in SampleBase();
  }

  lemma SampleKeys()
    ensures KEY1 != KEY2 && |KEY1| == |KEY2| == PUBKEY_LEN && "one" != "two" && ID1 != ID2 && ID1 != ZERO_ID
    ensures Authorize(Sample(), KEY1) == Some("one") && Authorize(Sample(), KEY2) == Some("two")
    ensures Sample().derive(KEY1) == ID1 && Sample().derive(KEY2) == ID2
    ensures Db().byName["one"].maxConcurrent == 1 && Db().byName["two"].maxConcurrent == 0
    ensures HasUsers(Sample()) && forall n :: ReservedFor(Db(), n) == []
  {
    assert KEY1[0] != KEY2[0] && "one"[0] != "two"[0] && ID1[0] != ID2[0] && ID1[0] != ZERO_ID[0];
    assert KEY1 in Db().byKey;
  }

  lemma SampleWalk()
    ensures LowestFree(SamplePool(), NET.net + 1) == Some(SECOND) && Contains(NET, SECOND)
    ensures LowestFree(Record(SamplePool(), ID2, SECOND), NET.net + 1) == Some(THIRD)
  {
    NetIsValid();
    ContainsIsRange(NET, SECOND);
    var p, q := SamplePool(), Record(SamplePool(), ID2, SECOND);
    assert LowestFree(p, NET.net + 2) == Some(SECOND);
    assert LowestFree(q, NET.net + 3) == Some(THIRD);
    assert LowestFree(q, NET.net + 2) == Some(THIRD);
  }

  lemma SampleServes(key: bytes)
    requires key == KEY1 || key == KEY2
    ensures CanServe(Sample(), SampleBase(), key, F4, SECOND)
    ensures Granted(SampleBase()[F4], Authorize(Sample(), key).value, SECOND, Sample().db)
  {
    SampleKeys();
    SampleWalk();
  }

  lemma SampleClashes()
    ensures CanClash(Sample(), SampleBase(), KEY1, KEY2, F4, SECOND)
  {
    SampleKeys();
    SampleServes(KEY1);
    SampleServes(KEY2);
  }

  /** Two sessions with one address. */
  lemma ClashHappens() returns (es: seq<Event>, m: Server)
    ensures ServersOwn(NET, SampleBase())
    ensures Reach(Sample(), SampleBase(), es, m) && !Unique(m)
  {
    SampleIsServers();
    SampleIsWf();
    SampleClashes();
    es := ClashSchedule(KEY1, KEY2, F4, SECOND);
    m := ClashRun(Sample(), SampleBase(), KEY1, KEY2, F4, SECOND);
  }

  /** A server at rest with a used address that no release can free. */
  lemma LossHappens() returns (es: seq<Event>, m: Server)
    ensures ServersOwn(NET, SampleBase())
    ensures Reach(Sample(), SampleBase(), es, m) && Idle(m) && Lost(m, F4, THIRD)
  {
    SampleIsServers();
    SampleIsWf();
    SampleKeys();
    SampleClashes();
    SampleWalk();
    es := StrandSchedule(KEY1, KEY2, F4, SECOND);
    m := StrandRun(Sample(), SampleBase(), KEY1, KEY2, F4, SECOND, THIRD);
  }

  /** A live session without its record: after a late tear-down, and after a late refusal. */
  lemma LateReleasesHappen() returns (es: seq<Event>, m: Server, es': seq<Event>, m': Server)
    ensures ServersOwn(NET, SampleBase())
    ensures Reach(Sample(), SampleBase(), es, m) && !Sticky(m) && |es| > 0 && es[|es| - 1].Close?
    ensures Reach(Sample(), SampleBase(), es', m') && !Sticky(m') && |es'| > 0 && es'[|es'| - 1].ReleaseRefused?
  {
    SampleIsServers();
    SampleIsWf();
    SampleKeys();
    SampleServes(KEY1);
    SampleServes(KEY2);
    es, es' := TearDownSchedule(KEY2), RefusalSchedule(KEY1, ID1);
    m := TearDownRun(Sample(), SampleBase(), KEY2, F4, SECOND);
    m' := RefusalRun(Sample(), SampleBase(), KEY1, F4, SECOND);
  }

  // ---------------------------------------------------------------- 0.0.0.0/0

  const ALL: Prefix := Prefix(F4, 0, 0)

  lemma AllIsValid()
    ensures ValidSubnet(ALL) && V4(0) == NetAddr(ALL) && Broadcast4(ALL) == 0xFFFF_FFFF && HostCount(ALL) == 0x1_0000_0000
  {
    Pow2At32();
    BroadcastValue(ALL);
  }

  function AllPool(): Pool {
    Pool(ALL, {V4(0), V4(0xFFFF_FFFF), SERVER}, {}, map[])
  }

  function AllBase(): map<Family, Pool> {
    map[F4 := AllPool()]
  }

  lemma AllIsServers()
    ensures ServersOwn(ALL, AllBase())
  {
    AllIsValid();
    assert ServerPool(Some(Db()), ALL, SERVER).value.reserved == AllPool().reserved;
  }

  lemma AllIsFresh()
    ensures FreshPools(AllBase())
  {
    AllIsValid();
    assert F4 in AllBase();
  }

  lemma AllWalk()
    ensures LowestFree(AllPool(), ALL.net + 1) == Some(V4(1))
  {
    AllIsValid();
    WalkIsLowest(AllPool(), ALL.net + 1);
    assert Free(AllPool(), V4(1));
  }

  lemma AllOffers()
    ensures CanOffer(Sample(), AllBase(), KEY1, F4, V4(1))
  {
    SampleKeys();
    AllWalk();
  }

  /** A server on 0.0.0.0/0 at rest, without a session, and with a record. */
  lemma ZeroPrefixLeakHappens() returns (es: seq<Event>, m: Server)
    ensures ServersOwn(ALL, AllBase())
    ensures Reach(Sample(), AllBase(), es, m) && Idle(m) && m.sessions == map[]
    ensures F4 in m.pools && ID1 in m.pools[F4].byClient
  {
    AllIsServers();
    SampleIsWf();
    SampleKeys();
    AllIsFresh();
    AllOffers();
    es := [] + [Handshake(KEY1, map[], 1)] + [Finish(0, 0)];
    m := ZeroPrefixRun(Sample(), AllBase(), KEY1, F4, V4(1));
  }
}
