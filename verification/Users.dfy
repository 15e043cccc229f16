/** The authorized clients: who may connect, which addresses are reserved, and quotas. */
module Users {
  import opened Bytes
  import opened Addr

  const PUBKEY_LEN: nat := 32

  datatype User = User(name: string, key: bytes, maxConcurrent: int, reserved: seq<Addr>)

  datatype UserDb = UserDb(byKey: map<bytes, User>, byName: map<string, User>,
                           resV4: map<Addr, string>, resV6: map<Addr, string>)

  function Lookup(m: map<Addr, string>, a: Addr): string {
    if a in m then m[a] else ""
  }

  /** `ReservationOwner`: the empty string means nobody. */
  function Owner(db: UserDb, a: Addr): string {
    OwnerIn(db.resV4, db.resV6, a)
  }

  function OwnerIn(resV4: map<Addr, string>, resV6: map<Addr, string>, a: Addr): string {
    match a
    case Invalid => ""
    case V4(_) => Lookup(resV4, a)
    case V6(_) => Lookup(resV6, a)
  }

  function ReservedFor(db: UserDb, name: string): seq<Addr> {
    if name in db.byName then db.byName[name].reserved else []
  }

  /** `AllReservations` for one family. */
  function Reservations(db: UserDb, f: Family): set<Addr> {
    if f == F4 then db.resV4.Keys else db.resV6.Keys
  }

  // ---------------------------------------------------------------- what a user list means

  predicate ValidUser(u: User) {
    u.name != "" && |u.key| == PUBKEY_LEN && u.maxConcurrent >= 0 && Invalid !in u.reserved
  }

  /** No name, key or reserved address belongs to both. */
  predicate Apart(u: User, v: User) {
    u.name != v.name && u.key != v.key && forall a :: a in u.reserved ==> a !in v.reserved
  }

  predicate Acceptable(users: seq<User>) {
    && (forall i :: 0 <= i < |users| ==> ValidUser(users[i]))
    && (forall i, j :: 0 <= i < j < |users| ==> Apart(users[i], users[j]))
  }

  ghost predicate Reserves(users: seq<User>, name: string, a: Addr) {
    exists i :: 0 <= i < |users| && users[i].name == name && a in users[i].reserved
  }

  /** The database says neither more nor less than the list. */
  ghost predicate Describes(db: UserDb, users: seq<User>) {
    NamesAndKeys(db, users) && OwnersAre(db.resV4, db.resV6, users)
  }

  ghost predicate NamesAndKeys(db: UserDb, users: seq<User>) {
    && (forall n :: n in db.byName ==> db.byName[n] in users && db.byName[n].name == n)
    && (forall k :: k in db.byKey ==> db.byKey[k] in users && db.byKey[k].key == k)
    && (forall u :: u in users ==> u.name in db.byName && db.byName[u.name] == u)
    && (forall u :: u in users ==> u.key in db.byKey && db.byKey[u.key] == u)
  }

  ghost predicate OwnersAre(resV4: map<Addr, string>, resV6: map<Addr, string>, users: seq<User>) {
    && (forall a :: a in resV4 ==> a.V4? && resV4[a] != "")
    && (forall a :: a in resV6 ==> a.V6? && resV6[a] != "")
    && forall a :: OwnerIs(OwnerIn(resV4, resV6, a), users, a)
  }

  /** `o` is the user of the list who reserves `a`, if there is one. */
  ghost predicate OwnerIs(o: string, users: seq<User>, a: Addr) {
    forall n :: n != "" ==> (o == n <==> Reserves(users, n, a))
  }

  // ---------------------------------------------------------------- the constructor loop

  /** Builds the database, or refuses, exactly when the list is acceptable. */
  method NewUserDb(users: seq<User>) returns (r: Option<UserDb>)
    ensures r.Some? <==> Acceptable(users)
    ensures r.Some? ==> Describes(r.value, users)
  {
    var byKey: map<bytes, User>, byName: map<string, User> := map[], map[];
    var resV4: map<Addr, string>, resV6: map<Addr, string> := map[], map[];
    for i := 0 to |users|
      invariant Acceptable(users[..i])
      invariant Describes(UserDb(byKey, byName, resV4, resV6), users[..i])
    {
      var u := users[i];
      ghost var done := users[..i];
      assert users[..i + 1] == done + [u];
      if u.name == "" || |u.key| != PUBKEY_LEN || u.maxConcurrent < 0 {
        return None;
      }
      if u.name in byName || u.key in byKey {
        ghost var v := if u.name in byName then byName[u.name] else byKey[u.key];
        Clash(users, i, v);
        return None;
      }
      Newcomer(UserDb(byKey, byName, resV4, resV6), done, u);
      var v4, v6, ok := AddReservations(resV4, resV6, u, done);
      if !ok {
        Refused(users, i);
        return None;
      }
      resV4, resV6 := v4, v6;
      NewcomerApart(done, u);
      Extend(UserDb(byKey, byName, resV4, resV6), done, u);
      byKey := byKey[u.key := u];
      byName := byName[u.name := u];
    }
    assert users[..|users|] == users;
    r := Some(UserDb(byKey, byName, resV4, resV6));
  }

  lemma Newcomer(db: UserDb, done: seq<User>, u: User)
    requires Acceptable(done) && NamesAndKeys(db, done)
    requires u.name != "" && u.name !in db.byName && u.key !in db.byKey
    ensures NewName(u, done) && forall j :: 0 <= j < |done| ==> done[j].key != u.key
  {
    forall j | 0 <= j < |done| ensures done[j].name != "" && done[j].name != u.name && done[j].key != u.key {
      assert done[j] in done && ValidUser(done[j]);
    }
  }

  lemma NewcomerApart(done: seq<User>, u: User)
    requires NewName(u, done) && forall j :: 0 <= j < |done| ==> done[j].key != u.key
    requires forall a :: a in u.reserved ==> Unclaimed(a, done)
    ensures forall j :: 0 <= j < |done| ==> Apart(done[j], u)
  {
    forall j, a | 0 <= j < |done| && a in done[j].reserved ensures a !in u.reserved {
      assert a in u.reserved ==> Unclaimed(a, done);
    }
  }

  lemma Refused(users: seq<User>, i: nat)
    requires i < |users|
    requires Invalid in users[i].reserved || exists a :: a in users[i].reserved && !Unclaimed(a, users[..i])
    ensures !Acceptable(users)
  {
    if Invalid !in users[i].reserved {
      var a :| a in users[i].reserved && !Unclaimed(a, users[..i]);
      var j :| 0 <= j < i && a in users[..i][j].reserved;
      Clash(users, i, users[j]);
    }
  }

  /** A user that is not apart from an earlier one spoils the list. */
  lemma Clash(users: seq<User>, i: nat, v: User)
    requires i < |users| && v in users[..i] && !Apart(v, users[i])
    ensures !Acceptable(users)
  {
    var j :| 0 <= j < i && users[j] == v;
    assert !Apart(users[j], users[i]);
  }

  ghost predicate NewName(u: User, done: seq<User>) {
    u.name != "" && forall j :: 0 <= j < |done| ==> done[j].name != "" && done[j].name != u.name
  }

  /** Nobody before `u` reserves `a`. */
  predicate Unclaimed(a: Addr, done: seq<User>) {
    forall j :: 0 <= j < |done| ==> a !in done[j].reserved
  }

  /** The owners after `u`'s first `k` reservations. */
  ghost predicate OwnersMid(resV4: map<Addr, string>, resV6: map<Addr, string>, done: seq<User>, u: User, k: nat)
    requires k <= |u.reserved|
  {
    && (forall a :: a in resV4 ==> a.V4? && resV4[a] != "")
    && (forall a :: a in resV6 ==> a.V6? && resV6[a] != "")
    && forall a :: OwnerMid(OwnerIn(resV4, resV6, a), done, u, k, a)
  }

  ghost predicate OwnerMid(o: string, done: seq<User>, u: User, k: nat, a: Addr)
    requires k <= |u.reserved|
  {
    forall n :: n != "" ==> (o == n <==> Reserves(done, n, a) || (n == u.name && a in u.reserved[..k]))
  }

  /** The inner loop: record a user's reservations unless one belongs to somebody else. */
  method AddReservations(resV4: map<Addr, string>, resV6: map<Addr, string>, u: User, ghost done: seq<User>)
    returns (v4: map<Addr, string>, v6: map<Addr, string>, ok: bool)
    requires OwnersAre(resV4, resV6, done) && NewName(u, done)
    ensures ok <==> Invalid !in u.reserved && forall a :: a in u.reserved ==> Unclaimed(a, done)
    ensures ok ==> OwnersMid(v4, v6, done, u, |u.reserved|)
  {
    v4, v6 := resV4, resV6;
    for k := 0 to |u.reserved|
      invariant OwnersMid(v4, v6, done, u, k)
      invariant forall a :: a in u.reserved[..k] ==> a != Invalid && Unclaimed(a, done)
    {
      var r := u.reserved[k];
      assert r in u.reserved;
      if r == Invalid {
        return v4, v6, false;
      }
      var other := OwnerIn(v4, v6, r);
      if other != "" && other != u.name {
        assert Reserves(done, other, r);
        return v4, v6, false;
      }
      FreeForUser(v4, v6, done, u, k);
      ghost var w4, w6 := v4, v6;
      if r.V4? {
        v4 := v4[r := u.name];
      } else {
        v6 := v6[r := u.name];
      }
      OneMore(w4, w6, v4, v6, done, u, k);
      assert u.reserved[..k + 1] == u.reserved[..k] + [r];
    }
    assert u.reserved[..|u.reserved|] == u.reserved;
    ok := true;
  }

  lemma FreeForUser(v4: map<Addr, string>, v6: map<Addr, string>, done: seq<User>, u: User, k: nat)
    requires k < |u.reserved| && OwnersMid(v4, v6, done, u, k) && NewName(u, done)
    requires OwnerIn(v4, v6, u.reserved[k]) in ["", u.name]
    ensures Unclaimed(u.reserved[k], done)
  {
    forall j | 0 <= j < |done| ensures u.reserved[k] !in done[j].reserved {
      if u.reserved[k] in done[j].reserved {
        assert Reserves(done, done[j].name, u.reserved[k]);
      }
    }
  }

  lemma OneMore(v4: map<Addr, string>, v6: map<Addr, string>, w4: map<Addr, string>, w6: map<Addr, string>,
                done: seq<User>, u: User, k: nat)
    requires k < |u.reserved| && OwnersMid(v4, v6, done, u, k) && NewName(u, done)
    requires u.reserved[k] != Invalid && Unclaimed(u.reserved[k], done)
    requires if u.reserved[k].V4? then w4 == v4[u.reserved[k] := u.name] && w6 == v6
             else w4 == v4 && w6 == v6[u.reserved[k] := u.name]
    ensures OwnersMid(w4, w6, done, u, k + 1)
  {
    var r := u.reserved[k];
    assert u.reserved[..k + 1] == u.reserved[..k] + [r];
    forall a ensures OwnerMid(OwnerIn(w4, w6, a), done, u, k + 1, a) {
      assert OwnerMid(OwnerIn(v4, v6, a), done, u, k, a);
      if a == r {
        assert OwnerIn(w4, w6, a) == u.name;
        assert forall n :: !Reserves(done, n, r);
      } else {
        assert OwnerIn(w4, w6, a) == OwnerIn(v4, v6, a);
        assert a in u.reserved[..k + 1] <==> a in u.reserved[..k];
      }
    }
  }

  lemma ReservesAppend(done: seq<User>, u: User, n: string, a: Addr)
    ensures Reserves(done + [u], n, a) <==> Reserves(done, n, a) || (n == u.name && a in u.reserved)
  {
    var all := done + [u];
    assert all[|done|] == u;
    if Reserves(done, n, a) {
      var i :| 0 <= i < |done| && done[i].name == n && a in done[i].reserved;
      assert all[i].name == n && a in all[i].reserved;
    }
  }

  /** Adding a user apart from all before it keeps the database true to the list. */
  lemma Extend(db: UserDb, done: seq<User>, u: User)
    requires ValidUser(u) && Acceptable(done) && NewName(u, done)
    requires forall j :: 0 <= j < |done| ==> Apart(done[j], u)
    requires NamesAndKeys(db, done) && OwnersMid(db.resV4, db.resV6, done, u, |u.reserved|)
    ensures Acceptable(done + [u])
    ensures Describes(db.(byKey := db.byKey[u.key := u], byName := db.byName[u.name := u]), done + [u])
  {
    forall a ensures OwnerIs(OwnerIn(db.resV4, db.resV6, a), done + [u], a) {
      assert OwnerMid(OwnerIn(db.resV4, db.resV6, a), done, u, |u.reserved|, a);
      ExtendOwner(OwnerIn(db.resV4, db.resV6, a), done, u, a);
    }
    ExtendNames(db, done, u);
  }

  lemma ExtendOwner(owner: string, done: seq<User>, u: User, a: Addr)
    requires OwnerMid(owner, done, u, |u.reserved|, a)
    ensures OwnerIs(owner, done + [u], a)
  {
    assert u.reserved[..|u.reserved|] == u.reserved;
    forall n | n != "" ensures owner == n <==> Reserves(done + [u], n, a) {
      ReservesAppend(done, u, n, a);
    }
  }

  lemma ExtendNames(db: UserDb, done: seq<User>, u: User)
    requires NamesAndKeys(db, done)
    requires forall v :: v in done ==> v.name != u.name && v.key != u.key
    ensures NamesAndKeys(db.(byKey := db.byKey[u.key := u], byName := db.byName[u.name := u]), done + [u])
  {
    assert forall v :: v in done + [u] <==> v in done || v == u;
  }

  /** The owner map and the users' reservation lists tell the same story. */
  ghost predicate Agrees(db: UserDb) {
    && "" !in db.byName
    && (forall n, a :: n != "" ==> (Owner(db, a) == n <==> n in db.byName && a in ReservedFor(db, n)))
    && (forall a: Addr, f: Family :: a.Is(f) && Owner(db, a) != "" ==> a in Reservations(db, f))
  }

  lemma ConstructorAgrees(db: UserDb, users: seq<User>)
    requires Acceptable(users) && Describes(db, users)
    ensures Agrees(db)
  {
    forall n, a | n != ""
      ensures Owner(db, a) == n <==> n in db.byName && a in ReservedFor(db, n)
    {
      assert OwnerIs(OwnerIn(db.resV4, db.resV6, a), users, a);
      if Reserves(users, n, a) {
        var i :| 0 <= i < |users| && users[i].name == n && a in users[i].reserved;
        assert users[i] in users;
      }
    }
  }

  // ---------------------------------------------------------------- quotas

  function Count(active: map<string, nat>, name: string): nat {
    if name in active then active[name] else 0
  }

  /** A slot can be taken: the user exists and, when limited, is below the limit. */
  predicate SlotFree(db: UserDb, active: map<string, nat>, name: string) {
    name in db.byName &&
    (db.byName[name].maxConcurrent > 0 ==> Count(active, name) < db.byName[name].maxConcurrent)
  }

  function Taken(active: map<string, nat>, name: string): map<string, nat> {
    active[name := Count(active, name) + 1]
  }

  /** `ReleaseSlot`: unknown names are ignored and zero is never crossed. */
  function Dropped(db: UserDb, active: map<string, nat>, name: string): map<string, nat> {
    if name in db.byName && Count(active, name) > 0 then active[name := Count(active, name) - 1] else active
  }

  datatype SlotResult = Acquired | UnknownUser | QuotaExceeded

  /** The per-user counters of one database. */
  class Slots {
    const db: UserDb
    var active: map<string, nat>

    constructor (d: UserDb)
      ensures db == d && active == map[]
    {
      db, active := d, map[];
    }

    method AcquireSlot(name: string) returns (r: SlotResult)
      modifies this
      ensures r == Acquired <==> SlotFree(db, old(active), name)
      ensures r == UnknownUser <==> name !in db.byName
      ensures active == if r == Acquired then Taken(old(active), name) else old(active)
    {
      if name !in db.byName {
        return UnknownUser;
      }
      var max := db.byName[name].maxConcurrent;
      if max > 0 && Count(active, name) >= max {
        return QuotaExceeded;
      }
      active := active[name := Count(active, name) + 1];
      r := Acquired;
    }

    method ReleaseSlot(name: string)
      modifies this
      ensures active == Dropped(db, old(active), name)
    {
      if name in db.byName && Count(active, name) > 0 {
        active := active[name := Count(active, name) - 1];
      }
    }
  }
}
