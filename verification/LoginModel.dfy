/** Login, logout and the login test as whole visits to the session store. */
module LoginModel {
  import opened Text
  import opened SessionModel

  /** The session cookie of a request: its raw value, and that value with its escapes undone. */
  datatype Cookie = Absent | Present(raw: string, decoded: string)

  predicate Blank(c: Cookie) {
    c.Absent? || c.raw == ""
  }

  datatype User = User(name: string, password: string)

  /** The passwords of the two accounts. */
  datatype Passwords = Passwords(first: string, second: string)

  predicate IsRightUser(user: User, passwords: Passwords) {
    match user.name
    case "adminuser1" => user.password == passwords.first
    case "adminuser2" => user.password == passwords.second
    case _ => false
  }

  const USERNAME := "username"

  predicate HasName(values: map<string, string>) {
    USERNAME in values && values[USERNAME] != ""
  }

  /** A session is logged in when it holds a user name. */
  predicate LoggedIn(l: Entries, sid: string) {
    HasName(ValuesOf(l, sid))
  }

  /** The session id a request works with: that of its cookie, or a new one. */
  function Sid(c: Cookie, newId: string): string {
    if Blank(c) then newId else c.decoded
  }

  /** SessionStart: the session of the request, created if there is none. */
  function Opened(l: Entries, c: Cookie, newId: string, now: int): Entries {
    if Has(l, Sid(c, newId)) && !Blank(c) then l else Init(l, Sid(c, newId), now)
  }

  function AfterLogin(l: Entries, c: Cookie, newId: string, name: Option<string>, t: seq<int>): Entries
    requires |t| == 2
  {
    var sid, l1 := Sid(c, newId), Opened(l, c, newId, t[0]);
    if name.None? then l1 else Update(SetValues(l1, sid, ValuesOf(l1, sid)[USERNAME := name.value]), sid, t[1])
  }

  function AfterCheck(l: Entries, c: Cookie, newId: string, t: seq<int>): Entries
    requires |t| == 2
  {
    Update(Opened(l, c, newId, t[0]), Sid(c, newId), t[1])
  }

  /** The first half of a logout: the name is erased, then the session with the raw cookie
      value as its id is destroyed. */
  function Erased(l: Entries, c: Cookie, newId: string, t: seq<int>): Entries
    requires |t| == 2
  {
    var sid, l1 := Sid(c, newId), Opened(l, c, newId, t[0]);
    var l2 := Update(SetValues(l1, sid, ValuesOf(l1, sid) - {USERNAME}), sid, t[1]);
    if Blank(c) then l2 else Destroy(l2, c.raw)
  }

  /** A visit, with the new ids it may need and its clock readings. */
  datatype Visit =
    | Login(cookie: Cookie, user: Option<User>, newId: string, times: seq<int>)
    | Logout(cookie: Cookie, newId: string, times: seq<int>, newId2: string, times2: seq<int>)
    | Check(cookie: Cookie, newId: string, times: seq<int>)
    | Collect(maxLifeTime: int, readings: seq<int>)

  function AcceptedName(user: Option<User>, passwords: Passwords): Option<string> {
    if user.Some? && IsRightUser(user.value, passwords) then Some(user.value.name) else None
  }

  ghost predicate Visits(s: Store, v: Visit, s': Store, passwords: Passwords) {
    match v
    case Login(c, user, newId, t) =>
      && !Has(s.list, newId) && Times(s.clock, t, s'.clock)
      && s'.list == AfterLogin(s.list, c, newId, AcceptedName(user, passwords), t)
    case Check(c, newId, t) =>
      && !Has(s.list, newId) && Times(s.clock, t, s'.clock)
      && s'.list == AfterCheck(s.list, c, newId, t)
    case Logout(c, newId, t, newId2, t2) =>
      && !Has(s.list, newId) && |t| == 2 && |t2| == 2 && Times(s.clock, t, t[1]) && Times(t[1], t2, s'.clock)
      && !Has(Erased(s.list, c, newId, t), newId2)
      && s'.list == AfterCheck(Erased(s.list, c, newId, t), c, newId2, t2)
    case Collect(maxLifeTime, readings) => Happens(s, Collected(maxLifeTime, readings), s')
  }

  predicate Times(clock: int, t: seq<int>, clock': int) {
    |t| == 2 && clock <= t[0] <= t[1] == clock'
  }

  // ---------------------------------------------------------------- values of sessions

  lemma {:induction false} ValuesAt(l: Entries, i: nat)
    requires DistinctIds(l) && i < |l|
    ensures IndexOf(l, l[i].sid) == i && ValuesOf(l, l[i].sid) == l[i].values
  {
  }

  lemma {:induction false} InitKeepsValues(l: Entries, sid: string, now: int, x: string)
    requires DistinctIds(l) && !Has(l, sid)
    ensures ValuesOf(Init(l, sid, now), x) == ValuesOf(l, x)
    ensures Has(Init(l, sid, now), x) <==> Has(l, x) || x == sid
    ensures DistinctIds(Init(l, sid, now))
  {
    var r := Init(l, sid, now);
    if Has(l, x) { ValuesAt(r, IndexOf(l, x)); } else if x == sid { ValuesAt(r, |l|); }
  }

  lemma {:induction false} SetValuesSets(l: Entries, sid: string, values: map<string, string>, x: string)
    requires DistinctIds(l)
    ensures ValuesOf(SetValues(l, sid, values), x) == if x == sid && Has(l, sid) then values else ValuesOf(l, x)
    ensures Has(SetValues(l, sid, values), x) <==> Has(l, x)
    ensures DistinctIds(SetValues(l, sid, values))
  {
    var r := SetValues(l, sid, values);
    assert |r| == |l| && forall i :: 0 <= i < |l| ==> r[i].sid == l[i].sid;
    if Has(l, x) { ValuesAt(r, IndexOf(l, x)); }
  }

  lemma {:induction false} WithoutLoses(l: Entries, i: nat, x: string)
    requires DistinctIds(l) && i < |l|
    ensures ValuesOf(Without(l, i), x) == if x == l[i].sid then map[] else ValuesOf(l, x)
    ensures Has(Without(l, i), x) <==> Has(l, x) && x != l[i].sid
    ensures DistinctIds(Without(l, i))
  {
    var r, k := Without(l, i), IndexOf(l, x);
    if Has(l, x) && k != i {
      var k' := if k < i then k else k - 1;
      assert r[k'] == l[k];
      ValuesAt(r, k');
    } else {
      forall j | 0 <= j < |r| ensures r[j].sid != x { assert r[j] == if j < i then l[j] else l[j + 1]; }
    }
  }

  lemma {:induction false} DestroyLoses(l: Entries, sid: string, x: string)
    requires DistinctIds(l)
    ensures ValuesOf(Destroy(l, sid), x) == if x == sid then map[] else ValuesOf(l, x)
    ensures Has(Destroy(l, sid), x) <==> Has(l, x) && x != sid
    ensures DistinctIds(Destroy(l, sid))
  {
    if Has(l, sid) { WithoutLoses(l, IndexOf(l, sid), x); }
  }

  lemma {:induction false} UpdateKeepsValues(l: Entries, sid: string, now: int, x: string)
    requires DistinctIds(l)
    ensures ValuesOf(Update(l, sid, now), x) == ValuesOf(l, x)
    ensures Has(Update(l, sid, now), x) <==> Has(l, x)
    ensures DistinctIds(Update(l, sid, now))
  {
    var i := IndexOf(l, sid);
    if i < |l| {
      var e, rest := l[i].(accessed := now, touched := true), Without(l, i);
      WithoutLoses(l, i, x);
      WithoutLoses(l, i, sid);
      FrontAdds(rest, e, x);
    }
  }

  lemma {:induction false} FrontAdds(l: Entries, e: Entry, x: string)
    requires DistinctIds(l) && !Has(l, e.sid)
    ensures ValuesOf([e] + l, x) == if x == e.sid then e.values else ValuesOf(l, x)
    ensures Has([e] + l, x) <==> x == e.sid || Has(l, x)
    ensures DistinctIds([e] + l)
  {
    assert ([e] + l)[1..] == l;
    assert forall i :: 1 <= i < |l| + 1 ==> ([e] + l)[i] == l[i - 1];
  }

  lemma {:induction false} OpenedKeepsValues(l: Entries, c: Cookie, newId: string, now: int, x: string)
    requires DistinctIds(l) && !Has(l, newId)
    ensures ValuesOf(Opened(l, c, newId, now), x) == ValuesOf(l, x)
    ensures Has(Opened(l, c, newId, now), x) <==> Has(l, x) || x == Sid(c, newId)
    ensures DistinctIds(Opened(l, c, newId, now))
  {
    if !(Has(l, Sid(c, newId)) && !Blank(c)) { InitKeepsValues(l, Sid(c, newId), now, x); }
  }

  lemma {:induction false} WriteIn(l: Entries, c: Cookie, newId: string, values: map<string, string>, t: seq<int>,
      x: string)
    requires DistinctIds(l) && !Has(l, newId) && |t| == 2
    ensures var sid := Sid(c, newId);
            var r := Update(SetValues(Opened(l, c, newId, t[0]), sid, values), sid, t[1]);
            && ValuesOf(r, x) == (if x == sid then values else ValuesOf(l, x))
            && (Has(r, x) <==> Has(l, x) || x == sid)
            && DistinctIds(r)
  {
    var sid := Sid(c, newId);
    OpenedKeepsValues(l, c, newId, t[0], x);
    OpenedKeepsValues(l, c, newId, t[0], sid);
    var l1 := Opened(l, c, newId, t[0]);
    SetValuesSets(l1, sid, values, x);
    UpdateKeepsValues(SetValues(l1, sid, values), sid, t[1], x);
  }

  lemma {:induction false} LoginSets(l: Entries, c: Cookie, newId: string, name: Option<string>, t: seq<int>, x: string)
    requires DistinctIds(l) && !Has(l, newId) && |t| == 2
    ensures var r := AfterLogin(l, c, newId, name, t);
            && DistinctIds(r)
            && (Has(r, x) <==> Has(l, x) || x == Sid(c, newId))
            && ValuesOf(r, x) ==
                 if name.Some? && x == Sid(c, newId) then ValuesOf(l, x)[USERNAME := name.value] else ValuesOf(l, x)
  {
    var sid, l1 := Sid(c, newId), Opened(l, c, newId, t[0]);
    OpenedKeepsValues(l, c, newId, t[0], x);
    OpenedKeepsValues(l, c, newId, t[0], sid);
    if name.Some? { WriteIn(l, c, newId, ValuesOf(l1, sid)[USERNAME := name.value], t, x); }
  }

  lemma {:induction false} CheckChangesNothing(l: Entries, c: Cookie, newId: string, t: seq<int>, x: string)
    requires DistinctIds(l) && !Has(l, newId) && |t| == 2
    ensures DistinctIds(AfterCheck(l, c, newId, t)) && ValuesOf(AfterCheck(l, c, newId, t), x) == ValuesOf(l, x)
  {
    OpenedKeepsValues(l, c, newId, t[0], x);
    UpdateKeepsValues(Opened(l, c, newId, t[0]), Sid(c, newId), t[1], x);
  }

  lemma {:induction false} ErasedForgets(l: Entries, c: Cookie, newId: string, t: seq<int>, x: string)
    requires DistinctIds(l) && !Has(l, newId) && |t| == 2
    ensures var r := Erased(l, c, newId, t);
            && DistinctIds(r)
            && (Has(r, x) ==> Has(l, x) || x == Sid(c, newId))
            && (x == Sid(c, newId) || (!Blank(c) && x == c.raw) ==> !LoggedIn(r, x))
            && (x != Sid(c, newId) && !(!Blank(c) && x == c.raw) ==> ValuesOf(r, x) == ValuesOf(l, x))
  {
    var sid, l1 := Sid(c, newId), Opened(l, c, newId, t[0]);
    var values := ValuesOf(l1, sid) - {USERNAME};
    WriteIn(l, c, newId, values, t, x);
    var l2 := Update(SetValues(l1, sid, values), sid, t[1]);
    if !Blank(c) { DestroyLoses(l2, c.raw, x); }
  }

  lemma {:induction false} CollectedKeepOrLose(l: Entries, maxLifeTime: int, readings: seq<int>, r: Entries, x: string)
    requires DistinctIds(l) && Collects(l, maxLifeTime, readings, r)
    ensures DistinctIds(r) && (Has(r, x) ==> Has(l, x))
    ensures ValuesOf(r, x) == if Has(r, x) then ValuesOf(l, x) else map[]
  {
    if Has(r, x) {
      var i := IndexOf(r, x);
      assert r[i] == l[i];
      ValuesAt(l, i);
      ValuesAt(r, i);
    }
  }

  // ---------------------------------------------------------------- the list under visits

  lemma {:induction false} OpenedKeepsSound(s: Store, c: Cookie, newId: string, now: int)
    requires StoreSound(s) && s.clock <= now && !Has(s.list, newId)
    ensures StoreSound(Store(Opened(s.list, c, newId, now), now))
  {
    InitKeeps(s.list, s.clock, Sid(c, newId), now);
  }

  lemma {:induction false} UseKeepsSound(s: Store, sid: string, now: int)
    requires StoreSound(s) && s.clock <= now
    ensures StoreSound(Store(Update(s.list, sid, now), now))
  {
    UpdateKeeps(s.list, s.clock, sid, now);
  }

  lemma {:induction false} WriteKeepsSound(s: Store, sid: string, values: map<string, string>, now: int)
    requires StoreSound(s) && s.clock <= now
    ensures StoreSound(Store(Update(SetValues(s.list, sid, values), sid, now), now))
  {
    var w := Store(SetValues(s.list, sid, values), s.clock);
    EventKeepsSound(s, Written(sid, values), w);
    UseKeepsSound(w, sid, now);
  }

  lemma {:induction false} CheckKeepsSound(s: Store, c: Cookie, newId: string, t: seq<int>)
    requires StoreSound(s) && !Has(s.list, newId) && |t| == 2 && Times(s.clock, t, t[1])
    ensures StoreSound(Store(AfterCheck(s.list, c, newId, t), t[1]))
  {
    hide StoreSound;
    OpenedKeepsSound(s, c, newId, t[0]);
    UseKeepsSound(Store(Opened(s.list, c, newId, t[0]), t[0]), Sid(c, newId), t[1]);
  }

  lemma {:induction false} LoginKeepsSound(s: Store, c: Cookie, newId: string, name: Option<string>, t: seq<int>)
    requires StoreSound(s) && !Has(s.list, newId) && |t| == 2 && Times(s.clock, t, t[1])
    ensures StoreSound(Store(AfterLogin(s.list, c, newId, name, t), t[1]))
  {
    var sid, s1 := Sid(c, newId), Store(Opened(s.list, c, newId, t[0]), t[0]);
    OpenedKeepsSound(s, c, newId, t[0]);
    if name.Some? { WriteKeepsSound(s1, sid, ValuesOf(s1.list, sid)[USERNAME := name.value], t[1]); }
  }

  lemma {:induction false} ErasedKeepsSound(s: Store, c: Cookie, newId: string, t: seq<int>)
    requires StoreSound(s) && !Has(s.list, newId) && |t| == 2 && Times(s.clock, t, t[1])
    ensures StoreSound(Store(Erased(s.list, c, newId, t), t[1]))
  {
    hide StoreSound;
    var sid, s1 := Sid(c, newId), Store(Opened(s.list, c, newId, t[0]), t[0]);
    OpenedKeepsSound(s, c, newId, t[0]);
    var values := ValuesOf(s1.list, sid) - {USERNAME};
    WriteKeepsSound(s1, sid, values, t[1]);
    var s2 := Store(Update(SetValues(s1.list, sid, values), sid, t[1]), t[1]);
    if !Blank(c) { EventKeepsSound(s2, Destroyed(c.raw), Store(Destroy(s2.list, c.raw), t[1])); }
  }

  /** Visits keep the ids distinct and the list in its two parts, so that a collection among
      them is all or nothing. */
  lemma {:induction false} VisitKeepsSound(s: Store, v: Visit, s': Store, passwords: Passwords)
    requires StoreSound(s) && Visits(s, v, s', passwords)
    ensures StoreSound(s')
  {
    hide StoreSound;
    match v
    case Login(c, user, newId, t) =>
      LoginKeepsSound(s, c, newId, AcceptedName(user, passwords), t);
    case Check(c, newId, t) =>
      CheckKeepsSound(s, c, newId, t);
    case Logout(c, newId, t, newId2, t2) =>
      ErasedKeepsSound(s, c, newId, t);
      CheckKeepsSound(Store(Erased(s.list, c, newId, t), t[1]), c, newId2, t2);
    case Collect(maxLifeTime, readings) =>
      EventKeepsSound(s, Collected(maxLifeTime, readings), s');
  }

  // ---------------------------------------------------------------- who is logged in

  /** A login that is let in, on this session. */
  predicate Succeeds(v: Visit, sid: string, passwords: Passwords) {
    v.Login? && AcceptedName(v.user, passwords).Some? && Sid(v.cookie, v.newId) == sid
  }

  /** What ends a login: a logout on the session, or a collection that removes it. With `raw`,
      also a logout whose raw cookie value is the id of the session. */
  predicate Ends(s: Store, v: Visit, s': Store, sid: string, raw: bool) {
    || (v.Logout? && (Sid(v.cookie, v.newId) == sid || (raw && !Blank(v.cookie) && v.cookie.raw == sid)))
    || (v.Collect? && Has(s.list, sid) && !Has(s'.list, sid))
  }

  lemma {:induction false} VisitDecides(s: Store, v: Visit, s': Store, sid: string, passwords: Passwords)
    requires DistinctIds(s.list) && Visits(s, v, s', passwords)
    ensures DistinctIds(s'.list)
    ensures LoggedIn(s'.list, sid) <==>
              Succeeds(v, sid, passwords) || (LoggedIn(s.list, sid) && !Ends(s, v, s', sid, true))
  {
    match v
    case Login(c, user, newId, t) =>
      LoginSets(s.list, c, newId, AcceptedName(user, passwords), t, sid);
    case Check(c, newId, t) =>
      CheckChangesNothing(s.list, c, newId, t, sid);
    case Logout(c, newId, t, newId2, t2) =>
      ErasedForgets(s.list, c, newId, t, sid);
      CheckChangesNothing(Erased(s.list, c, newId, t), c, newId2, t2, sid);
    case Collect(maxLifeTime, readings) =>
      CollectedKeepOrLose(s.list, maxLifeTime, readings, s'.list, sid);
  }

  ghost predicate IsSession(stores: seq<Store>, visits: seq<Visit>, passwords: Passwords) {
    && |stores| == |visits| + 1
    && stores[0].list == []
    && forall i :: 0 <= i < |visits| ==> Visits(stores[i], visits[i], stores[i + 1], passwords)
  }

  /** Some successful login, and nothing later that ends it. */
  ghost predicate LoginStands(stores: seq<Store>, visits: seq<Visit>, n: nat, sid: string, passwords: Passwords,
      raw: bool)
    requires |stores| == |visits| + 1 && n <= |visits|
  {
    exists i :: 0 <= i < n && Succeeds(visits[i], sid, passwords) && NotEnded(stores, visits, i + 1, n, sid, raw)
  }

  ghost predicate NotEnded(stores: seq<Store>, visits: seq<Visit>, lo: nat, hi: nat, sid: string, raw: bool)
    requires |stores| == |visits| + 1 && hi <= |visits|
  {
    forall j :: lo <= j < hi ==> !Ends(stores[j], visits[j], stores[j + 1], sid, raw)
  }

  /** After any visits whatsoever, a session is logged in exactly when some successful login on
      it has not been ended since. */
  lemma {:induction false} LoggedInMeansLoginStands(stores: seq<Store>, visits: seq<Visit>, n: nat, sid: string,
      passwords: Passwords)
    requires IsSession(stores, visits, passwords) && n <= |visits|
    ensures DistinctIds(stores[n].list)
    ensures LoggedIn(stores[n].list, sid) <==> LoginStands(stores, visits, n, sid, passwords, true)
    decreases n
  {
    if n > 0 {
      var m := n - 1;
      LoggedInMeansLoginStands(stores, visits, m, sid, passwords);
      VisitDecides(stores[m], visits[m], stores[n], sid, passwords);
      StandsStep(stores, visits, m, sid, passwords, true);
    }
  }

  lemma {:induction false} StandsStep(stores: seq<Store>, visits: seq<Visit>, m: nat, sid: string,
      passwords: Passwords, raw: bool)
    requires |stores| == |visits| + 1 && m < |visits|
    ensures LoginStands(stores, visits, m + 1, sid, passwords, raw) <==>
              Succeeds(visits[m], sid, passwords)
              || (LoginStands(stores, visits, m, sid, passwords, raw)
                  && !Ends(stores[m], visits[m], stores[m + 1], sid, raw))
  {
    if Succeeds(visits[m], sid, passwords) {
      assert NotEnded(stores, visits, m + 1, m + 1, sid, raw);
    }
    if LoginStands(stores, visits, m, sid, passwords, raw) && !Ends(stores[m], visits[m], stores[m + 1], sid, raw) {
      var i :| 0 <= i < m && Succeeds(visits[i], sid, passwords) && NotEnded(stores, visits, i + 1, m, sid, raw);
      assert NotEnded(stores, visits, i + 1, m + 1, sid, raw);
    }
    if LoginStands(stores, visits, m + 1, sid, passwords, raw) && !Succeeds(visits[m], sid, passwords) {
      var i :| 0 <= i < m + 1 && Succeeds(visits[i], sid, passwords)
          && NotEnded(stores, visits, i + 1, m + 1, sid, raw);
      assert NotEnded(stores, visits, i + 1, m, sid, raw);
    }
  }

  /** The logout destroys a logged-in session under the raw value of its cookie, while the
      cookie stands for another id. */
  predicate RawHits(s: Store, v: Visit) {
    v.Logout? && !Blank(v.cookie) && v.cookie.raw != v.cookie.decoded && LoggedIn(s.list, v.cookie.raw)
  }

  /** Logins end only by logouts on their own session and by collections ... */
  ghost predicate OnlyOwnLogouts(stores: seq<Store>, visits: seq<Visit>, n: nat, passwords: Passwords)
    requires |stores| == |visits| + 1 && n <= |visits|
  {
    forall sid :: LoggedIn(stores[n].list, sid) <==> LoginStands(stores, visits, n, sid, passwords, false)
  }

  lemma {:induction false} OwnLogoutStep(stores: seq<Store>, visits: seq<Visit>, m: nat, passwords: Passwords)
    requires IsSession(stores, visits, passwords) && m < |visits|
    requires DistinctIds(stores[m].list) && OnlyOwnLogouts(stores, visits, m, passwords)
    ensures OnlyOwnLogouts(stores, visits, m + 1, passwords) <==> !RawHits(stores[m], visits[m])
  {
    forall sid ensures LoggedIn(stores[m + 1].list, sid) <==>
                         (Succeeds(visits[m], sid, passwords)
                          || (LoggedIn(stores[m].list, sid) && !Ends(stores[m], visits[m], stores[m + 1], sid, true)))
               ensures LoginStands(stores, visits, m + 1, sid, passwords, false) <==>
                         (Succeeds(visits[m], sid, passwords)
                          || (LoggedIn(stores[m].list, sid) && !Ends(stores[m], visits[m], stores[m + 1], sid, false)))
    {
      VisitDecides(stores[m], visits[m], stores[m + 1], sid, passwords);
      StandsStep(stores, visits, m, sid, passwords, false);
    }
    if RawHits(stores[m], visits[m]) {
      var sid := visits[m].cookie.raw;
      assert LoggedIn(stores[m].list, sid) && Ends(stores[m], visits[m], stores[m + 1], sid, true);
    }
  }

  /** ... exactly in the runs where no logout's raw cookie value hits another login. */
  lemma {:induction false} OnlyOwnLogoutsUnlessRawHits(stores: seq<Store>, visits: seq<Visit>, n: nat,
      passwords: Passwords)
    requires IsSession(stores, visits, passwords) && n <= |visits|
    ensures (forall k :: 0 <= k <= n ==> OnlyOwnLogouts(stores, visits, k, passwords)) <==>
            (forall m :: 0 <= m < n ==> !RawHits(stores[m], visits[m]))
    decreases n
  {
    if n == 0 {
      assert OnlyOwnLogouts(stores, visits, 0, passwords);
    } else {
      var m := n - 1;
      OnlyOwnLogoutsUnlessRawHits(stores, visits, m, passwords);
      LoggedInMeansLoginStands(stores, visits, m, "", passwords);
      if forall k :: 0 <= k <= m ==> OnlyOwnLogouts(stores, visits, k, passwords) {
        assert OnlyOwnLogouts(stores, visits, m, passwords);
        OwnLogoutStep(stores, visits, m, passwords);
      }
    }
  }

  lemma {:induction false} VisitsKeepSound(stores: seq<Store>, visits: seq<Visit>, n: nat, passwords: Passwords)
    requires IsSession(stores, visits, passwords) && n <= |visits|
    ensures StoreSound(stores[n])
    decreases n
  {
    if n > 0 {
      hide Visits, StoreSound;
      VisitsKeepSound(stores, visits, n - 1, passwords);
      VisitKeepsSound(stores[n - 1], visits[n - 1], stores[n], passwords);
    }
  }

  /** Wherever visits have led, a collection removes nothing or exactly the sessions that are
      expired at its last reading of the clock. */
  lemma {:induction false} VisitedCollection(stores: seq<Store>, visits: seq<Visit>, n: nat, maxLifeTime: int,
      readings: seq<int>, passwords: Passwords)
    requires IsSession(stores, visits, passwords) && n < |visits| && visits[n] == Collect(maxLifeTime, readings)
    ensures var l := stores[n].list;
            stores[n + 1].list == if l == [] || !Expired(l[|l| - 1], maxLifeTime, readings[0]) then l
                                  else Live(l, maxLifeTime, readings[|readings| - 1])
  {
    VisitsKeepSound(stores, visits, n, passwords);
    assert Visits(stores[n], visits[n], stores[n + 1], passwords);
    SoundCollection(stores[n], maxLifeTime, readings, stores[n + 1]);
  }

  /** A login that is turned down changes nobody's login, not even that of its own session. */
  lemma {:induction false} FailedLoginChangesNothing(s: Store, v: Visit, s': Store, sid: string, passwords: Passwords)
    requires DistinctIds(s.list) && Visits(s, v, s', passwords)
    requires v.Login? && AcceptedName(v.user, passwords).None?
    ensures ValuesOf(s'.list, sid) == ValuesOf(s.list, sid)
  {
    LoginSets(s.list, v.cookie, v.newId, None, v.times, sid);
  }

  /** A logout always reports success: the same request is not logged in afterwards, whether
      or not a session went by its raw cookie value, and whether or not it has a cookie; and so
      it stays for any later request with that cookie. */
  lemma {:induction false} LogoutLogsOut(s: Store, v: Visit, s': Store, passwords: Passwords, newId3: string, now: int)
    requires DistinctIds(s.list) && Visits(s, v, s', passwords) && v.Logout?
    requires !Has(s'.list, newId3)
    ensures !LoggedIn(s'.list, Sid(v.cookie, v.newId2))
    ensures !LoggedIn(Opened(s'.list, v.cookie, newId3, now), Sid(v.cookie, newId3))
  {
    var l := Erased(s.list, v.cookie, v.newId, v.times);
    ErasedForgets(s.list, v.cookie, v.newId, v.times, Sid(v.cookie, v.newId2));
    CheckChangesNothing(l, v.cookie, v.newId2, v.times2, Sid(v.cookie, v.newId2));
    OpenedKeepsValues(s'.list, v.cookie, newId3, now, Sid(v.cookie, newId3));
  }

  /** A logout can end the login of a session it is not about: the one whose id is the raw
      value of its cookie. Here `sid` is this raw value, `other` what it stands for, and
      `escaped` the raw value of the cookie that stands for `sid`. Had only logouts on the
      session itself ended a login, it would still be logged in. */
  lemma {:induction false} RawCookieLogsOutAnother(passwords: Passwords, user: User, sid: string, other: string,
      newId: string, escaped: string)
    returns (stores: seq<Store>, visits: seq<Visit>)
    requires IsRightUser(user, passwords) && sid != other && sid != "" && escaped != ""
    requires newId != sid && newId != other
    ensures IsSession(stores, visits, passwords) && |visits| == 2
    ensures visits[0].Login? && visits[0].cookie == Present(escaped, sid)
    ensures Succeeds(visits[0], sid, passwords) && LoggedIn(stores[1].list, sid)
    ensures visits[1].Logout? && visits[1].cookie == Present(sid, other) && !LoggedIn(stores[2].list, sid)
  {
    var c, d, name, t := Present(escaped, sid), Present(sid, other), AcceptedName(Some(user), passwords), [0, 0];
    var l1 := AfterLogin([], c, newId, name, t);
    LoginSets([], c, newId, name, t, sid);
    LoginSets([], c, newId, name, t, newId);
    var l2 := Erased(l1, d, newId, t);
    ErasedForgets(l1, d, newId, t, newId);
    var s0, s1, s2 := Store([], 0), Store(l1, 0), Store(AfterCheck(l2, d, newId, t), 0);
    visits, stores := [Login(c, Some(user), newId, t), Logout(d, newId, t, newId, t)], [s0, s1, s2];
    VisitDecides(s0, visits[0], s1, sid, passwords);
    VisitDecides(s1, visits[1], s2, sid, passwords);
  }

  /** For instance: the cookie "k%253D" stands for "k%3D" and logs this session in, and a logout
      with the cookie "k%3D", which stands for "k=", destroys it. */
  lemma {:induction false} EscapedIdIsLoggedOut(passwords: Passwords, user: User, newId: string)
    returns (stores: seq<Store>, visits: seq<Visit>)
    requires IsRightUser(user, passwords) && newId != "k%3D" && newId != "k="
    ensures IsSession(stores, visits, passwords) && |visits| == 2
    ensures visits[0].Login? && visits[0].cookie == Present("k%253D", "k%3D") && LoggedIn(stores[1].list, "k%3D")
    ensures visits[1].Logout? && visits[1].cookie == Present("k%3D", "k=") && !LoggedIn(stores[2].list, "k%3D")
  {
    hide IsSession, Succeeds, LoggedIn;
    assert "k%3D"[1] == '%' && "k="[1] == '=';
    stores, visits := RawCookieLogsOutAnother(passwords, user, "k%3D", "k=", newId, "k%253D");
  }

  // ---------------------------------------------------------------- how long a session lives

  lemma {:induction false} OpenedTimes(l: Entries, c: Cookie, newId: string, now: int, x: string)
    requires DistinctIds(l) && !Has(l, newId)
    ensures AccessOf(Opened(l, c, newId, now), x)
         == if x == Sid(c, newId) && !Has(l, x) then Some(now) else AccessOf(l, x)
  {
    if !(Has(l, Sid(c, newId)) && !Blank(c)) { InitTimes(l, Sid(c, newId), now, x); }
  }

  lemma {:induction false} WriteTimes(l: Entries, c: Cookie, newId: string, values: map<string, string>, t: seq<int>,
      x: string)
    requires DistinctIds(l) && !Has(l, newId) && |t| == 2
    ensures var sid := Sid(c, newId);
            AccessOf(Update(SetValues(Opened(l, c, newId, t[0]), sid, values), sid, t[1]), x)
            == if x == sid then Some(t[1]) else AccessOf(l, x)
  {
    hide Init, SetValues, Update;
    var sid, l1 := Sid(c, newId), Opened(l, c, newId, t[0]);
    OpenedKeepsValues(l, c, newId, t[0], sid);
    OpenedTimes(l, c, newId, t[0], x);
    SetValuesSets(l1, sid, values, sid);
    SetValuesTimes(l1, sid, values, x);
    UpdateTimes(SetValues(l1, sid, values), sid, t[1], x);
  }

  lemma {:induction false} CheckTimes(l: Entries, c: Cookie, newId: string, t: seq<int>, x: string)
    requires DistinctIds(l) && !Has(l, newId) && |t| == 2
    ensures AccessOf(AfterCheck(l, c, newId, t), x) == if x == Sid(c, newId) then Some(t[1]) else AccessOf(l, x)
  {
    hide Init, Update;
    OpenedKeepsValues(l, c, newId, t[0], Sid(c, newId));
    OpenedTimes(l, c, newId, t[0], x);
    UpdateTimes(Opened(l, c, newId, t[0]), Sid(c, newId), t[1], x);
  }

  lemma {:induction false} ErasedTimes(l: Entries, c: Cookie, newId: string, t: seq<int>, x: string)
    requires DistinctIds(l) && !Has(l, newId) && |t| == 2
    ensures DistinctIds(Erased(l, c, newId, t))
    ensures AccessOf(Erased(l, c, newId, t), x)
         == if !Blank(c) && x == c.raw then None else if x == Sid(c, newId) then Some(t[1]) else AccessOf(l, x)
  {
    hide Init, SetValues, Update, Destroy;
    var sid, l1 := Sid(c, newId), Opened(l, c, newId, t[0]);
    var values := ValuesOf(l1, sid) - {USERNAME};
    WriteTimes(l, c, newId, values, t, x);
    WriteIn(l, c, newId, values, t, x);
    if !Blank(c) { DestroyTimes(Update(SetValues(l1, sid, values), sid, t[1]), c.raw, x); }
  }

  /** The time at which a visit creates a session or last uses it, if it does. A login that is
      turned down creates the session of its cookie but does not use it. */
  function TouchTime(s: Store, v: Visit, sid: string, passwords: Passwords): Option<int> {
    match v
    case Login(c, user, newId, t) =>
      if Sid(c, newId) != sid || |t| != 2 then None
      else if AcceptedName(user, passwords).Some? then Some(t[1])
      else if !Has(s.list, sid) then Some(t[0]) else None
    case Check(c, newId, t) => if Sid(c, newId) == sid && |t| == 2 then Some(t[1]) else None
    case Logout(c, newId, t, newId2, t2) =>
      if |t| != 2 || |t2| != 2 then None
      else if Sid(c, newId2) == sid then Some(t2[1])
      else if Sid(c, newId) == sid then Some(t[1]) else None
    case Collect(_, _) => None
  }

  /** The visit destroys the session: a logout whose raw cookie value is its id, while the cookie
      stands for another. */
  predicate DestroysSession(v: Visit, sid: string) {
    v.Logout? && !Blank(v.cookie) && v.cookie.raw == sid && v.cookie.decoded != sid
  }

  lemma {:induction false} VisitDecidesTime(s: Store, v: Visit, s': Store, sid: string, passwords: Passwords)
    requires StoreSound(s) && Visits(s, v, s', passwords)
    ensures AccessOf(s'.list, sid) ==
              if TouchTime(s, v, sid, passwords).Some? then TouchTime(s, v, sid, passwords)
              else if DestroysSession(v, sid) then None
              else if v.Collect? && BackTooOld(s.list, v.maxLifeTime, v.readings) && AccessOf(s.list, sid).Some?
                      && TooOld(AccessOf(s.list, sid).value, v.maxLifeTime, v.readings[|v.readings| - 1]) then None
              else AccessOf(s.list, sid)
  {
    hide Opened, Update, Destroy, SetValues, TwoParts, Collects;
    match v
    case Login(c, user, newId, t) =>
      LoginTimes(s.list, c, newId, AcceptedName(user, passwords), t, sid);
    case Check(c, newId, t) =>
      CheckTimes(s.list, c, newId, t, sid);
    case Logout(c, newId, t, newId2, t2) =>
      ErasedTimes(s.list, c, newId, t, sid);
      ErasedTimes(s.list, c, newId, t, newId2);
      CheckTimes(Erased(s.list, c, newId, t), c, newId2, t2, sid);
    case Collect(maxLifeTime, readings) =>
      CollectionDecidesTime(s, maxLifeTime, readings, s', sid);
  }

  lemma {:induction false} LoginTimes(l: Entries, c: Cookie, newId: string, name: Option<string>, t: seq<int>,
      x: string)
    requires DistinctIds(l) && !Has(l, newId) && |t| == 2
    ensures AccessOf(AfterLogin(l, c, newId, name, t), x) ==
              if x != Sid(c, newId) then AccessOf(l, x)
              else if name.Some? then Some(t[1])
              else if Has(l, x) then AccessOf(l, x) else Some(t[0])
  {
    hide Opened, Update, SetValues;
    var sid, l1 := Sid(c, newId), Opened(l, c, newId, t[0]);
    OpenedTimes(l, c, newId, t[0], x);
    if name.Some? { WriteTimes(l, c, newId, ValuesOf(l1, sid)[USERNAME := name.value], t, x); }
  }

  /** No time is ahead of the clock, so a later touch has a later time. */
  lemma {:induction false} TouchIsLater(s: Store, v: Visit, s': Store, sid: string, passwords: Passwords)
    requires StoreSound(s) && Visits(s, v, s', passwords) && Has(s.list, sid) && TouchTime(s, v, sid, passwords).Some?
    ensures TouchTime(s, v, sid, passwords).value >= AccessOf(s.list, sid).value
  {
    hide AfterLogin, AfterCheck, Erased;
  }

  /** A session in use lives, whatever the visits: one that a visit created or used at time `t`,
      and that no later logout destroyed under its raw cookie value, is still there after any
      collections whose last reading of the clock is not too late for it. */
  lemma {:induction false} VisitedSessionsSurvive(stores: seq<Store>, visits: seq<Visit>, j: nat, n: nat, sid: string,
      t: int, passwords: Passwords)
    requires IsSession(stores, visits, passwords) && j < n <= |visits|
    requires TouchTime(stores[j], visits[j], sid, passwords) == Some(t)
    requires forall k :: j < k < n ==> !DestroysSession(visits[k], sid)
    requires forall k :: j < k < n && visits[k].Collect? && visits[k].readings != [] ==>
               var u := visits[k].readings[|visits[k].readings| - 1];
               t / 1_000_000_000 + visits[k].maxLifeTime >= u / 1_000_000_000
    ensures Has(stores[n].list, sid) && AccessOf(stores[n].list, sid).value >= t
    decreases n
  {
    hide Visits, StoreSound, TouchTime;
    var m := n - 1;
    VisitsKeepSound(stores, visits, m, passwords);
    assert Visits(stores[m], visits[m], stores[n], passwords);
    VisitDecidesTime(stores[m], visits[m], stores[n], sid, passwords);
    if j < m {
      VisitedSessionsSurvive(stores, visits, j, m, sid, t, passwords);
      if TouchTime(stores[m], visits[m], sid, passwords).Some? {
        TouchIsLater(stores[m], visits[m], stores[n], sid, passwords);
      }
    }
  }

  ghost predicate IsLastTouch(stores: seq<Store>, visits: seq<Visit>, n: nat, sid: string, j: nat, t: int,
      passwords: Passwords)
    requires n <= |visits| < |stores|
  {
    && j < n && TouchTime(stores[j], visits[j], sid, passwords) == Some(t)
    && forall k :: j < k < n ==> TouchTime(stores[k], visits[k], sid, passwords) == None
  }

  lemma {:induction false} TimeIsOfLastTouch(stores: seq<Store>, visits: seq<Visit>, n: nat, sid: string, j: nat,
      t: int, passwords: Passwords)
    requires IsSession(stores, visits, passwords) && n <= |visits| && Has(stores[n].list, sid)
    requires IsLastTouch(stores, visits, n, sid, j, t, passwords)
    ensures AccessOf(stores[n].list, sid) == Some(t)
    decreases n
  {
    hide Visits, StoreSound, TouchTime;
    var m := n - 1;
    VisitsKeepSound(stores, visits, m, passwords);
    assert Visits(stores[m], visits[m], stores[n], passwords);
    VisitDecidesTime(stores[m], visits[m], stores[n], sid, passwords);
    if j < m { TimeIsOfLastTouch(stores, visits, m, sid, j, t, passwords); }
  }

  /** And one that is not used goes with the first collection that finds the back session too old:
      `back` is when that one was last touched, `t` when this one was. */
  lemma {:induction false} VisitedIdleSessionsGo(stores: seq<Store>, visits: seq<Visit>, n: nat, maxLifeTime: int,
      readings: seq<int>, i: nat, back: int, sid: string, j: nat, t: int, passwords: Passwords)
    requires IsSession(stores, visits, passwords) && n < |visits|
    requires visits[n] == Collect(maxLifeTime, readings) && readings != []
    requires var l := stores[n].list;
             l != [] && IsLastTouch(stores, visits, n, l[|l| - 1].sid, i, back, passwords)
    requires IsLastTouch(stores, visits, n, sid, j, t, passwords)
    requires back / 1_000_000_000 + maxLifeTime < readings[0] / 1_000_000_000
    requires t / 1_000_000_000 + maxLifeTime < readings[|readings| - 1] / 1_000_000_000
    ensures !Has(stores[n + 1].list, sid)
  {
    hide Visits, TouchTime, TwoParts;
    var l := stores[n].list;
    var b := l[|l| - 1].sid;
    VisitsKeepSound(stores, visits, n, passwords);
    AccessAt(l, |l| - 1);
    TimeIsOfLastTouch(stores, visits, n, b, i, back, passwords);
    if Has(l, sid) { TimeIsOfLastTouch(stores, visits, n, sid, j, t, passwords); }
    assert Visits(stores[n], visits[n], stores[n + 1], passwords);
    VisitDecidesTime(stores[n], visits[n], stores[n + 1], sid, passwords);
    NoTouchByCollection(stores[n], visits[n], sid, passwords);
  }

  lemma NoTouchByCollection(s: Store, v: Visit, sid: string, passwords: Passwords)
    requires v.Collect?
    ensures TouchTime(s, v, sid, passwords) == None
  {
  }

  // ---------------------------------------------------------------- who gets in

  /** The two accounts, and nobody else. */
  predicate IsAccount(user: User, passwords: Passwords) {
    user == User("adminuser1", passwords.first) || user == User("adminuser2", passwords.second)
  }

  /** Visit number `i` is a login of this user on the session. */
  predicate SentOn(v: Visit, user: User, sid: string) {
    v.Login? && v.user == Some(user) && Sid(v.cookie, v.newId) == sid
  }

  /** In every run of visits a session holds a user name if and only if one of the two accounts,
      with its own password, was sent on it by a login that has not been ended since. */
  lemma {:induction false} OnlyAccountsAreLoggedIn(stores: seq<Store>, visits: seq<Visit>, n: nat, sid: string,
      passwords: Passwords)
    requires IsSession(stores, visits, passwords) && n <= |visits|
    ensures var values := ValuesOf(stores[n].list, sid);
            ("username" in values && values["username"] != "") <==>
              exists i, user :: 0 <= i < n && SentOn(visits[i], user, sid) && IsAccount(user, passwords)
                                && NotEnded(stores, visits, i + 1, n, sid, true)
  {
    LoggedInMeansLoginStands(stores, visits, n, sid, passwords);
    hide IsSession, NotEnded;
    if LoginStands(stores, visits, n, sid, passwords, true) {
      var i :| 0 <= i < n && Succeeds(visits[i], sid, passwords) && NotEnded(stores, visits, i + 1, n, sid, true);
      assert SentOn(visits[i], visits[i].user.value, sid) && IsAccount(visits[i].user.value, passwords);
    }
    forall i, user | 0 <= i < n && SentOn(visits[i], user, sid) && IsAccount(user, passwords)
                     && NotEnded(stores, visits, i + 1, n, sid, true)
      ensures LoginStands(stores, visits, n, sid, passwords, true)
    {
      assert Succeeds(visits[i], sid, passwords);
    }
  }

  /** A login of anybody else changes the values of no session. */
  lemma {:induction false} OthersChangeNothing(s: Store, v: Visit, s': Store, sid: string, passwords: Passwords)
    requires DistinctIds(s.list) && Visits(s, v, s', passwords)
    requires v.Login? && (v.user == None || !IsAccount(v.user.value, passwords))
    ensures ValuesOf(s'.list, sid) == ValuesOf(s.list, sid)
  {
    FailedLoginChangesNothing(s, v, s', sid, passwords);
  }

  /** A login of one of the two accounts leaves its name in the session. */
  lemma {:induction false} AccountsLeaveTheirName(s: Store, v: Visit, s': Store, user: User, sid: string,
      passwords: Passwords)
    requires DistinctIds(s.list) && Visits(s, v, s', passwords) && SentOn(v, user, sid) && IsAccount(user, passwords)
    ensures ValuesOf(s'.list, sid) == ValuesOf(s.list, sid)["username" := user.name]
  {
    LoginSets(s.list, v.cookie, v.newId, Some(user.name), v.times, sid);
  }
}
