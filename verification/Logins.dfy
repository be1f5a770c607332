/** The request handlers that work on sessions: login, login test, logout. */
module Logins {
  import opened Text
  import opened SessionModel
  import opened LoginModel
  import opened Sessions
  import Handles

  const OK := 200
  const BAD_REQUEST := 400
  const FORBIDDEN := 403

  class Manager {
    const provider: SessionProvider
    const maxLifeTime: int

    constructor (maxLifeTime: int)
      ensures provider.Valid() && provider.model == [] && this.maxLifeTime == maxLifeTime
    {
      provider := new SessionProvider();
      this.maxLifeTime := maxLifeTime;
    }

    /** The session of a request. `newId` is the random id that is drawn if there is no cookie. */
    method SessionStart(c: Cookie, newId: string) returns (session: SessionStore)
      requires provider.Valid() && newId !in provider.sessions
      modifies provider.Repr, provider.clock
      ensures session.pder == provider && session.Usable() && provider.Current(session)
      ensures session.sid == if c.Absent? || c.raw == "" then newId else c.decoded
      ensures fresh(provider.Repr - old(provider.Repr))
      ensures provider.model == Opened(old(provider.model), c, newId, provider.clock.now)
      ensures old(provider.clock.now) <= provider.clock.now
    {
      provider.KeysAgree(Sid(c, newId));
      if Blank(c) {
        session := provider.SessionInit(newId);
      } else {
        session := provider.SessionRead(c.decoded);
      }
    }

    /** Looks for the raw value of the cookie. */
    method SessionDestroy(c: Cookie)
      requires provider.Valid()
      modifies provider, provider.list, provider.list.nodes
      ensures provider.Valid() && provider.Repr == old(provider.Repr)
      ensures provider.model ==
                if c.Absent? || c.raw == "" then old(provider.model) else Destroy(old(provider.model), c.raw)
    {
      if !Blank(c) {
        provider.SessionDestroy(c.raw);
      }
    }

    method GC() returns (ghost readings: seq<int>)
      requires provider.Valid()
      modifies provider, provider.list, provider.list.nodes, provider.clock
      ensures provider.Valid() && provider.Repr == old(provider.Repr)
      ensures Happens(old(provider.State()), Collected(maxLifeTime, readings), provider.State())
    {
      readings := provider.SessionGC(maxLifeTime);
    }
  }

  class MotCertApp {
    const sessions: Manager
    const passwords: Passwords

    constructor (passwords: Passwords)
      ensures sessions.provider.Valid() && sessions.provider.model == [] && this.passwords == passwords
      ensures sessions.maxLifeTime == 3600
    {
      sessions := new Manager(3600);
      this.passwords := passwords;
    }

    /** `user` is what could be read from the body of the request. */
    method PostLogin(c: Cookie, user: Option<User>, newId: string) returns (code: int, ghost t: seq<int>)
      requires sessions.provider.Valid() && newId !in sessions.provider.sessions
      modifies sessions.provider.Repr, sessions.provider.clock
      ensures sessions.provider.Valid() && fresh(sessions.provider.Repr - old(sessions.provider.Repr))
      ensures Visits(old(sessions.provider.State()), Login(c, user, newId, t), sessions.provider.State(), passwords)
      ensures code == 200 <==>
                user == Some(User("adminuser1", passwords.first)) || user == Some(User("adminuser2", passwords.second))
      ensures code == 400 <==> user == None
      ensures code in {200, 400, 403}
      ensures code != 200 ==>
                forall sid :: ValuesOf(sessions.provider.model, sid) == old(ValuesOf(sessions.provider.model, sid))
    {
      hide Visits, Update, SetValues, ValuesOf, Has;
      ghost var before := sessions.provider.State();
      sessions.provider.KeysAgree(newId);
      sessions.provider.IdsAreDistinct();
      var sess := sessions.SessionStart(c, newId);
      ghost var t0 := sessions.provider.clock.now;
      if user.None? || !IsRightUser(user.value, passwords) {
        code := if user.None? then BAD_REQUEST else FORBIDDEN;
        t := [t0, t0];
      } else {
        code := OK;
        Remember(sess, user.value.name);
        t := [t0, sessions.provider.clock.now];
      }
      LoginIsVisit(before, c, user, newId, t, sessions.provider.State(), passwords);
      LoginSpares(before, c, user, newId, t, sessions.provider.State(), passwords);
    }

    /** The session now holds the name. */
    method Remember(sess: SessionStore, name: string)
      requires sess.pder == sessions.provider && sess.Usable() && sess.pder.Current(sess)
      modifies sess.pder`model, sess.pder.issued, sess.pder.list, sess.pder.list.nodes, sess.pder.clock, sess.value
      ensures sess.Usable() && old(sess.pder.clock.now) <= sess.pder.clock.now
      ensures var l := old(sess.pder.model);
              sess.pder.model == Update(SetValues(l, sess.sid, ValuesOf(l, sess.sid)[USERNAME := name]), sess.sid,
                  sess.pder.clock.now)
    {
      sess.pder.CurrentShows(sess);
      sess.Set(USERNAME, name);
    }

    /** The session no longer holds a name. */
    method Forget(sess: SessionStore)
      requires sess.pder == sessions.provider && sess.Usable() && sess.pder.Current(sess)
      modifies sess.pder`model, sess.pder.issued, sess.pder.list, sess.pder.list.nodes, sess.pder.clock, sess.value
      ensures sess.Usable() && old(sess.pder.clock.now) <= sess.pder.clock.now
      ensures var l := old(sess.pder.model);
              sess.pder.model == Update(SetValues(l, sess.sid, ValuesOf(l, sess.sid) - {USERNAME}), sess.sid,
                  sess.pder.clock.now)
    {
      sess.pder.CurrentShows(sess);
      sess.Delete(USERNAME);
    }

    method IsLogin(c: Cookie, newId: string) returns (b: bool, ghost t: seq<int>)
      requires sessions.provider.Valid() && newId !in sessions.provider.sessions
      modifies sessions.provider.Repr, sessions.provider.clock
      ensures sessions.provider.Valid() && fresh(sessions.provider.Repr - old(sessions.provider.Repr))
      ensures Times(old(sessions.provider.clock.now), t, sessions.provider.clock.now)
      ensures Visits(old(sessions.provider.State()), Check(c, newId, t), sessions.provider.State(), passwords)
      ensures sessions.provider.model == AfterCheck(old(sessions.provider.model), c, newId, t)
      ensures var values := ValuesOf(sessions.provider.model, Sid(c, newId));
              b <==> "username" in values && values["username"] != ""
      ensures b <==> LoggedIn(sessions.provider.model, Sid(c, newId))
    {
      hide Visits, AfterCheck, Handles.Moves;
      ghost var before := sessions.provider.State();
      sessions.provider.KeysAgree(newId);
      var sess := sessions.SessionStart(c, newId);
      ghost var t0 := sessions.provider.clock.now;
      var currentUser := sess.Get(USERNAME);
      t := [t0, sessions.provider.clock.now];
      CheckIsVisit(before, c, newId, t, sessions.provider.State(), passwords);
      sessions.provider.CurrentShows(sess);
      b := currentUser.Some? && currentUser.value != "";
    }

    /** A logout always reports success. */
    method PostLogout(c: Cookie, newId: string, newId2: string)
      returns (code: int, ghost t: seq<int>, ghost t2: seq<int>)
      requires sessions.provider.Valid()
      requires newId !in sessions.provider.sessions && newId2 !in sessions.provider.sessions
      requires newId2 != newId && newId2 != Sid(c, newId)
      modifies sessions.provider.Repr, sessions.provider.clock
      ensures sessions.provider.Valid() && fresh(sessions.provider.Repr - old(sessions.provider.Repr))
      ensures Visits(old(sessions.provider.State()), Logout(c, newId, t, newId2, t2), sessions.provider.State(),
          passwords)
      ensures code == 200
    {
      hide Visits, AfterCheck, Erased, Handles.Moves;
      ghost var before := sessions.provider.State();
      sessions.provider.KeysAgree(newId);
      sessions.provider.KeysAgree(newId2);
      sessions.provider.IdsAreDistinct();
      t := Erase(c, newId);
      ghost var erased := sessions.provider.model;
      ErasedForgets(before.list, c, newId, t, newId2);
      sessions.provider.KeysAgree(newId2);
      var loggedIn;
      loggedIn, t2 := IsLogin(c, newId2);
      code := if loggedIn then BAD_REQUEST else OK;
      LogoutIsVisit(before, c, newId, t, newId2, t2, sessions.provider.State(), passwords);
    }

    method Erase(c: Cookie, newId: string) returns (ghost t: seq<int>)
      requires sessions.provider.Valid() && newId !in sessions.provider.sessions
      modifies sessions.provider.Repr, sessions.provider.clock
      ensures sessions.provider.Valid() && fresh(sessions.provider.Repr - old(sessions.provider.Repr))
      ensures Times(old(sessions.provider.clock.now), t, sessions.provider.clock.now)
      ensures sessions.provider.model == Erased(old(sessions.provider.model), c, newId, t)
    {
      var sess := sessions.SessionStart(c, newId);
      ghost var t0 := sessions.provider.clock.now;
      Forget(sess);
      t := [t0, sessions.provider.clock.now];
      DestroyRaw(c);
    }

    method DestroyRaw(c: Cookie)
      requires sessions.provider.Valid()
      modifies sessions.provider.Repr
      ensures sessions.provider.Valid() && sessions.provider.Repr == old(sessions.provider.Repr)
      ensures sessions.provider.model == if Blank(c) then old(sessions.provider.model)
          else Destroy(old(sessions.provider.model), c.raw)
    {
      sessions.SessionDestroy(c);
    }
  }

  lemma {:induction false} CheckIsVisit(s: Store, c: Cookie, newId: string, t: seq<int>, s': Store,
      passwords: Passwords)
    requires !Has(s.list, newId) && Times(s.clock, t, s'.clock)
    requires s'.list == Update(Opened(s.list, c, newId, t[0]), Sid(c, newId), t[1])
    ensures Visits(s, Check(c, newId, t), s', passwords) && s'.list == AfterCheck(s.list, c, newId, t)
  {
  }

  /** A login that is not one of the two accounts leaves the values of all sessions alone. */
  lemma {:induction false} LoginSpares(s: Store, c: Cookie, user: Option<User>, newId: string, t: seq<int>, s': Store,
      passwords: Passwords)
    requires DistinctIds(s.list) && Visits(s, Login(c, user, newId, t), s', passwords)
    ensures user == None || !IsAccount(user.value, passwords) ==>
              forall sid :: ValuesOf(s'.list, sid) == ValuesOf(s.list, sid)
  {
    if user == None || !IsAccount(user.value, passwords) {
      forall sid ensures ValuesOf(s'.list, sid) == ValuesOf(s.list, sid) {
        OthersChangeNothing(s, Login(c, user, newId, t), s', sid, passwords);
      }
    }
  }

  lemma {:induction false} LoginIsVisit(s: Store, c: Cookie, user: Option<User>, newId: string, t: seq<int>, s': Store,
      passwords: Passwords)
    requires !Has(s.list, newId) && Times(s.clock, t, s'.clock)
    requires var l := Opened(s.list, c, newId, t[0]);
             s'.list == match AcceptedName(user, passwords)
                        case None => l
                        case Some(name) =>
                          var values := ValuesOf(l, Sid(c, newId))[USERNAME := name];
                          Update(SetValues(l, Sid(c, newId), values), Sid(c, newId), t[1])
    ensures Visits(s, Login(c, user, newId, t), s', passwords)
  {
  }

  /** Nobody is logged in on the request afterwards, so the answer of the last test is no. */
  lemma {:induction false} LogoutIsVisit(s: Store, c: Cookie, newId: string, t: seq<int>, newId2: string, t2: seq<int>,
      s': Store, passwords: Passwords)
    requires DistinctIds(s.list) && !Has(s.list, newId) && !Has(s.list, newId2) && newId2 != Sid(c, newId)
    requires |t| == 2 && |t2| == 2 && Times(s.clock, t, t[1]) && Times(t[1], t2, s'.clock)
    requires s'.list == AfterCheck(Erased(s.list, c, newId, t), c, newId2, t2)
    ensures Visits(s, Logout(c, newId, t, newId2, t2), s', passwords)
    ensures !LoggedIn(s'.list, Sid(c, newId2))
  {
    ErasedForgets(s.list, c, newId, t, newId2);
    ErasedForgets(s.list, c, newId, t, Sid(c, newId2));
    CheckChangesNothing(Erased(s.list, c, newId, t), c, newId2, t2, Sid(c, newId2));
  }
}
