/** The session list as a value: entries from front to back, and what each operation of the
    provider makes of them. */
module SessionModel {
  import opened Text

  /** One session. `touched` records whether it was ever updated since it was created. */
  datatype Entry = Entry(sid: string, accessed: int, touched: bool, values: map<string, string>)

  type Entries = seq<Entry>

  const NANOSECONDS := 1_000_000_000

  /** Clock readings are nanoseconds; lifetimes are compared in whole seconds. */
  function Unix(t: int): int {
    t / NANOSECONDS
  }

  predicate Expired(e: Entry, maxLifeTime: int, now: int) {
    Unix(e.accessed) + maxLifeTime < Unix(now)
  }

  function IndexOf(l: Entries, sid: string): (i: nat)
    ensures i <= |l|
    ensures i < |l| ==> l[i].sid == sid
    ensures forall j :: 0 <= j < i ==> l[j].sid != sid
  {
    if l == [] || l[0].sid == sid then 0 else
    var i := IndexOf(l[1..], sid);
    assert forall j :: 1 <= j < i + 1 ==> l[j].sid == l[1..][j - 1].sid;
    i + 1
  }

  predicate Has(l: Entries, sid: string) {
    IndexOf(l, sid) < |l|
  }

  /** A new session goes to the back, ... */
  function Init(l: Entries, sid: string, now: int): Entries {
    l + [Entry(sid, now, false, map[])]
  }

  function Without(l: Entries, i: nat): Entries
    requires i < |l|
  {
    l[..i] + l[i + 1..]
  }

  function Destroy(l: Entries, sid: string): Entries {
    var i := IndexOf(l, sid);
    if i == |l| then l else Without(l, i)
  }

  /** ... and one that is used to the front. */
  function Update(l: Entries, sid: string, now: int): Entries {
    var i := IndexOf(l, sid);
    if i == |l| then l else [l[i].(accessed := now, touched := true)] + Without(l, i)
  }

  function SetValues(l: Entries, sid: string, values: map<string, string>): Entries {
    var i := IndexOf(l, sid);
    if i == |l| then l else l[i := l[i].(values := values)]
  }

  function ValuesOf(l: Entries, sid: string): map<string, string> {
    var i := IndexOf(l, sid);
    if i == |l| then map[] else l[i].values
  }

  /** A collection, reading the clock anew for each session it looks at: from the back,
      expired sessions go until one is live or none is left. */
  ghost predicate Collects(l: Entries, maxLifeTime: int, readings: seq<int>, r: Entries) {
    && |r| <= |l| && r == l[..|r|]
    && |readings| == |l| - |r| + (if r == [] then 0 else 1)
    && (forall j :: 0 <= j < |l| - |r| ==> Expired(l[|l| - 1 - j], maxLifeTime, readings[j]))
    && (r != [] ==> !Expired(r[|r| - 1], maxLifeTime, readings[|readings| - 1]))
  }

  predicate NonDecreasing(ts: seq<int>) {
    forall i, j :: 0 <= i < j < |ts| ==> ts[i] <= ts[j]
  }

  // ---------------------------------------------------------------- what every state keeps

  predicate DistinctIds(l: Entries) {
    forall i, j :: 0 <= i < j < |l| ==> l[i].sid != l[j].sid
  }

  /** Sessions in use come first, the last used foremost; behind them those never used since
      their creation, the oldest foremost. No time is ahead of the clock. */
  predicate TwoParts(l: Entries, clock: int) {
    && (forall i :: 0 <= i < |l| ==> l[i].accessed <= clock)
    && (forall i, j :: 0 <= i < j < |l| ==>
          && (l[j].touched ==> l[i].touched && l[i].accessed >= l[j].accessed)
          && (!l[i].touched ==> l[i].accessed <= l[j].accessed))
  }

  /** Where the two parts meet. */
  lemma {:induction false} PartsMeet(l: Entries, clock: int) returns (k: nat)
    requires TwoParts(l, clock)
    ensures k <= |l|
    ensures forall i :: 0 <= i < k ==> l[i].touched
    ensures forall i :: k <= i < |l| ==> !l[i].touched
    ensures forall i, j :: 0 <= i < j < k ==> l[i].accessed >= l[j].accessed
    ensures forall i, j :: k <= i < j < |l| ==> l[i].accessed <= l[j].accessed
  {
    k := 0;
    while k < |l| && l[k].touched
      invariant 0 <= k <= |l|
      invariant forall i :: 0 <= i < k ==> l[i].touched
    {
      k := k + 1;
    }
  }

  /** The states of the store and what may happen to it. */
  datatype Store = Store(list: Entries, clock: int)

  datatype Event =
    | Created(sid: string, now: int)
    | Used(sid: string, now: int)
    | Destroyed(sid: string)
    | Written(sid: string, values: map<string, string>)
    | Collected(maxLifeTime: int, readings: seq<int>)

  ghost predicate Happens(s: Store, e: Event, s': Store) {
    match e
    case Created(sid, now) => !Has(s.list, sid) && s.clock <= now && s' == Store(Init(s.list, sid, now), now)
    case Used(sid, now) => s.clock <= now && s' == Store(Update(s.list, sid, now), now)
    case Destroyed(sid) => s' == Store(Destroy(s.list, sid), s.clock)
    case Written(sid, values) => s' == Store(SetValues(s.list, sid, values), s.clock)
    case Collected(maxLifeTime, readings) =>
      && NonDecreasing([s.clock] + readings)
      && Collects(s.list, maxLifeTime, readings, s'.list)
      && s'.clock == ([s.clock] + readings)[|readings|]
  }

  ghost predicate IsHistory(stores: seq<Store>, events: seq<Event>) {
    && |stores| == |events| + 1
    && stores[0].list == []
    && forall i :: 0 <= i < |events| ==> Happens(stores[i], events[i], stores[i + 1])
  }

  ghost predicate StoreSound(s: Store) {
    DistinctIds(s.list) && TwoParts(s.list, s.clock)
  }

  lemma {:induction false} InitKeeps(l: Entries, clock: int, sid: string, now: int)
    requires DistinctIds(l) && TwoParts(l, clock) && clock <= now
    ensures TwoParts(Init(l, sid, now), now)
    ensures DistinctIds(Init(l, sid, now)) <==> !Has(l, sid)
  {
    var i := IndexOf(l, sid);
    if i < |l| {
      assert Init(l, sid, now)[i].sid == Init(l, sid, now)[|l|].sid;
    }
  }

  lemma {:induction false} WithoutKeeps(l: Entries, clock: int, i: nat)
    requires DistinctIds(l) && TwoParts(l, clock) && i < |l|
    ensures DistinctIds(Without(l, i)) && TwoParts(Without(l, i), clock)
    ensures forall k :: 0 <= k < |l| - 1 ==> Without(l, i)[k] == if k < i then l[k] else l[k + 1]
  {
  }

  lemma {:induction false} FrontKeeps(l: Entries, clock: int, e: Entry, now: int)
    requires DistinctIds(l) && TwoParts(l, clock) && clock <= now
    requires e.touched && e.accessed == now && forall i :: 0 <= i < |l| ==> l[i].sid != e.sid
    ensures DistinctIds([e] + l) && TwoParts([e] + l, now)
  {
    var r := [e] + l;
    assert forall i :: 1 <= i < |r| ==> r[i] == l[i - 1];
  }

  lemma {:induction false} UpdateKeeps(l: Entries, clock: int, sid: string, now: int)
    requires DistinctIds(l) && TwoParts(l, clock) && clock <= now
    ensures DistinctIds(Update(l, sid, now)) && TwoParts(Update(l, sid, now), now)
  {
    var i := IndexOf(l, sid);
    if i < |l| {
      WithoutKeeps(l, clock, i);
      forall k | 0 <= k < |l| - 1 ensures Without(l, i)[k].sid != sid {
        assert Without(l, i)[k] == if k < i then l[k] else l[k + 1];
      }
      FrontKeeps(Without(l, i), clock, l[i].(accessed := now, touched := true), now);
    }
  }

  /** In every reachable state the ids are distinct and the list has its two parts. */
  lemma {:induction false} EveryStoreIsSound(stores: seq<Store>, events: seq<Event>, i: nat)
    requires IsHistory(stores, events) && i < |stores|
    ensures StoreSound(stores[i])
    decreases i
  {
    if i > 0 {
      EveryStoreIsSound(stores, events, i - 1);
      EventKeepsSound(stores[i - 1], events[i - 1], stores[i]);
    }
  }

  lemma {:induction false} EventKeepsSound(s: Store, e: Event, s': Store)
    requires StoreSound(s) && Happens(s, e, s')
    ensures StoreSound(s')
  {
    match e
    case Created(sid, now) => InitKeeps(s.list, s.clock, sid, now);
    case Used(sid, now) => UpdateKeeps(s.list, s.clock, sid, now);
    case Destroyed(sid) =>
      if Has(s.list, sid) { WithoutKeeps(s.list, s.clock, IndexOf(s.list, sid)); }
    case Written(sid, values) =>
    case Collected(maxLifeTime, readings) =>
      assert ([s.clock] + readings)[0] == s.clock;
  }

  // ---------------------------------------------------------------- collection

  /** The sessions that are not expired, in their order. */
  function Live(l: Entries, maxLifeTime: int, now: int): Entries {
    if l == [] then [] else
    Live(l[..|l| - 1], maxLifeTime, now) + if Expired(l[|l| - 1], maxLifeTime, now) then [] else [l[|l| - 1]]
  }

  lemma {:induction false} LiveIsPrefix(l: Entries, m: nat, maxLifeTime: int, now: int)
    requires m <= |l|
    requires forall i :: 0 <= i < m ==> !Expired(l[i], maxLifeTime, now)
    requires forall i :: m <= i < |l| ==> Expired(l[i], maxLifeTime, now)
    ensures Live(l, maxLifeTime, now) == l[..m]
    decreases |l|
  {
    if l != [] {
      var n := |l| - 1;
      if m == |l| {
        LiveIsPrefix(l[..n], n, maxLifeTime, now);
        assert l == l[..n] + [l[n]] && l[..n][..n] == l[..n];
      } else {
        LiveIsPrefix(l[..n], m, maxLifeTime, now);
        assert l[..n][..m] == l[..m];
      }
    }
  }

  /** A session used no earlier than a live one is live, and one used no later than an expired
      one is expired; and what has expired stays so. */
  lemma ExpiryIsMonotone(e: Entry, d: Entry, maxLifeTime: int, t: int, u: int)
    requires e.accessed <= d.accessed && t <= u
    ensures Expired(d, maxLifeTime, t) ==> Expired(e, maxLifeTime, u)
  {
  }

  /** A collection is all or nothing. If the session at the back is live when it starts, or
      there is none, nothing goes; otherwise exactly the sessions that are expired at the last
      reading of the clock go, and the others keep their order. */
  lemma {:induction false} CollectionIsAllOrNothing(l: Entries, clock: int, maxLifeTime: int, readings: seq<int>,
      r: Entries)
    requires TwoParts(l, clock) && NonDecreasing(readings) && Collects(l, maxLifeTime, readings, r)
    ensures l == [] || !Expired(l[|l| - 1], maxLifeTime, readings[0]) ==> r == l
    ensures l != [] && Expired(l[|l| - 1], maxLifeTime, readings[0]) ==>
        r == Live(l, maxLifeTime, readings[|readings| - 1])
  {
    if l != [] && Expired(l[|l| - 1], maxLifeTime, readings[0]) {
      var m, last := |r|, readings[|readings| - 1];
      forall i | m <= i < |l| ensures Expired(l[i], maxLifeTime, last) {
        assert Expired(l[|l| - 1 - (|l| - 1 - i)], maxLifeTime, readings[|l| - 1 - i]);
        ExpiryIsMonotone(l[i], l[i], maxLifeTime, readings[|l| - 1 - i], last);
      }
      if m > 0 {
        if !l[m - 1].touched { ExpiryIsMonotone(l[m - 1], l[m], maxLifeTime, last, last); }
        forall i | 0 <= i < m ensures !Expired(l[i], maxLifeTime, last) {
          ExpiryIsMonotone(l[m - 1], l[i], maxLifeTime, last, last);
        }
      }
      LiveIsPrefix(l, m, maxLifeTime, last);
    }
  }

  lemma {:induction false} SoundCollection(s: Store, maxLifeTime: int, readings: seq<int>, s': Store)
    requires StoreSound(s) && Happens(s, Collected(maxLifeTime, readings), s')
    ensures s.list != [] ==> readings != []
    ensures s'.list == if s.list == [] || !Expired(s.list[|s.list| - 1], maxLifeTime, readings[0]) then s.list
                       else Live(s.list, maxLifeTime, readings[|readings| - 1])
  {
    LaterReadings(s.clock, readings);
    CollectionIsAllOrNothing(s.list, s.clock, maxLifeTime, readings, s'.list);
  }

  lemma {:induction false} LaterReadings(clock: int, readings: seq<int>)
    requires NonDecreasing([clock] + readings)
    ensures NonDecreasing(readings)
  {
    var all := [clock] + readings;
    forall i, j | 0 <= i < j < |readings| ensures readings[i] <= readings[j] {
      assert all[i + 1] == readings[i] && all[j + 1] == readings[j];
    }
  }

  /** A collection that has got from `s` to `cur` and is not over. */
  ghost predicate Collecting(s: Store, maxLifeTime: int, readings: seq<int>, cur: Store) {
    && |cur.list| <= |s.list| && cur.list == s.list[..|cur.list|] && |readings| == |s.list| - |cur.list|
    && (forall j :: 0 <= j < |readings| ==> Expired(s.list[|s.list| - 1 - j], maxLifeTime, readings[j]))
    && NonDecreasing([s.clock] + readings) && cur.clock == ([s.clock] + readings)[|readings|]
  }

  lemma {:induction false} CollectingEnds(s: Store, maxLifeTime: int, readings: seq<int>, cur: Store)
    requires Collecting(s, maxLifeTime, readings, cur) && cur.list == []
    ensures Happens(s, Collected(maxLifeTime, readings), cur)
  {
  }

  /** One more reading: the session at the back goes, or the collection is over. */
  lemma {:induction false} CollectingStep(s: Store, maxLifeTime: int, readings: seq<int>, cur: Store, now: int)
    requires Collecting(s, maxLifeTime, readings, cur) && cur.list != [] && cur.clock <= now
    ensures var n := |cur.list| - 1;
            if Expired(cur.list[n], maxLifeTime, now)
            then Collecting(s, maxLifeTime, readings + [now], Store(Without(cur.list, n), now))
            else Happens(s, Collected(maxLifeTime, readings + [now]), Store(cur.list, now))
  {
    assert [s.clock] + (readings + [now]) == ([s.clock] + readings) + [now];
    assert Without(cur.list, |cur.list| - 1) == cur.list[..|cur.list| - 1];
  }

  // ---------------------------------------------------------------- when a session was last used

  /** The time that is noted for a session, if it exists. */
  function AccessOf(l: Entries, sid: string): Option<int> {
    var i := IndexOf(l, sid);
    if i == |l| then None else Some(l[i].accessed)
  }

  lemma {:induction false} AccessAt(l: Entries, i: nat)
    requires DistinctIds(l) && i < |l|
    ensures IndexOf(l, l[i].sid) == i && AccessOf(l, l[i].sid) == Some(l[i].accessed)
  {
  }

  lemma {:induction false} InitTimes(l: Entries, sid: string, now: int, x: string)
    requires DistinctIds(l) && !Has(l, sid)
    ensures AccessOf(Init(l, sid, now), x) == if x == sid then Some(now) else AccessOf(l, x)
  {
    var r := Init(l, sid, now);
    InitKeepsIds(l, sid, now);
    if Has(l, x) { AccessAt(r, IndexOf(l, x)); } else if x == sid { AccessAt(r, |l|); }
  }

  lemma {:induction false} InitKeepsIds(l: Entries, sid: string, now: int)
    requires DistinctIds(l) && !Has(l, sid)
    ensures DistinctIds(Init(l, sid, now))
  {
  }

  lemma {:induction false} SetValuesTimes(l: Entries, sid: string, values: map<string, string>, x: string)
    requires DistinctIds(l)
    ensures DistinctIds(SetValues(l, sid, values)) && AccessOf(SetValues(l, sid, values), x) == AccessOf(l, x)
  {
    var r := SetValues(l, sid, values);
    assert |r| == |l| && forall i :: 0 <= i < |l| ==> r[i].sid == l[i].sid && r[i].accessed == l[i].accessed;
    if Has(l, x) { AccessAt(r, IndexOf(l, x)); }
  }

  lemma {:induction false} WithoutTimes(l: Entries, i: nat, x: string)
    requires DistinctIds(l) && i < |l|
    ensures DistinctIds(Without(l, i))
    ensures AccessOf(Without(l, i), x) == if x == l[i].sid then None else AccessOf(l, x)
  {
    var r, k := Without(l, i), IndexOf(l, x);
    if Has(l, x) && k != i {
      var k' := if k < i then k else k - 1;
      assert r[k'] == l[k];
      AccessAt(r, k');
    } else {
      forall j | 0 <= j < |r| ensures r[j].sid != x { assert r[j] == if j < i then l[j] else l[j + 1]; }
    }
  }

  lemma {:induction false} DestroyTimes(l: Entries, sid: string, x: string)
    requires DistinctIds(l)
    ensures DistinctIds(Destroy(l, sid)) && AccessOf(Destroy(l, sid), x) == if x == sid then None else AccessOf(l, x)
  {
    if Has(l, sid) { WithoutTimes(l, IndexOf(l, sid), x); }
  }

  lemma {:induction false} UpdateTimes(l: Entries, sid: string, now: int, x: string)
    requires DistinctIds(l)
    ensures AccessOf(Update(l, sid, now), x) == if x == sid && Has(l, sid) then Some(now) else AccessOf(l, x)
  {
    var i := IndexOf(l, sid);
    if i < |l| {
      WithoutTimes(l, i, x);
      FrontTimes(Without(l, i), l[i].(accessed := now, touched := true), x);
    }
  }

  lemma {:induction false} FrontTimes(l: Entries, e: Entry, x: string)
    ensures AccessOf([e] + l, x) == if x == e.sid then Some(e.accessed) else AccessOf(l, x)
  {
    assert ([e] + l)[1..] == l;
    assert IndexOf([e] + l, x) == if x == e.sid then 0 else IndexOf(l, x) + 1;
  }

  lemma {:induction false} CollectTimes(l: Entries, maxLifeTime: int, readings: seq<int>, r: Entries, x: string)
    requires DistinctIds(l) && Collects(l, maxLifeTime, readings, r)
    ensures AccessOf(r, x) == if Has(r, x) then AccessOf(l, x) else None
  {
    if Has(r, x) {
      var i := IndexOf(r, x);
      assert r[i] == l[i];
      AccessAt(l, i);
    }
  }

  /** Right after its use a session is the first of the list, with the time of the use; the order
      of the others stays. */
  lemma {:induction false} UsedComesFirst(s: Store, sid: string, now: int, s': Store)
    requires DistinctIds(s.list) && Happens(s, Used(sid, now), s') && Has(s.list, sid)
    ensures var l, r, i := s.list, s'.list, IndexOf(s.list, sid);
            && |r| == |l| && r[0].sid == sid && r[0].accessed == now && r[0].touched && r[0].values == l[i].values
            && r[1..] == l[..i] + l[i + 1..]
  {
  }

  /** What an event makes of the time of a session. A collection takes it away if the back
      session was last used too long before the first reading of the clock, and this one too
      long before the last; lifetimes are in whole seconds. */
  lemma {:induction false} EventDecidesTime(s: Store, e: Event, s': Store, sid: string)
    requires StoreSound(s) && Happens(s, e, s')
    ensures AccessOf(s'.list, sid) ==
            match e
            case Created(x, now) => if x == sid then Some(now) else AccessOf(s.list, sid)
            case Used(x, now) => if x == sid && AccessOf(s.list, sid).Some? then Some(now) else AccessOf(s.list, sid)
            case Destroyed(x) => if x == sid then None else AccessOf(s.list, sid)
            case Written(_, _) => AccessOf(s.list, sid)
            case Collected(maxLifeTime, readings) =>
              if BackTooOld(s.list, maxLifeTime, readings) && AccessOf(s.list, sid).Some?
                 && TooOld(AccessOf(s.list, sid).value, maxLifeTime, readings[|readings| - 1])
              then None else AccessOf(s.list, sid)
  {
    match e
    case Created(x, now) => InitTimes(s.list, x, now, sid);
    case Used(x, now) => UpdateTimes(s.list, x, now, sid);
    case Destroyed(x) => DestroyTimes(s.list, x, sid);
    case Written(x, values) => SetValuesTimes(s.list, x, values, sid);
    case Collected(maxLifeTime, readings) => CollectionDecidesTime(s, maxLifeTime, readings, s', sid);
  }

  predicate TooOld(accessed: int, maxLifeTime: int, now: int) {
    accessed / 1_000_000_000 + maxLifeTime < now / 1_000_000_000
  }

  predicate BackTooOld(l: Entries, maxLifeTime: int, readings: seq<int>) {
    l != [] && readings != [] && TooOld(l[|l| - 1].accessed, maxLifeTime, readings[0])
  }

  lemma {:induction false} CollectionDecidesTime(s: Store, maxLifeTime: int, readings: seq<int>, s': Store, sid: string)
    requires StoreSound(s) && Happens(s, Collected(maxLifeTime, readings), s')
    ensures AccessOf(s'.list, sid) ==
            if BackTooOld(s.list, maxLifeTime, readings) && AccessOf(s.list, sid).Some?
               && TooOld(AccessOf(s.list, sid).value, maxLifeTime, readings[|readings| - 1])
            then None else AccessOf(s.list, sid)
  {
    var l, r := s.list, s'.list;
    CollectTimes(l, maxLifeTime, readings, r, sid);
    SoundCollection(s, maxLifeTime, readings, s');
    if BackTooOld(l, maxLifeTime, readings) && Has(l, sid) {
      LiveHas(l, maxLifeTime, readings[|readings| - 1], sid);
    }
  }

  lemma {:induction false} LiveHas(l: Entries, maxLifeTime: int, now: int, sid: string)
    requires DistinctIds(l)
    ensures Has(Live(l, maxLifeTime, now), sid) <==> Has(l, sid) && !TooOld(AccessOf(l, sid).value, maxLifeTime, now)
    decreases |l|
  {
    if l != [] {
      var n := |l| - 1;
      var front := l[..n];
      LiveHas(front, maxLifeTime, now, sid);
      assert l == front + [l[n]];
      if Has(front, sid) { AccessAt(l, IndexOf(front, sid)); }
      if l[n].sid == sid { AccessAt(l, n); }
      HasOnConcat(Live(front, maxLifeTime, now), if Expired(l[n], maxLifeTime, now) then [] else [l[n]], sid);
      HasOnConcat(front, [l[n]], sid);
    }
  }

  lemma {:induction false} HasOnConcat(l: Entries, r: Entries, sid: string)
    ensures Has(l + r, sid) <==> Has(l, sid) || Has(r, sid)
  {
    if Has(l, sid) { assert (l + r)[IndexOf(l, sid)].sid == sid; }
    if Has(r, sid) { assert (l + r)[|l| + IndexOf(r, sid)].sid == sid; }
    if Has(l + r, sid) {
      var i := IndexOf(l + r, sid);
      if i < |l| { assert l[i].sid == sid; } else { assert r[i - |l|].sid == sid; }
    }
  }

  /** Event number `j` creates the session, or uses it while it exists, at time `t`. */
  predicate Touches(s: Store, e: Event, sid: string, t: int) {
    e == Created(sid, t) || (e == Used(sid, t) && Has(s.list, sid))
  }

  /** A session in use lives: one that was created or used at time `t` and not destroyed since is
      still there after any collections whose last reading of the clock is not too late for it. */
  lemma {:induction false} SessionsInUseSurvive(stores: seq<Store>, events: seq<Event>, j: nat, n: nat, sid: string,
      t: int)
    requires IsHistory(stores, events) && j < n <= |events| && Touches(stores[j], events[j], sid, t)
    requires forall k :: j < k < n ==> events[k] != Destroyed(sid)
    requires forall k :: j < k < n && events[k].Collected? && events[k].readings != [] ==>
               var u := events[k].readings[|events[k].readings| - 1];
               t / 1_000_000_000 + events[k].maxLifeTime >= u / 1_000_000_000
    ensures Has(stores[n].list, sid) && AccessOf(stores[n].list, sid).value >= t
    decreases n
  {
    var m := n - 1;
    EveryStoreIsSound(stores, events, m);
    EventDecidesTime(stores[m], events[m], stores[n], sid);
    if j < m {
      SessionsInUseSurvive(stores, events, j, m, sid, t);
      if events[m].Created? || events[m].Used? { LaterTime(stores[m], events[m], stores[n], sid); }
    }
  }

  lemma {:induction false} LaterTime(s: Store, e: Event, s': Store, sid: string)
    requires StoreSound(s) && Happens(s, e, s') && Has(s.list, sid) && (e.Created? || e.Used?)
    ensures e.now >= AccessOf(s.list, sid).value && (e.Created? ==> e.sid != sid)
  {
  }

  /** Event number `j` is the last before number `n` that creates the session or uses its id. */
  predicate IsLastUse(events: seq<Event>, n: nat, sid: string, j: nat)
    requires n <= |events|
  {
    && j < n && IsUse(events[j], sid)
    && forall k :: j < k < n ==> !IsUse(events[k], sid)
  }

  predicate IsUse(e: Event, sid: string) {
    (e.Created? || e.Used?) && e.sid == sid
  }

  /** The time noted for a session is that of its last use. */
  lemma {:induction false} TimeIsOfLastUse(stores: seq<Store>, events: seq<Event>, n: nat, sid: string) returns (j: nat)
    requires IsHistory(stores, events) && n <= |events| && Has(stores[n].list, sid)
    ensures IsLastUse(events, n, sid, j) && AccessOf(stores[n].list, sid) == Some(events[j].now)
    decreases n
  {
    assert n > 0;
    var m := n - 1;
    EveryStoreIsSound(stores, events, m);
    EventDecidesTime(stores[m], events[m], stores[n], sid);
    if IsUse(events[m], sid) {
      j := m;
    } else {
      j := TimeIsOfLastUse(stores, events, m, sid);
    }
  }

  /** And one that is not used goes: if the session at the back was last used too long before
      the first reading of a collection, every session last used too long before its last
      reading is gone afterwards. */
  lemma {:induction false} IdleSessionsGo(stores: seq<Store>, events: seq<Event>, n: nat, maxLifeTime: int,
      readings: seq<int>, back: nat, sid: string, j: nat)
    requires IsHistory(stores, events) && n < |events| && events[n] == Collected(maxLifeTime, readings)
        && readings != []
    requires var l := stores[n].list; l != [] && IsLastUse(events, n, l[|l| - 1].sid, back)
    requires IsLastUse(events, n, sid, j)
    requires events[back].now / 1_000_000_000 + maxLifeTime < readings[0] / 1_000_000_000
    requires events[j].now / 1_000_000_000 + maxLifeTime < readings[|readings| - 1] / 1_000_000_000
    ensures !Has(stores[n + 1].list, sid)
  {
    hide TwoParts, Live;
    var l := stores[n].list;
    var b := l[|l| - 1].sid;
    EveryStoreIsSound(stores, events, n);
    AccessAt(l, |l| - 1);
    var back' := TimeIsOfLastUse(stores, events, n, b);
    EventDecidesTime(stores[n], events[n], stores[n + 1], sid);
    if Has(l, sid) { var j' := TimeIsOfLastUse(stores, events, n, sid); }
  }
}
