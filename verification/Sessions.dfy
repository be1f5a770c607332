/** The session store on the heap: a map and a doubly linked list of the same sessions,
    handles that outlive their sessions, and a clock that never goes back. */
module Sessions {
  import opened Text
  import opened SessionModel
  import opened Handles

  class Clock {
    var now: int

    constructor () { now := 0; }

    method Now() returns (t: int)
      modifies this
      ensures old(now) <= now == t
    {
      t :| now <= t;
      now := t;
    }
  }

  /** The values of one session, shared by all handles to it. */
  class Values {
    var entries: map<string, string>

    constructor ()
      ensures entries == map[]
    {
      entries := map[];
    }
  }

  class Element {
    var prev: Element?
    var next: Element?
    const Value: SessionStore

    constructor (value: SessionStore)
      ensures prev == null && next == null && Value == value
    {
      prev, next, Value := null, null, value;
    }
  }

  /** A doubly linked list; `nodes` are its elements from front to back. */
  class List {
    var front: Element?
    var back: Element?
    ghost var nodes: seq<Element>

    ghost predicate Valid()
      reads this, nodes
    {
      && Distinct(nodes) && Linked(nodes)
      && front == (if nodes == [] then null else nodes[0])
      && back == (if nodes == [] then null else nodes[|nodes| - 1])
    }

    constructor ()
      ensures Valid() && nodes == []
    {
      front, back, nodes := null, null, [];
    }

    method PushBack(value: SessionStore) returns (e: Element)
      requires Valid()
      modifies this, nodes
      ensures Valid() && fresh(e) && e.Value == value && nodes == old(nodes) + [e]
    {
      e := new Element(value);
      e.prev := back;
      if back == null {
        front := e;
      } else {
        back.next := e;
      }
      back := e;
      nodes := nodes + [e];
    }

    method Remove(e: Element, ghost i: nat)
      requires Valid() && i < |nodes| && nodes[i] == e
      modifies this, nodes
      ensures Valid() && nodes == old(nodes)[..i] + old(nodes)[i + 1..]
      ensures e.prev == null && e.next == null && e !in nodes
    {
      ghost var ns := nodes;
      var p, n := e.prev, e.next;
      if p == null {
        front := n;
      } else {
        p.next := n;
      }
      if n == null {
        back := p;
      } else {
        n.prev := p;
      }
      e.prev, e.next := null, null;
      nodes := ns[..i] + ns[i + 1..];
      forall k | 0 <= k < |nodes|
        ensures nodes[k] != e && nodes[k].prev == (if k == 0 then null else nodes[k - 1])
        ensures nodes[k].next == (if k == |nodes| - 1 then null else nodes[k + 1])
      {
        assert nodes[k] == ns[if k < i then k else k + 1];
      }
    }

    method LinkFront(e: Element)
      requires Valid() && e !in nodes
      modifies this, nodes, e
      ensures Valid() && nodes == [e] + old(nodes)
    {
      ghost var ns := nodes;
      e.prev, e.next := null, front;
      if front == null {
        back := e;
      } else {
        front.prev := e;
      }
      front := e;
      nodes := [e] + ns;
      forall k | 0 < k < |nodes|
        ensures nodes[k].prev == nodes[k - 1] && nodes[k].next == (if k == |nodes| - 1 then null else nodes[k + 1])
      {
        assert nodes[k] == ns[k - 1];
      }
    }

    method MoveToFront(e: Element, ghost i: nat)
      requires Valid() && i < |nodes| && nodes[i] == e
      modifies this, nodes
      ensures Valid() && nodes == [e] + (old(nodes)[..i] + old(nodes)[i + 1..])
    {
      if front == e {
        assert i == 0;
        return;
      }
      Remove(e, i);
      LinkFront(e);
    }
  }

  ghost predicate Distinct(ns: seq<Element>) {
    forall i, j :: 0 <= i < j < |ns| ==> ns[i] != ns[j]
  }

  ghost predicate Linked(ns: seq<Element>)
    reads ns
  {
    && (forall i {:trigger ns[i].prev} :: 0 <= i < |ns| ==> ns[i].prev == (if i == 0 then null else ns[i - 1]))
    && (forall i {:trigger ns[i].next} :: 0 <= i < |ns| ==> ns[i].next == (if i == |ns| - 1 then null else ns[i + 1]))
  }

  /** A handle to a session. Handles may be kept after their session is gone. */
  class SessionStore {
    const sid: string
    var timeAccessed: int
    const value: Values
    const pder: SessionProvider

    constructor (sid: string, timeAccessed: int, value: Values, pder: SessionProvider)
      ensures this.sid == sid && this.timeAccessed == timeAccessed && this.value == value && this.pder == pder
    {
      this.sid, this.timeAccessed, this.value, this.pder := sid, timeAccessed, value, pder;
    }

    ghost predicate Usable()
      reads pder, pder.Repr
    {
      pder.Valid() && this in pder.issued
    }

    /** Writing through a handle marks its id as used, and shows in the list only if the handle
        is the current one. No other handle's values change. */
    method Set(key: string, v: string)
      requires Usable()
      modifies pder`model, pder.issued, pder.list, pder.list.nodes, pder.clock, value
      ensures Usable() && value.entries == old(value.entries)[key := v] && old(pder.clock.now) <= pder.clock.now
      ensures pder.Current(this) == old(pder.Current(this))
      ensures Moves(old(pder.Holdings()), Write(this, value.entries), pder.Holdings())
      ensures forall s :: s in pder.issued && s != this ==> s.value.entries == old(s.value.entries)
      ensures var l := old(pder.model);
              pder.model == Update(if old(pder.Current(this)) then SetValues(l, sid, value.entries) else l, sid,
                                   pder.clock.now)
    {
      pder.WriteAndUse(this, value.entries[key := v]);
      pder.Written(this);
    }

    method Delete(key: string)
      requires Usable()
      modifies pder`model, pder.issued, pder.list, pder.list.nodes, pder.clock, value
      ensures Usable() && value.entries == old(value.entries) - {key} && old(pder.clock.now) <= pder.clock.now
      ensures pder.Current(this) == old(pder.Current(this))
      ensures Moves(old(pder.Holdings()), Write(this, value.entries), pder.Holdings())
      ensures forall s :: s in pder.issued && s != this ==> s.value.entries == old(s.value.entries)
      ensures var l := old(pder.model);
              pder.model == Update(if old(pder.Current(this)) then SetValues(l, sid, value.entries) else l, sid,
                                   pder.clock.now)
    {
      pder.WriteAndUse(this, value.entries - {key});
      pder.Written(this);
    }

    /** Reading marks the id as used, too. The value read is that of the handle. */
    method Get(key: string) returns (v: Option<string>)
      requires Usable()
      modifies pder`model, pder.issued, pder.list, pder.list.nodes, pder.clock
      ensures Usable() && old(pder.clock.now) <= pder.clock.now
      ensures pder.model == Update(old(pder.model), sid, pder.clock.now)
      ensures Moves(old(pder.Holdings()), Rest, pder.Holdings())
      ensures v == if key in value.entries then Some(value.entries[key]) else None
    {
      pder.SessionUpdate(sid);
      v := if key in value.entries then Some(value.entries[key]) else None;
    }
  }

  class SessionProvider {
    var sessions: map<string, Element>
    const list: List
    const clock: Clock
    /** Every handle ever given out. */
    ghost var issued: set<SessionStore>
    /** The list as a value. */
    ghost var model: Entries
    ghost var Repr: set<object>

    /** What belongs to the store. */
    ghost predicate Owns()
      reads this, list
    {
      && this in Repr && list in Repr && clock !in Repr
      && (forall e :: e in list.nodes ==> e in Repr)
      && (forall s :: s in issued ==> s in Repr && s.value in Repr)
    }

    /** Every handle ever given out is of this store and has values of its own. */
    ghost predicate HandlesApart()
      reads this
    {
      && (forall s :: s in issued ==> s.pder == this)
      && (forall s, t :: s in issued && t in issued && s != t ==> s.value != t.value)
    }

    /** Element number `i` of the list is entry number `i` of the model, and the map leads to it. */
    ghost predicate Agrees(i: int)
      reads this, list, Repr
    {
      && 0 <= i < |model| && i < |list.nodes|
      && var e, m := list.nodes[i], model[i];
      && e.Value in issued && e.Value in Repr && e.Value.value in Repr
      && m.sid == e.Value.sid && m.accessed == e.Value.timeAccessed && m.values == e.Value.value.entries
      && m.sid in sessions && sessions[m.sid] == e
    }

    /** Map, list and model agree, and handles do not share values. */
    ghost predicate Valid()
      reads this, Repr
      ensures Valid() ==> this in Repr
    {
      && this in Repr && list in Repr && Owns()
      && list.Valid() && HandlesApart()
      && |model| == |list.nodes|
      && (forall i :: 0 <= i < |model| ==> Agrees(i))
      && (forall sid :: sid in sessions ==> Has(model, sid))
    }

    /** The handle is the one the store itself holds. */
    ghost predicate Current(s: SessionStore)
      reads this
    {
      s.sid in sessions && sessions[s.sid].Value == s
    }

    constructor ()
      ensures Valid() && fresh(Repr) && fresh(clock) && model == [] && issued == {}
      ensures Holdings() == Holding(map[], map[], map[])
    {
      sessions := map[];
      list := new List();
      clock := new Clock();
      issued, model := {}, [];
      new;
      Repr := {this, list};
    }

    /** Puts a session that nobody has seen yet at the back of the list and into the map. */
    method Insert(s: SessionStore) returns (element: Element)
      requires Valid() && s.sid !in sessions
      requires s !in Repr && s.value !in Repr && s.pder == this && s.value.entries == map[]
      modifies this, list, list.nodes
      ensures Valid() && fresh(element) && Repr == old(Repr) + {s, s.value, element}
      ensures model == Init(old(model), s.sid, s.timeAccessed)
      ensures issued == old(issued) + {s}
      ensures element.Value == s && sessions == old(sessions)[s.sid := element]
    {
      hide List.Valid, Linked, Distinct, Has;
      ghost var n := |model|;
      element := list.PushBack(s);
      sessions := sessions[s.sid := element];
      issued := issued + {s};
      model := Init(model, s.sid, s.timeAccessed);
      Repr := Repr + {s, s.value, element};
      forall i | 0 <= i < |model| ensures Agrees(i) {
        if i < n { assert old(Agrees(i)); }
      }
      forall x | x in sessions ensures Has(model, x) {
        InitHas(old(model), s.sid, s.timeAccessed, x);
      }
    }

    ghost function State(): Store
      reads this, clock
    {
      Store(model, clock.now)
    }

    lemma {:induction false} KeysAgree(sid: string)
      requires Valid()
      ensures sid in sessions <==> Has(model, sid)
      ensures sid in sessions ==>
                var i := IndexOf(model, sid);
                i < |list.nodes| && sessions[sid] == list.nodes[i] && Agrees(i)
    {
      if Has(model, sid) { assert Agrees(IndexOf(model, sid)); }
    }

    lemma IdsAreDistinct()
      requires Valid()
      ensures DistinctIds(model)
    {
      forall i, j | 0 <= i < j < |model| ensures model[i].sid != model[j].sid {
        assert Agrees(i) && Agrees(j);
      }
    }

    /** What the current handle of a session holds is what the list says. */
    lemma CurrentShows(s: SessionStore)
      requires Valid() && Current(s)
      ensures s.value.entries == ValuesOf(model, s.sid) && Has(model, s.sid)
    {
      KeysAgree(s.sid);
    }

    /** The bindings of the map, and every handle ever given out with its id and values. */
    ghost function Holdings(): (h: Holding<SessionStore>)
      requires Valid()
      reads this, Repr
    {
      Holding(map sid | sid in sessions :: sessions[sid].Value,
              map s | s in issued :: s.sid,
              map s | s in issued :: s.value.entries)
    }

    /** The handles agree with the list: the values seen under an id are those of the list. */
    lemma HoldingsShow(sid: string)
      requires Valid()
      ensures Handles.Valid(Holdings())
      ensures Seen(Holdings(), sid) == ValuesOf(model, sid)
      ensures forall s :: s in issued ==> (IsCurrent(Holdings(), s) <==> Current(s))
    {
      forall x | x in sessions ensures sessions[x].Value in issued && sessions[x].Value.sid == x {
        KeysAgree(x);
      }
      KeysAgree(sid);
    }

    twostate lemma Issued(new s: SessionStore)
      requires old(Valid()) && Valid()
      requires s !in old(issued) && issued == old(issued) + {s} && s.value.entries == map[]
      requires s.sid !in old(sessions) && sessions.Keys == old(sessions).Keys + {s.sid} && sessions[s.sid].Value == s
      requires forall k :: k in old(sessions) ==> sessions[k] == old(sessions)[k]
      requires forall t :: t in old(issued) ==> t.value.entries == old(t.value.entries)
      ensures Moves(old(Holdings()), Issue(s, s.sid), Holdings())
    {
      hide Agrees, HandlesApart, List.Valid, Has;
      var h, h' := old(Holdings()), Holdings();
      assert h'.bound == h.bound[s.sid := s];
      assert h'.ids == h.ids[s := s.sid];
      assert h'.values == h.values[s := map[]];
    }

    twostate lemma Dropped(gone: set<string>)
      requires old(Valid()) && Valid()
      requires issued == old(issued) && sessions == old(sessions) - gone
      requires forall t :: t in issued ==> t.value.entries == old(t.value.entries)
      ensures Moves(old(Holdings()), Drop(gone), Holdings())
    {
      hide Agrees, HandlesApart, List.Valid, Has;
      var h, h' := old(Holdings()), Holdings();
      assert h'.bound == h.bound - gone;
      assert h'.ids == h.ids;
      assert h'.values == h.values;
    }

    twostate lemma Written(s: SessionStore)
      requires old(Valid()) && Valid()
      requires s in old(issued) && issued == old(issued) && sessions == old(sessions)
      requires forall t :: t in issued && t != s ==> t.value.entries == old(t.value.entries)
      ensures Moves(old(Holdings()), Write(s, s.value.entries), Holdings())
    {
      hide Agrees, HandlesApart, List.Valid, Has;
      var h, h' := old(Holdings()), Holdings();
      assert h'.bound == h.bound;
      assert h'.ids == h.ids;
      assert h'.values == h.values[s := s.value.entries];
    }

    twostate lemma Rested()
      requires old(Valid()) && Valid()
      requires issued == old(issued) && sessions == old(sessions)
      requires forall t :: t in issued ==> t.value.entries == old(t.value.entries)
      ensures Moves(old(Holdings()), Rest, Holdings())
    {
      hide Agrees, HandlesApart, List.Valid, Has;
      var h, h' := old(Holdings()), Holdings();
      assert h'.bound == h.bound;
      assert h'.ids == h.ids;
      assert h'.values == h.values;
    }

    /** The new handle is bound to its id, and nothing else changes for other handles. */
    method Admit(s: SessionStore)
      requires Valid() && s.sid !in sessions
      requires s !in Repr && s.value !in Repr && s.pder == this && s.value.entries == map[]
      modifies this, list, list.nodes
      ensures Valid() && fresh(Repr - old(Repr) - {s, s.value})
      ensures model == Init(old(model), s.sid, s.timeAccessed) && issued == old(issued) + {s}
      ensures sessions.Keys == old(sessions).Keys + {s.sid} && sessions[s.sid].Value == s
      ensures forall k :: k in old(sessions) ==> sessions[k] == old(sessions)[k]
      ensures Moves(old(Holdings()), Issue(s, s.sid), Holdings())
    {
      var _ := Insert(s);
      Issued(s);
    }

    /** An empty session that the store does not hold yet. */
    method NewSession(sid: string) returns (s: SessionStore)
      requires Valid()
      modifies clock
      ensures Valid() && Holdings() == old(Holdings())
      ensures fresh(s) && fresh(s.value) && s.sid == sid && s.pder == this && s.value.entries == map[]
      ensures old(clock.now) <= clock.now == s.timeAccessed
    {
      var v := new Values();
      var now := clock.Now();
      s := new SessionStore(sid, now, v, this);
    }

    /** A session under a new id. */
    method SessionInit(sid: string) returns (s: SessionStore)
      requires Valid() && sid !in sessions
      modifies Repr, clock
      ensures Valid() && fresh(Repr - old(Repr))
      ensures Happens(old(State()), Created(sid, clock.now), State())
      ensures fresh(s) && fresh(s.value) && issued == old(issued) + {s} && s.sid == sid
      ensures sessions.Keys == old(sessions).Keys + {sid} && sessions[sid].Value == s
      ensures forall k :: k in old(sessions) ==> sessions[k] == old(sessions)[k]
      ensures forall t :: t in old(issued) ==> t.value.entries == old(t.value.entries)
      ensures Moves(old(Holdings()), Issue(s, sid), Holdings())
    {
      hide Holdings, Moves;
      KeysAgree(sid);
      s := NewSession(sid);
      Admit(s);
    }

    /** The session with the id, created if there is none. */
    method SessionRead(sid: string) returns (s: SessionStore)
      requires Valid()
      modifies Repr, clock
      ensures Valid() && fresh(Repr - old(Repr)) && old(issued) <= issued
      ensures sid in old(sessions) ==> State() == old(State()) && sessions == old(sessions) && issued == old(issued)
      ensures sid !in old(sessions) ==> Happens(old(State()), Created(sid, clock.now), State())
      ensures sid !in old(sessions) ==> fresh(s) && sessions.Keys == old(sessions).Keys + {sid}
      ensures forall k :: k in old(sessions) ==> k in sessions && sessions[k] == old(sessions)[k]
      ensures Moves(old(Holdings()), if sid in old(sessions) then Rest else Issue(s, sid), Holdings())
      ensures s in issued && s.sid == sid && Current(s)
      ensures forall t :: t in old(issued) ==> t.value.entries == old(t.value.entries)
    {
      KeysAgree(sid);
      if sid in sessions {
        Rested();
        return sessions[sid].Value;
      }
      s := SessionInit(sid);
    }

    /** Takes element number `i` out of list and map. */
    method Discard(element: Element, ghost i: nat)
      requires Valid() && i < |list.nodes| && list.nodes[i] == element
      modifies this, list, list.nodes
      ensures Valid() && Repr == old(Repr) && issued == old(issued)
      ensures model == Without(old(model), i) && list.nodes == old(list.nodes)[..i] + old(list.nodes)[i + 1..]
      ensures sessions == old(sessions) - {element.Value.sid}
    {
      assert Agrees(i);
      ghost var sid := model[i].sid;
      list.Remove(element, i);
      sessions := sessions - {element.Value.sid};
      model := Without(model, i);
      forall k | 0 <= k < |model| ensures Agrees(k) {
        assert old(Agrees(if k < i then k else k + 1));
      }
      forall x | x in sessions ensures Has(model, x) {
        WithoutHas(old(model), i, x);
      }
    }

    method SessionDestroy(sid: string)
      requires Valid()
      modifies this, list, list.nodes
      ensures Valid() && Repr == old(Repr) && issued == old(issued)
      ensures Happens(old(State()), Destroyed(sid), State())
      ensures sessions == old(sessions) - {sid}
      ensures Moves(old(Holdings()), Drop({sid}), Holdings())
    {
      KeysAgree(sid);
      if sid in sessions {
        Discard(sessions[sid], IndexOf(model, sid));
      }
      Dropped({sid});
    }

    /** Notes the time of use in the session ... */
    method SetAccessed(s: SessionStore, now: int, ghost i: nat)
      requires Valid() && i < |list.nodes| && list.nodes[i].Value == s
      modifies this`model, s
      ensures Valid()
      ensures model == old(model)[i := old(model)[i].(accessed := now, touched := true)]
    {
      assert forall k :: 0 <= k < |model| && k != i && Agrees(i) && Agrees(k) ==> list.nodes[k].Value != s;
      s.timeAccessed := now;
      model := model[i := model[i].(accessed := now, touched := true)];
      forall k | 0 <= k < |model| ensures Agrees(k) {
        assert old(Agrees(k)) && old(Agrees(i));
      }
      forall x | x in sessions ensures Has(model, x) {
        assert old(Has(model, x));
        SameIdsHas(old(model), model, x);
      }
    }

    /** ... and moves it to the front. */
    method ToFront(element: Element, ghost i: nat)
      requires Valid() && i < |list.nodes| && list.nodes[i] == element
      modifies this`model, list, list.nodes
      ensures Valid()
      ensures model == [old(model)[i]] + Without(old(model), i)
    {
      hide List.Valid, Linked, Distinct, Has;
      list.MoveToFront(element, i);
      model := [model[i]] + Without(model, i);
      forall k | 0 <= k < |model| ensures Agrees(k) {
        ghost var j := if k == 0 then i else if k <= i then k - 1 else k;
        assert old(Agrees(j)) && model[k] == old(model)[j] && list.nodes[k] == old(list.nodes)[j];
      }
      forall x | x in sessions ensures Has(model, x) {
        assert old(Has(model, x));
        FrontHas(old(model), i, x);
      }
    }

    method Touch(element: Element, ghost i: nat)
      requires Valid() && i < |list.nodes| && list.nodes[i] == element
      modifies this`model, issued, list, list.nodes, clock
      ensures Valid() && old(clock.now) <= clock.now
      ensures model == [old(model)[i].(accessed := clock.now, touched := true)] + Without(old(model), i)
    {
      assert Agrees(i);
      var now := clock.Now();
      SetAccessed(element.Value, now, i);
      ToFront(element, i);
    }

    /** The session has been used. */
    method SessionUpdate(sid: string)
      requires Valid()
      modifies this`model, issued, list, list.nodes, clock
      ensures Valid()
      ensures Happens(old(State()), Used(sid, clock.now), State())
      ensures Moves(old(Holdings()), Rest, Holdings())
    {
      KeysAgree(sid);
      if sid in sessions {
        Touch(sessions[sid], IndexOf(model, sid));
      }
      Rested();
    }

    method WriteCurrent(s: SessionStore, entries: map<string, string>, ghost i: nat)
      requires Valid() && i < |list.nodes| && list.nodes[i].Value == s
      modifies this`model, s.value
      ensures Valid() && s.value.entries == entries
      ensures model == old(model)[i := old(model)[i].(values := entries)]
    {
      s.value.entries := entries;
      model := model[i := model[i].(values := entries)];
      forall k | 0 <= k < |model| ensures Agrees(k) {
        assert old(Agrees(k)) && old(Agrees(i));
      }
      forall x | x in sessions ensures Has(model, x) {
        assert old(Has(model, x));
        SameIdsHas(old(model), model, x);
      }
    }

    method WriteStale(s: SessionStore, entries: map<string, string>)
      requires Valid() && s in issued && !Current(s)
      modifies s.value
      ensures Valid() && s.value.entries == entries
    {
      s.value.entries := entries;
      forall k | 0 <= k < |model| ensures Agrees(k) {
        assert old(Agrees(k));
      }
    }

    /** The values of a session are written: seen in the list only if the handle is the current
        one of its id. */
    method WriteValues(s: SessionStore, entries: map<string, string>)
      requires Valid() && s in issued
      modifies this`model, s.value
      ensures Valid() && s.value.entries == entries
      ensures model == if old(Current(s)) then SetValues(old(model), s.sid, entries) else old(model)
    {
      KeysAgree(s.sid);
      if s.sid in sessions && sessions[s.sid].Value == s {
        WriteCurrent(s, entries, IndexOf(model, s.sid));
      } else {
        WriteStale(s, entries);
      }
    }

    method WriteAndUse(s: SessionStore, entries: map<string, string>)
      requires Valid() && s in issued
      modifies this`model, issued, list, list.nodes, clock, s.value
      ensures Valid() && s.value.entries == entries && old(clock.now) <= clock.now
      ensures var l := old(model);
              model == Update(if old(Current(s)) then SetValues(l, s.sid, entries) else l, s.sid, clock.now)
    {
      WriteValues(s, entries);
      SessionUpdate(s.sid);
    }

    /** Looks at the session at the back, and takes it out if it has expired. */
    method CollectBack(element: Element, maxLifeTime: int) returns (gone: bool, ghost now: int)
      requires Valid() && element == list.back
      modifies this, list, list.nodes, clock
      ensures Valid() && Repr == old(Repr) && issued == old(issued) && list.nodes <= old(list.nodes)
      ensures old(clock.now) <= now == clock.now && old(model) != []
      ensures gone <==> Expired(old(model)[|old(model)| - 1], maxLifeTime, now)
      ensures model == if gone then Without(old(model), |old(model)| - 1) else old(model)
      ensures forall k :: k in sessions ==> k in old(sessions) && sessions[k] == old(sessions)[k]
    {
      ghost var n := |model| - 1;
      assert Agrees(n);
      var t := clock.Now();
      now := t;
      gone := Unix(element.Value.timeAccessed) + maxLifeTime < Unix(t);
      if gone {
        Discard(element, n);
      }
    }

    /** Looks at the back of the list again and again, with a new clock reading each time. */
    method SessionGC(maxLifeTime: int) returns (ghost readings: seq<int>)
      requires Valid()
      modifies this, list, list.nodes, clock
      ensures Valid() && Repr == old(Repr) && issued == old(issued)
      ensures Happens(old(State()), Collected(maxLifeTime, readings), State())
      ensures forall k :: k in sessions ==> k in old(sessions) && sessions[k] == old(sessions)[k]
      ensures Moves(old(Holdings()), Drop(old(sessions).Keys - sessions.Keys), Holdings())
    {
      hide Agrees, HandlesApart, Holdings, Moves, Happens, Linked, Distinct, Has;
      readings := [];
      assert Collecting(State(), maxLifeTime, [], State());
      hide Collecting;
      while true
        invariant Valid() && Repr == old(Repr) && issued == old(issued)
        invariant Collecting(old(State()), maxLifeTime, readings, State())
        invariant list.nodes <= old(list.nodes)
        invariant forall k :: k in sessions ==> k in old(sessions) && sessions[k] == old(sessions)[k]
        decreases |model|
      {
        var element := list.back;
        if element == null {
          CollectingEnds(old(State()), maxLifeTime, readings, State());
          break;
        }
        ghost var before := State();
        var gone, now := CollectBack(element, maxLifeTime);
        CollectingStep(old(State()), maxLifeTime, readings, before, now);
        readings := readings + [now];
        if !gone {
          break;
        }
      }
      Dropped(old(sessions).Keys - sessions.Keys);
    }
  }

  lemma {:induction false} SameIdsHas(l: Entries, r: Entries, x: string)
    requires |l| == |r| && (forall i :: 0 <= i < |l| ==> l[i].sid == r[i].sid) && Has(l, x)
    ensures Has(r, x)
  {
    assert r[IndexOf(l, x)].sid == x;
  }

  lemma {:induction false} FrontHas(l: Entries, i: nat, x: string)
    requires i < |l| && Has(l, x)
    ensures Has([l[i]] + Without(l, i), x)
  {
    var r, k := [l[i]] + Without(l, i), IndexOf(l, x);
    assert r[if k == i then 0 else if k < i then k + 1 else k] == l[k];
  }

  lemma {:induction false} WithoutHas(l: Entries, i: nat, x: string)
    requires i < |l| && Has(l, x) && x != l[i].sid
    ensures Has(Without(l, i), x)
  {
    var k := IndexOf(l, x);
    assert Without(l, i)[if k < i then k else k - 1] == l[k];
  }

  lemma {:induction false} InitHas(l: Entries, sid: string, now: int, x: string)
    requires Has(l, x) || x == sid
    ensures Has(Init(l, sid, now), x)
  {
    var r := Init(l, sid, now);
    assert r[|l|].sid == sid;
    if Has(l, x) { assert r[IndexOf(l, x)] == l[IndexOf(l, x)]; }
  }
}
