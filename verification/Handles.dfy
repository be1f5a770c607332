/** Handles to sessions, and what becomes of them. A handle may be kept after its session is
    gone, and another session may be created under the same id. */
module Handles {

  /** Which handle each id is bound to, the id of every handle ever given out, and the values
      it holds. `H` are the handles. */
  datatype Holding<H> = Holding(bound: map<string, H>, ids: map<H, string>, values: map<H, map<string, string>>)

  ghost predicate Valid<H>(h: Holding<H>) {
    && h.ids.Keys == h.values.Keys
    && forall sid :: sid in h.bound ==> h.bound[sid] in h.ids && h.ids[h.bound[sid]] == sid
  }

  /** The handle is the one its id is bound to. */
  ghost predicate IsCurrent<H>(h: Holding<H>, s: H) {
    s in h.ids && h.ids[s] in h.bound && h.bound[h.ids[s]] == s
  }

  /** The values under an id. */
  ghost function Seen<H>(h: Holding<H>, sid: string): map<string, string>
    requires Valid(h)
  {
    if sid in h.bound then h.values[h.bound[sid]] else map[]
  }

  datatype Move<H> =
    | Issue(s: H, sid: string)
    | Drop(gone: set<string>)
    | Write(s: H, entries: map<string, string>)
    | Rest

  /** A new handle is bound to an id that is free; ids lose their binding; a handle, current or
      not, is written through; or nothing happens. */
  ghost predicate Moves<H>(h: Holding<H>, m: Move<H>, h': Holding<H>) {
    match m
    case Issue(s, sid) =>
      && s !in h.ids && s !in h.values && sid !in h.bound
      && h' == Holding(h.bound[sid := s], h.ids[s := sid], h.values[s := map[]])
    case Drop(gone) => h' == h.(bound := h.bound - gone)
    case Write(s, entries) => s in h.ids && h' == h.(values := h.values[s := entries])
    case Rest => h' == h
  }

  ghost predicate IsCourse<H>(hs: seq<Holding<H>>, ms: seq<Move<H>>) {
    && |hs| == |ms| + 1
    && hs[0] == Holding(map[], map[], map[])
    && forall i :: 0 <= i < |ms| ==> Moves(hs[i], ms[i], hs[i + 1])
  }

  lemma MoveKeepsValid<H>(h: Holding<H>, m: Move<H>, h': Holding<H>)
    requires Valid(h) && Moves(h, m, h')
    ensures Valid(h')
  {
  }

  lemma {:induction false} CourseIsValid<H>(hs: seq<Holding<H>>, ms: seq<Move<H>>, i: nat)
    requires IsCourse(hs, ms) && i < |hs|
    ensures Valid(hs[i])
    decreases i
  {
    if i > 0 {
      CourseIsValid(hs, ms, i - 1);
      MoveKeepsValid(hs[i - 1], ms[i - 1], hs[i]);
    }
  }

  lemma {:induction false} MoveKeepsStale<H>(h: Holding<H>, m: Move<H>, h': Holding<H>, s: H)
    requires Valid(h) && Moves(h, m, h') && s in h.ids && !IsCurrent(h, s)
    ensures s in h'.ids && h'.ids[s] == h.ids[s] && !IsCurrent(h', s)
  {
  }

  /** A handle whose session is gone never becomes current again, whatever happens, even when a
      session is created anew under its id. */
  lemma {:induction false} StaleForever<H>(hs: seq<Holding<H>>, ms: seq<Move<H>>, i: nat, j: nat, s: H)
    requires IsCourse(hs, ms) && i <= j < |hs| && s in hs[i].ids && !IsCurrent(hs[i], s)
    ensures s in hs[j].ids && !IsCurrent(hs[j], s)
    decreases j
  {
    if i < j {
      StaleForever(hs, ms, i, j - 1, s);
      CourseIsValid(hs, ms, j - 1);
      MoveKeepsStale(hs[j - 1], ms[j - 1], hs[j], s);
    }
  }

  lemma {:induction false} WriteIsSeen<H>(h: Holding<H>, m: Move<H>, h': Holding<H>, sid: string)
    requires Valid(h) && Moves(h, m, h') && m.Write? && Valid(h')
    ensures Seen(h', sid) == if IsCurrent(h, m.s) && sid == h.ids[m.s] then m.entries else Seen(h, sid)
  {
  }

  /** And no write through it, however late, changes the values seen under any id or held by
      any other handle. */
  lemma {:induction false} StaleWritesAreUnseen<H>(hs: seq<Holding<H>>, ms: seq<Move<H>>, i: nat, j: nat, s: H,
      sid: string, t: H)
    requires IsCourse(hs, ms) && i <= j < |ms| && s in hs[i].ids && !IsCurrent(hs[i], s)
    requires ms[j].Write? && ms[j].s == s
    ensures Valid(hs[j]) && Valid(hs[j + 1]) && Seen(hs[j + 1], sid) == Seen(hs[j], sid)
    ensures t in hs[j].ids && t != s ==> t in hs[j + 1].ids && hs[j + 1].values[t] == hs[j].values[t]
  {
    StaleForever(hs, ms, i, j, s);
    CourseIsValid(hs, ms, j);
    CourseIsValid(hs, ms, j + 1);
    WriteIsSeen(hs[j], ms[j], hs[j + 1], sid);
  }

  /** The course without what is written through one handle from number `i` on. */
  ghost predicate SameButFor<H>(hs: seq<Holding<H>>, ms: seq<Move<H>>, ks: seq<Holding<H>>, ns: seq<Move<H>>, i: nat,
      s: H)
    requires IsCourse(hs, ms) && IsCourse(ks, ns) && |ms| == |ns| && i < |hs|
  {
    && hs[i] == ks[i]
    && forall j :: i <= j < |ms| ==> ns[j] == if ms[j].Write? && ms[j].s == s then Rest else ms[j]
  }

  ghost predicate AgreeButFor<H>(h: Holding<H>, k: Holding<H>, s: H) {
    && h.bound == k.bound && h.ids == k.ids && h.values.Keys == k.values.Keys
    && forall t :: t in h.values && t != s ==> h.values[t] == k.values[t]
  }

  lemma {:induction false} MovesAgree<H>(h: Holding<H>, m: Move<H>, h': Holding<H>, k: Holding<H>, n: Move<H>,
      k': Holding<H>, s: H)
    requires Moves(h, m, h') && Moves(k, n, k') && AgreeButFor(h, k, s) && s in h.values
    requires n == if m.Write? && m.s == s then Rest else m
    ensures AgreeButFor(h', k', s)
  {
  }

  lemma {:induction false} AgreeAlways<H>(hs: seq<Holding<H>>, ms: seq<Move<H>>, ks: seq<Holding<H>>, ns: seq<Move<H>>,
      i: nat, j: nat, s: H)
    requires IsCourse(hs, ms) && IsCourse(ks, ns) && |ms| == |ns| && i <= j < |hs| && SameButFor(hs, ms, ks, ns, i, s)
    requires s in hs[i].ids && !IsCurrent(hs[i], s)
    ensures AgreeButFor(hs[j], ks[j], s)
    decreases j
  {
    if i < j {
      AgreeAlways(hs, ms, ks, ns, i, j - 1, s);
      StaleForever(hs, ms, i, j - 1, s);
      CourseIsValid(hs, ms, j - 1);
      MovesAgree(hs[j - 1], ms[j - 1], hs[j], ks[j - 1], ns[j - 1], ks[j], s);
    }
  }

  /** From the moment a handle is stale it might as well not be written through at all: what is
      seen under every id is the same at any later time. */
  lemma {:induction false} StaleHandlesDoNotMatter<H>(hs: seq<Holding<H>>, ms: seq<Move<H>>, ks: seq<Holding<H>>,
      ns: seq<Move<H>>, i: nat, j: nat, s: H, sid: string)
    requires IsCourse(hs, ms) && IsCourse(ks, ns) && |ms| == |ns| && i <= j < |hs| && SameButFor(hs, ms, ks, ns, i, s)
    requires s in hs[i].ids && !IsCurrent(hs[i], s)
    ensures Valid(hs[j]) && Valid(ks[j]) && Seen(hs[j], sid) == Seen(ks[j], sid)
  {
    AgreeAlways(hs, ms, ks, ns, i, j, s);
    StaleForever(hs, ms, i, j, s);
    CourseIsValid(hs, ms, j);
    CourseIsValid(ks, ns, j);
  }
}
