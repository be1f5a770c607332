/** The bookmark sweep of a list request: one page query after the other, while other
    clients go on committing between the queries. */
module Sweep {
  import opened Text
  import opened Records
  import opened Stamps
  import opened Peer
  import opened Paging
  import opened Workflow

  /** A list request at work: the world and the call number it starts from, the schedule of
      the peer, the records it wants and the page size. */
  datatype Scene = Scene(start: World, env: Schedule, first: nat, wanted: Certificate -> bool, size: nat) {

    /** What others commit just before call number `n` of the request. */
    function Commits(n: nat): seq<Commit> {
      env(first + n).commits
    }

    /** The world after `n` calls. */
    ghost function After(n: nat): World {
      if n == 0 then start else ApplyAll(After(n - 1), Commits(n - 1))
    }

    /** The world that query number `i` of the request finds. */
    ghost function At(i: nat): World {
      After(i + 1)
    }

    ghost predicate Valid() {
      WellStored(start) && size > 0
    }

    lemma {:induction false} StaysWellStored(n: nat)
      requires Valid()
      ensures WellStored(After(n))
    {
      if n > 0 {
        StaysWellStored(n - 1);
        CommitsKeepWellStored(After(n - 1), Commits(n - 1));
      }
    }

    /** The page that query number `i` gets for a bookmark. */
    ghost function PageAt(i: nat, b: Bookmark): seq<Certificate>
      requires Valid()
    {
      StaysWellStored(i + 1);
      Page(At(i), wanted, size, b)
    }

    /** Everything that matches behind a bookmark when query number `i` is asked. */
    ghost function Remaining(i: nat, b: Bookmark): set<Certificate>
      requires Valid()
    {
      StaysWellStored(i + 1);
      MatchingBehind(At(i), wanted, b)
    }

    /** The bookmarks collected so far: each is that of the last record of the page before. */
    ghost predicate Chain(marks: seq<Bookmark>)
      requires Valid()
    {
      && marks != [] && marks[0] == Start
      && forall i: nat :: i + 1 < |marks| ==> Link(marks, i)
    }

    ghost predicate Link(marks: seq<Bookmark>, i: nat)
      requires Valid() && i + 1 < |marks|
    {
      PageAt(i, marks[i]) != [] && marks[i + 1] == NextMark(i, marks[i])
    }

    ghost function NextMark(i: nat, b: Bookmark): Bookmark
      requires Valid() && PageAt(i, b) != []
    {
      var page := PageAt(i, b);
      Bookmark.After(KeyOf(page[|page| - 1]))
    }

    /** A finished sweep: the last bookmark has led to an empty page. */
    ghost predicate Complete(marks: seq<Bookmark>)
      requires Valid()
    {
      Chain(marks) && PageAt(|marks| - 1, marks[|marks| - 1]) == []
    }
  }

  predicate AtOrBefore(a: Key, b: Key) {
    a == b || Before(a, b)
  }

  /** The next bookmark is that of a stored matching record behind the current one, and the
      page holds nothing that comes after it. */
  lemma {:induction false} NextMarkIsBehind(sc: Scene, i: nat, b: Bookmark)
    requires sc.Valid() && sc.PageAt(i, b) != []
    ensures var page, next := sc.PageAt(i, b), sc.NextMark(i, b);
            && Behind(page[|page| - 1], b) && next != b
            && page[|page| - 1] in sc.Remaining(i, b)
            && forall c :: c in page ==> AtOrBefore(KeyOf(c), next.key)
  {
    sc.StaysWellStored(i + 1);
    var page := sc.PageAt(i, b);
    var last := page[|page| - 1];
    assert last in page;
    BeforeIsOrder(KeyOf(last), KeyOf(last));
    forall c | c in page ensures AtOrBefore(KeyOf(c), KeyOf(last)) {
      var k :| 0 <= k < |page| && page[k] == c;
      PageIsSorted(sc.At(i), sc.wanted, sc.size, b);
    }
  }

  lemma {:induction false} PageIsSorted(w: World, wanted: Certificate -> bool, size: nat, b: Bookmark)
    requires WellStored(w)
    ensures SortedNewest(Page(w, wanted, size, b))
  {
  }

  // ---------------------------------------------------------------- the reply

  datatype ListReply =
    | ListOk(count: int, pageIndex: int, certs: seq<Certificate>)
    | ListError(code: int)

  /** Certificates as a list shows them: dates are cut to the day. */
  function ShownAll(cs: seq<Certificate>): (r: seq<Certificate>)
    requires forall c :: c in cs ==> |c.updateDate| >= 10
    ensures |r| == |cs| && forall i :: 0 <= i < |cs| ==> r[i] == Shown(cs[i])
  {
    if cs == [] then [] else [Shown(cs[0])] + ShownAll(cs[1..])
  }

  lemma {:induction false} PageDatesAreFull(sc: Scene, i: nat, b: Bookmark)
    requires sc.Valid()
    ensures forall c :: c in sc.PageAt(i, b) ==> |c.updateDate| == 19
  {
    sc.StaysWellStored(i + 1);
  }

  /** What a finished sweep is turned into: three more queries at most give the page asked
      for, and the number of records on the last page. */
  ghost function Answer(sc: Scene, marks: seq<Bookmark>, pageIndex: int): ListReply
    requires sc.Valid() && marks != [] && pageIndex >= 1
  {
    var m := |marks|;
    var p := if m < pageIndex then m else pageIndex;
    PageDatesAreFull(sc, m, marks[p - 1]);
    ListOk(Count(sc, marks), p, ShownAll(sc.PageAt(m, marks[p - 1])))
  }

  /** Full pages times the page size, and the records of the last page that has any. */
  ghost function Count(sc: Scene, marks: seq<Bookmark>): int
    requires sc.Valid() && marks != []
  {
    var m := |marks|;
    if AsksAgain(sc, marks) then sc.size * (m - 2) + |sc.PageAt(m + 2, marks[m - 2])|
    else sc.size * (m - 1) + |sc.PageAt(m + 1, marks[m - 1])|
  }

  /** The last page is empty though there are others, so the one before it is asked for. */
  ghost predicate AsksAgain(sc: Scene, marks: seq<Bookmark>)
    requires sc.Valid() && marks != []
  {
    sc.PageAt(|marks| + 1, marks[|marks| - 1]) == [] && |marks| > 1
  }

  ghost function QueriesAsked(sc: Scene, marks: seq<Bookmark>): nat
    requires sc.Valid() && marks != []
  {
    |marks| + if AsksAgain(sc, marks) then 3 else 2
  }

  /** The request has made a complete sweep and then this reply, in so many calls. */
  ghost predicate IsAnswer(sc: Scene, marks: seq<Bookmark>, pageIndex: int, reply: ListReply, calls: nat) {
    && pageIndex >= 1 && sc.Valid() && sc.Complete(marks)
    && reply == Answer(sc, marks, pageIndex) && calls == sc.first + QueriesAsked(sc, marks)
  }

  // ---------------------------------------------------------------- a request among runs

  ghost predicate HonestAt(sc: Scene, n: nat) {
    AllHonest(sc.After(n), sc.Commits(n))
  }

  /** All commits that the request meets are honest. */
  ghost predicate HonestScene(sc: Scene) {
    forall n: nat :: HonestAt(sc, n)
  }

  lemma {:induction false} HonestScenesStaySound(sc: Scene, n: nat)
    requires Sound(sc.start) && HonestScene(sc)
    ensures Sound(sc.After(n))
    decreases n
  {
    if n > 0 {
      HonestScenesStaySound(sc, n - 1);
      assert HonestAt(sc, n - 1);
      HonestCommitsKeepSound(sc.After(n - 1), sc.Commits(n - 1));
    }
  }

  /** The calls of the request fall into a run of other operations: it starts in state number
      `at[0]`, and its call number `n` meets what the run commits up to state `at[n + 1]`. */
  ghost predicate WithinRun(sc: Scene, states: seq<State>, labels: seq<Label>, at: seq<nat>)
    requires IsRun(states, labels)
  {
    && at != [] && at[0] <= |labels| && sc.start == states[at[0]].world
    && (forall n: nat :: n + 1 < |at| ==> TurnOfRun(sc, states, labels, at, n))
    && (forall n: nat :: n + 1 >= |at| ==> sc.Commits(n) == [])
  }

  ghost predicate TurnOfRun(sc: Scene, states: seq<State>, labels: seq<Label>, at: seq<nat>, n: nat)
    requires IsRun(states, labels) && n + 1 < |at|
  {
    at[n] <= at[n + 1] <= |labels| && sc.Commits(n) == CommitsOf(states, labels, at[n], at[n + 1])
  }

  lemma {:induction false} RunGivesWorlds(sc: Scene, states: seq<State>, labels: seq<Label>, at: seq<nat>, n: nat)
    requires IsRun(states, labels) && WithinRun(sc, states, labels, at) && n < |at|
    ensures at[n] <= |labels| && sc.After(n) == states[at[n]].world
    decreases n
  {
    if n > 0 {
      RunGivesWorlds(sc, states, labels, at, n - 1);
      assert TurnOfRun(sc, states, labels, at, n - 1);
      RunsCommitHonestly(states, labels, at[n - 1], at[n]);
    }
  }

  /** A request within any run meets honest commits, and starts from a sound ledger. */
  lemma {:induction false} RunsGiveHonestScenes(sc: Scene, states: seq<State>, labels: seq<Label>, at: seq<nat>)
    requires IsRun(states, labels) && WithinRun(sc, states, labels, at)
    ensures Sound(sc.start) && HonestScene(sc)
  {
    EveryRunIsSound(states, labels, at[0]);
    forall n: nat ensures HonestAt(sc, n) {
      if n + 1 < |at| {
        RunGivesWorlds(sc, states, labels, at, n);
        assert TurnOfRun(sc, states, labels, at, n);
        RunsCommitHonestly(states, labels, at[n], at[n + 1]);
      }
    }
  }

  // ---------------------------------------------------------------- interleaved commits

  /** A certificate is never stamped earlier than the date it is stored with. */
  ghost predicate InOrder(w: World, cs: seq<Commit>)
    decreases |cs|
  {
    cs != [] ==>
      && (cs[0].CommitCertificate? && cs[0].cert.certId in w.certs ==>
            !Less(Format(cs[0].now), w.certs[cs[0].cert.certId].updateDate))
      && InOrder(Apply(w, cs[0]), cs[1..])
  }

  ghost predicate InOrderAt(sc: Scene, n: nat) {
    InOrder(sc.After(n), sc.Commits(n))
  }

  ghost predicate AllInOrder(sc: Scene) {
    forall n: nat :: InOrderAt(sc, n)
  }

  /** Dates never go back. */
  ghost predicate DatesGrow(w: World, v: World) {
    forall id :: id in w.certs ==> id in v.certs && !Less(v.certs[id].updateDate, w.certs[id].updateDate)
  }

  lemma {:induction false} NotLessIsTransitive(a: string, b: string, c: string)
    requires !Less(b, a) && !Less(c, b)
    ensures !Less(c, a)
  {
    LessIsTotal(a, b);
    LessIsTotal(b, c);
    LessIsTotal(a, c);
    if Less(a, b) && Less(b, c) { LessIsTransitive(a, b, c); }
  }

  lemma DatesGrowIsTransitive(u: World, v: World, w: World)
    requires DatesGrow(u, v) && DatesGrow(v, w)
    ensures DatesGrow(u, w)
  {
    forall id | id in u.certs ensures id in w.certs && !Less(w.certs[id].updateDate, u.certs[id].updateDate) {
      NotLessIsTransitive(u.certs[id].updateDate, v.certs[id].updateDate, w.certs[id].updateDate);
    }
  }

  lemma DatesGrowIsReflexive(w: World)
    ensures DatesGrow(w, w)
  {
    forall id | id in w.certs ensures !Less(w.certs[id].updateDate, w.certs[id].updateDate) {
      LessIsTotal(w.certs[id].updateDate, w.certs[id].updateDate);
    }
  }

  lemma {:induction false} CommitsInOrderGrow(w: World, cs: seq<Commit>)
    requires InOrder(w, cs)
    ensures DatesGrow(w, ApplyAll(w, cs))
    decreases |cs|
  {
    DatesGrowIsReflexive(w);
    if cs != [] {
      CommitsInOrderGrow(Apply(w, cs[0]), cs[1..]);
      DatesGrowIsTransitive(w, Apply(w, cs[0]), ApplyAll(w, cs));
    }
  }

  lemma {:induction false} WorldGrows(sc: Scene, n: nat)
    requires InOrderAt(sc, n)
    ensures DatesGrow(sc.After(n), sc.After(n + 1))
  {
    CommitsInOrderGrow(sc.After(n), sc.Commits(n));
  }

  lemma {:induction false} WorldsGrow(sc: Scene, m: nat, n: nat)
    requires AllInOrder(sc) && m <= n
    ensures DatesGrow(sc.After(m), sc.After(n))
    decreases n
  {
    if m == n {
      DatesGrowIsReflexive(sc.After(m));
    } else {
      WorldsGrow(sc, m, n - 1);
      assert InOrderAt(sc, n - 1);
      WorldGrows(sc, n - 1);
      DatesGrowIsTransitive(sc.After(m), sc.After(n - 1), sc.After(n));
    }
  }

  /** The keys of the bookmarks after the first come in listing order. */
  ghost predicate Descends(marks: seq<Bookmark>) {
    && (forall i :: 1 <= i < |marks| ==> marks[i].After?)
    && (forall i :: 2 <= i < |marks| ==> Before(marks[i - 1].key, marks[i].key))
  }

  lemma {:induction false} DescendsFar(marks: seq<Bookmark>, a: nat, b: nat)
    requires Descends(marks) && 1 <= a <= b < |marks|
    ensures AtOrBefore(marks[a].key, marks[b].key)
    decreases b
  {
    if a < b {
      DescendsFar(marks, a, b - 1);
      if marks[a].key != marks[b - 1].key {
        BeforeIsTransitive(marks[a].key, marks[b - 1].key, marks[b].key);
      }
    }
  }

  lemma {:induction false} MarksDescend(sc: Scene, marks: seq<Bookmark>)
    requires sc.Valid() && sc.Chain(marks)
    ensures Descends(marks)
  {
    forall i | 1 <= i < |marks|
      ensures marks[i].After? && (i >= 2 && marks[i - 1].After? ==> Before(marks[i - 1].key, marks[i].key))
    {
      LinkDescends(sc, marks, i - 1);
    }
  }

  lemma {:induction false} LinkDescends(sc: Scene, marks: seq<Bookmark>, i: nat)
    requires sc.Valid() && i + 1 < |marks| && sc.Link(marks, i)
    ensures marks[i + 1].After? && (marks[i].After? ==> Before(marks[i].key, marks[i + 1].key))
  {
    NextMarkIsBehind(sc, i, marks[i]);
  }

  lemma {:induction false} PageRecordsAreStored(sc: Scene, i: nat, b: Bookmark, c: Certificate)
    requires sc.Valid() && c in sc.PageAt(i, b)
    ensures c in sc.Remaining(i, b) && Behind(c, b)
    ensures c.certId in sc.At(i).certs && sc.At(i).certs[c.certId] == c
  {
    sc.StaysWellStored(i + 1);
  }

  /** A later listing of the same certificate would need an earlier date. */
  lemma ListedLaterIsDatedEarlier(c: Certificate, d: Certificate)
    requires Before(KeyOf(c), KeyOf(d)) && !Less(d.updateDate, c.updateDate)
    ensures c.certId != d.certId
  {
    LessIsTotal(c.certId, c.certId);
  }

  /** No certificate shows up on two pages of one sweep, however many are rewritten meanwhile:
      a rewritten one moves ahead of every bookmark that has passed it. */
  lemma {:induction false} NoCertificateTwice(sc: Scene, marks: seq<Bookmark>, i: nat, j: nat, c: Certificate,
      d: Certificate)
    requires sc.Valid() && AllInOrder(sc) && sc.Chain(marks) && i < j < |marks|
    requires c in sc.PageAt(i, marks[i]) && d in sc.PageAt(j, marks[j])
    ensures c.certId != d.certId
  {
    PageRecordsAreStored(sc, i, marks[i], c);
    PageRecordsAreStored(sc, j, marks[j], d);
    MarksDescend(sc, marks);
    DescendsFar(marks, i + 1, j);
    assert sc.Link(marks, i);
    NextMarkIsBehind(sc, i, marks[i]);
    KeyChain(KeyOf(c), marks[i + 1].key, marks[j].key, KeyOf(d));
    WorldsGrow(sc, i + 1, j + 1);
    if c.certId == d.certId { ListedLaterIsDatedEarlier(c, d); }
  }

  lemma KeyChain(a: Key, b: Key, c: Key, d: Key)
    requires AtOrBefore(a, b) && AtOrBefore(b, c) && Before(c, d)
    ensures Before(a, d)
  {
    if b != c { BeforeIsTransitive(b, c, d); }
    if a != b { BeforeIsTransitive(a, b, d); }
  }

  /** Within a page no certificate is listed twice either. */
  lemma {:induction false} NoCertificateTwiceOnPage(sc: Scene, i: nat, b: Bookmark, k: nat, l: nat)
    requires sc.Valid() && k < l < |sc.PageAt(i, b)|
    ensures sc.PageAt(i, b)[k].certId != sc.PageAt(i, b)[l].certId
  {
    sc.StaysWellStored(i + 1);
    var page := sc.PageAt(i, b);
    PageIsSorted(sc.At(i), sc.wanted, sc.size, b);
    assert page[k] in page && page[l] in page;
    assert page[k] in sc.Remaining(i, b) && page[l] in sc.Remaining(i, b);
    BeforeIsOrder(KeyOf(page[k]), KeyOf(page[k]));
  }

  /** The certificate is stored as `c` when query number `i` is asked. */
  ghost predicate Stays(sc: Scene, i: nat, c: Certificate) {
    c.certId in sc.At(i).certs && sc.At(i).certs[c.certId] == c
  }

  /** A matching record behind the bookmark is on the page or behind the next bookmark. */
  lemma {:induction false} ListedOrLater(sc: Scene, i: nat, b: Bookmark, c: Certificate)
    requires sc.Valid() && Stays(sc, i, c) && sc.wanted(c) && Behind(c, b)
    ensures sc.PageAt(i, b) != []
    ensures c in sc.PageAt(i, b) || Behind(c, sc.NextMark(i, b))
  {
    sc.StaysWellStored(i + 1);
    var rest, page := Sorted(sc.Remaining(i, b)), sc.PageAt(i, b);
    assert c in Matching(sc.At(i), sc.wanted) && c in sc.Remaining(i, b) && c in rest;
    var k :| 0 <= k < |rest| && rest[k] == c;
    if k < |page| { assert page[k] == c; }
  }

  lemma {:induction false} PassedIsNotBehind(sc: Scene, marks: seq<Bookmark>, i: nat, j: nat, c: Certificate)
    requires sc.Valid() && sc.Chain(marks) && i < j < |marks| && c in sc.PageAt(i, marks[i])
    ensures c !in sc.PageAt(j, marks[j])
  {
    assert sc.Link(marks, i);
    NextMarkIsBehind(sc, i, marks[i]);
    MarksDescend(sc, marks);
    DescendsFar(marks, i + 1, j);
    if c in sc.PageAt(j, marks[j]) {
      KeyChain(KeyOf(c), marks[i + 1].key, marks[j].key, KeyOf(c));
      BeforeIsOrder(KeyOf(c), KeyOf(c));
    }
  }

  lemma {:induction false} NotYetListed(sc: Scene, marks: seq<Bookmark>, n: nat, c: Certificate)
    requires sc.Valid() && sc.Chain(marks) && n < |marks| && sc.wanted(c)
    requires forall i: nat :: i < |marks| ==> Stays(sc, i, c)
    requires forall i: nat :: i < n ==> c !in sc.PageAt(i, marks[i])
    ensures Behind(c, marks[n])
    decreases n
  {
    if n > 0 {
      NotYetListed(sc, marks, n - 1, c);
      assert sc.Link(marks, n - 1);
      ListedOrLater(sc, n - 1, marks[n - 1], c);
    }
  }

  /** Nothing is missed: whatever else is committed meanwhile, a certificate that is stored and
      wanted, and the same from the first query of a finished sweep to its last, is on exactly
      one of its pages. */
  lemma {:induction false} NothingIsMissed(sc: Scene, marks: seq<Bookmark>, c: Certificate) returns (i: nat)
    requires sc.Valid() && sc.Complete(marks) && sc.wanted(c)
    requires forall j: nat :: j < |marks| ==> Stays(sc, j, c)
    ensures i < |marks| && c in sc.PageAt(i, marks[i])
    ensures forall j: nat :: j < |marks| && j != i ==> c !in sc.PageAt(j, marks[j])
  {
    var m := |marks| - 1;
    if forall j: nat :: j < m ==> c !in sc.PageAt(j, marks[j]) {
      NotYetListed(sc, marks, m, c);
      ListedOrLater(sc, m, marks[m], c);
      assert false;
    }
    i :| i < m && c in sc.PageAt(i, marks[i]);
    forall j: nat | j < |marks| && j != i ensures c !in sc.PageAt(j, marks[j]) {
      if i < j { PassedIsNotBehind(sc, marks, i, j, c); }
      else if c in sc.PageAt(j, marks[j]) { PassedIsNotBehind(sc, marks, j, i, c); }
    }
  }

  // ---------------------------------------------------------------- length of a sweep

  /** The certificates among the commits. */
  function CertificateCommits(cs: seq<Commit>): nat {
    if cs == [] then 0 else (if cs[0].CommitCertificate? then 1 else 0) + CertificateCommits(cs[1..])
  }

  /** One commit puts at most one more record behind a bookmark. */
  lemma {:induction false} CommitAddsOne(w: World, c: Commit, wanted: Certificate -> bool, b: Bookmark)
    requires WellStored(w) && WellStored(Apply(w, c))
    ensures |MatchingBehind(Apply(w, c), wanted, b)| <= |MatchingBehind(w, wanted, b)| + CertificateCommits([c])
  {
    var before, behind := MatchingBehind(w, wanted, b), MatchingBehind(Apply(w, c), wanted, b);
    if c.CommitCertificate? {
      var stored := Apply(w, c).certs[c.cert.certId];
      SubsetIsSmaller(behind, before + {stored});
    } else {
      SubsetIsSmaller(behind, before);
    }
  }

  lemma {:induction false} SubsetIsSmaller(s: set<Certificate>, t: set<Certificate>)
    requires s <= t
    ensures |s| <= |t|
    decreases t
  {
    if c :| c in s {
      assert s == (s - {c}) + {c} && t == (t - {c}) + {c};
      SubsetIsSmaller(s - {c}, t - {c});
    }
  }

  lemma {:induction false} CommitsAddAtMost(w: World, cs: seq<Commit>, wanted: Certificate -> bool, b: Bookmark)
    requires WellStored(w) && WellStored(ApplyAll(w, cs))
    ensures |MatchingBehind(ApplyAll(w, cs), wanted, b)| <= |MatchingBehind(w, wanted, b)| + CertificateCommits(cs)
    decreases |cs|
  {
    if cs != [] {
      CommitAddsOne(w, cs[0], wanted, b);
      CommitsAddAtMost(Apply(w, cs[0]), cs[1..], wanted, b);
    }
  }

  /** One page takes at least one record from what remains, and each certificate committed before
      the next query adds at most one to it. */
  lemma {:induction false} PageTakesOne(sc: Scene, i: nat, b: Bookmark)
    requires sc.Valid() && sc.PageAt(i, b) != []
    ensures |sc.Remaining(i + 1, sc.NextMark(i, b))| + 1 <= |sc.Remaining(i, b)| + CertificateCommits(sc.Commits(i + 1))
  {
    NextMarkIsBehind(sc, i, b);
    var page := sc.PageAt(i, b);
    LessRemains(sc, i, b, page[|page| - 1]);
  }

  lemma {:induction false} LessRemains(sc: Scene, i: nat, b: Bookmark, last: Certificate)
    requires sc.Valid() && last in sc.Remaining(i, b)
    ensures |sc.Remaining(i + 1, Bookmark.After(KeyOf(last)))| + 1
            <= |sc.Remaining(i, b)| + CertificateCommits(sc.Commits(i + 1))
  {
    hide MatchingBehind, CertificateCommits, WellStored, ApplyAll;
    sc.StaysWellStored(i + 1);
    sc.StaysWellStored(i + 2);
    LessIsBehindLast(sc.At(i), sc.wanted, b, last);
    CommitsAddAtMost(sc.At(i), sc.Commits(i + 1), sc.wanted, Bookmark.After(KeyOf(last)));
  }

  lemma {:induction false} LessIsBehindLast(w: World, wanted: Certificate -> bool, b: Bookmark, last: Certificate)
    requires WellStored(w) && last in MatchingBehind(w, wanted, b)
    ensures |MatchingBehind(w, wanted, Bookmark.After(KeyOf(last)))| < |MatchingBehind(w, wanted, b)|
  {
    var all, rest := MatchingBehind(w, wanted, b), MatchingBehind(w, wanted, Bookmark.After(KeyOf(last)));
    BeforeIsOrder(KeyOf(last), KeyOf(last));
    forall c | c in rest ensures c in all - {last} {
      if b.After? { BeforeIsTransitive(b.key, KeyOf(last), KeyOf(c)); }
    }
    SubsetIsSmaller(rest, all - {last});
  }

  /** The certificates committed after the first query and before query number `i` + 1. */
  function CommittedMeanwhile(sc: Scene, i: nat): nat {
    if i == 0 then 0 else CommittedMeanwhile(sc, i - 1) + CertificateCommits(sc.Commits(i))
  }

  lemma {:induction false} RemainingIsBounded(sc: Scene, marks: seq<Bookmark>, i: nat)
    requires sc.Valid() && sc.Chain(marks) && i < |marks|
    ensures i + |sc.Remaining(i, marks[i])| <= |sc.Remaining(0, Start)| + CommittedMeanwhile(sc, i)
    decreases i
  {
    if i > 0 {
      RemainingIsBounded(sc, marks, i - 1);
      assert sc.Link(marks, i - 1);
      PageTakesOne(sc, i - 1, marks[i - 1]);
    }
  }

  /** Whatever the stamps, a sweep has at most one page for each match it began with and one for
      each certificate committed between its queries. So it can only go on for ever if about one
      certificate is committed for every page. */
  lemma {:induction false} SweepIsBoundedByCommits(sc: Scene, marks: seq<Bookmark>)
    requires sc.Valid() && sc.Chain(marks)
    ensures |marks| - 1 <= |sc.Remaining(0, Start)| + if |marks| < 2 then 0 else CommittedMeanwhile(sc, |marks| - 2)
  {
    var n := |marks|;
    if n >= 2 {
      RemainingIsBounded(sc, marks, n - 2);
      assert sc.Link(marks, n - 2);
      NextMarkIsBehind(sc, n - 2, marks[n - 2]);
    }
  }

  // ---------------------------------------------------------------- termination

  /** Every certificate committed from query number `settle` on is stamped later than
      everything that was stored when the sweep began. */
  ghost predicate Settles(sc: Scene, settle: nat) {
    forall i: nat, c :: settle <= i && c in sc.Commits(i) && c.CommitCertificate? ==>
      LaterThanAll(sc.At(0), Format(c.now))
  }

  ghost predicate LaterThanAll(w: World, date: string) {
    forall id :: id in w.certs ==> Less(w.certs[id].updateDate, date)
  }

  /** The bookmark is no later than some certificate that was stored when the sweep began. */
  ghost predicate Bounded(sc: Scene, b: Bookmark) {
    b.After? ==> exists id :: id in sc.At(0).certs && !Less(sc.At(0).certs[id].updateDate, b.key.date)
  }

  lemma {:induction false} NextMarkIsBounded(sc: Scene, i: nat, b: Bookmark)
    requires sc.Valid() && sc.PageAt(i, b) != [] && Bounded(sc, b) && (b.Start? ==> i == 0)
    ensures Bounded(sc, sc.NextMark(i, b))
  {
    NextMarkIsBehind(sc, i, b);
    var page := sc.PageAt(i, b);
    var last := page[|page| - 1];
    sc.StaysWellStored(i + 1);
    if b.Start? {
      assert last.certId in sc.At(0).certs;
      LessIsTotal(last.updateDate, last.updateDate);
    } else {
      var id :| id in sc.At(0).certs && !Less(sc.At(0).certs[id].updateDate, b.key.date);
      LessIsTotal(b.key.date, last.updateDate);
      NotLessIsTransitive(last.updateDate, b.key.date, sc.At(0).certs[id].updateDate);
    }
  }

  /** Commits stamped later than the bookmark put nothing behind it. */
  lemma {:induction false} LaterCommitsStayAhead(w: World, cs: seq<Commit>, date: string, id: string)
    requires forall c :: c in cs && c.CommitCertificate? ==> Less(date, Format(c.now))
    requires id in ApplyAll(w, cs).certs && !Less(date, ApplyAll(w, cs).certs[id].updateDate)
    ensures id in w.certs && w.certs[id] == ApplyAll(w, cs).certs[id]
    decreases |cs|
  {
    if cs != [] {
      assert cs[0] in cs;
      assert forall c :: c in cs[1..] ==> c in cs;
      LaterCommitsStayAhead(Apply(w, cs[0]), cs[1..], date, id);
    }
  }

  lemma {:induction false} SettledCommitsAreLater(sc: Scene, settle: nat, i: nat, b: Bookmark)
    requires Settles(sc, settle) && settle <= i && b.After? && Bounded(sc, b)
    ensures forall c :: c in sc.Commits(i) && c.CommitCertificate? ==> Less(b.key.date, Format(c.now))
  {
    var id :| id in sc.At(0).certs && !Less(sc.At(0).certs[id].updateDate, b.key.date);
    var date := sc.At(0).certs[id].updateDate;
    forall c | c in sc.Commits(i) && c.CommitCertificate? ensures Less(b.key.date, Format(c.now)) {
      assert Less(date, Format(c.now));
      LessIsTotal(b.key.date, date);
      if Less(b.key.date, date) { LessIsTransitive(b.key.date, date, Format(c.now)); }
    }
  }

  /** Whatever is behind the bookmark after such commits was behind it before. */
  lemma {:induction false} NothingComesBehind(w: World, cs: seq<Commit>, wanted: Certificate -> bool, b: Bookmark,
      c: Certificate)
    requires WellStored(w) && WellStored(ApplyAll(w, cs)) && b.After?
    requires forall k :: k in cs && k.CommitCertificate? ==> Less(b.key.date, Format(k.now))
    requires c in MatchingBehind(ApplyAll(w, cs), wanted, b)
    ensures c in MatchingBehind(w, wanted, b)
  {
    LessIsTotal(b.key.date, c.updateDate);
    LaterCommitsStayAhead(w, cs, b.key.date, c.certId);
  }

  /** One page and the commits after it leave less behind the bookmark of its last record. */
  lemma {:induction false} PageShrinksRest(w: World, cs: seq<Commit>, wanted: Certificate -> bool, b: Bookmark,
      last: Certificate)
    requires WellStored(w) && WellStored(ApplyAll(w, cs))
    requires last in MatchingBehind(w, wanted, b)
    requires forall k :: k in cs && k.CommitCertificate? ==> Less(last.updateDate, Format(k.now))
    ensures MatchingBehind(ApplyAll(w, cs), wanted, Bookmark.After(KeyOf(last))) < MatchingBehind(w, wanted, b)
  {
    var next := Bookmark.After(KeyOf(last));
    forall c | c in MatchingBehind(ApplyAll(w, cs), wanted, next) ensures c in MatchingBehind(w, wanted, b) {
      NothingComesBehind(w, cs, wanted, next, c);
      if b.After? { BeforeIsTransitive(b.key, next.key, KeyOf(c)); }
    }
    BeforeIsOrder(KeyOf(last), KeyOf(last));
    assert last !in MatchingBehind(ApplyAll(w, cs), wanted, next);
  }

  lemma {:induction false} RemainingAfterCommits(sc: Scene, i: nat, b: Bookmark, last: Certificate)
    requires sc.Valid() && last in sc.Remaining(i, b)
    requires forall k :: k in sc.Commits(i + 1) && k.CommitCertificate? ==> Less(last.updateDate, Format(k.now))
    ensures sc.Remaining(i + 1, Bookmark.After(KeyOf(last))) < sc.Remaining(i, b)
  {
    sc.StaysWellStored(i + 1);
    sc.StaysWellStored(i + 2);
    PageShrinksRest(sc.At(i), sc.Commits(i + 1), sc.wanted, b, last);
  }

  lemma {:induction false} SettledCommitsPassPage(sc: Scene, settle: nat, i: nat, b: Bookmark)
    requires sc.Valid() && Settles(sc, settle) && settle <= i + 1
    requires sc.PageAt(i, b) != [] && Bounded(sc, b) && (b.Start? ==> i == 0)
    ensures forall c :: c in sc.Commits(i + 1) && c.CommitCertificate? ==>
        Less(sc.NextMark(i, b).key.date, Format(c.now))
  {
    NextMarkIsBounded(sc, i, b);
    SettledCommitsAreLater(sc, settle, i + 1, sc.NextMark(i, b));
  }

  /** Once the stamps have moved past the dates the sweep began with, each non-empty page
      strictly shrinks what remains behind the bookmark. */
  lemma {:induction false} RemainingShrinks(sc: Scene, settle: nat, i: nat, b: Bookmark)
    requires sc.Valid() && Settles(sc, settle) && settle <= i + 1
    requires sc.PageAt(i, b) != [] && Bounded(sc, b) && (b.Start? ==> i == 0)
    ensures sc.Remaining(i + 1, sc.NextMark(i, b)) < sc.Remaining(i, b)
  {
    var page := sc.PageAt(i, b);
    NextMarkIsBehind(sc, i, b);
    SettledCommitsPassPage(sc, settle, i, b);
    RemainingAfterCommits(sc, i, b, page[|page| - 1]);
  }

  // ---------------------------------------------------------------- strictly later stamps

  /** Each commit of a certificate is stamped later than everything stored at that moment. */
  ghost predicate StrictlyLater(w: World, cs: seq<Commit>)
    decreases |cs|
  {
    cs != [] ==>
      && (cs[0].CommitCertificate? ==> LaterThanAll(w, Format(cs[0].now)))
      && StrictlyLater(Apply(w, cs[0]), cs[1..])
  }

  ghost predicate StrictlyLaterAt(sc: Scene, n: nat) {
    StrictlyLater(sc.After(n), sc.Commits(n))
  }

  ghost predicate AllStrictlyLater(sc: Scene) {
    forall n: nat :: StrictlyLaterAt(sc, n)
  }

  lemma {:induction false} StrictIsInOrder(w: World, cs: seq<Commit>)
    requires StrictlyLater(w, cs)
    ensures InOrder(w, cs)
    decreases |cs|
  {
    if cs != [] {
      if cs[0].CommitCertificate? && cs[0].cert.certId in w.certs {
        LessIsTotal(Format(cs[0].now), w.certs[cs[0].cert.certId].updateDate);
      }
      StrictIsInOrder(Apply(w, cs[0]), cs[1..]);
    }
  }

  /** A stamp later than all current dates is later than all earlier ones. */
  lemma {:induction false} LaterThanPast(u: World, w: World, cs: seq<Commit>)
    requires DatesGrow(u, w) && StrictlyLater(w, cs)
    ensures forall c :: c in cs && c.CommitCertificate? ==> LaterThanAll(u, Format(c.now))
    decreases |cs|
  {
    if cs != [] {
      if cs[0].CommitCertificate? {
        forall id | id in u.certs ensures Less(u.certs[id].updateDate, Format(cs[0].now)) {
          LessIsTotal(w.certs[id].updateDate, u.certs[id].updateDate);
          if Less(u.certs[id].updateDate, w.certs[id].updateDate) {
            LessIsTransitive(u.certs[id].updateDate, w.certs[id].updateDate, Format(cs[0].now));
          }
        }
      }
      StrictIsInOrder(w, cs);
      CommitsInOrderGrow(w, [cs[0]]);
      assert ApplyAll(w, [cs[0]]) == Apply(w, cs[0]);
      DatesGrowIsTransitive(u, w, Apply(w, cs[0]));
      LaterThanPast(u, Apply(w, cs[0]), cs[1..]);
    }
  }

  /** With strictly later stamps the sweep settles at once, so it always comes to an end. */
  lemma {:induction false} StrictStampsSettle(sc: Scene)
    requires AllStrictlyLater(sc)
    ensures AllInOrder(sc) && Settles(sc, 1)
  {
    forall n: nat ensures InOrderAt(sc, n) {
      assert StrictlyLaterAt(sc, n);
      StrictIsInOrder(sc.After(n), sc.Commits(n));
    }
    forall i: nat, c | 1 <= i && c in sc.Commits(i) && c.CommitCertificate?
      ensures LaterThanAll(sc.At(0), Format(c.now))
    {
      WorldsGrow(sc, 1, i);
      assert StrictlyLaterAt(sc, i);
      LaterThanPast(sc.At(0), sc.After(i), sc.Commits(i));
    }
  }
}
