/** List requests while nobody commits: exact counts, exact pages. */
module Snapshots {
  import opened Records
  import opened Peer
  import opened Paging
  import opened Workflow
  import opened Sweep

  ghost predicate Still(sc: Scene) {
    forall n: nat :: sc.Commits(n) == []
  }

  ghost function All(sc: Scene): seq<Certificate>
    requires sc.Valid()
  {
    Listing(sc.start, sc.wanted)
  }

  /** The number of pages that `n` records take. */
  function Pages(n: nat, size: nat): nat
    requires size > 0
  {
    (n + size - 1) / size
  }

  /** Records (p-1)*size up to p*size, as far as there are any. */
  function SnapshotPage(all: seq<Certificate>, size: nat, p: nat): seq<Certificate>
    requires p >= 1
  {
    Slice(all, Offset(p - 1, size, |all|), Offset(p, size, |all|))
  }

  function Slice(all: seq<Certificate>, lo: nat, hi: nat): seq<Certificate> {
    if lo <= hi <= |all| then all[lo..hi] else []
  }

  function Offset(i: nat, size: nat, n: nat): nat {
    Min(i * size, n)
  }

  lemma OffsetStep(i: nat, size: nat, n: nat)
    ensures Offset(i, size, n) <= Offset(i + 1, size, n) == Min(Offset(i, size, n) + size, n)
  {
    assert (i + 1) * size == i * size + size;
  }

  /** The page count is the only number whose pages hold `n` records with none empty. */
  lemma PagesIsUnique(n: nat, size: nat, k: nat)
    requires size > 0 && n <= k * size && (k > 0 ==> (k - 1) * size < n)
    ensures k == Pages(n, size)
  {
    var q := Pages(n, size);
    assert q * size <= n + size - 1 < (q + 1) * size == q * size + size;
    assert k > 0 ==> (k - 1) * size == k * size - size;
    assert (k + 1) * size == k * size + size;
    MulIsMonotone(k + 1, q, size);
    MulIsMonotone(q + 1, k, size);
  }

  lemma MulIsMonotone(a: nat, b: nat, size: nat)
    ensures a <= b ==> a * size <= b * size
  {
  }

  lemma {:induction false} StillWorld(sc: Scene, n: nat)
    requires Still(sc)
    ensures sc.After(n) == sc.start
    decreases n
  {
    if n > 0 {
      StillWorld(sc, n - 1);
      assert sc.Commits(n - 1) == [];
    }
  }

  lemma {:induction false} StillPage(sc: Scene, i: nat, b: Bookmark, n: nat)
    requires sc.Valid() && Still(sc) && Denotes(All(sc), b, n)
    ensures sc.PageAt(i, b) == All(sc)[n..Min(n + sc.size, |All(sc)|)]
  {
    StillWorld(sc, i + 1);
    PageIsSlice(sc.start, sc.wanted, sc.size, b, n);
  }

  /** Bookmark number `i` stands in front of record number min(i * size, N). */
  lemma {:induction false} MarksDenoteOffsets(sc: Scene, marks: seq<Bookmark>, i: nat)
    requires sc.Valid() && Still(sc) && sc.Chain(marks) && i < |marks|
    ensures Denotes(All(sc), marks[i], Offset(i, sc.size, |All(sc)|))
    decreases i
  {
    if i > 0 {
      MarksDenoteOffsets(sc, marks, i - 1);
      assert sc.Link(marks, i - 1);
      NextOffset(sc, i - 1, marks[i - 1]);
    }
  }

  lemma {:induction false} NextOffset(sc: Scene, i: nat, b: Bookmark)
    requires sc.Valid() && Still(sc) && Denotes(All(sc), b, Offset(i, sc.size, |All(sc)|)) && sc.PageAt(i, b) != []
    ensures Denotes(All(sc), sc.NextMark(i, b), Offset(i + 1, sc.size, |All(sc)|))
  {
    hide Denotes, Scene.PageAt, Offset, Listing;
    var n := Offset(i, sc.size, |All(sc)|);
    OffsetStep(i, sc.size, |All(sc)|);
    StillPage(sc, i, b, n);
    SliceGivesNextMark(All(sc), sc.size, n);
  }

  lemma {:induction false} PageAtMark(sc: Scene, marks: seq<Bookmark>, k: nat, i: nat)
    requires sc.Valid() && Still(sc) && sc.Chain(marks) && k < |marks|
    ensures sc.PageAt(i, marks[k]) == SnapshotPage(All(sc), sc.size, k + 1)
  {
    MarksDenoteOffsets(sc, marks, k);
    OffsetStep(k, sc.size, |All(sc)|);
    StillPage(sc, i, marks[k], Offset(k, sc.size, |All(sc)|));
  }

  /** The sweep collects one bookmark for each page, and one more. */
  lemma {:induction false} SweepCollectsAllPages(sc: Scene, marks: seq<Bookmark>)
    requires sc.Valid() && Still(sc) && sc.Complete(marks)
    ensures |marks| == Pages(|All(sc)|, sc.size) + 1
  {
    var n, m, s := |All(sc)|, |marks| - 1, sc.size;
    PageAtMark(sc, marks, m, m);
    OffsetStep(m, s, n);
    assert n <= m * s;
    if m > 0 {
      assert sc.Link(marks, m - 1);
      PageAtMark(sc, marks, m - 1, m - 1);
      OffsetStep(m - 1, s, n);
      assert (m - 1) * s < n;
    }
    PagesIsUnique(n, s, m);
  }

  lemma {:induction false} PagesHold(n: nat, size: nat)
    requires size > 0
    ensures Offset(Pages(n, size), size, n) == n
    ensures n > 0 ==> Pages(n, size) > 0 && Offset(Pages(n, size) - 1, size, n) == (Pages(n, size) - 1) * size < n
    ensures n == 0 ==> Pages(n, size) == 0
  {
    var q := Pages(n, size);
    assert q * size <= n + size - 1 < q * size + size;
    if n > 0 { assert (q - 1) * size == q * size - size; }
  }

  /** The certificates of a reply are those of a page, with their dates cut to the day. */
  ghost predicate ShowsPage(certs: seq<Certificate>, page: seq<Certificate>) {
    && |certs| == |page|
    && forall i :: 0 <= i < |page| ==> |page[i].updateDate| == 19 && certs[i] == Shown(page[i])
  }

  /** The reply on an unchanging ledger: the count is the number of matching records, the
      page is the slice asked for; past the last page there is one more, empty, page. */
  lemma {:induction false} SnapshotAnswer(sc: Scene, marks: seq<Bookmark>, pageIndex: int)
    requires sc.Valid() && Still(sc) && sc.Complete(marks) && pageIndex >= 1
    ensures var all, reply := All(sc), Answer(sc, marks, pageIndex);
            var pages := Pages(|all|, sc.size);
            && reply.count == |all|
            && reply.pageIndex == (if pageIndex <= pages then pageIndex else pages + 1)
            && ShowsPage(reply.certs, SnapshotPage(all, sc.size, reply.pageIndex))
            && (pageIndex > pages ==> reply.certs == [])
  {
    var p := if |marks| < pageIndex then |marks| else pageIndex;
    SweepCollectsAllPages(sc, marks);
    SnapshotCount(sc, marks);
    LastPageIsEmpty(All(sc), sc.size);
    MarkShowsPage(sc, marks, p, sc.PageAt(|marks|, marks[p - 1]));
  }

  lemma {:induction false} ShownAllShows(page: seq<Certificate>)
    requires forall c :: c in page ==> |c.updateDate| == 19
    ensures ShowsPage(ShownAll(page), page)
  {
    assert forall i :: 0 <= i < |page| ==> page[i] in page;
  }

  lemma {:induction false} MarkShowsPage(sc: Scene, marks: seq<Bookmark>, p: nat, page: seq<Certificate>)
    requires sc.Valid() && Still(sc) && sc.Chain(marks) && 1 <= p <= |marks| && page == sc.PageAt(|marks|, marks[p - 1])
    ensures forall c :: c in page ==> |c.updateDate| == 19
    ensures page == SnapshotPage(All(sc), sc.size, p) && ShowsPage(ShownAll(page), page)
  {
    PageAtMark(sc, marks, p - 1, |marks|);
    PageDatesAreFull(sc, |marks|, marks[p - 1]);
    ShownAllShows(page);
  }

  lemma {:induction false} LastPageIsEmpty(all: seq<Certificate>, size: nat)
    requires size > 0
    ensures SnapshotPage(all, size, Pages(|all|, size) + 1) == []
  {
    PagesHold(|all|, size);
    OffsetStep(Pages(|all|, size), size, |all|);
  }

  lemma {:induction false} LastButOnePage(all: seq<Certificate>, size: nat)
    requires size > 0 && all != []
    ensures var q := Pages(|all|, size);
            q > 0 && |SnapshotPage(all, size, q)| == |all| - (q - 1) * size
  {
    PagesHold(|all|, size);
  }

  /** With records there is always an empty last page, and without any there is only one. */
  lemma {:induction false} SnapshotCount(sc: Scene, marks: seq<Bookmark>)
    requires sc.Valid() && Still(sc) && sc.Complete(marks)
    ensures AsksAgain(sc, marks) <==> All(sc) != []
    ensures Count(sc, marks) == |All(sc)|
  {
    var m, all := |marks|, All(sc);
    SweepCollectsAllPages(sc, marks);
    PagesHold(|all|, sc.size);
    PageAtMark(sc, marks, m - 1, m + 1);
    LastPageIsEmpty(all, sc.size);
    if all != [] {
      PageAtMark(sc, marks, m - 2, m + 2);
      LastButOnePage(all, sc.size);
      assert sc.size * (m - 2) == (m - 2) * sc.size;
    }
  }

  /** The number in the reply is the number of stored certificates that match. */
  lemma {:induction false} SnapshotCountsMatching(sc: Scene, marks: seq<Bookmark>)
    requires sc.Valid() && Still(sc) && sc.Complete(marks)
    ensures Count(sc, marks) == |Matching(sc.start, sc.wanted)|
  {
    SnapshotCount(sc, marks);
    SortNewestIsSorted(MatchingBehind(sc.start, sc.wanted, Start));
    assert MatchingBehind(sc.start, sc.wanted, Start) == Matching(sc.start, sc.wanted);
  }

  /** A list request takes ceil(N / size) + 4 queries, and three when nothing matches. */
  lemma {:induction false} SnapshotQueries(sc: Scene, marks: seq<Bookmark>)
    requires sc.Valid() && Still(sc) && sc.Complete(marks)
    ensures QueriesAsked(sc, marks) == if All(sc) == [] then 3 else Pages(|All(sc)|, sc.size) + 4
  {
    SweepCollectsAllPages(sc, marks);
    SnapshotCount(sc, marks);
    PagesHold(|All(sc)|, sc.size);
  }

  /** The first `k` pages, one after the other. */
  function FirstPages(all: seq<Certificate>, size: nat, k: nat): seq<Certificate> {
    if k == 0 then [] else FirstPages(all, size, k - 1) + SnapshotPage(all, size, k)
  }

  lemma {:induction false} FirstPagesArePrefix(all: seq<Certificate>, size: nat, k: nat)
    ensures FirstPages(all, size, k) == all[..Offset(k, size, |all|)]
    decreases k
  {
    if k > 0 {
      FirstPagesArePrefix(all, size, k - 1);
      OffsetStep(k - 1, size, |all|);
    }
  }

  /** Put together, the pages are the whole snapshot, with no gap and no repeat. */
  lemma {:induction false} PagesRebuildSnapshot(all: seq<Certificate>, size: nat)
    requires size > 0
    ensures FirstPages(all, size, Pages(|all|, size)) == all
  {
    FirstPagesArePrefix(all, size, Pages(|all|, size));
    PagesHold(|all|, size);
  }
}
