/** Pages of a query: the newest-first order, and the records behind a bookmark. */
module Paging {
  import opened Text
  import opened Records
  import opened Peer

  function KeyOf(c: Certificate): Key {
    Key(c.updateDate, c.certId)
  }

  /** `a` is listed before `b`: later date first, larger id first among equal dates. */
  predicate Before(a: Key, b: Key) {
    Less(b.date, a.date) || (a.date == b.date && Less(b.id, a.id))
  }

  lemma BeforeIsOrder(a: Key, b: Key)
    ensures Before(a, b) || Before(b, a) || a == b
    ensures !(Before(a, b) && Before(b, a)) && !Before(a, a)
  {
    LessIsTotal(a.date, b.date);
    LessIsTotal(a.id, b.id);
    LessIsTotal(a.date, a.date);
    LessIsTotal(a.id, a.id);
  }

  lemma BeforeIsTransitive(a: Key, b: Key, c: Key)
    requires Before(a, b) && Before(b, c)
    ensures Before(a, c)
  {
    if Less(b.date, a.date) && Less(c.date, b.date) { LessIsTransitive(c.date, b.date, a.date); }
    if Less(b.id, a.id) && Less(c.id, b.id) { LessIsTransitive(c.id, b.id, a.id); }
  }

  ghost predicate DistinctIds(s: set<Certificate>) {
    forall c, d :: c in s && d in s && c.certId == d.certId ==> c == d
  }

  predicate IsFirst(c: Certificate, s: set<Certificate>) {
    c in s && forall d :: d in s && d != c ==> Before(KeyOf(c), KeyOf(d))
  }

  lemma {:induction false} FirstExists(s: set<Certificate>)
    requires s != {} && DistinctIds(s)
    ensures exists c :: IsFirst(c, s)
    decreases |s|
  {
    var c :| c in s;
    if s == {c} {
      assert IsFirst(c, s);
    } else {
      var t := s - {c};
      assert s == t + {c};
      FirstExists(t);
      var d :| IsFirst(d, t);
      BeforeIsOrder(KeyOf(c), KeyOf(d));
      assert c != d && c.certId != d.certId;
      if Before(KeyOf(c), KeyOf(d)) {
        forall e | e in s && e != c ensures Before(KeyOf(c), KeyOf(e)) {
          if e != d { BeforeIsTransitive(KeyOf(c), KeyOf(d), KeyOf(e)); }
        }
        assert IsFirst(c, s);
      } else {
        assert IsFirst(d, s);
      }
    }
  }

  lemma FirstIsUnique(c: Certificate, d: Certificate, s: set<Certificate>)
    requires IsFirst(c, s) && IsFirst(d, s)
    ensures c == d
  {
    if c != d { BeforeIsOrder(KeyOf(c), KeyOf(d)); }
  }

  ghost predicate SortedNewest(r: seq<Certificate>) {
    forall i, j :: 0 <= i < j < |r| ==> Before(KeyOf(r[i]), KeyOf(r[j]))
  }

  function First(s: set<Certificate>): (c: Certificate)
    requires s != {} && DistinctIds(s)
    ensures IsFirst(c, s)
  {
    FirstExists(s);
    assert forall c, d | IsFirst(c, s) && IsFirst(d, s) :: c == d by {
      forall c, d | IsFirst(c, s) && IsFirst(d, s) ensures c == d { FirstIsUnique(c, d, s); }
    }
    var c :| IsFirst(c, s);
    c
  }

  /** The records of a set, newest first. */
  function SortNewest(s: set<Certificate>): (r: seq<Certificate>)
    requires DistinctIds(s)
    ensures SortedNewest(r)
    ensures forall c :: c in r <==> c in s
    ensures |r| == |s|
    decreases |s|
  {
    if s == {} then [] else
    var c := First(s);
    var rest := SortNewest(s - {c});
    FirstThenRest(s, c, rest);
    [c] + rest
  }

  ghost predicate Lists(r: seq<Certificate>, s: set<Certificate>) {
    SortedNewest(r) && forall c :: c in r <==> c in s
  }

  lemma {:induction false} FirstThenRest(s: set<Certificate>, c: Certificate, rest: seq<Certificate>)
    requires IsFirst(c, s) && Lists(rest, s - {c})
    ensures Lists([c] + rest, s)
  {
    var r := [c] + rest;
    forall i, j | 0 <= i < j < |r| ensures Before(KeyOf(r[i]), KeyOf(r[j])) {
      assert r[j] == rest[j - 1] && rest[j - 1] in rest;
      if i > 0 { assert r[i] == rest[i - 1]; }
    }
  }

  /** The newest-first listing of a set: there is one, and only one. */
  ghost function Sorted(s: set<Certificate>): (r: seq<Certificate>)
    requires DistinctIds(s)
    ensures Lists(r, s)
  {
    assert Lists(SortNewest(s), s);
    var r :| Lists(r, s);
    r
  }

  lemma {:induction false} SortNewestIsSorted(s: set<Certificate>)
    requires DistinctIds(s)
    ensures SortNewest(s) == Sorted(s)
    ensures |Sorted(s)| == |s|
  {
    SortedIsUnique(SortNewest(s), Sorted(s));
  }

  lemma {:induction false} HeadIsElement(r: seq<Certificate>)
    requires r != []
    ensures exists c :: c == r[0] && c in r
  {
    assert r[0] in r;
  }

  /** A newest-first listing is determined by its elements. */
  lemma {:induction false} SortedIsUnique(r: seq<Certificate>, s: seq<Certificate>)
    requires SortedNewest(r) && SortedNewest(s)
    requires forall c :: c in r <==> c in s
    ensures r == s
    decreases |r|
  {
    if r == [] || s == [] {
      if r != [] { HeadIsElement(r); }
      if s != [] { HeadIsElement(s); }
    } else {
      SameHead(r, s);
      SameTails(r, s);
      SameTails(s, r);
      SortedIsUnique(r[1..], s[1..]);
      assert r == [r[0]] + r[1..] && s == [s[0]] + s[1..];
    }
  }

  lemma {:induction false} SameHead(r: seq<Certificate>, s: seq<Certificate>)
    requires SortedNewest(r) && SortedNewest(s) && r != [] && s != []
    requires forall c :: c in r <==> c in s
    ensures r[0] == s[0]
  {
    assert r[0] in r && s[0] in s;
    var i :| 0 <= i < |s| && s[i] == r[0];
    var j :| 0 <= j < |r| && r[j] == s[0];
    if i > 0 && j > 0 {
      BeforeIsOrder(KeyOf(r[0]), KeyOf(s[0]));
    }
  }

  lemma {:induction false} SameTails(r: seq<Certificate>, s: seq<Certificate>)
    requires SortedNewest(r) && SortedNewest(s) && r != [] && s != [] && r[0] == s[0]
    requires forall c :: c in r <==> c in s
    ensures forall c :: c in r[1..] ==> c in s[1..]
  {
    forall c | c in r[1..] ensures c in s[1..] {
      var i :| 0 < i < |r| && r[i] == c;
      BeforeIsOrder(KeyOf(r[0]), KeyOf(c));
      assert c in r && c in s;
      var j :| 0 <= j < |s| && s[j] == c;
      assert j > 0 && s[1..][j - 1] == c;
    }
  }

  // ---------------------------------------------------------------- pages

  function Matching(w: World, wanted: Certificate -> bool): set<Certificate> {
    set id | id in w.certs && wanted(w.certs[id]) :: w.certs[id]
  }

  predicate Behind(c: Certificate, b: Bookmark) {
    b.Start? || Before(b.key, KeyOf(c))
  }

  function MatchingBehind(w: World, wanted: Certificate -> bool, b: Bookmark): (s: set<Certificate>)
    requires WellStored(w)
    ensures DistinctIds(s)
  {
    set c | c in Matching(w, wanted) && Behind(c, b)
  }

  /** All the matching records, newest first. */
  ghost function Listing(w: World, wanted: Certificate -> bool): seq<Certificate>
    requires WellStored(w)
  {
    Sorted(MatchingBehind(w, wanted, Start))
  }

  /** At most `size` records strictly behind the bookmark, newest first. */
  ghost function Page(w: World, wanted: Certificate -> bool, size: nat, b: Bookmark): (r: seq<Certificate>)
    requires WellStored(w)
    ensures |r| <= size
    ensures forall c :: c in r ==> c in MatchingBehind(w, wanted, b)
  {
    var rest := Sorted(MatchingBehind(w, wanted, b));
    if |rest| <= size then rest else rest[..size]
  }

  /** The same page, computed. */
  function Fetch(w: World, wanted: Certificate -> bool, size: nat, b: Bookmark): (r: seq<Certificate>)
    requires WellStored(w)
    ensures r == Page(w, wanted, size, b)
  {
    var behind := MatchingBehind(w, wanted, b);
    SortNewestIsSorted(behind);
    var rest := SortNewest(behind);
    if |rest| <= size then rest else rest[..size]
  }

  /** The bookmark is the place in front of record number `n` of the listing. */
  ghost predicate Denotes(all: seq<Certificate>, b: Bookmark, n: nat) {
    n <= |all| && (if n == 0 then b == Start else b == After(KeyOf(all[n - 1])))
  }

  /** In a newest-first listing, what lies behind an element are the later ones. */
  lemma {:induction false} BehindAnElement(all: seq<Certificate>, k: nat, i: nat)
    requires SortedNewest(all) && k < |all| && i < |all|
    ensures Before(KeyOf(all[k]), KeyOf(all[i])) <==> k < i
  {
    BeforeIsOrder(KeyOf(all[k]), KeyOf(all[i]));
    if i < k { assert Before(KeyOf(all[i]), KeyOf(all[k])); }
  }

  lemma {:induction false} BehindAtIndex(all: seq<Certificate>, b: Bookmark, n: nat, i: nat)
    requires SortedNewest(all) && Denotes(all, b, n) && i < |all|
    ensures Behind(all[i], b) <==> n <= i
  {
    if n > 0 { BehindAnElement(all, n - 1, i); }
  }

  lemma {:induction false} SuffixIsBehind(all: seq<Certificate>, b: Bookmark, n: nat, c: Certificate)
    requires SortedNewest(all) && Denotes(all, b, n)
    ensures c in all[n..] <==> c in all && Behind(c, b)
  {
    if c in all[n..] {
      var i :| n <= i < |all| && all[i] == c;
      BehindAtIndex(all, b, n, i);
    }
    if c in all && Behind(c, b) {
      var i :| 0 <= i < |all| && all[i] == c;
      BehindAtIndex(all, b, n, i);
      assert all[n..][i - n] == c;
    }
  }

  lemma {:induction false} SuffixIsSorted(all: seq<Certificate>, n: nat)
    requires SortedNewest(all) && n <= |all|
    ensures SortedNewest(all[n..])
  {
  }

  /** What lies behind such a bookmark is the listing from there on. */
  lemma {:induction false} BehindIsSuffix(w: World, wanted: Certificate -> bool, b: Bookmark, n: nat)
    requires WellStored(w) && Denotes(Listing(w, wanted), b, n)
    ensures Sorted(MatchingBehind(w, wanted, b)) == Listing(w, wanted)[n..]
  {
    var all := Listing(w, wanted);
    var rest := Sorted(MatchingBehind(w, wanted, b));
    forall c ensures c in rest <==> c in all[n..] {
      SuffixIsBehind(all, b, n, c);
      assert c in rest <==> c in MatchingBehind(w, wanted, b);
      assert c in all <==> c in MatchingBehind(w, wanted, Start);
    }
    SuffixIsSorted(all, n);
    SortedIsUnique(rest, all[n..]);
  }

  function Min(a: nat, b: nat): nat {
    if a <= b then a else b
  }

  /** On an unchanging ledger a page is the next slice of the listing, ... */
  lemma {:induction false} PageIsSlice(w: World, wanted: Certificate -> bool, size: nat, b: Bookmark, n: nat)
    requires WellStored(w) && Denotes(Listing(w, wanted), b, n)
    ensures Page(w, wanted, size, b) == Listing(w, wanted)[n..Min(n + size, |Listing(w, wanted)|)]
  {
    BehindIsSuffix(w, wanted, b, n);
    SliceOfSuffix(Listing(w, wanted), n, size);
  }

  /** ... and its last record gives the bookmark of the slice after it. */
  lemma {:induction false} SliceGivesNextMark(all: seq<Certificate>, size: nat, n: nat)
    requires n < |all| && size > 0
    ensures var page := all[n..Min(n + size, |all|)];
            page != [] && Denotes(all, After(KeyOf(page[|page| - 1])), Min(n + size, |all|))
  {
  }

  lemma {:induction false} SliceOfSuffix(all: seq<Certificate>, n: nat, size: nat)
    requires n <= |all|
    ensures (if |all[n..]| <= size then all[n..] else all[n..][..size]) == all[n..Min(n + size, |all|)]
  {
  }
}
