/** Why the sweep needs the clock to move on: while commits carry the very second of the
    records being listed, a sweep can find a new record behind every bookmark. */
module Ties {
  import opened Text
  import opened Records
  import opened Selectors
  import opened Filters
  import opened Stamps
  import opened Peer
  import opened Paging
  import opened Sweep

  /** "b", "ab", "aab", ...: each id comes behind all earlier ones. */
  function Id(k: nat): string {
    if k == 0 then "b" else "a" + Id(k - 1)
  }

  lemma {:induction false} IdsDescend(i: nat, j: nat)
    ensures Less(Id(j), Id(i)) <==> i < j
    ensures Id(i) == Id(j) <==> i == j
    decreases i + j
  {
    if i > 0 && j > 0 {
      IdsDescend(i - 1, j - 1);
      assert Id(i)[1..] == Id(i - 1) && Id(j)[1..] == Id(j - 1);
    } else if i > 0 {
      assert Id(i)[0] == 'a';
    } else if j > 0 {
      assert Id(j)[0] == 'a';
    }
  }

  function Cert(k: nat, now: Time): Certificate {
    Certificate(Id(k), "", "", "", "", "", "", "", "", "", "", "", "", false, false, false, Format(now), false)
  }

  function OneMore(k: nat, now: Time): Turn {
    Turn([CommitCertificate(Cert(k, now), now)], Done, now, Start)
  }

  /** A request for the draft list with all conditions blank. */
  const BLANK := QueryConditions(1, 1, false, false, false, "", "", "", "", "", "", "", "")

  /** Before every query one more certificate is committed, always in the same second. */
  function Busy(now: Time): Scene {
    Scene(EMPTY, (k: nat) => OneMore(k, now), 0, c => Wanted(DraftList, BLANK, c), 1)
  }

  /** The first `n` of them. */
  function First(n: nat, now: Time): map<string, Certificate> {
    if n == 0 then map[] else First(n - 1, now)[Id(n - 1) := Cert(n - 1, now)]
  }

  lemma {:induction false} BusyWorld(n: nat, now: Time)
    ensures Busy(now).After(n) == World(First(n, now), map[])
    decreases n
  {
    if n > 0 {
      BusyWorld(n - 1, now);
      OneCommit(World(First(n - 1, now), map[]), Cert(n - 1, now), now);
    }
  }

  lemma {:induction false} OneCommit(w: World, c: Certificate, now: Time)
    requires c.updateDate == Format(now)
    ensures ApplyAll(w, [CommitCertificate(c, now)]) == w.(certs := w.certs[c.certId := c])
  {
    assert [CommitCertificate(c, now)][1..] == [];
  }

  /** The first `n` and no others, each under its own id. */
  lemma {:induction false} FirstHolds(n: nat, now: Time, id: string) returns (k: nat)
    requires id in First(n, now)
    ensures k < n && id == Id(k) && First(n, now)[id] == Cert(k, now)
    decreases n
  {
    if id == Id(n - 1) { k := n - 1; } else { k := FirstHolds(n - 1, now, id); }
  }

  lemma {:induction false} BusyIsInOrder(n: nat, now: Time)
    ensures InOrderAt(Busy(now), n)
  {
    BusyWorld(n, now);
    LessIsTotal(Format(now), Format(now));
    if Id(n) in First(n, now) { var k := FirstHolds(n, now, Id(n)); }
    assert Busy(now).Commits(n) == [CommitCertificate(Cert(n, now), now)];
    assert Busy(now).Commits(n)[1..] == [];
  }

  /** The bookmark after `n` pages. */
  function Mark(n: nat, now: Time): Bookmark {
    if n == 0 then Start else Bookmark.After(KeyOf(Cert(n - 1, now)))
  }

  lemma {:induction false} BehindMark(k: nat, n: nat, now: Time)
    ensures Behind(Cert(k, now), Mark(n, now)) <==> n <= k
  {
    LessIsTotal(Format(now), Format(now));
    if n > 0 { IdsDescend(n - 1, k); }
  }

  /** Behind it there is only the one that has just come. */
  lemma {:induction false} OnlyLastIsBehind(w: World, n: nat, wanted: Certificate -> bool, now: Time)
    requires WellStored(w) && w.certs == First(n + 1, now) && forall k :: wanted(Cert(k, now))
    ensures MatchingBehind(w, wanted, Mark(n, now)) == {Cert(n, now)}
  {
    forall c | c in MatchingBehind(w, wanted, Mark(n, now)) ensures c == Cert(n, now) {
      var k := FirstHolds(n + 1, now, c.certId);
      BehindMark(k, n, now);
    }
    BehindMark(n, n, now);
    assert w.certs[Id(n)] == Cert(n, now);
    assert Cert(n, now) in Matching(w, wanted);
  }

  lemma {:induction false} SingletonIsListed(c: Certificate)
    ensures DistinctIds({c}) && Sorted({c}) == [c]
  {
    assert SortedNewest([c]);
    SortedIsUnique(Sorted({c}), [c]);
  }

  lemma {:induction false} OneIsAlwaysLeft(n: nat, now: Time)
    ensures Busy(now).Valid() && Busy(now).PageAt(n, Mark(n, now)) == [Cert(n, now)]
  {
    BusyWorld(n + 1, now);
    Busy(now).StaysWellStored(n + 1);
    OnlyLastIsBehind(Busy(now).At(n), n, Busy(now).wanted, now);
    SingletonIsListed(Cert(n, now));
  }

  lemma {:induction false} BusyLink(marks: seq<Bookmark>, i: nat, now: Time)
    requires i + 1 < |marks| && marks[i] == Mark(i, now) && marks[i + 1] == Mark(i + 1, now)
    ensures Busy(now).Valid() && Busy(now).Link(marks, i)
  {
    OneIsAlwaysLeft(i, now);
  }

  /** Stamps that never go back are not enough for an end: here a sweep has collected `n + 1`
      bookmarks and still gets a page, for every `n`. */
  lemma {:induction false} EqualStampsNeverEnd(n: nat, now: Time) returns (marks: seq<Bookmark>)
    ensures Busy(now).Valid() && AllInOrder(Busy(now))
    ensures |marks| == n + 1 && Busy(now).Chain(marks) && Busy(now).PageAt(n, marks[n]) != []
  {
    forall k: nat ensures InOrderAt(Busy(now), k) { BusyIsInOrder(k, now); }
    marks := seq(n + 1, i requires 0 <= i => Mark(i, now));
    OneIsAlwaysLeft(n, now);
    forall i: nat | i + 1 < |marks| ensures Busy(now).Link(marks, i) { BusyLink(marks, i, now); }
  }
}
