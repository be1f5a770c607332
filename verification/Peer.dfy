/** The peer as its clients meet it: the committed documents, the other clients' commits
    that land between two calls, and the ways a call can end. */
module Peer {
  import opened Records
  import opened Stamps

  /** A clock reading that the chaincode can print. */
  type Time = m: Moment | m.Valid() witness Moment(2006, 1, 2, 15, 4, 5)

  /** Committed documents. Composite keys keep the two kinds of document apart. */
  datatype World = World(certs: map<string, Certificate>, files: map<string, FileStruct>)

  const EMPTY := World(map[], map[])

  /** What one committed transaction writes. */
  datatype Commit = CommitCertificate(cert: Certificate, now: Time) | CommitFile(file: FileStruct)

  /** postCertificate: whatever date the client sent, the stored one is the current stamp. */
  function PostCertificate(w: World, c: Certificate, now: Time): World {
    w.(certs := w.certs[c.certId := c.(updateDate := Format(now))])
  }

  function PostUploadFile(w: World, f: FileStruct): World {
    w.(files := w.files[f.certId := f])
  }

  function Apply(w: World, c: Commit): World {
    match c
    case CommitCertificate(cert, now) => PostCertificate(w, cert, now)
    case CommitFile(file) => PostUploadFile(w, file)
  }

  function ApplyAll(w: World, cs: seq<Commit>): World
    decreases |cs|
  {
    if cs == [] then w else ApplyAll(Apply(w, cs[0]), cs[1..])
  }

  /** How a call ends. `Lost`: it failed and nothing was committed. `Done`: it succeeded.
      `TimedOut`: the event did not arrive in time, yet the transaction was committed; for a
      query this is a failure like any other. */
  datatype Outcome = Lost | Done | TimedOut

  /** The place of a record in the newest-first order. */
  datatype Key = Key(date: string, id: string)

  /** Where a page starts: at the newest record, or strictly after a key. */
  datatype Bookmark = Start | After(key: Key)

  /** What happens at one call: the commits of others that land before it, how it ends, the
      peer's clock, and the bookmark that an empty page carries. */
  datatype Turn = Turn(commits: seq<Commit>, outcome: Outcome, now: Time, idle: Bookmark)

  type Schedule = nat -> Turn

  /** The world that call number `k` finds. */
  function Meets(w: World, env: Schedule, k: nat): World {
    ApplyAll(w, env(k).commits)
  }

  /** Every certificate is stored under its id and carries a full stamp. */
  ghost predicate WellStored(w: World) {
    forall id :: id in w.certs ==> w.certs[id].certId == id && |w.certs[id].updateDate| == 19
  }

  lemma {:induction false} CommitsKeepWellStored(w: World, cs: seq<Commit>)
    requires WellStored(w)
    ensures WellStored(ApplyAll(w, cs))
    decreases |cs|
  {
    if cs != [] {
      CommitsKeepWellStored(Apply(w, cs[0]), cs[1..]);
    }
  }

  /** What the service keeps: an open or uploaded certificate has a stored file, too. */
  ghost predicate Sound(w: World) {
    && WellStored(w)
    && (forall id :: id in w.certs && (w.certs[id].isOpen || w.certs[id].hasUpload) ==> id in w.files)
    && (forall id :: id in w.files ==> w.files[id].certId == id)
  }

  /** A commit as the service makes it: a certificate says "uploaded" only if the file is there,
      and is open only if it says so. */
  ghost predicate Honest(w: World, c: Commit) {
    c.CommitCertificate? ==> (c.cert.hasUpload ==> c.cert.certId in w.files) && (c.cert.isOpen ==> c.cert.hasUpload)
  }

  ghost predicate AllHonest(w: World, cs: seq<Commit>)
    decreases |cs|
  {
    cs != [] ==> Honest(w, cs[0]) && AllHonest(Apply(w, cs[0]), cs[1..])
  }

  lemma {:induction false} HonestCommitsKeepSound(w: World, cs: seq<Commit>)
    requires Sound(w) && AllHonest(w, cs)
    ensures Sound(ApplyAll(w, cs))
    decreases |cs|
  {
    if cs != [] {
      HonestCommitsKeepSound(Apply(w, cs[0]), cs[1..]);
    }
  }

  lemma {:induction false} ApplyOnConcat(w: World, cs: seq<Commit>, ds: seq<Commit>)
    ensures ApplyAll(w, cs + ds) == ApplyAll(ApplyAll(w, cs), ds)
    ensures AllHonest(w, cs) && AllHonest(ApplyAll(w, cs), ds) ==> AllHonest(w, cs + ds)
    decreases |cs|
  {
    if cs == [] {
      assert cs + ds == ds;
    } else {
      assert (cs + ds)[0] == cs[0] && (cs + ds)[1..] == cs[1..] + ds;
      ApplyOnConcat(Apply(w, cs[0]), cs[1..], ds);
    }
  }

  /** Nothing is ever removed. */
  ghost predicate Grows(w: World, v: World) {
    w.certs.Keys <= v.certs.Keys && w.files.Keys <= v.files.Keys
  }

  lemma {:induction false} CommitsGrow(w: World, cs: seq<Commit>)
    ensures Grows(w, ApplyAll(w, cs))
    decreases |cs|
  {
    if cs != [] {
      CommitsGrow(Apply(w, cs[0]), cs[1..]);
    }
  }
}
