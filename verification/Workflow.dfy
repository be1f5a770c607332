/** The ledger operations as the requests they send to the peer, one step per request, and
    any number of them at work at the same time. */
module Workflow {
  import opened Records
  import opened Stamps
  import opened Peer

  const OK := 200
  const BAD_REQUEST := 400
  const NOT_IMPLEMENTED := 501

  /** One entry of a ChangeStatus request. */
  datatype Status = Status(certId: string, isOpen: bool, isCompleted: bool, isDeleted: bool, isChangedOnChain: bool)

  /** What the caller gets back; `failed` tells whether the error is not nil. */
  datatype Reply =
    | CertificateReply(code: int, failed: bool)
    | UploadReply(code: int, failed: bool)
    | StatusReply(statuses: seq<Status>)

  /** Who waits for a CertificateIn. */
  datatype Caller =
    | Client
    | Upload
    | ChangeStatus(done: seq<Status>, current: Status, rest: seq<Status>)

  /** What an operation is about to ask of the peer. */
  datatype Task =
    | LookupFile(cert: Certificate, caller: Caller)
    | PutCertificate(cert: Certificate, caller: Caller)
    | PutFile(file: FileStruct)
    | LookupUploaded(certId: string)
    | LookupListed(done: seq<Status>, rest: seq<Status>)
    | Finished(reply: Reply)
    | Crashed

  function NextListed(done: seq<Status>, rest: seq<Status>): Task {
    if rest == [] then Finished(StatusReply(done)) else LookupListed(done, rest)
  }

  /** A CertificateIn goes back to its caller. ChangeStatus looks only at the error. */
  function Return(caller: Caller, code: int, failed: bool): Task {
    match caller
    case Client => Finished(CertificateReply(code, failed))
    case Upload => Finished(UploadReply(if failed then NOT_IMPLEMENTED else OK, failed))
    case ChangeStatus(done, current, rest) =>
      NextListed(done + [if failed then current else current.(isChangedOnChain := true)], rest)
  }

  /** A certificate as CertificateOut shows it: the date is cut to the day. */
  function Shown(c: Certificate): (r: Certificate)
    requires |c.updateDate| >= 10
    ensures r.updateDate <= c.updateDate && |r.updateDate| == 10 && r == c.(updateDate := r.updateDate)
  {
    c.(updateDate := c.updateDate[..10])
  }

  function WithStatus(c: Certificate, s: Status): Certificate {
    c.(isDeleted := s.isDeleted, isOpen := s.isOpen, isCompleted := s.isCompleted)
  }

  /** One request to the peer. Slicing a short date would crash the process. */
  function Advance(t: Task, w: World, outcome: Outcome, now: Time): (Task, World) {
    match t
    case LookupFile(cert, caller) =>
      var found := outcome.Done? && cert.certId in w.files;
      if cert.isOpen && !found then (Return(caller, BAD_REQUEST, !outcome.Done?), w)
      else (PutCertificate(cert.(hasUpload := found), caller), w)
    case PutCertificate(cert, caller) =>
      (if outcome.Done? then Return(caller, OK, false) else Return(caller, NOT_IMPLEMENTED, true),
       if outcome.Lost? then w else PostCertificate(w, cert, now))
    case PutFile(file) =>
      (if outcome.Done? then LookupUploaded(file.certId) else Finished(UploadReply(NOT_IMPLEMENTED, true)),
       if outcome.Lost? then w else PostUploadFile(w, file))
    case LookupUploaded(certId) =>
      if outcome.Done? && certId in w.certs then
        if |w.certs[certId].updateDate| < 10 then (Crashed, w)
        else (LookupFile(Shown(w.certs[certId]).(hasUpload := true), Upload), w)
      else (Finished(UploadReply(OK, false)), w)
    case LookupListed(done, rest) =>
      if rest == [] then (Finished(StatusReply(done)), w)
      else if outcome.Done? && rest[0].certId in w.certs then
        if |w.certs[rest[0].certId].updateDate| < 10 then (Crashed, w)
        else
          var cert := WithStatus(Shown(w.certs[rest[0].certId]), rest[0]);
          (LookupFile(cert, ChangeStatus(done, rest[0], rest[1..])), w)
      else (NextListed(done + [rest[0]], rest[1..]), w)
    case Finished(_) => (t, w)
    case Crashed => (t, w)
  }

  /** What clients may ask for, with any certificate, file and status list they like. */
  datatype Operation = Post(cert: Certificate) | Store(file: FileStruct) | Change(statuses: seq<Status>)

  function Begin(op: Operation): Task {
    match op
    case Post(cert) => LookupFile(cert, Client)
    case Store(file) => PutFile(file)
    case Change(statuses) => NextListed([], statuses)
  }

  // ---------------------------------------------------------------- concurrent runs

  datatype State = State(world: World, tasks: map<nat, Task>)

  datatype Label = Arrive(pid: nat, op: Operation) | Move(pid: nat, outcome: Outcome, now: Time)

  /** Requests arrive at any time, and any request may take the next step, with any outcome. */
  ghost predicate Step(s: State, l: Label, s': State) {
    match l
    case Arrive(pid, op) => pid !in s.tasks && s' == s.(tasks := s.tasks[pid := Begin(op)])
    case Move(pid, outcome, now) =>
      pid in s.tasks &&
      var (t, w) := Advance(s.tasks[pid], s.world, outcome, now);
      s' == State(w, s.tasks[pid := t])
  }

  const INITIAL := State(EMPTY, map[])

  ghost predicate IsRun(states: seq<State>, labels: seq<Label>) {
    && |states| == |labels| + 1
    && states[0] == INITIAL
    && forall i :: 0 <= i < |labels| ==> Step(states[i], labels[i], states[i + 1])
  }

  /** What a task knows about the world while it waits: a certificate on its way to the ledger
      says "uploaded" only if the file is there, and is open only if it says so. */
  ghost predicate TaskSound(t: Task, w: World) {
    && !t.Crashed?
    && (t.PutCertificate? ==>
          && (t.cert.hasUpload ==> t.cert.certId in w.files)
          && (t.cert.isOpen ==> t.cert.hasUpload))
  }

  ghost predicate StateSound(s: State) {
    Sound(s.world) && forall pid :: pid in s.tasks ==> TaskSound(s.tasks[pid], s.world)
  }

  lemma AdvanceKeepsSound(t: Task, w: World, outcome: Outcome, now: Time)
    requires Sound(w) && TaskSound(t, w)
    ensures var (t', w') := Advance(t, w, outcome, now);
            Sound(w') && TaskSound(t', w') && Grows(w, w')
  {
  }

  lemma {:induction false} StepKeepsSound(s: State, l: Label, s': State)
    requires StateSound(s) && Step(s, l, s')
    ensures StateSound(s') && Grows(s.world, s'.world)
  {
    if l.Move? {
      AdvanceKeepsSound(s.tasks[l.pid], s.world, l.outcome, l.now);
    }
  }

  /** In every state of every run, whatever interleaves, fails or times out: an open or
      uploaded certificate has its file, every stored date is a full stamp, nobody crashes on
      a short one, and no document is ever lost. */
  lemma {:induction false} EveryRunIsSound(states: seq<State>, labels: seq<Label>, i: nat)
    requires IsRun(states, labels) && i < |states|
    ensures StateSound(states[i])
    ensures forall j :: 0 <= j <= i ==> Grows(states[j].world, states[i].world)
    decreases i
  {
    if i > 0 {
      EveryRunIsSound(states, labels, i - 1);
      StepKeepsSound(states[i - 1], labels[i - 1], states[i]);
    }
  }

  ghost predicate IsStamp(date: string) {
    exists t: Time :: date == Format(t)
  }

  ghost predicate Stamped(w: World) {
    forall id :: id in w.certs ==> IsStamp(w.certs[id].updateDate)
  }

  lemma {:induction false} AdvanceKeepsStamped(t: Task, w: World, outcome: Outcome, now: Time)
    requires Stamped(w)
    ensures Stamped(Advance(t, w, outcome, now).1)
  {
    assert IsStamp(Format(now));
  }

  /** Although clients send dates and reads cut them to the day before they are written back,
      every stored date is the stamp of a moment. */
  lemma {:induction false} EveryDateIsAStamp(states: seq<State>, labels: seq<Label>, i: nat)
    requires IsRun(states, labels) && i < |states|
    ensures Stamped(states[i].world)
    decreases i
  {
    if i > 0 {
      EveryDateIsAStamp(states, labels, i - 1);
      var s, l := states[i - 1], labels[i - 1];
      assert Step(s, l, states[i]);
      if l.Move? { AdvanceKeepsStamped(s.tasks[l.pid], s.world, l.outcome, l.now); }
    }
  }

  // ---------------------------------------------------------------- a run as others see it

  /** What a request commits. */
  function Committed(t: Task, outcome: Outcome, now: Time): seq<Commit> {
    if outcome.Lost? then [] else
    match t
    case PutCertificate(cert, _) => [CommitCertificate(cert, now)]
    case PutFile(file) => [CommitFile(file)]
    case _ => []
  }

  lemma {:induction false} AdvanceCommitsHonestly(t: Task, w: World, outcome: Outcome, now: Time)
    requires TaskSound(t, w)
    ensures Advance(t, w, outcome, now).1 == ApplyAll(w, Committed(t, outcome, now))
    ensures AllHonest(w, Committed(t, outcome, now))
  {
    var cs := Committed(t, outcome, now);
    if cs != [] { assert cs[1..] == []; }
  }

  function CommittedBy(s: State, l: Label): seq<Commit> {
    if l.Move? && l.pid in s.tasks then Committed(s.tasks[l.pid], l.outcome, l.now) else []
  }

  lemma {:induction false} StepCommitsHonestly(s: State, l: Label, s': State)
    requires StateSound(s) && Step(s, l, s')
    ensures AllHonest(s.world, CommittedBy(s, l)) && ApplyAll(s.world, CommittedBy(s, l)) == s'.world
  {
    if l.Move? { AdvanceCommitsHonestly(s.tasks[l.pid], s.world, l.outcome, l.now); }
  }

  /** What a run commits from state number `m` to state number `n`. */
  function CommitsOf(states: seq<State>, labels: seq<Label>, m: nat, n: nat): seq<Commit>
    requires m <= n <= |labels| < |states|
    decreases n
  {
    if m == n then [] else CommitsOf(states, labels, m, n - 1) + CommittedBy(states[n - 1], labels[n - 1])
  }

  /** Any stretch of any run leads from its first ledger to its last by honest commits. */
  lemma {:induction false} RunsCommitHonestly(states: seq<State>, labels: seq<Label>, m: nat, n: nat)
    requires IsRun(states, labels) && m <= n <= |labels|
    ensures var cs := CommitsOf(states, labels, m, n);
            AllHonest(states[m].world, cs) && ApplyAll(states[m].world, cs) == states[n].world
    decreases n
  {
    hide Step, AllHonest, ApplyAll, CommittedBy;
    if m == n {
      NoCommits(states[m].world);
    } else {
      RunsCommitHonestly(states, labels, m, n - 1);
      RunStepCommitsHonestly(states, labels, n - 1);
      var cs, ds := CommitsOf(states, labels, m, n - 1), CommittedBy(states[n - 1], labels[n - 1]);
      assert CommitsOf(states, labels, m, n) == cs + ds;
      ApplyOnConcat(states[m].world, cs, ds);
    }
  }

  lemma {:induction false} NoCommits(w: World)
    ensures AllHonest(w, []) && ApplyAll(w, []) == w
  {
  }

  lemma {:induction false} RunStepCommitsHonestly(states: seq<State>, labels: seq<Label>, n: nat)
    requires IsRun(states, labels) && n < |labels|
    ensures AllHonest(states[n].world, CommittedBy(states[n], labels[n]))
    ensures ApplyAll(states[n].world, CommittedBy(states[n], labels[n])) == states[n + 1].world
  {
    hide Step, AllHonest, ApplyAll, CommittedBy, StateSound, Grows;
    EveryRunIsSound(states, labels, n);
    assert Step(states[n], labels[n], states[n + 1]);
    StepCommitsHonestly(states[n], labels[n], states[n + 1]);
  }

  // ---------------------------------------------------------------- what the upload flag tells

  ghost predicate FlagExact(w: World, id: string) {
    id in w.certs ==> (w.certs[id].hasUpload <==> id in w.files)
  }

  /** The certificate is written as not uploaded while its file is there, or its first file is
      stored while it is there. */
  predicate Spoils(t: Task, w: World, outcome: Outcome, id: string) {
    && !outcome.Lost?
    && match t
       case PutCertificate(cert, _) => cert.certId == id && !cert.hasUpload && id in w.files
       case PutFile(file) => file.certId == id && id !in w.files && id in w.certs
       case _ => false
  }

  /** One request leaves an exact flag exact, unless it is one of these two. */
  lemma {:induction false} AdvanceKeepsFlagUnless(t: Task, w: World, outcome: Outcome, now: Time, id: string)
    requires Sound(w) && TaskSound(t, w) && FlagExact(w, id)
    ensures FlagExact(Advance(t, w, outcome, now).1, id) <==> !Spoils(t, w, outcome, id)
  {
  }

  /** Step number `j` commits a write of the certificate. */
  predicate Writes(s: State, l: Label, id: string) {
    && l.Move? && !l.outcome.Lost? && l.pid in s.tasks
    && s.tasks[l.pid].PutCertificate? && s.tasks[l.pid].cert.certId == id
  }

  ghost predicate IsLastWrite(states: seq<State>, labels: seq<Label>, n: nat, id: string, j: nat)
    requires n <= |labels| < |states|
  {
    j < n && Writes(states[j], labels[j], id) && forall k :: j < k < n ==> !Writes(states[k], labels[k], id)
  }

  /** Step number `i` is the last one before step number `n` that request `pid` has taken, and
      looks for the file of the certificate. */
  ghost predicate IsLookup(states: seq<State>, labels: seq<Label>, n: nat, pid: nat, id: string, i: nat)
    requires n <= |labels| < |states|
  {
    && i < n && labels[i].Move? && labels[i].pid == pid
    && (forall k :: i < k < n ==> !(labels[k].Move? && labels[k].pid == pid))
    && pid in states[i].tasks && states[i].tasks[pid].LookupFile? && states[i].tasks[pid].cert.certId == id
  }

  predicate FindsFile(s: State, l: Label, id: string) {
    l.Move? && l.outcome.Done? && id in s.world.files
  }

  /** A certificate on its way to the ledger carries what its own lookup has found. */
  lemma {:induction false} PutCarriesLookup(states: seq<State>, labels: seq<Label>, n: nat, pid: nat) returns (i: nat)
    requires IsRun(states, labels) && n <= |labels| && pid in states[n].tasks && states[n].tasks[pid].PutCertificate?
    ensures var cert := states[n].tasks[pid].cert;
            IsLookup(states, labels, n, pid, cert.certId, i)
                && (cert.hasUpload <==> FindsFile(states[i], labels[i], cert.certId))
    decreases n
  {
    assert n > 0;
    assert Step(states[n - 1], labels[n - 1], states[n]);
    if labels[n - 1].Move? && labels[n - 1].pid == pid {
      i := n - 1;
    } else {
      i := PutCarriesLookup(states, labels, n - 1, pid);
    }
  }

  lemma {:induction false} StepWrites(s: State, l: Label, s': State, id: string)
    requires Step(s, l, s') && id in s'.world.certs
    ensures Writes(s, l, id) ==> s'.world.certs[id].hasUpload == s.tasks[l.pid].cert.hasUpload
    ensures !Writes(s, l, id) ==> id in s.world.certs && s'.world.certs[id] == s.world.certs[id]
  {
  }

  // ---------------------------------------------------------------- what is stored

  /** A stored certificate is, the flag included, what its last committed write has carried, with
      the stamp of that write, whether this was announced or timed out. */
  lemma {:induction false} StoredIsLastWrite(states: seq<State>, labels: seq<Label>, n: nat, id: string)
    returns (j: nat)
    requires IsRun(states, labels) && n <= |labels| && id in states[n].world.certs
    ensures IsLastWrite(states, labels, n, id, j)
    ensures states[n].world.certs[id]
         == states[j].tasks[labels[j].pid].cert.(updateDate := Format(labels[j].now))
    decreases n
  {
    hide Step, Format;
    assert n > 0;
    var m := n - 1;
    assert Step(states[m], labels[m], states[n]);
    StepStores(states[m], labels[m], states[n], id);
    if Writes(states[m], labels[m], id) {
      j := m;
    } else {
      StepWrites(states[m], labels[m], states[n], id);
      j := StoredIsLastWrite(states, labels, m, id);
    }
  }

  lemma {:induction false} StepStores(s: State, l: Label, s': State, id: string)
    requires Step(s, l, s')
    ensures Writes(s, l, id) ==>
              id in s'.world.certs && s'.world.certs[id] == s.tasks[l.pid].cert.(updateDate := Format(l.now))
    ensures StoresFile(s, l, id) ==> id in s'.world.files && s'.world.files[id] == s.tasks[l.pid].file
    ensures !StoresFile(s, l, id) && id in s'.world.files ==>
              id in s.world.files && s'.world.files[id] == s.world.files[id]
  {
    hide Format;
  }

  /** Step number `j` commits a file of the certificate. */
  predicate StoresFile(s: State, l: Label, id: string) {
    && l.Move? && !l.outcome.Lost? && l.pid in s.tasks
    && s.tasks[l.pid].PutFile? && s.tasks[l.pid].file.certId == id
  }

  /** Request `pid` has arrived with this operation before step number `n`. */
  ghost predicate Arrived(labels: seq<Label>, n: nat, pid: nat, op: Operation) {
    exists i :: 0 <= i < n && i < |labels| && labels[i] == Arrive(pid, op)
  }

  /** A file on its way to the ledger is the one the client has sent. */
  lemma {:induction false} FileComesFromClient(states: seq<State>, labels: seq<Label>, n: nat, pid: nat)
    requires IsRun(states, labels) && n <= |labels| && pid in states[n].tasks && states[n].tasks[pid].PutFile?
    ensures Arrived(labels, n, pid, Store(states[n].tasks[pid].file))
    decreases n
  {
    assert n > 0;
    var m := n - 1;
    assert Step(states[m], labels[m], states[n]);
    if labels[m].Arrive? && labels[m].pid == pid {
      assert labels[m] == Arrive(pid, Store(states[n].tasks[pid].file));
    } else {
      FileComesFromClient(states, labels, m, pid);
      var i :| 0 <= i < m && i < |labels| && labels[i] == Arrive(pid, Store(states[m].tasks[pid].file));
    }
  }

  /** A stored file is the file of the last upload for its id that was committed, announced or
      timed out, as the client has sent it. */
  lemma {:induction false} StoredFileIsLastSent(states: seq<State>, labels: seq<Label>, n: nat, id: string)
    returns (j: nat)
    requires IsRun(states, labels) && n <= |labels| && id in states[n].world.files
    ensures j < n && StoresFile(states[j], labels[j], id)
    ensures forall k :: j < k < n ==> !StoresFile(states[k], labels[k], id)
    ensures Arrived(labels, j, labels[j].pid, Store(states[n].world.files[id]))
    decreases n
  {
    hide Step;
    assert n > 0;
    var m := n - 1;
    assert Step(states[m], labels[m], states[n]);
    StepStores(states[m], labels[m], states[n], id);
    if StoresFile(states[m], labels[m], id) {
      j := m;
      FileComesFromClient(states, labels, m, labels[m].pid);
    } else {
      j := StoredFileIsLastSent(states, labels, m, id);
    }
  }

  /** Where the fields of a certificate on its way to the ledger come from, but for the upload
      flag and the date: from the client that posts it; or from the certificate as its upload
      has read it; or from the certificate as its status change has read it, with the three
      flags of the entry. */
  ghost predicate HasOrigin(states: seq<State>, labels: seq<Label>, n: nat, pid: nat, c: Certificate, caller: Caller)
    requires n <= |labels| < |states|
  {
    match caller
    case Client => exists d :: Arrived(labels, n, pid, Post(d)) && SameFields(c, d)
    case Upload => exists i :: 0 <= i < n && Read(states, labels, i, pid, c.certId)
                               && SameFields(c, states[i].world.certs[c.certId])
    case ChangeStatus(_, s, _) => exists i :: 0 <= i < n && Read(states, labels, i, pid, c.certId)
                                              && s.certId == c.certId
                                              && TakesFlags(c, states[i].world.certs[c.certId], s)
  }

  /** Step number `i` is a read of the certificate by request `pid`. */
  ghost predicate Read(states: seq<State>, labels: seq<Label>, i: nat, pid: nat, id: string)
    requires i < |labels| < |states|
  {
    && labels[i].Move? && labels[i].pid == pid && labels[i].outcome.Done? && id in states[i].world.certs
    && pid in states[i].tasks && (states[i].tasks[pid].LookupUploaded? || states[i].tasks[pid].LookupListed?)
  }

  predicate SameFields(c: Certificate, d: Certificate) {
    c == d.(hasUpload := c.hasUpload, updateDate := c.updateDate)
  }

  predicate TakesFlags(c: Certificate, d: Certificate, s: Status) {
    SameFields(c, d.(isOpen := s.isOpen, isCompleted := s.isCompleted, isDeleted := s.isDeleted))
  }

  /** In every run, whatever is on its way to the ledger has such an origin. */
  lemma {:induction false} EveryWriteHasOrigin(states: seq<State>, labels: seq<Label>, n: nat, pid: nat)
    requires IsRun(states, labels) && n <= |labels| && pid in states[n].tasks
    requires states[n].tasks[pid].LookupFile? || states[n].tasks[pid].PutCertificate?
    ensures HasOrigin(states, labels, n, pid, states[n].tasks[pid].cert, states[n].tasks[pid].caller)
    decreases n
  {
    hide HasOrigin;
    assert n > 0;
    var m := n - 1;
    var l := labels[m];
    assert Step(states[m], l, states[n]);
    if l.pid == pid && (l.Arrive? || !(states[m].tasks[pid].LookupFile? || states[m].tasks[pid].PutCertificate?)) {
      EveryRunIsSound(states, labels, m);
      OriginComesUp(states, labels, m, pid);
    } else {
      EveryWriteHasOrigin(states, labels, m, pid);
      var t, t' := states[m].tasks[pid], states[n].tasks[pid];
      StepKeepsFields(states[m], l, states[n], pid);
      OriginStays(states, labels, m, pid, t.cert, t'.cert, t.caller);
    }
  }

  lemma {:induction false} StepKeepsFields(s: State, l: Label, s': State, pid: nat)
    requires Step(s, l, s') && pid in s.tasks && pid in s'.tasks
    requires s.tasks[pid].LookupFile? || s.tasks[pid].PutCertificate?
    requires s'.tasks[pid].LookupFile? || s'.tasks[pid].PutCertificate?
    ensures s'.tasks[pid].caller == s.tasks[pid].caller && SameFields(s'.tasks[pid].cert, s.tasks[pid].cert)
  {
  }

  lemma {:induction false} OriginStays(states: seq<State>, labels: seq<Label>, m: nat, pid: nat, c: Certificate,
      d: Certificate, caller: Caller)
    requires m < |labels| < |states| && HasOrigin(states, labels, m, pid, c, caller) && SameFields(d, c)
    ensures HasOrigin(states, labels, m + 1, pid, d, caller)
  {
    match caller
    case Client =>
      var e :| Arrived(labels, m, pid, Post(e)) && SameFields(c, e);
      assert Arrived(labels, m + 1, pid, Post(e)) && SameFields(d, e);
    case Upload =>
    case ChangeStatus(_, s, _) =>
      var i :| 0 <= i < m && Read(states, labels, i, pid, c.certId) && s.certId == c.certId
               && TakesFlags(c, states[i].world.certs[c.certId], s);
      assert TakesFlags(d, states[i].world.certs[d.certId], s);
  }

  lemma {:induction false} OriginComesUp(states: seq<State>, labels: seq<Label>, m: nat, pid: nat)
    requires m < |labels| < |states| && Step(states[m], labels[m], states[m + 1]) && StateSound(states[m])
    requires labels[m].pid == pid && pid in states[m + 1].tasks && states[m + 1].tasks[pid].LookupFile?
    requires labels[m].Move? ==> !states[m].tasks[pid].LookupFile?
    ensures HasOrigin(states, labels, m + 1, pid, states[m + 1].tasks[pid].cert, states[m + 1].tasks[pid].caller)
  {
    var c := states[m + 1].tasks[pid].cert;
    if labels[m].Arrive? {
      assert labels[m] == Arrive(pid, Post(c));
      assert Arrived(labels, m + 1, pid, Post(c)) && SameFields(c, c);
    } else {
      assert Read(states, labels, m, pid, c.certId);
    }
  }

  // ---------------------------------------------------------------- what the flag tells

  /** In every state of every run, a stored certificate has a last write, this write a lookup,
      and the flag tells whether that lookup got its answer and found the file in the ledger it
      met. */
  lemma {:induction false} FlagTellsLookup(states: seq<State>, labels: seq<Label>, n: nat, id: string)
    returns (j: nat, i: nat)
    requires IsRun(states, labels) && n <= |labels| && id in states[n].world.certs
    ensures IsLastWrite(states, labels, n, id, j) && IsLookup(states, labels, j, labels[j].pid, id, i)
    ensures states[n].world.certs[id].hasUpload <==> FindsFile(states[i], labels[i], id)
    decreases n
  {
    hide Step, IsLookup, FindsFile;
    assert n > 0;
    var m := n - 1;
    assert Step(states[m], labels[m], states[n]);
    StepWrites(states[m], labels[m], states[n], id);
    if Writes(states[m], labels[m], id) {
      j := m;
      i := PutCarriesLookup(states, labels, m, labels[m].pid);
    } else {
      j, i := FlagTellsLookup(states, labels, m, id);
    }
  }

  /** So the flag is exact if and only if that lookup found the file or there is none to this
      day. What makes it wrong is a lookup that failed, or that came before the file. */
  lemma {:induction false} FlagExactUnlessLookupMissed(states: seq<State>, labels: seq<Label>, n: nat, id: string,
      j: nat, i: nat)
    requires IsRun(states, labels) && n <= |labels| && id in states[n].world.certs
    requires IsLastWrite(states, labels, n, id, j) && IsLookup(states, labels, j, labels[j].pid, id, i)
    ensures FlagExact(states[n].world, id) <==> FindsFile(states[i], labels[i], id) || id !in states[n].world.files
  {
    var j', i' := FlagTellsLookup(states, labels, n, id);
    assert j == j' && i == i';
    EveryRunIsSound(states, labels, n);
  }

  /** A lookup that came too early: a certificate that looked for its file just before the file
      came is stored as not uploaded. */
  lemma {:induction false} StaleLookupLosesUpload(cert: Certificate, file: FileStruct, now: Time)
    returns (states: seq<State>, labels: seq<Label>)
    requires cert.certId == file.certId && !cert.isOpen
    ensures IsRun(states, labels)
    ensures var s := states[|labels|];
            && s.tasks == map[1 := Finished(CertificateReply(OK, false)), 2 := Finished(UploadReply(OK, false))]
            && cert.certId in s.world.files && cert.certId in s.world.certs && !s.world.certs[cert.certId].hasUpload
  {
    var put := PutCertificate(cert.(hasUpload := false), Client);
    var w1 := PostUploadFile(EMPTY, file);
    var w2 := PostCertificate(w1, put.cert, now);
    var done1, done2 := Finished(CertificateReply(OK, false)), Finished(UploadReply(OK, false));
    labels := [Arrive(1, Post(cert)), Arrive(2, Store(file)), Move(1, Done, now), Move(2, Done, now),
        Move(2, Done, now), Move(1, Done, now)];
    states := [INITIAL,
               State(EMPTY, map[1 := LookupFile(cert, Client)]),
               State(EMPTY, map[1 := LookupFile(cert, Client), 2 := PutFile(file)]),
               State(EMPTY, map[1 := put, 2 := PutFile(file)]),
               State(w1, map[1 := put, 2 := LookupUploaded(file.certId)]),
               State(w1, map[1 := put, 2 := done2]),
               State(w2, map[1 := done1, 2 := done2])];
  }

  /** A lookup that failed, with one client and nothing interleaved: the file is stored, then the
      certificate is posted, and its lookup is lost. */
  lemma {:induction false} LostLookupLosesUpload(cert: Certificate, file: FileStruct, now: Time)
    returns (states: seq<State>, labels: seq<Label>)
    requires cert.certId == file.certId && !cert.isOpen
    ensures IsRun(states, labels)
    ensures labels == [Arrive(1, Store(file)), Move(1, Done, now), Move(1, Done, now), Arrive(2, Post(cert)),
        Move(2, Lost, now), Move(2, Done, now)]
    ensures var s := states[|labels|];
            && s.tasks == map[1 := Finished(UploadReply(OK, false)), 2 := Finished(CertificateReply(OK, false))]
            && cert.certId in s.world.files && cert.certId in s.world.certs && !s.world.certs[cert.certId].hasUpload
  {
    var put := PutCertificate(cert.(hasUpload := false), Client);
    var w1 := PostUploadFile(EMPTY, file);
    var w2 := PostCertificate(w1, put.cert, now);
    var done1, done2 := Finished(UploadReply(OK, false)), Finished(CertificateReply(OK, false));
    labels := [Arrive(1, Store(file)), Move(1, Done, now), Move(1, Done, now), Arrive(2, Post(cert)),
        Move(2, Lost, now), Move(2, Done, now)];
    states := [INITIAL,
               State(EMPTY, map[1 := PutFile(file)]),
               State(w1, map[1 := LookupUploaded(file.certId)]),
               State(w1, map[1 := done1]),
               State(w1, map[1 := done1, 2 := LookupFile(cert, Client)]),
               State(w1, map[1 := done1, 2 := put]),
               State(w2, map[1 := done1, 2 := done2])];
  }

  /** A lookup that came before the file, with one client and nothing interleaved: the certificate
      was posted long ago, and the upload of its file is committed but times out, or its read of
      the certificate fails, so the certificate is never written back. */
  lemma {:induction false} UnfinishedUploadLosesFlag(cert: Certificate, file: FileStruct, now: Time, timesOut: bool)
    returns (states: seq<State>, labels: seq<Label>)
    requires cert.certId == file.certId && !cert.isOpen
    ensures IsRun(states, labels)
    ensures labels == [Arrive(1, Post(cert)), Move(1, Done, now), Move(1, Done, now), Arrive(2, Store(file))]
                      + if timesOut then [Move(2, TimedOut, now)] else [Move(2, Done, now), Move(2, Lost, now)]
    ensures var s := states[|labels|];
            && 2 in s.tasks
            && s.tasks[2] == Finished(if timesOut then UploadReply(NOT_IMPLEMENTED, true) else UploadReply(OK, false))
            && cert.certId in s.world.files && cert.certId in s.world.certs
            && !s.world.certs[cert.certId].hasUpload
  {
    var put := PutCertificate(cert.(hasUpload := false), Client);
    var w1 := PostCertificate(EMPTY, put.cert, now);
    var w2 := PostUploadFile(w1, file);
    var done1 := Finished(CertificateReply(OK, false));
    labels := [Arrive(1, Post(cert)), Move(1, Done, now), Move(1, Done, now), Arrive(2, Store(file))];
    states := [INITIAL,
               State(EMPTY, map[1 := LookupFile(cert, Client)]),
               State(EMPTY, map[1 := put]),
               State(w1, map[1 := done1]),
               State(w1, map[1 := done1, 2 := PutFile(file)])];
    assert IsRun(states, labels);
    hide IsRun;
    if timesOut {
      var s := State(w2, map[1 := done1, 2 := Finished(UploadReply(NOT_IMPLEMENTED, true))]);
      states, labels := RunGoesOn(states, labels, Move(2, TimedOut, now), s);
    } else {
      var s := State(w2, map[1 := done1, 2 := LookupUploaded(file.certId)]);
      states, labels := RunGoesOn(states, labels, Move(2, Done, now), s);
      var s' := State(w2, map[1 := done1, 2 := Finished(UploadReply(OK, false))]);
      states, labels := RunGoesOn(states, labels, Move(2, Lost, now), s');
    }
  }

  lemma {:induction false} RunGoesOn(states: seq<State>, labels: seq<Label>, l: Label, s: State)
    returns (states': seq<State>, labels': seq<Label>)
    requires IsRun(states, labels) && Step(states[|labels|], l, s)
    ensures IsRun(states', labels') && states' == states + [s] && labels' == labels + [l]
  {
    hide Step;
    states', labels' := states + [s], labels + [l];
  }
}
