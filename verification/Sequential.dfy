/** One operation at a time, from its first request to its reply. */
module Sequential {
  import opened Records
  import opened Stamps
  import opened Peer
  import opened Workflow

  datatype Run = Run(end: Task, world: World, calls: nat)

  /** Requests that are still ahead, at most. */
  function Ahead(t: Task): nat {
    match t
    case LookupFile(_, caller) => 3 + (if caller.ChangeStatus? then 3 * |caller.rest| else 0)
    case PutCertificate(_, caller) => 2 + (if caller.ChangeStatus? then 3 * |caller.rest| else 0)
    case PutFile(_) => 5
    case LookupUploaded(_) => 4
    case LookupListed(_, rest) => 3 * |rest| + 1
    case Finished(_) => 0
    case Crashed => 0
  }

  lemma AdvanceGetsAhead(t: Task, w: World, outcome: Outcome, now: Time)
    requires Ahead(t) > 0
    ensures Ahead(Advance(t, w, outcome, now).0) < Ahead(t)
  {
  }

  /** The whole operation, under a schedule: other clients' commits come between its requests. */
  function Drive(t: Task, w: World, env: Schedule, k: nat): Run
    decreases Ahead(t)
  {
    if Ahead(t) == 0 then Run(t, w, k) else
    AdvanceGetsAhead(t, Meets(w, env, k), env(k).outcome, env(k).now);
    var (t', w') := Advance(t, Meets(w, env, k), env(k).outcome, env(k).now);
    Drive(t', w', env, k + 1)
  }

  /** A schedule in which nobody else commits and every call succeeds. */
  ghost predicate Quiet(env: Schedule) {
    forall k :: env(k).commits == [] && env(k).outcome == Done
  }

  lemma QuietStep(t: Task, w: World, env: Schedule, k: nat)
    requires Quiet(env) && Ahead(t) > 0
    ensures var (t', w') := Advance(t, w, Done, env(k).now);
            Drive(t, w, env, k) == Drive(t', w', env, k + 1)
  {
    assert Meets(w, env, k) == w;
  }

  lemma {:induction false} DriveStep(t: Task, w: World, env: Schedule, k: nat)
    requires Ahead(t) > 0
    ensures var (t', w') := Advance(t, Meets(w, env, k), env(k).outcome, env(k).now);
            Drive(t, w, env, k) == Drive(t', w', env, k + 1)
  {
  }

  lemma {:induction false} ListedReturns(done: seq<Status>, s: Status, rest: seq<Status>, w: World, env: Schedule,
      k: nat)
    requires WellStored(Meets(w, env, k))
    ensures var v := Meets(w, env, k);
            Drive(LookupListed(done, [s] + rest), w, env, k)
            == if env(k).outcome.Done? && s.certId in v.certs
               then
                 var cert := WithStatus(Shown(v.certs[s.certId]), s);
                 Drive(LookupFile(cert, ChangeStatus(done, s, rest)), v, env, k + 1)
               else Drive(NextListed(done + [s], rest), v, env, k + 1)
  {
    assert ([s] + rest)[0] == s && ([s] + rest)[1..] == rest;
    DriveStep(LookupListed(done, [s] + rest), w, env, k);
  }

  lemma {:induction false} FinishedRests(reply: Reply, w: World, env: Schedule, k: nat)
    ensures Drive(Finished(reply), w, env, k) == Run(Finished(reply), w, k)
  {
  }

  lemma {:induction false} PutReturns(cert: Certificate, caller: Caller, w: World, env: Schedule, k: nat)
    ensures var v, failed := Meets(w, env, k), !env(k).outcome.Done?;
            var v' := if env(k).outcome.Lost? then v else PostCertificate(v, cert, env(k).now);
            Drive(PutCertificate(cert, caller), w, env, k)
            == Drive(Return(caller, if failed then NOT_IMPLEMENTED else OK, failed), v', env, k + 1)
  {
    AdvanceGetsAhead(PutCertificate(cert, caller), Meets(w, env, k), env(k).outcome, env(k).now);
  }

  lemma {:induction false} LookupReturns(cert: Certificate, caller: Caller, w: World, env: Schedule, k: nat)
    ensures var v := Meets(w, env, k);
            var found := env(k).outcome.Done? && cert.certId in v.files;
            Drive(LookupFile(cert, caller), w, env, k)
            == if cert.isOpen && !found then Drive(Return(caller, BAD_REQUEST, !env(k).outcome.Done?), v, env, k + 1)
               else Drive(PutCertificate(cert.(hasUpload := found), caller), v, env, k + 1)
  {
    AdvanceGetsAhead(LookupFile(cert, caller), Meets(w, env, k), env(k).outcome, env(k).now);
  }

  /** A CertificateIn behaves the same for every caller, who then goes on from its reply. */
  lemma {:induction false} DriveReturns(cert: Certificate, caller: Caller, w: World, env: Schedule, k: nat)
    ensures var r := Drive(LookupFile(cert, Client), w, env, k);
            && r.end.Finished? && r.end.reply.CertificateReply?
            && Drive(LookupFile(cert, caller), w, env, k)
               == Drive(Return(caller, r.end.reply.code, r.end.reply.failed), r.world, env, r.calls)
  {
    var v := Meets(w, env, k);
    var found := env(k).outcome.Done? && cert.certId in v.files;
    LookupReturns(cert, Client, w, env, k);
    LookupReturns(cert, caller, w, env, k);
    PutReturns(cert.(hasUpload := found), Client, v, env, k + 1);
    PutReturns(cert.(hasUpload := found), caller, v, env, k + 1);
  }

  // ---------------------------------------------------------------- the upload flag

  /** The flag is true exactly for the certificates whose file is stored. */
  ghost predicate FlagsExact(w: World) {
    forall id :: FlagExact(w, id)
  }

  ghost predicate FlagsExactBut(w: World, but: string) {
    forall id :: id != but ==> FlagExact(w, id)
  }

  /** Between its requests an upload leaves one flag behind, for the certificate in its hands. */
  ghost predicate FlagsOnTrack(t: Task, w: World) {
    match t
    case LookupUploaded(id) => FlagsExactBut(w, id) && id in w.files
    case LookupFile(cert, Upload) => FlagsExactBut(w, cert.certId) && cert.certId in w.files
    case PutCertificate(cert, Upload) => FlagsExactBut(w, cert.certId) && cert.certId in w.files && cert.hasUpload
    case PutCertificate(cert, _) => FlagsExact(w) && (cert.hasUpload <==> cert.certId in w.files)
    case _ => FlagsExact(w)
  }

  lemma QuietAdvanceStaysOnTrack(t: Task, w: World, now: Time)
    requires Sound(w) && FlagsOnTrack(t, w)
    ensures var (t', w') := Advance(t, w, Done, now); FlagsOnTrack(t', w')
  {
    var (t', w') := Advance(t, w, Done, now);
    forall id ensures FlagExact(w, id) && !Spoils(t, w, Done, id) ==> FlagExact(w', id) {}
    if t.PutCertificate? { assert FlagExact(w', t.cert.certId); }
  }

  lemma {:induction false} QuietDriveKeepsFlags(t: Task, w: World, env: Schedule, k: nat)
    requires Quiet(env) && Sound(w) && TaskSound(t, w) && FlagsOnTrack(t, w)
    ensures var r := Drive(t, w, env, k); Sound(r.world) && FlagsExact(r.world) && r.end.Finished?
    decreases Ahead(t)
  {
    if Ahead(t) > 0 {
      QuietStep(t, w, env, k);
      QuietAdvanceStaysOnTrack(t, w, env(k).now);
      AdvanceKeepsSound(t, w, Done, env(k).now);
      AdvanceGetsAhead(t, w, Done, env(k).now);
      var (t', w') := Advance(t, w, Done, env(k).now);
      QuietDriveKeepsFlags(t', w', env, k + 1);
    }
  }

  /** Operations one after the other, from the empty ledger. */
  function After(ops: seq<Operation>, env: Schedule): Run
    decreases |ops|
  {
    if ops == [] then Run(Finished(StatusReply([])), EMPTY, 0) else
    var before := After(ops[..|ops| - 1], env);
    Drive(Begin(ops[|ops| - 1]), before.world, env, before.calls)
  }

  /** Without failures and interference, after every operation a certificate says "uploaded"
      exactly when its file is stored, whatever the clients claimed. */
  lemma {:induction false} QuietRunsKeepFlagsExact(ops: seq<Operation>, env: Schedule)
    requires Quiet(env)
    ensures Sound(After(ops, env).world) && FlagsExact(After(ops, env).world)
    decreases |ops|
  {
    if ops != [] {
      var before := After(ops[..|ops| - 1], env);
      QuietRunsKeepFlagsExact(ops[..|ops| - 1], env);
      QuietDriveKeepsFlags(Begin(ops[|ops| - 1]), before.world, env, before.calls);
    }
  }

  // ---------------------------------------------------------------- ChangeStatus as a fold

  /** The certificate exists, and the entry does not open it without a file. */
  predicate Accepted(w: World, s: Status) {
    s.certId in w.certs && (s.isOpen ==> s.certId in w.files)
  }

  /** What an accepted entry leaves in the ledger. */
  function Changed(w: World, s: Status, now: Time): Certificate
    requires s.certId in w.certs
  {
    WithStatus(w.certs[s.certId], s).(hasUpload := s.certId in w.files, updateDate := Format(now))
  }

  /** The requests one entry takes when all goes well: one if the certificate is missing, two
      if it is turned down, three if it is written. */
  function Requests(w: World, s: Status): nat {
    if s.certId !in w.certs then 1 else if !Accepted(w, s) then 2 else 3
  }

  /** The ledger after one entry. */
  function Entry(w: World, s: Status, now: Time): World {
    if Accepted(w, s) then w.(certs := w.certs[s.certId := Changed(w, s, now)]) else w
  }

  /** The entries applied to the ledger from left to right. */
  function Fold(w: World, ss: seq<Status>, env: Schedule, k: nat): World
    decreases |ss|
  {
    if ss == [] then w else Fold(Entry(w, ss[0], env(k + 2).now), ss[1..], env, k + Requests(w, ss[0]))
  }

  /** An entry as it is returned: flagged when its certificate exists, written or not. */
  function Flag(w: World, s: Status): Status {
    if s.certId in w.certs then s.(isChangedOnChain := true) else s
  }

  function Flagged(w: World, ss: seq<Status>): seq<Status> {
    if ss == [] then [] else [Flag(w, ss[0])] + Flagged(w, ss[1..])
  }

  function RequestsOf(w: World, ss: seq<Status>): nat {
    if ss == [] then 0 else Requests(w, ss[0]) + RequestsOf(w, ss[1..])
  }

  /** An entry changes neither which certificates exist nor which files do. */
  lemma EntryKeepsKeys(w: World, s: Status, now: Time)
    ensures var v := Entry(w, s, now);
            && v.certs.Keys == w.certs.Keys && v.files == w.files
            && (Sound(w) ==> Sound(v))
  {
  }

  /** One entry of the list: its own requests, then the rest of the list. */
  lemma {:induction false} QuietEntry(done: seq<Status>, ss: seq<Status>, w: World, env: Schedule, k: nat)
    requires Quiet(env) && Sound(w) && ss != []
    ensures Drive(LookupListed(done, ss), w, env, k)
         == Drive(NextListed(done + [Flag(w, ss[0])], ss[1..]), Entry(w, ss[0], env(k + 2).now), env,
                  k + Requests(w, ss[0]))
  {
    var s := ss[0];
    QuietStep(LookupListed(done, ss), w, env, k);
    if s.certId in w.certs {
      QuietFound(done, s, ss[1..], w, env, k);
    }
  }

  lemma {:induction false} QuietFound(done: seq<Status>, s: Status, rest: seq<Status>, w: World, env: Schedule, k: nat)
    requires Quiet(env) && Sound(w) && s.certId in w.certs
    ensures Drive(LookupFile(WithStatus(Shown(w.certs[s.certId]), s), ChangeStatus(done, s, rest)), w, env, k + 1)
         == Drive(NextListed(done + [Flag(w, s)], rest), Entry(w, s, env(k + 2).now), env, k + Requests(w, s))
  {
    hide Drive, Advance;
    var cert, caller := WithStatus(Shown(w.certs[s.certId]), s), ChangeStatus(done, s, rest);
    assert Meets(w, env, k + 1) == w && Meets(w, env, k + 2) == w;
    LookupReturns(cert, caller, w, env, k + 1);
    if Accepted(w, s) {
      hide Meets;
      PutReturns(cert.(hasUpload := s.certId in w.files), caller, w, env, k + 2);
      PostedIsChanged(w, s, env(k + 2).now);
    }
  }

  /** Cutting the date on the way does not matter, for a new one is set. */
  lemma {:induction false} PostedIsChanged(w: World, s: Status, now: Time)
    requires Sound(w) && s.certId in w.certs
    ensures var put := WithStatus(Shown(w.certs[s.certId]), s).(hasUpload := s.certId in w.files);
            PostCertificate(w, put, now) == w.(certs := w.certs[s.certId := Changed(w, s, now)])
  {
  }

  lemma {:induction false} KeysDecide(w: World, v: World, ss: seq<Status>)
    requires w.certs.Keys == v.certs.Keys && w.files == v.files
    ensures Flagged(w, ss) == Flagged(v, ss) && RequestsOf(w, ss) == RequestsOf(v, ss)
    decreases |ss|
  {
    if ss != [] { KeysDecide(w, v, ss[1..]); }
  }

  /** What a ChangeStatus amounts to. */
  function FoldRun(done: seq<Status>, ss: seq<Status>, w: World, env: Schedule, k: nat): Run {
    Run(Finished(StatusReply(done + Flagged(w, ss))), Fold(w, ss, env, k), k + RequestsOf(w, ss))
  }

  lemma {:induction false} FoldRunStep(done: seq<Status>, ss: seq<Status>, w: World, env: Schedule, k: nat)
    requires ss != []
    ensures FoldRun(done + [Flag(w, ss[0])], ss[1..], Entry(w, ss[0], env(k + 2).now), env, k + Requests(w, ss[0]))
         == FoldRun(done, ss, w, env, k)
  {
    var w' := Entry(w, ss[0], env(k + 2).now);
    EntryKeepsKeys(w, ss[0], env(k + 2).now);
    KeysDecide(w, w', ss[1..]);
    assert (done + [Flag(w, ss[0])]) + Flagged(w, ss[1..]) == done + Flagged(w, ss);
  }

  /** Without failures and interference, ChangeStatus is the fold of its entries. */
  lemma {:induction false} QuietListIsFold(done: seq<Status>, ss: seq<Status>, w: World, env: Schedule, k: nat)
    requires Quiet(env) && Sound(w)
    ensures Drive(NextListed(done, ss), w, env, k) == FoldRun(done, ss, w, env, k)
    decreases |ss|
  {
    if ss == [] {
      assert done + [] == done;
    } else {
      QuietEntry(done, ss, w, env, k);
      EntryKeepsKeys(w, ss[0], env(k + 2).now);
      QuietListIsFold(done + [Flag(w, ss[0])], ss[1..], Entry(w, ss[0], env(k + 2).now), env, k + Requests(w, ss[0]));
      FoldRunStep(done, ss, w, env, k);
    }
  }

  /** Position of the last accepted entry for a certificate, |ss| if there is none. */
  function LastAccepted(w: World, ss: seq<Status>, id: string): (n: nat)
    ensures n <= |ss|
    ensures n < |ss| ==> ss[n].certId == id && Accepted(w, ss[n])
    ensures forall i :: 0 <= i < |ss| && ss[i].certId == id && Accepted(w, ss[i]) ==> i <= n < |ss|
    decreases |ss|
  {
    if ss == [] then 0 else
    var n := LastAccepted(w, ss[1..], id);
    assert forall i :: 0 < i < |ss| ==> ss[i] == ss[1..][i - 1];
    if n < |ss| - 1 || !(ss[0].certId == id && Accepted(w, ss[0])) then n + 1 else 0
  }

  lemma {:induction false} KeysDecideLast(w: World, v: World, ss: seq<Status>, id: string)
    requires w.certs.Keys == v.certs.Keys && w.files == v.files
    ensures LastAccepted(w, ss, id) == LastAccepted(v, ss, id)
    decreases |ss|
  {
    if ss != [] { KeysDecideLast(w, v, ss[1..], id); }
  }

  /** The certificate differs from the stored one at most in flags and date, and has the
      flags of the entry. */
  ghost predicate Took(w: World, s: Status, d: Certificate)
    requires s.certId in w.certs
  {
    d == w.certs[s.certId].(isOpen := s.isOpen, isCompleted := s.isCompleted, isDeleted := s.isDeleted,
                            hasUpload := s.certId in w.files, updateDate := d.updateDate)
  }

  lemma {:induction false} FoldKeepsKeys(w: World, ss: seq<Status>, env: Schedule, k: nat)
    ensures var v := Fold(w, ss, env, k); v.certs.Keys == w.certs.Keys && v.files == w.files
    decreases |ss|
  {
    if ss != [] {
      var w' := Entry(w, ss[0], env(k + 2).now);
      EntryKeepsKeys(w, ss[0], env(k + 2).now);
      FoldKeepsKeys(w', ss[1..], env, k + Requests(w, ss[0]));
    }
  }

  /** What an entry leaves is taken over by a later one, except for flags and date. */
  lemma {:induction false} TookAfterEntry(w: World, s: Status, now: Time, later: Status, d: Certificate)
    requires later.certId in w.certs
    ensures later.certId in Entry(w, s, now).certs
    ensures Took(Entry(w, s, now), later, d) ==> Took(w, later, d)
    ensures s.certId == later.certId && Accepted(w, s) ==> Took(w, s, Entry(w, s, now).certs[s.certId])
    ensures s.certId != later.certId || !Accepted(w, s) ==>
        Entry(w, s, now).certs[later.certId] == w.certs[later.certId]
  {
  }

  lemma {:induction false} LastAcceptedStep(w: World, ss: seq<Status>, id: string)
    requires ss != []
    ensures var n, m := LastAccepted(w, ss, id), LastAccepted(w, ss[1..], id);
            if m < |ss| - 1 || !(ss[0].certId == id && Accepted(w, ss[0])) then n == m + 1 else n == 0
  {
  }

  /** The world after the entries, seen from one certificate: the last accepted entry decides
      its three flags, without one it is untouched, and only flags and date ever differ. */
  ghost predicate SeenFrom(w: World, ss: seq<Status>, v: World, id: string)
    requires id in w.certs && id in v.certs
  {
    var n := LastAccepted(w, ss, id);
    if n == |ss| then v.certs[id] == w.certs[id] else Took(w, ss[n], v.certs[id])
  }

  lemma {:induction false} SeenFromStep(w: World, ss: seq<Status>, now: Time, v: World, id: string)
    requires ss != [] && id in w.certs && id in Entry(w, ss[0], now).certs && id in v.certs
    requires SeenFrom(Entry(w, ss[0], now), ss[1..], v, id)
    ensures SeenFrom(w, ss, v, id)
  {
    var s, rest, w' := ss[0], ss[1..], Entry(w, ss[0], now);
    EntryKeepsKeys(w, s, now);
    KeysDecideLast(w, w', rest, id);
    LastAcceptedStep(w, ss, id);
    var m := LastAccepted(w, rest, id);
    if m < |rest| {
      assert rest[m] == ss[m + 1];
      TookAfterEntry(w, s, now, rest[m], v.certs[id]);
    } else {
      TookAfterEntry(w, s, now, s.(certId := id), v.certs[id]);
    }
  }

  lemma {:induction false} FoldIsLastAccepted(w: World, ss: seq<Status>, env: Schedule, k: nat, id: string)
    requires id in w.certs
    ensures var v := Fold(w, ss, env, k);
            v.certs.Keys == w.certs.Keys && v.files == w.files && SeenFrom(w, ss, v, id)
    decreases |ss|
  {
    FoldKeepsKeys(w, ss, env, k);
    if ss != [] {
      EntryKeepsKeys(w, ss[0], env(k + 2).now);
      FoldIsLastAccepted(Entry(w, ss[0], env(k + 2).now), ss[1..], env, k + Requests(w, ss[0]), id);
      SeenFromStep(w, ss, env(k + 2).now, Fold(w, ss, env, k), id);
    }
  }

  // ---------------------------------------------------------------- CertificateIn and UploadFile under any schedule

  /** What a CertificateIn comes to. It is turned down if it is open and the lookup does not get
      its file; this is an error only if the lookup itself failed. Otherwise the certificate of
      the client is stored, with nothing changed but the flag, which says whether the lookup got
      the file, and the date. */
  function CertificateRun(cert: Certificate, w: World, env: Schedule, k: nat): Run {
    var w0 := Meets(w, env, k);
    var w1 := Meets(w0, env, k + 1);
    var found := env(k).outcome.Done? && cert.certId in w0.files;
    var stored := cert.(hasUpload := found, updateDate := Format(env(k + 1).now));
    if cert.isOpen && !found then Run(Finished(CertificateReply(400, !env(k).outcome.Done?)), w0, k + 1)
    else
      Run(Finished(if env(k + 1).outcome.Done? then CertificateReply(200, false) else CertificateReply(501, true)),
          if env(k + 1).outcome.Lost? then w1 else w1.(certs := w1.certs[cert.certId := stored]), k + 2)
  }

  lemma {:induction false} CertificateInRuns(cert: Certificate, w: World, env: Schedule, k: nat)
    ensures Drive(LookupFile(cert, Client), w, env, k) == CertificateRun(cert, w, env, k)
  {
    hide Drive, Advance, Meets, Format;
    var w0 := Meets(w, env, k);
    var found := env(k).outcome.Done? && cert.certId in w0.files;
    LookupReturns(cert, Client, w, env, k);
    if cert.isOpen && !found {
      FinishedRests(CertificateReply(400, !env(k).outcome.Done?), w0, env, k + 1);
    } else {
      PutReturns(cert.(hasUpload := found), Client, w0, env, k + 1);
      var r := CertificateRun(cert, w, env, k);
      FinishedRests(r.end.reply, r.world, env, k + 2);
    }
  }

  /** The ledger after the file of an upload has been sent. */
  function FileSent(file: FileStruct, w: World, env: Schedule, k: nat): World {
    var w0 := Meets(w, env, k);
    if env(k).outcome.Lost? then w0 else w0.(files := w0.files[file.certId := file])
  }

  /** What an upload comes to. If its file is stored and announced and its certificate is then
      read, the certificate is written back as it was read, with nothing changed but the flag,
      which says whether the lookup succeeded, and the date. An open certificate is not written
      back if the lookup fails. The upload succeeds if nothing it has asked for fails, but for
      the read of the certificate, and the lookup of one that is not open. */
  function UploadRun(file: FileStruct, w: World, env: Schedule, k: nat): Run {
    var w1 := Meets(FileSent(file, w, env, k), env, k + 1);
    if !env(k).outcome.Done? then
      Run(Finished(UploadReply(501, true)), FileSent(file, w, env, k), k + 1)
    else if !env(k + 1).outcome.Done? || file.certId !in w1.certs then
      Run(Finished(UploadReply(200, false)), w1, k + 2)
    else
      var cert := w1.certs[file.certId];
      var w2 := Meets(w1, env, k + 2);
      var w3 := Meets(w2, env, k + 3);
      var found := env(k + 2).outcome.Done?;
      var stored := cert.(hasUpload := found, updateDate := Format(env(k + 3).now));
      if cert.isOpen && !found then Run(Finished(UploadReply(501, true)), w2, k + 3)
      else
        Run(Finished(if env(k + 3).outcome.Done? then UploadReply(200, false) else UploadReply(501, true)),
            if env(k + 3).outcome.Lost? then w3 else w3.(certs := w3.certs[file.certId := stored]), k + 4)
  }

  /** Under every schedule an upload comes to this: reply, ledger and number of calls. */
  lemma {:induction false} UploadRuns(file: FileStruct, w: World, env: Schedule, k: nat)
    requires WellStored(w)
    ensures Drive(PutFile(file), w, env, k) == UploadRun(file, w, env, k)
  {
    hide Drive, Meets, Format;
    var v := FileSent(file, w, env, k);
    var r := UploadRun(file, w, env, k);
    DriveStep(PutFile(file), w, env, k);
    if !env(k).outcome.Done? {
      FinishedRests(UploadReply(501, true), v, env, k + 1);
    } else {
      var w1 := Meets(v, env, k + 1);
      FileStays(file, w, env, k);
      DriveStep(LookupUploaded(file.certId), v, env, k + 1);
      if env(k + 1).outcome.Done? && file.certId in w1.certs {
        WriteBackRuns(w1.certs[file.certId], w1, env, k + 2);
      } else {
        FinishedRests(UploadReply(200, false), w1, env, k + 2);
      }
    }
  }

  /** The file is there from then on, and dates are long enough to be cut. */
  lemma {:induction false} FileStays(file: FileStruct, w: World, env: Schedule, k: nat)
    requires WellStored(w) && !env(k).outcome.Lost?
    ensures var w1 := Meets(FileSent(file, w, env, k), env, k + 1);
            && WellStored(w1) && file.certId in w1.files && file.certId in Meets(w1, env, k + 2).files
  {
    var v := FileSent(file, w, env, k);
    var w1 := Meets(v, env, k + 1);
    CommitsKeepWellStored(w, env(k).commits);
    CommitsKeepWellStored(v, env(k + 1).commits);
    CommitsGrow(v, env(k + 1).commits);
    CommitsGrow(w1, env(k + 2).commits);
  }

  lemma {:induction false} WriteBackRuns(cert: Certificate, w: World, env: Schedule, k: nat)
    requires |cert.updateDate| >= 10 && cert.certId in Meets(w, env, k).files
    ensures var w0 := Meets(w, env, k);
            var w1 := Meets(w0, env, k + 1);
            var found := env(k).outcome.Done?;
            var stored := cert.(hasUpload := found, updateDate := Format(env(k + 1).now));
            Drive(LookupFile(Shown(cert).(hasUpload := true), Upload), w, env, k)
            == if cert.isOpen && !found then Run(Finished(UploadReply(501, true)), w0, k + 1)
               else Run(Finished(if env(k + 1).outcome.Done? then UploadReply(200, false) else UploadReply(501, true)),
                        if env(k + 1).outcome.Lost? then w1 else w1.(certs := w1.certs[cert.certId := stored]), k + 2)
  {
    hide Drive, Advance, Meets, Format;
    var back := Shown(cert).(hasUpload := true);
    var w0 := Meets(w, env, k);
    var w1 := Meets(w0, env, k + 1);
    var found := env(k).outcome.Done?;
    LookupReturns(back, Upload, w, env, k);
    if cert.isOpen && !found {
      FinishedRests(UploadReply(501, true), w0, env, k + 1);
    } else {
      PutReturns(back.(hasUpload := found), Upload, w0, env, k + 1);
      var v := if env(k + 1).outcome.Lost? then w1 else PostCertificate(w1, back.(hasUpload := found), env(k + 1).now);
      FinishedRests(UploadReply(200, false), v, env, k + 2);
      FinishedRests(UploadReply(501, true), v, env, k + 2);
    }
  }

  /** Without failures and interference an upload stores its file, and of the certificates it
      changes at most its own, and there nothing but the flag and the date. */
  lemma {:induction false} QuietUploadChangesOnlyFlag(file: FileStruct, w: World, env: Schedule, k: nat)
    requires Quiet(env) && WellStored(w)
    ensures var id, v := file.certId, Drive(PutFile(file), w, env, k).world;
            && v.files == w.files[id := file]
            && (id !in w.certs ==> v.certs == w.certs)
            && (id in w.certs ==>
                  v.certs == w.certs[id := w.certs[id].(hasUpload := true, updateDate := Format(env(k + 3).now))])
    ensures Drive(PutFile(file), w, env, k).end == Finished(UploadReply(200, false))
  {
    UploadRuns(file, w, env, k);
    hide Drive, Format;
    assert FileSent(file, w, env, k) == w.(files := w.files[file.certId := file]);
    assert forall v: World, n: nat :: Meets(v, env, n) == v;
  }

  // ---------------------------------------------------------------- ChangeStatus under any schedule

  /** What becomes of one entry: whether its certificate is written, whether the entry is flagged,
      the ledger after it, and the number of the next call. */
  datatype Effect = Effect(written: bool, flagged: bool, world: World, calls: nat)

  /** The read at call `k` gets the certificate. */
  predicate Seen(w: World, s: Status, env: Schedule, k: nat) {
    env(k).outcome.Done? && s.certId in Meets(w, env, k).certs
  }

  /** The entry opens a certificate whose file the lookup at call `k + 1` does not get. */
  predicate Refused(w: World, s: Status, env: Schedule, k: nat) {
    var v := Meets(Meets(w, env, k), env, k + 1);
    s.isOpen && !(env(k + 1).outcome.Done? && s.certId in v.files)
  }

  /** A certificate that is seen and not refused is written as it was read, with the flags of the
      entry, over whatever others have committed since; a write that times out is one, too. The
      entry is flagged if its last call brings no error. */
  function EffectOf(w: World, s: Status, env: Schedule, k: nat): Effect
    requires WellStored(Meets(w, env, k))
  {
    var w0 := Meets(w, env, k);
    var w1 := Meets(w0, env, k + 1);
    var w2 := Meets(w1, env, k + 2);
    if !Seen(w, s, env, k) then Effect(false, false, w0, k + 1)
    else if Refused(w, s, env, k) then Effect(false, env(k + 1).outcome.Done?, w1, k + 2)
    else
      var found := env(k + 1).outcome.Done? && s.certId in w1.files;
      var stored := w0.certs[s.certId].(isOpen := s.isOpen, isCompleted := s.isCompleted, isDeleted := s.isDeleted,
                                        hasUpload := found, updateDate := Format(env(k + 2).now));
      if env(k + 2).outcome.Lost? then Effect(false, false, w2, k + 3)
      else Effect(true, env(k + 2).outcome.Done?, w2.(certs := w2.certs[s.certId := stored]), k + 3)
  }

  /** An entry as it is returned. */
  function Returned(s: Status, e: Effect): Status {
    if e.flagged then s.(isChangedOnChain := true) else s
  }

  /** One entry, under any schedule. */
  lemma {:induction false} EntryHasEffect(done: seq<Status>, s: Status, rest: seq<Status>, w: World, env: Schedule,
      k: nat)
    requires WellStored(Meets(w, env, k))
    ensures var e := EffectOf(w, s, env, k);
            Drive(LookupListed(done, [s] + rest), w, env, k)
            == Drive(NextListed(done + [Returned(s, e)], rest), e.world, env, e.calls)
  {
    hide Drive, Advance, Meets, Format;
    var w0 := Meets(w, env, k);
    ListedReturns(done, s, rest, w, env, k);
    if Seen(w, s, env, k) {
      var w1 := Meets(w0, env, k + 1);
      var cert, caller := WithStatus(Shown(w0.certs[s.certId]), s), ChangeStatus(done, s, rest);
      LookupReturns(cert, caller, w0, env, k + 1);
      if !Refused(w, s, env, k) {
        PutReturns(cert.(hasUpload := env(k + 1).outcome.Done? && s.certId in w1.files), caller, w1, env, k + 2);
      }
    }
  }

  /** The flag in the reply is wrong, that is, it says something else than whether this entry was
      written, in exactly three cases: the entry is refused after a lookup that succeeded, its
      write is committed but times out and the client did not flag it, or the client flagged it
      and it is not written. */
  lemma {:induction false} WhenFlagMisleads(w: World, s: Status, env: Schedule, k: nat)
    requires WellStored(Meets(w, env, k))
    ensures var e := EffectOf(w, s, env, k);
            var refused, put := Refused(w, s, env, k), env(k + 2).outcome;
            && (e.written <==> Seen(w, s, env, k) && !refused && !put.Lost?)
            && (e.flagged <==> Seen(w, s, env, k) && if refused then env(k + 1).outcome.Done? else put.Done?)
            && (e.flagged != e.written <==>
                  Seen(w, s, env, k) && if refused then env(k + 1).outcome.Done? else put.TimedOut?)
            && (Returned(s, e).isChangedOnChain != e.written <==>
                  if Seen(w, s, env, k) && !refused then
                    (if s.isChangedOnChain then put.Lost? else put.TimedOut?)
                  else
                    s.isChangedOnChain || (Seen(w, s, env, k) && env(k + 1).outcome.Done?))
  {
  }

  lemma {:induction false} EffectKeepsWellStored(w: World, s: Status, env: Schedule, k: nat)
    requires WellStored(w)
    ensures WellStored(Meets(w, env, k)) && WellStored(EffectOf(w, s, env, k).world)
  {
    CommitsKeepWellStored(w, env(k).commits);
    var w0 := Meets(w, env, k);
    CommitsKeepWellStored(w0, env(k + 1).commits);
    CommitsKeepWellStored(Meets(w0, env, k + 1), env(k + 2).commits);
  }

  /** The effects of the entries, one after the other. */
  function Effects(w: World, ss: seq<Status>, env: Schedule, k: nat): (es: seq<Effect>)
    requires WellStored(w)
    ensures |es| == |ss|
    decreases |ss|
  {
    if ss == [] then [] else
    EffectKeepsWellStored(w, ss[0], env, k);
    var e := EffectOf(w, ss[0], env, k);
    [e] + Effects(e.world, ss[1..], env, e.calls)
  }

  function AllReturned(ss: seq<Status>, es: seq<Effect>): seq<Status>
    requires |ss| == |es|
  {
    if ss == [] then [] else [Returned(ss[0], es[0])] + AllReturned(ss[1..], es[1..])
  }

  /** Under every schedule, with failures, late commits and interference, ChangeStatus has these
      effects and returns these entries. */
  lemma {:induction false} ListHasEffects(done: seq<Status>, ss: seq<Status>, w: World, env: Schedule, k: nat)
    requires WellStored(w)
    ensures var es := Effects(w, ss, env, k);
            Drive(NextListed(done, ss), w, env, k)
            == Run(Finished(StatusReply(done + AllReturned(ss, es))),
                   if es == [] then w else es[|es| - 1].world, if es == [] then k else es[|es| - 1].calls)
    decreases |ss|
  {
    hide Drive, Advance, Meets, EffectOf, WellStored;
    if ss == [] {
      FinishedRests(StatusReply(done), w, env, k);
      assert done + [] == done;
    } else {
      EffectKeepsWellStored(w, ss[0], env, k);
      var e := EffectOf(w, ss[0], env, k);
      var r := Returned(ss[0], e);
      var es := Effects(e.world, ss[1..], env, e.calls);
      assert [ss[0]] + ss[1..] == ss;
      EntryHasEffect(done, ss[0], ss[1..], w, env, k);
      ListHasEffects(done + [r], ss[1..], e.world, env, e.calls);
      assert Effects(w, ss, env, k) == [e] + es && ([e] + es)[1..] == es;
      assert (done + [r]) + AllReturned(ss[1..], es) == done + ([r] + AllReturned(ss[1..], es));
    }
  }
}
