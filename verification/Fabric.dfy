/** The service's ledger operations and list requests, as it carries them out against the
    peer: every request goes through one client object and may find the ledger changed. */
module Fabric {
  import opened Text
  import opened Records
  import opened Stamps
  import opened Selectors
  import opened Filters
  import opened Escaping
  import opened Peer
  import opened Workflow
  import opened Sequential
  import opened Paging
  import opened Sweep

  const UNAUTHORIZED := 401
  const NOT_FOUND := 404
  const MAX_INT32 := 0x7FFF_FFFF

  datatype Response<+T> = QueryFailed | Empty | Found(value: T)

  /** A page as the peer returns it. */
  datatype ListInternal = ListInternal(pageCount: nat, bookmark: Bookmark, certs: seq<Certificate>)

  /** How a peer reads a query text: the records it selects and the order it asks for, or
      nothing if it cannot. */
  datatype Plan = Plan(wanted: Certificate -> bool, order: seq<SortKey>)

  type Engine = string -> Option<Plan>

  /** CouchDB as far as the printed queries go. */
  function CouchQuery(text: string): Option<Plan> {
    match QuestionOf(text)
    case None => None
    case Some(question) => Some(Plan(c => Satisfies(question.selector, CertificateDocument(c)), question.order))
  }

  class FabricSetup {
    var world: World
    var calls: nat
    const env: Schedule
    const engine: Engine

    constructor (env: Schedule)
      ensures world == EMPTY && calls == 0 && this.env == env && engine == CouchQuery
    {
      engine := CouchQuery;
      world := EMPTY;
      calls := 0;
      this.env := env;
    }

    // -------------------------------------------------------------- chaincode

    /** One round trip: others commit first. */
    method Call() returns (t: Turn)
      modifies this
      ensures world == Meets(old(world), env, old(calls)) && calls == old(calls) + 1 && t == env(old(calls))
    {
      t := env(calls);
      world := ApplyAll(world, t.commits);
      calls := calls + 1;
    }

    method GetCertificate(certId: string) returns (r: Response<Certificate>)
      modifies this
      ensures world == Meets(old(world), env, old(calls)) && calls == old(calls) + 1
      ensures r == if !env(old(calls)).outcome.Done? then QueryFailed
                   else if certId in world.certs then Found(world.certs[certId]) else Empty
    {
      var t := Call();
      if !t.outcome.Done? { return QueryFailed; }
      r := if certId in world.certs then Found(world.certs[certId]) else Empty;
    }

    method GetDownloadFile(certId: string) returns (r: Response<FileStruct>)
      modifies this
      ensures world == Meets(old(world), env, old(calls)) && calls == old(calls) + 1
      ensures r == if !env(old(calls)).outcome.Done? then QueryFailed
                   else if certId in world.files then Found(world.files[certId]) else Empty
    {
      var t := Call();
      if !t.outcome.Done? { return QueryFailed; }
      r := if certId in world.files then Found(world.files[certId]) else Empty;
    }

    /** An execute fails for the caller when nothing was committed and also when the commit was
        not announced in time. */
    method ExecutePostCertificate(cert: Certificate) returns (failed: bool)
      modifies this
      ensures calls == old(calls) + 1 && failed == !env(old(calls)).outcome.Done?
      ensures var w := Meets(old(world), env, old(calls));
              world == if env(old(calls)).outcome.Lost? then w else PostCertificate(w, cert, env(old(calls)).now)
    {
      var t := Call();
      if !t.outcome.Lost? {
        var stored := cert.(updateDate := Format(t.now));
        world := world.(certs := world.certs[stored.certId := stored]);
      }
      failed := !t.outcome.Done?;
    }

    method ExecutePostUploadFile(file: FileStruct) returns (failed: bool)
      modifies this
      ensures calls == old(calls) + 1 && failed == !env(old(calls)).outcome.Done?
      ensures var w := Meets(old(world), env, old(calls));
              world == if env(old(calls)).outcome.Lost? then w else PostUploadFile(w, file)
    {
      var t := Call();
      if !t.outcome.Lost? {
        world := world.(files := world.files[file.certId := file]);
      }
      failed := !t.outcome.Done?;
    }

    // -------------------------------------------------------------- ledger operations

    method CertificateIn(certificate: Certificate) returns (code: int, failed: bool)
      modifies this
      ensures Drive(LookupFile(certificate, Client), old(world), env, old(calls))
           == Run(Finished(CertificateReply(code, failed)), world, calls)
      ensures CertificateRun(certificate, old(world), env, old(calls))
           == Run(Finished(CertificateReply(code, failed)), world, calls)
      ensures WellStored(old(world)) ==> WellStored(world)
    {
      hide Drive, Advance, ApplyAll, Format, CertificateRun;
      CertificateInRuns(certificate, world, env, calls);
      ghost var w0, k0 := world, calls;
      LookupReturns(certificate, Client, w0, env, k0);
      if WellStored(w0) { CommitsKeepWellStored(w0, env(k0).commits); }
      var cert := certificate;
      var response := GetDownloadFile(cert.certId);
      cert := cert.(hasUpload := response.Found?);
      if cert.isOpen && !cert.hasUpload {
        FinishedRests(CertificateReply(BAD_REQUEST, response.QueryFailed?), world, env, calls);
        return BAD_REQUEST, response.QueryFailed?;
      }
      ghost var w1, k1 := world, calls;
      PutReturns(cert, Client, w1, env, k1);
      if WellStored(w1) { CommitsKeepWellStored(w1, env(k1).commits); }
      failed := ExecutePostCertificate(cert);
      FinishedRests(CertificateReply(if failed then NOT_IMPLEMENTED else OK, failed), world, env, calls);
      if failed {
        return NOT_IMPLEMENTED, true;
      }
      return OK, false;
    }

    /** Reads one certificate; the caller sees its date cut to the day. */
    method CertificateOut(certId: string) returns (code: int, failed: bool, cert: Option<Certificate>)
      requires WellStored(world)
      modifies this
      ensures WellStored(world)
      ensures world == Meets(old(world), env, old(calls)) && calls == old(calls) + 1
      ensures failed == !env(old(calls)).outcome.Done?
      ensures cert == if !failed && certId in world.certs then Some(Shown(world.certs[certId])) else None
      ensures code == if failed then 400 else if cert.None? then 404 else 200
    {
      CommitsKeepWellStored(world, env(calls).commits);
      var response := GetCertificate(certId);
      match response
      case QueryFailed =>
        return BAD_REQUEST, true, None;
      case Empty =>
        return NOT_FOUND, false, None;
      case Found(c) =>
        var shown := c.(updateDate := c.updateDate[0..10]);
        return OK, false, Some(shown);
    }

    /** The ledger part of a download. */
    method DownloadFile(certId: string) returns (code: int, failed: bool, file: Option<FileStruct>)
      modifies this
      ensures world == Meets(old(world), env, old(calls)) && calls == old(calls) + 1
      ensures failed == !env(old(calls)).outcome.Done?
      ensures file == if !failed && certId in world.files then Some(world.files[certId]) else None
      ensures code == if failed then 400 else if file.None? then 404 else 200
    {
      var response := GetDownloadFile(certId);
      match response
      case QueryFailed =>
        return BAD_REQUEST, true, None;
      case Empty =>
        return NOT_FOUND, false, None;
      case Found(f) =>
        return OK, false, Some(f);
    }

    /** The ledger part of an upload: store the file, then write its certificate again. */
    method UploadFile(file: FileStruct) returns (code: int, failed: bool)
      requires WellStored(world)
      modifies this
      ensures WellStored(world)
      ensures Drive(PutFile(file), old(world), env, old(calls))
          == Run(Finished(UploadReply(code, failed)), world, calls)
      ensures UploadRun(file, old(world), env, old(calls)) == Run(Finished(UploadReply(code, failed)), world, calls)
    {
      hide Drive, UploadRun, CertificateRun, Shown, ApplyAll, Format;
      UploadRuns(file, world, env, calls);
      ghost var w0, k0 := world, calls;
      DriveStep(PutFile(file), w0, env, k0);
      CommitsKeepWellStored(w0, env(k0).commits);
      var lost := ExecutePostUploadFile(file);
      if lost {
        FinishedRests(UploadReply(NOT_IMPLEMENTED, true), world, env, calls);
        return NOT_IMPLEMENTED, true;
      }
      ghost var w1, k1 := world, calls;
      DriveStep(LookupUploaded(file.certId), w1, env, k1);
      var _, err, cert := CertificateOut(file.certId);
      if !err && cert.Some? {
        var certificate := cert.value.(hasUpload := true);
        DriveReturns(certificate, Upload, world, env, calls);
        var _, rejected := CertificateIn(certificate);
        FinishedRests(UploadReply(if rejected then NOT_IMPLEMENTED else OK, rejected), world, env, calls);
        if rejected {
          return NOT_IMPLEMENTED, true;
        }
      } else {
        FinishedRests(UploadReply(OK, false), world, env, calls);
      }
      return OK, false;
    }

    /** Applies the entries one after the other and flags them in place. */
    method ChangeStatus(statuses: array<Status>)
      requires WellStored(world)
      modifies this, statuses
      ensures WellStored(world)
      ensures Drive(NextListed([], old(statuses[..])), old(world), env, old(calls))
           == Run(Finished(StatusReply(statuses[..])), world, calls)
      ensures var asked := old(statuses[..]);
              var es := Effects(old(world), asked, env, old(calls));
              && statuses[..] == AllReturned(asked, es)
              && world == (if es == [] then old(world) else es[|es| - 1].world)
              && calls == (if es == [] then old(calls) else es[|es| - 1].calls)
    {
      ghost var w0, k0 := world, calls;
      hide Drive, Advance, Effects, AllReturned;
      ghost var all := Drive(NextListed([], statuses[..]), world, env, calls);
      ghost var asked := statuses[..];
      var i := 0;
      assert statuses[..0] == [] && asked[0..] == asked;
      while i < statuses.Length
        invariant 0 <= i <= statuses.Length
        invariant WellStored(world)
        invariant statuses[i..] == asked[i..]
        invariant Drive(NextListed(statuses[..i], asked[i..]), world, env, calls) == all
      {
        ghost var done := statuses[..i];
        assert asked[i..][0] == statuses[i..][0] == statuses[i];
        assert asked[i..] == [statuses[i]] + asked[i + 1..];
        var changed := ChangeOne(statuses[i], done, asked[i + 1..], all);
        if changed {
          statuses[i] := statuses[i].(isChangedOnChain := true);
        }
        assert statuses[..i + 1] == done + [if changed then asked[i].(isChangedOnChain := true) else asked[i]];
        assert statuses[i + 1..] == asked[i + 1..];
        i := i + 1;
      }
      assert statuses[..i] == statuses[..];
      FinishedRests(StatusReply(statuses[..]), world, env, calls);
      ListHasEffects([], asked, w0, env, k0);
    }

    /** One entry: read the certificate, set its flags, write it back. */
    method ChangeOne(s: Status, ghost done: seq<Status>, ghost rest: seq<Status>, ghost all: Run)
      returns (changed: bool)
      requires WellStored(world)
      requires Drive(LookupListed(done, [s] + rest), world, env, calls) == all
      modifies this
      ensures WellStored(world)
      ensures Drive(NextListed(done + [if changed then s.(isChangedOnChain := true) else s], rest), world, env, calls)
          == all
    {
      hide Drive, Shown, ApplyAll;
      CommitsKeepWellStored(world, env(calls).commits);
      ListedReturns(done, s, rest, world, env, calls);
      var _, err, cert := CertificateOut(s.certId);
      if err || cert.None? {
        return false;
      }
      var certificate := cert.value.(isDeleted := s.isDeleted, isOpen := s.isOpen, isCompleted := s.isCompleted);
      DriveReturns(certificate, Workflow.ChangeStatus(done, s, rest), world, env, calls);
      var _, rejected := CertificateIn(certificate);
      changed := !rejected;
    }

    // -------------------------------------------------------------- list requests

    /** The query engine must know the text and have an index for its order, and the page size is
        sent as a 32-bit number. */
    predicate Askable(text: string, pageSize: int) {
      pageSize <= MAX_INT32 && engine(text).Some? && engine(text).value.order == INDEX_ORDER
    }

    /** One page of a query. What the peer answers to a page size below one is its own affair. */
    method QueryList(text: string, pageSize: int, bookmark: Bookmark) returns (r: Response<ListInternal>)
      requires WellStored(world)
      modifies this
      ensures WellStored(world)
      ensures world == Meets(old(world), env, old(calls)) && calls == old(calls) + 1
      ensures r.Found? ==> env(old(calls)).outcome.Done? && Askable(text, pageSize)
      ensures pageSize > 0 && env(old(calls)).outcome.Done? && Askable(text, pageSize) ==> r.Found?
      ensures pageSize > 0 && r.Found? ==>
                && IsPage(r.value, world, engine(text).value.wanted, pageSize, bookmark)
                && Ordered(r.value.certs, engine(text).value.order)
    {
      CommitsKeepWellStored(world, env(calls).commits);
      var t := Call();
      if !t.outcome.Done? || pageSize > MAX_INT32 || engine(text).None? || engine(text).value.order != INDEX_ORDER {
        return QueryFailed;
      }
      if pageSize <= 0 {
        r := *;
        return;
      }
      var list := FetchPage(world, engine(text).value.wanted, pageSize, bookmark, t.idle);
      return Found(list);
    }

    /** Nothing but the calls of the request and the commits it has met lies between the start
        of the scene and now. */
    ghost predicate InScene(sc: Scene)
      reads this
    {
      sc.first <= calls && world == sc.After(calls - sc.first)
    }

    /** The request stands before its query number `i`, and all went well so far. */
    ghost predicate Standing(sc: Scene, i: nat)
      reads this
    {
      InScene(sc) && calls == sc.first + i && AllDone(env, sc.first, calls)
    }

    /** The scene is that of a request with this text and page size. */
    ghost predicate Serves(sc: Scene, text: string, pageSize: int)
    {
      && sc.Valid() && sc.env == env && sc.size == pageSize
      && (engine(text).Some? ==> sc.wanted == engine(text).value.wanted)
    }

    /** The page as the business layer sees it: dates are cut to the day. */
    method GetNewBookmarks(text: string, pageSize: int, bookmark: Bookmark, ghost sc: Scene, ghost i: nat)
      returns (r: Response<ListInternal>)
      requires WellStored(world) && Serves(sc, text, pageSize) && Standing(sc, i)
      modifies this
      ensures WellStored(world) && calls == old(calls) + 1 && InScene(sc)
      ensures r.Found? ==> Askable(text, pageSize) && Standing(sc, i + 1)
      ensures !r.Found? ==> !Askable(text, pageSize) || !AllDone(env, sc.first, calls)
      ensures r.Found? ==> IsShownPage(r.value, sc, i, bookmark)
    {
      hide IsPage, IsShownPage, Page, ShownAll, Meets, WellStored, Askable;
      WorldStep(sc, i);
      r := QueryList(text, pageSize, bookmark);
      assert calls - sc.first == i + 1 && world == sc.After(i + 1);
      hide Scene.After;
      if r.Found? {
        ShownPage(sc, i, bookmark, r.value);
        var certs := CutDates(r.value.certs);
        r := Found(r.value.(certs := certs));
      }
    }

    /** The list request as the sweep sees it. */
    ghost function SceneFor(text: string, pageSize: int): Scene
      reads this
    {
      var wanted := if engine(text).Some? then engine(text).value.wanted else c => false;
      Scene(world, env, calls, wanted, if pageSize > 0 then pageSize else 0)
    }

    /** A list request. It ends because the stamps of the commits it meets move on: `settle`
        says from which query on they are later than everything stored at its start. */
    method CertificateRichQuery(q: QueryConditions, isLogin: bool, text: string, ghost settle: nat)
      returns (reply: ListReply, ghost marks: seq<Bookmark>)
      requires WellStored(world)
      requires (q.isOpen || isLogin) && q.pageIndex >= 1 ==>
          q.pageSize > 0 && Settles(SceneFor(text, q.pageSize), settle)
      modifies this
      ensures WellStored(world)
      ensures var sc := old(SceneFor(text, q.pageSize)); InScene(sc)
      ensures !q.isOpen && !isLogin ==> reply == ListError(401)
      ensures (q.isOpen || isLogin) && q.pageIndex < 1 ==> reply == ListError(400)
      ensures (!q.isOpen && !isLogin) || q.pageIndex < 1 ==> world == old(world) && calls == old(calls)
      ensures (q.isOpen || isLogin) && q.pageIndex >= 1 ==>
                && (reply.ListOk? <==> Askable(text, q.pageSize) && AllDone(env, old(calls), calls))
                && (reply.ListError? ==> reply == ListError(400))
      ensures var sc := old(SceneFor(text, q.pageSize));
              reply.ListOk? ==> IsAnswer(sc, marks, q.pageIndex, reply, calls)
    {
      if !q.isOpen && !isLogin {
        return ListError(UNAUTHORIZED), [];
      }
      if q.pageIndex < 1 {
        return ListError(BAD_REQUEST), [];
      }
      ghost var sc := SceneFor(text, q.pageSize);
      var bookmarks := CollectBookmarks(text, q.pageSize, sc, settle);
      marks := bookmarks;
      if bookmarks == [] {
        return ListError(BAD_REQUEST), [];
      }
      reply := AnswerFrom(q, text, bookmarks, sc);
    }

    /** The sweep itself; no bookmarks are returned if one of its queries fails. */
    method CollectBookmarks(text: string, pageSize: int, ghost sc: Scene, ghost settle: nat)
      returns (bookmarks: seq<Bookmark>)
      requires WellStored(world) && Serves(sc, text, pageSize) && Standing(sc, 0) && Settles(sc, settle)
      modifies this
      ensures WellStored(world) && InScene(sc)
      ensures bookmarks == [] ==> !Askable(text, pageSize) || !AllDone(env, sc.first, calls)
      ensures bookmarks != [] ==> Askable(text, pageSize) && sc.Complete(bookmarks) && Standing(sc, |bookmarks|)
    {
      var bookmark: Bookmark := Start;
      bookmarks := [bookmark];
      while true
        invariant WellStored(world)
        invariant bookmarks != [] && bookmarks[|bookmarks| - 1] == bookmark
        invariant Standing(sc, |bookmarks| - 1) && Sweeping(sc, bookmarks)
        decreases Unsettled(bookmarks, settle), Left(sc, bookmarks)
      {
        var answered, next := NextBookmark(text, pageSize, bookmarks, sc, settle);
        if !answered {
          return [];
        }
        if next.None? {
          break;
        }
        bookmark := next.value;
        bookmarks := bookmarks + [bookmark];
      }
    }

    /** One query of the sweep: a new bookmark, unless the page is empty. */
    method NextBookmark(text: string, pageSize: int, bookmarks: seq<Bookmark>, ghost sc: Scene, ghost settle: nat)
      returns (answered: bool, next: Option<Bookmark>)
      requires WellStored(world) && Serves(sc, text, pageSize) && Settles(sc, settle)
      requires bookmarks != [] && Standing(sc, |bookmarks| - 1) && Sweeping(sc, bookmarks)
      modifies this
      ensures WellStored(world) && InScene(sc)
      ensures !answered ==> !Askable(text, pageSize) || !AllDone(env, sc.first, calls)
      ensures answered ==> Askable(text, pageSize) && Standing(sc, |bookmarks|)
      ensures answered && next.None? ==> sc.Complete(bookmarks)
      ensures answered && next.Some? ==>
                && Sweeping(sc, bookmarks + [next.value])
                && (settle <= |bookmarks| ==> Left(sc, bookmarks + [next.value]) < Left(sc, bookmarks))
    {
      hide Settles, Askable, AllDone, WellStored, Page, Sorted;
      var last := bookmarks[|bookmarks| - 1];
      var newList := GetNewBookmarks(text, pageSize, last, sc, |bookmarks| - 1);
      if !newList.Found? {
        return false, None;
      }
      if newList.value.pageCount != 0 { SweepStep(sc, settle, bookmarks); }
      if last != newList.value.bookmark && newList.value.pageCount != 0 {
        return true, Some(newList.value.bookmark);
      }
      return true, None;
    }

    /** The page asked for, and the count worked out from the last pages. */
    method AnswerFrom(q: QueryConditions, text: string, bookmarks: seq<Bookmark>, ghost sc: Scene)
      returns (reply: ListReply)
      requires WellStored(world) && Serves(sc, text, q.pageSize) && Askable(text, q.pageSize) && q.pageIndex >= 1
      requires bookmarks != [] && Standing(sc, |bookmarks|)
      modifies this
      ensures WellStored(world) && InScene(sc)
      ensures reply.ListOk? <==> AllDone(env, sc.first, calls)
      ensures reply.ListError? ==> reply == ListError(BAD_REQUEST)
      ensures reply.ListOk? ==>
                reply == Answer(sc, bookmarks, q.pageIndex) && calls == sc.first + QueriesAsked(sc, bookmarks)
    {
      hide Count, QueriesAsked, Page, Standing, InScene, AllDone, Askable, WellStored, ShownAll;
      var pageIndex := q.pageIndex;
      if |bookmarks| < pageIndex {
        pageIndex := |bookmarks|;
      }
      var bookmark := bookmarks[pageIndex - 1];
      var listInter := GetNewBookmarks(text, q.pageSize, bookmark, sc, |bookmarks|);
      if !listInter.Found? {
        return ListError(BAD_REQUEST);
      }
      var counted, count := CountRecords(q.pageSize, text, bookmarks, sc);
      if !counted {
        return ListError(BAD_REQUEST);
      }
      return ListOk(count, pageIndex, listInter.value.certs);
    }

    method CountRecords(pageSize: int, text: string, bookmarks: seq<Bookmark>, ghost sc: Scene)
      returns (counted: bool, count: int)
      requires WellStored(world) && Serves(sc, text, pageSize) && Askable(text, pageSize)
      requires bookmarks != [] && Standing(sc, |bookmarks| + 1)
      modifies this
      ensures WellStored(world) && InScene(sc)
      ensures counted <==> AllDone(env, sc.first, calls)
      ensures counted ==> count == Count(sc, bookmarks) && calls == sc.first + QueriesAsked(sc, bookmarks)
    {
      var lastInter := GetNewBookmarks(text, pageSize, bookmarks[|bookmarks| - 1], sc, |bookmarks| + 1);
      if !lastInter.Found? {
        return false, 0;
      }
      var lastPageCount := lastInter.value.pageCount;
      if lastPageCount == 0 && |bookmarks| > 1 {
        lastInter := GetNewBookmarks(text, pageSize, bookmarks[|bookmarks| - 2], sc, |bookmarks| + 2);
        if !lastInter.Found? {
          return false, 0;
        }
        lastPageCount := lastInter.value.pageCount;
        return true, pageSize * (|bookmarks| - 2) + lastPageCount;
      } else {
        return true, pageSize * (|bookmarks| - 1) + lastPageCount;
      }
    }
  }

  /** None of the commits stores a file of this certificate. */
  ghost predicate NoFileOf(cs: seq<Commit>, id: string) {
    forall c :: c in cs && c.CommitFile? ==> c.file.certId != id
  }

  lemma {:induction false} CommitsKeepFile(w: World, cs: seq<Commit>, id: string)
    requires NoFileOf(cs, id) && id in w.files
    ensures id in ApplyAll(w, cs).files && ApplyAll(w, cs).files[id] == w.files[id]
    decreases |cs|
  {
    if cs != [] {
      assert cs[0] in cs && forall c :: c in cs[1..] ==> c in cs;
      CommitsKeepFile(Apply(w, cs[0]), cs[1..], id);
    }
  }

  /** The file is what is stored when the upload is over. */
  lemma {:induction false} UploadLeavesFile(file: FileStruct, w: World, env: Schedule, k: nat)
    requires !env(k).outcome.Lost? && forall n :: k < n < k + 4 ==> NoFileOf(env(n).commits, file.certId)
    ensures var r := UploadRun(file, w, env, k);
            k < r.calls <= k + 4 && file.certId in r.world.files && r.world.files[file.certId] == file
  {
    hide NoFileOf, ApplyAll, Format;
    var id, v := file.certId, FileSent(file, w, env, k);
    CommitsKeepFile(v, env(k + 1).commits, id);
    var w1 := Meets(v, env, k + 1);
    CommitsKeepFile(w1, env(k + 2).commits, id);
    var w2 := Meets(w1, env, k + 2);
    CommitsKeepFile(w2, env(k + 3).commits, id);
  }

  /** What has been uploaded is what is downloaded: if others store no file of this certificate
      in between, the download answers with the very file of the upload, once this is committed,
      whether or not there was a file before and whether or not the upload reports a failure. */
  method UploadThenDownload(setup: FabricSetup, file: FileStruct) returns (code: int, got: Option<FileStruct>)
    requires WellStored(setup.world)
    requires forall n :: setup.calls < n < setup.calls + 5 ==> NoFileOf(setup.env(n).commits, file.certId)
    modifies setup
    ensures old(setup.calls) + 1 < setup.calls <= old(setup.calls) + 5
    ensures !setup.env(old(setup.calls)).outcome.Lost? && setup.env(setup.calls - 1).outcome.Done? ==>
              code == 200 && got == Some(file)
  {
    hide Drive, UploadRun, ApplyAll, NoFileOf;
    ghost var w0, k0 := setup.world, setup.calls;
    UploadTakesCalls(file, w0, setup.env, k0);
    if !setup.env(k0).outcome.Lost? { UploadLeavesFile(file, w0, setup.env, k0); }
    var _, _ := setup.UploadFile(file);
    if !setup.env(k0).outcome.Lost? { CommitsKeepFile(setup.world, setup.env(setup.calls).commits, file.certId); }
    var failed;
    code, failed, got := setup.DownloadFile(file.certId);
  }

  lemma {:induction false} UploadTakesCalls(file: FileStruct, w: World, env: Schedule, k: nat)
    ensures k < UploadRun(file, w, env, k).calls <= k + 4
  {
  }

  ghost predicate AllDone(env: Schedule, first: nat, calls: nat) {
    forall k :: first <= k < calls ==> env(k).outcome.Done?
  }

  /** The state of a sweep that goes on. */
  ghost predicate Sweeping(sc: Scene, marks: seq<Bookmark>)
    requires sc.Valid()
  {
    sc.Chain(marks) && Bounded(sc, marks[|marks| - 1]) && (marks[|marks| - 1].Start? ==> |marks| == 1)
  }

  /** Queries until the stamps have moved on, ... */
  ghost function Unsettled(marks: seq<Bookmark>, settle: nat): nat {
    if |marks| > settle then 0 else settle + 1 - |marks|
  }

  /** ... and records behind the last bookmark: what makes the sweep end. */
  ghost function Left(sc: Scene, marks: seq<Bookmark>): set<Certificate>
    requires sc.Valid() && marks != []
  {
    sc.Remaining(|marks| - 1, marks[|marks| - 1])
  }

  /** One turn of the sweep: a non-empty page gives a new bookmark, different from the last. */
  lemma {:induction false} SweepStep(sc: Scene, settle: nat, marks: seq<Bookmark>)
    requires sc.Valid() && Settles(sc, settle) && Sweeping(sc, marks)
    requires sc.PageAt(|marks| - 1, marks[|marks| - 1]) != []
    ensures var next := sc.NextMark(|marks| - 1, marks[|marks| - 1]);
            && next != marks[|marks| - 1] && Sweeping(sc, marks + [next])
            && (settle <= |marks| ==> Left(sc, marks + [next]) < Left(sc, marks))
  {
    var i, b := |marks| - 1, marks[|marks| - 1];
    NextMarkIsBehind(sc, i, b);
    NextMarkIsBounded(sc, i, b);
    if settle <= i + 1 { RemainingShrinks(sc, settle, i, b); }
    ChainGrows(sc, marks);
  }

  lemma {:induction false} ChainGrows(sc: Scene, marks: seq<Bookmark>)
    requires sc.Valid() && sc.Chain(marks) && sc.PageAt(|marks| - 1, marks[|marks| - 1]) != []
    ensures sc.Chain(marks + [sc.NextMark(|marks| - 1, marks[|marks| - 1])])
  {
    var more := marks + [sc.NextMark(|marks| - 1, marks[|marks| - 1])];
    forall i: nat | i + 1 < |more| ensures sc.Link(more, i) {
      if i + 1 < |marks| { assert sc.Link(marks, i); }
    }
  }

  /** The records behind a bookmark, at most a page of them, gathered one by one. An empty page
      comes with whatever bookmark the store sees fit. */
  method FetchPage(w: World, wanted: Certificate -> bool, pageSize: nat, b: Bookmark, idle: Bookmark)
    returns (l: ListInternal)
    requires WellStored(w)
    ensures IsPage(l, w, wanted, pageSize, b) && Ordered(l.certs, INDEX_ORDER)
  {
    hide Page, Fetch, SortNewest;
    var fetched := Fetch(w, wanted, pageSize, b);
    var certs := [];
    for i := 0 to |fetched|
      invariant certs == fetched[..i]
    {
      certs := certs + [fetched[i]];
    }
    PageIsOrdered(w, wanted, pageSize, b);
    l := ListInternal(|fetched|, if certs == [] then idle else After(KeyOf(certs[|certs| - 1])), certs);
  }

  /** The certificates stand in the order that the sort clause asks for. */
  ghost predicate Ordered(certs: seq<Certificate>, order: seq<SortKey>) {
    forall i, j :: 0 <= i < j < |certs| ==>
      ComesBefore(order, CertificateDocument(certs[i]), CertificateDocument(certs[j]))
  }

  lemma {:induction false} PageIsOrdered(w: World, wanted: Certificate -> bool, pageSize: nat, b: Bookmark)
    requires WellStored(w)
    ensures Ordered(Page(w, wanted, pageSize, b), INDEX_ORDER)
  {
    hide Page, ComesBefore, CertificateDocument, Before;
    var page := Page(w, wanted, pageSize, b);
    PageIsSorted(w, wanted, pageSize, b);
    forall i, j | 0 <= i < j < |page|
      ensures ComesBefore(INDEX_ORDER, CertificateDocument(page[i]), CertificateDocument(page[j]))
    {
      IndexOrderIsNewestFirst(page[i], page[j]);
    }
  }

  method CutDates(page: seq<Certificate>) returns (certs: seq<Certificate>)
    requires forall c :: c in page ==> |c.updateDate| >= 10
    ensures certs == ShownAll(page)
  {
    certs := page;
    for i := 0 to |certs|
      invariant |certs| == |page|
      invariant forall k :: 0 <= k < i ==> certs[k] == ShownAll(page)[k]
      invariant forall k :: i <= k < |certs| ==> certs[k] == page[k]
    {
      assert page[i] in page;
      certs := certs[i := certs[i].(updateDate := certs[i].updateDate[0..10])];
    }
  }

  /** A page of matching records behind the bookmark, and the bookmark of its last record. */
  ghost predicate IsPage(l: ListInternal, w: World, wanted: Certificate -> bool, pageSize: nat, b: Bookmark)
    requires WellStored(w)
  {
    var page := Page(w, wanted, pageSize, b);
    && l.certs == page && l.pageCount == |page|
    && (page != [] ==> l.bookmark == After(KeyOf(page[|page| - 1])))
  }

  ghost predicate IsShownPage(l: ListInternal, sc: Scene, i: nat, b: Bookmark)
    requires sc.Valid()
  {
    var page := sc.PageAt(i, b);
    && (forall c :: c in page ==> |c.updateDate| == 19)
    && l.certs == ShownAll(page) && l.pageCount == |page|
    && (l.pageCount != 0 ==> page != [] && l.bookmark == sc.NextMark(i, b))
  }

  lemma WorldStep(sc: Scene, i: nat)
    ensures sc.After(i + 1) == sc.At(i) == Meets(sc.After(i), sc.env, sc.first + i)
  {
  }

  lemma {:induction false} ShownPage(sc: Scene, i: nat, b: Bookmark, l: ListInternal)
    requires sc.Valid() && WellStored(sc.At(i)) && IsPage(l, sc.At(i), sc.wanted, sc.size, b)
    ensures forall c :: c in l.certs ==> |c.updateDate| == 19
    ensures IsShownPage(l.(certs := ShownAll(l.certs)), sc, i, b)
  {
    PageDatesAreFull(sc, i, b);
  }
}
