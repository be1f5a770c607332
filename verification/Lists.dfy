/** The three certificate lists, from the conditions of the request to what they promise. */
module Lists {
  import opened Text
  import opened Records
  import opened Selectors
  import opened Filters
  import opened Escaping
  import opened Peer
  import opened Workflow
  import opened Paging
  import opened Sweep
  import opened Fabric

  function ListText(kind: ListKind, q: QueryConditions): string {
    EditQueryString(BaseQuery(kind), q)
  }

  function WantedBy(kind: ListKind, q: QueryConditions): Certificate -> bool {
    c => Wanted(kind, q, c)
  }

  /** `c` shows a stored certificate that is wanted. */
  ghost predicate ShowsStored(w: World, wanted: Certificate -> bool, c: Certificate) {
    exists id :: id in w.certs && |w.certs[id].updateDate| == 19 && c == Shown(w.certs[id]) && wanted(w.certs[id])
  }

  /** What the open list promises of a certificate: it is for everybody to see, and its file is
      there to be downloaded. */
  ghost predicate Downloadable(w: World, c: Certificate) {
    c.isOpen && c.isCompleted && !c.isDeleted && c.certId in w.files && w.files[c.certId].certId == c.certId
  }

  /** The request asks for open certificates, or comes with a login. */
  predicate Allowed(kind: ListKind, q: QueryConditions, isLogin: bool) {
    kind == OpenList || q.isOpen || isLogin
  }

  /** The open list is for everybody: it counts as a request for open certificates whatever
      the client says. The other lists trust the client's "isOpen" or ask for a login. */
  method ListRichQuery(setup: FabricSetup, kind: ListKind, q: QueryConditions, isLogin: bool, ghost settle: nat)
    returns (reply: ListReply, ghost sc: Scene, ghost marks: seq<Bookmark>)
    requires WellStored(setup.world) && setup.engine == CouchQuery
    requires Allowed(kind, q, isLogin) && q.pageIndex >= 1 ==>
               q.pageSize > 0 && Settles(setup.SceneFor(ListText(kind, q), q.pageSize), settle)
    modifies setup
    ensures WellStored(setup.world)
    ensures sc == old(setup.SceneFor(ListText(kind, q), q.pageSize)) && setup.InScene(sc)
    ensures reply == ListError(401) <==> kind != OpenList && !q.isOpen && !isLogin
    ensures reply.ListOk? ==> IsAnswer(sc, marks, q.pageIndex, reply, setup.calls)
    ensures reply.ListOk? && PlainConditions(q) ==>
              forall c :: c in reply.certs ==> ShowsStored(sc.At(|marks|), WantedBy(kind, q), c)
    ensures Legible(q) && q.pageSize <= 0x7FFF_FFFF && q.pageIndex >= 1 && Allowed(kind, q, isLogin) ==>
              (reply.ListOk? <==> AllDone(setup.env, old(setup.calls), setup.calls))
    ensures kind == OpenList && Legible(q) && Sound(sc.start) && HonestScene(sc) && reply.ListOk? ==>
              Sound(setup.world) && forall c :: c in reply.certs ==> Downloadable(setup.world, c)
  {
    hide Wanted, InList, PlainConditions, Legible, EditQueryString, BaseQuery, CouchQuery, Downloadable, ShowsStored;
    hide Sound, HonestScene, Settles, QueriesAsked, AllDone, Count;
    var conditions := if kind == OpenList then q.(isOpen := true) else q;
    var queryString := EditQueryString(BaseQuery(kind), conditions);
    OpenChangesNoText(kind, q);
    sc := setup.SceneFor(queryString, q.pageSize);
    reply, marks := setup.CertificateRichQuery(conditions, isLogin, queryString, settle);
    if PlainConditions(q) {
      TextSelectsWanted(kind, q);
      if reply.ListOk? { ListedAreWanted(sc, marks, q.pageIndex, kind, q); }
    }
    if Legible(q) {
      TextIsAskable(kind, q);
      if kind == OpenList && Sound(sc.start) && HonestScene(sc) && reply.ListOk? {
        MoreQueriesThanMarks(sc, marks);
        OpenListingsCanBeDownloaded(sc, marks, q.pageIndex, setup.calls - sc.first);
      }
    }
  }

  lemma MoreQueriesThanMarks(sc: Scene, marks: seq<Bookmark>)
    requires sc.Valid() && marks != []
    ensures QueriesAsked(sc, marks) > |marks|
  {
  }

  /** Setting "isOpen" does not change what is printed. */
  lemma OpenChangesNoText(kind: ListKind, q: QueryConditions)
    ensures EditQueryString(BaseQuery(kind), q.(isOpen := true)) == ListText(kind, q)
  {
  }

  /** An open list, and then the download of one of the certificates it shows, while others go
      on committing what the service commits: the download finds the file, unless the call
      itself fails. */
  method ListThenDownload(setup: FabricSetup, q: QueryConditions, isLogin: bool, k: nat, ghost settle: nat)
    returns (reply: ListReply, code: int, file: Option<FileStruct>)
    requires setup.engine == CouchQuery && Legible(q)
    requires var sc := setup.SceneFor(ListText(OpenList, q), q.pageSize);
             Sound(sc.start) && HonestScene(sc) && (q.pageIndex >= 1 ==> q.pageSize > 0 && Settles(sc, settle))
    modifies setup
    ensures reply.ListOk? && k < |reply.certs| ==>
              && setup.calls > 0
              && (if setup.env(setup.calls - 1).outcome.Done?
                  then code == 200 && file.Some? && file.value.certId == reply.certs[k].certId
                  else code == 400 && file == None)
  {
    hide Wanted, PlainConditions, Legible, EditQueryString, BaseQuery, CouchQuery, Settles, ApplyAll, Meets, IsAnswer;
    ghost var sc, marks;
    reply, sc, marks := ListRichQuery(setup, OpenList, q, isLogin, settle);
    if reply.ListOk? && k < |reply.certs| {
      ghost var n := setup.calls - sc.first;
      var certId := reply.certs[k].certId;
      assert Downloadable(setup.world, reply.certs[k]);
      HonestScenesStaySound(sc, n + 1);
      WorldStep(sc, n);
      WorldsKeepFiles(sc, n, n + 1);
      var failed;
      code, failed, file := setup.DownloadFile(certId);
    } else {
      code, file := BAD_REQUEST, None;
    }
  }

  /** The peer understands the text of a legible query, and selects from the list. */
  lemma {:induction false} TextIsAskable(kind: ListKind, q: QueryConditions)
    requires Legible(q)
    ensures var engine := CouchQuery(ListText(kind, q));
            engine.Some? && engine.value.order == INDEX_ORDER && forall c :: engine.value.wanted(c) ==> InList(kind, c)
  {
    hide QuestionOf, Satisfies, AllMean;
    LegibleSelectsFromList(kind, q);
    var ds :| AllMean(Conditions(q), ds);
    PrintedQuerySaysMeant(kind, q, ds);
  }

  /** If the query is plain, it selects what is wanted. */
  lemma {:induction false} TextSelectsWanted(kind: ListKind, q: QueryConditions)
    requires PlainConditions(q)
    ensures var engine := CouchQuery(ListText(kind, q));
            engine.Some? && forall c :: engine.value.wanted(c) <==> Wanted(kind, q, c)
  {
    PrintedQuerySelectsWanted(kind, q);
  }

  lemma {:induction false} PageShowsStored(sc: Scene, m: nat, b: Bookmark, page: seq<Certificate>, i: nat)
    requires sc.Valid() && page == sc.PageAt(m, b) && i < |page|
    ensures |page[i].updateDate| == 19 && ShowsStored(sc.At(m), sc.wanted, Shown(page[i]))
  {
    PageDatesAreFull(sc, m, b);
    assert page[i] in page;
    PageRecordsAreStored(sc, m, b, page[i]);
  }

  lemma {:induction false} PageIsStored(sc: Scene, m: nat, b: Bookmark, page: seq<Certificate>, c: Certificate)
    requires sc.Valid() && page == sc.PageAt(m, b) && (forall d :: d in page ==> |d.updateDate| >= 10)
        && c in ShownAll(page)
    ensures ShowsStored(sc.At(m), sc.wanted, c)
  {
    var shown := ShownAll(page);
    var i :| 0 <= i < |shown| && shown[i] == c;
    PageShowsStored(sc, m, b, page, i);
  }

  lemma {:induction false} ListedAreStored(sc: Scene, marks: seq<Bookmark>, pageIndex: int, c: Certificate)
    requires sc.Valid() && marks != [] && pageIndex >= 1
    requires c in Answer(sc, marks, pageIndex).certs
    ensures ShowsStored(sc.At(|marks|), sc.wanted, c)
  {
    var m := |marks|;
    var b := marks[if m < pageIndex then m - 1 else pageIndex - 1];
    PageDatesAreFull(sc, m, b);
    PageIsStored(sc, m, b, sc.PageAt(m, b), c);
  }

  /** Every certificate of an answer shows one that is stored when the page is asked for and
      that the list wants. */
  lemma {:induction false} ListedAreWanted(sc: Scene, marks: seq<Bookmark>, pageIndex: int, kind: ListKind,
      q: QueryConditions)
    requires sc.Valid() && marks != [] && pageIndex >= 1
    requires forall c :: sc.wanted(c) <==> Wanted(kind, q, c)
    ensures forall c :: c in Answer(sc, marks, pageIndex).certs ==> ShowsStored(sc.At(|marks|), WantedBy(kind, q), c)
  {
    hide Wanted;
    forall c | c in Answer(sc, marks, pageIndex).certs ensures ShowsStored(sc.At(|marks|), WantedBy(kind, q), c) {
      ListedAreStored(sc, marks, pageIndex, c);
    }
  }

  /** What a list shows belongs to it: the open list is completed, open and not deleted, the
      deleted list deleted, the draft list neither open nor completed nor deleted. */
  lemma {:induction false} ListingsFitTheirList(sc: Scene, marks: seq<Bookmark>, pageIndex: int, kind: ListKind)
    requires sc.Valid() && marks != [] && pageIndex >= 1
    requires forall c :: sc.wanted(c) ==> InList(kind, c)
    ensures forall c :: c in Answer(sc, marks, pageIndex).certs ==>
              match kind
              case OpenList => c.isOpen && c.isCompleted && !c.isDeleted
              case DeletedList => c.isDeleted
              case DraftList => !c.isOpen && !c.isCompleted && !c.isDeleted
  {
    forall c | c in Answer(sc, marks, pageIndex).certs ensures InList(kind, c) {
      ListedAreStored(sc, marks, pageIndex, c);
    }
  }

  lemma {:induction false} WorldsKeepFiles(sc: Scene, m: nat, n: nat)
    requires m <= n
    ensures Grows(sc.After(m), sc.After(n))
    decreases n
  {
    if m < n {
      WorldsKeepFiles(sc, m, n - 1);
      CommitsGrow(sc.After(n - 1), sc.Commits(n - 1));
    }
  }

  lemma {:induction false} OpenShownHasFile(w: World, wanted: Certificate -> bool, c: Certificate)
    requires Sound(w) && ShowsStored(w, wanted, c) && forall d :: wanted(d) ==> InList(OpenList, d)
    ensures Downloadable(w, c)
  {
  }

  lemma {:induction false} StaysDownloadable(w: World, v: World, c: Certificate)
    requires Downloadable(w, c) && Grows(w, v) && Sound(v)
    ensures Downloadable(v, c)
  {
  }

  /** Whatever an open list request shows that starts from a sound ledger and meets only what
      the service commits is completed, open, not deleted, and has its file, from the query for
      the page on at any later time. */
  lemma {:induction false} OpenListingsCanBeDownloaded(sc: Scene, marks: seq<Bookmark>, pageIndex: int, n: nat)
    requires sc.Valid() && marks != [] && pageIndex >= 1 && Sound(sc.start) && HonestScene(sc)
    requires forall c :: sc.wanted(c) ==> InList(OpenList, c)
    requires n > |marks|
    ensures Sound(sc.After(n))
    ensures forall c :: c in Answer(sc, marks, pageIndex).certs ==> Downloadable(sc.After(n), c)
  {
    hide InList, Downloadable, ShowsStored;
    HonestScenesStaySound(sc, |marks| + 1);
    HonestScenesStaySound(sc, n);
    WorldsKeepFiles(sc, |marks| + 1, n);
    forall c | c in Answer(sc, marks, pageIndex).certs ensures Downloadable(sc.After(n), c) {
      ListedAreStored(sc, marks, pageIndex, c);
      OpenShownHasFile(sc.At(|marks|), sc.wanted, c);
      StaysDownloadable(sc.At(|marks|), sc.After(n), c);
    }
  }

  /** The same within any run of other operations, whatever interleaves, fails or times out. */
  lemma {:induction false} OpenListingsInRuns(sc: Scene, states: seq<State>, labels: seq<Label>, at: seq<nat>,
      marks: seq<Bookmark>, pageIndex: int, n: nat)
    requires IsRun(states, labels) && WithinRun(sc, states, labels, at)
    requires sc.size > 0 && marks != [] && pageIndex >= 1 && |marks| < n < |at|
    requires forall c :: sc.wanted(c) ==> InList(OpenList, c)
    ensures sc.Valid() && at[n] < |states|
    ensures forall c :: c in Answer(sc, marks, pageIndex).certs ==> Downloadable(states[at[n]].world, c)
  {
    hide InList, Downloadable, WithinRun;
    RunsGiveHonestScenes(sc, states, labels, at);
    RunGivesWorlds(sc, states, labels, at, n);
    OpenListingsCanBeDownloaded(sc, marks, pageIndex, n);
  }
}
