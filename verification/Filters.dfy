/** Which documents a query selects: the meaning of a selector on one side, the filter that
    the list pages promise on the other. */
module Filters {
  import opened Text
  import opened Json
  import opened Records
  import opened Stamps
  import opened Selectors
  import SelectorReading

  // ---------------------------------------------------------------- what a selector means

  predicate Compares(op: string, bound: Json, name: string, doc: Document) {
    && name in doc && doc[name].Str? && bound.Str?
    && match op
       case "$gte" => !Less(doc[name].s, bound.s)
       case "$lte" => !Less(bound.s, doc[name].s)
       case _ => false
  }

  /** CouchDB's reading of a selector: every member must hold; "$and" holds when all of its
      selectors do, an operator object compares a field that must be there, anything else
      must equal the field. */
  predicate Satisfies(selector: Json, doc: Document) {
    && selector.Obj?
    && forall i :: 0 <= i < |selector.members| ==>
         var name, arg := selector.members[i].0, selector.members[i].1;
         if name == "$and" then arg.Arr? && forall k :: 0 <= k < |arg.elems| ==> Satisfies(arg.elems[k], doc)
         else if arg.Obj? then
           forall k :: 0 <= k < |arg.members| ==> Compares(arg.members[k].0, arg.members[k].1, name, doc)
         else name in doc && doc[name] == arg
  }

  // ---------------------------------------------------------------- what a sort clause means

  datatype SortKey = SortKey(field: string, descending: bool)

  /** `{"field": "asc"}` or `{"field": "desc"}` */
  function SortKeyOf(j: Json): Option<SortKey> {
    match j
    case Obj(ms) =>
      if |ms| == 1 && ms[0].1 == Str("asc") then Some(SortKey(ms[0].0, false))
      else if |ms| == 1 && ms[0].1 == Str("desc") then Some(SortKey(ms[0].0, true))
      else None
    case _ => None
  }

  function SortKeys(js: seq<Json>): Option<seq<SortKey>> {
    if js == [] then Some([])
    else if SortKeyOf(js[0]).None? || SortKeys(js[1..]).None? then None
    else Some([SortKeyOf(js[0]).value] + SortKeys(js[1..]).value)
  }

  /** The first key on which two documents differ decides which of them is listed first. */
  predicate ComesBefore(keys: seq<SortKey>, a: Document, b: Document) {
    && keys != []
    && var f := keys[0].field;
       && f in a && f in b && a[f].Str? && b[f].Str?
       && ((if keys[0].descending then Less(b[f].s, a[f].s) else Less(a[f].s, b[f].s))
           || (a[f] == b[f] && ComesBefore(keys[1..], a, b)))
  }

  /** What a query text asks for: which documents, and in which order. The index is a hint. */
  datatype Question = Question(selector: Json, order: seq<SortKey>)

  function QuestionOf(text: string): Option<Question> {
    match Parse(text)
    case Some(Obj(ms)) =>
      if |ms| == 3 && ms[0].0 == "selector" && ms[1].0 == "sort" && ms[1].1.Arr? && ms[2].0 == "use_index"
         && SortKeys(ms[1].1.elems).Some?
      then Some(Question(ms[0].1, SortKeys(ms[1].1.elems).value)) else None
    case _ => None
  }

  function SelectorOf(text: string): Option<Json> {
    match QuestionOf(text)
    case Some(question) => Some(question.selector)
    case None => None
  }

  /** The order that the index of the store keeps. */
  const INDEX_ORDER := [SortKey("updateDate", true), SortKey("certId", true)]

  lemma {:induction false} OneSortKey(field: string)
    ensures SortKeys([Obj([(field, Str("desc"))])]) == Some([SortKey(field, true)])
  {
    var js := [Obj([(field, Str("desc"))])];
    assert js[0].members[0] == (field, Str("desc")) && |"desc"| != |"asc"|;
    assert SortKeyOf(js[0]) == Some(SortKey(field, true));
    assert js[1..] == [];
    assert [SortKey(field, true)] + [] == [SortKey(field, true)];
  }

  lemma {:induction false} SortClauseIsRead()
    ensures NEWEST_FIRST.Arr? && SortKeys(NEWEST_FIRST.elems) == Some(INDEX_ORDER)
  {
    OneSortKey("certId");
    var first, second := Obj([("updateDate", Str("desc"))]), Obj([("certId", Str("desc"))]);
    assert NEWEST_FIRST.elems == [first] + [second];
    assert first.members[0] == ("updateDate", Str("desc")) && |"desc"| != |"asc"|;
    assert SortKeyOf(first) == Some(SortKey("updateDate", true));
    assert NEWEST_FIRST.elems[0] == first && NEWEST_FIRST.elems[1..] == [second];
    assert [SortKey("updateDate", true)] + [SortKey("certId", true)] == INDEX_ORDER;
  }

  /** A text that is read as a query of this service asks its question, in the index's order. */
  lemma {:induction false} QueryAsks(text: string, selector: Json)
    requires Parse(text) == Some(Obj([("selector", selector), ("sort", NEWEST_FIRST), ("use_index", SORT_INDEX)]))
    ensures QuestionOf(text) == Some(Question(selector, INDEX_ORDER))
  {
    hide Parse, SortKeys;
    SortClauseIsRead();
  }

  // ---------------------------------------------------------------- what the lists promise

  predicate InList(kind: ListKind, c: Certificate) {
    match kind
    case OpenList => c.isOpen && c.isCompleted && !c.isDeleted
    case DeletedList => c.isDeleted
    case DraftList => !c.isOpen && !c.isCompleted && !c.isDeleted
  }

  predicate Equals(condition: string, field: string) {
    Strip(condition) == "" || field == Strip(condition)
  }

  predicate AtLeast(condition: string, field: string) {
    Strip(condition) == "" || !Less(field, Strip(condition))
  }

  predicate AtMost(condition: string, field: string) {
    Strip(condition) == "" || !Less(Strip(condition), field)
  }

  predicate Wanted(kind: ListKind, q: QueryConditions, c: Certificate) {
    && InList(kind, c)
    && Equals(q.certType, c.certType)
    && Equals(q.certId, c.certId)
    && Equals(q.entrustOrg, c.entrustOrg)
    && Equals(q.instrumentName, c.instrumentName)
    && AtLeast(q.startCreateDate, c.updateDate)
    && AtMost(q.endCreateDate, c.updateDate)
    && AtLeast(q.startCalibDate, c.calibrateDate)
    && AtMost(q.endCalibDate, c.calibrateDate)
  }

  // ---------------------------------------------------------------- the two agree

  predicate Holds(c: Condition, doc: Document) {
    c.value == "" ||
    (if c.op == "" then c.name in doc && doc[c.name] == Str(c.value) else Compares(c.op, Str(c.value), c.name, doc))
  }

  predicate AllSatisfied(js: seq<Json>, doc: Document) {
    forall i :: 0 <= i < |js| ==> Satisfies(js[i], doc)
  }

  lemma {:induction false} AllSatisfiedOnConcat(js: seq<Json>, ks: seq<Json>, doc: Document)
    ensures AllSatisfied(js + ks, doc) <==> AllSatisfied(js, doc) && AllSatisfied(ks, doc)
  {
    forall i | 0 <= i < |ks| ensures (js + ks)[|js| + i] == ks[i] {}
    forall i | 0 <= i < |js| ensures (js + ks)[i] == js[i] {}
  }

  lemma {:induction false} MemberMeans(name: string, arg: Json, doc: Document)
    requires name != "$and"
    ensures Satisfies(Obj([(name, arg)]), doc) <==>
              if arg.Obj? then
                forall k :: 0 <= k < |arg.members| ==> Compares(arg.members[k].0, arg.members[k].1, name, doc)
              else name in doc && doc[name] == arg
  {
    assert Obj([(name, arg)]).members[0] == (name, arg);
  }

  lemma {:induction false} ConjunctMeans(c: Condition, doc: Document)
    requires c.name != "$and" && c.value != ""
    ensures Satisfies(Conjunct(c), doc) <==> Holds(c, doc)
  {
    if c.op == "" {
      MemberMeans(c.name, Str(c.value), doc);
    } else {
      var bound := Obj([(c.op, Str(c.value))]);
      MemberMeans(c.name, bound, doc);
      assert bound.members[0] == (c.op, Str(c.value));
    }
  }

  lemma {:induction false} ConjunctsMean(cs: seq<Condition>, doc: Document)
    requires forall i :: 0 <= i < |cs| ==> cs[i].name != "$and"
    ensures AllSatisfied(Conjuncts(cs), doc) <==> forall i :: 0 <= i < |cs| ==> Holds(cs[i], doc)
    decreases |cs|
  {
    if cs != [] {
      var c, rest := cs[0], cs[1..];
      ConjunctsMean(rest, doc);
      assert (forall i :: 0 <= i < |cs| ==> Holds(cs[i], doc)) <==>
             Holds(c, doc) && (forall i :: 0 <= i < |rest| ==> Holds(rest[i], doc)) by {
        forall i | 0 < i < |cs| ensures rest[i - 1] == cs[i] {}
      }
      if c.value == "" {
        assert Conjuncts(cs) == Conjuncts(rest);
      } else {
        ConjunctMeans(c, doc);
        AllSatisfiedOnConcat([Conjunct(c)], Conjuncts(rest), doc);
        assert AllSatisfied([Conjunct(c)], doc) <==> Satisfies([Conjunct(c)][0], doc);
      }
    }
  }

  /** The three flags are fields of the document. */
  ghost predicate ShowsFlags(doc: Document, c: Certificate) {
    && "isOpen" in doc && doc["isOpen"] == Bool(c.isOpen)
    && "isCompleted" in doc && doc["isCompleted"] == Bool(c.isCompleted)
    && "isDeleted" in doc && doc["isDeleted"] == Bool(c.isDeleted)
  }

  /** The texts that conditions ask about are fields of the document. */
  ghost predicate ShowsTexts(doc: Document, c: Certificate) {
    && "certType" in doc && doc["certType"] == Str(c.certType)
    && "certId" in doc && doc["certId"] == Str(c.certId)
    && "entrustOrg" in doc && doc["entrustOrg"] == Str(c.entrustOrg)
    && "instrumentName" in doc && doc["instrumentName"] == Str(c.instrumentName)
    && "updateDate" in doc && doc["updateDate"] == Str(c.updateDate)
    && "calibrateDate" in doc && doc["calibrateDate"] == Str(c.calibrateDate)
  }

  lemma DocumentShowsFlags(c: Certificate)
    ensures ShowsFlags(CertificateDocument(c), c)
  {
  }

  lemma DocumentShowsTexts(c: Certificate)
    ensures ShowsTexts(CertificateDocument(c), c)
  {
  }

  lemma {:induction false} BaseMeans(kind: ListKind, c: Certificate, doc: Document)
    requires ShowsFlags(doc, c)
    ensures AllSatisfied(BaseConjuncts(kind), doc) <==> InList(kind, c)
  {
    var js := BaseConjuncts(kind);
    FlagMeans("isOpen", doc);
    FlagMeans("isCompleted", doc);
    FlagMeans("isDeleted", doc);
    if kind == DeletedList {
      assert js[0] == Obj([("isDeleted", Bool(true))]);
    } else {
      assert js[0] == Obj([("isOpen", Bool(kind == OpenList))]);
      assert js[1] == Obj([("isCompleted", Bool(kind == OpenList))]);
      assert js[2] == Obj([("isDeleted", Bool(false))]);
    }
  }

  lemma {:induction false} FlagMeans(name: string, doc: Document)
    requires name != "$and"
    ensures forall b :: Satisfies(Obj([(name, Bool(b))]), doc) <==> name in doc && doc[name] == Bool(b)
  {
    MemberMeans(name, Bool(true), doc);
    MemberMeans(name, Bool(false), doc);
  }

  lemma {:induction false} SelectorMeans(js: seq<Json>, doc: Document)
    ensures Satisfies(Obj([("$and", Arr(js))]), doc) <==> AllSatisfied(js, doc)
  {
    assert Obj([("$and", Arr(js))]).members[0] == ("$and", Arr(js));
  }

  lemma {:induction false} ConditionsMean(q: QueryConditions, c: Certificate, doc: Document)
    requires ShowsTexts(doc, c)
    ensures (forall i :: 0 <= i < |Conditions(q)| ==> Holds(Conditions(q)[i], doc)) <==>
            && Equals(q.certType, c.certType)
            && Equals(q.certId, c.certId)
            && Equals(q.entrustOrg, c.entrustOrg)
            && Equals(q.instrumentName, c.instrumentName)
            && AtLeast(q.startCreateDate, c.updateDate)
            && AtMost(q.endCreateDate, c.updateDate)
            && AtLeast(q.startCalibDate, c.calibrateDate)
            && AtMost(q.endCalibDate, c.calibrateDate)
  {
    var cs, e, o := Conditions(q), EqConditions(q), CoConditions(q);
    assert cs[0] == e[0] && cs[1] == e[1] && cs[2] == e[2] && cs[3] == e[3];
    assert cs[4] == o[0] && cs[5] == o[1] && cs[6] == o[2] && cs[7] == o[3];
  }

  /** The selector that a list intends selects exactly the certificates it promises. */
  lemma {:induction false} IntendedSelectorMeansWanted(kind: ListKind, q: QueryConditions, c: Certificate)
    ensures Satisfies(IntendedSelector(kind, q), CertificateDocument(c)) <==> Wanted(kind, q, c)
  {
    var doc := CertificateDocument(c);
    SelectorMeans(BaseConjuncts(kind) + Conjuncts(Conditions(q)), doc);
    AllSatisfiedOnConcat(BaseConjuncts(kind), Conjuncts(Conditions(q)), doc);
    DocumentShowsFlags(c);
    DocumentShowsTexts(c);
    BaseMeans(kind, c, doc);
    forall i | 0 <= i < |Conditions(q)| ensures Conditions(q)[i].name != "$and" {
      assert Conditions(q)[i] == if i < 4 then EqConditions(q)[i] else CoConditions(q)[i - 4];
    }
    ConjunctsMean(Conditions(q), doc);
    ConditionsMean(q, c, doc);
  }

  /** From the conditions of the request to the certificates in the answer: the printed text
      of a plain query selects exactly the wanted certificates. */
  lemma PrintedQuerySelectsWanted(kind: ListKind, q: QueryConditions)
    requires PlainConditions(q)
    ensures QuestionOf(EditQueryString(BaseQuery(kind), q)) == Some(Question(IntendedSelector(kind, q), INDEX_ORDER))
    ensures forall c: Certificate ::
              Satisfies(IntendedSelector(kind, q), CertificateDocument(c)) <==> Wanted(kind, q, c)
  {
    hide Value, Satisfies, Wanted, QuestionOf, Parse, EditQueryString, BaseQuery;
    SelectorReading.PrintedQuerySaysIntended(kind, q);
    QueryAsks(EditQueryString(BaseQuery(kind), q), IntendedSelector(kind, q));
    forall c: Certificate
      ensures Satisfies(IntendedSelector(kind, q), CertificateDocument(c)) <==> Wanted(kind, q, c)
    {
      IntendedSelectorMeansWanted(kind, q, c);
    }
  }

  /** All three lists ask about "isDeleted", which no file document has. */
  lemma {:induction false} FilesAreNeverSelected(kind: ListKind, q: QueryConditions, f: FileStruct)
    ensures !Satisfies(IntendedSelector(kind, q), FileDocument(f))
  {
    var doc, base := FileDocument(f), BaseConjuncts(kind);
    SelectorMeans(base + Conjuncts(Conditions(q)), doc);
    AllSatisfiedOnConcat(base, Conjuncts(Conditions(q)), doc);
    FlagMeans("isDeleted", doc);
    assert "isDeleted" !in doc;
    var k := if kind == DeletedList then 0 else 2;
    assert !Satisfies(base[k], doc);
  }

  predicate Within(start: Option<Moment>, end: Option<Moment>, stamp: Moment) {
    && (start.Some? ==> !EarlierDay(stamp, start.value))
    && (end.Some? ==> EarlierDay(stamp, end.value))
  }

  function DayText(day: Option<Moment>): string
    requires day.Some? ==> day.value.Valid()
  {
    if day.None? then "" else FormatDay(day.value)
  }

  /** Days as bounds of the update date: a list keeps, of what it would list without them,
      what was stamped from the start day on and before the end day, which is not included. */
  lemma {:induction false} DayBoundsKeepDays(kind: ListKind, q: QueryConditions, c: Certificate, start: Option<Moment>,
      end: Option<Moment>, stamp: Moment)
    requires stamp.Valid() && (start.Some? ==> start.value.Valid()) && (end.Some? ==> end.value.Valid())
    requires c.updateDate == Format(stamp)
    requires q.startCreateDate == DayText(start) && q.endCreateDate == DayText(end)
    ensures Wanted(kind, q, c) <==>
              Wanted(kind, q.(startCreateDate := "", endCreateDate := ""), c) && Within(start, end, stamp)
  {
    if start.Some? { StripKeepsDay(start.value); DayBounds(stamp, start.value); }
    if end.Some? { StripKeepsDay(end.value); DayBounds(stamp, end.value); }
  }

  /** A plain condition that asks for a value, and this value equals the field. */
  predicate PlainlyFinds(condition: string, field: string) {
    Strip(condition) != "" && Plain(Strip(condition)) && Equals(condition, field)
  }

  /** Conditions lose their blanks but stored fields do not. So some plain condition finds a
      stored value exactly when the value is not empty, holds neither blank nor line feed, and
      is plain itself; and then the value is such a condition. */
  lemma {:induction false} PlainlyFindable(field: string)
    ensures (exists condition :: PlainlyFinds(condition, field)) <==>
              field != "" && ' ' !in field && '\n' !in field && Plain(field)
    ensures (exists condition :: PlainlyFinds(condition, field)) ==> PlainlyFinds(field, field)
  {
    if ' ' !in field && '\n' !in field {
      RemoveKeeps(field, ' ');
      RemoveKeeps(field, '\n');
      assert Strip(field) == field;
      assert Plain(field) && field != "" ==> PlainlyFinds(field, field);
    }
  }
}
