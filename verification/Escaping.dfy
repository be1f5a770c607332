/** What conditions mean that hold escapes. The printer copies a condition between two quotes
    as it is, so a backslash in it is read as the start of an escape: such a condition asks
    for another value than its own text, and any value whatever can be asked for. */
module Escaping {
  import opened Text
  import opened Json
  import opened Records
  import opened Stamps
  import opened Selectors
  import opened Filters
  import opened Paging
  import SelectorReading

  // ---------------------------------------------------------------- escaped text

  function HexChar(n: nat): (c: char)
    requires n < 16
    ensures HexDigit(c) && HexValue(c) == n && c != ' '
  {
    if n < 10 then ('0' as int + n) as char else ('a' as int + (n - 10)) as char
  }

  /** A character as it may stand in a condition: blanks, control characters, quotes and
      backslashes are escaped. */
  function EscapedChar(c: char): (s: string)
    ensures s != "" && ' ' !in s && '\n' !in s
  {
    if c == '"' then "\\\""
    else if c == '\\' then "\\\\"
    else if c <= ' ' then ['\\', 'u', '0', '0', HexChar(c as int / 16), HexChar(c as int % 16)]
    else [c]
  }

  function Escaped(v: string): (s: string)
    ensures ' ' !in s && '\n' !in s
    ensures s == "" <==> v == ""
  {
    if v == "" then "" else EscapedChar(v[0]) + Escaped(v[1..])
  }

  lemma {:induction false} EscapedCharIsRead(c: char, rest: string)
    ensures Chars(EscapedChar(c) + rest) == Prepend(c, Chars(rest))
  {
    var s := EscapedChar(c) + rest;
    if c == '"' || c == '\\' {
      assert s[0] == '\\' && s[1] == c && s[2..] == rest;
    } else if c <= ' ' {
      assert s[6..] == rest;
      assert s[0] == '\\' && s[1] == 'u' && s[2] == '0' && s[3] == '0';
      assert s[4] == HexChar(c as int / 16) && s[5] == HexChar(c as int % 16);
      assert CodeUnit(s[2], s[3], s[4], s[5]) == c;
    } else {
      assert s[0] == c && s[1..] == rest;
    }
  }

  lemma {:induction false} EscapedCharsAreRead(v: string, rest: string)
    ensures Chars(Escaped(v) + ("\"" + rest)) == Got(v, rest)
    decreases |v|
  {
    if v == "" {
      assert Escaped(v) + ("\"" + rest) == "\"" + rest && ("\"" + rest)[1..] == rest;
    } else {
      EscapedCharsAreRead(v[1..], rest);
      EscapedCharIsRead(v[0], Escaped(v[1..]) + ("\"" + rest));
      Assoc(EscapedChar(v[0]), Escaped(v[1..]), "\"" + rest);
      assert [v[0]] + v[1..] == v;
    }
  }

  /** Stripping leaves an escaped value alone, and between quotes it is read back as the value. */
  lemma {:induction false} EscapedIsRead(v: string)
    ensures Strip(Escaped(v)) == Escaped(v)
    ensures Reads(Quoted(Escaped(v)), Str(v))
  {
    RemoveKeeps(Escaped(v), ' ');
    RemoveKeeps(Escaped(v), '\n');
    forall rest: string
      ensures Value(Quoted(Escaped(v)) + rest) == Got(Str(v), rest)
    {
      var t := Quoted(Escaped(v)) + rest;
      assert Skip(t) == t && t[1..] == Escaped(v) + ("\"" + rest);
      EscapedCharsAreRead(v, rest);
    }
  }

  // ---------------------------------------------------------------- what conditions mean

  /** The value of `c` is a text for the value of `d`. */
  ghost predicate Means(c: Condition, d: Condition) {
    && c.name == d.name && c.op == d.op && (c.value == "" <==> d.value == "")
    && Reads(Quoted(c.value), Str(d.value))
  }

  ghost predicate AllMean(cs: seq<Condition>, ds: seq<Condition>) {
    |cs| == |ds| && forall i :: 0 <= i < |cs| ==> Means(cs[i], ds[i])
  }

  lemma ConditionMeans(c: Condition, d: Condition)
    requires SelectorReading.PlainFrame(c) && Means(c, d)
    ensures Reads(ConditionText(c), Conjunct(d))
  {
    if c.op == "" {
      SelectorReading.QuotedEqReads(c.name, c.value, d.value);
    } else {
      SelectorReading.QuotedCoReads(c.name, c.op, c.value, d.value);
    }
  }

  /** The printed pieces, with what they mean. */
  function MeantPieces(cs: seq<Condition>, ds: seq<Condition>): seq<Piece>
    requires |cs| == |ds|
  {
    if cs == [] then []
    else
      (if cs[0].value == "" then [] else [Piece(ConditionText(cs[0]), Conjunct(ds[0]))]) + MeantPieces(cs[1..], ds[1..])
  }

  predicate SameTexts(ps: seq<Piece>, qs: seq<Piece>) {
    |ps| == |qs| && forall i :: 0 <= i < |ps| ==> ps[i].text == qs[i].text
  }

  lemma {:induction false} SameTextsJoin(ps: seq<Piece>, qs: seq<Piece>)
    requires SameTexts(ps, qs)
    ensures Join(ps) == Join(qs)
    decreases |ps|
  {
    if |ps| > 1 { SameTextsJoin(ps[1..], qs[1..]); }
  }

  lemma {:induction false} MeantPiecesFit(cs: seq<Condition>, ds: seq<Condition>)
    requires AllMean(cs, ds)
    requires forall i :: 0 <= i < |cs| ==> SelectorReading.PlainFrame(cs[i])
    ensures SameTexts(ConditionPieces(cs), MeantPieces(cs, ds))
    ensures AllRead(MeantPieces(cs, ds))
    decreases |cs|
  {
    hide Reads, Means, ConditionText, Conjunct, SelectorReading.PlainFrame;
    if cs != [] {
      MeantPiecesFit(cs[1..], ds[1..]);
      assert Means(cs[0], ds[0]);
      if cs[0].value != "" { ConditionMeans(cs[0], ds[0]); }
    }
  }

  lemma {:induction false} MeantPiecesCarryConjuncts(cs: seq<Condition>, ds: seq<Condition>)
    requires AllMean(cs, ds)
    ensures Jsons(MeantPieces(cs, ds)) == Conjuncts(ds)
    decreases |cs|
  {
    hide Reads;
    if cs != [] {
      var more := MeantPieces(cs[1..], ds[1..]);
      MeantPiecesCarryConjuncts(cs[1..], ds[1..]);
      assert Means(cs[0], ds[0]);
      if cs[0].value == "" {
        assert MeantPieces(cs, ds) == more && Conjuncts(ds) == Conjuncts(ds[1..]);
      } else {
        var p := Piece(ConditionText(cs[0]), Conjunct(ds[0]));
        JsonsOnConcat([p], more);
        SelectorReading.OneJson(p);
      }
    }
  }

  function MeantSelector(kind: ListKind, ds: seq<Condition>): Json {
    Obj([("$and", Arr(BaseConjuncts(kind) + Conjuncts(ds)))])
  }

  /** If the stripped conditions are texts for these values, then the printed text is read back
      as the query for these values. */
  lemma {:induction false} PrintedQuerySaysMeant(kind: ListKind, q: QueryConditions, ds: seq<Condition>)
    requires AllMean(Conditions(q), ds)
    ensures QuestionOf(EditQueryString(BaseQuery(kind), q)) == Some(Question(MeantSelector(kind, ds), INDEX_ORDER))
  {
    hide Value, Reads, Conditions, BaseQuery, EditQueryString, BasePieces, PlainChar, QuestionOf, Parse;
    var base, cs := BasePieces(kind), Conditions(q);
    var ps := base + MeantPieces(cs, ds);
    SelectorReading.ConditionsArePlain(q);
    MeantPiecesFit(cs, ds);
    MeantPiecesCarryConjuncts(cs, ds);
    SelectorReading.BasePiecesRead(kind);
    SelectorReading.BaseStartsObjects(kind);
    SelectorReading.BaseJsons(kind);
    JsonsOnConcat(base, MeantPieces(cs, ds));
    PrintedIsJoined(kind, q);
    SameTextsJoin(Pieces(kind, q), ps);
    SelectorReading.QueryTextReads(ps);
    QueryAsks(EditQueryString(BaseQuery(kind), q), MeantSelector(kind, ds));
  }

  /** Every condition is a text for some value: it is plain, or its escapes are in order. */
  ghost predicate Legible(q: QueryConditions) {
    exists ds :: AllMean(Conditions(q), ds)
  }

  lemma {:induction false} PlainIsLegible(q: QueryConditions)
    requires PlainConditions(q)
    ensures Legible(q)
  {
    var cs := Conditions(q);
    forall i | 0 <= i < |cs| ensures Means(cs[i], cs[i]) {
      assert cs[i] in cs;
      StringReads(cs[i].value);
    }
    assert AllMean(cs, cs);
  }

  /** Whatever its values, a legible query selects from its list alone. */
  lemma {:induction false} LegibleSelectsFromList(kind: ListKind, q: QueryConditions)
    requires Legible(q)
    ensures var s := QuestionOf(EditQueryString(BaseQuery(kind), q));
            s.Some? && forall c: Certificate :: Satisfies(s.value.selector, CertificateDocument(c)) ==> InList(kind, c)
  {
    hide QuestionOf, Satisfies, InList, AllMean, CertificateDocument, ShowsFlags;
    var ds :| AllMean(Conditions(q), ds);
    PrintedQuerySaysMeant(kind, q, ds);
    forall c: Certificate
      ensures Satisfies(MeantSelector(kind, ds), CertificateDocument(c)) ==> InList(kind, c)
    {
      DocumentShowsFlags(c);
      SelectorMeans(BaseConjuncts(kind) + Conjuncts(ds), CertificateDocument(c));
      AllSatisfiedOnConcat(BaseConjuncts(kind), Conjuncts(ds), CertificateDocument(c));
      BaseMeans(kind, c, CertificateDocument(c));
    }
  }

  lemma {:induction false} IndexOrderIsNewestFirst(c: Certificate, d: Certificate)
    ensures ComesBefore(INDEX_ORDER, CertificateDocument(c), CertificateDocument(d)) <==> Before(KeyOf(c), KeyOf(d))
  {
    DocumentShowsTexts(c);
    DocumentShowsTexts(d);
    var a, b := CertificateDocument(c), CertificateDocument(d);
    hide CertificateDocument;
    assert INDEX_ORDER[1..] == [SortKey("certId", true)] && INDEX_ORDER[1..][1..] == [];
    assert ComesBefore(INDEX_ORDER[1..], a, b) <==> Less(d.certId, c.certId);
  }

  /** Whatever its values, a legible query asks for the newest certificates first: the later
      update date, and among equal dates the larger id. */
  lemma {:induction false} LegibleAsksNewestFirst(kind: ListKind, q: QueryConditions)
    requires Legible(q)
    ensures var s := QuestionOf(EditQueryString(BaseQuery(kind), q));
            && s.Some?
            && forall c, d: Certificate ::
                 ComesBefore(s.value.order, CertificateDocument(c), CertificateDocument(d)) <==>
                 Less(d.updateDate, c.updateDate) || (c.updateDate == d.updateDate && Less(d.certId, c.certId))
  {
    hide QuestionOf, AllMean, CertificateDocument, ComesBefore, Less;
    var ds :| AllMean(Conditions(q), ds);
    PrintedQuerySaysMeant(kind, q, ds);
    forall c, d: Certificate
      ensures ComesBefore(INDEX_ORDER, CertificateDocument(c), CertificateDocument(d)) <==>
                Less(d.updateDate, c.updateDate) || (c.updateDate == d.updateDate && Less(d.certId, c.certId))
    {
      IndexOrderIsNewestFirst(c, d);
    }
  }

  // ---------------------------------------------------------------- any value can be asked for

  function EscapedQuery(q: QueryConditions): QueryConditions {
    q.(certType := Escaped(q.certType), certId := Escaped(q.certId), entrustOrg := Escaped(q.entrustOrg),
       instrumentName := Escaped(q.instrumentName), startCreateDate := Escaped(q.startCreateDate),
       endCreateDate := Escaped(q.endCreateDate), startCalibDate := Escaped(q.startCalibDate),
       endCalibDate := Escaped(q.endCalibDate))
  }

  /** The conditions as they are, with their blanks. */
  function ExactEqConditions(q: QueryConditions): seq<Condition> {
    [Condition("certType", "", q.certType), Condition("certId", "", q.certId),
     Condition("entrustOrg", "", q.entrustOrg), Condition("instrumentName", "", q.instrumentName)]
  }

  function ExactCoConditions(q: QueryConditions): seq<Condition> {
    [Condition("updateDate", "$gte", q.startCreateDate), Condition("updateDate", "$lte", q.endCreateDate),
     Condition("calibrateDate", "$gte", q.startCalibDate), Condition("calibrateDate", "$lte", q.endCalibDate)]
  }

  function ExactConditions(q: QueryConditions): seq<Condition> {
    ExactEqConditions(q) + ExactCoConditions(q)
  }

  /** What they ask for if nothing is lost on the way. */
  predicate Exactly(kind: ListKind, q: QueryConditions, c: Certificate) {
    InList(kind, c) && ExactTexts(q, c)
  }

  predicate ExactTexts(q: QueryConditions, c: Certificate) {
    && (q.certType == "" || c.certType == q.certType)
    && (q.certId == "" || c.certId == q.certId)
    && (q.entrustOrg == "" || c.entrustOrg == q.entrustOrg)
    && (q.instrumentName == "" || c.instrumentName == q.instrumentName)
    && (q.startCreateDate == "" || !Less(c.updateDate, q.startCreateDate))
    && (q.endCreateDate == "" || !Less(q.endCreateDate, c.updateDate))
    && (q.startCalibDate == "" || !Less(c.calibrateDate, q.startCalibDate))
    && (q.endCalibDate == "" || !Less(q.endCalibDate, c.calibrateDate))
  }

  lemma {:induction false} EscapedMeans(name: string, op: string, value: string)
    ensures Means(Condition(name, op, Strip(Escaped(value))), Condition(name, op, value))
  {
    EscapedIsRead(value);
  }

  lemma {:induction false} EscapedHalvesMean(q: QueryConditions)
    ensures AllMean(EqConditions(EscapedQuery(q)), ExactEqConditions(q))
    ensures AllMean(CoConditions(EscapedQuery(q)), ExactCoConditions(q))
  {
    hide Means, Escaped, Strip;
    EscapedMeans("certType", "", q.certType);
    EscapedMeans("certId", "", q.certId);
    EscapedMeans("entrustOrg", "", q.entrustOrg);
    EscapedMeans("instrumentName", "", q.instrumentName);
    EscapedMeans("updateDate", "$gte", q.startCreateDate);
    EscapedMeans("updateDate", "$lte", q.endCreateDate);
    EscapedMeans("calibrateDate", "$gte", q.startCalibDate);
    EscapedMeans("calibrateDate", "$lte", q.endCalibDate);
  }

  lemma {:induction false} EscapedConditionsMean(q: QueryConditions)
    ensures AllMean(Conditions(EscapedQuery(q)), ExactConditions(q))
  {
    hide Means, EqConditions, CoConditions, ExactEqConditions, ExactCoConditions;
    EscapedHalvesMean(q);
  }

  lemma {:induction false} ExactConditionsMean(q: QueryConditions, c: Certificate, doc: Document)
    requires ShowsTexts(doc, c)
    ensures (forall i :: 0 <= i < |ExactConditions(q)| ==> Holds(ExactConditions(q)[i], doc)) <==> ExactTexts(q, c)
  {
    var ds, e, o := ExactConditions(q), ExactEqConditions(q), ExactCoConditions(q);
    assert ds[0] == e[0] && ds[1] == e[1] && ds[2] == e[2] && ds[3] == e[3];
    assert ds[4] == o[0] && ds[5] == o[1] && ds[6] == o[2] && ds[7] == o[3];
  }

  lemma {:induction false} ExactSelectorMeans(kind: ListKind, q: QueryConditions, c: Certificate)
    ensures Satisfies(MeantSelector(kind, ExactConditions(q)), CertificateDocument(c)) <==> Exactly(kind, q, c)
  {
    var doc, ds := CertificateDocument(c), ExactConditions(q);
    DocumentShowsFlags(c);
    DocumentShowsTexts(c);
    hide Satisfies, CertificateDocument, Holds, ExactTexts, InList, ShowsFlags, ShowsTexts;
    SelectorMeans(BaseConjuncts(kind) + Conjuncts(ds), doc);
    AllSatisfiedOnConcat(BaseConjuncts(kind), Conjuncts(ds), doc);
    BaseMeans(kind, c, doc);
    ConjunctsMean(ds, doc);
    ExactConditionsMean(q, c, doc);
  }

  lemma EscapedIsLegible(q: QueryConditions)
    ensures Legible(EscapedQuery(q))
  {
    EscapedConditionsMean(q);
  }

  /** With escaped conditions nothing is lost: for all eight values whatever, blanks, quotes and
      control characters included, the printed text selects exactly what they ask for. */
  lemma {:induction false} EscapedQuerySelectsExactly(kind: ListKind, q: QueryConditions)
    ensures QuestionOf(EditQueryString(BaseQuery(kind), EscapedQuery(q)))
            == Some(Question(MeantSelector(kind, ExactConditions(q)), INDEX_ORDER))
    ensures forall c: Certificate ::
              Satisfies(MeantSelector(kind, ExactConditions(q)), CertificateDocument(c)) <==> Exactly(kind, q, c)
  {
    hide Value, Satisfies, Exactly, AllMean, QuestionOf;
    EscapedConditionsMean(q);
    PrintedQuerySaysMeant(kind, EscapedQuery(q), ExactConditions(q));
    forall c: Certificate
      ensures Satisfies(MeantSelector(kind, ExactConditions(q)), CertificateDocument(c)) <==> Exactly(kind, q, c)
    {
      ExactSelectorMeans(kind, q, c);
    }
  }

  /** A condition that is read as this value. */
  ghost predicate AsksFor(condition: string, value: string) {
    Strip(condition) != "" && Reads(Quoted(Strip(condition)), Str(value))
  }

  lemma {:induction false} NonEmptyIsReadSo(text: string)
    requires text != ""
    ensures !Reads(Quoted(text), Str(""))
  {
    var t := Quoted(text) + "";
    assert Skip(t) == t && t[1..] == text + "\"";
    assert Reads(Quoted(text), Str("")) ==> Value(t) == Got(Str(""), "");
  }

  /** So some condition asks for a value exactly when the value is not empty. */
  lemma {:induction false} EveryValueCanBeAskedFor(value: string)
    ensures (exists condition :: AsksFor(condition, value)) <==> value != ""
  {
    if value != "" {
      EscapedIsRead(value);
      assert AsksFor(Escaped(value), value);
    } else if condition :| AsksFor(condition, value) {
      NonEmptyIsReadSo(Strip(condition));
    }
  }

  /** A full stamp as an escaped bound keeps its time of day: the list holds what was stamped at
      that second or later, or at that second or earlier. */
  lemma EscapedStampBounds(kind: ListKind, q: QueryConditions, c: Certificate, start: Moment, end: Moment,
      stamp: Moment)
    requires stamp.Valid() && start.Valid() && end.Valid() && c.updateDate == Format(stamp)
    requires q.startCreateDate == Format(start) && q.endCreateDate == Format(end)
    ensures Exactly(kind, q, c) <==>
              && Exactly(kind, q.(startCreateDate := "", endCreateDate := ""), c)
              && !Earlier(stamp, start) && !Earlier(end, stamp)
  {
    StampsKeepOrder(stamp, start);
    StampsKeepOrder(end, stamp);
  }
}
