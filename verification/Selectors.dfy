/** The printed CouchDB queries: how they are put together, and what they are meant to say. */
module Selectors {
  import opened Text
  import opened Json

  datatype QueryConditions = QueryConditions(
    pageSize: int, pageIndex: int, isOpen: bool, isCompleted: bool, isDeleted: bool,
    certType: string, certId: string, entrustOrg: string, instrumentName: string,
    startCreateDate: string, endCreateDate: string, startCalibDate: string, endCalibDate: string)

  datatype ListKind = OpenList | DeletedList | DraftList

  // ---------------------------------------------------------------- printing

  /** `{"name": "value"}` */
  function EqText(name: string, value: string): string {
    "{" + (MemberText(name, " " + Quoted(value)) + "}")
  }

  /** `{"name": {"op":"value"}}` */
  function CoText(name: string, op: string, value: string): string {
    "{" + (MemberText(name, " {" + (MemberText(op, Quoted(value)) + "}")) + "}")
  }

  /** `{"name":literal}`, with or without a blank before the literal */
  function FlagText(name: string, blank: string, b: bool): string {
    "{" + (MemberText(name, blank + (if b then "true" else "false")) + "}")
  }

  /** `{"selector":{"$and":[` */
  const HEAD := "{" + (Quoted("selector") + (":" + ("{" + (Quoted("$and") + (":" + "[")))))

  /** `[{"updateDate": "desc"},{"certId": "desc"}]` */
  const SORT_TEXT := "[" + ((EqText("updateDate", "desc") + ("," + EqText("certId", "desc"))) + "]")

  /** `["indexSortDoc","indexSort"]` */
  const INDEX_TEXT := "[" + ((Quoted("indexSortDoc") + ("," + Quoted("indexSort"))) + "]")

  /** `]},"sort": ...,"use_index": ...}` */
  const TAIL := "]" + ("}" + ("," + (MemberText("sort", " " + SORT_TEXT)
      + ("," + (MemberText("use_index", " " + INDEX_TEXT) + "}")))))

  function BaseQuery(kind: ListKind): string {
    match kind
    case OpenList =>
      HEAD + FlagText("isOpen", "", true) + ("," + FlagText("isCompleted", " ", true))
          + ("," + FlagText("isDeleted", " ", false))
    case DeletedList =>
      HEAD + FlagText("isDeleted", " ", true)
    case DraftList =>
      HEAD + FlagText("isOpen", "", false) + ("," + FlagText("isCompleted", " ", false))
          + ("," + FlagText("isDeleted", " ", false))
  }

  function EditEqString(value: string, name: string): string {
    if Strip(value) == "" then "" else "," + EqText(name, Strip(value))
  }

  function EditCoString(value: string, name: string, op: string): string {
    if Strip(value) == "" then "" else "," + CoText(name, op, Strip(value))
  }

  function EditQueryString(base: string, q: QueryConditions): string {
    base
    + EditEqString(q.certType, "certType")
    + EditEqString(q.certId, "certId")
    + EditEqString(q.entrustOrg, "entrustOrg")
    + EditEqString(q.instrumentName, "instrumentName")
    + EditCoString(q.startCreateDate, "updateDate", "$gte")
    + EditCoString(q.endCreateDate, "updateDate", "$lte")
    + EditCoString(q.startCalibDate, "calibrateDate", "$gte")
    + EditCoString(q.endCalibDate, "calibrateDate", "$lte")
    + TAIL
  }

  // ---------------------------------------------------------------- intention

  /** The eight conditions of a query, in the order they are printed. An empty operator
      asks for equality. */
  datatype Condition = Condition(name: string, op: string, value: string)

  function EqConditions(q: QueryConditions): seq<Condition> {
    [Condition("certType", "", Strip(q.certType)),
     Condition("certId", "", Strip(q.certId)),
     Condition("entrustOrg", "", Strip(q.entrustOrg)),
     Condition("instrumentName", "", Strip(q.instrumentName))]
  }

  function CoConditions(q: QueryConditions): seq<Condition> {
    [Condition("updateDate", "$gte", Strip(q.startCreateDate)),
     Condition("updateDate", "$lte", Strip(q.endCreateDate)),
     Condition("calibrateDate", "$gte", Strip(q.startCalibDate)),
     Condition("calibrateDate", "$lte", Strip(q.endCalibDate))]
  }

  function Conditions(q: QueryConditions): seq<Condition> {
    EqConditions(q) + CoConditions(q)
  }

  function Conjunct(c: Condition): Json {
    Obj([(c.name, if c.op == "" then Str(c.value) else Obj([(c.op, Str(c.value))]))])
  }

  /** One conjunct for each condition that is not blank. */
  function Conjuncts(cs: seq<Condition>): seq<Json> {
    if cs == [] then []
    else (if cs[0].value == "" then [] else [Conjunct(cs[0])]) + Conjuncts(cs[1..])
  }

  function BaseConjuncts(kind: ListKind): seq<Json> {
    match kind
    case OpenList => [Obj([("isOpen", Bool(true))]), Obj([("isCompleted", Bool(true))]),
        Obj([("isDeleted", Bool(false))])]
    case DeletedList => [Obj([("isDeleted", Bool(true))])]
    case DraftList => [Obj([("isOpen", Bool(false))]), Obj([("isCompleted", Bool(false))]),
        Obj([("isDeleted", Bool(false))])]
  }

  const NEWEST_FIRST := Arr([Obj([("updateDate", Str("desc"))]), Obj([("certId", Str("desc"))])])
  const SORT_INDEX := Arr([Str("indexSortDoc"), Str("indexSort")])

  function IntendedSelector(kind: ListKind, q: QueryConditions): Json {
    Obj([("$and", Arr(BaseConjuncts(kind) + Conjuncts(Conditions(q))))])
  }

  function IntendedQuery(kind: ListKind, q: QueryConditions): Json {
    Obj([("selector", IntendedSelector(kind, q)), ("sort", NEWEST_FIRST), ("use_index", SORT_INDEX)])
  }

  /** No condition holds a quote, a backslash or a control character once it is stripped. */
  predicate PlainConditions(q: QueryConditions) {
    forall c :: c in Conditions(q) ==> Plain(c.value)
  }

  // ---------------------------------------------------------------- pieces of the text

  function ConditionText(c: Condition): string {
    if c.op == "" then EqText(c.name, c.value) else CoText(c.name, c.op, c.value)
  }

  function ConditionPieces(cs: seq<Condition>): seq<Piece> {
    if cs == [] then []
    else (if cs[0].value == "" then [] else [Piece(ConditionText(cs[0]), Conjunct(cs[0]))]) + ConditionPieces(cs[1..])
  }

  function FlagPiece(name: string, blank: string, b: bool): Piece {
    Piece(FlagText(name, blank, b), Obj([(name, Bool(b))]))
  }

  function BasePieces(kind: ListKind): (ps: seq<Piece>)
    ensures ps != []
  {
    match kind
    case OpenList => [FlagPiece("isOpen", "", true), FlagPiece("isCompleted", " ", true),
        FlagPiece("isDeleted", " ", false)]
    case DeletedList => [FlagPiece("isDeleted", " ", true)]
    case DraftList => [FlagPiece("isOpen", "", false), FlagPiece("isCompleted", " ", false),
        FlagPiece("isDeleted", " ", false)]
  }

  function Pieces(kind: ListKind, q: QueryConditions): seq<Piece> {
    BasePieces(kind) + ConditionPieces(Conditions(q))
  }

  /** Every piece preceded by a comma. */
  function Commas(ps: seq<Piece>): string {
    if ps == [] then [] else "," + (ps[0].text + Commas(ps[1..]))
  }

  lemma Assoc(a: string, b: string, c: string)
    ensures (a + b) + c == a + (b + c)
  {
  }

  lemma {:induction false} CommasOnConcat(ps: seq<Piece>, qs: seq<Piece>)
    ensures Commas(ps + qs) == Commas(ps) + Commas(qs)
    decreases |ps|
  {
    if ps == [] {
      assert ps + qs == qs;
    } else {
      CommasOnConcat(ps[1..], qs);
      assert (ps + qs)[1..] == ps[1..] + qs;
      Assoc(ps[0].text, Commas(ps[1..]), Commas(qs));
      Assoc(",", ps[0].text + Commas(ps[1..]), Commas(qs));
    }
  }

  lemma {:induction false} JoinIsCommas(ps: seq<Piece>)
    requires ps != []
    ensures Join(ps) == ps[0].text + Commas(ps[1..])
    decreases |ps|
  {
    if |ps| > 1 {
      JoinIsCommas(ps[1..]);
      assert ps[1..][0] == ps[1] && ps[1..][1..] == ps[2..];
    }
  }

  lemma {:induction false} JsonsOnConcat(ps: seq<Piece>, qs: seq<Piece>)
    ensures Jsons(ps + qs) == Jsons(ps) + Jsons(qs)
    decreases |ps|
  {
    if ps == [] {
      assert ps + qs == qs;
    } else {
      JsonsOnConcat(ps[1..], qs);
      assert (ps + qs)[1..] == ps[1..] + qs;
    }
  }

  lemma {:induction false} ConditionPiecesCarryConjuncts(cs: seq<Condition>)
    ensures Jsons(ConditionPieces(cs)) == Conjuncts(cs)
  {
    if cs != [] {
      ConditionPiecesCarryConjuncts(cs[1..]);
      if cs[0].value != "" {
        var p := Piece(ConditionText(cs[0]), Conjunct(cs[0]));
        JsonsOnConcat([p], ConditionPieces(cs[1..]));
        assert Jsons([p]) == [p.json] + Jsons([]);
      } else {
        assert ConditionPieces(cs) == ConditionPieces(cs[1..]);
        assert Conjuncts(cs) == Conjuncts(cs[1..]);
      }
    }
  }

  /** What one condition adds to the text: nothing when it is blank. */
  function Printed(c: Condition): string {
    if c.value == "" then "" else "," + ConditionText(c)
  }

  function PrintAll(base: string, cs: seq<Condition>): string
    decreases |cs|
  {
    if cs == [] then base else PrintAll(base + Printed(cs[0]), cs[1..])
  }

  lemma {:induction false} PrintAllIsCommas(base: string, cs: seq<Condition>)
    ensures PrintAll(base, cs) == base + Commas(ConditionPieces(cs))
    decreases |cs|
  {
    if cs == [] {
      assert base + [] == base;
    } else {
      PrintAllIsCommas(base + Printed(cs[0]), cs[1..]);
      var more := ConditionPieces(cs[1..]);
      if cs[0].value == "" {
        assert ConditionPieces(cs) == more;
        assert base + "" == base;
      } else {
        var p := Piece(ConditionText(cs[0]), Conjunct(cs[0]));
        assert ConditionPieces(cs) == [p] + more;
        assert ([p] + more)[1..] == more;
        Assoc(",", p.text, Commas(more));
        Assoc(base, "," + p.text, Commas(more));
      }
    }
  }

  lemma {:induction false} PrintAllOnConcat(base: string, cs: seq<Condition>, ds: seq<Condition>)
    ensures PrintAll(base, cs + ds) == PrintAll(PrintAll(base, cs), ds)
    decreases |cs|
  {
    if cs == [] {
      assert cs + ds == ds;
    } else {
      assert (cs + ds)[1..] == cs[1..] + ds;
      PrintAllOnConcat(base + Printed(cs[0]), cs[1..], ds);
    }
  }

  lemma {:induction false} PrintFour(base: string, a: Condition, b: Condition, c: Condition, d: Condition)
    ensures PrintAll(base, [a, b, c, d]) == base + Printed(a) + Printed(b) + Printed(c) + Printed(d)
  {
    assert [a, b, c, d][1..] == [b, c, d] && [b, c, d][1..] == [c, d] && [c, d][1..] == [d] && [d][1..] == [];
    assert PrintAll(base, [a, b, c, d]) == PrintAll(base + Printed(a), [b, c, d]);
    assert PrintAll(base + Printed(a), [b, c, d]) == PrintAll(base + Printed(a) + Printed(b), [c, d]);
    assert PrintAll(base + Printed(a) + Printed(b), [c, d])
        == PrintAll(base + Printed(a) + Printed(b) + Printed(c), [d]);
  }

  lemma EqIsPrinted(value: string, name: string)
    ensures EditEqString(value, name) == Printed(Condition(name, "", Strip(value)))
  {
  }

  lemma CoIsPrinted(value: string, name: string, op: string)
    requires op != ""
    ensures EditCoString(value, name, op) == Printed(Condition(name, op, Strip(value)))
  {
  }

  lemma {:induction false} FourEqsPrinted(base: string, names: seq<string>, values: seq<string>)
    requires |names| == |values| == 4
    ensures base + EditEqString(values[0], names[0]) + EditEqString(values[1], names[1])
              + EditEqString(values[2], names[2]) + EditEqString(values[3], names[3])
         == PrintAll(base, [Condition(names[0], "", Strip(values[0])), Condition(names[1], "", Strip(values[1])),
                            Condition(names[2], "", Strip(values[2])), Condition(names[3], "", Strip(values[3]))])
  {
    PrintFour(base, Condition(names[0], "", Strip(values[0])), Condition(names[1], "", Strip(values[1])),
                    Condition(names[2], "", Strip(values[2])), Condition(names[3], "", Strip(values[3])));
    forall i | 0 <= i < 4
      ensures EditEqString(values[i], names[i]) == Printed(Condition(names[i], "", Strip(values[i])))
    {
      EqIsPrinted(values[i], names[i]);
    }
  }

  lemma {:induction false} FourCosPrinted(base: string, names: seq<string>, ops: seq<string>, values: seq<string>)
    requires |names| == |values| == |ops| == 4 && "" !in ops
    ensures base + EditCoString(values[0], names[0], ops[0]) + EditCoString(values[1], names[1], ops[1])
              + EditCoString(values[2], names[2], ops[2]) + EditCoString(values[3], names[3], ops[3])
         == PrintAll(base, [Condition(names[0], ops[0], Strip(values[0])),
                            Condition(names[1], ops[1], Strip(values[1])),
                            Condition(names[2], ops[2], Strip(values[2])),
                            Condition(names[3], ops[3], Strip(values[3]))])
  {
    PrintFour(base, Condition(names[0], ops[0], Strip(values[0])), Condition(names[1], ops[1], Strip(values[1])),
                    Condition(names[2], ops[2], Strip(values[2])), Condition(names[3], ops[3], Strip(values[3])));
    forall i | 0 <= i < 4
      ensures EditCoString(values[i], names[i], ops[i]) == Printed(Condition(names[i], ops[i], Strip(values[i])))
    {
      CoIsPrinted(values[i], names[i], ops[i]);
    }
  }

  lemma {:induction false} EditIsPrintAll(base: string, q: QueryConditions)
    ensures EditQueryString(base, q) == PrintAll(base, Conditions(q)) + TAIL
  {
    var eqs := PrintAll(base, EqConditions(q));
    PrintAllOnConcat(base, EqConditions(q), CoConditions(q));
    FourEqsPrinted(base, ["certType", "certId", "entrustOrg", "instrumentName"],
                   [q.certType, q.certId, q.entrustOrg, q.instrumentName]);
    FourCosPrinted(eqs, ["updateDate", "updateDate", "calibrateDate", "calibrateDate"],
                   ["$gte", "$lte", "$gte", "$lte"],
                   [q.startCreateDate, q.endCreateDate, q.startCalibDate, q.endCalibDate]);
  }

  lemma BaseIsCommas(kind: ListKind)
    ensures BaseQuery(kind) == HEAD + (BasePieces(kind)[0].text + Commas(BasePieces(kind)[1..]))
  {
    var ps := BasePieces(kind);
    if kind == DeletedList {
      assert ps[1..] == [] && ps[0].text + [] == ps[0].text;
    } else {
      ThreePieces(ps);
      Assoc(ps[0].text, "," + ps[1].text, "," + ps[2].text);
      Assoc(HEAD, ps[0].text, "," + ps[1].text);
      Assoc(HEAD, ps[0].text + ("," + ps[1].text), "," + ps[2].text);
    }
  }

  lemma ThreePieces(ps: seq<Piece>)
    requires |ps| == 3
    ensures Commas(ps[1..]) == ("," + ps[1].text) + ("," + ps[2].text)
  {
    assert ps[1..] == [ps[1]] + [ps[2]];
    CommasOnConcat([ps[1]], [ps[2]]);
    OnePiece(ps[1]);
    OnePiece(ps[2]);
  }

  lemma OnePiece(p: Piece)
    ensures Commas([p]) == "," + p.text
  {
    assert [p][1..] == [] && p.text + [] == p.text;
  }

  lemma {:induction false} JoinedText(head: string, ps: seq<Piece>, qs: seq<Piece>, tail: string)
    requires ps != []
    ensures (head + (ps[0].text + Commas(ps[1..])) + Commas(qs)) + tail == head + (Join(ps + qs) + tail)
  {
    JoinIsCommas(ps + qs);
    assert (ps + qs)[1..] == ps[1..] + qs;
    CommasOnConcat(ps[1..], qs);
    var first, more, last := ps[0].text, Commas(ps[1..]), Commas(qs);
    Assoc(first, more, last);
    Assoc(head, first + more, last);
    Assoc(head, (first + more) + last, tail);
  }

  /** The printed text is the head, the pieces separated by commas, and the tail. */
  lemma PrintedIsJoined(kind: ListKind, q: QueryConditions)
    ensures EditQueryString(BaseQuery(kind), q) == HEAD + (Join(Pieces(kind, q)) + TAIL)
  {
    EditIsPrintAll(BaseQuery(kind), q);
    PrintAllIsCommas(BaseQuery(kind), Conditions(q));
    BaseIsCommas(kind);
    JoinedText(HEAD, BasePieces(kind), ConditionPieces(Conditions(q)), TAIL);
  }

  // ---------------------------------------------------------------- letter by letter

  /** How each list's query begins, ... */
  function OpenText(kind: ListKind): string {
    "{\"selector\":{\"$and\":["
    + match kind
      case OpenList => "{\"isOpen\":true}" + ("," + "{\"isCompleted\": true}") + ("," + "{\"isDeleted\": false}")
      case DeletedList => "{\"isDeleted\": true}"
      case DraftList => "{\"isOpen\":false}" + ("," + "{\"isCompleted\": false}") + ("," + "{\"isDeleted\": false}")
  }

  /** ... what a condition adds to it, ... */
  function EqLetters(name: string, value: string): string {
    if value == "" then "" else ",{\"" + (name + ("\": \"" + (value + "\"}")))
  }

  function CoLetters(name: string, op: string, value: string): string {
    if value == "" then "" else ",{\"" + (name + ("\": {\"" + (op + ("\":\"" + (value + "\"}}")))))
  }

  /** ... and how every query ends. */
  function EndText(): string {
    "]}," + ("\"sort\": [" + ("{\"updateDate\": \"desc\"}" + ("," + ("{\"certId\": \"desc\"}"
    + ("]," + ("\"use_index\": " + "[\"indexSortDoc\",\"indexSort\"]}"))))))
  }

  /** `o`, `m` and `e` stand for what is printed before, between and after, `qt` for a quote. */
  lemma {:induction false} PartsJoin(o: string, name: string, m: string, v: string, qt: string, e: string)
    ensures o + (((qt + (name + qt)) + (m + (qt + (v + qt)))) + e)
         == (o + qt) + (name + ((qt + (m + qt)) + (v + (qt + e))))
  {
    Assoc(qt + (name + qt), m + (qt + (v + qt)), e);
    Assoc(qt, name + qt, (m + (qt + (v + qt))) + e);
    Assoc(name, qt, (m + (qt + (v + qt))) + e);
    Assoc(m, qt + (v + qt), e);
    Assoc(qt, v + qt, e);
    Assoc(v, qt, e);
    Assoc(o, qt, name + (qt + (m + (qt + (v + (qt + e))))));
    Assoc(qt, m + qt, v + (qt + e));
    Assoc(m, qt, v + (qt + e));
  }

  lemma {:induction false} EqIsLetters(name: string, value: string)
    ensures EditEqString(value, name) == EqLetters(name, Strip(value))
  {
    var v := Strip(value);
    hide Strip;
    EqTextIsLetters(name, v);
  }

  lemma {:induction false} EqTextIsLetters(name: string, v: string)
    ensures "," + EqText(name, v) == ",{\"" + (name + ("\": \"" + (v + "\"}")))
  {
    PartsJoin(",{", name, ": ", v, "\"", "}");
    assert ",{" + "\"" == ",{\"" && "\"" + (": " + "\"") == "\": \"" && "\"" + "}" == "\"}";
    Assoc(":", " ", Quoted(v));
    assert ":" + " " == ": " && "," + "{" == ",{";
    Assoc(",", "{", MemberText(name, " " + Quoted(v)) + "}");
  }

  lemma {:induction false} CoIsLetters(name: string, op: string, value: string)
    ensures EditCoString(value, name, op) == CoLetters(name, op, Strip(value))
  {
    var v := Strip(value);
    hide Strip;
    CoTextIsLetters(name, op, v);
  }

  lemma {:induction false} CoTextIsLetters(name: string, op: string, v: string)
    ensures "," + CoText(name, op, v) == ",{\"" + (name + ("\": {\"" + (op + ("\":\"" + (v + "\"}}")))))
  {
    var m := MemberText(op, Quoted(v));
    CoOuter(name, m);
    PartsJoin("", op, ":", v, "\"", "}}");
    assert "" + (m + "}}") == m + "}}" && "" + "\"" == "\"";
    assert "\"" + (":" + "\"") == "\":\"" && "\"" + "}}" == "\"}}";
    var rest := op + ("\":\"" + (v + "\"}}"));
    assert "\": {" + "\"" == "\": {\"";
    Assoc("\": {", "\"", rest);
  }

  lemma {:induction false} CoOuter(name: string, m: string)
    ensures "," + ("{" + (MemberText(name, " {" + (m + "}")) + "}")) == ",{\"" + (name + ("\": {" + (m + "}}")))
  {
    var q := "\"";
    MemberTextExtends(name, " {" + (m + "}"), "}");
    Assoc(" {", m + "}", "}");
    Assoc(m, "}", "}");
    assert "}" + "}" == "}}" && "," + ("{" + q) == ",{\"" && q + (":" + " {") == "\": {";
    Assoc(q, name + q, ":" + (" {" + (m + "}}")));
    Assoc(name, q, ":" + (" {" + (m + "}}")));
    Assoc(":", " {", m + "}}");
    Assoc(q, ":" + " {", m + "}}");
    Assoc("{", q, name + (q + (":" + (" {" + (m + "}}")))));
    Assoc(",", "{" + q, name + (q + (":" + (" {" + (m + "}}")))));
  }

  lemma OpenFlagsAreLetters()
    ensures FlagText("isOpen", "", true) == "{\"isOpen\":true}"
    ensures FlagText("isOpen", "", false) == "{\"isOpen\":false}"
  {
  }

  lemma CompletedFlagsAreLetters()
    ensures FlagText("isCompleted", " ", true) == "{\"isCompleted\": true}"
    ensures FlagText("isCompleted", " ", false) == "{\"isCompleted\": false}"
  {
  }

  lemma DeletedFlagsAreLetters()
    ensures FlagText("isDeleted", " ", true) == "{\"isDeleted\": true}"
    ensures FlagText("isDeleted", " ", false) == "{\"isDeleted\": false}"
  {
  }

  lemma BaseIsLetters(kind: ListKind)
    ensures BaseQuery(kind) == OpenText(kind)
  {
    OpenFlagsAreLetters();
    CompletedFlagsAreLetters();
    DeletedFlagsAreLetters();
    assert HEAD == "{\"selector\":{\"$and\":[" by { assert Quoted("selector") + ":{" == "\"selector\":{"; }
    hide HEAD, FlagText;
    if kind == OpenList {
      BaseParts("{\"isOpen\":true}", "," + "{\"isCompleted\": true}", "," + "{\"isDeleted\": false}");
    } else if kind == DraftList {
      BaseParts("{\"isOpen\":false}", "," + "{\"isCompleted\": false}", "," + "{\"isDeleted\": false}");
    }
  }

  lemma {:induction false} BaseParts(a: string, b: string, c: string)
    ensures HEAD + a + b + c == HEAD + (a + b + c)
  {
  }

  lemma EndIsLetters()
    ensures TAIL == EndText()
  {
    assert EqText("updateDate", "desc") == "{\"updateDate\": \"desc\"}";
    assert EqText("certId", "desc") == "{\"certId\": \"desc\"}";
    assert INDEX_TEXT + "}" == "[\"indexSortDoc\",\"indexSort\"]}" by { IndexIsLetters(); }
    assert Quoted("sort") + (":" + (" " + "[")) == "\"sort\": [";
    assert Quoted("use_index") + (":" + " ") == "\"use_index\": ";
    EndParts(EqText("updateDate", "desc"), EqText("certId", "desc"), INDEX_TEXT);
  }

  lemma IndexIsLetters()
    ensures INDEX_TEXT + "}" == "[\"indexSortDoc\",\"indexSort\"]}"
  {
    assert Quoted("indexSortDoc") == "\"indexSortDoc\"" && Quoted("indexSort") == "\"indexSort\"";
  }

  lemma {:induction false} EndParts(a: string, b: string, c: string)
    ensures var sort := "[" + ((a + ("," + b)) + "]");
            "]" + ("}" + ("," + (MemberText("sort", " " + sort) + ("," + (MemberText("use_index", " " + c) + "}")))))
            == "]}," + ((Quoted("sort") + (":" + (" " + "["))) + (a + ("," + (b
               + ("]," + ((Quoted("use_index") + (":" + " ")) + (c + "}")))))))
  {
    var sort, rest := "[" + ((a + ("," + b)) + "]"), MemberText("use_index", " " + c) + "}";
    assert MemberText("sort", " " + sort) == (Quoted("sort") + (":" + (" " + "["))) + (a + ("," + (b + "]")));
    assert rest == (Quoted("use_index") + (":" + " ")) + (c + "}");
    assert (a + ("," + (b + "]"))) + ("," + rest) == a + ("," + (b + ("]," + rest)));
  }

  /** The whole printed text, letter by letter. */
  lemma PrintedLetterByLetter(kind: ListKind, q: QueryConditions)
    ensures EditQueryString(BaseQuery(kind), q)
         == OpenText(kind)
            + EqLetters("certType", Strip(q.certType))
            + EqLetters("certId", Strip(q.certId))
            + EqLetters("entrustOrg", Strip(q.entrustOrg))
            + EqLetters("instrumentName", Strip(q.instrumentName))
            + CoLetters("updateDate", "$gte", Strip(q.startCreateDate))
            + CoLetters("updateDate", "$lte", Strip(q.endCreateDate))
            + CoLetters("calibrateDate", "$gte", Strip(q.startCalibDate))
            + CoLetters("calibrateDate", "$lte", Strip(q.endCalibDate))
            + EndText()
  {
    hide OpenText, BaseQuery, EqLetters, CoLetters, EndText, EditEqString, EditCoString, TAIL, Strip;
    BaseIsLetters(kind);
    EqIsLetters("certType", q.certType);
    EqIsLetters("certId", q.certId);
    EqIsLetters("entrustOrg", q.entrustOrg);
    EqIsLetters("instrumentName", q.instrumentName);
    CoIsLetters("updateDate", "$gte", q.startCreateDate);
    CoIsLetters("updateDate", "$lte", q.endCreateDate);
    CoIsLetters("calibrateDate", "$gte", q.startCalibDate);
    CoIsLetters("calibrateDate", "$lte", q.endCalibDate);
    EndIsLetters();
  }
}
