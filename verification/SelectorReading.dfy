/** What the printed queries say when they are read back. */
module SelectorReading {
  import opened Text
  import opened Json
  import opened Selectors

  lemma SingletonReads(name: string, text: string, j: Json)
    requires Plain(name) && Reads(text, j)
    ensures Reads("{" + (MemberText(name, text) + "}"), Obj([(name, j)]))
  {
    var f := Field(name, text, j);
    ObjectReads([f]);
    assert FieldJsons([f]) == [(name, j)] + FieldJsons([]) == [(name, j)];
  }

  /** `text` is what stands between the quotes, `value` what it is read as. */
  lemma QuotedEqReads(name: string, text: string, value: string)
    requires Plain(name) && Reads(Quoted(text), Str(value))
    ensures Reads(EqText(name, text), Obj([(name, Str(value))]))
  {
    BlankBeforeValue(Quoted(text), Str(value));
    SingletonReads(name, " " + Quoted(text), Str(value));
  }

  lemma QuotedCoReads(name: string, op: string, text: string, value: string)
    requires Plain(name) && Plain(op) && Reads(Quoted(text), Str(value))
    ensures Reads(CoText(name, op, text), Obj([(name, Obj([(op, Str(value))]))]))
  {
    var inner := "{" + (MemberText(op, Quoted(text)) + "}");
    SingletonReads(op, Quoted(text), Str(value));
    BlankBeforeValue(inner, Obj([(op, Str(value))]));
    assert " " + inner == " {" + (MemberText(op, Quoted(text)) + "}");
    SingletonReads(name, " " + inner, Obj([(op, Str(value))]));
  }

  lemma EqReads(name: string, value: string)
    requires Plain(name) && Plain(value)
    ensures Reads(EqText(name, value), Obj([(name, Str(value))]))
  {
    StringReads(value);
    QuotedEqReads(name, value, value);
  }

  lemma CoReads(name: string, op: string, value: string)
    requires Plain(name) && Plain(op) && Plain(value)
    ensures Reads(CoText(name, op, value), Obj([(name, Obj([(op, Str(value))]))]))
  {
    StringReads(value);
    QuotedCoReads(name, op, value, value);
  }

  lemma FlagReads(name: string, blank: string, b: bool)
    requires Plain(name) && (blank == "" || blank == " ")
    ensures Reads(FlagText(name, blank, b), Obj([(name, Bool(b))]))
  {
    var literal := if b then "true" else "false";
    BoolReads(b);
    BlankBeforeValue(literal, Bool(b));
    assert "" + literal == literal;
    SingletonReads(name, blank + literal, Bool(b));
  }

  /** Name and operator of a condition, as the printer writes them, need no escapes. */
  ghost predicate PlainFrame(c: Condition) {
    Plain(c.name) && Plain(c.op)
  }

  lemma NamesArePlain()
    ensures Plain("certType") && Plain("certId") && Plain("entrustOrg") && Plain("instrumentName")
    ensures Plain("updateDate") && Plain("calibrateDate") && Plain("$gte") && Plain("$lte")
    ensures Plain("isOpen") && Plain("isCompleted") && Plain("isDeleted") && Plain("")
  {
  }

  lemma FrameIsPlain()
    ensures Plain("selector") && Plain("$and") && Plain("sort") && Plain("use_index")
    ensures Plain("desc") && Plain("indexSortDoc") && Plain("indexSort")
  {
  }

  lemma ConditionsArePlain(q: QueryConditions)
    ensures forall i :: 0 <= i < |Conditions(q)| ==> PlainFrame(Conditions(q)[i])
  {
    NamesArePlain();
    forall i | 0 <= i < |Conditions(q)|
      ensures PlainFrame(Conditions(q)[i])
    {
      var e, c := EqConditions(q), CoConditions(q);
      assert Conditions(q)[i] == if i < 4 then e[i] else c[i - 4];
    }
  }

  lemma BasePiecesRead(kind: ListKind)
    ensures AllRead(BasePieces(kind))
  {
    NamesArePlain();
    match kind
    case OpenList =>
      FlagReads("isOpen", "", true); FlagReads("isCompleted", " ", true); FlagReads("isDeleted", " ", false);
    case DeletedList =>
      FlagReads("isDeleted", " ", true);
    case DraftList =>
      FlagReads("isOpen", "", false); FlagReads("isCompleted", " ", false); FlagReads("isDeleted", " ", false);
  }

  lemma ConditionReads(c: Condition)
    requires PlainFrame(c) && Plain(c.value)
    ensures Reads(ConditionText(c), Conjunct(c))
  {
    if c.op == "" { EqReads(c.name, c.value); } else { CoReads(c.name, c.op, c.value); }
  }

  /** The whole text around a list of pieces. */
  function QueryText(ps: seq<Piece>): string {
    HEAD + (Join(ps) + TAIL)
  }

  function QueryJson(ps: seq<Piece>): Json {
    Obj([("selector", Obj([("$and", Arr(Jsons(ps)))])), ("sort", NEWEST_FIRST), ("use_index", SORT_INDEX)])
  }

  lemma SortReads()
    ensures Reads(SORT_TEXT, NEWEST_FIRST) && NotBracket(SORT_TEXT)
  {
    NamesArePlain();
    FrameIsPlain();
    EqReads("updateDate", "desc");
    EqReads("certId", "desc");
    var a := Piece(EqText("updateDate", "desc"), Obj([("updateDate", Str("desc"))]));
    var b := Piece(EqText("certId", "desc"), Obj([("certId", Str("desc"))]));
    PairReads(a, b);
  }

  lemma IndexReads()
    ensures Reads(INDEX_TEXT, SORT_INDEX) && NotBracket(INDEX_TEXT)
  {
    FrameIsPlain();
    StringReads("indexSortDoc");
    StringReads("indexSort");
    PairReads(Piece(Quoted("indexSortDoc"), Str("indexSortDoc")), Piece(Quoted("indexSort"), Str("indexSort")));
  }

  lemma PairReads(a: Piece, b: Piece)
    requires Reads(a.text, a.json) && Reads(b.text, b.json) && NotBracket(a.text)
    ensures Reads("[" + ((a.text + ("," + b.text)) + "]"), Arr([a.json, b.json]))
  {
    var ps := [a, b];
    assert AllRead(ps) && ps[1..] == [b] && [b][1..] == [];
    assert Join(ps) == a.text + ("," + b.text);
    assert Jsons([b]) == [b.json] + Jsons([]) == [b.json];
    assert Jsons(ps) == [a.json] + Jsons([b]) == [a.json, b.json];
    ArrayReads(ps);
  }

  function SelectorText(ps: seq<Piece>): string {
    "{" + (MemberText("$and", "[" + (Join(ps) + "]")) + "}")
  }

  lemma ThreeFields(a: Field, b: Field, c: Field)
    ensures JoinFields([a, b, c]) ==
            MemberText(a.name, a.text) + ("," + (MemberText(b.name, b.text) + ("," + MemberText(c.name, c.text))))
    ensures FieldJsons([a, b, c]) == [(a.name, a.json), (b.name, b.json), (c.name, c.json)]
  {
    assert [a, b, c][1..] == [b, c] && [b, c][1..] == [c] && [c][1..] == [];
    assert FieldJsons([c]) == [(c.name, c.json)] + FieldJsons([]);
    assert FieldJsons([b, c]) == [(b.name, b.json)] + FieldJsons([c]);
    assert JoinFields([b, c]) == MemberText(b.name, b.text) + ("," + JoinFields([c]));
  }

  /** The text is one object of three members. */
  lemma QueryTextIsObject(ps: seq<Piece>)
    ensures QueryText(ps) == "{" + (MemberText("selector", SelectorText(ps)
        + ("," + (MemberText("sort", " " + SORT_TEXT) + ("," + (MemberText("use_index", " " + INDEX_TEXT) + "}"))))))
  {
    OpenBrackets("selector", "$and", Join(ps), ","
        + (MemberText("sort", " " + SORT_TEXT) + ("," + (MemberText("use_index", " " + INDEX_TEXT) + "}"))));
  }

  lemma OpenBrackets(outer: string, inner: string, list: string, more: string)
    ensures ("{" + (Quoted(outer) + (":" + ("{" + (Quoted(inner) + (":" + "[")))))) + (list + ("]" + ("}" + more)))
         == "{" + MemberText(outer, ("{" + (MemberText(inner, "[" + (list + "]")) + "}")) + more)
  {
    var body := list + ("]" + ("}" + more));
    var a := Quoted(inner) + (":" + "[");
    var b := "{" + a;
    Assoc("{", Quoted(outer) + (":" + b), body);
    Assoc(Quoted(outer), ":" + b, body);
    Assoc(":", b, body);
    Assoc("{", a, body);
    Assoc(Quoted(inner), ":" + "[", body);
    Assoc(":", "[", body);
    Assoc("{", MemberText(inner, "[" + (list + "]")) + "}", more);
    Assoc(MemberText(inner, "[" + (list + "]")), "}", more);
    MemberTextExtends(inner, "[" + (list + "]"), "}" + more);
    Assoc("[", list + "]", "}" + more);
    Assoc(list, "]", "}" + more);
  }

  function AfterSelector(): string {
    "," + (MemberText("sort", " " + SORT_TEXT) + ("," + (MemberText("use_index", " " + INDEX_TEXT) + "}")))
  }

  /** A query made of readable pieces is read back piece by piece. */
  lemma QueryTextReads(ps: seq<Piece>)
    requires ps != [] && AllRead(ps) && NotBracket(ps[0].text)
    ensures Parse(QueryText(ps)) == Some(QueryJson(ps))
  {
    var sel, list := SelectorText(ps), Obj([("$and", Arr(Jsons(ps)))]);
    FrameIsPlain();
    ArrayReads(ps);
    SingletonReads("$and", "[" + (Join(ps) + "]"), Arr(Jsons(ps)));
    SortReads();
    IndexReads();
    BlankBeforeValue(SORT_TEXT, NEWEST_FIRST);
    BlankBeforeValue(INDEX_TEXT, SORT_INDEX);
    ThreeFieldsRead(Field("selector", sel, list), Field("sort", " " + SORT_TEXT, NEWEST_FIRST),
                    Field("use_index", " " + INDEX_TEXT, SORT_INDEX));
    QueryTextIsObject(ps);
  }

  lemma ThreeFieldsRead(a: Field, b: Field, c: Field)
    requires AllFieldsRead([a, b, c])
    ensures Parse("{" + MemberText(a.name, a.text
        + ("," + (MemberText(b.name, b.text) + ("," + (MemberText(c.name, c.text) + "}"))))))
         == Some(Obj([(a.name, a.json), (b.name, b.json), (c.name, c.json)]))
  {
    var fs, mb, mc := [a, b, c], MemberText(b.name, b.text), MemberText(c.name, c.text);
    ThreeFields(a, b, c);
    FieldsRead(fs, "");
    assert JoinFields(fs) + ("}" + "") == MemberText(a.name, a.text + ("," + (mb + ("," + (mc + "}"))))) by {
      MemberTextExtends(a.name, a.text, "," + (mb + ("," + (mc + "}"))));
      assert "}" + "" == "}";
      Assoc(MemberText(a.name, a.text), "," + (mb + ("," + mc)), "}");
      Assoc(",", mb + ("," + mc), "}");
      Assoc(mb, "," + mc, "}");
      Assoc(",", mc, "}");
    }
    assert fs[0] == a;
    ObjectStep(a.name, a.text + ("," + (mb + ("," + (mc + "}")))));
  }

  // ---------------------------------------------------------------- values that are not plain

  /** Whatever the query prints after the piece, the piece is not read as intended. */
  ghost predicate Misread(p: Piece) {
    forall mid: string, r: string :: Filler(mid) ==>
      Value(p.text + (mid + ("\"" + r))).Got? ==> Value(p.text + (mid + ("\"" + r))).item != p.json
  }

  /** What stands between the end of a piece and the next quote. */
  predicate Filler(mid: string) {
    mid != [] && Plain(mid) && mid[|mid| - 1] != '\\'
  }

  /** A string value that is not plain is read back as something else, if at all. */
  lemma {:induction false} StringMisread(value: string, mid: string, r: string)
    requires !Plain(value) && Filler(mid)
    ensures var x := Value(Quoted(value) + (mid + ("\"" + r))); x.Got? ==> x.item != Str(value)
  {
    var t := Quoted(value) + (mid + ("\"" + r));
    assert Skip(t) == t && t[1..] == value + ("\"" + (mid + ("\"" + r)));
    OnlyPlainCharsAreKept(value, mid, r);
  }

  predicate StartsWithMember(o: Json, name: string, j: Json) {
    o.Obj? && o.members != [] && o.members[0] == (name, j)
  }

  /** Misreading the value of a member misreads the object. */
  lemma {:induction false} MemberMisread(name: string, text: string, j: Json)
    requires Plain(name)
    requires Value(text).Got? ==> Value(text).item != j
    ensures var x := Value("{" + MemberText(name, text)); x.Got? ==> !StartsWithMember(x.item, name, j)
  {
    ObjectStep(name, text);
    MemberStep(name, text, MemberText(name, text));
  }

  lemma {:induction false} BlankMisread(text: string, j: Json)
    requires Value(text).Got? ==> Value(text).item != j
    ensures Value(" " + text).Got? ==> Value(" " + text).item != j
  {
    BlankIsSkipped(text);
  }

  lemma {:induction false} EqMisread(name: string, value: string, mid: string, r: string)
    requires Plain(name) && !Plain(value) && Filler(mid)
    ensures var x := Value(EqText(name, value) + (mid + ("\"" + r))); x.Got? ==> x.item != Obj([(name, Str(value))])
  {
    var more := mid + ("\"" + r);
    var inner := Quoted(value) + ("}" + more);
    Assoc("}", mid, "\"" + r);
    assert Filler("}" + mid);
    StringMisread(value, "}" + mid, r);
    BlankMisread(inner, Str(value));
    MemberMisread(name, " " + inner, Str(value));
    Assoc("{", MemberText(name, " " + Quoted(value)) + "}", more);
    Assoc(MemberText(name, " " + Quoted(value)), "}", more);
    MemberTextExtends(name, " " + Quoted(value), "}" + more);
    Assoc(" ", Quoted(value), "}" + more);
  }

  lemma {:induction false} CoMisread(name: string, op: string, value: string, mid: string, r: string)
    requires Plain(name) && Plain(op) && !Plain(value) && Filler(mid)
    ensures var x := Value(CoText(name, op, value) + (mid + ("\"" + r)));
            x.Got? ==> x.item != Obj([(name, Obj([(op, Str(value))]))])
  {
    var more := mid + ("\"" + r);
    var inner := Quoted(value) + ("}" + ("}" + more));
    Assoc("}", mid, "\"" + r);
    Assoc("}", "}" + mid, "\"" + r);
    assert Filler("}" + mid);
    assert Filler("}" + ("}" + mid));
    StringMisread(value, "}" + ("}" + mid), r);
    MemberMisread(op, inner, Str(value));
    BlankMisread("{" + MemberText(op, inner), Obj([(op, Str(value))]));
    MemberMisread(name, " " + ("{" + MemberText(op, inner)), Obj([(op, Str(value))]));
    var m := MemberText(op, Quoted(value));
    Assoc("{", MemberText(name, " {" + (m + "}")) + "}", more);
    Assoc(MemberText(name, " {" + (m + "}")), "}", more);
    MemberTextExtends(name, " {" + (m + "}"), "}" + more);
    Assoc(" {", m + "}", "}" + more);
    Assoc(m, "}", "}" + more);
    MemberTextExtends(op, Quoted(value), "}" + ("}" + more));
    assert " {" == " " + "{";
    Assoc(" ", "{", MemberText(op, inner));
  }

  lemma ConditionMisread(c: Condition)
    requires PlainFrame(c) && !Plain(c.value)
    ensures Misread(Piece(ConditionText(c), Conjunct(c)))
  {
    forall mid: string, r: string | Filler(mid)
      ensures Value(ConditionText(c) + (mid + ("\"" + r))).Got? ==>
                Value(ConditionText(c) + (mid + ("\"" + r))).item != Conjunct(c)
    {
      if c.op == "" { EqMisread(c.name, c.value, mid, r); } else { CoMisread(c.name, c.op, c.value, mid, r); }
    }
  }

  predicate StartsObject(t: string) {
    |t| >= 2 && t[0] == '{' && t[1] == '"'
  }

  lemma {:induction false} ElementsHead(s: string)
    ensures Elements(s).Got? ==> Value(s).Got? && Elements(s).item != [] && Elements(s).item[0] == Value(s).item
  {
  }

  lemma {:induction false} StartOfJoin(ps: seq<Piece>, end: string)
    requires ps != [] && StartsObject(ps[0].text)
    ensures |Join(ps) + end| >= 2 && Join(ps) + end == "{" + ("\"" + (Join(ps) + end)[2..])
  {
    assert Join(ps)[..2] == ps[0].text[..2] == "{\"";
  }

  lemma {:induction false} MisreadAt(p: Piece, text: string, mid: string, r: string)
    requires Misread(p) && Filler(mid) && text == p.text + (mid + ("\"" + r))
    ensures Elements(text).Got? ==> Elements(text).item != [] && Elements(text).item[0] != p.json
  {
    ElementsHead(text);
  }

  lemma {:induction false} MisreadHeadSpoilsList(ps: seq<Piece>, end: string, r: string)
    requires ps != [] && Misread(ps[0]) && end == "]}," + ("\"" + r)
    requires forall i :: 0 <= i < |ps| ==> StartsObject(ps[i].text)
    ensures var x := Elements(Join(ps) + end); x.Got? ==> x.item != [] && x.item[0] != ps[0].json
  {
    var p := ps[0];
    if |ps| == 1 {
      assert Filler("]},");
      MisreadAt(p, Join(ps) + end, "]},", r);
    } else {
      var more := Join(ps[1..]) + end;
      StartOfJoin(ps[1..], end);
      assert Filler(",{");
      assert Join(ps) + end == p.text + ("," + more);
      assert "," + more == ",{" + ("\"" + more[2..]);
      MisreadAt(p, Join(ps) + end, ",{", more[2..]);
    }
  }

  /** One misread piece spoils the list, however the text goes on. */
  lemma {:induction false} MisreadSpoilsList(ps: seq<Piece>, k: nat, end: string, r: string)
    requires k < |ps| && Misread(ps[k]) && end == "]}," + ("\"" + r)
    requires forall i :: 0 <= i < k ==> Reads(ps[i].text, ps[i].json)
    requires forall i :: 0 <= i < |ps| ==> StartsObject(ps[i].text)
    ensures var x := Elements(Join(ps) + end); x.Got? ==> x.item != Jsons(ps)
    decreases |ps|
  {
    hide Value, Elements, Members;
    if k == 0 {
      MisreadHeadSpoilsList(ps, end, r);
      assert Jsons(ps)[0] == ps[0].json;
    } else {
      assert ps[1..][k - 1] == ps[k];
      MisreadSpoilsList(ps[1..], k - 1, end, r);
      MisreadTailSpoilsList(ps, end);
    }
  }

  lemma {:induction false} MisreadTailSpoilsList(ps: seq<Piece>, end: string)
    requires |ps| > 1 && Reads(ps[0].text, ps[0].json)
    requires var x := Elements(Join(ps[1..]) + end); x.Got? ==> x.item != Jsons(ps[1..])
    ensures var x := Elements(Join(ps) + end); x.Got? ==> x.item != Jsons(ps)
  {
    ReadHeadKeepsList(ps, end);
    PrependApart(ps[0].json, Elements(Join(ps[1..]) + end), Jsons(ps[1..]));
  }

  lemma {:induction false} PrependApart(j: Json, x: Read<seq<Json>>, js: seq<Json>)
    requires x.Got? ==> x.item != js
    ensures Prepend(j, x).Got? ==> Prepend(j, x).item != [j] + js
  {
    if x.Got? { assert ([j] + x.item)[1..] == x.item; }
    assert ([j] + js)[1..] == js;
  }

  lemma {:induction false} ReadHeadKeepsList(ps: seq<Piece>, end: string)
    requires |ps| > 1 && Reads(ps[0].text, ps[0].json)
    ensures Elements(Join(ps) + end) == Prepend(ps[0].json, Elements(Join(ps[1..]) + end))
    ensures Jsons(ps) == [ps[0].json] + Jsons(ps[1..])
  {
    var p, more := ps[0], Join(ps[1..]) + end;
    assert Join(ps) + end == p.text + ("," + more);
    assert Value(p.text + ("," + more)) == Got(p.json, "," + more);
    ElementsStep(Join(ps) + end, p.json, "," + more);
    assert ("," + more)[1..] == more;
  }

  // ---------------------------------------------------------------- the printed queries

  lemma {:induction false} KeptPiecesRead(cs: seq<Condition>)
    requires forall i :: 0 <= i < |cs| ==> PlainFrame(cs[i]) && Plain(cs[i].value)
    ensures AllRead(ConditionPieces(cs))
  {
    if cs != [] {
      KeptPiecesRead(cs[1..]);
      ConditionReads(cs[0]);
    }
  }

  lemma PiecesStartObjects(ps: seq<Piece>, qs: seq<Piece>)
    requires forall i :: 0 <= i < |ps| ==> StartsObject(ps[i].text)
    requires forall i :: 0 <= i < |qs| ==> StartsObject(qs[i].text)
    ensures forall i :: 0 <= i < |ps + qs| ==> StartsObject((ps + qs)[i].text)
  {
  }

  lemma {:induction false} ConditionsStartObjects(cs: seq<Condition>)
    ensures forall i :: 0 <= i < |ConditionPieces(cs)| ==> StartsObject(ConditionPieces(cs)[i].text)
  {
    if cs != [] {
      ConditionsStartObjects(cs[1..]);
    }
  }

  /** The position of the first piece that is misread. */
  lemma {:induction false} FirstMisread(cs: seq<Condition>) returns (k: nat)
    requires forall i :: 0 <= i < |cs| ==> PlainFrame(cs[i])
    requires exists i :: 0 <= i < |cs| && !Plain(cs[i].value)
    ensures k < |ConditionPieces(cs)| && Misread(ConditionPieces(cs)[k])
    ensures forall i :: 0 <= i < k ==> Reads(ConditionPieces(cs)[i].text, ConditionPieces(cs)[i].json)
  {
    var c, ps := cs[0], ConditionPieces(cs);
    if !Plain(c.value) {
      ConditionMisread(c);
      k := 0;
    } else {
      assert exists i :: 0 <= i < |cs[1..]| && !Plain(cs[1..][i].value) by {
        var i :| 0 <= i < |cs| && !Plain(cs[i].value);
        assert cs[1..][i - 1] == cs[i];
      }
      var j := FirstMisread(cs[1..]);
      if c.value == "" {
        assert ps == ConditionPieces(cs[1..]);
        k := j;
      } else {
        ConditionReads(c);
        k := j + 1;
      }
    }
  }

  lemma BaseStartsObjects(kind: ListKind)
    ensures forall i :: 0 <= i < |BasePieces(kind)| ==> StartsObject(BasePieces(kind)[i].text)
    ensures NotBracket(BasePieces(kind)[0].text)
  {
  }

  /** The selector is the first member of the query and "$and" its only one. */
  lemma MisreadListSpoilsQuery(ps: seq<Piece>, k: nat)
    requires k < |ps| && Misread(ps[k])
    requires forall i :: 0 <= i < k ==> Reads(ps[i].text, ps[i].json)
    requires forall i :: 0 <= i < |ps| ==> StartsObject(ps[i].text)
    ensures Parse(QueryText(ps)) != Some(QueryJson(ps))
  {
    var rest := "sort" + ("\"" + (":" + (" " + SORT_TEXT))) + ("," + (MemberText("use_index", " " + INDEX_TEXT) + "}"));
    var list := Join(ps) + ("]" + ("}" + AfterSelector()));
    FrameIsPlain();
    assert AfterSelector() == "," + ("\"" + rest) by { SortMember(rest); }
    var end := "]" + ("}" + AfterSelector());
    assert end == "]}," + ("\"" + rest);
    MisreadSpoilsList(ps, k, end, rest);
    assert NotBracket(list) by { assert Join(ps)[0] == ps[0].text[0]; }
    ArrayStep(list);
    var sel := "{" + MemberText("$and", "[" + list);
    MemberMisread("$and", "[" + list, Arr(Jsons(ps)));
    MemberMisread("selector", sel, Obj([("$and", Arr(Jsons(ps)))]));
    assert QueryText(ps) == "{" + MemberText("selector", sel) by {
      QueryTextIsObject(ps);
      SelectorExtends(Join(ps), AfterSelector());
    }
  }

  lemma SelectorExtends(list: string, more: string)
    ensures ("{" + (MemberText("$and", "[" + (list + "]")) + "}")) + more
        == "{" + MemberText("$and", "[" + (list + ("]" + ("}" + more))))
  {
    var m := MemberText("$and", "[" + (list + "]"));
    Assoc("{", m + "}", more);
    Assoc(m, "}", more);
    MemberTextExtends("$and", "[" + (list + "]"), "}" + more);
    Assoc("[", list + "]", "}" + more);
    Assoc(list, "]", "}" + more);
  }

  lemma SortMember(rest: string)
    requires rest == "sort" + ("\"" + (":" + (" " + SORT_TEXT)))
        + ("," + (MemberText("use_index", " " + INDEX_TEXT) + "}"))
    ensures AfterSelector() == "," + ("\"" + rest)
  {
    var value, more := ":" + (" " + SORT_TEXT), "," + (MemberText("use_index", " " + INDEX_TEXT) + "}");
    Assoc("\"", "sort" + "\"", value);
    Assoc("sort", "\"", value);
    Assoc("\"", "sort" + ("\"" + value), more);
  }

  lemma PieceJsons(kind: ListKind, q: QueryConditions)
    ensures QueryJson(Pieces(kind, q)) == IntendedQuery(kind, q)
  {
    JsonsOnConcat(BasePieces(kind), ConditionPieces(Conditions(q)));
    ConditionPiecesCarryConjuncts(Conditions(q));
    BaseJsons(kind);
  }

  lemma BaseJsons(kind: ListKind)
    ensures Jsons(BasePieces(kind)) == BaseConjuncts(kind)
  {
    match kind
    case DeletedList => OneJson(BasePieces(kind)[0]);
    case OpenList => ThreeJsons(BasePieces(kind));
    case DraftList => ThreeJsons(BasePieces(kind));
  }

  lemma OneJson(p: Piece)
    ensures Jsons([p]) == [p.json]
  {
    assert Jsons([p]) == [p.json] + Jsons([]);
  }

  lemma {:induction false} ThreeJsons(ps: seq<Piece>)
    requires |ps| == 3
    ensures Jsons(ps) == [ps[0].json, ps[1].json, ps[2].json]
  {
    assert ps == [ps[0]] + ([ps[1]] + [ps[2]]);
    JsonsOnConcat([ps[0]], [ps[1]] + [ps[2]]);
    JsonsOnConcat([ps[1]], [ps[2]]);
    OneJson(ps[0]);
    OneJson(ps[1]);
    OneJson(ps[2]);
  }

  lemma {:induction false} PlainQueryReads(base: seq<Piece>, cs: seq<Condition>)
    requires base != [] && AllRead(base) && NotBracket(base[0].text)
    requires forall i :: 0 <= i < |cs| ==> PlainFrame(cs[i]) && Plain(cs[i].value)
    ensures Parse(QueryText(base + ConditionPieces(cs))) == Some(QueryJson(base + ConditionPieces(cs)))
  {
    KeptPiecesRead(cs);
    QueryTextReads(base + ConditionPieces(cs));
  }

  lemma {:induction false} SpoiledQueryMisread(base: seq<Piece>, cs: seq<Condition>)
    requires AllRead(base)
    requires forall i :: 0 <= i < |base| ==> StartsObject(base[i].text)
    requires forall i :: 0 <= i < |cs| ==> PlainFrame(cs[i])
    requires exists i :: 0 <= i < |cs| && !Plain(cs[i].value)
    ensures Parse(QueryText(base + ConditionPieces(cs))) != Some(QueryJson(base + ConditionPieces(cs)))
  {
    hide Value, Elements, Members, Parse;
    var ps := base + ConditionPieces(cs);
    var k := FirstMisread(cs);
    ConditionsStartObjects(cs);
    PiecesStartObjects(base, ConditionPieces(cs));
    assert ps[|base| + k] == ConditionPieces(cs)[k];
    forall i | 0 <= i < |base| + k
      ensures Reads(ps[i].text, ps[i].json)
    {
      if i < |base| {
        assert ps[i] == base[i];
      } else {
        assert ps[i] == ConditionPieces(cs)[i - |base|];
      }
    }
    MisreadListSpoilsQuery(ps, |base| + k);
  }

  /** The printed query is JSON and says what was asked for, conjunct by conjunct, exactly
      when every stripped condition is free of quotes, backslashes and control characters. */
  lemma PrintedQuerySaysIntended(kind: ListKind, q: QueryConditions)
    ensures Parse(EditQueryString(BaseQuery(kind), q)) == Some(IntendedQuery(kind, q)) <==> PlainConditions(q)
  {
    var base, cs := BasePieces(kind), Conditions(q);
    PrintedIsJoined(kind, q);
    PieceJsons(kind, q);
    BasePiecesRead(kind);
    BaseStartsObjects(kind);
    ConditionsArePlain(q);
    if PlainConditions(q) {
      forall i | 0 <= i < |cs| ensures Plain(cs[i].value) { assert cs[i] in cs; }
      PlainQueryReads(base, cs);
    } else {
      var c :| c in cs && !Plain(c.value);
      SpoiledQueryMisread(base, cs);
    }
  }
}
