/** A reader for JSON texts after section 2 of RFC 8259, written without any regard to who
    printed the text, and what it makes of texts that are put together from readable pieces. */
module Json {
  import opened Text

  datatype Json =
    | Null
    | Bool(b: bool)
    | Number(digits: string)
    | Str(s: string)
    | Arr(elems: seq<Json>)
    | Obj(members: seq<(string, Json)>)

  /** The item at the head of a text and the text after it. */
  datatype Read<+T> = Fail | Got(item: T, rest: string)

  // ---------------------------------------------------------------- tokens

  /** Drops leading insignificant whitespace. */
  function Skip(s: string): (r: string)
    ensures |r| <= |s|
  {
    if s != [] && (s[0] == ' ' || s[0] == '\t' || s[0] == '\n' || s[0] == '\r') then Skip(s[1..]) else s
  }

  /** Characters that stand for themselves inside a JSON string. */
  predicate PlainChar(c: char) {
    c != '"' && c != '\\' && ' ' <= c
  }

  predicate Plain(s: string) {
    forall i :: 0 <= i < |s| ==> PlainChar(s[i])
  }

  lemma PlainByHead(s: string)
    requires s != []
    ensures Plain(s) <==> PlainChar(s[0]) && Plain(s[1..])
  {
    forall i | 0 < i < |s| ensures s[1..][i - 1] == s[i] {}
  }

  predicate HexDigit(c: char) {
    '0' <= c <= '9' || 'a' <= c <= 'f' || 'A' <= c <= 'F'
  }

  function HexValue(c: char): (n: nat)
    requires HexDigit(c)
    ensures n < 16
  {
    if c <= '9' then c as int - '0' as int
    else if c <= 'F' then c as int - 'A' as int + 10
    else c as int - 'a' as int + 10
  }

  /** The character of a "\uXXXX" escape; a surrogate half is read as U+FFFD. */
  function CodeUnit(a: char, b: char, c: char, d: char): char
    requires HexDigit(a) && HexDigit(b) && HexDigit(c) && HexDigit(d)
  {
    var n := HexValue(a) * 4096 + HexValue(b) * 256 + HexValue(c) * 16 + HexValue(d);
    if 0xD800 <= n < 0xE000 then '\U{FFFD}' else n as char
  }

  /** The two-character escapes. */
  function Escape(c: char): Option<char> {
    match c
    case '"' => Some('"')
    case '\\' => Some('\\')
    case '/' => Some('/')
    case 'b' => Some('\U{8}')
    case 'f' => Some('\U{C}')
    case 'n' => Some('\n')
    case 'r' => Some('\r')
    case 't' => Some('\t')
    case _ => None
  }

  function Prepend<T>(x: T, r: Read<seq<T>>): Read<seq<T>> {
    if r.Fail? then Fail else Got([x] + r.item, r.rest)
  }

  /** The contents of a string whose opening quote has been read. */
  function Chars(s: string): (r: Read<string>)
    ensures r.Got? ==> |r.rest| < |s|
  {
    if s == [] || s[0] < ' ' then Fail
    else if s[0] == '"' then Got([], s[1..])
    else if s[0] != '\\' then Prepend(s[0], Chars(s[1..]))
    else if |s| >= 6 && s[1] == 'u' && HexDigit(s[2]) && HexDigit(s[3]) && HexDigit(s[4]) && HexDigit(s[5]) then
      Prepend(CodeUnit(s[2], s[3], s[4], s[5]), Chars(s[6..]))
    else if |s| >= 2 && Escape(s[1]).Some? then
      Prepend(Escape(s[1]).value, Chars(s[2..]))
    else Fail
  }

  function Digits(s: string): (n: nat)
    ensures n <= |s|
  {
    if s != [] && '0' <= s[0] <= '9' then 1 + Digits(s[1..]) else 0
  }

  /** Length of the number at the head of `s`, 0 when there is none (section 6). */
  function NumberLength(s: string): (n: nat)
    ensures n <= |s|
  {
    var sign := if s != [] && s[0] == '-' then 1 else 0;
    var whole := if sign < |s| && s[sign] == '0' then 1 else Digits(s[sign..]);
    if whole == 0 then 0 else
    var a := sign + whole;
    var frac := if a < |s| && s[a] == '.' && Digits(s[a + 1..]) > 0 then 1 + Digits(s[a + 1..]) else 0;
    var b := a + frac;
    var exp := if b < |s| && (s[b] == 'e' || s[b] == 'E') then
                 (if b + 1 < |s| && (s[b + 1] == '+' || s[b + 1] == '-') then 2 else 1) else 0;
    if exp > 0 && Digits(s[b + exp..]) > 0 then b + exp + Digits(s[b + exp..]) else b
  }

  // ---------------------------------------------------------------- values

  function Value(s: string): (r: Read<Json>)
    ensures r.Got? ==> |r.rest| < |s|
    decreases |s|, 0
  {
    var t := Skip(s);
    if t == [] then Fail
    else if t[0] == '"' then
      (match Chars(t[1..]) case Fail => Fail case Got(w, rest) => Got(Str(w), rest))
    else if t[0] == '[' then
      var u := Skip(t[1..]);
      if u != [] && u[0] == ']' then Got(Arr([]), u[1..])
      else (match Elements(t[1..]) case Fail => Fail case Got(es, rest) => Got(Arr(es), rest))
    else if t[0] == '{' then
      var u := Skip(t[1..]);
      if u != [] && u[0] == '}' then Got(Obj([]), u[1..])
      else (match Members(t[1..]) case Fail => Fail case Got(ms, rest) => Got(Obj(ms), rest))
    else if "true" <= t then Got(Bool(true), t[4..])
    else if "false" <= t then Got(Bool(false), t[5..])
    else if "null" <= t then Got(Null, t[4..])
    else if NumberLength(t) > 0 then Got(Number(t[..NumberLength(t)]), t[NumberLength(t)..])
    else Fail
  }

  /** One or more values separated by commas, up to the closing bracket. */
  function Elements(s: string): (r: Read<seq<Json>>)
    ensures r.Got? ==> |r.rest| < |s|
    decreases |s|, 1
  {
    var v := Value(s);
    if v.Fail? then Fail else
    var t := Skip(v.rest);
    if t != [] && t[0] == ']' then Got([v.item], t[1..])
    else if t != [] && t[0] == ',' then Prepend(v.item, Elements(t[1..]))
    else Fail
  }

  /** One or more members separated by commas, up to the closing brace. */
  function Members(s: string): (r: Read<seq<(string, Json)>>)
    ensures r.Got? ==> |r.rest| < |s|
    decreases |s|, 1
  {
    var t := Skip(s);
    if t == [] || t[0] != '"' then Fail else
    var name := Chars(t[1..]);
    if name.Fail? then Fail else
    var u := Skip(name.rest);
    if u == [] || u[0] != ':' then Fail else
    var v := Value(u[1..]);
    if v.Fail? then Fail else
    var w := Skip(v.rest);
    if w != [] && w[0] == '}' then Got([(name.item, v.item)], w[1..])
    else if w != [] && w[0] == ',' then Prepend((name.item, v.item), Members(w[1..]))
    else Fail
  }

  /** A JSON text is one value and nothing but whitespace after it. */
  function Parse(s: string): Option<Json> {
    match Value(s)
    case Fail => None
    case Got(j, rest) => if Skip(rest) == [] then Some(j) else None
  }

  // ---------------------------------------------------------------- readable pieces

  /** Whatever follows it, `text` is read as `j`, and exactly `text` is consumed. */
  ghost predicate Reads(text: string, j: Json) {
    forall rest: string :: Value(text + rest) == Got(j, rest)
  }

  datatype Piece = Piece(text: string, json: Json)

  function Quoted(v: string): string {
    "\"" + (v + "\"")
  }

  function MemberText(name: string, text: string): string {
    Quoted(name) + (":" + text)
  }

  /** Texts of the pieces, separated by commas. */
  function Join(ps: seq<Piece>): string {
    if ps == [] then [] else if |ps| == 1 then ps[0].text else ps[0].text + ("," + Join(ps[1..]))
  }

  function Jsons(ps: seq<Piece>): (js: seq<Json>)
    ensures |js| == |ps|
  {
    if ps == [] then [] else [ps[0].json] + Jsons(ps[1..])
  }

  ghost predicate AllRead(ps: seq<Piece>) {
    forall i :: 0 <= i < |ps| ==> Reads(ps[i].text, ps[i].json)
  }

  lemma {:induction false} PlainCharsAreKept(v: string, rest: string)
    requires Plain(v)
    ensures Chars(v + ("\"" + rest)) == Got(v, rest)
    decreases |v|
  {
    var s := v + ("\"" + rest);
    if v == [] {
      assert s == "\"" + rest && s[1..] == rest;
    } else {
      PlainByHead(v);
      assert s[0] == v[0];
      assert s[1..] == v[1..] + ("\"" + rest);
      PlainCharsAreKept(v[1..], rest);
      assert [v[0]] + v[1..] == v;
    }
  }

  /** A string token is read back as the value between its quotes only if that value is
      plain. What follows the closing quote matters when `v` ends in a backslash: then the
      string goes on to the next quote. */
  lemma {:induction false} OnlyPlainCharsAreKept(v: string, mid: string, rest: string)
    requires mid != [] && Plain(mid)
    ensures var r := Chars(v + ("\"" + (mid + ("\"" + rest))));
            r.Got? ==>
              || (Plain(v) && r.item == v)
              || |r.item| < |v|
              || (v != [] && v[|v| - 1] == '\\' && r.item != [] && r.item[|r.item| - 1] == mid[|mid| - 1])
    decreases |v|, 2
  {
    var tail := "\"" + (mid + ("\"" + rest));
    var s := v + tail;
    if v == [] {
      assert s == tail;
    } else if PlainChar(v[0]) {
      PlainByHead(v);
      assert s[0] == v[0] && s[1..] == v[1..] + tail;
      OnlyPlainCharsAreKept(v[1..], mid, rest);
      assert v == [v[0]] + v[1..];
      assert Chars(s) == Prepend(v[0], Chars(s[1..]));
    } else if v[0] != '\\' {
      assert s[0] == v[0];
    } else {
      OnlyPlainAfterBackslash(v, mid, rest);
    }
  }

  /** The case of a leading escape, which is always shorter once it has been read. */
  lemma {:induction false} OnlyPlainAfterBackslash(v: string, mid: string, rest: string)
    requires mid != [] && Plain(mid) && v != [] && v[0] == '\\'
    ensures var r := Chars(v + ("\"" + (mid + ("\"" + rest))));
            r.Got? ==>
              || |r.item| < |v|
              || (v[|v| - 1] == '\\' && r.item != [] && r.item[|r.item| - 1] == mid[|mid| - 1])
    decreases |v|, 1
  {
    var tail := "\"" + (mid + ("\"" + rest));
    var s := v + tail;
    assert s[0] == '\\' && s[|v|] == '"';
    if |v| == 1 {
      assert s[1] == '"' && s[2..] == mid + ("\"" + rest);
      PlainCharsAreKept(mid, rest);
      assert Chars(s) == Prepend('"', Chars(s[2..]));
    } else if v[1] == 'u' {
      OnlyPlainAfterUnicode(v, mid, rest);
    } else {
      assert s[1] == v[1] && s[2..] == v[2..] + tail;
      OnlyPlainCharsAreKept(v[2..], mid, rest);
      EscapeStep(s);
    }
  }

  lemma {:induction false} EscapeStep(s: string)
    requires |s| >= 2 && s[0] == '\\' && s[1] != 'u'
    ensures Chars(s) == if Escape(s[1]).None? then Fail else Prepend(Escape(s[1]).value, Chars(s[2..]))
  {
  }

  lemma {:induction false} OnlyPlainAfterUnicode(v: string, mid: string, rest: string)
    requires mid != [] && Plain(mid) && |v| >= 2 && v[0] == '\\' && v[1] == 'u'
    ensures var r := Chars(v + ("\"" + (mid + ("\"" + rest))));
            r.Got? ==>
              || |r.item| < |v|
              || (v[|v| - 1] == '\\' && r.item != [] && r.item[|r.item| - 1] == mid[|mid| - 1])
    decreases |v|, 0
  {
    var tail := "\"" + (mid + ("\"" + rest));
    var s := v + tail;
    assert s[0] == '\\' && s[1] == 'u' && s[|v|] == '"';
    if |v| >= 6 {
      assert s[6..] == v[6..] + tail;
      OnlyPlainCharsAreKept(v[6..], mid, rest);
    }
  }

  lemma StringReads(v: string)
    requires Plain(v)
    ensures Reads(Quoted(v), Str(v))
  {
    forall rest: string
      ensures Value(Quoted(v) + rest) == Got(Str(v), rest)
    {
      var t := Quoted(v) + rest;
      assert Skip(t) == t && t[1..] == v + ("\"" + rest);
      PlainCharsAreKept(v, rest);
    }
  }

  lemma BoolReads(b: bool)
    ensures Reads(if b then "true" else "false", Bool(b))
  {
    var w := if b then "true" else "false";
    forall rest: string
      ensures Value(w + rest) == Got(Bool(b), rest)
    {
      var t := w + rest;
      assert t[0] == w[0];
      assert Skip(t) == t && w <= t && t[|w|..] == rest;
      assert b ==> "true" <= t;
      assert !b ==> !("true" <= t) && "false" <= t;
    }
  }

  /** A blank before a value does not matter. */
  lemma {:induction false} BlankIsSkipped(s: string)
    ensures Value(" " + s) == Value(s)
  {
    assert (" " + s)[1..] == s;
    assert Skip(" " + s) == Skip(s);
  }

  lemma BlankBeforeValue(text: string, j: Json)
    requires Reads(text, j)
    ensures Reads(" " + text, j)
  {
    hide Value;
    forall rest: string
      ensures Value(" " + text + rest) == Got(j, rest)
    {
      assert " " + text + rest == " " + (text + rest);
      BlankIsSkipped(text + rest);
    }
  }

  /** Reading a list one value at a time. */
  lemma {:induction false} ElementsStep(s: string, j: Json, rest: string)
    requires Value(s) == Got(j, rest)
    ensures rest != [] && rest[0] == ']' ==> Elements(s) == Got([j], rest[1..])
    ensures rest != [] && rest[0] == ',' ==>
              Elements(s) == Prepend(j, Elements(rest[1..]))
  {
  }

  lemma {:induction false} ElementsRead(ps: seq<Piece>, rest: string)
    requires ps != [] && AllRead(ps)
    ensures Elements(Join(ps) + ("]" + rest)) == Got(Jsons(ps), rest)
    decreases |ps|
  {
    var head := ps[0];
    if |ps| == 1 {
      assert Value(head.text + ("]" + rest)) == Got(head.json, "]" + rest);
      ElementsStep(head.text + ("]" + rest), head.json, "]" + rest);
      assert Jsons(ps) == [head.json] + Jsons(ps[1..]) == [head.json];
      assert ("]" + rest)[1..] == rest;
    } else {
      var more := Join(ps[1..]) + ("]" + rest);
      assert Join(ps) + ("]" + rest) == head.text + ("," + more);
      assert Value(head.text + ("," + more)) == Got(head.json, "," + more);
      assert ("," + more)[1..] == more;
      ElementsStep(head.text + ("," + more), head.json, "," + more);
      ElementsRead(ps[1..], rest);
    }
  }

  /** The text starts with something that is neither whitespace nor a closing bracket. */
  predicate NotBracket(s: string) {
    s != [] && s[0] in {'"', '{', '['}
  }

  /** A non-empty array text starts with its first element. */
  lemma {:induction false} ArrayStep(s: string)
    requires NotBracket(s)
    ensures Value("[" + s) == if Elements(s).Fail? then Fail else Got(Arr(Elements(s).item), Elements(s).rest)
  {
    var t := "[" + s;
    assert Skip(t) == t && t[1..] == s && Skip(s) == s;
  }

  lemma {:induction false} ArrayReadsAt(body: string, es: seq<Json>, rest: string)
    requires NotBracket(body) && Elements(body + ("]" + rest)) == Got(es, rest)
    ensures Value("[" + (body + "]") + rest) == Got(Arr(es), rest)
  {
    assert "[" + (body + "]") + rest == "[" + (body + ("]" + rest));
    ArrayStep(body + ("]" + rest));
  }

  lemma {:induction false} ArrayReads(ps: seq<Piece>)
    requires ps != [] && AllRead(ps) && NotBracket(ps[0].text)
    ensures Reads("[" + (Join(ps) + "]"), Arr(Jsons(ps)))
  {
    var body := Join(ps);
    assert NotBracket(body) by { assert body[0] == ps[0].text[0]; }
    forall rest: string
      ensures Value("[" + (body + "]") + rest) == Got(Arr(Jsons(ps)), rest)
    {
      ElementsRead(ps, rest);
      ArrayReadsAt(body, Jsons(ps), rest);
    }
  }

  /** Reading a member whose name is plain: the name is kept and the value is read next. */
  lemma {:induction false} MemberStep(name: string, text: string, s: string)
    requires Plain(name) && s == MemberText(name, text)
    ensures Value(text).Fail? ==> Members(s).Fail?
    ensures Value(text).Got? ==>
              var j, w := Value(text).item, Skip(Value(text).rest);
              && (w != [] && w[0] == '}' ==> Members(s) == Got([(name, j)], w[1..]))
              && (w != [] && w[0] == ',' ==> Members(s) == Prepend((name, j), Members(w[1..])))
              && (Members(s).Got? ==> Members(s).item != [] && Members(s).item[0] == (name, j))
  {
    assert Skip(s) == s && s[1..] == name + ("\"" + (":" + text));
    PlainCharsAreKept(name, ":" + text);
    assert (":" + text)[1..] == text;
  }

  /** An object text starts with its first member. */
  lemma ObjectStep(name: string, text: string)
    requires Plain(name)
    ensures var s := MemberText(name, text);
            Value("{" + s) == if Members(s).Fail? then Fail else Got(Obj(Members(s).item), Members(s).rest)
  {
    var s := MemberText(name, text);
    var t := "{" + s;
    assert Skip(t) == t && t[1..] == s && s[0] == '"' && Skip(s) == s;
  }

  datatype Field = Field(name: string, text: string, json: Json)

  function JoinFields(fs: seq<Field>): string {
    if fs == [] then []
    else if |fs| == 1 then MemberText(fs[0].name, fs[0].text)
    else MemberText(fs[0].name, fs[0].text) + ("," + JoinFields(fs[1..]))
  }

  function FieldJsons(fs: seq<Field>): (ms: seq<(string, Json)>) {
    if fs == [] then [] else [(fs[0].name, fs[0].json)] + FieldJsons(fs[1..])
  }

  ghost predicate AllFieldsRead(fs: seq<Field>) {
    forall i :: 0 <= i < |fs| ==> Plain(fs[i].name) && Reads(fs[i].text, fs[i].json)
  }

  /** What follows the first field of an object text. */
  function AfterFirst(fs: seq<Field>, rest: string): string
    requires fs != []
  {
    if |fs| == 1 then "}" + rest else "," + (JoinFields(fs[1..]) + ("}" + rest))
  }

  lemma MemberTextExtends(name: string, text: string, more: string)
    ensures MemberText(name, text) + more == MemberText(name, text + more)
  {
    assert (":" + text) + more == ":" + (text + more);
  }

  lemma {:induction false} FirstField(fs: seq<Field>, rest: string)
    requires fs != []
    ensures JoinFields(fs) + ("}" + rest) == MemberText(fs[0].name, fs[0].text + AfterFirst(fs, rest))
  {
    MemberTextExtends(fs[0].name, fs[0].text, AfterFirst(fs, rest));
    if |fs| > 1 {
      var m, j, e := MemberText(fs[0].name, fs[0].text), JoinFields(fs[1..]), "}" + rest;
      assert (m + ("," + j)) + e == m + ("," + (j + e));
    }
  }

  lemma {:induction false} FieldsRead(fs: seq<Field>, rest: string)
    requires fs != [] && AllFieldsRead(fs)
    ensures Members(JoinFields(fs) + ("}" + rest)) == Got(FieldJsons(fs), rest)
    decreases |fs|
  {
    var f, more := fs[0], AfterFirst(fs, rest);
    var s := JoinFields(fs) + ("}" + rest);
    assert Value(f.text + more) == Got(f.json, more) by {
      assert Reads(f.text, f.json);
    }
    FirstField(fs, rest);
    MemberStep(f.name, f.text + more, s);
    assert Skip(more) == more;
    if |fs| == 1 {
      assert FieldJsons(fs) == [(f.name, f.json)] + FieldJsons(fs[1..]) == [(f.name, f.json)];
      assert more[1..] == rest;
    } else {
      assert more[1..] == JoinFields(fs[1..]) + ("}" + rest);
      FieldsRead(fs[1..], rest);
    }
  }

  lemma {:induction false} ObjectReadsAt(name: string, text: string, s: string, ms: seq<(string, Json)>, rest: string)
    requires Plain(name) && s + ("}" + rest) == MemberText(name, text)
    requires Members(s + ("}" + rest)) == Got(ms, rest)
    ensures Value("{" + (s + "}") + rest) == Got(Obj(ms), rest)
  {
    assert "{" + (s + "}") + rest == "{" + (s + ("}" + rest));
    ObjectStep(name, text);
  }

  lemma {:induction false} ObjectReads(fs: seq<Field>)
    requires fs != [] && AllFieldsRead(fs)
    ensures Reads("{" + (JoinFields(fs) + "}"), Obj(FieldJsons(fs)))
  {
    forall rest: string
      ensures Value("{" + (JoinFields(fs) + "}") + rest) == Got(Obj(FieldJsons(fs)), rest)
    {
      FieldsRead(fs, rest);
      FirstField(fs, rest);
      ObjectReadsAt(fs[0].name, fs[0].text + AfterFirst(fs, rest), JoinFields(fs), FieldJsons(fs), rest);
    }
  }
}
