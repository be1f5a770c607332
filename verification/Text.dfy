/** Text as the list query sees it: code-point order on strings, and the stripping that
    every query condition goes through. */
module Text {

  datatype Option<+T> = None | Some(value: T)

  /** Strict lexicographic order by code point; a proper prefix comes first. */
  predicate Less(a: string, b: string) {
    b != [] && (a == [] || a[0] < b[0] || (a[0] == b[0] && Less(a[1..], b[1..])))
  }

  /** Strings are totally ordered: exactly one of the three relations holds. */
  lemma {:induction false} LessIsTotal(a: string, b: string)
    ensures Less(a, b) || Less(b, a) || a == b
    ensures !(Less(a, b) && Less(b, a))
    ensures !Less(a, a)
    decreases |a|
  {
    if a != [] {
      LessIsTotal(a[1..], a[1..]);
      if b != [] {
        LessIsTotal(a[1..], b[1..]);
        assert a == [a[0]] + a[1..] && b == [b[0]] + b[1..];
      }
    }
  }

  lemma {:induction false} LessIsTransitive(a: string, b: string, c: string)
    requires Less(a, b) && Less(b, c)
    ensures Less(a, c)
    decreases |a|
  {
    if a != [] && a[0] == b[0] == c[0] {
      LessIsTransitive(a[1..], b[1..], c[1..]);
    }
  }

  /** Heads of equal length decide the order of two concatenations before their tails do. */
  lemma {:induction false} LessOnConcat(a: string, b: string, x: string, y: string)
    requires |a| == |b|
    ensures Less(a + x, b + y) <==> Less(a, b) || (a == b && Less(x, y))
    decreases |a|
  {
    if a == [] {
      assert a + x == x && b + y == y;
    } else {
      LessOnConcat(a[1..], b[1..], x, y);
      assert (a + x)[1..] == a[1..] + x && (b + y)[1..] == b[1..] + y;
      assert a == [a[0]] + a[1..] && b == [b[0]] + b[1..];
    }
  }

  /** `s` without any `c`. */
  function Remove(s: string, c: char): (r: string)
    ensures c !in r
    ensures forall d :: d in r ==> d in s
  {
    if s == [] then [] else (if s[0] == c then [] else [s[0]]) + Remove(s[1..], c)
  }

  /** A query condition loses its spaces and line feeds, nothing else. */
  function Strip(s: string): (r: string)
    ensures ' ' !in r && '\n' !in r
    ensures forall d :: d in r ==> d in s
  {
    Remove(Remove(s, ' '), '\n')
  }

  lemma {:induction false} RemoveKeeps(s: string, c: char)
    requires c !in s
    ensures Remove(s, c) == s
  {
    if s != [] {
      RemoveKeeps(s[1..], c);
      assert s == [s[0]] + s[1..];
    }
  }

  /** Letter by letter: a blank or a line feed goes, any other letter stays where it is. */
  lemma {:induction false} StripDropsBlanks(s: string, c: char, t: string)
    ensures Strip(s + [c] + t) == Strip(s) + (if c == ' ' || c == '\n' then [] else [c]) + Strip(t)
    ensures Strip([]) == []
  {
    RemoveOnConcat(s + [c], t, ' ');
    RemoveOnConcat(s, [c], ' ');
    var a, m, b := Remove(s, ' '), Remove([c], ' '), Remove(t, ' ');
    RemoveOnConcat(a + m, b, '\n');
    RemoveOnConcat(a, m, '\n');
    assert [c][1..] == [];
    assert m == if c == ' ' then [] else [c];
  }

  lemma {:induction false} RemoveOnConcat(s: string, t: string, c: char)
    ensures Remove(s + t, c) == Remove(s, c) + Remove(t, c)
    decreases |s|
  {
    if s == [] {
      assert s + t == t;
    } else {
      RemoveOnConcat(s[1..], t, c);
      assert (s + t)[1..] == s[1..] + t && (s + t)[0] == s[0];
      var head := if s[0] == c then [] else [s[0]];
      assert Remove(s + t, c) == head + Remove((s + t)[1..], c);
      assert head + (Remove(s[1..], c) + Remove(t, c)) == (head + Remove(s[1..], c)) + Remove(t, c);
    }
  }
}
