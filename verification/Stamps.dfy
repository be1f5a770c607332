/** The update stamps that the chaincode writes ("2006-01-02 15:04:05") and what their
    string order means for the newest-first sort and for the date bounds of a query. */
module Stamps {
  import opened Text

  datatype Moment = Moment(year: nat, month: nat, day: nat, hour: nat, minute: nat, second: nat) {
    /** The calendar ranges that a four-digit year and two-digit fields can print. */
    predicate Valid() {
      year <= 9999 && 1 <= month <= 12 && 1 <= day <= 31 && hour < 24 && minute < 60 && second < 60
    }
  }

  predicate EarlierDay(a: Moment, b: Moment) {
    || a.year < b.year
    || (a.year == b.year && a.month < b.month)
    || (a.year == b.year && a.month == b.month && a.day < b.day)
  }

  predicate SameDay(a: Moment, b: Moment) {
    a.year == b.year && a.month == b.month && a.day == b.day
  }

  /** Chronological order. */
  predicate Earlier(a: Moment, b: Moment) {
    || EarlierDay(a, b)
    || (SameDay(a, b) &&
        (a.hour < b.hour
         || (a.hour == b.hour && a.minute < b.minute)
         || (a.hour == b.hour && a.minute == b.minute && a.second < b.second)))
  }

  function Digit(n: nat): char
    requires n < 10
  {
    ('0' as int + n) as char
  }

  function Two(n: nat): (s: string)
    requires n < 100
    ensures |s| == 2
  {
    [Digit(n / 10), Digit(n % 10)]
  }

  function Four(n: nat): (s: string)
    requires n < 10000
    ensures |s| == 4
  {
    Two(n / 100) + Two(n % 100)
  }

  /** The first ten characters of a stamp. */
  function FormatDay(m: Moment): (s: string)
    requires m.Valid()
    ensures |s| == 10
  {
    Four(m.year) + ("-" + (Two(m.month) + ("-" + Two(m.day))))
  }

  function FormatTime(m: Moment): (s: string)
    requires m.Valid()
    ensures |s| == 8
  {
    Two(m.hour) + (":" + (Two(m.minute) + (":" + Two(m.second))))
  }

  function Format(m: Moment): (s: string)
    requires m.Valid()
    ensures |s| == 19 && s[..10] == FormatDay(m)
  {
    FormatDay(m) + (" " + FormatTime(m))
  }

  lemma TwoKeepsOrder(m: nat, n: nat)
    requires m < 100 && n < 100
    ensures Less(Two(m), Two(n)) <==> m < n
    ensures Two(m) == Two(n) <==> m == n
  {
    assert Two(m)[1..] == [Digit(m % 10)] && Two(n)[1..] == [Digit(n % 10)];
    assert Two(m)[0] == Digit(m / 10) && Two(n)[0] == Digit(n / 10);
    assert Two(m)[1] == Digit(m % 10) && Two(n)[1] == Digit(n % 10);
    assert m == m / 10 * 10 + m % 10 && n == n / 10 * 10 + n % 10;
    assert Less(Two(m)[1..], Two(n)[1..]) <==> m % 10 < n % 10;
  }

  lemma FourKeepsOrder(m: nat, n: nat)
    requires m < 10000 && n < 10000
    ensures Less(Four(m), Four(n)) <==> m < n
    ensures Four(m) == Four(n) <==> m == n
  {
    LessOnConcat(Two(m / 100), Two(n / 100), Two(m % 100), Two(n % 100));
    TwoKeepsOrder(m / 100, n / 100);
    TwoKeepsOrder(m % 100, n % 100);
    assert Four(m)[..2] == Two(m / 100) && Four(n)[..2] == Two(n / 100);
    assert Four(m)[2..] == Two(m % 100) && Four(n)[2..] == Two(n % 100);
  }

  /** A head of fixed width, a separator, a tail: the order is decided head first. */
  lemma {:induction false} FieldThenRest(a: string, b: string, sep: string, x: string, y: string)
    requires |a| == |b|
    ensures Less(a + (sep + x), b + (sep + y)) <==> Less(a, b) || (a == b && Less(x, y))
    ensures a + (sep + x) == b + (sep + y) <==> a == b && x == y
  {
    hide Less;
    LessOnConcat(a, b, sep + x, sep + y);
    LessOnConcat(sep, sep, x, y);
    LessIsTotal(sep, sep);
    SameParts(a, b, sep + x, sep + y);
    SameParts(sep, sep, x, y);
  }

  lemma {:induction false} SameParts(a: string, b: string, x: string, y: string)
    requires |a| == |b|
    ensures a + x == b + y <==> a == b && x == y
  {
    assert (a + x)[..|a|] == a && (b + y)[..|b|] == b;
    assert (a + x)[|a|..] == x && (b + y)[|b|..] == y;
  }

  lemma DaysKeepOrder(a: Moment, b: Moment)
    requires a.Valid() && b.Valid()
    ensures Less(FormatDay(a), FormatDay(b)) <==> EarlierDay(a, b)
    ensures FormatDay(a) == FormatDay(b) <==> SameDay(a, b)
  {
    FieldThenRest(Four(a.year), Four(b.year), "-", Two(a.month) + ("-" + Two(a.day)),
                  Two(b.month) + ("-" + Two(b.day)));
    FieldThenRest(Two(a.month), Two(b.month), "-", Two(a.day), Two(b.day));
    FourKeepsOrder(a.year, b.year);
    TwoKeepsOrder(a.month, b.month);
    TwoKeepsOrder(a.day, b.day);
  }

  /** The string sort of the store is the chronological sort: the smaller stamp is the
      earlier moment, and equal stamps are the same second. */
  lemma StampsKeepOrder(a: Moment, b: Moment)
    requires a.Valid() && b.Valid()
    ensures Less(Format(a), Format(b)) <==> Earlier(a, b)
    ensures Format(a) == Format(b) <==> a == b
  {
    DaysKeepOrder(a, b);
    FieldThenRest(FormatDay(a), FormatDay(b), " ", FormatTime(a), FormatTime(b));
    FieldThenRest(Two(a.hour), Two(b.hour), ":", Two(a.minute) + (":" + Two(a.second)),
                  Two(b.minute) + (":" + Two(b.second)));
    FieldThenRest(Two(a.minute), Two(b.minute), ":", Two(a.second), Two(b.second));
    TwoKeepsOrder(a.hour, b.hour);
    TwoKeepsOrder(a.minute, b.minute);
    TwoKeepsOrder(a.second, b.second);
  }

  /** Neither half of a stamp holds a blank. */
  lemma HalvesHoldNoBlank(m: Moment)
    requires m.Valid()
    ensures forall c :: c in FormatDay(m) || c in FormatTime(m) ==> c != ' ' && c != '\n'
  {
    forall n: nat, c | n < 100 && c in Two(n)
      ensures c != ' ' && c != '\n'
    {
      assert c == Digit(n / 10) || c == Digit(n % 10);
    }
  }

  lemma StripKeepsDay(d: Moment)
    requires d.Valid()
    ensures Strip(FormatDay(d)) == FormatDay(d)
  {
    HalvesHoldNoBlank(d);
    RemoveKeeps(FormatDay(d), ' ');
    RemoveKeeps(FormatDay(d), '\n');
  }

  /** A bound given as a day alone: "$gte" keeps exactly the stamps of that day or later,
      "$lte" exactly those of an earlier day, so an end day itself is left out. */
  lemma DayBounds(stamp: Moment, bound: Moment)
    requires stamp.Valid() && bound.Valid()
    ensures !Less(Format(stamp), Strip(FormatDay(bound))) <==> !EarlierDay(stamp, bound)
    ensures !Less(Strip(FormatDay(bound)), Format(stamp)) <==> EarlierDay(stamp, bound)
  {
    var rest := " " + FormatTime(stamp);
    StripKeepsDay(bound);
    DaysKeepOrder(stamp, bound);
    DaysKeepOrder(bound, stamp);
    assert FormatDay(bound) == FormatDay(bound) + [];
    LessOnConcat(FormatDay(stamp), FormatDay(bound), rest, []);
    LessOnConcat(FormatDay(bound), FormatDay(stamp), [], rest);
  }

  /** The blank between day and time is lost, and nothing else. */
  lemma StripGluesStamp(m: Moment)
    requires m.Valid()
    ensures Strip(Format(m)) == FormatDay(m) + FormatTime(m)
  {
    HalvesHoldNoBlank(m);
    var day, time := FormatDay(m), FormatTime(m);
    RemoveOnConcat(day, " " + time, ' ');
    RemoveKeeps(day, ' ');
    assert (" " + time)[0] == ' ' && (" " + time)[1..] == time;
    RemoveKeeps(time, ' ');
    assert Remove(" " + time, ' ') == [] + time == time;
    RemoveKeeps(day + time, '\n');
  }

  /** A bound given as a full stamp loses its blank, so its time of day no longer counts:
      "$gte" keeps exactly the stamps of a later day, "$lte" those of that day or earlier. */
  lemma FullStampBounds(stamp: Moment, bound: Moment)
    requires stamp.Valid() && bound.Valid()
    ensures !Less(Format(stamp), Strip(Format(bound))) <==> EarlierDay(bound, stamp)
    ensures !Less(Strip(Format(bound)), Format(stamp)) <==> !EarlierDay(bound, stamp)
  {
    var time, rest := FormatTime(bound), " " + FormatTime(stamp);
    StripGluesStamp(bound);
    assert Less(rest, time) && !Less(time, rest) by {
      assert rest[0] == ' ' && time[0] == Digit(bound.hour / 10);
    }
    DaysKeepOrder(stamp, bound);
    DaysKeepOrder(bound, stamp);
    LessOnConcat(FormatDay(stamp), FormatDay(bound), rest, time);
    LessOnConcat(FormatDay(bound), FormatDay(stamp), time, rest);
  }

  // ---------------------------------------------------------------- reading stamps

  predicate IsDigits(s: string) {
    forall i :: 0 <= i < |s| ==> '0' <= s[i] <= '9'
  }

  /** The number that digits stand for. */
  function Number(s: string): (n: nat)
    requires IsDigits(s)
  {
    if s == [] then 0 else Number(s[..|s| - 1]) * 10 + (s[|s| - 1] as int - '0' as int)
  }

  lemma {:induction false} TwoIsRead(n: nat)
    requires n < 100
    ensures IsDigits(Two(n)) && Number(Two(n)) == n
  {
    var s := Two(n);
    assert s[..1] == [Digit(n / 10)] && s[..1][..0] == [];
    assert Number(s[..1]) == n / 10;
  }

  lemma {:induction false} FourIsRead(n: nat)
    requires n < 10000
    ensures IsDigits(Four(n)) && Number(Four(n)) == n
  {
    var s := Four(n);
    TwoIsRead(n / 100);
    TwoIsRead(n % 100);
    assert s[..2] == Two(n / 100) && s[..3][..2] == s[..2];
    assert s[2] == Two(n % 100)[0] && s[3] == Two(n % 100)[1];
    assert Number(s[..3]) == Number(s[..3][..2]) * 10 + (s[2] as int - '0' as int);
  }

  /** A stamp read back: "2006-01-02 15:04:05" with these separators, and each field in its place. */
  lemma {:induction false} StampIsReadBack(m: Moment)
    requires m.Valid()
    ensures var s := Format(m);
            && s[4] == '-' && s[7] == '-' && s[10] == ' ' && s[13] == ':' && s[16] == ':'
            && IsDigits(s[0..4]) && Number(s[0..4]) == m.year
            && IsDigits(s[5..7]) && Number(s[5..7]) == m.month
            && IsDigits(s[8..10]) && Number(s[8..10]) == m.day
            && IsDigits(s[11..13]) && Number(s[11..13]) == m.hour
            && IsDigits(s[14..16]) && Number(s[14..16]) == m.minute
            && IsDigits(s[17..19]) && Number(s[17..19]) == m.second
  {
    FourIsRead(m.year);
    TwoIsRead(m.month);
    TwoIsRead(m.day);
    TwoIsRead(m.hour);
    TwoIsRead(m.minute);
    TwoIsRead(m.second);
    StampFields(m);
  }

  lemma StampFields(m: Moment)
    requires m.Valid()
    ensures var s := Format(m);
            && s[4] == '-' && s[7] == '-' && s[10] == ' ' && s[13] == ':' && s[16] == ':'
            && s[0..4] == Four(m.year) && s[5..7] == Two(m.month) && s[8..10] == Two(m.day)
            && s[11..13] == Two(m.hour) && s[14..16] == Two(m.minute) && s[17..19] == Two(m.second)
  {
    var s, d, t := Format(m), FormatDay(m), FormatTime(m);
    assert d[4] == '-' && d[7] == '-' && d[0..4] == Four(m.year) && d[5..7] == Two(m.month) && d[8..10] == Two(m.day);
    assert t[2] == ':' && t[5] == ':' && t[0..2] == Two(m.hour) && t[3..5] == Two(m.minute) && t[6..8] == Two(m.second);
    forall i | 0 <= i < 10 ensures s[i] == d[i] {}
    forall i | 0 <= i < 8 ensures s[11 + i] == t[i] {}
  }
}
