// Instants as text: Date.toISOString, SQLite's datetime('now') and the client's
// parseServerDate, with the calendar of ECMA-262 section 21.4.1 (proleptic Gregorian),
// for the years 0000 to 9999.
module Calendar {
  import opened Text

  // ----- Days and years ------------------------------------------------------

  predicate Leap(y: int) {
    y % 4 == 0 && (y % 100 != 0 || y % 400 == 0)
  }

  /** DayFromYear: days from 1970-01-01 to the first day of year `y`. */
  function YearStart(y: int): int {
    365 * (y - 1970) + (y - 1969) / 4 - (y - 1901) / 100 + (y - 1601) / 400
  }

  function YearLength(y: int): nat {
    if Leap(y) then 366 else 365
  }

  lemma Fourths(y: int)
    ensures (y + 1 - 1969) / 4 == (y - 1969) / 4 + (if y % 4 == 0 then 1 else 0)
  {
  }

  lemma Hundredths(y: int)
    ensures (y + 1 - 1901) / 100 == (y - 1901) / 100 + (if y % 100 == 0 then 1 else 0)
  {
  }

  lemma FourHundredths(y: int)
    ensures (y + 1 - 1601) / 400 == (y - 1601) / 400 + (if y % 400 == 0 then 1 else 0)
  {
  }

  lemma HundredsAreFours(y: int)
    requires y % 100 == 0
    ensures y % 4 == 0
  {
    var q := y / 100;
    assert y == 4 * (25 * q);
  }

  lemma FourHundredsAreHundreds(y: int)
    requires y % 400 == 0
    ensures y % 100 == 0
  {
    var q := y / 400;
    assert y == 100 * (4 * q);
  }

  lemma YearStep(y: int)
    ensures YearStart(y + 1) == YearStart(y) + YearLength(y)
  {
    Fourths(y);
    Hundredths(y);
    FourHundredths(y);
    if y % 400 == 0 {
      FourHundredsAreHundreds(y);
    }
    if y % 100 == 0 {
      HundredsAreFours(y);
    }
  }

  lemma {:induction false} YearsAscend(y: int, z: int)
    requires y <= z
    ensures YearStart(y) <= YearStart(z) && (y < z ==> YearStart(y + 1) <= YearStart(z))
    decreases z - y
  {
    if y < z {
      YearStep(y);
      YearsAscend(y + 1, z);
    }
  }

  /** YearFromTime: the year whose first day is the last one not after `day`. */
  function YearOf(day: int, y: int): (r: int)
    requires YearStart(y) <= day
    ensures y <= r && YearStart(r) <= day < YearStart(r + 1)
    decreases day - YearStart(y)
  {
    YearStep(y);
    if YearStart(y + 1) <= day then YearOf(day, y + 1) else y
  }

  /** Days before month `m` of a year; month 13 is the year's end. */
  function MonthStart(m: int, leap: bool): int {
    var l := if leap then 1 else 0;
    if m <= 1 then 0
    else if m == 2 then 31
    else if m == 3 then 59 + l
    else if m == 4 then 90 + l
    else if m == 5 then 120 + l
    else if m == 6 then 151 + l
    else if m == 7 then 181 + l
    else if m == 8 then 212 + l
    else if m == 9 then 243 + l
    else if m == 10 then 273 + l
    else if m == 11 then 304 + l
    else if m == 12 then 334 + l
    else 365 + l
  }

  /** The months' lengths. */
  lemma MonthLengths(leap: bool)
    ensures forall m :: m in {1, 3, 5, 7, 8, 10, 12} ==> MonthStart(m + 1, leap) - MonthStart(m, leap) == 31
    ensures forall m :: m in {4, 6, 9, 11} ==> MonthStart(m + 1, leap) - MonthStart(m, leap) == 30
    ensures MonthStart(1, leap) == 0 && MonthStart(3, leap) - MonthStart(2, leap) == if leap then 29 else 28
  {
  }

  /** MonthFromTime, counting from 1. */
  function MonthOf(d: int, leap: bool, m: int): (r: int)
    requires 1 <= m <= 12 && MonthStart(m, leap) <= d < MonthStart(13, leap)
    ensures m <= r <= 12 && MonthStart(r, leap) <= d < MonthStart(r + 1, leap)
    decreases 12 - m
  {
    if m < 12 && MonthStart(m + 1, leap) <= d then MonthOf(d, leap, m + 1) else m
  }

  // ----- Date fields ---------------------------------------------------------

  datatype Stamp = Stamp(year: int, month: int, day: int, hour: int, minute: int, second: int)

  predicate Valid(x: Stamp) {
    && 0 <= x.year <= 9999 && 1 <= x.month <= 12
    && 1 <= x.day <= MonthStart(x.month + 1, Leap(x.year)) - MonthStart(x.month, Leap(x.year))
    && 0 <= x.hour < 24 && 0 <= x.minute < 60 && 0 <= x.second < 60
  }

  function DayNumber(x: Stamp): int {
    YearStart(x.year) + MonthStart(x.month, Leap(x.year)) + x.day - 1
  }

  /** Whole seconds since the epoch. */
  function Seconds(x: Stamp): int {
    DayNumber(x) * 86400 + x.hour * 3600 + x.minute * 60 + x.second
  }

  /** The seconds of the years 0000 to 9999. */
  predicate InRange(sec: int) {
    YearStart(0) * 86400 <= sec < YearStart(10000) * 86400
  }

  function YearIn(day: int): (y: int)
    requires YearStart(0) <= day < YearStart(10000)
    ensures 0 <= y <= 9999 && 0 <= day - YearStart(y) < YearLength(y)
  {
    var y := YearOf(day, 0);
    YearStep(y);
    assert y <= 9999 by {
      if y > 9999 {
        YearsAscend(10000, y);
      }
    }
    y
  }

  function StampOn(day: int, rest: int): (x: Stamp)
    requires YearStart(0) <= day < YearStart(10000) && 0 <= rest < 86400
    ensures Valid(x) && DayNumber(x) == day && x.hour * 3600 + x.minute * 60 + x.second == rest
  {
    var y := YearIn(day);
    var d := day - YearStart(y);
    var m := MonthOf(d, Leap(y), 1);
    var (h, mi, s) := ClockOf(rest);
    Stamp(y, m, d - MonthStart(m, Leap(y)) + 1, h, mi, s)
  }

  function ClockOf(rest: int): (c: (int, int, int))
    requires 0 <= rest < 86400
    ensures 0 <= c.0 < 24 && 0 <= c.1 < 60 && 0 <= c.2 < 60
    ensures c.0 * 3600 + c.1 * 60 + c.2 == rest
  {
    (rest / 3600, rest % 3600 / 60, rest % 60)
  }

  function StampOf(sec: int): (x: Stamp)
    requires InRange(sec)
    ensures Valid(x) && Seconds(x) == sec
  {
    StampOn(sec / 86400, sec % 86400)
  }

  predicate Earlier(x: Stamp, y: Stamp) {
    if x.year != y.year then x.year < y.year
    else if x.month != y.month then x.month < y.month
    else if x.day != y.day then x.day < y.day
    else if x.hour != y.hour then x.hour < y.hour
    else if x.minute != y.minute then x.minute < y.minute
    else x.second < y.second
  }

  lemma MonthsAscend(m: int, n: int, leap: bool)
    requires 1 <= m < n <= 12
    ensures MonthStart(m + 1, leap) <= MonthStart(n, leap)
  {
  }

  lemma EarlierDay(x: Stamp, y: Stamp)
    requires Valid(x) && Valid(y)
    requires x.year < y.year || (x.year == y.year && (x.month < y.month || (x.month == y.month && x.day < y.day)))
    ensures DayNumber(x) + 1 <= DayNumber(y)
  {
    YearStep(x.year);
    MonthStartBounds(x);
    if x.year < y.year {
      YearsAscend(x.year, y.year);
    } else if x.month < y.month {
      MonthsAscend(x.month, y.month, Leap(x.year));
    }
  }

  lemma MonthStartBounds(x: Stamp)
    requires Valid(x)
    ensures MonthStart(x.month, Leap(x.year)) + x.day <= YearLength(x.year)
  {
  }

  /** The calendar keeps the order of time. */
  lemma EarlierIsLess(x: Stamp, y: Stamp)
    requires Valid(x) && Valid(y) && Earlier(x, y)
    ensures Seconds(x) < Seconds(y)
  {
    if x.year != y.year || x.month != y.month || x.day != y.day {
      EarlierDay(x, y);
    }
  }

  lemma EarlierTotal(x: Stamp, y: Stamp)
    ensures x == y || Earlier(x, y) || Earlier(y, x)
  {
  }

  lemma OrderOfStamps(a: int, b: int)
    requires InRange(a) && InRange(b)
    ensures Earlier(StampOf(a), StampOf(b)) <==> a < b
  {
    var x, y := StampOf(a), StampOf(b);
    EarlierTotal(x, y);
    if Earlier(x, y) {
      EarlierIsLess(x, y);
    }
    if Earlier(y, x) {
      EarlierIsLess(y, x);
    }
  }

  lemma StampInRange(x: Stamp)
    requires Valid(x)
    ensures InRange(Seconds(x))
  {
    YearStep(x.year);
    MonthStartBounds(x);
    YearsAscend(0, x.year);
    YearsAscend(x.year + 1, 10000);
  }

  /** Every valid date and time is the calendar form of exactly its own second. */
  lemma StampIsUnique(x: Stamp)
    requires Valid(x)
    ensures InRange(Seconds(x)) && StampOf(Seconds(x)) == x
  {
    StampInRange(x);
    var y := StampOf(Seconds(x));
    EarlierTotal(x, y);
    if Earlier(x, y) {
      EarlierIsLess(x, y);
    }
    if Earlier(y, x) {
      EarlierIsLess(y, x);
    }
  }

  predicate IsEpoch(x: Stamp) {
    x.year == 1970 && x.month == 1 && x.day == 1 && x.hour == 0 && x.minute == 0 && x.second == 0
  }

  lemma EpochYear(x: Stamp)
    requires IsEpoch(x)
    ensures YearStart(x.year) == 0 && !Leap(x.year)
  {
  }

  lemma EpochValid(x: Stamp)
    requires IsEpoch(x)
    ensures Valid(x)
  {
    EpochYear(x);
    assert MonthStart(x.month, false) == 0 && MonthStart(x.month + 1, false) == 31;
  }

  lemma EpochDay(x: Stamp)
    requires IsEpoch(x)
    ensures DayNumber(x) == 0
  {
    EpochYear(x);
    assert MonthStart(x.month, Leap(x.year)) == 0;
  }

  /** The calendar is anchored at the epoch: 1970-01-01 00:00:00 is second 0. */
  lemma EpochSecond(x: Stamp)
    requires IsEpoch(x)
    ensures Valid(x) && Seconds(x) == 0
  {
    EpochValid(x);
    EpochDay(x);
  }

  // ----- Text ----------------------------------------------------------------

  function D2(n: int): (s: string)
    requires 0 <= n < 100
    ensures |s| == 2 && AllDigits(s)
  {
    [DigitChar(n / 10), DigitChar(n % 10)]
  }

  function D3(n: int): (s: string)
    requires 0 <= n < 1000
    ensures |s| == 3
  {
    D2(n / 10) + [DigitChar(n % 10)]
  }

  function D4(n: int): (s: string)
    requires 0 <= n < 10000
    ensures |s| == 4 && AllDigits(s)
  {
    D2(n / 100) + D2(n % 100)
  }

  /** A date and a time with one character between them. */
  function Render(x: Stamp, sep: char): (s: string)
    requires Valid(x)
    ensures |s| == 19
  {
    MonthStartBounds(x);
    D4(x.year) + ("-" + (D2(x.month) + ("-" + (D2(x.day)
      + ([sep] + (D2(x.hour) + (":" + (D2(x.minute) + (":" + D2(x.second))))))))))
  }

  /** SQLite's datetime: YYYY-MM-DD HH:MM:SS. */
  function SqlText(sec: int): string
    requires InRange(sec)
  {
    Render(StampOf(sec), ' ')
  }

  /** Date.toISOString of an instant in milliseconds: YYYY-MM-DDTHH:MM:SS.mmmZ. */
  function IsoText(ms: int): string
    requires InRange(ms / 1000)
  {
    Render(StampOf(ms / 1000), 'T') + "." + D3(ms % 1000) + "Z"
  }

  lemma {:induction false} LessBlocks(p: string, q: string, s: string, t: string)
    requires |p| == |q|
    ensures Less(p + s, q + t) <==> Less(p, q) || (p == q && Less(s, t))
    decreases |p|
  {
    if p == [] {
      assert p + s == s && q + t == t;
    } else {
      LessBlocks(p[1..], q[1..], s, t);
      assert (p + s)[0] == p[0] && (p + s)[1..] == p[1..] + s;
      assert (q + t)[0] == q[0] && (q + t)[1..] == q[1..] + t;
      assert p == [p[0]] + p[1..] && q == [q[0]] + q[1..];
    }
  }

  lemma LessSame(p: string, s: string, t: string)
    ensures Less(p + s, p + t) <==> Less(s, t)
  {
    LessBlocks(p, p, s, t);
    LessTotal(p, p);
  }

  lemma LessDigit(c: nat, d: nat, s: string, t: string)
    requires c < 10 && d < 10
    ensures Less([DigitChar(c)] + s, [DigitChar(d)] + t) <==> c < d || (c == d && Less(s, t))
  {
    var p, q := [DigitChar(c)] + s, [DigitChar(d)] + t;
    assert p[0] == DigitChar(c) && q[0] == DigitChar(d) && p[1..] == s && q[1..] == t;
  }

  lemma LessDigits2(a: int, b: int)
    requires 0 <= a < 100 && 0 <= b < 100
    ensures Less(D2(a), D2(b)) <==> a < b
    ensures D2(a) == D2(b) <==> a == b
  {
    LessDigit(a / 10, b / 10, [DigitChar(a % 10)], [DigitChar(b % 10)]);
    LessDigit(a % 10, b % 10, [], []);
    assert [DigitChar(a / 10)] + [DigitChar(a % 10)] == D2(a) && [DigitChar(b / 10)] + [DigitChar(b % 10)] == D2(b);
    assert [DigitChar(a % 10)] + [] == [DigitChar(a % 10)] && [DigitChar(b % 10)] + [] == [DigitChar(b % 10)];
    assert D2(a)[0] == DigitChar(a / 10) && D2(a)[1] == DigitChar(a % 10);
    assert D2(b)[0] == DigitChar(b / 10) && D2(b)[1] == DigitChar(b % 10);
  }

  lemma LessDigits4(a: int, b: int)
    requires 0 <= a < 10000 && 0 <= b < 10000
    ensures Less(D4(a), D4(b)) <==> a < b
    ensures D4(a) == D4(b) <==> a == b
  {
    LessDigits2(a / 100, b / 100);
    LessDigits2(a % 100, b % 100);
    LessBlocks(D2(a / 100), D2(b / 100), D2(a % 100), D2(b % 100));
    if D4(a) == D4(b) {
      assert D4(a)[..2] == D2(a / 100) && D4(a)[2..] == D2(a % 100);
      assert D4(b)[..2] == D2(b / 100) && D4(b)[2..] == D2(b % 100);
    }
  }

  /** One two-digit field after a one-character separator. */
  lemma LessField(sep: string, a: int, b: int, s: string, t: string)
    requires 0 <= a < 100 && 0 <= b < 100
    ensures Less(sep + (D2(a) + s), sep + (D2(b) + t)) <==> a < b || (a == b && Less(s, t))
  {
    LessSame(sep, D2(a) + s, D2(b) + t);
    LessBlocks(D2(a), D2(b), s, t);
    LessDigits2(a, b);
  }

  lemma LessTime(x: Stamp, y: Stamp)
    requires Valid(x) && Valid(y)
    ensures Less(TimeText(x), TimeText(y)) <==>
      x.hour < y.hour || (x.hour == y.hour && (x.minute < y.minute || (x.minute == y.minute && x.second < y.second)))
  {
    var s, t := D2(x.second), D2(y.second);
    LessDigits2(x.second, y.second);
    LessSame(":", s, t);
    LessField(":", x.minute, y.minute, ":" + s, ":" + t);
    LessBlocks(D2(x.hour), D2(y.hour), ":" + (D2(x.minute) + (":" + s)), ":" + (D2(y.minute) + (":" + t)));
    LessDigits2(x.hour, y.hour);
  }

  function TimeText(x: Stamp): string
    requires Valid(x)
  {
    D2(x.hour) + (":" + (D2(x.minute) + (":" + D2(x.second))))
  }

  lemma LessRendered(x: Stamp, y: Stamp, sep: char)
    requires Valid(x) && Valid(y)
    ensures Less(Render(x, sep), Render(y, sep)) <==> Earlier(x, y)
  {
    MonthStartBounds(x);
    MonthStartBounds(y);
    LessTime(x, y);
    var s, t := [sep] + TimeText(x), [sep] + TimeText(y);
    LessSame([sep], TimeText(x), TimeText(y));
    LessField("-", x.day, y.day, s, t);
    LessField("-", x.month, y.month, "-" + (D2(x.day) + s), "-" + (D2(y.day) + t));
    LessBlocks(D4(x.year), D4(y.year),
               "-" + (D2(x.month) + ("-" + (D2(x.day) + s))), "-" + (D2(y.month) + ("-" + (D2(y.day) + t))));
    LessDigits4(x.year, y.year);
  }

  /** For all seconds of the years 0000 to 9999, comparing the stored texts is comparing
      the instants. */
  lemma TextOrderIsTimeOrder(a: int, b: int)
    requires InRange(a) && InRange(b)
    ensures Less(SqlText(a), SqlText(b)) <==> a < b
  {
    LessRendered(StampOf(a), StampOf(b), ' ');
    OrderOfStamps(a, b);
  }

  // ----- Pruning -------------------------------------------------------------

  /** String.replace of the first occurrence. */
  function ReplaceFirst(s: string, c: char, d: char): string {
    var i := IndexOf(s, c);
    if i == |s| then s else s[..i] + [d] + s[i + 1..]
  }

  /** activityService.prune's cutoff: the ISO text, T replaced by a space, 19 characters. */
  function CutoffText(ms: int): string
    requires InRange(ms / 1000)
  {
    var iso := ReplaceFirst(IsoText(ms), 'T', ' ');
    if |iso| <= 19 then iso else iso[..19]
  }

  lemma RenderParts(x: Stamp, sep: char)
    requires Valid(x)
    ensures var s := Render(x, sep);
      && s[10] == sep && s[..10] == Render(x, ' ')[..10] && s[11..] == Render(x, ' ')[11..]
      && (forall i :: 0 <= i < 10 ==> IsDigit(s[i]) || s[i] == '-')
  {
    MonthStartBounds(x);
    var date := D4(x.year) + ("-" + (D2(x.month) + ("-" + D2(x.day))));
    RenderSplit(x, sep, date);
    RenderSplit(x, ' ', date);
  }

  lemma RenderSplit(x: Stamp, sep: char, date: string)
    requires Valid(x)
    requires 0 <= x.year < 10000 && 0 <= x.month < 100 && 0 <= x.day < 100
    requires date == D4(x.year) + ("-" + (D2(x.month) + ("-" + D2(x.day))))
    ensures Render(x, sep) == date + ([sep] + TimeText(x)) && |date| == 10
  {
  }

  /** The cutoff is the text SQLite would have stored in the cutoff's second. */
  lemma CutoffIsSqlText(ms: int)
    requires InRange(ms / 1000)
    ensures CutoffText(ms) == SqlText(ms / 1000)
  {
    var x := StampOf(ms / 1000);
    RenderParts(x, 'T');
    ReplaceT(Render(x, 'T'), "." + D3(ms % 1000) + "Z");
    assert IsoText(ms) == Render(x, 'T') + ("." + D3(ms % 1000) + "Z");
    var sql := Render(x, ' ');
    RenderParts(x, ' ');
    assert sql == sql[..10] + [' '] + sql[11..];
  }

  lemma ReplaceT(iso: string, rest: string)
    requires |iso| == 19 && iso[10] == 'T' && forall i :: 0 <= i < 10 ==> iso[i] != 'T'
    ensures ReplaceFirst(iso + rest, 'T', ' ')[..19] == iso[..10] + [' '] + iso[11..]
  {
    var full := iso + rest;
    assert full[10] == iso[10];
    forall i | 0 <= i < 10 ensures full[i] != 'T' {
      assert full[i] == iso[i];
    }
    assert IndexOf(full, 'T') == 10;
  }

  // ----- Reading a stored date back ------------------------------------------

  /** \d{4}-\d{2}-\d{2}[ T]\d{2}:\d{2}:\d{2} */
  predicate LooksStored(v: string) {
    && |v| == 19
    && AllDigits(v[0..4]) && v[4] == '-' && AllDigits(v[5..7]) && v[7] == '-' && AllDigits(v[8..10])
    && (v[10] == ' ' || v[10] == 'T')
    && AllDigits(v[11..13]) && v[13] == ':' && AllDigits(v[14..16]) && v[16] == ':' && AllDigits(v[17..19])
  }

  function FieldsOf(v: string): Stamp
    requires LooksStored(v)
  {
    Stamp(DecValue(v[0..4]), DecValue(v[5..7]), DecValue(v[8..10]),
          DecValue(v[11..13]), DecValue(v[14..16]), DecValue(v[17..19]))
  }

  /** The Date constructor on YYYY-MM-DDTHH:MM:SSZ, for fields that name a date. */
  function IsoMs(u: string): Option<int> {
    if |u| == 20 && u[19] == 'Z' && LooksStored(u[..19]) && u[10] == 'T' && Valid(FieldsOf(u[..19]))
    then Some(Seconds(FieldsOf(u[..19])) * 1000)
    else None
  }

  /** parseServerDate on a stored text: milliseconds of the date it is read as. */
  function ServerDateMs(v: string): Option<int>
    requires LooksStored(v)
  {
    IsoMs(ReplaceFirst(v, ' ', 'T') + "Z")
  }

  lemma DecValue2(n: int)
    requires 0 <= n < 100
    ensures DecValue(D2(n)) == n
  {
    var s := D2(n);
    assert s[..1] == [DigitChar(n / 10)] && s[..1][..0] == [];
    assert DecValue(s[..1]) == n / 10;
  }

  lemma DecValue4(n: int)
    requires 0 <= n < 10000
    ensures DecValue(D4(n)) == n
  {
    var s := D4(n);
    DecValue2(n / 100);
    assert s[..3][..2] == D2(n / 100);
    assert s[..3][2] == DigitChar(n % 100 / 10) && s[3] == DigitChar(n % 100 % 10);
    assert DecValue(s[..3]) == n / 100 * 10 + n % 100 / 10;
  }

  lemma DateSlices(x: Stamp, date: string)
    requires 0 <= x.year < 10000 && 0 <= x.month < 100 && 0 <= x.day < 100
    requires date == D4(x.year) + ("-" + (D2(x.month) + ("-" + D2(x.day))))
    ensures |date| == 10 && date[4] == '-' && date[7] == '-'
    ensures date[0..4] == D4(x.year) && date[5..7] == D2(x.month) && date[8..10] == D2(x.day)
  {
  }

  lemma TimeSlices(x: Stamp)
    requires Valid(x)
    ensures var t := TimeText(x);
      && |t| == 8 && t[2] == ':' && t[5] == ':'
      && t[0..2] == D2(x.hour) && t[3..5] == D2(x.minute) && t[6..8] == D2(x.second)
  {
  }

  lemma SliceOfSlice(s: string, date: string, sep: char, time: string)
    requires s == date + ([sep] + time) && |date| == 10 && |time| == 8
    ensures forall i, j :: 0 <= i <= j <= 10 ==> s[i..j] == date[i..j]
    ensures forall i, j :: 0 <= i <= j <= 8 ==> s[11 + i..11 + j] == time[i..j]
    ensures s[10] == sep
  {
  }

  lemma RenderedFields(x: Stamp, sep: char)
    requires Valid(x) && (sep == ' ' || sep == 'T')
    ensures LooksStored(Render(x, sep)) && FieldsOf(Render(x, sep)) == x
  {
    MonthStartBounds(x);
    var date, time := D4(x.year) + ("-" + (D2(x.month) + ("-" + D2(x.day)))), TimeText(x);
    var s := Render(x, sep);
    RenderSplit(x, sep, date);
    DateSlices(x, date);
    TimeSlices(x);
    SliceOfSlice(s, date, sep, time);
    assert s[0..4] == D4(x.year) && s[5..7] == D2(x.month) && s[8..10] == D2(x.day);
    assert s[11..13] == time[0..2] && s[14..16] == time[3..5] && s[17..19] == time[6..8];
    assert s[4] == date[4] && s[7] == date[7] && s[13] == time[2] && s[16] == time[5];
    DecValue4(x.year);
    DecValue2(x.month);
    DecValue2(x.day);
    DecValue2(x.hour);
    DecValue2(x.minute);
    DecValue2(x.second);
  }

  lemma ReplaceSeparator(x: Stamp)
    requires Valid(x)
    ensures ReplaceFirst(Render(x, ' '), ' ', 'T') == Render(x, 'T')
  {
    var s, t := Render(x, ' '), Render(x, 'T');
    RenderParts(x, ' ');
    RenderParts(x, 'T');
    assert IndexOf(s, ' ') == 10;
    assert t == t[..10] + ['T'] + t[11..];
  }

  /** The client reads every stored text back as the instant it was made from. */
  lemma ServerDateInvertsSqlText(sec: int)
    requires InRange(sec)
    ensures LooksStored(SqlText(sec)) && ServerDateMs(SqlText(sec)) == Some(sec * 1000)
  {
    var x := StampOf(sec);
    RenderedFields(x, ' ');
    RenderedFields(x, 'T');
    ReplaceSeparator(x);
    var u := Render(x, 'T') + "Z";
    RenderParts(x, 'T');
    assert u[..19] == Render(x, 'T') && u[10] == Render(x, 'T')[10];
  }
}
