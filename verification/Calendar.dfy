/**
 The sensor's clock formatting: civil dates from a day count in closed form, and RFC 3339 strings
 with milliseconds (sections 5.1 and 5.6 of RFC 3339). Division and remainder are Euclidean.
 */
module Calendar {
  import opened Lexical

  datatype Date = Date(y: int, m: int, d: int)

  // ---- The calendar as a rule ----

  predicate Leap(y: int) {
    y % 4 == 0 && (y % 100 != 0 || y % 400 == 0)
  }

  function DaysIn(y: int, m: int): int {
    if m == 2 then (if Leap(y) then 29 else 28)
    else if m == 4 || m == 6 || m == 9 || m == 11 then 30
    else 31
  }

  predicate Proper(t: Date) {
    1 <= t.m <= 12 && 1 <= t.d <= DaysIn(t.y, t.m)
  }

  /** The day after. */
  function NextDay(t: Date): Date {
    if t.d < DaysIn(t.y, t.m) then t.(d := t.d + 1)
    else if t.m < 12 then Date(t.y, t.m + 1, 1)
    else Date(t.y + 1, 1, 1)
  }

  predicate Before(a: Date, b: Date) {
    a.y < b.y || (a.y == b.y && (a.m < b.m || (a.m == b.m && a.d < b.d)))
  }

  // ---- The closed form ----

  function YearOfEra(doe: int): int {
    (doe - doe / 1460 + doe / 36524 - doe / 146096) / 365
  }

  function DayOfYear(doe: int, yoe: int): int {
    doe - (365 * yoe + yoe / 4 - yoe / 100)
  }

  /** The month, numbered from March, of a day of the March year. */
  function MonthIndex(doy: int): int {
    (5 * doy + 2) / 153
  }

  /** Days from 1 March to the first of the month, months numbered from March. */
  function MonthStart(mp: int): int {
    (153 * mp + 2) / 5
  }

  function CivilFromDays(days: int): Date {
    var z := days + 719468;
    var era, doe := z / 146097, z % 146097;
    var yoe := YearOfEra(doe);
    var y, doy := yoe + era * 400, DayOfYear(doe, yoe);
    var mp := MonthIndex(doy);
    var d := doy - MonthStart(mp) + 1;
    var m := if mp < 10 then mp + 3 else mp - 9;
    Date(if m <= 2 then y + 1 else y, m, d)
  }

  // ---- Its inverse, counting from 1 March of year 0 ----

  /** The year a date belongs to when years start in March. */
  function MarchYear(t: Date): int {
    if t.m <= 2 then t.y - 1 else t.y
  }

  function MarchMonth(t: Date): int {
    if t.m > 2 then t.m - 3 else t.m + 9
  }

  function YearStart(y: int): int {
    365 * y + y / 4 - y / 100 + y / 400
  }

  function DaysFromCivil(t: Date): int {
    YearStart(MarchYear(t)) + MonthStart(MarchMonth(t)) + t.d - 1 - 719468
  }

  // ---- The proof ----

  /** Where a day of the 400-year era falls: century, four-year block, year, day of the March year. */
  ghost predicate Splits(doe: int, a: int, b: int, c: int, doy: int) {
    && 0 <= a <= 3 && 0 <= b <= 24 && 0 <= c <= 3 && 0 <= doy <= 365
    && doe == 36524 * a + 1461 * b + 365 * c + doy
    && (doy == 365 ==> c == 3 && (b < 24 || a == 3))
  }

  lemma Split(doe: int) returns (a: int, b: int, c: int, doy: int)
    requires 0 <= doe < 146097
    ensures Splits(doe, a, b, c, doy)
  {
    a := if doe < 146096 then doe / 36524 else 3;
    var r := doe - 36524 * a;
    b := r / 1461;
    var q := r - 1461 * b;
    c := if q < 1460 then q / 365 else 3;
    doy := q - 365 * c;
  }

  /** The closed form's year of the era is the right one. */
  lemma YearOfEraExact(doe: int, a: int, b: int, c: int, doy: int)
    requires Splits(doe, a, b, c, doy)
    ensures YearOfEra(doe) == 100 * a + 4 * b + c && DayOfYear(doe, 100 * a + 4 * b + c) == doy
  {
    var r := 24 * a + b + 365 * c + doy;
    assert doe == 1460 * (25 * a + b) + r;
    assert doe / 1460 == 25 * a + b + if r >= 1460 then 1 else 0;
    assert doe / 36524 - doe / 146096 == a;
    var yoe := 100 * a + 4 * b + c;
    assert yoe / 4 == 25 * a + b && yoe / 100 == a;
  }

  lemma MonthOf(doy: int, mp: int, d: int)
    requires 0 <= doy <= 365
    requires mp == MonthIndex(doy) && d == doy - MonthStart(mp) + 1
    ensures 0 <= mp <= 11 && MonthStart(mp) <= doy && 1 <= d <= MonthStart(mp + 1) - MonthStart(mp)
  {}

  lemma MonthLengths(y: int, mp: int)
    requires 0 <= mp <= 10
    ensures MonthStart(mp + 1) - MonthStart(mp) == DaysIn(y, if mp < 10 then mp + 3 else mp - 9)
  {}

  /** From a day within its month back to the month. */
  lemma MonthBack(mp: int, d: int)
    requires 0 <= mp <= 11 && 1 <= d && MonthStart(mp) + d - 1 <= 365
    requires mp < 11 ==> d <= MonthStart(mp + 1) - MonthStart(mp)
    ensures MonthIndex(MonthStart(mp) + d - 1) == mp
  {}

  lemma YearStartOfEra(era: int, yoe: int)
    requires 0 <= yoe < 400
    ensures YearStart(400 * era + yoe) == 146097 * era + 365 * yoe + yoe / 4 - yoe / 100
  {
    var y := 400 * era + yoe;
    assert y / 4 == 100 * era + yoe / 4;
    assert y / 100 == 4 * era + yoe / 100;
    assert y / 400 == era;
  }

  /** 29 February is the last day of a March year, and exists exactly when the year it ends in is leap. */
  lemma LeapYearLength(y: int)
    ensures YearStart(y + 1) - YearStart(y) == if Leap(y + 1) then 366 else 365
  {
    hide YearStart, Leap;
    var e, n := y / 400, y % 400;
    YearStartOfEra(e, n);
    LeapInEra(e, n);
    if n < 399 {
      YearStartOfEra(e, n + 1);
      assert y + 1 == 400 * e + (n + 1);
      assert (n + 1) / 4 - n / 4 == if (n + 1) % 4 == 0 then 1 else 0;
      assert (n + 1) / 100 - n / 100 == if (n + 1) % 100 == 0 then 1 else 0;
    } else {
      YearStartOfEra(e + 1, 0);
      assert y + 1 == 400 * (e + 1) + 0;
    }
  }

  lemma Multiple4(k: int, r: int)
    requires 0 <= r < 4
    ensures (4 * k + r) % 4 == r
  {}

  lemma Multiple100(k: int, r: int)
    requires 0 <= r < 100
    ensures (100 * k + r) % 100 == r
  {}

  lemma Multiple400(k: int, r: int)
    requires 0 < r <= 400
    ensures (400 * k + r) % 400 == 0 <==> r == 400
  {}

  lemma LeapInEra(e: int, n: int)
    requires 0 <= n < 400
    ensures Leap(400 * e + n + 1) <==> (n + 1) % 4 == 0 && ((n + 1) % 100 != 0 || n == 399)
  {
    var y := 400 * e + (n + 1);
    Multiple4(100 * e + (n + 1) / 4, (n + 1) % 4);
    Multiple100(4 * e + (n + 1) / 100, (n + 1) % 100);
    Multiple400(e, n + 1);
    assert Leap(y) <==> y % 4 == 0 && (y % 100 != 0 || y % 400 == 0);
  }

  lemma DayFitsLeap(doe: int, a: int, b: int, c: int, doy: int, era: int)
    requires Splits(doe, a, b, c, doy)
    ensures var y := 400 * era + 100 * a + 4 * b + c;
            doy < YearStart(y + 1) - YearStart(y)
  {
    var n := 100 * a + 4 * b + c;
    LeapYearLength(400 * era + n);
    LeapInEra(era, n);
    if doy == 365 {
      assert (n + 1) % 4 == 0;
      if b == 24 {
        assert n == 399;
      } else {
        assert n + 1 == 100 * a + 4 * (b + 1);
        assert (n + 1) % 100 == 4 * (b + 1);
      }
    }
  }

  /** A day of an era, as a March year and a day of it. */
  lemma EraDay(era: int, doe: int) returns (y: int, doy: int)
    requires 0 <= doe < 146097
    ensures y == YearOfEra(doe) + era * 400 && doy == DayOfYear(doe, YearOfEra(doe))
    ensures 0 <= doy < YearStart(y + 1) - YearStart(y) && doy <= 365
    ensures 146097 * era + doe == YearStart(y) + doy
  {
    hide Leap, YearStart, YearOfEra, DayOfYear;
    var a, b, c;
    a, b, c, doy := Split(doe);
    var yoe := 100 * a + 4 * b + c;
    YearOfEraExact(doe, a, b, c, doy);
    DayFitsLeap(doe, a, b, c, doy, era);
    YearStartOfEra(era, yoe);
    DayOfYearIs(doe, yoe);
    y := yoe + era * 400;
    assert y == 400 * era + yoe == 400 * era + 100 * a + 4 * b + c;
  }

  /** The closed form, taken apart: the March year, and the day of it. */
  lemma CivilParts(days: int) returns (y: int, doy: int)
    ensures 0 <= doy < YearStart(y + 1) - YearStart(y) && doy <= 365
    ensures days + 719468 == YearStart(y) + doy
    ensures var mp := MonthIndex(doy);
      CivilFromDays(days) == Date(if mp >= 10 then y + 1 else y, if mp < 10 then mp + 3 else mp - 9, doy - MonthStart(mp) + 1)
  {
    hide Leap, YearStart, YearOfEra, DayOfYear, MonthIndex, MonthStart;
    var z := days + 719468;
    y, doy := EraDay(z / 146097, z % 146097);
    MonthOf(doy, MonthIndex(doy), doy - MonthStart(MonthIndex(doy)) + 1);
  }

  lemma DayOfYearIs(doe: int, yoe: int)
    ensures DayOfYear(doe, yoe) == doe - (365 * yoe + yoe / 4 - yoe / 100)
  {}

  /** Main: every day count is a proper date, and counting that date's days gives it back. */
  lemma CivilIsProper(days: int)
    ensures Proper(CivilFromDays(days))
    ensures DaysFromCivil(CivilFromDays(days)) == days
  {
    assert MonthStart(11) == 337;
    hide Leap, YearStart, MonthStart, MonthIndex, CivilFromDays;
    var y, doy := CivilParts(days);
    var mp := MonthIndex(doy);
    MonthOf(doy, mp, doy - MonthStart(mp) + 1);
    LeapYearLength(y);
    var t := CivilFromDays(days);
    if mp < 11 {
      MonthLengths(t.y, mp);
    }
    assert MarchYear(t) == y && MarchMonth(t) == mp;
  }

  lemma DayWithinYear(t: Date)
    requires Proper(t)
    ensures var mp := MarchMonth(t);
      && 0 <= mp <= 11
      && 0 <= MonthStart(mp) + t.d - 1 < YearStart(MarchYear(t) + 1) - YearStart(MarchYear(t))
      && (mp < 11 ==> t.d <= MonthStart(mp + 1) - MonthStart(mp))
  {
    hide YearStart, Leap;
    LeapYearLength(MarchYear(t));
    var mp := MarchMonth(t);
    if mp < 11 {
      MonthLengths(t.y, mp);
    }
  }

  /** Two days in March years that overlap nowhere are in the same year. */
  lemma YearUnique(y1: int, x1: int, y2: int, x2: int)
    requires 0 <= x1 < YearStart(y1 + 1) - YearStart(y1) && 0 <= x2 < YearStart(y2 + 1) - YearStart(y2)
    requires YearStart(y1) + x1 == YearStart(y2) + x2
    ensures y1 == y2
  {
    if y1 < y2 {
      YearStartMonotone(y1 + 1, y2);
    } else if y2 < y1 {
      YearStartMonotone(y2 + 1, y1);
    }
  }

  lemma YearStartMonotone(y1: int, y2: int)
    requires y1 <= y2
    ensures YearStart(y1) <= YearStart(y2)
    decreases y2 - y1
  {
    if y1 < y2 {
      YearStartMonotone(y1, y2 - 1);
      LeapYearLength(y2 - 1);
      assert YearStart(y2 - 1 + 1) == YearStart(y2);
    }
  }

  /** Main: the closed form gives back any proper date from its day count. */
  lemma CivilBack(t: Date)
    requires Proper(t)
    ensures CivilFromDays(DaysFromCivil(t)) == t
  {
    hide YearStart, Leap, CivilFromDays, MonthStart, MonthIndex;
    var days := DaysFromCivil(t);
    var u := CivilFromDays(days);
    CivilIsProper(days);
    DayWithinYear(t);
    DayWithinYear(u);
    var x, w := MonthStart(MarchMonth(t)) + t.d - 1, MonthStart(MarchMonth(u)) + u.d - 1;
    YearUnique(MarchYear(t), x, MarchYear(u), w);
    LeapYearLength(MarchYear(t));
    MonthBack(MarchMonth(t), t.d);
    MonthBack(MarchMonth(u), u.d);
  }

  lemma NextDayCounts(t: Date)
    requires Proper(t)
    ensures Proper(NextDay(t)) && DaysFromCivil(NextDay(t)) == DaysFromCivil(t) + 1 && Before(t, NextDay(t))
  {
    hide YearStart, Leap;
    LeapYearLength(MarchYear(t));
    var mp := MarchMonth(t);
    if mp < 11 {
      MonthLengths(t.y, mp);
    }
  }

  /** Main: day 0 is 1 January 1970, and each day is followed by the calendar's next day: this is the Gregorian calendar. */
  lemma CivilIsTheCalendar(days: int)
    ensures CivilFromDays(0) == Date(1970, 1, 1)
    ensures CivilFromDays(days + 1) == NextDay(CivilFromDays(days))
  {
    hide Leap, CivilFromDays, NextDay, Proper;
    CivilIsProper(days);
    NextDayCounts(CivilFromDays(days));
    CivilBack(NextDay(CivilFromDays(days)));
    EpochDay();
  }

  /** 1 January 1970 is day 306 of the March year 369 of the fifth era. */
  lemma EpochParts()
    ensures YearOfEra(135080) == 369 && DayOfYear(135080, 369) == 306
    ensures MonthIndex(306) == 10 && MonthStart(10) == 306
  {}

  lemma EpochDay()
    ensures CivilFromDays(0) == Date(1970, 1, 1)
  {
    hide YearOfEra, DayOfYear, MonthIndex, MonthStart;
    EpochParts();
    assert 719468 / 146097 == 4 && 719468 % 146097 == 135080;
  }

  lemma {:induction false} DatesAdvance(d1: int, d2: int)
    requires d1 < d2
    ensures Before(CivilFromDays(d1), CivilFromDays(d2))
    decreases d2 - d1
  {
    hide CivilFromDays, NextDay, Proper, DaysFromCivil;
    CivilIsProper(d2 - 1);
    NextDayCounts(CivilFromDays(d2 - 1));
    CivilIsTheCalendar(d2 - 1);
    if d1 < d2 - 1 {
      DatesAdvance(d1, d2 - 1);
    }
  }

  // ---- RFC 3339 ----

  const MS_PER_DAY := 86400000

  function Pow10(w: nat): (p: int)
    ensures p > 0
  {
    if w == 0 then 1 else 10 * Pow10(w - 1)
  }

  function Digit(n: int): char
    requires 0 <= n < 10
  {
    '0' + n as char
  }

  /** The `w` low decimal digits of `n`. */
  function Fixed(n: nat, w: nat): (s: string)
    ensures |s| == w
  {
    if w == 0 then [] else Fixed(n / 10, w - 1) + [Digit(n % 10)]
  }

  /** At least `w` digits, zero-padded, more when the number needs them. */
  function PadNat(n: nat, w: nat): string
    decreases n - Pow10(w)
  {
    if n < Pow10(w) then Fixed(n, w) else PadNat(n, w + 1)
  }

  /** Zero-padded to a width that counts the sign. */
  function Pad(n: int, w: nat): string {
    if n >= 0 then PadNat(n, w) else "-" + PadNat(-n, if w > 0 then w - 1 else 0)
  }

  /** Fields of the given widths, each followed by its separator. */
  function Stamp(fields: seq<int>, widths: seq<nat>, seps: string): string
    requires |fields| == |widths| == |seps|
  {
    if fields == [] then [] else Pad(fields[0], widths[0]) + ([seps[0]] + Stamp(fields[1..], widths[1..], seps[1..]))
  }

  /** Year, month, day, hour, minute, second and millisecond of an instant. */
  function FieldsOf(ms: int): (f: seq<int>)
    ensures |f| == 7
  {
    var t, r := CivilFromDays(ms / MS_PER_DAY), ms % MS_PER_DAY;
    [t.y, t.m, t.d, r / 3600000, r / 60000 % 60, r / 1000 % 60, r % 1000]
  }

  const WIDTHS: seq<nat> := [4, 2, 2, 2, 2, 2, 3]

  function Rfc3339(ms: int): string {
    Stamp(FieldsOf(ms), WIDTHS, "--T::.Z")
  }

  lemma {:induction false} FixedOrder(m: nat, n: nat, w: nat)
    requires m < Pow10(w) && n < Pow10(w)
    ensures Lex(Fixed(m, w), Fixed(n, w)) <==> m < n
    ensures Fixed(m, w) == Fixed(n, w) <==> m == n
  {
    if w > 0 {
      FixedOrder(m / 10, n / 10, w - 1);
      var a, b, x, y := Fixed(m / 10, w - 1), Fixed(n / 10, w - 1), [Digit(m % 10)], [Digit(n % 10)];
      LexAppend(a, b, x, y);
      assert Lex(x, y) <==> m % 10 < n % 10 by {
        assert x[1..] == [] && y[1..] == [];
      }
      assert Fixed(m, w)[..w - 1] == a && Fixed(n, w)[..w - 1] == b;
      assert Fixed(m, w)[w - 1] == x[0] && Fixed(n, w)[w - 1] == y[0];
    }
  }

  /** Dictionary order on equally long lists of numbers. */
  predicate Less(a: seq<int>, b: seq<int>)
    requires |a| == |b|
  {
    a != [] && (a[0] < b[0] || (a[0] == b[0] && Less(a[1..], b[1..])))
  }

  ghost predicate Fits(fields: seq<int>, widths: seq<nat>)
    requires |fields| == |widths|
  {
    forall i :: 0 <= i < |fields| ==> 0 <= fields[i] < Pow10(widths[i])
  }

  /** Zero-padded fields sort as their values do. */
  lemma {:induction false} StampOrder(a: seq<int>, b: seq<int>, widths: seq<nat>, seps: string)
    requires |a| == |b| == |widths| == |seps| && Fits(a, widths) && Fits(b, widths)
    ensures Lex(Stamp(a, widths, seps), Stamp(b, widths, seps)) <==> Less(a, b)
  {
    if a != [] {
      var w, x, y := widths[0], Stamp(a[1..], widths[1..], seps[1..]), Stamp(b[1..], widths[1..], seps[1..]);
      StampOrder(a[1..], b[1..], widths[1..], seps[1..]);
      FixedOrder(a[0], b[0], w);
      LexAppend(Fixed(a[0], w), Fixed(b[0], w), [seps[0]] + x, [seps[0]] + y);
      LexAppend([seps[0]], [seps[0]], x, y);
      assert !Lex([seps[0]], [seps[0]]) by { assert [seps[0]][1..] == []; }
    }
  }

  /** The first instants of the years 0 and 10000. */
  const YEAR_0_MS := -62167219200000
  const YEAR_10000_MS := 253402300800000

  lemma YearStarts()
    ensures DaysFromCivil(Date(0, 1, 1)) * MS_PER_DAY == YEAR_0_MS
    ensures DaysFromCivil(Date(10000, 1, 1)) * MS_PER_DAY == YEAR_10000_MS
  {}

  /** A day is before the year `y` exactly when it is before its first day. */
  lemma YearBefore(d: int, y: int)
    ensures CivilFromDays(d).y < y <==> d < DaysFromCivil(Date(y, 1, 1))
  {
    hide CivilFromDays, DaysFromCivil, Leap;
    var first := DaysFromCivil(Date(y, 1, 1));
    CivilBack(Date(y, 1, 1));
    CivilIsProper(d);
    if d < first {
      DatesAdvance(d, first);
    } else if first < d {
      DatesAdvance(first, d);
    }
  }

  lemma DayBefore(ms: int, d: int)
    ensures ms / MS_PER_DAY < d <==> ms < d * MS_PER_DAY
  {}

  /** The years of four digits, as a range of instants. */
  lemma FourDigitYears(ms: int)
    ensures 0 <= FieldsOf(ms)[0] <= 9999 <==> YEAR_0_MS <= ms < YEAR_10000_MS
  {
    hide CivilFromDays, DaysFromCivil;
    YearStarts();
    YearBefore(ms / MS_PER_DAY, 0);
    YearBefore(ms / MS_PER_DAY, 10000);
    DayBefore(ms, DaysFromCivil(Date(0, 1, 1)));
    DayBefore(ms, DaysFromCivil(Date(10000, 1, 1)));
  }

  lemma FieldsFit(ms: int)
    requires YEAR_0_MS <= ms < YEAR_10000_MS
    ensures Fits(FieldsOf(ms), WIDTHS)
  {
    hide CivilFromDays, Leap;
    FourDigitYears(ms);
    CivilIsProper(ms / MS_PER_DAY);
    assert Pow10(2) == 100 && Pow10(3) == 1000 && Pow10(4) == 10000;
  }

  lemma TimeOfDay(r: int)
    requires 0 <= r < MS_PER_DAY
    ensures r == 3600000 * (r / 3600000) + 60000 * (r / 60000 % 60) + 1000 * (r / 1000 % 60) + r % 1000
    ensures 0 <= r / 3600000 < 24
  {}

  /** Fields sort as the instants they are taken from. */
  lemma FieldsOrder(m1: int, m2: int)
    requires m1 < m2
    ensures Less(FieldsOf(m1), FieldsOf(m2))
  {
    var d1, d2, r1, r2 := m1 / MS_PER_DAY, m2 / MS_PER_DAY, m1 % MS_PER_DAY, m2 % MS_PER_DAY;
    TimeOfDay(r1);
    TimeOfDay(r2);
    if d1 < d2 {
      DatesAdvance(d1, d2);
      hide CivilFromDays;
      DateLess(FieldsOf(m1), FieldsOf(m2));
    } else {
      hide CivilFromDays;
      TimeLess(FieldsOf(m1), FieldsOf(m2));
    }
  }

  lemma DateLess(a: seq<int>, b: seq<int>)
    requires |a| == |b| == 7 && Before(Date(a[0], a[1], a[2]), Date(b[0], b[1], b[2]))
    ensures Less(a, b)
  {
    assert a[1..][0] == a[1] && b[1..][0] == b[1];
    assert a[1..][1..][0] == a[2] && b[1..][1..][0] == b[2];
  }

  lemma TimeLess(a: seq<int>, b: seq<int>)
    requires |a| == |b| == 7 && a[..3] == b[..3]
    requires 0 <= a[4] < 60 && 0 <= b[4] < 60 && 0 <= a[5] < 60 && 0 <= b[5] < 60 && 0 <= a[6] < 1000 && 0 <= b[6] < 1000
    requires 3600000 * a[3] + 60000 * a[4] + 1000 * a[5] + a[6] < 3600000 * b[3] + 60000 * b[4] + 1000 * b[5] + b[6]
    ensures Less(a, b)
  {
    LessFrom(a, b, 3);
    LessAt(a, b, 3);
    LessAt(a, b, 4);
    LessAt(a, b, 5);
    LessAt(a, b, 6);
  }

  lemma LessAt(a: seq<int>, b: seq<int>, k: nat)
    requires |a| == |b| && k < |a|
    ensures Less(a[k..], b[k..]) <==> a[k] < b[k] || (a[k] == b[k] && Less(a[k + 1..], b[k + 1..]))
  {
    assert a[k..][1..] == a[k + 1..] && b[k..][1..] == b[k + 1..];
  }

  lemma {:induction false} LessFrom(a: seq<int>, b: seq<int>, k: nat)
    requires |a| == |b| && k <= |a| && a[..k] == b[..k]
    ensures Less(a, b) <==> Less(a[k..], b[k..])
  {
    if k == 0 {
      assert a[0..] == a && b[0..] == b;
    } else {
      assert a[0] == a[..k][0] == b[..k][0] == b[0];
      assert a[1..][..k - 1] == a[..k][1..] == b[..k][1..] == b[1..][..k - 1];
      LessFrom(a[1..], b[1..], k - 1);
      assert a[1..][k - 1..] == a[k..] && b[1..][k - 1..] == b[k..];
    }
  }

  lemma {:induction false} LessStrict(a: seq<int>, b: seq<int>)
    requires |a| == |b|
    ensures !(Less(a, b) && Less(b, a)) && !Less(a, a)
  {
    if a != [] {
      LessStrict(a[1..], b[1..]);
    }
  }

  /** Main: in years 0 to 9999, before 1970 included, timestamps sort as text exactly as they do as instants,
      and no two instants share one. */
  lemma TimestampsSort(m1: int, m2: int)
    requires YEAR_0_MS <= m1 < YEAR_10000_MS && YEAR_0_MS <= m2 < YEAR_10000_MS
    ensures Lex(Rfc3339(m1), Rfc3339(m2)) <==> m1 < m2
    ensures Rfc3339(m1) == Rfc3339(m2) <==> m1 == m2
  {
    hide FieldsOf, Stamp, Fits, Less, Lex;
    FieldsFit(m1);
    FieldsFit(m2);
    StampOrder(FieldsOf(m1), FieldsOf(m2), WIDTHS, "--T::.Z");
    StampOrder(FieldsOf(m2), FieldsOf(m1), WIDTHS, "--T::.Z");
    StampOrder(FieldsOf(m1), FieldsOf(m1), WIDTHS, "--T::.Z");
    LessStrict(FieldsOf(m1), FieldsOf(m2));
    if m1 < m2 {
      FieldsOrder(m1, m2);
    } else if m2 < m1 {
      FieldsOrder(m2, m1);
    }
  }

  // ---- Reading a timestamp ----

  /** The number a string of decimal digits writes. */
  function Number(s: string): int {
    if s == [] then 0 else 10 * Number(s[..|s| - 1]) + (s[|s| - 1] as int - '0' as int)
  }

  lemma {:induction false} FixedReads(n: nat, w: nat)
    requires n < Pow10(w)
    ensures Number(Fixed(n, w)) == n
  {
    if w > 0 {
      FixedReads(n / 10, w - 1);
      assert Fixed(n, w)[..w - 1] == Fixed(n / 10, w - 1);
    }
  }

  /** Where the k-th field starts. */
  function Offset(widths: seq<nat>, k: nat): nat
    requires k <= |widths|
  {
    if k == 0 then 0 else widths[0] + 1 + Offset(widths[1..], k - 1)
  }

  lemma {:induction false} StampLength(fields: seq<int>, widths: seq<nat>, seps: string)
    requires |fields| == |widths| == |seps| && Fits(fields, widths)
    ensures |Stamp(fields, widths, seps)| == Offset(widths, |widths|)
  {
    if fields != [] {
      StampLength(fields[1..], widths[1..], seps[1..]);
    }
  }

  lemma Past(head: string, rest: string, from: nat, to: nat)
    requires from <= to < |rest|
    ensures (head + rest)[|head| + from..|head| + to] == rest[from..to] && (head + rest)[|head| + to] == rest[to]
  {}

  lemma StampStep(fields: seq<int>, widths: seq<nat>, seps: string)
    requires |fields| == |widths| == |seps| > 0 && Fits(fields, widths)
    ensures Fits(fields[1..], widths[1..])
    ensures Stamp(fields, widths, seps) ==
            (Fixed(fields[0], widths[0]) + [seps[0]]) + Stamp(fields[1..], widths[1..], seps[1..])
  {
    hide Fixed, Pow10;
    assert Pad(fields[0], widths[0]) == Fixed(fields[0], widths[0]);
    Joined(Fixed(fields[0], widths[0]), [seps[0]], Stamp(fields[1..], widths[1..], seps[1..]));
  }

  lemma Joined(a: string, b: string, c: string)
    ensures a + (b + c) == (a + b) + c
  {}

  /** Field `k` of a stamp is where it should be, and its separator after it. */
  lemma {:induction false} StampField(fields: seq<int>, widths: seq<nat>, seps: string, k: nat)
    requires |fields| == |widths| == |seps| && Fits(fields, widths) && k < |fields|
    ensures var s, from := Stamp(fields, widths, seps), Offset(widths, k);
      && from + widths[k] < |s|
      && Number(s[from..from + widths[k]]) == fields[k]
      && s[from + widths[k]] == seps[k]
  {
    hide Stamp, Number;
    StampStep(fields, widths, seps);
    var digits := Fixed(fields[0], widths[0]);
    var head, rest := digits + [seps[0]], Stamp(fields[1..], widths[1..], seps[1..]);
    if k == 0 {
      FixedReads(fields[0], widths[0]);
      assert (head + rest)[0..widths[0]] == digits;
    } else {
      StampField(fields[1..], widths[1..], seps[1..], k - 1);
      hide Fixed, Fits;
      var from := Offset(widths[1..], k - 1);
      Past(head, rest, from, from + widths[k]);
      assert Offset(widths, k) == |head| + from;
    }
  }

  lemma Offsets()
    ensures Offset(WIDTHS, 0) == 0 && Offset(WIDTHS, 1) == 5 && Offset(WIDTHS, 2) == 8 && Offset(WIDTHS, 3) == 11
    ensures Offset(WIDTHS, 4) == 14 && Offset(WIDTHS, 5) == 17 && Offset(WIDTHS, 6) == 20 && Offset(WIDTHS, 7) == 24
  {
    OffsetStep(WIDTHS, 0);
    OffsetStep(WIDTHS, 1);
    OffsetStep(WIDTHS, 2);
    OffsetStep(WIDTHS, 3);
    OffsetStep(WIDTHS, 4);
    OffsetStep(WIDTHS, 5);
    OffsetStep(WIDTHS, 6);
    hide Offset;
    assert Offset(WIDTHS, 0) == 0 by { NoOffset(WIDTHS); }
  }

  lemma NoOffset(widths: seq<nat>)
    ensures Offset(widths, 0) == 0
  {}

  lemma {:induction false} OffsetStep(widths: seq<nat>, k: nat)
    requires k < |widths|
    ensures Offset(widths, k + 1) == Offset(widths, k) + widths[k] + 1
  {
    if k > 0 {
      OffsetStep(widths[1..], k - 1);
    }
  }

  /** The shape of a timestamp: yyyy-mm-ddThh:mm:ss.mmmZ. */
  predicate Shaped(s: string) {
    && |s| == 24 && s[4] == '-' && s[7] == '-' && s[10] == 'T' && s[13] == ':' && s[16] == ':' && s[19] == '.' && s[23] == 'Z'
  }

  lemma FieldsRead(ms: int)
    requires YEAR_0_MS <= ms < YEAR_10000_MS
    ensures var s, f := Rfc3339(ms), FieldsOf(ms);
      && Shaped(s)
      && Number(s[0..4]) == f[0] && Number(s[5..7]) == f[1] && Number(s[8..10]) == f[2] && Number(s[11..13]) == f[3]
      && Number(s[14..16]) == f[4] && Number(s[17..19]) == f[5] && Number(s[20..23]) == f[6]
  {
    hide Stamp, FieldsOf, Fits, Number, Offset;
    FieldsFit(ms);
    var f, seps := FieldsOf(ms), "--T::.Z";
    Offsets();
    StampLength(f, WIDTHS, seps);
    StampField(f, WIDTHS, seps, 0);
    StampField(f, WIDTHS, seps, 1);
    StampField(f, WIDTHS, seps, 2);
    StampField(f, WIDTHS, seps, 3);
    StampField(f, WIDTHS, seps, 4);
    StampField(f, WIDTHS, seps, 5);
    StampField(f, WIDTHS, seps, 6);
  }

  /** Main: in years 0 to 9999 a timestamp is yyyy-mm-ddThh:mm:ss.mmmZ, of a proper date and a time of day, and the milliseconds
      up to what it says are the instant's. */
  lemma TimestampReads(ms: int)
    requires YEAR_0_MS <= ms < YEAR_10000_MS
    ensures var s := Rfc3339(ms);
      && Shaped(s)
      && var date := Date(Number(s[0..4]), Number(s[5..7]), Number(s[8..10]));
      && Proper(date)
      && 0 <= Number(s[11..13]) <= 23 && 0 <= Number(s[14..16]) <= 59 && 0 <= Number(s[17..19]) <= 59
      && 0 <= Number(s[20..23]) <= 999
      && ms == 86400000 * DaysFromCivil(date) + 3600000 * Number(s[11..13]) + 60000 * Number(s[14..16])
               + 1000 * Number(s[17..19]) + Number(s[20..23])
  {
    hide Rfc3339, Number, CivilFromDays, DaysFromCivil, Leap;
    FieldsRead(ms);
    CivilIsProper(ms / 86400000);
    TimeOfDay(ms % 86400000);
  }

  // ---- Numbers too long for their field ----

  lemma {:induction false} LeadingDigit(n: nat, w: nat)
    requires w > 0 && Pow10(w - 1) <= n < Pow10(w)
    ensures Fixed(n, w)[0] != '0'
  {
    if w > 1 {
      LeadingDigit(n / 10, w - 1);
    }
  }

  lemma {:induction false} WiderReads(n: nat, w: nat)
    ensures var s := PadNat(n, w);
      Number(s) == n && (if n < Pow10(w) then |s| == w else |s| > w && s[0] != '0')
    decreases n - Pow10(w)
  {
    if n < Pow10(w) {
      FixedReads(n, w);
    } else {
      WiderReads(n, w + 1);
      if n < Pow10(w + 1) {
        LeadingDigit(n, w + 1);
      }
    }
  }

  /** A padded number reads as itself, behind a minus if it is negative, and is as wide as asked, or wider without a zero in
      front. */
  lemma PadReads(n: int, w: nat)
    requires w > 1
    ensures var s := Pad(n, w);
      && |s| >= w
      && (if n >= 0 then Number(s) == n && (|s| > w ==> s[0] != '0')
          else s[0] == '-' && Number(s[1..]) == -n && (|s| > w ==> s[1] != '0'))
  {
    hide PadNat, Number, Pow10;
    if n >= 0 {
      WiderReads(n, w);
    } else {
      WiderReads(-n, w - 1);
      var digits := PadNat(-n, w - 1);
      assert ("-" + digits)[1..] == digits;
    }
  }
}
