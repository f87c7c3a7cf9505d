/** `parse_iso8601`: a closed form for the day number, against a count of days year by year. */
module CivilDate {
  import opened Common
  import opened Bytes

  // ---- the calendar ----------------------------------------------------------------

  /** The leap-year rule of Appendix C of RFC 3339. */
  predicate Leap(y: int) {
    y % 4 == 0 && (y % 100 != 0 || y % 400 == 0)
  }

  function YearLen(y: int): nat {
    if Leap(y) then 366 else 365
  }

  function MonthLen(y: int, m: int): nat {
    if m == 2 then (if Leap(y) then 29 else 28) else if m in {4, 6, 9, 11} then 30 else 31
  }

  /** Days from 1 January 1970 to 1 January of year `y`. */
  function DaysBeforeYear(y: int): int
    decreases if y >= 1970 then y - 1970 else 1970 - y
  {
    if y == 1970 then 0
    else if y > 1970 then DaysBeforeYear(y - 1) + YearLen(y - 1)
    else DaysBeforeYear(y + 1) - YearLen(y)
  }

  function DaysBeforeMonth(y: int, m: int): nat
    requires 1 <= m <= 12
  {
    if m == 1 then 0 else DaysBeforeMonth(y, m - 1) + MonthLen(y, m - 1)
  }

  function DayCount(y: int, m: int, d: int): int
    requires 1 <= m <= 12
  {
    DaysBeforeYear(y) + DaysBeforeMonth(y, m) + d - 1
  }

  predicate ValidDate(y: int, m: int, d: int) {
    1 <= m <= 12 && 1 <= d <= MonthLen(y, m)
  }

  // ---- the closed form ---------------------------------------------------------------

  /** Years start in March; an era is 400 of them. The divisions are of non-negative numbers for every
      month the text can name, so rounding toward zero is rounding down. */
  function Days(y: int, mo: int, d: int): int {
    var yy := if mo <= 2 then y - 1 else y;
    var era, yoe := yy / 400, yy % 400;
    var mp := if mo > 2 then mo - 3 else mo + 9;
    var doy := (153 * mp + 2) / 5 + d - 1;
    var doe := yoe * 365 + yoe / 4 - yoe / 100 + doy;
    era * 146_097 + doe - 719_468
  }

  /** Days before March of year `y`, by the leap-year rule. */
  function Before(y: int): int {
    365 * y + y / 4 - y / 100 + y / 400
  }

  lemma EraByEra(y: int)
    ensures y / 400 * 146_097 + y % 400 * 365 + y % 400 / 4 - y % 400 / 100 == Before(y)
  {
    var e, r := y / 400, y % 400;
    assert y == 400 * e + r;
    assert y / 4 == 100 * e + r / 4;
    assert y / 100 == 4 * e + r / 100;
  }

  lemma OneYear(y: int)
    ensures Before(y) == Before(y - 1) + YearLen(y)
  {
    Quotient(y, 4);
    Quotient(y, 100);
    Quotient(y, 400);
    assert y % 400 == 0 ==> y % 100 == 0;
    assert y % 100 == 0 ==> y % 4 == 0;
  }

  lemma Quotient(y: int, n: nat)
    requires n in {4, 100, 400}
    ensures y / n == (y - 1) / n + (if y % n == 0 then 1 else 0)
  {}

  lemma {:induction false} NewYear(y: int)
    ensures Days(y, 1, 1) == DaysBeforeYear(y)
    decreases if y >= 1970 then y - 1970 else 1970 - y
  {
    EraByEra(y - 1);
    if y > 1970 {
      NewYear(y - 1);
      EraByEra(y - 2);
      OneYear(y - 1);
    } else if y < 1970 {
      NewYear(y + 1);
      EraByEra(y);
      OneYear(y);
    }
  }

  lemma MonthStarts(y: int, m: int)
    requires 1 <= m <= 12
    ensures DaysBeforeMonth(y, m) ==
              (var leap := if Leap(y) then 1 else 0;
               if m <= 2 then (153 * (m + 9) + 2) / 5 - 306 else (153 * (m - 3) + 2) / 5 + 59 + leap)
  {
    if m > 1 { MonthStarts(y, m - 1); }
  }

  /** The closed form counts days, for every date of the Gregorian calendar. */
  lemma DaysAreCounted(y: int, m: int, d: int)
    requires ValidDate(y, m, d)
    ensures Days(y, m, d) == DayCount(y, m, d)
  {
    hide Before, DaysBeforeYear, DaysBeforeMonth;
    NewYear(y);
    MonthStarts(y, m);
    EraByEra(y - 1);
    EraByEra(y);
    OneYear(y);
  }

  // ---- order -----------------------------------------------------------------------

  predicate Earlier(y: int, m: int, d: int, y': int, m': int, d': int) {
    y < y' || (y == y' && (m < m' || (m == m' && d < d')))
  }

  lemma {:induction false} YearsGrow(y: int, y': int)
    requires y < y'
    ensures DaysBeforeYear(y) + YearLen(y) <= DaysBeforeYear(y')
    decreases y' - y
  {
    StepsUp(y' - 1);
    if y < y' - 1 { YearsGrow(y, y' - 1); }
  }

  lemma StepsUp(y: int)
    ensures DaysBeforeYear(y + 1) == DaysBeforeYear(y) + YearLen(y)
  {}

  lemma {:induction false} MonthsGrow(y: int, m: int, m': int)
    requires 1 <= m < m' <= 12
    ensures DaysBeforeMonth(y, m) + MonthLen(y, m) <= DaysBeforeMonth(y, m')
    decreases m' - m
  {
    if m < m' - 1 { MonthsGrow(y, m, m' - 1); }
  }

  lemma WithinYear(y: int, m: int)
    requires 1 <= m <= 12
    ensures DaysBeforeMonth(y, m) + MonthLen(y, m) <= YearLen(y)
  {
    MonthStarts(y, 12);
    if m < 12 { MonthsGrow(y, m, 12); }
  }

  lemma CountGrows(y: int, m: int, d: int, y': int, m': int, d': int)
    requires ValidDate(y, m, d) && ValidDate(y', m', d') && Earlier(y, m, d, y', m', d')
    ensures DayCount(y, m, d) < DayCount(y', m', d')
  {
    hide DaysBeforeYear, DaysBeforeMonth, MonthLen;
    if y < y' {
      YearsGrow(y, y');
      WithinYear(y, m);
    } else if m < m' {
      MonthsGrow(y, m, m');
    }
  }

  // ---- the text --------------------------------------------------------------------

  datatype Moment = Moment(y: int, mo: int, d: int, h: int, mi: int, sec: int) {
    predicate Valid() {
      0 <= y <= 9999 && ValidDate(y, mo, d) && 0 <= h < 24 && 0 <= mi < 60 && 0 <= sec < 60
    }

    predicate Before(that: Moment) {
      || Earlier(y, mo, d, that.y, that.mo, that.d)
      || (y == that.y && mo == that.mo && d == that.d && TimeOfDay() < that.TimeOfDay())
    }

    function TimeOfDay(): int {
      h * 3600 + mi * 60 + sec
    }

    /** Seconds from the start of 1970. */
    function Seconds(): int {
      Days(y, mo, d) * 86_400 + TimeOfDay()
    }
  }

  predicate AllDigits(s: Bytes) {
    forall i :: 0 <= i < |s| ==> 48 <= s[i] <= 57
  }

  function Value(s: Bytes): nat
    requires AllDigits(s)
  {
    if s == [] then 0 else Value(s[..|s| - 1]) * 10 + (s[|s| - 1] - 48)
  }

  /** `str::parse::<i64>` on text too short to overflow: an optional sign, then digits. */
  function ParseInt(s: Bytes): Option<int> {
    var signed := s != [] && s[0] in {43, 45};
    var digits := if signed then s[1..] else s;
    if digits == [] || !AllDigits(digits) then None
    else
      var v: int := Value(digits);
      Some(if signed && s[0] == 45 then -v else v)
  }

  function ParseIso8601(s: Bytes): nat {
    if |s| < 19 || s[4] != 45 || s[7] != 45 || s[10] != 84 || s[13] != 58 || s[16] != 58 then 0 else
      var (y, mo, d) := (ParseInt(s[0..4]), ParseInt(s[5..7]), ParseInt(s[8..10]));
      var (h, mi, sec) := (ParseInt(s[11..13]), ParseInt(s[14..16]), ParseInt(s[17..19]));
      if y.None? || mo.None? || d.None? || h.None? || mi.None? || sec.None? then 0 else
        var seconds := Moment(y.value, mo.value, d.value, h.value, mi.value, sec.value).Seconds();
        if seconds < 0 then 0 else seconds
  }

  /** `n` in `width` digits. */
  function Digits(n: nat, width: nat): (s: Bytes)
    ensures |s| == width
  {
    if width == 0 then [] else Digits(n / 10, width - 1) + [48 + n % 10]
  }

  function Pow10(k: nat): nat {
    if k == 0 then 1 else 10 * Pow10(k - 1)
  }

  lemma {:induction false} DigitsRead(n: nat, width: nat)
    requires n < Pow10(width)
    ensures AllDigits(Digits(n, width)) && Value(Digits(n, width)) == n
    decreases width
  {
    if width > 0 {
      DigitsRead(n / 10, width - 1);
      var s := Digits(n / 10, width - 1);
      assert (s + [48 + n % 10])[..width - 1] == s;
    }
  }

  lemma FieldRead(n: nat, width: nat)
    requires width in {2, 4} && n < (if width == 2 then 100 else 10_000)
    ensures ParseInt(Digits(n, width)) == Some(n)
  {
    hide Digits;
    assert Pow10(0) == 1 && Pow10(1) == 10 && Pow10(2) == 100 && Pow10(3) == 1000 && Pow10(4) == 10_000;
    DigitsRead(n, width);
    assert 48 <= Digits(n, width)[0] <= 57;
  }

  /** `YYYY-MM-DDTHH:MM:SS`. */
  function Iso(t: Moment): Bytes
    requires t.Valid()
  {
    Digits(t.y, 4) + [45] + Digits(t.mo, 2) + [45] + Digits(t.d, 2) + [84] +
    Digits(t.h, 2) + [58] + Digits(t.mi, 2) + [58] + Digits(t.sec, 2)
  }

  lemma IsoLayout(t: Moment, more: Bytes)
    requires t.Valid()
    ensures var s := Iso(t) + more;
            && |s| >= 19 && s[4] == 45 && s[7] == 45 && s[10] == 84 && s[13] == 58 && s[16] == 58
            && s[0..4] == Digits(t.y, 4) && s[5..7] == Digits(t.mo, 2) && s[8..10] == Digits(t.d, 2)
            && s[11..13] == Digits(t.h, 2) && s[14..16] == Digits(t.mi, 2) && s[17..19] == Digits(t.sec, 2)
  {
    Fields(Digits(t.y, 4), Digits(t.mo, 2), Digits(t.d, 2), Digits(t.h, 2), Digits(t.mi, 2), Digits(t.sec, 2), more);
  }

  lemma Fields(a: Bytes, b: Bytes, c: Bytes, d: Bytes, e: Bytes, f: Bytes, more: Bytes)
    requires |a| == 4 && |b| == 2 && |c| == 2 && |d| == 2 && |e| == 2 && |f| == 2
    ensures var s := a + [45] + b + [45] + c + [84] + d + [58] + e + [58] + f + more;
            && |s| >= 19 && s[4] == 45 && s[7] == 45 && s[10] == 84 && s[13] == 58 && s[16] == 58
            && s[0..4] == a && s[5..7] == b && s[8..10] == c && s[11..13] == d && s[14..16] == e && s[17..19] == f
  {
    var s := a + [45] + b + [45] + c + [84] + d + [58] + e + [58] + f + more;
    assert s[0..4] == a;
    assert s[5..7] == b;
    assert s[8..10] == c;
    assert s[11..13] == d;
    assert s[14..16] == e;
    assert s[17..19] == f;
  }

  /** The text of a moment reads as the seconds its days and time count since 1970: 0 before, and then
      strictly rising with the calendar. */
  lemma IsoReads(t: Moment, more: Bytes)
    requires t.Valid()
    ensures var seconds := DayCount(t.y, t.mo, t.d) * 86_400 + t.TimeOfDay();
            && ParseIso8601(Iso(t) + more) == (if t.y < 1970 then 0 else seconds)
            && (t.y < 1970 <==> seconds < 0)
  {
    hide Digits, Iso, Days, DayCount, ParseInt;
    IsoLayout(t, more);
    FieldRead(t.y, 4);
    FieldRead(t.mo, 2);
    FieldRead(t.d, 2);
    FieldRead(t.h, 2);
    FieldRead(t.mi, 2);
    FieldRead(t.sec, 2);
    DaysAreCounted(t.y, t.mo, t.d);
    SinceThen(t);
  }

  lemma SinceThen(t: Moment)
    requires t.Valid()
    ensures t.y < 1970 <==> DayCount(t.y, t.mo, t.d) < 0
  {
    assert DayCount(1970, 1, 1) == 0;
    if t.y < 1970 {
      CountGrows(t.y, t.mo, t.d, 1970, 1, 1);
    } else if t.y > 1970 || t.mo > 1 || t.d > 1 {
      CountGrows(1970, 1, 1, t.y, t.mo, t.d);
    }
  }

  lemma LaterReadsHigher(t: Moment, u: Moment, more: Bytes, more': Bytes)
    requires t.Valid() && u.Valid() && 1970 <= t.y && t.Before(u)
    ensures ParseIso8601(Iso(t) + more) < ParseIso8601(Iso(u) + more')
  {
    hide Iso, ParseIso8601, DayCount;
    IsoReads(t, more);
    IsoReads(u, more');
    if Earlier(t.y, t.mo, t.d, u.y, u.mo, u.d) {
      CountGrows(t.y, t.mo, t.d, u.y, u.mo, u.d);
    }
  }
}
