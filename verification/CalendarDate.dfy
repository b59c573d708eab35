/** catalogue/valid-date.js: a date is judged by sending it through a UTC day number and back. */
module CalendarDate {
  import opened Texts

  // ----- the Gregorian calendar, stated without day numbers -----

  predicate IsLeap(year: int) {
    year % 4 == 0 && (year % 100 != 0 || year % 400 == 0)
  }

  function DaysInMonth(year: int, month: int): int {
    if month == 2 then (if IsLeap(year) then 29 else 28)
    else if month == 4 || month == 6 || month == 9 || month == 11 then 30
    else 31
  }

  predicate IsGregorian(year: int, month: int, day: int) {
    1 <= month <= 12 && 1 <= day <= DaysInMonth(year, month)
  }

  // ----- day numbers, as section 21.4.1 of ECMA-262 defines them -----

  /** The number of the first day of a year, counted from 1 January 1970. */
  function DayFromYear(year: int): int {
    365 * (year - 1970) + (year - 1969) / 4 - (year - 1901) / 100 + (year - 1601) / 400
  }

  function DaysInYear(year: int): int {
    if IsLeap(year) then 366 else 365
  }

  /** The day within the year on which month `m` (0 to 11) begins. */
  function MonthStart(year: int, m: int): int
    requires 0 <= m <= 12
  {
    if m == 0 then 0 else MonthStart(year, m - 1) + DaysInMonth(year, m)
  }

  /** MakeDay: months beyond the year roll into later years, days beyond the month into later months. */
  function MakeDay(year: int, month: int, date: int): int {
    DayFromYear(year + month / 12) + MonthStart(year + month / 12, month % 12) + date - 1
  }

  /** `Date.UTC(year, month, date)` as a day number: years 0 to 99 mean 1900 to 1999. */
  function DateUtc(year: int, month: int, date: int): int {
    MakeDay(if 0 <= year <= 99 then 1900 + year else year, month, date)
  }

  lemma EveryFourth(year: int)
    ensures (year - 1968) / 4 == (year - 1969) / 4 + (if year % 4 == 0 then 1 else 0)
  {
  }

  lemma EveryHundredth(year: int)
    ensures (year - 1900) / 100 == (year - 1901) / 100 + (if year % 100 == 0 then 1 else 0)
  {
  }

  lemma EveryFourHundredth(year: int)
    ensures (year - 1600) / 400 == (year - 1601) / 400 + (if year % 400 == 0 then 1 else 0)
  {
  }

  lemma CenturiesAreLeapCandidates(year: int)
    ensures year % 400 == 0 ==> year % 100 == 0
    ensures year % 100 == 0 ==> year % 4 == 0
  {
  }

  /** Consecutive first days are 365 or 366 days apart, as the leap rule says. */
  lemma YearLength(year: int)
    ensures DayFromYear(year + 1) == DayFromYear(year) + DaysInYear(year)
  {
    EveryFourth(year);
    EveryHundredth(year);
    EveryFourHundredth(year);
    CenturiesAreLeapCandidates(year);
  }

  lemma YearLengthSum(year: int)
    ensures MonthStart(year, 12) == DaysInYear(year)
  {
    assert MonthStart(year, 1) == 31;
    assert MonthStart(year, 2) == 31 + DaysInMonth(year, 2);
    var m3 := MonthStart(year, 3);
    assert m3 == 62 + DaysInMonth(year, 2);
    assert MonthStart(year, 5) == m3 + 61;
    assert MonthStart(year, 7) == m3 + 122;
    assert MonthStart(year, 9) == m3 + 183;
    assert MonthStart(year, 11) == m3 + 244;
  }

  lemma {:induction false} FirstDaysIncrease(y: int, z: int)
    requires y < z
    ensures DayFromYear(y) + DaysInYear(y) <= DayFromYear(z)
    decreases z - y
  {
    YearLength(y);
    if y + 1 < z {
      FirstDaysIncrease(y + 1, z);
    }
  }

  lemma {:induction false} MonthsIncrease(year: int, m: int, n: int)
    requires 0 <= m < n <= 12
    ensures MonthStart(year, m) + DaysInMonth(year, m + 1) <= MonthStart(year, n)
    decreases n
  {
    if m + 1 < n {
      MonthsIncrease(year, m, n - 1);
    }
  }

  // ----- reading a day number back: YearFromTime, MonthFromTime, DateFromTime -----

  /** `getUTCFullYear`: the last year that begins on or before the day. */
  function YearOfDay(day: int, guess: int): (year: int)
    ensures DayFromYear(year) <= day < DayFromYear(year + 1)
    decreases if DayFromYear(guess) <= day then day - DayFromYear(guess) else DayFromYear(guess) - day + 366
  {
    YearLength(guess);
    YearLength(guess - 1);
    if day < DayFromYear(guess) then YearOfDay(day, guess - 1)
    else if DayFromYear(guess + 1) <= day then YearOfDay(day, guess + 1)
    else guess
  }

  function FullYear(day: int): (year: int)
    ensures DayFromYear(year) <= day < DayFromYear(year + 1)
  {
    YearOfDay(day, 1970)
  }

  /** `getUTCMonth`, 0 to 11: the last month that begins on or before the day within the year. */
  function MonthWithin(year: int, d: int, m: int): (month: int)
    requires 0 <= m <= 11 && MonthStart(year, m) <= d < MonthStart(year, 12)
    ensures 0 <= month <= 11 && MonthStart(year, month) <= d < MonthStart(year, month + 1)
    decreases 11 - m
  {
    if m == 11 || d < MonthStart(year, m + 1) then m else MonthWithin(year, d, m + 1)
  }

  function MonthOf(day: int): (month: int)
    ensures 0 <= month <= 11
    ensures var y := FullYear(day);
            MonthStart(y, month) <= day - DayFromYear(y) < MonthStart(y, month + 1)
  {
    var y := FullYear(day);
    YearLength(y);
    YearLengthSum(y);
    MonthWithin(y, day - DayFromYear(y), 0)
  }

  /** `getUTCDate`, from 1. */
  function DateOf(day: int): int {
    var y := FullYear(day);
    day - DayFromYear(y) - MonthStart(y, MonthOf(day)) + 1
  }

  lemma FullYearUnique(day: int, year: int)
    requires DayFromYear(year) <= day < DayFromYear(year + 1)
    ensures FullYear(day) == year
  {
    var y := FullYear(day);
    if y < year {
      FirstDaysIncrease(y, year);
      YearLength(y);
    } else if year < y {
      FirstDaysIncrease(year, y);
      YearLength(year);
    }
  }

  lemma MonthUnique(day: int, year: int, month: int)
    requires FullYear(day) == year && 0 <= month <= 11
    requires MonthStart(year, month) <= day - DayFromYear(year) < MonthStart(year, month + 1)
    ensures MonthOf(day) == month
  {
    var m := MonthOf(day);
    if m < month {
      MonthsIncrease(year, m, month);
    } else if month < m {
      MonthsIncrease(year, month, m);
    }
  }

  /** Whatever day number it is given, reading back always names a date of the calendar. */
  lemma ReadBackIsGregorian(day: int)
    ensures IsGregorian(FullYear(day), MonthOf(day) + 1, DateOf(day))
  {
  }

  /** Reading back undoes MakeDay on every date of the calendar. */
  lemma ReadBackInverts(year: int, month: int, day: int)
    requires IsGregorian(year, month, day)
    ensures var n := MakeDay(year, month - 1, day);
            FullYear(n) == year && MonthOf(n) == month - 1 && DateOf(n) == day
  {
    var n := MakeDay(year, month - 1, day);
    assert (month - 1) / 12 == 0 && (month - 1) % 12 == month - 1;
    YearLength(year);
    YearLengthSum(year);
    if month < 12 {
      MonthsIncrease(year, month - 1, 12);
    }
    MonthStartNonNegative(year, month - 1);
    FullYearUnique(n, year);
    MonthUnique(n, year, month - 1);
  }

  lemma {:induction false} MonthStartNonNegative(year: int, m: int)
    requires 0 <= m <= 12
    ensures 0 <= MonthStart(year, m) <= 31 * m
    decreases m
  {
    if m > 0 {
      MonthStartNonNegative(year, m - 1);
    }
  }

  // ----- isRealYmd -----

  predicate IsRealYmd(year: int, month: int, day: int) {
    var n := DateUtc(year, month - 1, day);
    FullYear(n) == year && MonthOf(n) == month - 1 && DateOf(n) == day
  }

  /** A remapped year 0 to 99 never comes back as itself, however far month and day roll over. */
  lemma RemappedYearDiffers(year: int, month: int, day: int)
    requires 0 <= year <= 99 && 0 <= month <= 99 && 0 <= day <= 99
    ensures FullYear(DateUtc(year, month - 1, day)) > 99
  {
    var n := DateUtc(year, month - 1, day);
    var y := 1900 + year + (month - 1) / 12;
    assert y >= 1899;
    MonthStartNonNegative(y, (month - 1) % 12);
    assert n >= DayFromYear(y) - 1;
    FirstDaysIncrease(1898, 1899);
    if y > 1899 {
      FirstDaysIncrease(1899, y);
    }
    var back := FullYear(n);
    if back < 1898 {
      FirstDaysIncrease(back, 1898);
      YearLength(back);
    }
  }

  /** The round trip accepts exactly the Gregorian dates of the years from 100. */
  lemma CalendarExact(year: int, month: int, day: int)
    requires 0 <= year <= 9999 && 0 <= month <= 99 && 0 <= day <= 99
    ensures IsRealYmd(year, month, day) <==> year >= 100 && IsGregorian(year, month, day)
  {
    var n := DateUtc(year, month - 1, day);
    ReadBackIsGregorian(n);
    if year <= 99 {
      RemappedYearDiffers(year, month, day);
    } else if IsGregorian(year, month, day) {
      ReadBackInverts(year, month, day);
    }
  }

  /** 1 January of the year 99 is a date of the calendar, and it is refused. */
  lemma EarlyYearsRefused()
    ensures IsGregorian(99, 1, 1) && !IsRealYmd(99, 1, 1)
  {
    CalendarExact(99, 1, 1);
    hide IsRealYmd;
  }

  // ----- the texts: isRealDate and isRealTimestamp -----

  const T_MARK: Unit := 'T' as int
  const Z_MARK: Unit := 'Z' as int

  predicate AllDigits(t: Text) {
    forall i :: 0 <= i < |t| ==> IsDigit(t[i])
  }

  /** `\d{4}-\d{2}-\d{2}`, anchored at both ends. */
  predicate DateShape(s: Text) {
    && |s| == 10 && s[4] == MINUS && s[7] == MINUS
    && AllDigits(s[..4]) && AllDigits(s[5..7]) && AllDigits(s[8..])
  }

  predicate IsRealDate(s: Text) {
    DateShape(s) && IsRealYmd(DecimalValue(s[..4]), DecimalValue(s[5..7]), DecimalValue(s[8..]))
  }

  /** An optional fraction of a second, then the closing Z. */
  predicate TailShape(t: Text) {
    || t == [Z_MARK]
    || (|t| >= 3 && t[0] == DOT && AllDigits(t[1..|t| - 1]) && t[|t| - 1] == Z_MARK)
  }

  predicate ClockShape(c: Text) {
    && |c| == 9 && c[0] == T_MARK && c[3] == COLON && c[6] == COLON
    && AllDigits(c[1..3]) && AllDigits(c[4..6]) && AllDigits(c[7..])
  }

  predicate IsRealClock(c: Text) {
    ClockShape(c) && DecimalValue(c[1..3]) <= 23 && DecimalValue(c[4..6]) <= 59 && DecimalValue(c[7..]) <= 59
  }

  predicate IsRealTimestamp(t: Text) {
    |t| >= 20 && IsRealDate(t[..10]) && IsRealClock(t[10..19]) && TailShape(t[19..])
  }

  /** `n` written with exactly `width` digits. */
  function Pad(n: nat, width: nat): (t: Text)
    ensures |t| == width && AllDigits(t)
  {
    if width == 0 then [] else Pad(n / 10, width - 1) + [ZERO + n % 10]
  }

  lemma {:induction false} PadOfValue(t: Text)
    requires AllDigits(t)
    ensures Pad(DecimalValue(t), |t|) == t
  {
    if t != [] {
      var init, last := t[..|t| - 1], t[|t| - 1];
      PadOfValue(init);
      assert t == init + [last];
      LastDigit(DecimalValue(init), last, |init|);
      assert DecimalValue(t) == 10 * DecimalValue(init) + (last - ZERO);
      hide Pad, DecimalValue;
    }
  }

  lemma LastDigit(n: nat, u: Unit, w: nat)
    requires IsDigit(u)
    ensures Pad(10 * n + (u - ZERO), w + 1) == Pad(n, w) + [u]
  {
    assert (10 * n + (u - ZERO)) / 10 == n && (10 * n + (u - ZERO)) % 10 == u - ZERO;
  }

  function Pow10(w: nat): nat {
    if w == 0 then 1 else 10 * Pow10(w - 1)
  }

  lemma {:induction false} ValueOfPad(n: nat, w: nat)
    requires n < Pow10(w)
    ensures DecimalValue(Pad(n, w)) == n
  {
    if w > 0 {
      ValueOfPad(n / 10, w - 1);
      assert Pad(n, w)[..w - 1] == Pad(n / 10, w - 1);
    }
  }

  lemma {:induction false} ValueBound(t: Text)
    requires AllDigits(t)
    ensures DecimalValue(t) < Pow10(|t|)
  {
    if t != [] {
      ValueBound(t[..|t| - 1]);
      assert IsDigit(t[|t| - 1]);
    }
  }

  lemma Powers()
    ensures Pow10(2) == 100 && Pow10(4) == 10000
  {
    assert Pow10(3) == 1000;
  }

  function DateText(year: nat, month: nat, day: nat): Text {
    Pad(year, 4) + [MINUS] + Pad(month, 2) + [MINUS] + Pad(day, 2)
  }

  function ClockText(h: nat, m: nat, s: nat): Text {
    [T_MARK] + Pad(h, 2) + [COLON] + Pad(m, 2) + [COLON] + Pad(s, 2)
  }

  ghost predicate PrintsDate(s: Text, year: nat, month: nat, day: nat) {
    100 <= year <= 9999 && IsGregorian(year, month, day) && s == DateText(year, month, day)
  }

  /** A date text is accepted exactly when it is the printed form of a Gregorian date of the
      years 100 to 9999. */
  lemma RealDateExact(s: Text)
    ensures IsRealDate(s) <==> exists year, month, day :: PrintsDate(s, year, month, day)
  {
    if IsRealDate(s) {
      RealDateIsPrinted(s);
    }
    if exists year, month, day :: PrintsDate(s, year, month, day) {
      var year, month, day :| PrintsDate(s, year, month, day);
      PrintedDateIsReal(year, month, day);
    }
  }

  lemma RealDateIsPrinted(s: Text)
    requires IsRealDate(s)
    ensures PrintsDate(s, DecimalValue(s[..4]), DecimalValue(s[5..7]), DecimalValue(s[8..]))
  {
    var y, m, d := DecimalValue(s[..4]), DecimalValue(s[5..7]), DecimalValue(s[8..]);
    Powers();
    ValueBound(s[..4]);
    ValueBound(s[5..7]);
    ValueBound(s[8..]);
    CalendarExact(y, m, d);
    PadOfValue(s[..4]);
    PadOfValue(s[5..7]);
    PadOfValue(s[8..]);
    hide Pad, Pow10, IsRealYmd, DecimalValue, IsGregorian;
    DateParts(s);
  }

  lemma DateParts(s: Text)
    requires |s| == 10
    ensures s == s[..4] + [s[4]] + s[5..7] + [s[7]] + s[8..]
  {
  }

  lemma PrintedDateIsReal(year: nat, month: nat, day: nat)
    requires 100 <= year <= 9999 && IsGregorian(year, month, day)
    ensures IsRealDate(DateText(year, month, day))
  {
    DateTextParts(year, month, day);
    hide Pad, DateText, DecimalValue, IsRealYmd;
    ValuesOfDate(year, month, day);
    CalendarExact(year, month, day);
    hide IsGregorian;
  }

  lemma DateTextParts(year: nat, month: nat, day: nat)
    ensures var s := DateText(year, month, day);
            DateShape(s) && s[..4] == Pad(year, 4) && s[5..7] == Pad(month, 2) && s[8..] == Pad(day, 2)
  {
    var y, m, d := Pad(year, 4), Pad(month, 2), Pad(day, 2);
    assert DateText(year, month, day) == y + [MINUS] + m + [MINUS] + d;
    hide Pad, DateText;
    ThreeParts(y, MINUS, m, MINUS, d);
  }

  lemma ThreeParts<T>(a: seq<T>, p: T, b: seq<T>, q: T, c: seq<T>)
    ensures var s, i := a + [p] + b + [q] + c, |a| + 1 + |b|;
            && |s| == i + 1 + |c| && s[..|a|] == a && s[|a|] == p && s[|a| + 1..i] == b && s[i] == q && s[i + 1..] == c
  {
  }

  lemma ValuesOfDate(year: nat, month: nat, day: nat)
    requires year <= 9999 && IsGregorian(year, month, day)
    ensures DecimalValue(Pad(year, 4)) == year && DecimalValue(Pad(month, 2)) == month && DecimalValue(Pad(day, 2)) == day
  {
    Powers();
    assert month < 100 && day < 100;
    hide Pad, Pow10, DecimalValue, IsGregorian;
    ValueOfPad(year, 4);
    ValueOfPad(month, 2);
    ValueOfPad(day, 2);
  }

  ghost predicate PrintsInstant(t: Text, date: Text, h: nat, m: nat, s: nat, tail: Text) {
    && IsRealDate(date) && h <= 23 && m <= 59 && s <= 59 && TailShape(tail)
    && t == date + ClockText(h, m, s) + tail
  }

  /** A timestamp is accepted exactly when it is an accepted date, a clock reading from 00:00:00 to
      23:59:59 and an optional fraction, closed by Z. */
  lemma RealTimestampExact(t: Text)
    ensures IsRealTimestamp(t) <==> exists date, h, m, s, tail :: PrintsInstant(t, date, h, m, s, tail)
  {
    if IsRealTimestamp(t) {
      TimestampIsPrinted(t);
    }
    if exists date, h, m, s, tail :: PrintsInstant(t, date, h, m, s, tail) {
      var date, h, m, s, tail :| PrintsInstant(t, date, h, m, s, tail);
      PrintedInstantIsReal(date, h, m, s, tail);
    }
  }

  lemma ClockIsPrinted(c: Text)
    requires IsRealClock(c)
    ensures c == ClockText(DecimalValue(c[1..3]), DecimalValue(c[4..6]), DecimalValue(c[7..]))
  {
    PadOfValue(c[1..3]);
    PadOfValue(c[4..6]);
    PadOfValue(c[7..]);
    hide Pad, DecimalValue;
    assert c == [c[0]] + c[1..3] + [c[3]] + c[4..6] + [c[6]] + c[7..];
  }

  lemma PrintedClockIsReal(h: nat, m: nat, s: nat)
    requires h <= 23 && m <= 59 && s <= 59
    ensures |ClockText(h, m, s)| == 9 && IsRealClock(ClockText(h, m, s))
  {
    ClockTextParts(h, m, s);
    Powers();
    hide Pad, ClockText, DecimalValue, Pow10;
    ValueOfPad(h, 2);
    ValueOfPad(m, 2);
    ValueOfPad(s, 2);
  }

  lemma ClockTextParts(h: nat, m: nat, s: nat)
    ensures var c := ClockText(h, m, s);
            ClockShape(c) && c[1..3] == Pad(h, 2) && c[4..6] == Pad(m, 2) && c[7..] == Pad(s, 2)
  {
    var x, y, z := Pad(h, 2), Pad(m, 2), Pad(s, 2);
    var c := ClockText(h, m, s);
    assert c == ([T_MARK] + x) + [COLON] + y + [COLON] + z;
    hide Pad, ClockText;
    ThreeParts([T_MARK] + x, COLON, y, COLON, z);
    assert c[1..3] == ([T_MARK] + x)[1..] == x;
  }

  lemma ReadClock(c: Text) returns (h: nat, m: nat, s: nat)
    requires IsRealClock(c)
    ensures h <= 23 && m <= 59 && s <= 59 && c == ClockText(h, m, s)
  {
    ClockIsPrinted(c);
    h, m, s := DecimalValue(c[1..3]), DecimalValue(c[4..6]), DecimalValue(c[7..]);
  }

  lemma TimestampIsPrinted(t: Text)
    requires IsRealTimestamp(t)
    ensures exists date, h, m, s, tail :: PrintsInstant(t, date, h, m, s, tail)
  {
    hide IsRealDate, IsRealClock, ClockText, TailShape;
    var h, m, s := ReadClock(t[10..19]);
    InstantParts(t);
    assert PrintsInstant(t, t[..10], h, m, s, t[19..]);
  }

  lemma InstantParts(t: Text)
    requires |t| >= 20
    ensures t == t[..10] + t[10..19] + t[19..]
  {
  }

  lemma PrintedInstantIsReal(date: Text, h: nat, m: nat, s: nat, tail: Text)
    requires IsRealDate(date) && h <= 23 && m <= 59 && s <= 59 && TailShape(tail)
    ensures IsRealTimestamp(date + ClockText(h, m, s) + tail)
  {
    PrintedClockIsReal(h, m, s);
    var c := ClockText(h, m, s);
    var t := date + c + tail;
    hide ClockText, IsRealClock;
    assert t[..10] == date && t[10..19] == c && t[19..] == tail;
  }
}
