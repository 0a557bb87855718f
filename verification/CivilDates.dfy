/** `utc_date` of src/init.rs against the Gregorian calendar, one day after the other. */
module CivilDates {
  import opened Wrappers
  import opened PercentText

  const I64_MAX: int := 0x7FFF_FFFF_FFFF_FFFF
  const U64_LIMIT: int := 0x1_0000_0000_0000_0000

  datatype Date = Date(year: int, month: int, day: int)

  // ---------------------------------------------------------------- the calendar

  predicate Leap(year: int) {
    year % 4 == 0 && (year % 100 != 0 || year % 400 == 0)
  }

  function MonthLength(year: int, month: int): int {
    if month == 2 then (if Leap(year) then 29 else 28)
    else if month == 4 || month == 6 || month == 9 || month == 11 then 30
    else 31
  }

  function NextDay(d: Date): Date {
    if d.day < MonthLength(d.year, d.month) then d.(day := d.day + 1)
    else if d.month < 12 then Date(d.year, d.month + 1, 1)
    else Date(d.year + 1, 1, 1)
  }

  /** Day `n` counted from 1970-01-01. */
  function Calendar(n: nat): Date {
    if n == 0 then Date(1970, 1, 1) else NextDay(Calendar(n - 1))
  }

  // ---------------------------------------------------------------- the arithmetic

  function YearOfEra(dayOfEra: int): int {
    (dayOfEra - dayOfEra / 1_460 + dayOfEra / 36_524 - dayOfEra / 146_096) / 365
  }

  function Civil(days: nat): Date {
    var z := days + 719_468;
    var era := z / 146_097;
    var dayOfEra := z % 146_097;
    var yearOfEra := YearOfEra(dayOfEra);
    var dayOfYear := dayOfEra - (365 * yearOfEra + yearOfEra / 4 - yearOfEra / 100);
    var monthIndex := (5 * dayOfYear + 2) / 153;
    var day := dayOfYear - (153 * monthIndex + 2) / 5 + 1;
    var month := if monthIndex < 10 then monthIndex + 3 else monthIndex - 9;
    Date(yearOfEra + era * 400 + if month <= 2 then 1 else 0, month, day)
  }

  function Padded(n: nat, width: nat): string
    decreases width - |Decimal(n)|
  {
    Zeros(width - |Decimal(n)|) + Decimal(n)
  }

  function Zeros(n: int): string {
    if n <= 0 then "" else "0" + Zeros(n - 1)
  }

  /** A checked conversion to a signed 64-bit number, zero when it does not fit. */
  function ToI64(n: nat): nat {
    if n <= I64_MAX then n else 0
  }

  predicate InRange(d: Date) {
    d.year >= 1970 && 1 <= d.month <= 12 && 1 <= d.day <= MonthLength(d.year, d.month)
  }

  function Printed(d: Date): string
    requires InRange(d)
  {
    Padded(d.year, 4) + "-" + (Padded(d.month, 2) + "-" + Padded(d.day, 2))
  }

  function UtcDate(seconds: nat): string
    requires seconds < U64_LIMIT
  {
    var days := ToI64(seconds / 86_400);
    CivilInRange(days);
    Printed(Civil(days))
  }

  // ---------------------------------------------------------------- years that begin in March

  /** The day number, from 0000-03-01, on which the year beginning in March of `y` begins. */
  function YearStart(y: int): int {
    365 * y + y / 4 - y / 100 + y / 400
  }

  lemma Eras(y: nat)
    ensures (y + 1) / 400 - y / 400 == if (y + 1) % 400 == 0 then 1 else 0
  {
  }

  lemma LeapCycles(y: nat)
    ensures y % 400 == 0 ==> y % 100 == 0
    ensures y % 100 == 0 ==> y % 4 == 0
  {
    if y % 400 == 0 { assert y == 100 * (4 * (y / 400)); }
    if y % 100 == 0 { assert y == 4 * (25 * (y / 100)); }
  }

  lemma YearLength(y: nat)
    ensures YearStart(y + 1) - YearStart(y) == if Leap(y + 1) then 366 else 365
  {
    Eras(y);
    LeapCycles(y + 1);
  }

  lemma {:induction false} YearStartGrows(x: nat, y: nat)
    requires x <= y
    ensures YearStart(x) <= YearStart(y)
    decreases y - x
  {
    if x < y {
      YearLength(y - 1);
      YearStartGrows(x, y - 1);
    }
  }

  /** A day lies in one year only. */
  lemma YearUnique(x: nat, y: nat, z: int)
    requires YearStart(x) <= z < YearStart(x + 1) && YearStart(y) <= z < YearStart(y + 1)
    ensures x == y
  {
    YearStartGrows(x + 1, if x < y then y else x + 1);
    YearStartGrows(y + 1, if y < x then x else y + 1);
  }

  /** The correction terms, at a day `t` of the year made of `a` centuries, `b` four-year cycles and
      `e` years. */
  lemma YearOfEraAt(a: int, b: int, e: int, t: int)
    requires 0 <= a < 4 && 0 <= b < 25 && 0 <= e < 4
    requires 0 <= t <= if e == 3 && (b < 24 || a == 3) then 365 else 364
    ensures YearOfEra(36_524 * a + 1_461 * b + 365 * e + t) == 100 * a + 4 * b + e
  {
    var doe := 36_524 * a + 1_461 * b + 365 * e + t;
    var w := 24 * a + b + 365 * e + t;
    assert doe == 1_460 * (25 * a + b) + w;
    var k := if w >= 1_460 then 1 else 0;
    assert doe / 1_460 == 25 * a + b + k;
    var last := if a == 3 && b == 24 && e == 3 && t == 365 then 1 else 0;
    assert doe / 36_524 == a + last;
    assert doe / 146_096 == last;
    assert doe - doe / 1_460 + doe / 36_524 - doe / 146_096 == 365 * (100 * a + 4 * b + e) + (t - k);
    assert 0 <= t - k < 365;
  }

  lemma YearStartParts(a: int, b: int, e: int)
    requires 0 <= a < 4 && 0 <= b < 25 && 0 <= e < 4
    ensures YearStart(100 * a + 4 * b + e) == 36_524 * a + 1_461 * b + 365 * e
  {
    var y := 100 * a + 4 * b + e;
    assert y / 4 == 25 * a + b && y / 100 == a && y / 400 == 0;
  }

  /** Centuries, four-year cycles, years and days of a day of the era. */
  lemma Parts(dayOfEra: int) returns (a: int, b: int, e: int, t: int)
    requires 0 <= dayOfEra < 146_097
    ensures dayOfEra == 36_524 * a + 1_461 * b + 365 * e + t
    ensures 0 <= a < 4 && 0 <= b < 25 && 0 <= e < 4
    ensures 0 <= t <= if e == 3 && (b < 24 || a == 3) then 365 else 364
  {
    a := if dayOfEra < 109_572 then dayOfEra / 36_524 else 3;
    var u := dayOfEra - 36_524 * a;
    b := u / 1_461;
    var s := u - 1_461 * b;
    e := if s < 1_095 then s / 365 else 3;
    t := s - 365 * e;
  }

  /** The year of the era is 0..399 and the day of the year 0..365: the day lies in that year. */
  lemma YearOfEraFinds(dayOfEra: int)
    requires 0 <= dayOfEra < 146_097
    ensures var y := YearOfEra(dayOfEra);
            0 <= y < 400 && YearStart(y) <= dayOfEra < YearStart(y + 1)
  {
    var a, b, e, t := Parts(dayOfEra);
    YearOfEraAt(a, b, e, t);
    YearStartParts(a, b, e);
    LeapParts(a, b, e);
    YearLength(100 * a + 4 * b + e);
  }

  lemma LeapParts(a: int, b: int, e: int)
    requires 0 <= a < 4 && 0 <= b < 25 && 0 <= e < 4
    ensures Leap(100 * a + 4 * b + e + 1) <==> e == 3 && (b < 24 || a == 3)
  {
    var y := 100 * a + 4 * b + e + 1;
    if e < 3 {
      assert y % 4 == e + 1;
    } else {
      assert y == 4 * (25 * a + b + 1);
      if b < 24 { assert y == 100 * a + (4 * b + 4) && 0 < 4 * b + 4 < 100; assert y % 100 == 4 * b + 4; }
      else { assert y == 100 * (a + 1); }
    }
  }

  lemma EraShift(era: nat, y: nat)
    ensures YearStart(400 * era + y) == 146_097 * era + YearStart(y)
  {
    assert (400 * era + y) / 4 == 100 * era + y / 4;
    assert (400 * era + y) / 100 == 4 * era + y / 100;
    assert (400 * era + y) / 400 == era + y / 400;
  }

  function MonthStart(monthIndex: int): int {
    (153 * monthIndex + 2) / 5
  }

  /** The March year of a day and the day in it. */
  function MarchYear(days: nat): int {
    var z := days + 719_468;
    YearOfEra(z % 146_097) + z / 146_097 * 400
  }

  function DayOfYear(days: nat): int {
    days + 719_468 - YearStart(MarchYear(days))
  }

  lemma MarchYearFinds(days: nat)
    ensures var y, z := MarchYear(days), days + 719_468;
            && 0 <= y && YearStart(y) <= z < YearStart(y + 1)
            && 0 <= DayOfYear(days) < (if Leap(y + 1) then 366 else 365)
            && DayOfYear(days) == z % 146_097
                 - (365 * YearOfEra(z % 146_097) + YearOfEra(z % 146_097) / 4 - YearOfEra(z % 146_097) / 100)
  {
    var z := days + 719_468;
    var era, doe := z / 146_097, z % 146_097;
    var yoe := YearOfEra(doe);
    YearOfEraFinds(doe);
    EraShift(era, yoe);
    EraShift(era, yoe + 1);
    YearLength(400 * era + yoe);
    assert yoe / 400 == 0;
  }

  function FromMarch(y: int, dayOfYear: int): Date {
    var monthIndex := (5 * dayOfYear + 2) / 153;
    var month := if monthIndex < 10 then monthIndex + 3 else monthIndex - 9;
    Date(y + if month <= 2 then 1 else 0, month, dayOfYear - MonthStart(monthIndex) + 1)
  }

  lemma CivilFromMarch(days: nat)
    ensures Civil(days) == FromMarch(MarchYear(days), DayOfYear(days))
  {
    MarchYearFinds(days);
  }

  /** The month formula gives each month its length. */
  lemma MonthLengths(y: int, m: int)
    requires 0 <= m <= 10
    ensures MonthStart(m + 1) - MonthStart(m)
         == MonthLength(if m < 10 then y else y + 1, if m < 10 then m + 3 else m - 9)
  {
    assert m == 0 || m == 1 || m == 2 || m == 3 || m == 4 || m == 5 || m == 6 || m == 7 || m == 8 || m == 9 || m == 10;
  }

  lemma NextInYear(y: int, dayOfYear: int)
    requires 0 <= dayOfYear && dayOfYear + 1 < if Leap(y + 1) then 366 else 365
    ensures FromMarch(y, dayOfYear + 1) == NextDay(FromMarch(y, dayOfYear))
  {
    var m, m' := (5 * dayOfYear + 2) / 153, (5 * (dayOfYear + 1) + 2) / 153;
    if m <= 10 {
      MonthLengths(y, m);
      if dayOfYear + 1 < MonthStart(m + 1) {
        assert m' == m;
      } else {
        assert m' == m + 1;
      }
    } else {
      assert MonthStart(11) == 337;
    }
  }

  lemma LastOfYear(y: int)
    ensures NextDay(FromMarch(y, if Leap(y + 1) then 365 else 364)) == FromMarch(y + 1, 0)
  {
    assert MonthStart(11) == 337 && MonthStart(0) == 0;
  }

  ghost predicate InYear(y: int, z: int) {
    0 <= y && YearStart(y) <= z < YearStart(y + 1)
  }

  /** `date` is day `z`, counted from 0000-03-01, read off the year `y` that begins in March. */
  ghost predicate Marches(date: Date, y: int, z: int) {
    InYear(y, z) && date == FromMarch(y, z - YearStart(y))
  }

  lemma CivilMarches(days: nat) returns (date: Date, y: int)
    ensures date == Civil(days) && Marches(date, y, days + 719_468)
  {
    CivilFromMarch(days);
    MarchYearFinds(days);
    date, y := Civil(days), MarchYear(days);
  }

  lemma SomeDate(days: nat) returns (date: Date, y: int)
    ensures Marches(date, y, days + 719_468)
  {
    date, y := CivilMarches(days);
  }

  /** The next day is in the same March year, or the first of the next one. */
  lemma NextMarch(y: int, z: int, y': int)
    requires InYear(y, z) && InYear(y', z + 1)
    ensures var last := if Leap(y + 1) then 365 else 364;
            if z - YearStart(y) < last then y' == y
            else z - YearStart(y) == last && y' == y + 1 && YearStart(y') == z + 1
  {
    YearLength(y);
    if z + 1 < YearStart(y + 1) {
      YearUnique(y', y, z + 1);
    } else {
      YearLength(y + 1);
      YearUnique(y', y + 1, z + 1);
    }
  }

  lemma NextFromMarch(y: int, z: int, y': int)
    requires InYear(y, z) && InYear(y', z + 1)
    ensures FromMarch(y', z + 1 - YearStart(y')) == NextDay(FromMarch(y, z - YearStart(y)))
  {
    NextMarch(y, z, y');
    MarchStep(y, z - YearStart(y), y', z + 1 - YearStart(y'));
  }

  lemma NextMarches(date: Date, y: int, next: Date, y': int, z: int)
    requires Marches(date, y, z) && Marches(next, y', z + 1)
    ensures next == NextDay(date)
  {
    NextFromMarch(y, z, y');
  }

  lemma MarchStep(y: int, doy: int, y': int, doy': int)
    requires 0 <= doy
    requires if doy < (if Leap(y + 1) then 365 else 364) then y' == y && doy' == doy + 1
             else doy == (if Leap(y + 1) then 365 else 364) && y' == y + 1 && doy' == 0
    ensures FromMarch(y', doy') == NextDay(FromMarch(y, doy))
  {
    if y' == y { NextInYear(y, doy); } else { LastOfYear(y); }
  }

  lemma FirstDay(date: Date, y: int)
    requires Marches(date, y, 719_468)
    ensures date == Date(1970, 1, 1)
  {
    assert InYear(1969, 719_468) && FromMarch(1969, 306) == Date(1970, 1, 1);
    YearUnique(y, 1969, 719_468);
  }

  lemma {:induction false} MarchesIsCalendar(date: Date, y: int, n: nat)
    requires Marches(date, y, n + 719_468)
    ensures date == Calendar(n)
    decreases n
  {
    if n == 0 {
      FirstDay(date, y);
    } else {
      var k: nat := n - 1;
      var before, y0 := SomeDate(k);
      MarchesIsCalendar(before, y0, k);
      NextMarches(before, y0, date, y, k + 719_468);
    }
  }

  /** The arithmetic gives, for every day number, the date the calendar reaches by counting days. */
  lemma {:induction false} CivilIsCalendar(n: nat)
    ensures Civil(n) == Calendar(n)
  {
    var date, y := CivilMarches(n);
    MarchesIsCalendar(date, y, n);
  }

  lemma DayInMonth(y: int, dayOfYear: int)
    requires 0 <= dayOfYear < if Leap(y + 1) then 366 else 365
    ensures var d := FromMarch(y, dayOfYear); 1 <= d.month <= 12 && 1 <= d.day <= MonthLength(d.year, d.month)
  {
    var m := (5 * dayOfYear + 2) / 153;
    if m <= 10 { MonthLengths(y, m); } else { assert MonthStart(11) == 337; }
  }

  /** No date is before 1970: the March year is 1969 at the earliest, and then the month is January or
      February, or a later one of a later year. */
  lemma YearFrom1970(days: nat)
    ensures FromMarch(MarchYear(days), DayOfYear(days)).year >= 1970
  {
    MarchYearFinds(days);
    var y := MarchYear(days);
    YearStartGrows(y + 1, if y < 1969 then 1969 else y + 1);
    assert YearStart(1969) == 719_162;
    assert y >= 1969;
    assert y == 1969 ==> DayOfYear(days) >= 306;
  }

  lemma CivilInRange(days: nat)
    ensures InRange(Civil(days))
  {
    CivilFromMarch(days);
    MarchYearFinds(days);
    DayInMonth(MarchYear(days), DayOfYear(days));
    YearFrom1970(days);
  }

  /** The inverse count of days. */
  function DayNumber(d: Date): int {
    var y := if d.month <= 2 then d.year - 1 else d.year;
    var monthIndex := if d.month > 2 then d.month - 3 else d.month + 9;
    YearStart(y) + MonthStart(monthIndex) + d.day - 1 - 719_468
  }

  lemma DayNumberInverts(days: nat)
    ensures DayNumber(Civil(days)) == days
  {
    CivilFromMarch(days);
    MarchYearFinds(days);
  }

  // ---------------------------------------------------------------- the printed date

  lemma {:induction false} ZeroThenDigits(s: string)
    ensures Digits("0" + s) == Digits(s)
    decreases |s|
  {
    var t := "0" + s;
    if s == "" {
      assert t == "0" && t[..0] == "";
    } else {
      assert t[..|t| - 1] == "0" + s[..|s| - 1];
      ZeroThenDigits(s[..|s| - 1]);
    }
  }

  lemma {:induction false} ZerosThenDigits(k: int, s: string)
    ensures Digits(Zeros(k) + s) == Digits(s)
    decreases k
  {
    if k <= 0 {
      assert Zeros(k) + s == s;
    } else {
      ZerosThenDigits(k - 1, s);
      ZeroThenDigits(Zeros(k - 1) + s);
      assert Zeros(k) + s == "0" + (Zeros(k - 1) + s);
    }
  }

  lemma {:induction false} ZerosHoldNoDash(k: int)
    ensures '-' !in Zeros(k)
    decreases k
  {
    if k > 0 { ZerosHoldNoDash(k - 1); }
  }

  lemma PaddedReads(n: nat, width: nat)
    ensures Digits(Padded(n, width)) == Some(n) && '-' !in Padded(n, width)
  {
    DigitsOfDecimal(n);
    ZerosHoldNoDash(width - |Decimal(n)|);
    ZerosThenDigits(width - |Decimal(n)|, Decimal(n));
  }

  lemma {:induction false} ZerosCount(k: int)
    ensures |Zeros(k)| == if k < 0 then 0 else k
    decreases k
  {
    if k > 0 { ZerosCount(k - 1); }
  }

  lemma {:induction false} DecimalWidth(n: nat, width: nat)
    requires n < Power(width) && width > 0
    ensures |Decimal(n)| <= width
    decreases width
  {
    if n >= 10 { DecimalWidth(n / 10, width - 1); }
  }

  function Power(width: nat): nat {
    if width == 0 then 1 else 10 * Power(width - 1)
  }

  lemma PaddedWidth(n: nat, width: nat)
    requires n < Power(width) && width > 0
    ensures |Padded(n, width)| == width
  {
    DecimalWidth(n, width);
    ZerosCount(width - |Decimal(n)|);
  }

  /** Up to the year 9999 the printed date has four, two and two digits. */
  lemma PrintedShape(d: Date)
    requires InRange(d) && d.year < 10_000
    ensures |Printed(d)| == 10 && Printed(d)[4] == Printed(d)[7] == '-'
    ensures Digits(Printed(d)[..4]) == Some(d.year) && Digits(Printed(d)[5..7]) == Some(d.month)
    ensures Digits(Printed(d)[8..]) == Some(d.day)
  {
    assert Power(2) == 100 && Power(4) == 10_000 by { assert Power(3) == 1_000; }
    PaddedWidth(d.year, 4);
    PaddedWidth(d.month, 2);
    PaddedWidth(d.day, 2);
    PaddedReads(d.year, 4);
    PaddedReads(d.month, 2);
    PaddedReads(d.day, 2);
    var y, m, day := Padded(d.year, 4), Padded(d.month, 2), Padded(d.day, 2);
    assert Printed(d)[..4] == y && Printed(d)[5..7] == m && Printed(d)[8..] == day;
  }

  lemma PrintedIdentifiesDate(c: Date, d: Date)
    requires InRange(c) && InRange(d) && Printed(c) == Printed(d)
    ensures c == d
  {
    PaddedReads(c.year, 4);
    PaddedReads(d.year, 4);
    PaddedReads(c.month, 2);
    PaddedReads(d.month, 2);
    PaddedReads(c.day, 2);
    PaddedReads(d.day, 2);
    SplitOnceAt(Padded(c.year, 4), "-", Padded(c.month, 2) + "-" + Padded(c.day, 2));
    SplitOnceAt(Padded(d.year, 4), "-", Padded(d.month, 2) + "-" + Padded(d.day, 2));
    SplitOnceAt(Padded(c.month, 2), "-", Padded(c.day, 2));
    SplitOnceAt(Padded(d.month, 2), "-", Padded(d.day, 2));
  }

  /** The date of a moment: the conversion to a signed number never falls back to zero. */
  lemma DateOf(seconds: nat) returns (date: Date)
    requires seconds < U64_LIMIT
    ensures InRange(date) && UtcDate(seconds) == Printed(date)
    ensures date == Calendar(seconds / 86_400) && DayNumber(date) == seconds / 86_400
  {
    var days := seconds / 86_400;
    assert ToI64(days) == days;
    date := Civil(days);
    CivilInRange(days);
    CivilIsCalendar(days);
    DayNumberInverts(days);
  }

  /** A moment prints as the calendar's date of its day, and two moments print alike exactly when they
      fall on the same day. */
  lemma UtcDateIdentifiesDay(s: nat, t: nat)
    requires s < U64_LIMIT && t < U64_LIMIT
    ensures InRange(Calendar(s / 86_400)) && UtcDate(s) == Printed(Calendar(s / 86_400))
    ensures UtcDate(s) == UtcDate(t) <==> s / 86_400 == t / 86_400
  {
    var c := DateOf(s);
    var d := DateOf(t);
    if UtcDate(s) == UtcDate(t) { PrintedIdentifiesDate(c, d); }
  }
}
