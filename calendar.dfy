/**
 * The proleptic Gregorian calendar arithmetic of ECMAScript dates: day numbers counted
 * from 1970-01-01 (UTC), `Date.UTC` with its month/day rollover and its two-digit-year
 * rule, and the date part of `toISOString`.
 *
 * Internally a year is counted from March, so the leap day closes its year: a
 * "shifted" year `yoe` of a 400-year era runs from 1 March of year `yoe` to the end of
 * February of year `yoe + 1`, and its month index 0..11 stands for March..February.
 */
module Calendar {
  import opened Text

  datatype Civil = Civil(year: int, month: int, day: int)

  predicate IsLeapYear(y: int) {
    y % 4 == 0 && (y % 100 != 0 || y % 400 == 0)
  }

  function DaysInMonth(y: int, m: int): (n: int)
    requires 1 <= m <= 12
    ensures 28 <= n <= 31
  {
    if m == 2 then (if IsLeapYear(y) then 29 else 28)
    else if m == 4 || m == 6 || m == 9 || m == 11 then 30
    else 31
  }

  /** A calendar date that exists. */
  predicate IsValid(c: Civil) {
    1 <= c.month <= 12 && 1 <= c.day <= DaysInMonth(c.year, c.month)
  }

  /** Days from 1 March to the first day of shifted month `mp` (0 = March, 11 = February). */
  function ShiftedMonthStart(mp: int): int
    requires 0 <= mp <= 11
  {
    [0, 31, 61, 92, 122, 153, 184, 214, 245, 275, 306, 337][mp]
  }

  /** Length of shifted year `yoe` of an era: it holds the February of year `yoe + 1`. */
  function ShiftedYearLength(yoe: int): int {
    if IsLeapYear(yoe + 1) then 366 else 365
  }

  /** Days of an era (it starts on 1 March of a multiple of 400) before its shifted year `yoe`. */
  function DaysBefore(yoe: int): int {
    365 * yoe + yoe / 4 - yoe / 100
  }

  /** Day number (days since 1970-01-01) of the given year, month and day; `day` may overflow the month. */
  function DaysFromCivil(y: int, m: int, d: int): int
    requires 1 <= m <= 12
  {
    var y' := if m <= 2 then y - 1 else y;
    var era := y' / 400;
    var yoe := y' - era * 400;
    var mp := if m > 2 then m - 3 else m + 9;
    var doe := DaysBefore(yoe) + ShiftedMonthStart(mp) + d - 1;
    era * 146097 + doe - 719468
  }

  /** Shifted year of an era and day within it for day-of-era `doe`, by centuries, 4-year blocks and years. */
  function YearOfEra(doe: int): (r: (int, int))
    requires 0 <= doe < 146097
    ensures 0 <= r.0 <= 399 && 0 <= r.1 < ShiftedYearLength(r.0)
    ensures DaysBefore(r.0) + r.1 == doe
  {
    var c := if doe / 36524 < 3 then doe / 36524 else 3;
    var r1 := doe - 36524 * c;
    var q := r1 / 1461;
    var r2 := r1 - 1461 * q;
    var y4 := if r2 / 365 < 3 then r2 / 365 else 3;
    var doy := r2 - 365 * y4;
    var yoe := 100 * c + 4 * q + y4;
    assert 0 <= r1 <= 36524 && (r1 == 36524 ==> c == 3);
    assert 0 <= q <= 24 && 0 <= r2 <= 1460;
    assert 0 <= doy <= 365 && (doy == 365 ==> r2 == 1460 && y4 == 3);
    assert yoe / 4 == 25 * c + q;
    assert yoe / 100 == c;
    assert doy == 365 ==> (yoe + 1) % 4 == 0;
    assert doy == 365 && (yoe + 1) % 100 == 0 ==> q == 24 && c == 3;
    (yoe, doy)
  }

  /** The shifted month a day of a shifted year falls in. */
  function ShiftedMonthOf(doy: int): (mp: int)
    requires 0 <= doy
    ensures 0 <= mp <= 11 && ShiftedMonthStart(mp) <= doy
    ensures mp < 11 ==> doy < ShiftedMonthStart(mp + 1)
  {
    if doy < 31 then 0 else if doy < 61 then 1 else if doy < 92 then 2
    else if doy < 122 then 3 else if doy < 153 then 4 else if doy < 184 then 5
    else if doy < 214 then 6 else if doy < 245 then 7 else if doy < 275 then 8
    else if doy < 306 then 9 else if doy < 337 then 10 else 11
  }

  lemma LeapYearPeriodic(e: int, k: int)
    ensures IsLeapYear(400 * e + k) == IsLeapYear(k)
  {
    ShiftMod4(100 * e, k);
    ShiftMod100(4 * e, k);
    ShiftMod400(e, k);
  }

  lemma ShiftMod4(t: int, k: int)
    ensures (4 * t + k) % 4 == k % 4
  {
    assert 4 * t + k == (t + k / 4) * 4 + k % 4;
  }

  lemma ShiftMod100(t: int, k: int)
    ensures (100 * t + k) % 100 == k % 100
  {
    assert 100 * t + k == (t + k / 100) * 100 + k % 100;
  }

  lemma ShiftMod400(t: int, k: int)
    ensures (400 * t + k) % 400 == k % 400
  {
    assert 400 * t + k == (t + k / 400) * 400 + k % 400;
  }

  /** The calendar date of day `doy` of shifted year `yoe` of era `era`. */
  function CivilOfShifted(era: int, yoe: int, doy: int): (c: Civil)
    requires 0 <= yoe <= 399 && 0 <= doy < ShiftedYearLength(yoe)
    ensures IsValid(c) && DaysFromCivil(c.year, c.month, c.day) == era * 146097 + DaysBefore(yoe) + doy - 719468
  {
    var mp := ShiftedMonthOf(doy);
    var d := doy - ShiftedMonthStart(mp) + 1;
    var m := if mp < 10 then mp + 3 else mp - 9;
    var y := era * 400 + yoe + (if m <= 2 then 1 else 0);
    LeapYearPeriodic(era, yoe + 1);
    assert mp == 11 ==> d <= DaysInMonth(y, m);
    DaysFromShifted(era, yoe, mp, d);
    Civil(y, m, d)
  }

  /** The calendar date of day `doe` of era `era`. */
  function CivilOfEraDay(era: int, doe: int): (c: Civil)
    requires 0 <= doe < 146097
    ensures IsValid(c) && DaysFromCivil(c.year, c.month, c.day) == era * 146097 + doe - 719468
  {
    var (yoe, doy) := YearOfEra(doe);
    CivilOfShifted(era, yoe, doy)
  }

  /** `DaysFromCivil` of the date in shifted month `mp` of shifted year `yoe` of an era. */
  lemma DaysFromShifted(era: int, yoe: int, mp: int, d: int)
    requires 0 <= yoe <= 399 && 0 <= mp <= 11
    ensures var m := if mp < 10 then mp + 3 else mp - 9;
      var y := era * 400 + yoe + (if m <= 2 then 1 else 0);
      DaysFromCivil(y, m, d) == era * 146097 + DaysBefore(yoe) + ShiftedMonthStart(mp) + d - 1 - 719468
  {
    assert (era * 400 + yoe) / 400 == era;
  }

  /** The calendar date of a day number: the inverse of `DaysFromCivil`. */
  function CivilFromDays(n: int): (c: Civil)
    ensures IsValid(c) && DaysFromCivil(c.year, c.month, c.day) == n
  {
    var z := n + 719468;
    var era := z / 146097;
    CivilOfEraDay(era, z - era * 146097)
  }

  /** Distinct (shifted year, day) pairs of one era have distinct day-of-era numbers. */
  lemma DaysBeforeSeparates(a: int, da: int, b: int)
    requires 0 <= a < b <= 399 && 0 <= da < ShiftedYearLength(a)
    ensures DaysBefore(a) + da < DaysBefore(b)
  {
    if b == a + 1 {
      assert (a + 1) / 4 == a / 4 + (if (a + 1) % 4 == 0 then 1 else 0);
      assert (a + 1) / 100 == a / 100 + (if (a + 1) % 100 == 0 then 1 else 0);
    } else {
      assert b / 4 >= a / 4;
      assert b / 100 <= a / 100 + 4;
    }
  }

  lemma YearOfEraInverse(yoe: int, doy: int)
    requires 0 <= yoe <= 399 && 0 <= doy < ShiftedYearLength(yoe)
    ensures 0 <= DaysBefore(yoe) + doy < 146097
    ensures YearOfEra(DaysBefore(yoe) + doy) == (yoe, doy)
  {
    if yoe < 399 {
      DaysBeforeSeparates(yoe, doy, 399);
    }
    var doe := DaysBefore(yoe) + doy;
    var (y2, d2) := YearOfEra(doe);
    if y2 < yoe {
      DaysBeforeSeparates(y2, d2, yoe);
    } else if yoe < y2 {
      DaysBeforeSeparates(yoe, doy, y2);
    }
  }

  lemma ShiftedMonthInverse(mp: int, doy: int, len: int)
    requires 0 <= mp <= 11 && ShiftedMonthStart(mp) <= doy < ShiftedMonthStart(mp) + len
    requires mp < 11 ==> ShiftedMonthStart(mp) + len <= ShiftedMonthStart(mp + 1)
    ensures ShiftedMonthOf(doy) == mp
  {
  }

  /** The era, shifted year and day of shifted year of an existing date. */
  lemma ShiftedOfCivil(c: Civil) returns (era: int, yoe: int, doy: int)
    requires IsValid(c)
    ensures 0 <= yoe <= 399 && 0 <= doy < ShiftedYearLength(yoe) && CivilOfShifted(era, yoe, doy) == c
  {
    var y, m, d := c.year, c.month, c.day;
    var y' := if m <= 2 then y - 1 else y;
    era := y' / 400;
    yoe := y' - era * 400;
    var mp := if m > 2 then m - 3 else m + 9;
    doy := ShiftedMonthStart(mp) + d - 1;
    LeapYearPeriodic(era, yoe + 1);
    assert doy < ShiftedYearLength(yoe);
    ShiftedMonthInverse(mp, doy, DaysInMonth(y, m));
    assert (if mp < 10 then mp + 3 else mp - 9) == m;
    assert era * 400 + yoe + (if m <= 2 then 1 else 0) == y;
  }

  /** The era and day of era of an existing date. */
  lemma EraDayOf(c: Civil) returns (era: int, doe: int)
    requires IsValid(c)
    ensures 0 <= doe < 146097 && CivilOfEraDay(era, doe) == c
    ensures DaysFromCivil(c.year, c.month, c.day) == era * 146097 + doe - 719468
  {
    var yoe, doy;
    era, yoe, doy := ShiftedOfCivil(c);
    YearOfEraInverse(yoe, doy);
    doe := DaysBefore(yoe) + doy;
  }

  lemma EraOfDay(n: int, era: int, doe: int)
    requires 0 <= doe < 146097 && n == era * 146097 + doe - 719468
    ensures CivilFromDays(n) == CivilOfEraDay(era, doe)
  {
    assert (n + 719468) / 146097 == era;
  }

  /** Every existing date survives the trip to a day number and back. */
  lemma CivilRoundTrip(c: Civil)
    requires IsValid(c)
    ensures CivilFromDays(DaysFromCivil(c.year, c.month, c.day)) == c
  {
    var era, doe := EraDayOf(c);
    var n := DaysFromCivil(c.year, c.month, c.day);
    EraOfDay(n, era, doe);
  }

  /** ECMAScript MakeFullYear, as `Date.UTC` applies it: a year 0..99 means 1900..1999. */
  function FullYear(year: int): (y: int)
    ensures 0 <= year <= 99 ==> y == 1900 + year
    ensures !(0 <= year <= 99) ==> y == year
  {
    if 0 <= year <= 99 then 1900 + year else year
  }

  /**
   * ECMAScript MakeDay applied to the arguments of `Date.UTC(year, month, day)`:
   * a year 0..99 means 1900..1999; the month index may lie outside 0..11 and the
   * day outside the month, both rolling over.
   */
  function DateUtc(year: int, monthIndex: int, day: int): (n: int)
    ensures 0 <= monthIndex <= 11 ==> n == DaysFromCivil(FullYear(year), monthIndex + 1, day)
    ensures monthIndex == -1 ==> n == DaysFromCivil(FullYear(year) - 1, 12, day)
    ensures monthIndex == 12 ==> n == DaysFromCivil(FullYear(year) + 1, 1, day)
  {
    var y := FullYear(year);
    var ym := y + monthIndex / 12;
    var mn := monthIndex % 12;
    DaysFromCivilDay(ym, mn + 1, day);
    DaysFromCivil(ym, mn + 1, 1) + day - 1
  }

  /** The day argument of `DaysFromCivil` counts on from the first of the month. */
  lemma DaysFromCivilDay(y: int, m: int, d: int)
    requires 1 <= m <= 12
    ensures DaysFromCivil(y, m, d) == DaysFromCivil(y, m, 1) + d - 1
  {
  }

  function Pow10(k: nat): (p: nat)
    ensures p >= 1
  {
    if k == 0 then 1 else 10 * Pow10(k - 1)
  }

  /** The digits of `s` read most significant first. */
  function DigitsValue(s: string): (n: nat)
    requires AllDigits(s)
    ensures n < Pow10(|s|)
  {
    if s == [] then 0 else 10 * DigitsValue(s[..|s| - 1]) + (s[|s| - 1] as int - '0' as int)
  }

  /** Decimal digits of `n`, most significant first, without leading zeros. */
  function Digits(n: nat): (r: string)
    ensures 1 <= |r| && AllDigits(r) && DigitsValue(r) == n
    ensures n > 0 ==> r[0] != '0'
    ensures n < 10 ==> |r| == 1
    ensures n < 100 ==> |r| <= 2
    ensures n < 10000 ==> |r| <= 4
    ensures n < 1000000 ==> |r| <= 6
  {
    if n < 10 then ['0' + n as char]
    else
      var r := Digits(n / 10) + ['0' + (n % 10) as char];
      assert r[..|r| - 1] == Digits(n / 10);
      r
  }

  /** Zeros in front of a digit string do not change its value. */
  lemma {:induction false} LeadingZeros(k: nat, ds: string)
    requires AllDigits(ds)
    ensures AllDigits(seq(k, _ => '0') + ds) && DigitsValue(seq(k, _ => '0') + ds) == DigitsValue(ds)
    decreases |ds|
  {
    var z: string := seq(k, _ => '0');
    var s := z + ds;
    if ds == [] {
      assert s == z;
      Zeros(k);
    } else {
      var init := ds[..|ds| - 1];
      assert s[..|s| - 1] == z + init;
      LeadingZeros(k, init);
    }
  }

  /** A string of zeros reads as zero. */
  lemma {:induction false} Zeros(k: nat)
    ensures AllDigits(seq(k, _ => '0')) && DigitsValue(seq(k, _ => '0')) == 0
  {
    if k > 0 {
      var z: string := seq(k, _ => '0');
      assert z[..k - 1] == seq(k - 1, _ => '0');
      Zeros(k - 1);
    }
  }

  /** Decimal digits of `n`, left-padded with zeros to `width`. */
  function ZeroPad(n: nat, width: nat): (r: string)
    ensures |r| >= width && AllDigits(r) && DigitsValue(r) == n
    ensures |Digits(n)| <= width ==> |r| == width
  {
    var ds := Digits(n);
    if |ds| >= width then ds
    else
      LeadingZeros(width - |ds|, ds);
      seq(width - |ds|, _ => '0') + ds
  }

  /** The year as `toISOString` writes it: four digits for 0..9999, otherwise a sign and six digits. */
  function YearText(y: int): (r: string)
    ensures 0 <= y <= 9999 ==> r == ZeroPad(y, 4) && |r| == 4 && AllDigits(r) && DigitsValue(r) == y
    ensures y > 9999 ==> |r| >= 7 && r[0] == '+' && AllDigits(r[1..]) && DigitsValue(r[1..]) == y
    ensures y < 0 ==> |r| >= 7 && r[0] == '-' && AllDigits(r[1..]) && DigitsValue(r[1..]) == -y
    ensures -1000000 < y < 1000000 && !(0 <= y <= 9999) ==> |r| == 7
  {
    if 0 <= y <= 9999 then ZeroPad(y, 4)
    else if y > 9999 then "+" + ZeroPad(y, 6)
    else "-" + ZeroPad(-y, 6)
  }

  /** The calendar-date text `YYYY-MM-DD` of ISO 8601 (section 4.1.2.2, extended format). */
  predicate IsIsoShape(s: string) {
    |s| == 10 && forall k :: 0 <= k < 10 ==> if k == 4 || k == 7 then s[k] == '-' else IsDigit(s[k])
  }

  /** The first ten characters of the `toISOString` text of (the midnight of) day number `n`. */
  function IsoDayText(n: int): (r: string)
    ensures |r| == 10
    ensures var c := CivilFromDays(n);
      0 <= c.year <= 9999 ==> IsIsoShape(r) && r == ZeroPad(c.year, 4) + "-" + ZeroPad(c.month, 2) + "-" + ZeroPad(c.day, 2)
    ensures var c := CivilFromDays(n);
      -1000000 < c.year < 1000000 && !(0 <= c.year <= 9999) ==> r == YearText(c.year) + "-" + ZeroPad(c.month, 2)
    ensures var c := CivilFromDays(n);
      (c.year > 9999 ==> r[0] == '+') && (c.year < 0 ==> r[0] == '-')
    ensures IsIsoShape(r) || r[0] == '+' || r[0] == '-'
  {
    var c := CivilFromDays(n);
    var head := YearText(c.year) + "-" + ZeroPad(c.month, 2);
    var text := head + "-" + ZeroPad(c.day, 2);
    if 0 <= c.year <= 9999 then
      IsoShapeOfParts(ZeroPad(c.year, 4), ZeroPad(c.month, 2), ZeroPad(c.day, 2));
      text
    else
      // the time part "THH:mm:ss.sssZ" that follows lies beyond the tenth character;
      // a six-digit year leaves the month and no day in the first ten
      assert -1000000 < c.year < 1000000 ==> text[..10] == head[..10] == head;
      text[..10]
  }

  /** Four digits, two digits and two digits joined with dashes have the ISO shape. */
  lemma IsoShapeOfParts(y: string, m: string, d: string)
    requires |y| == 4 && |m| == 2 && |d| == 2 && AllDigits(y) && AllDigits(m) && AllDigits(d)
    ensures IsIsoShape(y + "-" + m + "-" + d)
  {
    var s := y + "-" + m + "-" + d;
    forall k | 0 <= k < 10 ensures if k == 4 || k == 7 then s[k] == '-' else IsDigit(s[k]) {
      if k < 4 { assert s[k] == y[k]; }
      else if 5 <= k < 7 { assert s[k] == m[k - 5]; }
      else if 8 <= k { assert s[k] == d[k - 8]; }
    }
  }

  /** The ISO text of an existing date of the years 0..9999 is that date, zero-padded. */
  lemma IsoDayTextOfDate(c: Civil)
    requires IsValid(c) && 0 <= c.year <= 9999
    ensures IsoDayText(DaysFromCivil(c.year, c.month, c.day))
      == ZeroPad(c.year, 4) + "-" + ZeroPad(c.month, 2) + "-" + ZeroPad(c.day, 2)
  {
    CivilRoundTrip(c);
  }

  lemma TwoDigitMonths()
    ensures ZeroPad(1, 2) == "01" && ZeroPad(12, 2) == "12"
  {
    assert Digits(1) == "1";
    assert Digits(12) == Digits(1) + "2";
  }

  /** Years `Date.UTC` reads from four digits: 0..99 become 1900..1999, so none lies below 100. */
  lemma FullYearOfFourDigits(year: int)
    requires 0 <= year <= 9999
    ensures 100 <= FullYear(year) <= 9999
  {
  }

  /** `new Date(Date.UTC(year, monthIndex, day)).toISOString().slice(0, 10)` */
  function UtcDayText(year: int, monthIndex: int, day: int): (r: string)
    ensures |r| == 10
    ensures IsIsoShape(r) || r[0] == '+' || r[0] == '-'
  {
    IsoDayText(DateUtc(year, monthIndex, day))
  }

  /** `Date.UTC(year, m - 1, day)` for an existing date of the years 0..9999 is that date, zero-padded. */
  lemma UtcDayTextOfDate(year: int, m: int, day: int)
    requires 1 <= m <= 12 && IsValid(Civil(FullYear(year), m, day)) && 0 <= FullYear(year) <= 9999
    ensures UtcDayText(year, m - 1, day) == ZeroPad(FullYear(year), 4) + "-" + ZeroPad(m, 2) + "-" + ZeroPad(day, 2)
  {
    IsoDayTextOfDate(Civil(FullYear(year), m, day));
  }

  /** `Date.UTC(year, -1, day)`, month number 0, is day `day` of December of the year before. */
  lemma IsoTextMonthZero(year: int, m: int, day: int)
    requires m == 0 && 0 <= year <= 9999 && 1 <= day <= 31
    ensures UtcDayText(year, m - 1, day)
      == ZeroPad(FullYear(year) - 1, 4) + "-" + "12" + "-" + ZeroPad(day, 2)
  {
    IsoDayTextOfDate(Civil(FullYear(year) - 1, 12, day));
    TwoDigitMonths();
  }

  /** `Date.UTC(year, 12, day)`, month number 13, is day `day` of January of the year after. */
  lemma IsoTextMonthThirteen(year: int, m: int, day: int)
    requires m == 13 && 0 <= year <= 9999 && 1 <= day <= 31 && FullYear(year) < 9999
    ensures UtcDayText(year, m - 1, day)
      == ZeroPad(FullYear(year) + 1, 4) + "-" + "01" + "-" + ZeroPad(day, 2)
  {
    IsoDayTextOfDate(Civil(FullYear(year) + 1, 1, day));
    TwoDigitMonths();
  }

}
