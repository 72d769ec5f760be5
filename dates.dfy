/**
 * Calendar arithmetic behind the journal's day keys.
 *
 * A day key is the first ten characters of `Date.prototype.toISOString`, i.e. the
 * UTC calendar date of an instant written `YYYY-MM-DD`. Instants are integer
 * milliseconds since 1970-01-01T00:00:00Z; days are integers counted from
 * 1970-01-01 (day 0). The conversion between day numbers and proleptic Gregorian
 * dates splits a day number into 400-, 100-, 4- and 1-year cycles of a year that
 * starts on 1 March, so that the leap day is the last day of its year.
 */
module Dates {
  import opened Wrappers

  const MS_PER_HOUR: int := 60 * 60 * 1000
  const MS_PER_DAY: int := 24 * MS_PER_HOUR

  /** Days from 0000-03-01 to 1970-01-01. */
  const EPOCH_SHIFT: int := 719468
  const DAYS_PER_400_YEARS: int := 146097
  const DAYS_PER_100_YEARS: int := 36524
  const DAYS_PER_4_YEARS: int := 1461

  /** The UTC day an instant falls on (division rounds down, also before 1970). */
  function DayOf(t: int): int {
    t / MS_PER_DAY
  }

  datatype Civil = Civil(year: int, month: int, day: int)

  predicate IsLeapYear(y: int) {
    y % 4 == 0 && (y % 100 != 0 || y % 400 == 0)
  }

  function DaysInMonth(y: int, m: int): (n: int)
    requires 1 <= m <= 12
    ensures 28 <= n <= 31
  {
    if m == 2 then (if IsLeapYear(y) then 29 else 28)
    else if m == 4 || m == 6 || m == 9 || m == 11 then 30
    else 31
  }

  /** A real calendar date: month 1..12 and a day that exists in that month. */
  predicate ValidCivil(c: Civil) {
    1 <= c.month <= 12 && 1 <= c.day <= DaysInMonth(c.year, c.month)
  }

  /** Days before month `mp` of a March-based year (0 = March, ..., 11 = February). */
  function MonthStart(mp: int): int
    requires 0 <= mp < 12
  {
    [0, 31, 61, 92, 122, 153, 184, 214, 245, 275, 306, 337][mp]
  }

  /** The March-based month that day-of-year `doy` falls in. */
  function MonthOfDayOfYear(doy: int): (mp: int)
    requires 0 <= doy
    ensures 0 <= mp < 12 && MonthStart(mp) <= doy
    ensures mp < 11 ==> doy < MonthStart(mp + 1)
  {
    if doy < 31 then 0 else if doy < 61 then 1 else if doy < 92 then 2
    else if doy < 122 then 3 else if doy < 153 then 4 else if doy < 184 then 5
    else if doy < 214 then 6 else if doy < 245 then 7 else if doy < 275 then 8
    else if doy < 306 then 9 else if doy < 337 then 10 else 11
  }

  /** The day number of a calendar date. */
  function DaysFromCivil(c: Civil): int
    requires 1 <= c.month <= 12
  {
    var ys := if c.month <= 2 then c.year - 1 else c.year;
    var mp := if c.month > 2 then c.month - 3 else c.month + 9;
    var yoe := ys % 400;
    (ys / 400) * DAYS_PER_400_YEARS + 365 * yoe + yoe / 4 - yoe / 100
      + MonthStart(mp) + c.day - 1 - EPOCH_SHIFT
  }

  /** Days before year `yoe` of a 400-year era (years counted from 1 March). */
  function DaysBeforeYearOfEra(yoe: int): int {
    365 * yoe + yoe / 4 - yoe / 100
  }

  /** The year of its era that day `doe` of a 400-year era falls in. */
  function YearOfEra(doe: int): int
    requires 0 <= doe < DAYS_PER_400_YEARS
  {
    var n100 := if doe / DAYS_PER_100_YEARS < 4 then doe / DAYS_PER_100_YEARS else 3;
    var r100 := doe - DAYS_PER_100_YEARS * n100;
    var n4 := r100 / DAYS_PER_4_YEARS;
    var r4 := r100 % DAYS_PER_4_YEARS;
    var n1 := if r4 / 365 < 4 then r4 / 365 else 3;
    100 * n100 + 4 * n4 + n1
  }

  /** The calendar date of day `doe` of the 400-year era `era` (eras start on 1 March 0000). */
  function CivilOfEraDay(era: int, doe: int): Civil
    requires 0 <= doe < DAYS_PER_400_YEARS
  {
    var yoe := YearOfEra(doe);
    var doy := doe - DaysBeforeYearOfEra(yoe);
    var mp := if doy < 0 then 0 else MonthOfDayOfYear(doy);
    var m := if mp < 10 then mp + 3 else mp - 9;
    Civil(400 * era + yoe + (if m <= 2 then 1 else 0), m, doy - MonthStart(mp) + 1)
  }

  /** The calendar date of a day number. */
  function CivilFromDays(d: int): Civil {
    var z := d + EPOCH_SHIFT;
    CivilOfEraDay(z / DAYS_PER_400_YEARS, z % DAYS_PER_400_YEARS)
  }

  lemma DivBy4(x: int, q: int, r: int)
    requires 0 <= r < 4 && x == 4 * q + r
    ensures x / 4 == q && x % 4 == r
  {
  }

  lemma DivBy100(x: int, q: int, r: int)
    requires 0 <= r < 100 && x == 100 * q + r
    ensures x / 100 == q && x % 100 == r
  {
  }

  lemma EraSplit(z: int)
    ensures z == (z / DAYS_PER_400_YEARS) * DAYS_PER_400_YEARS + z % DAYS_PER_400_YEARS
    ensures 0 <= z % DAYS_PER_400_YEARS < DAYS_PER_400_YEARS
  {
  }

  lemma DivBy400(x: int, q: int, r: int)
    requires 0 <= r < 400 && x == 400 * q + r
    ensures x / 400 == q && x % 400 == r
  {
  }

  /**
   * Splitting an era into 100-, 4- and 1-year cycles finds the year a day falls in;
   * the 366th day of a year only occurs when the following January/February is in a leap year.
   */
  lemma {:induction false} YearOfEraCorrect(doe: int)
    requires 0 <= doe < DAYS_PER_400_YEARS
    ensures 0 <= YearOfEra(doe) < 400
    ensures 0 <= doe - DaysBeforeYearOfEra(YearOfEra(doe)) <= 365
    ensures doe - DaysBeforeYearOfEra(YearOfEra(doe)) == 365 ==>
      (YearOfEra(doe) + 1) % 4 == 0 && ((YearOfEra(doe) + 1) % 100 != 0 || YearOfEra(doe) == 399)
  {
    var n100 := if doe / DAYS_PER_100_YEARS < 4 then doe / DAYS_PER_100_YEARS else 3;
    var r100 := doe - DAYS_PER_100_YEARS * n100;
    assert 0 <= r100 <= DAYS_PER_100_YEARS;
    assert r100 == DAYS_PER_100_YEARS ==> doe == 146096;
    var n4 := r100 / DAYS_PER_4_YEARS;
    var r4 := r100 % DAYS_PER_4_YEARS;
    assert r100 == DAYS_PER_4_YEARS * n4 + r4;
    assert 0 <= n4 <= 24;
    var n1 := if r4 / 365 < 4 then r4 / 365 else 3;
    assert 0 <= r4 - 365 * n1 <= 365;
    var yoe := 100 * n100 + 4 * n4 + n1;
    assert yoe == YearOfEra(doe);
    DivBy4(yoe, 25 * n100 + n4, n1);
    DivBy100(yoe, n100, 4 * n4 + n1);
    assert DaysBeforeYearOfEra(yoe) == DAYS_PER_100_YEARS * n100 + DAYS_PER_4_YEARS * n4 + 365 * n1;
    if r4 - 365 * n1 == 365 {
      assert r4 == 1460 && n1 == 3;
      if doe == 146096 {
        assert yoe == 399;
      } else {
        assert n4 <= 23;
        DivBy4(yoe + 1, 25 * n100 + n4 + 1, 0);
        DivBy100(yoe + 1, n100, 4 * n4 + 4);
      }
    }
  }

  /** The calendar year holding the February of year `yoe` of an era is leap iff its place in the era says so. */
  lemma LeapOfEraYear(era: int, yoe: int)
    requires 0 <= yoe < 400
    ensures IsLeapYear(400 * era + yoe + 1) <==> (yoe + 1) % 4 == 0 && ((yoe + 1) % 100 != 0 || yoe == 399)
  {
    var y := 400 * era + yoe + 1;
    DivBy4(y, 100 * era + (yoe + 1) / 4, (yoe + 1) % 4);
    DivBy100(y, 4 * era + (yoe + 1) / 100, (yoe + 1) % 100);
    DivBy400(y, era + (yoe + 1) / 400, (yoe + 1) % 400);
  }

  /**
   * Decoding a day of a March-based year gives a month, maps back to the same
   * March-based month, and gives a day that exists in that month.
   */
  lemma MonthOfDayOfYearCorrect(doy: int, year: int)
    requires 0 <= doy <= 365
    requires doy == 365 ==> IsLeapYear(year)
    ensures var mp := MonthOfDayOfYear(doy);
      var m := if mp < 10 then mp + 3 else mp - 9;
      && 1 <= m <= 12
      && (if m > 2 then m - 3 else m + 9) == mp
      && 1 <= doy - MonthStart(mp) + 1 <= DaysInMonth(year, m)
  {
  }

  /** A date whose March-based year is `400 * era + yoe` has day number era + year + day of year. */
  lemma DaysFromCivilParts(c: Civil, era: int, yoe: int, mp: int)
    requires 1 <= c.month <= 12 && 0 <= yoe < 400 && 0 <= mp < 12
    requires mp == (if c.month > 2 then c.month - 3 else c.month + 9)
    requires (if c.month <= 2 then c.year - 1 else c.year) == 400 * era + yoe
    ensures DaysFromCivil(c) ==
      era * DAYS_PER_400_YEARS + DaysBeforeYearOfEra(yoe) + MonthStart(mp) + c.day - 1 - EPOCH_SHIFT
  {
    DivBy400(400 * era + yoe, era, yoe);
  }

  /** Every day of an era names a real date, and converting it back gives that day of the era. */
  lemma {:induction false} CivilOfEraDayInverse(era: int, doe: int)
    requires 0 <= doe < DAYS_PER_400_YEARS
    ensures ValidCivil(CivilOfEraDay(era, doe))
    ensures DaysFromCivil(CivilOfEraDay(era, doe)) == era * DAYS_PER_400_YEARS + doe - EPOCH_SHIFT
  {
    YearOfEraCorrect(doe);
    var yoe := YearOfEra(doe);
    var doy := doe - DaysBeforeYearOfEra(yoe);
    var mp := MonthOfDayOfYear(doy);
    var m := if mp < 10 then mp + 3 else mp - 9;
    var y := 400 * era + yoe + (if m <= 2 then 1 else 0);
    var c := Civil(y, m, doy - MonthStart(mp) + 1);
    assert CivilOfEraDay(era, doe) == c;
    if doy == 365 {
      LeapOfEraYear(era, yoe);
    }
    MonthOfDayOfYearCorrect(doy, y);
    DaysFromCivilParts(c, era, yoe, mp);
  }

  /** Every day number names a real date, and converting that date back gives the day. */
  lemma {:induction false} CivilFromDaysInverse(d: int)
    ensures ValidCivil(CivilFromDays(d))
    ensures DaysFromCivil(CivilFromDays(d)) == d
  {
    var z := d + EPOCH_SHIFT;
    EraSplit(z);
    CivilOfEraDayInverse(z / DAYS_PER_400_YEARS, z % DAYS_PER_400_YEARS);
  }

  lemma DivBy365(x: int, q: int, r: int)
    requires 0 <= r < 365 && x == 365 * q + r
    ensures x / 365 == q
  {
  }

  lemma DivBy1461(x: int, q: int, r: int)
    requires 0 <= r < DAYS_PER_4_YEARS && x == DAYS_PER_4_YEARS * q + r
    ensures x / DAYS_PER_4_YEARS == q
  {
  }

  lemma DivBy36524(x: int, q: int, r: int)
    requires 0 <= r < DAYS_PER_100_YEARS && x == DAYS_PER_100_YEARS * q + r
    ensures x / DAYS_PER_100_YEARS == q
  {
  }

  lemma EraOf(z: int, era: int, doe: int)
    requires 0 <= doe < DAYS_PER_400_YEARS && z == era * DAYS_PER_400_YEARS + doe
    ensures z / DAYS_PER_400_YEARS == era && z % DAYS_PER_400_YEARS == doe
  {
  }

  /**
   * Day `doy` of year `yoe` of an era lies in that era and falls in year `yoe`, for
   * every day the year has (366 only when its February has a leap day).
   */
  lemma {:induction false} YearOfEraOfDay(yoe: int, doy: int)
    requires 0 <= yoe < 400 && 0 <= doy <= 365
    requires doy == 365 ==> (yoe + 1) % 4 == 0 && ((yoe + 1) % 100 != 0 || yoe == 399)
    ensures 0 <= DaysBeforeYearOfEra(yoe) + doy < DAYS_PER_400_YEARS
    ensures YearOfEra(DaysBeforeYearOfEra(yoe) + doy) == yoe
  {
    var a := yoe / 100;
    var b := yoe % 100 / 4;
    var c := yoe % 4;
    assert yoe == 100 * a + 4 * b + c && 0 <= a < 4 && 0 <= b < 25;
    DivBy4(yoe, 25 * a + b, c);
    DivBy100(yoe, a, 4 * b + c);
    var doe := DaysBeforeYearOfEra(yoe) + doy;
    var r := DAYS_PER_4_YEARS * b + 365 * c + doy;
    assert doe == DAYS_PER_100_YEARS * a + r;
    if doy == 365 {
      DivBy4(yoe + 1, 25 * a + b + (c + 1) / 4, (c + 1) % 4);
      assert c == 3;
      DivBy100(yoe + 1, a + (4 * b + 4) / 100, (4 * b + 4) % 100);
      assert b < 24 || a == 3;
    }
    if r == DAYS_PER_100_YEARS {
      assert doe == 146096;
    } else {
      DivBy36524(doe, a, r);
    }
    DivBy1461(r, b, 365 * c + doy);
    if doy < 365 {
      DivBy365(365 * c + doy, c, doy);
    }
  }

  /** The March-based month whose days include `doy` is the one `MonthOfDayOfYear` finds. */
  lemma MonthOfDayOfYearOf(mp: int, doy: int)
    requires 0 <= mp < 12 && MonthStart(mp) <= doy
    requires mp < 11 ==> doy < MonthStart(mp + 1)
    ensures MonthOfDayOfYear(doy) == mp
  {
  }

  /** `CivilOfEraDay` once the year of the era and the month of the year are known. */
  lemma CivilOfEraDayParts(era: int, doe: int, yoe: int, doy: int, mp: int)
    requires 0 <= doe < DAYS_PER_400_YEARS && YearOfEra(doe) == yoe
    requires doe == DaysBeforeYearOfEra(yoe) + doy && 0 <= doy && MonthOfDayOfYear(doy) == mp
    ensures CivilOfEraDay(era, doe) == Civil(400 * era + yoe + (if mp >= 10 then 1 else 0),
                                             if mp < 10 then mp + 3 else mp - 9,
                                             doy - MonthStart(mp) + 1)
  {
  }

  /** The date of day `x`, once `x` is split into an era and a day of that era. */
  lemma CivilFromDaysOfEra(x: int, era: int, doe: int)
    requires 0 <= doe < DAYS_PER_400_YEARS && x + EPOCH_SHIFT == era * DAYS_PER_400_YEARS + doe
    ensures CivilFromDays(x) == CivilOfEraDay(era, doe)
  {
    EraOf(x + EPOCH_SHIFT, era, doe);
    assert CivilFromDays(x) == CivilOfEraDay((x + EPOCH_SHIFT) / DAYS_PER_400_YEARS, (x + EPOCH_SHIFT) % DAYS_PER_400_YEARS);
  }

  /** The day of the March-based year a real date falls on, and when it can be the 366th. */
  lemma DayOfYearOfCivil(c: Civil, era: int, yoe: int, mp: int)
    requires ValidCivil(c) && 0 <= yoe < 400
    requires mp == (if c.month > 2 then c.month - 3 else c.month + 9)
    requires (if c.month <= 2 then c.year - 1 else c.year) == 400 * era + yoe
    ensures var doy := MonthStart(mp) + c.day - 1;
      && 0 <= doy <= 365
      && (mp < 11 ==> doy < MonthStart(mp + 1))
      && (doy == 365 ==> (yoe + 1) % 4 == 0 && ((yoe + 1) % 100 != 0 || yoe == 399))
  {
    LeapOfEraYear(era, yoe);
  }

  /** Day `x` is the date that year `yoe` of era `era`, March-based month `mp` and day `doy` of the year name. */
  lemma {:induction false} CivilFromDaysOfParts(x: int, era: int, yoe: int, doy: int, mp: int)
    requires 0 <= yoe < 400 && 0 <= doy <= 365 && 0 <= mp < 12
    requires doy == 365 ==> (yoe + 1) % 4 == 0 && ((yoe + 1) % 100 != 0 || yoe == 399)
    requires MonthStart(mp) <= doy && (mp < 11 ==> doy < MonthStart(mp + 1))
    requires x + EPOCH_SHIFT == era * DAYS_PER_400_YEARS + DaysBeforeYearOfEra(yoe) + doy
    ensures CivilFromDays(x) == Civil(400 * era + yoe + (if mp >= 10 then 1 else 0),
                                      if mp < 10 then mp + 3 else mp - 9,
                                      doy - MonthStart(mp) + 1)
  {
    YearOfEraOfDay(yoe, doy);
    var doe := DaysBeforeYearOfEra(yoe) + doy;
    CivilFromDaysOfEra(x, era, doe);
    MonthOfDayOfYearOf(mp, doy);
    CivilOfEraDayParts(era, doe, yoe, doy, mp);
  }

  /** Every real date is the date of its own day number. */
  lemma {:induction false} DaysFromCivilInverse(c: Civil)
    requires ValidCivil(c)
    ensures CivilFromDays(DaysFromCivil(c)) == c
  {
    var ys := if c.month <= 2 then c.year - 1 else c.year;
    var mp := if c.month > 2 then c.month - 3 else c.month + 9;
    var era := ys / 400;
    var yoe := ys % 400;
    DayOfYearOfCivil(c, era, yoe, mp);
    DaysFromCivilParts(c, era, yoe, mp);
    CivilFromDaysOfParts(DaysFromCivil(c), era, yoe, MonthStart(mp) + c.day - 1, mp);
  }

  /** A real date in years 0000-9999 has a day number in the key range. */
  lemma {:induction false} KeyRangeOfCivil(c: Civil)
    requires ValidCivil(c) && 0 <= c.year <= 9999
    ensures InKeyRange(DaysFromCivil(c))
  {
    var ys := if c.month <= 2 then c.year - 1 else c.year;
    var mp := if c.month > 2 then c.month - 3 else c.month + 9;
    var era := ys / 400;
    var yoe := ys % 400;
    var doy := MonthStart(mp) + c.day - 1;
    assert 0 <= doy <= 365;
    LeapOfEraYear(era, yoe);
    YearOfEraOfDay(yoe, doy);
    DaysFromCivilParts(c, era, yoe, mp);
    if era == -1 {
      assert ys == -1 && yoe == 399 && mp >= 10 && doy >= 306;
    } else if era == 24 {
      if yoe == 399 {
        assert c.month > 2 && mp <= 9 && doy <= 305;
      } else {
        assert DaysBeforeYearOfEra(yoe) <= 365 * 398 + 99;
      }
    }
  }

  /** The last `w` decimal digits of `n`, most significant first, zero-padded. */
  function Digits(n: nat, w: nat): (s: string)
    ensures |s| == w
    ensures forall k :: 0 <= k < |s| ==> '0' <= s[k] <= '9'
  {
    if w == 0 then "" else Digits(n / 10, w - 1) + [('0' as int + n % 10) as char]
  }

  function Pow10(w: nat): (p: nat)
    ensures p >= 1
  {
    if w == 0 then 1 else 10 * Pow10(w - 1)
  }

  /** The value of a string of decimal digits; None if any character is not a digit. */
  function ParseDigits(s: string): (r: Option<nat>)
  {
    if s == [] then Some(0)
    else if !('0' <= s[|s| - 1] <= '9') then None
    else match ParseDigits(s[..|s| - 1])
      case None => None
      case Some(v) => Some(10 * v + (s[|s| - 1] as int - '0' as int))
  }

  lemma {:induction false} ParseDigitsOfDigits(n: nat, w: nat)
    requires n < Pow10(w)
    ensures ParseDigits(Digits(n, w)) == Some(n)
  {
    if w > 0 {
      var s := Digits(n, w);
      assert s[..|s| - 1] == Digits(n / 10, w - 1);
      ParseDigitsOfDigits(n / 10, w - 1);
    }
  }

  /** A string of decimal digits is the zero-padded form of its value. */
  lemma {:induction false} DigitsOfParseDigits(s: string)
    requires ParseDigits(s).Some?
    ensures ParseDigits(s).value < Pow10(|s|)
    ensures Digits(ParseDigits(s).value, |s|) == s
  {
    if s != [] {
      var t := s[..|s| - 1];
      DigitsOfParseDigits(t);
      var v := ParseDigits(t).value;
      var digit := s[|s| - 1] as int - '0' as int;
      assert 0 <= digit <= 9;
      var n := 10 * v + digit;
      assert ParseDigits(s).value == n;
      assert n / 10 == v && n % 10 == digit;
      assert n < 10 * Pow10(|t|) == Pow10(|s|);
      assert ('0' as int + digit) as char == s[|s| - 1];
      assert Digits(n, |s|) == Digits(v, |t|) + [s[|s| - 1]];
      assert s == t + [s[|s| - 1]];
    }
  }

  /**
   * `toISOString().slice(0, 10)`: `YYYY-MM-DD` for years 0..9999; other years use the
   * extended form `±YYYYYY-MM-DD`, of which the first ten characters are `±YYYYYY-MM`.
   */
  function IsoDatePrefix(c: Civil): (s: string)
    ensures |s| == 10
  {
    if 0 <= c.year <= 9999 then
      Digits(c.year, 4) + "-" + Digits(if c.month < 0 then 0 else c.month, 2) + "-" + Digits(if c.day < 0 then 0 else c.day, 2)
    else
      (if c.year < 0 then "-" else "+") + Digits(if c.year < 0 then -c.year else c.year, 6)
        + "-" + Digits(if c.month < 0 then 0 else c.month, 2)
  }

  /** The storage key of a day. */
  function DayKey(d: int): (k: string)
    ensures |k| == 10
  {
    IsoDatePrefix(CivilFromDays(d))
  }

  /** `todayKey()`: the UTC date of the instant `now`. */
  function TodayKey(now: int): (k: string)
    ensures |k| == 10
  {
    DayKey(DayOf(now))
  }

  /** Day numbers of 0000-01-01 and 9999-12-31. */
  const FIRST_KEY_DAY: int := -719528
  const LAST_KEY_DAY: int := 2932896

  /** Days in years 0000 to 9999: the only ones whose keys have the `YYYY-MM-DD` form. */
  predicate InKeyRange(d: int) {
    FIRST_KEY_DAY <= d <= LAST_KEY_DAY
  }

  /** The key range starts on 0000-01-01, and the day before it is in year -1. */
  lemma FirstKeyDay()
    ensures CivilFromDays(FIRST_KEY_DAY) == Civil(0, 1, 1)
    ensures CivilFromDays(FIRST_KEY_DAY - 1).year == -1
  {
    assert (FIRST_KEY_DAY + EPOCH_SHIFT) / DAYS_PER_400_YEARS == -1;
    assert (FIRST_KEY_DAY + EPOCH_SHIFT) % DAYS_PER_400_YEARS == 146037;
    assert YearOfEra(146037) == 399 && DaysBeforeYearOfEra(399) == 145731;
    assert MonthOfDayOfYear(306) == 10;
    assert (FIRST_KEY_DAY - 1 + EPOCH_SHIFT) % DAYS_PER_400_YEARS == 146036;
    assert YearOfEra(146036) == 399;
    assert MonthOfDayOfYear(305) == 9;
  }

  /** The key range ends on 9999-12-31, and the day after it is in year 10000. */
  lemma LastKeyDay()
    ensures CivilFromDays(LAST_KEY_DAY) == Civil(9999, 12, 31)
    ensures CivilFromDays(LAST_KEY_DAY + 1).year == 10000
  {
    assert (LAST_KEY_DAY + EPOCH_SHIFT) / DAYS_PER_400_YEARS == 24;
    assert (LAST_KEY_DAY + EPOCH_SHIFT) % DAYS_PER_400_YEARS == 146036;
    assert YearOfEra(146036) == 399 && DaysBeforeYearOfEra(399) == 145731;
    assert MonthOfDayOfYear(305) == 9;
    assert (LAST_KEY_DAY + 1 + EPOCH_SHIFT) % DAYS_PER_400_YEARS == 146037;
    assert YearOfEra(146037) == 399;
    assert MonthOfDayOfYear(306) == 10;
  }

  /**
   * Beyond year 9999 the key is cut to `+YYYYYY-MM`, so days of the same month share
   * one key: 10000-01-01 and 10000-01-02 both have the key `+010000-01`.
   */
  lemma KeysCollideBeyondRange()
    ensures DayKey(LAST_KEY_DAY + 1) == DayKey(LAST_KEY_DAY + 2)
  {
    FirstDaysOfYear10000();
    DayKeyOfCivil(LAST_KEY_DAY + 1, Civil(10000, 1, 1));
    DayKeyOfCivil(LAST_KEY_DAY + 2, Civil(10000, 1, 2));
  }

  lemma DayKeyOfCivil(d: int, c: Civil)
    requires CivilFromDays(d) == c
    ensures DayKey(d) == IsoDatePrefix(c)
  {
  }

  lemma FirstDaysOfYear10000()
    ensures CivilFromDays(LAST_KEY_DAY + 1) == Civil(10000, 1, 1)
    ensures CivilFromDays(LAST_KEY_DAY + 2) == Civil(10000, 1, 2)
  {
    assert (LAST_KEY_DAY + 1 + EPOCH_SHIFT) / DAYS_PER_400_YEARS == 24;
    assert (LAST_KEY_DAY + 1 + EPOCH_SHIFT) % DAYS_PER_400_YEARS == 146037;
    assert (LAST_KEY_DAY + 2 + EPOCH_SHIFT) / DAYS_PER_400_YEARS == 24;
    assert (LAST_KEY_DAY + 2 + EPOCH_SHIFT) % DAYS_PER_400_YEARS == 146038;
    assert YearOfEra(146037) == 399 && YearOfEra(146038) == 399;
    assert DaysBeforeYearOfEra(399) == 145731;
    assert MonthOfDayOfYear(306) == 10 && MonthOfDayOfYear(307) == 10;
  }

  /** The year of a day of an era: January and February belong to the next calendar year. */
  lemma EraDayYear(era: int, doe: int)
    requires 0 <= doe < DAYS_PER_400_YEARS
    ensures 0 <= YearOfEra(doe) < 400
    ensures CivilOfEraDay(era, doe).year == 400 * era + YearOfEra(doe)
      + (if doe - DaysBeforeYearOfEra(YearOfEra(doe)) >= 306 then 1 else 0)
  {
    YearOfEraCorrect(doe);
  }

  /** Every day of the key range falls in a year from 0000 to 9999. */
  lemma {:induction false} KeyRangeYears(d: int)
    requires InKeyRange(d)
    ensures 0 <= CivilFromDays(d).year <= 9999
  {
    var z := d + EPOCH_SHIFT;
    EraSplit(z);
    KeyRangeEraYears(z / DAYS_PER_400_YEARS, z % DAYS_PER_400_YEARS);
  }

  /** `KeyRangeYears` for a day given by its era and its day of the era. */
  lemma {:induction false} KeyRangeEraYears(era: int, doe: int)
    requires 0 <= doe < DAYS_PER_400_YEARS
    requires InKeyRange(era * DAYS_PER_400_YEARS + doe - EPOCH_SHIFT)
    ensures 0 <= CivilOfEraDay(era, doe).year <= 9999
  {
    YearOfEraCorrect(doe);
    EraDayYear(era, doe);
    var yoe := YearOfEra(doe);
    var doy := doe - DaysBeforeYearOfEra(yoe);
    if era < 0 {
      assert era == -1 && doe >= 146037;
      assert yoe == 399 && doy >= 306;
    } else if era == 24 {
      assert doe <= 146036;
      assert yoe < 399 || doy <= 305;
    } else {
      assert 0 <= era < 24;
    }
  }

  /**
   * Strict reading of a `YYYY-MM-DD` key as a day number: exactly ten characters,
   * dashes at positions 4 and 7, digits elsewhere, and a date that exists.
   */
  function ParseDayKey(s: string): (r: Option<int>)
    ensures r.Some? ==> |s| == 10 && s[4] == '-' && s[7] == '-'
  {
    if |s| != 10 || s[4] != '-' || s[7] != '-' then None
    else match (ParseDigits(s[..4]), ParseDigits(s[5..7]), ParseDigits(s[8..]))
      case (Some(y), Some(m), Some(dd)) =>
        if ValidCivil(Civil(y, m, dd)) then Some(DaysFromCivil(Civil(y, m, dd))) else None
      case _ => None
  }

  /**
   * Only canonical keys read as a date: a key that reads as day `d` is exactly the
   * key written for `d`, and `d` lies in years 0000-9999.
   */
  lemma ParseDayKeyCanonical(s: string)
    ensures ParseDayKey(s).Some? ==> InKeyRange(ParseDayKey(s).value) && DayKey(ParseDayKey(s).value) == s
  {
    if ParseDayKey(s).Some? {
      KeyOfCivil(s, Civil(ParseDigits(s[..4]).value, ParseDigits(s[5..7]).value, ParseDigits(s[8..]).value));
    }
  }

  /** A key whose digit groups read as a valid date is the key written for that date's day. */
  lemma KeyOfCivil(s: string, c: Civil)
    requires |s| == 10 && s[4] == '-' && s[7] == '-'
    requires ParseDigits(s[..4]) == Some(c.year)
    requires ParseDigits(s[5..7]) == Some(c.month)
    requires ParseDigits(s[8..]) == Some(c.day)
    requires ValidCivil(c)
    ensures InKeyRange(DaysFromCivil(c)) && DayKey(DaysFromCivil(c)) == s
  {
    DigitsOfParseDigits(s[..4]);
    DigitsOfParseDigits(s[5..7]);
    DigitsOfParseDigits(s[8..]);
    assert Pow10(4) == 10000;
    KeyRangeOfCivil(c);
    DaysFromCivilInverse(c);
    IsoDatePrefixOfPieces(s, c);
  }

  /** The four-digit-year key of a date, assembled from pieces of `s`, is `s`. */
  lemma IsoDatePrefixOfPieces(s: string, c: Civil)
    requires |s| == 10 && s[4] == '-' && s[7] == '-'
    requires 0 <= c.year <= 9999 && 0 <= c.month && 0 <= c.day
    requires Digits(c.year, 4) == s[..4]
    requires Digits(c.month, 2) == s[5..7]
    requires Digits(c.day, 2) == s[8..]
    ensures IsoDatePrefix(c) == s
  {
    assert s == s[..4] + [s[4]] + s[5..7] + [s[7]] + s[8..];
  }

  /** The pieces of a four-digit-year key sit at fixed positions. */
  lemma IsoDatePrefixPieces(c: Civil)
    requires 0 <= c.year <= 9999 && 0 <= c.month && 0 <= c.day
    ensures var s := IsoDatePrefix(c);
      && s[4] == '-' && s[7] == '-'
      && s[..4] == Digits(c.year, 4)
      && s[5..7] == Digits(c.month, 2)
      && s[8..] == Digits(c.day, 2)
  {
    var s := IsoDatePrefix(c);
    assert s == Digits(c.year, 4) + "-" + Digits(c.month, 2) + "-" + Digits(c.day, 2);
  }

  /** Every key the extension writes for a day in years 0000-9999 reads back as that day. */
  lemma {:induction false} ParseDayKeyOfDayKey(d: int)
    requires InKeyRange(d)
    ensures ParseDayKey(DayKey(d)) == Some(d)
  {
    var c := CivilFromDays(d);
    KeyRangeYears(d);
    CivilFromDaysInverse(d);
    IsoDatePrefixPieces(c);
    var s := DayKey(d);
    assert Pow10(2) == 100 && Pow10(4) == 10000;
    assert c.day <= 31;
    ParseDigitsOfDigits(c.year, 4);
    ParseDigitsOfDigits(c.month, 2);
    ParseDigitsOfDigits(c.day, 2);
    assert (ParseDigits(s[..4]), ParseDigits(s[5..7]), ParseDigits(s[8..])) == (Some(c.year), Some(c.month), Some(c.day));
  }

  /** Different days in the key range have different keys. */
  lemma DayKeyInjective(d1: int, d2: int)
    requires InKeyRange(d1) && InKeyRange(d2) && d1 != d2
    ensures DayKey(d1) != DayKey(d2)
  {
    ParseDayKeyOfDayKey(d1);
    ParseDayKeyOfDayKey(d2);
  }
}
