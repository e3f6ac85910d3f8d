/** Proleptic Gregorian civil time as Python's `datetime` represents it, and
    `datetime.utcfromtimestamp` on integer Unix seconds. */
module CivilTime {
  import opened Wrappers
  import opened Errors

  const SECONDS_PER_DAY := 86400
  const MIN_YEAR := 1
  const MAX_YEAR := 9999
  /** The instants of `datetime.min` and of the last second of `datetime.max`, in Unix seconds. */
  const MIN_TIMESTAMP := -62135596800
  const MAX_TIMESTAMP := 253402300799

  datatype DateTime = DateTime(year: int, month: int, day: int,
                               hour: int, minute: int, second: int, microsecond: int)

  predicate IsLeapYear(y: int) {
    y % 4 == 0 && (y % 100 != 0 || y % 400 == 0)
  }

  function DaysInMonth(y: int, m: int): int
    requires 1 <= m <= 12
  {
    if m == 2 then (if IsLeapYear(y) then 29 else 28)
    else if m == 4 || m == 6 || m == 9 || m == 11 then 30
    else 31
  }

  predicate ValidDate(y: int, m: int, d: int) {
    1 <= m <= 12 && 1 <= d <= DaysInMonth(y, m)
  }

  /** The fields `datetime` accepts. */
  predicate Valid(dt: DateTime) {
    && MIN_YEAR <= dt.year <= MAX_YEAR
    && ValidDate(dt.year, dt.month, dt.day)
    && 0 <= dt.hour < 24 && 0 <= dt.minute < 60 && 0 <= dt.second < 60
    && 0 <= dt.microsecond < 1000000
  }

  // The conversion counts in 400-year eras starting on 0000-03-01, so that the
  // leap day is the last day of each of its years.

  function YearOfEra(doe: int): int {
    (doe - doe / 1460 + doe / 36524 - doe / 146096) / 365
  }

  function DayOfYear(doe: int, yoe: int): int {
    doe - (365 * yoe + yoe / 4 - yoe / 100)
  }

  /** The day of a March-based year on which month `mp` (0 = March) starts. */
  function MonthStart(mp: int): int {
    (153 * mp + 2) / 5
  }

  function MonthOfYear(doy: int): int {
    (5 * doy + 2) / 153
  }

  /** Days since 1970-01-01 of the civil date `y-m-d`. */
  function DaysFromCivil(y: int, m: int, d: int): int
    requires 1 <= m <= 12
  {
    var y' := if m <= 2 then y - 1 else y;
    var era := y' / 400;
    var yoe := y' - era * 400;
    var mp := if m > 2 then m - 3 else m + 9;
    var doy := MonthStart(mp) + d - 1;
    era * 146097 + yoe * 365 + yoe / 4 - yoe / 100 + doy - 719468
  }

  /** The civil date of day `doe` of era `era`. */
  function EraDate(era: int, doe: int): (int, int, int) {
    var yoe := YearOfEra(doe);
    var (m, d) := MonthDay(DayOfYear(doe, yoe));
    (yoe + era * 400 + (if m <= 2 then 1 else 0), m, d)
  }

  /** The month and day of day `doy` of a March-based year. */
  function MonthDay(doy: int): (int, int) {
    var mp := MonthOfYear(doy);
    (if mp < 10 then mp + 3 else mp - 9, doy - MonthStart(mp) + 1)
  }

  /** Each day of a March-based year falls within its month, the leap day
      only in a year whose February has 29 days. */
  lemma MonthDayValid(doy: int, y: int)
    requires 0 <= doy <= 365
    requires doy == 365 ==> IsLeapYear(y)
    ensures ValidDate(y, MonthDay(doy).0, MonthDay(doy).1)
  {
    MonthBounds(doy);
  }

  /** The date of a day of an era is valid. */
  lemma EraDateValid(era: int, doe: int)
    requires 0 <= doe < 146097
    ensures ValidDate(EraDate(era, doe).0, EraDate(era, doe).1, EraDate(era, doe).2)
  {
    YearOfEraBounds(doe);
    var yoe := YearOfEra(doe);
    var (y, m, d) := EraDate(era, doe);
    YearDayValid(era, yoe, DayOfYear(doe, yoe), y, m, d);
  }

  /** Day `doy` of year `yoe` of era `era`, as a civil date. */
  lemma YearDayValid(era: int, yoe: int, doy: int, y: int, m: int, d: int)
    requires 0 <= doy <= 365 && (doy == 365 ==> IsLeapYear(yoe + 1))
    requires (m, d) == MonthDay(doy) && y == yoe + era * 400 + (if m <= 2 then 1 else 0)
    ensures ValidDate(y, m, d)
  {
    if doy == 365 {
      assert m == 2;
      LeapShift(era, yoe + 1);
    }
    MonthDayValid(doy, y);
  }

  /** The date of a day of an era counts back to that day. */
  lemma EraDateCounts(era: int, doe: int)
    requires 0 <= doe < 146097
    ensures 1 <= EraDate(era, doe).1 <= 12
    ensures DaysFromCivil(EraDate(era, doe).0, EraDate(era, doe).1, EraDate(era, doe).2)
            == era * 146097 + doe - 719468
  {
    YearOfEraBounds(doe);
    var yoe := YearOfEra(doe);
    var doy := DayOfYear(doe, yoe);
    MonthBounds(doy);
    var mp := MonthOfYear(doy);
    var (y, m, d) := EraDate(era, doe);
    CivilCount(y, m, d, era, yoe, mp);
  }

  /** `DaysFromCivil` on a date whose March-based year is year `yoe` of era
      `era` and whose month is `mp` months after March. */
  lemma CivilCount(y: int, m: int, d: int, era: int, yoe: int, mp: int)
    requires 1 <= m <= 12 && 0 <= yoe < 400
    requires (if m <= 2 then y - 1 else y) == era * 400 + yoe
    requires mp == (if m > 2 then m - 3 else m + 9)
    ensures DaysFromCivil(y, m, d)
            == era * 146097 + 365 * yoe + yoe / 4 - yoe / 100 + MonthStart(mp) + d - 1 - 719468
  {
    var y' := if m <= 2 then y - 1 else y;
    EraOfYear(era, yoe);
    assert y' / 400 == era;
  }

  lemma EraOfYear(era: int, yoe: int)
    requires 0 <= yoe < 400
    ensures (era * 400 + yoe) / 400 == era
  {
  }

  /** The civil date of day `z` since 1970-01-01: a valid date that counts back to `z`. */
  function CivilFromDays(z: int): (r: (int, int, int))
    ensures ValidDate(r.0, r.1, r.2)
    ensures DaysFromCivil(r.0, r.1, r.2) == z
  {
    var era := (z + 719468) / 146097;
    var doe := z + 719468 - era * 146097;
    EraDateValid(era, doe);
    EraDateCounts(era, doe);
    EraDate(era, doe)
  }

  /** The instant of `dt` in Unix seconds, ignoring its microseconds. */
  function Timestamp(dt: DateTime): int
    requires 1 <= dt.month <= 12
  {
    DaysFromCivil(dt.year, dt.month, dt.day) * SECONDS_PER_DAY
      + dt.hour * 3600 + dt.minute * 60 + dt.second
  }

  /** `datetime.datetime.utcfromtimestamp(t)` for integer `t`: the UTC civil
      time of `t`, or the error Python raises when its year is not 1..9999. */
  function UtcFromTimestamp(t: int): (r: Result<DateTime, Error>)
    ensures r.Ok? <==> MIN_TIMESTAMP <= t <= MAX_TIMESTAMP
    ensures r.Ok? ==> Valid(r.value) && r.value.microsecond == 0 && Timestamp(r.value) == t
    ensures r.Err? ==> r.error == TimestampOutOfRange(t)
  {
    var days := t / SECONDS_PER_DAY;
    var secs := t % SECONDS_PER_DAY;
    var date := CivilFromDays(days);
    CivilYearRange(days);
    DayRange(t);
    TimeOfDay(secs);
    if date.0 < MIN_YEAR || date.0 > MAX_YEAR then Err(TimestampOutOfRange(t))
    else Ok(DateTime(date.0, date.1, date.2, secs / 3600, secs % 3600 / 60, secs % 60, 0))
  }

  lemma DayRange(t: int)
    ensures -719162 <= t / SECONDS_PER_DAY <= 2932896 <==> MIN_TIMESTAMP <= t <= MAX_TIMESTAMP
    ensures t == t / SECONDS_PER_DAY * SECONDS_PER_DAY + t % SECONDS_PER_DAY
  {
  }

  lemma TimeOfDay(secs: int)
    requires 0 <= secs < SECONDS_PER_DAY
    ensures 0 <= secs / 3600 < 24 && 0 <= secs % 3600 / 60 < 60
    ensures secs == secs / 3600 * 3600 + secs % 3600 / 60 * 60 + secs % 60
  {
  }

  /** The civil year of day `z` is in 1..9999 exactly from 0001-01-01 to 9999-12-31. */
  lemma CivilYearRange(z: int)
    ensures MIN_YEAR <= CivilFromDays(z).0 <= MAX_YEAR <==> -719162 <= z <= 2932896
  {
    var era := (z + 719468) / 146097;
    var doe := z + 719468 - era * 146097;
    var y := EraYear(doe);
    assert CivilFromDays(z).0 == era * 400 + y;
    if era < 0 {
      assert z < -719162;
    } else if era == 0 {
      assert z == doe - 719468;
    } else if era < 24 {
      assert -719162 <= z <= 2932896;
    } else if era == 24 {
      assert z == doe + 2786860;
    } else {
      assert z > 2932896;
    }
  }

  /** The civil year, counted from the start of its era, of day `doe` of the era:
      it is 0 only before day 306 (1 January of year 1) and 400 only after day 146036. */
  lemma EraYear(doe: int) returns (y: int)
    requires 0 <= doe < 146097
    ensures y == YearOfEra(doe) + (if MonthOfYear(DayOfYear(doe, YearOfEra(doe))) >= 10 then 1 else 0)
    ensures 0 <= y <= 400
    ensures y == 0 <==> doe < 306
    ensures y == 400 <==> doe > 146036
  {
    YearOfEraBounds(doe);
    var yoe := YearOfEra(doe);
    var doy := DayOfYear(doe, yoe);
    MonthBounds(doy);
    y := yoe + (if MonthOfYear(doy) >= 10 then 1 else 0);
    assert MonthOfYear(doy) >= 10 <==> doy >= 306;
    assert doe == 365 * yoe + yoe / 4 - yoe / 100 + doy;
    if yoe == 0 {
      assert doe == doy;
    } else if yoe < 399 {
      assert 365 <= doe <= 145731;
    } else {
      assert doe == 145731 + doy;
    }
  }

  /** Splits a day of an era (other than its last) into centuries, 4-year blocks and days. */
  lemma Decompose(doe: int) returns (c: int, k: int, s: int)
    requires 0 <= doe < 146096
    ensures doe == 36524 * c + 1461 * k + s
    ensures 0 <= c <= 3 && 0 <= k <= 24 && 0 <= s <= 1460
    ensures k == 24 ==> s <= 1459
  {
    c := doe / 36524;
    var r := doe - 36524 * c;
    k := r / 1461;
    s := r - 1461 * k;
  }

  /** The four divisions of `YearOfEra` on a decomposed day of an era. */
  lemma EraDivisions(c: int, k: int, s: int)
    requires 0 <= c <= 3 && 0 <= k <= 24 && 0 <= s <= 1460
    requires k == 24 ==> s <= 1459
    ensures var doe := 36524 * c + 1461 * k + s;
      var e := (24 * c + k + s) / 1460;
      && 0 <= e <= 1 && (s == 1460 ==> e == 1)
      && doe - doe / 1460 + doe / 36524 - doe / 146096 == 365 * (100 * c + 4 * k) + (s - e)
  {
    var doe := 36524 * c + 1461 * k + s;
    assert doe / 36524 == c;
    assert doe / 146096 == 0;
    assert doe == 1460 * (25 * c + k) + (24 * c + k + s);
    assert doe / 1460 == 25 * c + k + (24 * c + k + s) / 1460;
  }

  lemma Div365(a: int, r: int)
    requires 0 <= r
    ensures (365 * a + r) / 365 == a + r / 365
  {
    var q := r / 365;
    assert 365 * a + r == 365 * (a + q) + r % 365;
  }

  /** The leap corrections of year `100 * c + 4 * k + j` of an era. */
  lemma YearDivisions(c: int, k: int, j: int)
    requires 0 <= c <= 3 && 0 <= k <= 24 && 0 <= j <= 3
    ensures (100 * c + 4 * k + j) / 4 == 25 * c + k
    ensures (100 * c + 4 * k + j) / 100 == c
  {
  }

  /** The year of an era lies in 0..399, its day in 0..365, and day 365 (a
      29 February) only occurs when the following civil year is a leap year. */
  lemma YearOfEraBounds(doe: int)
    requires 0 <= doe <= 146096
    ensures 0 <= YearOfEra(doe) <= 399
    ensures 0 <= DayOfYear(doe, YearOfEra(doe)) <= 365
    ensures DayOfYear(doe, YearOfEra(doe)) == 365 ==> IsLeapYear(YearOfEra(doe) + 1)
  {
    if doe < 146096 {
      var c, k, j := YearOfEraParts(doe);
      if k <= 23 {
        BlockEndLeap(c, k);
      }
    } else {
      assert YearOfEra(doe) == 399;
      assert DayOfYear(doe, 399) == 365;
      assert IsLeapYear(400);
    }
  }

  /** The year after the last of a 4-year block other than a century's last is a leap year. */
  lemma BlockEndLeap(c: int, k: int)
    requires 0 <= c <= 3 && 0 <= k <= 23
    ensures IsLeapYear(100 * c + 4 * k + 4)
  {
    Shift4(25 * c + k + 1, 0);
    Shift100(c, 4 * k + 4);
  }

  /** Year `100 * c + 4 * k + j` of the era; day 365 falls in the last year of a
      4-year block that is not the last block of its century. */
  lemma YearOfEraParts(doe: int) returns (c: int, k: int, j: int)
    requires 0 <= doe < 146096
    ensures 0 <= c <= 3 && 0 <= k <= 24 && 0 <= j <= 3
    ensures YearOfEra(doe) == 100 * c + 4 * k + j
    ensures 0 <= DayOfYear(doe, YearOfEra(doe)) <= 365
    ensures DayOfYear(doe, YearOfEra(doe)) == 365 ==> j == 3 && k <= 23
  {
    var s;
    c, k, s := Decompose(doe);
    EraDivisions(c, k, s);
    var e := (24 * c + k + s) / 1460;
    j := (s - e) / 365;
    var r := s - e - 365 * j;
    assert 0 <= r < 365 && 0 <= j <= 3;
    Div365(100 * c + 4 * k, s - e);
    assert YearOfEra(doe) == 100 * c + 4 * k + j;
    YearDivisions(c, k, j);
    assert DayOfYear(doe, 100 * c + 4 * k + j) == r + e;
    if r + e == 365 {
      assert e == 1 && r == 364;
      assert s >= 1364;
    }
  }

  /** Month `mp` of a March-based year and its day: in range, and within the month's length. */
  lemma MonthBounds(doy: int)
    requires 0 <= doy <= 365
    ensures 0 <= MonthOfYear(doy) <= 11
    ensures MonthStart(MonthOfYear(doy)) <= doy
    ensures MonthOfYear(doy) < 11 ==> doy < MonthStart(MonthOfYear(doy) + 1)
    ensures MonthOfYear(doy) == 11 ==> MonthStart(11) == 337
  {
  }

  /** Adding a multiple of 4, 100 or 400 leaves the remainder unchanged. */
  lemma Shift4(q: int, y: int)
    ensures (4 * q + y) % 4 == y % 4
  {
    var d := y / 4;
    assert 4 * q + y == 4 * (q + d) + y % 4;
  }

  lemma Shift100(q: int, y: int)
    ensures (100 * q + y) % 100 == y % 100
  {
    var d := y / 100;
    assert 100 * q + y == 100 * (q + d) + y % 100;
  }

  lemma Shift400(q: int, y: int)
    ensures (400 * q + y) % 400 == y % 400
  {
    var d := y / 400;
    assert 400 * q + y == 400 * (q + d) + y % 400;
  }

  /** Whole eras do not change whether a year is a leap year. */
  lemma LeapShift(era: int, y: int)
    ensures IsLeapYear(era * 400 + y) == IsLeapYear(y)
  {
    Shift4(100 * era, y);
    Shift100(4 * era, y);
    Shift400(era, y);
  }
}
