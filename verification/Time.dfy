/** Civil dates in the proleptic Gregorian calendar and UTC timestamps in the form of
    section 5.6 of RFC 3339. */
module Time {
  import opened Wrappers
  import opened Bytes
  import opened Checked
  import opened Text

  const NANOS_PER_SECOND := 1_000_000_000
  const SECONDS_PER_DAY := 86400
  const NANOS_PER_DAY := 86400 * 1_000_000_000

  // ---- the calendar -------------------------------------------------------------------

  datatype Civil = Civil(year: int, month: nat, day: nat)

  predicate IsLeap(year: int) {
    year % 4 == 0 && (year % 100 != 0 || year % 400 == 0)
  }

  function MonthLength(year: int, month: nat): nat {
    if month == 2 then if IsLeap(year) then 29 else 28
    else if month == 4 || month == 6 || month == 9 || month == 11 then 30
    else 31
  }

  predicate ValidDate(d: Civil) {
    1 <= d.month <= 12 && 1 <= d.day <= MonthLength(d.year, d.month)
  }

  /** The date after: the calendar itself, one day at a time. */
  function NextDay(d: Civil): (r: Civil)
    requires ValidDate(d)
    ensures ValidDate(r)
  {
    if d.day < MonthLength(d.year, d.month) then Civil(d.year, d.month, d.day + 1)
    else if d.month < 12 then Civil(d.year, d.month + 1, 1)
    else Civil(d.year + 1, 1, 1)
  }

  // ---- the code's conversions ------------------------------------------------------------

  /** Days before a month, counting months from March. */
  function DayOfYear(month: nat, day: nat): int {
    (153 * (if month > 2 then month - 3 else month + 9) + 2) / 5 + day - 1
  }

  function DaysFromCivil(d: Civil): int {
    var year := if d.month <= 2 then d.year - 1 else d.year;
    var era := TruncatedQuotient(if year >= 0 then year else year - 399, 400);
    var yearOfEra := year - era * 400;
    var dayOfEra := yearOfEra * 365 + yearOfEra / 4 - yearOfEra / 100 + DayOfYear(d.month, d.day);
    era * 146097 + dayOfEra - 719468
  }

  /** The date of a day of an era. */
  function CivilOfEra(era: int, dayOfEra: int): Civil {
    var yearOfEra := (dayOfEra - dayOfEra / 1460 + dayOfEra / 36524 - dayOfEra / 146096) / 365;
    var dayOfYear := dayOfEra - (365 * yearOfEra + yearOfEra / 4 - yearOfEra / 100);
    var monthPrime := (5 * dayOfYear + 2) / 153;
    var day := dayOfYear - (153 * monthPrime + 2) / 5 + 1;
    var month := if monthPrime < 10 then monthPrime + 3 else monthPrime - 9;
    var year := yearOfEra + era * 400;
    Civil(if month <= 2 then year + 1 else year, if month >= 0 then month else 0, if day >= 0 then day else 0)
  }

  function CivilFromDays(n: int): Civil {
    var days := n + 719468;
    var era := TruncatedQuotient(if days >= 0 then days else days - 146096, 146097);
    CivilOfEra(era, days - era * 146097)
  }

  // ---- era, year and day ---------------------------------------------------------------------

  /** Rounding towards minus infinity, as the code obtains it. */
  lemma FloorByTruncation(x: int, m: nat)
    requires m > 0
    ensures TruncatedQuotient(if x >= 0 then x else x - (m - 1), m) == x / m
  {
    if x < 0 {
      var q := (-(x - (m - 1))) / m;
      var r := (-(x - (m - 1))) % m;
      assert -x + (m - 1) == q * m + r;
      assert x == -q * m + (m - 1 - r);
      assert (x / m + q) * m == (m - 1 - r) - x % m;
      SmallMultiple(x / m + q, m, (m - 1 - r) - x % m);
    }
  }

  /** Days of an era, counted from a first of March, before its y-th year. */
  function YearStart(y: nat): nat
    requires y <= 400
  {
    365 * y + y / 4 - y / 100 + (if y == 400 then 1 else 0)
  }

  lemma YearsAscend(a: nat, b: nat)
    requires a < b <= 400
    ensures YearStart(a) + 365 <= YearStart(b)
  {}

  /** The year that begins in March y ends with the February of year y + 1. */
  lemma YearLength(y: nat)
    requires y < 400
    ensures YearStart(y + 1) - YearStart(y) == if IsLeap(y + 1) then 366 else 365
  {}

  /** The year of a day of an era, by the code's correction terms. */
  function YearOfEra(doe: nat): int {
    (doe - doe / 1460 + doe / 36524 - doe / 146096) / 365
  }

  lemma YearOfEraIsRight(doe: nat)
    requires doe < 146097
    ensures 0 <= YearOfEra(doe) < 400
    ensures YearStart(YearOfEra(doe)) <= doe < YearStart(YearOfEra(doe) + 1)
  {
    var c := if doe / 36524 > 3 then 3 else doe / 36524;
    var inCentury := doe - 36524 * c;
    var q := inCentury / 1461;
    var inCycle := inCentury - 1461 * q;
    var y := if inCycle / 365 > 3 then 3 else inCycle / 365;
    var r := inCycle - 365 * y;
    YearByParts(doe, c, q, y, r);
  }

  lemma YearParts(c: nat, q: nat, y: nat)
    requires c <= 3 && q <= 24 && y <= 3
    ensures (var n := 100 * c + 4 * q + y;
      n / 4 == 25 * c + q && n / 100 == c && YearStart(n) == 36524 * c + 1461 * q + 365 * y)
  {
    var n := 100 * c + 4 * q + y;
    assert n / 4 == 25 * c + q;
    assert n / 100 == c;
  }

  lemma CenturyOf(doe: nat, c: nat, rest: nat)
    requires c <= 3 && doe == 36524 * c + rest && (rest < 36524 || (rest == 36524 && c == 3))
    ensures doe / 36524 - doe / 146096 == c
  {
    if rest == 36524 {
      assert doe == 146096;
    } else {
      assert doe / 36524 == c;
      assert doe / 146096 == 0;
    }
  }

  lemma YearByParts(doe: nat, c: nat, q: nat, y: nat, r: nat)
    requires c <= 3 && q <= 24 && y <= 3 && r <= 365 && (r == 365 ==> y == 3)
    requires (q == 24 && y == 3 && r == 365 ==> c == 3)
    requires doe == 36524 * c + 1461 * q + 365 * y + r
    ensures YearOfEra(doe) == 100 * c + 4 * q + y
    ensures YearStart(YearOfEra(doe)) <= doe < YearStart(YearOfEra(doe) + 1)
  {
    var n, slack := 100 * c + 4 * q + y, 24 * c + q + 365 * y + r;
    var k := if slack >= 1460 then 1 else 0;
    CenturyOf(doe, c, 1461 * q + 365 * y + r);
    assert doe == 1460 * (25 * c + q) + slack;
    assert doe / 1460 == 25 * c + q + k;
    assert doe - doe / 1460 + doe / 36524 - doe / 146096 == 365 * n + (r - k);
    assert YearOfEra(doe) == n;
    YearParts(c, q, y);
    NextYearParts(c, q, y);
  }

  lemma NextYearParts(c: nat, q: nat, y: nat)
    requires c <= 3 && q <= 24 && y <= 3
    ensures (var n := 100 * c + 4 * q + y;
      YearStart(n + 1) == 36524 * c + 1461 * q + 365 * (y + 1) + (if y == 3 && (q < 24 || c == 3) then 1 else 0))
  {
    var n := 100 * c + 4 * q + y;
    if y < 3 {
      YearParts(c, q, y + 1);
    } else if q < 24 {
      YearParts(c, q + 1, 0);
    } else if c < 3 {
      YearParts(c + 1, 0, 0);
    } else {
      assert n + 1 == 400;
    }
  }

  lemma YearUnique(doe: nat, y: nat)
    requires doe < 146097 && y < 400 && YearStart(y) <= doe < YearStart(y + 1)
    ensures YearOfEra(doe) == y
  {
    hide YearOfEra, YearStart;
    YearOfEraIsRight(doe);
    var z := YearOfEra(doe);
    if z < y && z + 1 < y {
      YearsAscend(z + 1, y);
    } else if y < z && y + 1 < z {
      YearsAscend(y + 1, z);
    }
  }

  /** Which month a day of a March year falls in, and where in the month. */
  lemma MonthOf(doy: nat)
    requires doy <= 365
    ensures (var mp := (5 * doy + 2) / 153;
      && mp <= 11
      && (var month := if mp < 10 then mp + 3 else mp - 9;
          var day := doy - (153 * mp + 2) / 5 + 1;
          && 1 <= month <= 12 && 1 <= day && DayOfYear(month, day) == doy
          && (month == 2 ==> day <= 29 && (doy < 365 ==> day <= 28))
          && (month != 2 ==> day <= MonthLength(0, month))))
  {
    var mp := (5 * doy + 2) / 153;
    assert mp == 0 || mp == 1 || mp == 2 || mp == 3 || mp == 4 || mp == 5 || mp == 6 || mp == 7
        || mp == 8 || mp == 9 || mp == 10 || mp == 11;
  }

  /** Conversely a valid day of a month has exactly this month and day. */
  lemma DayOf(month: nat, day: nat, leap: bool)
    requires 1 <= month <= 12 && 1 <= day <= (if month == 2 then if leap then 29 else 28 else MonthLength(1, month))
    ensures (var doy := DayOfYear(month, day);
      && 0 <= doy <= (if leap then 365 else 364)
      && (var mp := (5 * doy + 2) / 153;
          && month == (if mp < 10 then mp + 3 else mp - 9)
          && day == doy - (153 * mp + 2) / 5 + 1))
  {
    assert month == 1 || month == 2 || month == 3 || month == 4 || month == 5 || month == 6 || month == 7
        || month == 8 || month == 9 || month == 10 || month == 11 || month == 12;
  }

  function MarchYear(d: Civil): int {
    if d.month <= 2 then d.year - 1 else d.year
  }

  lemma DaysByParts(d: Civil)
    ensures DaysFromCivil(d)
         == MarchYear(d) / 400 * 146097 + YearStart(MarchYear(d) % 400) + DayOfYear(d.month, d.day) - 719468
  {
    hide TruncatedQuotient, DayOfYear;
    FloorByTruncation(MarchYear(d), 400);
    var y := MarchYear(d);
    assert y == y / 400 * 400 + y % 400;
  }

  lemma CivilByParts(n: int)
    ensures (var doe := (n + 719468) % 146097;
      var y := YearOfEra(doe);
      0 <= y < 400 && YearStart(y) <= doe < YearStart(y + 1) && doe - YearStart(y) <= 365
      && (var doy := doe - YearStart(y);
          var mp := (5 * doy + 2) / 153;
          var month := if mp < 10 then mp + 3 else mp - 9;
          var day := doy - (153 * mp + 2) / 5 + 1;
          && 1 <= month <= 12 && 1 <= day && CivilFromDays(n).month == month && CivilFromDays(n).day == day
          && MarchYear(CivilFromDays(n)) == y + (n + 719468) / 146097 * 400))
  {
    hide TruncatedQuotient, CivilOfEra;
    var days := n + 719468;
    FloorByTruncation(days, 146097);
    var doe := days % 146097;
    assert days - days / 146097 * 146097 == doe;
    CivilOfEraByParts(days / 146097, doe);
  }

  lemma CivilOfEraByParts(era: int, doe: nat)
    requires doe < 146097
    ensures (var y := YearOfEra(doe);
      0 <= y < 400 && YearStart(y) <= doe < YearStart(y + 1) && doe - YearStart(y) <= 365
      && (var doy := doe - YearStart(y);
          var mp := (5 * doy + 2) / 153;
          var month := if mp < 10 then mp + 3 else mp - 9;
          var day := doy - (153 * mp + 2) / 5 + 1;
          && 1 <= month <= 12 && 1 <= day && CivilOfEra(era, doe).month == month && CivilOfEra(era, doe).day == day
          && MarchYear(CivilOfEra(era, doe)) == y + era * 400))
  {
    YearOfEraIsRight(doe);
    var y := YearOfEra(doe);
    YearLength(y);
    MonthOf(doe - YearStart(y));
  }

  /** Every day number is a valid date, and that date's day number is it. */
  lemma DayRoundTrip(n: int)
    ensures ValidDate(CivilFromDays(n)) && DaysFromCivil(CivilFromDays(n)) == n
  {
    hide CivilFromDays, CivilOfEra, DaysFromCivil, YearOfEra, YearStart, DayOfYear;
    CivilByParts(n);
    var d := CivilFromDays(n);
    var days := n + 719468;
    var doe := days % 146097;
    var y := YearOfEra(doe);
    MonthOf(doe - YearStart(y));
    DaysByParts(d);
    assert MarchYear(d) / 400 == days / 146097 && MarchYear(d) % 400 == y;
    YearLength(y);
    LeapOfEra(y + 1, days / 146097);
    assert d.month == 2 && d.day == 29 ==> IsLeap(d.year);
  }

  /** Leap years repeat every 400 years. */
  lemma LeapOfEra(y: int, era: int)
    ensures IsLeap(y + era * 400) == IsLeap(y)
  {
    assert (y + era * 400) % 4 == y % 4 by { Cancel(y, era * 100, 4); }
    assert (y + era * 400) % 100 == y % 100 by { Cancel(y, era * 4, 100); }
    Cancel(y, era, 400);
  }

  /** And every valid date is the date of its day number. */
  lemma DateRoundTrip(d: Civil)
    requires ValidDate(d)
    ensures CivilFromDays(DaysFromCivil(d)) == d
  {
    hide CivilFromDays, CivilOfEra, DaysFromCivil, YearOfEra, YearStart, DayOfYear;
    var y := MarchYear(d) % 400;
    var era := MarchYear(d) / 400;
    YearLength(y);
    LeapOfEra(y + 1, era);
    assert d.month == 2 ==> d.year == y + 1 + era * 400;
    DayOf(d.month, d.day, IsLeap(y + 1));
    var doy := DayOfYear(d.month, d.day);
    DaysByParts(d);
    var n := DaysFromCivil(d);
    var doe := YearStart(y) + doy;
    InEra(y);
    assert n + 719468 == era * 146097 + doe;
    assert (n + 719468) / 146097 == era && (n + 719468) % 146097 == doe;
    YearUnique(doe, y);
    CivilByParts(n);
  }

  lemma InEra(y: nat)
    requires y < 400
    ensures YearStart(y + 1) <= 146097
  {}

  /** The day number counts days of the calendar: it is 0 on 1970-01-01 and grows by
      one from each date to the next. With the round trips this fixes both functions. */
  lemma CountsDays(d: Civil)
    requires ValidDate(d)
    ensures DaysFromCivil(Civil(1970, 1, 1)) == 0
    ensures DaysFromCivil(NextDay(d)) == DaysFromCivil(d) + 1
  {
    hide DaysFromCivil, YearStart, DayOfYear;
    Epoch();
    DaysByParts(d);
    DaysByParts(NextDay(d));
    var y := MarchYear(d) % 400;
    MonthAdvances(d);
    if d.month == 2 && d.day == MonthLength(d.year, 2) {
      YearLength(y);
      LeapOfEra(y + 1, MarchYear(d) / 400);
      NextInEra(MarchYear(d));
    }
  }

  lemma Epoch()
    ensures DaysFromCivil(Civil(1970, 1, 1)) == 0
  {}

  /** Within a March year the day of the year grows by one; after February it starts again. */
  lemma MonthAdvances(d: Civil)
    requires ValidDate(d)
    ensures (var next := NextDay(d);
      if d.month == 2 && d.day == MonthLength(d.year, 2) then
        && MarchYear(next) == MarchYear(d) + 1 && DayOfYear(next.month, next.day) == 0
        && DayOfYear(d.month, d.day) == if IsLeap(d.year) then 365 else 364
      else
        MarchYear(next) == MarchYear(d) && DayOfYear(next.month, next.day) == DayOfYear(d.month, d.day) + 1)
  {
    hide IsLeap;
    var m := d.month;
    assert m == 1 || m == 2 || m == 3 || m == 4 || m == 5 || m == 6 || m == 7 || m == 8 || m == 9 || m == 10
        || m == 11 || m == 12;
  }

  lemma NextInEra(year: int)
    ensures (year + 1) / 400 * 146097 + YearStart((year + 1) % 400) == year / 400 * 146097 + YearStart(year % 400 + 1)
  {
    hide YearStart;
    if year % 400 == 399 {
      assert (year + 1) % 400 == 0 && (year + 1) / 400 == year / 400 + 1;
      WholeEra();
    } else {
      assert (year + 1) % 400 == year % 400 + 1 && (year + 1) / 400 == year / 400;
    }
  }

  lemma WholeEra()
    ensures YearStart(0) == 0 && YearStart(400) == 146097
  {}

  // ---- timestamps ---------------------------------------------------------------------------

  const DASH: byte := 0x2D
  const COLON: byte := 0x3A
  const POINT: byte := 0x2E
  const LETTER_T: byte := 0x54
  const LETTER_Z: byte := 0x5A

  /** A date and time of day in the form of section 5.6 of RFC 3339, in UTC, with nine
      digits of a second. */
  function Stamp(d: Civil, secondOfDay: nat, nanos: nat): (s: bytes)
    requires d.year >= 0
    ensures |s| == 30
  {
    Fixed(d.year, 4) + [DASH] + Fixed(d.month, 2) + [DASH] + Fixed(d.day, 2) + [LETTER_T]
    + Fixed(secondOfDay / 3600, 2) + [COLON] + Fixed(secondOfDay % 3600 / 60, 2) + [COLON] + Fixed(secondOfDay % 60, 2)
    + [POINT] + Fixed(nanos, 9) + [LETTER_Z]
  }

  /** The day whose date is printed: the division rounds towards zero. */
  function PrintedDay(t: i64): int {
    TruncatedQuotient(t / NANOS_PER_SECOND, SECONDS_PER_DAY)
  }

  lemma YearInRange(days: int)
    requires -106752 <= days <= 106752
    ensures 1600 <= CivilFromDays(days).year <= 2400
  {
    hide CivilFromDays, YearOfEra, YearStart, DayOfYear;
    CivilByParts(days);
  }

  lemma DaysInRange(t: i64)
    ensures -106752 <= PrintedDay(t) <= 106752
  {}

  function Timestamp(t: i64): bytes {
    DaysInRange(t);
    YearInRange(PrintedDay(t));
    Stamp(CivilFromDays(PrintedDay(t)), t / NANOS_PER_SECOND % SECONDS_PER_DAY, t % NANOS_PER_SECOND)
  }

  method AppendTwo(out: bytes, value: nat) returns (r: bytes)
    ensures r == out + Fixed(value, 2)
  {
    assert Fixed(value, 2) == Fixed(value / 10, 1) + [Digit(value % 10)];
    assert Fixed(value / 10, 1) == [] + [Digit(value / 10 % 10)];
    r := out + [Digit(value / 10 % 10)];
    r := r + [Digit(value % 10)];
  }

  method FormatWallUtc(value: i64) returns (out: bytes)
    ensures out == Timestamp(value)
  {
    hide CivilFromDays, Fixed;
    var seconds, fraction := TruncatedQuotient(value, NANOS_PER_SECOND), TruncatedRemainder(value, NANOS_PER_SECOND);
    if fraction < 0 {
      fraction := fraction + NANOS_PER_SECOND;
      seconds := seconds - 1;
    }
    assert seconds == value / NANOS_PER_SECOND && fraction == value % NANOS_PER_SECOND;
    var days, secondOfDay := TruncatedQuotient(seconds, SECONDS_PER_DAY), TruncatedRemainder(seconds, SECONDS_PER_DAY);
    if secondOfDay < 0 {
      secondOfDay := secondOfDay + SECONDS_PER_DAY;
    }
    assert secondOfDay == seconds % SECONDS_PER_DAY;
    DaysInRange(value);
    YearInRange(days);
    var d := CivilFromDays(days);
    TenThousand();
    out := Padded(d.year, 4);
    out := AppendTwo(out + [DASH], d.month);
    out := AppendTwo(out + [DASH], d.day);
    out := AppendTwo(out + [LETTER_T], secondOfDay / 3600);
    out := AppendTwo(out + [COLON], secondOfDay % 3600 / 60);
    out := AppendTwo(out + [COLON], secondOfDay % 60);
    var text := Padded(fraction, 9);
    out := out + [POINT] + text + [LETTER_Z];
  }

  lemma TenThousand()
    ensures Pow10(2) == 100 && Pow10(4) == 10_000 && Pow10(9) == 1_000_000_000
  {
    assert Pow10(3) == 1000 && Pow10(5) == 100_000 && Pow10(6) == 1_000_000 && Pow10(7) == 10_000_000;
  }

  // ---- reading timestamps ----------------------------------------------------------------------

  /** The number in some digits of a text. */
  function Numeral(s: bytes, at: nat, count: nat): Option<nat>
    requires at + count <= |s|
  {
    if AllDigits(s[at..at + count]) then Some(Value(s[at..at + count])) else None
  }

  /** Nanoseconds since the epoch, step by step within 64 bits. */
  function Assembled(days: i64, secondOfDay: i64, nanos: i64): Result<i64> {
    var total := MulI64(days, SECONDS_PER_DAY);
    if total.None? then Fault(Overflow) else
    var withDay := AddI64(total.value, secondOfDay);
    if withDay.None? then Fault(Overflow) else
    var scaled := MulI64(withDay.value, NANOS_PER_SECOND);
    if scaled.None? then Fault(Overflow) else
    var withFraction := AddI64(scaled.value, nanos);
    if withFraction.None? then Fault(Overflow) else Success(withFraction.value)
  }

  /** The digits after the point, as nanoseconds. */
  function Fraction(body: bytes): Result<i64>
    requires |body| >= 19
  {
    if |body| == 19 then Success(0)
    else if body[19] != POINT then Fault(ParseError)
    else if |body| == 20 || |body| > 29 then Fault(ParseError)
    else if !AllDigits(body[20..]) then Fault(ParseError)
    else
      FractionFits(body[20..]);
      Success(Value(body[20..]) * Pow10(29 - |body|))
  }

  lemma FractionFits(digits: bytes)
    requires AllDigits(digits) && |digits| <= 9
    ensures Value(digits) * Pow10(9 - |digits|) < 1_000_000_000
  {
    ValueBound(digits);
    var k := |digits|;
    Pow10Splits(k, 9 - k);
    TenThousand();
    assert (Pow10(k) - Value(digits)) * Pow10(9 - k) > 0;
  }

  lemma {:induction false} ValueBound(s: bytes)
    requires AllDigits(s)
    ensures Value(s) < Pow10(|s|)
    decreases |s|
  {
    if s != [] {
      ValueBound(s[..|s| - 1]);
    }
  }

  lemma {:induction false} Pow10Splits(a: nat, b: nat)
    ensures Pow10(a) * Pow10(b) == Pow10(a + b)
  {
    if a > 0 {
      Pow10Splits(a - 1, b);
      assert 10 * (Pow10(a - 1) * Pow10(b)) == Pow10(a) * Pow10(b);
    }
  }

  predicate InRange(month: nat, day: nat, hour: nat, minute: nat, second: nat) {
    1 <= month <= 12 && 1 <= day <= 31 && hour <= 23 && minute <= 59 && second <= 60
  }

  function Parsed(text: bytes): Result<i64> {
    if |text| < 20 || text[|text| - 1] != LETTER_Z then Fault(ParseError)
    else
      var body := text[..|text| - 1];
      if body[4] != DASH || body[7] != DASH || body[10] != LETTER_T || body[13] != COLON || body[16] != COLON then
        Fault(ParseError)
      else
        var year, month, day := Numeral(body, 0, 4), Numeral(body, 5, 2), Numeral(body, 8, 2);
        var hour, minute, second := Numeral(body, 11, 2), Numeral(body, 14, 2), Numeral(body, 17, 2);
        if year.None? || month.None? || day.None? || hour.None? || minute.None? || second.None? then Fault(ParseError)
        else if !InRange(month.value, day.value, hour.value, minute.value, second.value) then Fault(OutOfRange)
        else
          var fraction := Fraction(body);
          if fraction.Fault? then fraction
          else
            FourDigits(body[0..4]);
            DaysFit(Civil(year.value, month.value, day.value));
            Assembled(DaysFromCivil(Civil(year.value, month.value, day.value)),
                      hour.value * 3600 + minute.value * 60 + second.value, fraction.value)
  }

  lemma FourDigits(s: bytes)
    requires |s| == 4
    ensures AllDigits(s) ==> Value(s) < 10_000
  {
    TenThousand();
    if AllDigits(s) {
      ValueBound(s);
    }
  }

  lemma DaysFit(d: Civil)
    requires 0 <= d.year < 10_000 && 1 <= d.month <= 12 && d.day <= 31
    ensures -800_000 <= DaysFromCivil(d) <= 4_000_000
  {
    hide DaysFromCivil;
    DaysByParts(d);
  }

  method DigitsAt(s: bytes, at: nat, count: nat) returns (r: Option<nat>)
    requires at + count <= |s|
    ensures r == Numeral(s, at, count)
  {
    var accumulator := 0;
    var digits := s[at..at + count];
    for i := 0 to count
      invariant AllDigits(digits[..i]) && accumulator == Value(digits[..i])
    {
      var c := s[at + i];
      assert c == digits[i];
      if !IsDigit(c) {
        return None;
      }
      assert digits[..i + 1][..i] == digits[..i];
      accumulator := accumulator * 10 + (c - ZERO);
    }
    assert digits[..count] == digits;
    return Some(accumulator);
  }

  lemma TenTimes(v: nat, p: nat)
    ensures v * (10 * p) == (v * p) * 10
  {}

  method ParseFraction(body: bytes) returns (r: Result<i64>)
    requires |body| >= 19
    ensures r == Fraction(body)
  {
    hide Value;
    if |body| == 19 {
      return Success(0);
    }
    if body[19] != POINT {
      return Fault(ParseError);
    }
    var fraction := body[20..];
    if fraction == [] || |fraction| > 9 {
      return Fault(ParseError);
    }
    var digits := DigitsAt(body, 20, |fraction|);
    assert body[20..20 + |fraction|] == fraction;
    if digits.None? {
      return Fault(ParseError);
    }
    FractionFits(fraction);
    var value := digits.value;
    assert value * Pow10(0) == value;
    for index := |fraction| to 9
      invariant value == Value(fraction) * Pow10(index - |fraction|)
    {
      TenTimes(Value(fraction), Pow10(index - |fraction|));
      value := value * 10;
    }
    return Success(value);
  }

  method ParseWallUtc(text: bytes) returns (r: Result<i64>)
    ensures r == Parsed(text)
  {
    hide Numeral, Fraction, DaysFromCivil;
    if |text| < 20 || text[|text| - 1] != LETTER_Z {
      return Fault(ParseError);
    }
    var body := text[..|text| - 1];
    if body[4] != DASH || body[7] != DASH || body[10] != LETTER_T || body[13] != COLON || body[16] != COLON {
      return Fault(ParseError);
    }
    var year := DigitsAt(body, 0, 4);
    var month := DigitsAt(body, 5, 2);
    var day := DigitsAt(body, 8, 2);
    var hour := DigitsAt(body, 11, 2);
    var minute := DigitsAt(body, 14, 2);
    var second := DigitsAt(body, 17, 2);
    if year.None? || month.None? || day.None? || hour.None? || minute.None? || second.None? {
      return Fault(ParseError);
    }
    if !InRange(month.value, day.value, hour.value, minute.value, second.value) {
      return Fault(OutOfRange);
    }
    var fraction := ParseFraction(body);
    if fraction.Fault? {
      return fraction;
    }
    YearField(body, year.value);
    DaysFit(Civil(year.value, month.value, day.value));
    var days := DaysFromCivil(Civil(year.value, month.value, day.value));
    var secondOfDay := hour.value * 3600 + minute.value * 60 + second.value;
    var total := MulI64(days, SECONDS_PER_DAY);
    if total.None? {
      return Fault(Overflow);
    }
    var withDay := AddI64(total.value, secondOfDay);
    if withDay.None? {
      return Fault(Overflow);
    }
    var scaled := MulI64(withDay.value, NANOS_PER_SECOND);
    if scaled.None? {
      return Fault(Overflow);
    }
    var withFraction := AddI64(scaled.value, fraction.value);
    return if withFraction.None? then Fault(Overflow) else Success(withFraction.value);
  }

  lemma YearField(body: bytes, year: nat)
    requires |body| >= 4 && Numeral(body, 0, 4) == Some(year)
    ensures year < 10_000
  {
    FourDigits(body[0..4]);
  }

  // ---- there and back -------------------------------------------------------------------------

  lemma DateParts(y: bytes, mo: bytes, d: bytes)
    requires |y| == 4 && |mo| == |d| == 2
    ensures (var t := y + [DASH] + mo + [DASH] + d + [LETTER_T];
      && |t| == 11 && t[4] == t[7] == DASH && t[10] == LETTER_T
      && t[0..4] == y && t[5..7] == mo && t[8..10] == d)
  {}

  lemma TimeParts(h: bytes, mi: bytes, s: bytes)
    requires |h| == |mi| == |s| == 2
    ensures (var t := h + [COLON] + mi + [COLON] + s + [POINT];
      && |t| == 9 && t[2] == t[5] == COLON && t[8] == POINT
      && t[0..2] == h && t[3..5] == mi && t[6..8] == s)
  {}

  /** Where the fields of a stamp lie. */
  lemma StampParts(y: bytes, mo: bytes, d: bytes, h: bytes, mi: bytes, s: bytes, f: bytes)
    requires |y| == 4 && |mo| == |d| == |h| == |mi| == |s| == 2 && |f| == 9
    ensures (var t := y + [DASH] + mo + [DASH] + d + [LETTER_T] + h + [COLON] + mi + [COLON] + s + [POINT] + f + [LETTER_Z];
      var b := t[..29];
      && t[29] == LETTER_Z && b[4] == b[7] == DASH && b[10] == LETTER_T && b[13] == b[16] == COLON && b[19] == POINT
      && b[0..4] == y && b[5..7] == mo && b[8..10] == d && b[11..13] == h && b[14..16] == mi && b[17..19] == s && b[20..] == f)
  {
    var date := y + [DASH] + mo + [DASH] + d + [LETTER_T];
    var time := h + [COLON] + mi + [COLON] + s + [POINT];
    var t := y + [DASH] + mo + [DASH] + d + [LETTER_T] + h + [COLON] + mi + [COLON] + s + [POINT] + f + [LETTER_Z];
    assert t == date + time + f + [LETTER_Z];
    DateParts(y, mo, d);
    TimeParts(h, mi, s);
    Cut(date, time, f, t[..29]);
  }

  lemma Cut(date: bytes, time: bytes, f: bytes, b: bytes)
    requires b == date + time + f && |date| == 11 && |time| == 9
    ensures forall i, j :: 0 <= i <= j <= 11 ==> b[i..j] == date[i..j]
    ensures forall i, j :: 0 <= i <= j <= 9 ==> b[11 + i..11 + j] == time[i..j]
    ensures b[4] == date[4] && b[7] == date[7] && b[10] == date[10] && b[13] == time[2] && b[16] == time[5]
    ensures b[19] == time[8] && b[20..] == f
    ensures b[11..13] == time[0..2] && b[14..16] == time[3..5] && b[17..19] == time[6..8]
  {
    assert b == date + (time + f);
    forall i, j | 0 <= i <= j <= 11
      ensures b[i..j] == date[i..j]
    {
      SliceOfFirst(date, time + f, i, j);
    }
    forall i, j | 0 <= i <= j <= 9
      ensures b[11 + i..11 + j] == time[i..j]
    {
      SliceOfSecond(date, time + f, i, j);
      SliceOfFirst(time, f, i, j);
    }
  }

  lemma SliceOfFirst(a: bytes, rest: bytes, i: nat, j: nat)
    requires i <= j <= |a|
    ensures (a + rest)[i..j] == a[i..j]
  {}

  lemma SliceOfSecond(a: bytes, rest: bytes, i: nat, j: nat)
    requires i <= j <= |rest|
    ensures (a + rest)[|a| + i..|a| + j] == rest[i..j]
  {}

  lemma TwoDigits(n: nat)
    requires n < 100
    ensures AllDigits(Fixed(n, 2)) && Value(Fixed(n, 2)) == n
  {
    TenThousand();
    FixedValue(n, 2);
  }

  /** Reading back a stamp of a date and time of day; the month may be too short for the day. */
  lemma StampRoundTrip(d: Civil, secondOfDay: nat, nanos: nat)
    requires 0 <= d.year < 10_000 && 1 <= d.month <= 12 && 1 <= d.day <= 31
    requires secondOfDay < SECONDS_PER_DAY && nanos < NANOS_PER_SECOND
    requires I64_MIN <= (DaysFromCivil(d) * SECONDS_PER_DAY + secondOfDay) * NANOS_PER_SECOND
    requires (DaysFromCivil(d) * SECONDS_PER_DAY + secondOfDay) * NANOS_PER_SECOND + nanos <= I64_MAX
    ensures Parsed(Stamp(d, secondOfDay, nanos))
         == Success((DaysFromCivil(d) * SECONDS_PER_DAY + secondOfDay) * NANOS_PER_SECOND + nanos)
  {
    hide Fixed, Value, DaysFromCivil;
    var h, mi, s := secondOfDay / 3600, secondOfDay % 3600 / 60, secondOfDay % 60;
    StampParts(Fixed(d.year, 4), Fixed(d.month, 2), Fixed(d.day, 2), Fixed(h, 2), Fixed(mi, 2), Fixed(s, 2), Fixed(nanos, 9));
    TenThousand();
    FixedValue(d.year, 4);
    FixedValue(nanos, 9);
    TwoDigits(d.month);
    TwoDigits(d.day);
    TwoDigits(h);
    TwoDigits(mi);
    TwoDigits(s);
    assert h * 3600 + mi * 60 + s == secondOfDay;
    DaysFit(d);
    assert Pow10(0) == 1;
  }

  /** Whether the printed date is the date of the day that the time falls on. */
  predicate DateIsRight(t: i64) {
    t >= 0 || t / NANOS_PER_SECOND % SECONDS_PER_DAY == 0
  }

  lemma PrintedDayIs(t: i64)
    ensures PrintedDay(t) == t / NANOS_PER_SECOND / SECONDS_PER_DAY + if DateIsRight(t) then 0 else 1
  {}

  /** Parsing a printed time gives the time back exactly from the epoch on, and before
      it on the stroke of midnight; else the printed date is a day late. */
  lemma TimestampRoundTrip(t: i64)
    ensures Parsed(Timestamp(t)) == Success(if DateIsRight(t) then t else t + NANOS_PER_DAY)
    ensures Parsed(Timestamp(t)) == Success(t) <==> DateIsRight(t)
  {
    hide Parsed, Stamp, CivilFromDays, DaysFromCivil;
    var days := PrintedDay(t);
    DaysInRange(t);
    YearInRange(days);
    PrintedDayIs(t);
    DayRoundTrip(days);
    var second, nanos := t / NANOS_PER_SECOND % SECONDS_PER_DAY, t % NANOS_PER_SECOND;
    StampRoundTrip(CivilFromDays(days), second, nanos);
  }

  // ---- days that a month does not have ----------------------------------------------------------

  /** A date as the reader of stamps admits it. */
  predicate InFields(d: Civil) {
    1 <= d.month <= 12 && 1 <= d.day <= 31
  }

  /** Days that a month does not have are counted on into the next. */
  function Spilled(d: Civil): Civil
    requires InFields(d)
  {
    if ValidDate(d) then d else Civil(d.year, d.month + 1, d.day - MonthLength(d.year, d.month))
  }

  lemma DaysAddUp(d: Civil, k: nat)
    requires d.day == 1
    ensures DaysFromCivil(Civil(d.year, d.month, 1 + k)) == DaysFromCivil(d) + k
  {}

  /** Whatever day up to 31 is named in a month, its day number is that of the date it spills over
      to; so the number stands for the date that was named exactly when there is such a date. */
  lemma NamedDateIff(d: Civil)
    requires InFields(d)
    ensures ValidDate(Spilled(d)) && CivilFromDays(DaysFromCivil(d)) == Spilled(d)
    ensures CivilFromDays(DaysFromCivil(d)) == d <==> ValidDate(d)
  {
    hide DaysFromCivil, CivilFromDays;
    if !ValidDate(d) {
      var length := MonthLength(d.year, d.month);
      var last, next := Civil(d.year, d.month, length), Civil(d.year, d.month + 1, 1);
      CountsDays(last);
      assert NextDay(last) == next;
      DaysAddUp(Civil(d.year, d.month, 1), length - 1);
      DaysAddUp(Civil(d.year, d.month, 1), d.day - 1);
      DaysAddUp(next, d.day - length - 1);
    }
    DateRoundTrip(Spilled(d));
  }

  /** The fields of a stamp, as far as they are numbers. */
  datatype Fields = Fields(date: Civil, hour: nat, minute: nat, second: nat, nanos: int)

  function FieldsOf(text: bytes): Fields
    requires |text| >= 20
  {
    var body := text[..|text| - 1];
    Fields(Civil(Numeral(body, 0, 4).GetOr(0), Numeral(body, 5, 2).GetOr(0), Numeral(body, 8, 2).GetOr(0)),
           Numeral(body, 11, 2).GetOr(0), Numeral(body, 14, 2).GetOr(0), Numeral(body, 17, 2).GetOr(0),
           match Fraction(body) case Success(n) => n case Fault(_) => 0)
  }

  lemma LongEnough(text: bytes)
    requires Parsed(text).Success?
    ensures |text| >= 20
  {
    hide Numeral, Fraction, DaysFromCivil, Assembled;
  }

  /** The value of an accepted text, from its fields. */
  lemma AcceptedValue(text: bytes)
    requires |text| >= 20 && Parsed(text).Success?
    ensures (var f := FieldsOf(text);
      && InFields(f.date) && f.hour <= 23 && f.minute <= 59 && f.second <= 60 && 0 <= f.nanos < NANOS_PER_SECOND
      && Parsed(text).value
         == (DaysFromCivil(f.date) * SECONDS_PER_DAY + f.hour * 3600 + f.minute * 60 + f.second) * NANOS_PER_SECOND + f.nanos)
  {
    hide Numeral, Fraction, DaysFromCivil;
    FractionBound(text[..|text| - 1]);
  }

  lemma FractionBound(body: bytes)
    requires |body| >= 19 && Fraction(body).Success?
    ensures 0 <= Fraction(body).value < NANOS_PER_SECOND
  {
    if |body| > 19 {
      FractionFits(body[20..]);
    }
  }

  /** The date of the day that a time falls on. */
  function DateOf(t: i64): Civil {
    CivilFromDays(t / NANOS_PER_DAY)
  }

  /** The leap second at the end of a day belongs to the next. */
  predicate EndsDay(f: Fields) {
    f.hour == 23 && f.minute == 59 && f.second == 60
  }

  lemma DayOfValue(days: int, second: nat, nanos: nat)
    requires second <= SECONDS_PER_DAY && nanos < NANOS_PER_SECOND
    ensures ((days * SECONDS_PER_DAY + second) * NANOS_PER_SECOND + nanos) / NANOS_PER_DAY
         == if second == SECONDS_PER_DAY then days + 1 else days
  {
    var t := (days * SECONDS_PER_DAY + second) * NANOS_PER_SECOND + nanos;
    assert t == days * NANOS_PER_DAY + second * NANOS_PER_SECOND + nanos;
  }

  /** An accepted text names the date that its value falls on exactly when there is such a date and
      the text does not name the sixtieth second of the last minute of a day; a sixtieth second
      is the first of the next minute. */
  lemma AcceptedDateIff(text: bytes)
    requires Parsed(text).Success?
    ensures |text| >= 20
    ensures (var f := FieldsOf(text); var t := Parsed(text).value;
      && (DateOf(t) == f.date <==> ValidDate(f.date) && !EndsDay(f))
      && (!EndsDay(f) ==> DateOf(t) == Spilled(f.date)))
  {
    hide Parsed, FieldsOf, DaysFromCivil, CivilFromDays;
    LongEnough(text);
    var f := FieldsOf(text);
    AcceptedValue(text);
    var days, second := DaysFromCivil(f.date), f.hour * 3600 + f.minute * 60 + f.second;
    DayOfValue(days, second, f.nanos);
    NamedDateIff(f.date);
    if EndsDay(f) {
      DayRoundTrip(days + 1);
    }
  }

  // "2023-02-31T00:00:00Z"
  const NO_SUCH_DAY: bytes := [0x32, 0x30, 0x32, 0x33, 0x2D, 0x30, 0x32, 0x2D, 0x33, 0x31, 0x54,
                               0x30, 0x30, 0x3A, 0x30, 0x30, 0x3A, 0x30, 0x30, 0x5A]

  lemma TwoDigitValue(a: byte, b: byte)
    requires IsDigit(a) && IsDigit(b)
    ensures AllDigits([a, b]) && Value([a, b]) == (a - ZERO) * 10 + (b - ZERO)
  {
    assert [a, b][..1] == [a] && [a][..0] == [];
    assert Value([a]) == a - ZERO;
  }

  lemma FourDigitValue(a: byte, b: byte, c: byte, d: byte)
    requires IsDigit(a) && IsDigit(b) && IsDigit(c) && IsDigit(d)
    ensures AllDigits([a, b, c, d])
    ensures Value([a, b, c, d]) == (((a - ZERO) * 10 + (b - ZERO)) * 10 + (c - ZERO)) * 10 + (d - ZERO)
  {
    TwoDigitValue(a, b);
    assert [a, b, c, d][..3] == [a, b, c] && [a, b, c][..2] == [a, b];
  }

  lemma NoSuchDayFields()
    ensures FieldsOf(NO_SUCH_DAY) == Fields(Civil(2023, 2, 31), 0, 0, 0, 0)
    ensures (var body := NO_SUCH_DAY[..19];
      && Numeral(body, 0, 4) == Some(2023) && Numeral(body, 5, 2) == Some(2) && Numeral(body, 8, 2) == Some(31)
      && Numeral(body, 11, 2) == Some(0) && Numeral(body, 14, 2) == Some(0) && Numeral(body, 17, 2) == Some(0)
      && Fraction(body) == Success(0) && body[4] == body[7] == DASH && body[10] == LETTER_T && body[13] == body[16] == COLON)
  {
    hide Value;
    var body := NO_SUCH_DAY[..19];
    FourDigitsAt(body, 0);
    TwoDigitsAt(body, 5);
    TwoDigitsAt(body, 8);
    TwoDigitsAt(body, 11);
    TwoDigitsAt(body, 14);
    TwoDigitsAt(body, 17);
  }

  lemma TwoDigitsAt(s: bytes, at: nat)
    requires at + 2 <= |s| && IsDigit(s[at]) && IsDigit(s[at + 1])
    ensures Numeral(s, at, 2) == Some((s[at] - ZERO) * 10 + (s[at + 1] - ZERO))
  {
    hide Value;
    assert s[at..at + 2] == [s[at], s[at + 1]];
    TwoDigitValue(s[at], s[at + 1]);
  }

  lemma FourDigitsAt(s: bytes, at: nat)
    requires at + 4 <= |s| && IsDigit(s[at]) && IsDigit(s[at + 1]) && IsDigit(s[at + 2]) && IsDigit(s[at + 3])
    ensures Numeral(s, at, 4)
         == Some((((s[at] - ZERO) * 10 + (s[at + 1] - ZERO)) * 10 + (s[at + 2] - ZERO)) * 10 + (s[at + 3] - ZERO))
  {
    hide Value;
    assert s[at..at + 4] == [s[at], s[at + 1], s[at + 2], s[at + 3]];
    FourDigitValue(s[at], s[at + 1], s[at + 2], s[at + 3]);
  }

  /** The thirty-first of February 2023 is accepted, as the third of March. */
  lemma NoSuchDayAccepted()
    ensures Parsed(NO_SUCH_DAY).Success? && FieldsOf(NO_SUCH_DAY).date == Civil(2023, 2, 31)
    ensures !ValidDate(Civil(2023, 2, 31)) && DateOf(Parsed(NO_SUCH_DAY).value) == Civil(2023, 3, 3)
  {
    hide Value, DaysFromCivil, CivilFromDays, Numeral, Fraction, FieldsOf;
    NoSuchDayFields();
    DaysFit(Civil(2023, 2, 31));
    FebruaryDays();
    AcceptedDateIff(NO_SUCH_DAY);
  }

  lemma FebruaryDays()
    ensures 0 <= DaysFromCivil(Civil(2023, 2, 31)) <= 100_000
  {}
}
