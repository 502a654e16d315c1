/**
 The date of a day number, and decimal digits: what a time stamp in a file name
 is made of. The date is computed from eras of 400 years and proved to walk the
 calendar day by day.
 */
module Calendar {

  function Least(a: int, b: int): int { if a < b then a else b }

  // --- Dates ------------------------------------------------------------------------------

  /** Year, month and day of a day number counted from 1970-01-01. */
  function CivilDate(day: int): (int, int, int) {
    var z := day + 719468;
    DateInEra(z / 146097, z % 146097)
  }

  /** Centuries, then groups of four years, then years, each with its leap day last: years are counted from March. */
  function DateInEra(era: int, doe: int): (int, int, int) {
    var c := Least(doe / 36524, 3);
    var inCentury := doe - 36524 * c;
    var q := inCentury / 1461;
    var inFour := inCentury - 1461 * q;
    var r := Least(inFour / 365, 3);
    DateInYear(400 * era + 100 * c + 4 * q + r, inFour - 365 * r)
  }

  /** Day `doy` of the year that begins in March of year `y`. */
  function DateInYear(y: int, doy: int): (int, int, int) {
    var mp := (5 * doy + 2) / 153;
    (if mp < 10 then y else y + 1, if mp < 10 then mp + 3 else mp - 9, doy - MonthStart(mp) + 1)
  }

  function MonthStart(mp: int): int { (153 * mp + 2) / 5 }

  predicate IsLeap(y: int) { y % 4 == 0 && (y % 100 != 0 || y % 400 == 0) }

  function DaysIn(y: int, month: int): int {
    if month == 2 then if IsLeap(y) then 29 else 28
    else if month == 4 || month == 6 || month == 9 || month == 11 then 30 else 31
  }

  function NextDay(date: (int, int, int)): (int, int, int) {
    var (y, m, d) := date;
    if d < DaysIn(y, m) then (y, m, d + 1)
    else if m < 12 then (y, m + 1, 1)
    else (y + 1, 1, 1)
  }

  function LastDay(y: int): int { if IsLeap(y + 1) then 365 else 364 }

  lemma NextInYear(y: int, doy: int)
    requires 0 <= doy <= LastDay(y)
    ensures NextDay(DateInYear(y, doy)) == if doy < LastDay(y) then DateInYear(y, doy + 1) else DateInYear(y + 1, 0)
  {
    var mp := (5 * doy + 2) / 153;
    assert 0 <= mp <= 11;
  }

  /** Which years of an era are long. */
  lemma LeapInEra(era: int, c: int, q: int, r: int)
    requires 0 <= c <= 3 && 0 <= q <= 24 && 0 <= r <= 3
    ensures LastDay(400 * era + 100 * c + 4 * q + r) == if r == 3 && (q < 24 || c == 3) then 365 else 364
  {
    var rest := 4 * q + r + 1;
    By4(100 * era + 25 * c + q, r + 1);
    By100(4 * era + c, rest);
    By400(era, 100 * c + rest);
  }

  lemma By4(a: int, b: int)
    ensures (4 * a + b) % 4 == b % 4
  {
  }

  lemma By100(a: int, b: int)
    ensures (100 * a + b) % 100 == b % 100
  {
  }

  lemma By400(a: int, b: int)
    ensures (400 * a + b) % 400 == b % 400
  {
  }

  ghost predicate Splits(doe: int, c: int, q: int, r: int, doy: int) {
    && 0 <= c <= 3 && 0 <= q <= 24 && 0 <= r <= 3 && 0 <= doy <= (if r == 3 && (q < 24 || c == 3) then 365 else 364)
    && doe == 36524 * c + 1461 * q + 365 * r + doy
  }

  lemma CenturyIs(x: int, c: int)
    requires 0 <= c <= 3 && 36524 * c <= x && (x < 36524 * c + 36524 || (c == 3 && x <= 36524 * c + 36524))
    ensures Least(x / 36524, 3) == c
  {
  }

  lemma FourIs(x: int, q: int)
    requires 1461 * q <= x < 1461 * q + 1461
    ensures x / 1461 == q
  {
  }

  lemma YearIs(x: int, r: int)
    requires 0 <= r <= 3 && 365 * r <= x && (x < 365 * r + 365 || (r == 3 && x <= 365 * r + 365))
    ensures Least(x / 365, 3) == r
  {
  }

  lemma SplitsAre(doe: int, c: int, q: int, r: int, doy: int)
    requires Splits(doe, c, q, r, doy)
    ensures 0 <= doe < 146097 && Least(doe / 36524, 3) == c
    ensures (doe - 36524 * c) / 1461 == q && Least((doe - 36524 * c - 1461 * q) / 365, 3) == r
  {
    CenturyIs(doe, c);
    FourIs(doe - 36524 * c, q);
    YearIs(doe - 36524 * c - 1461 * q, r);
  }

  lemma SplitsIsTheDate(era: int, doe: int, c: int, q: int, r: int, doy: int)
    requires Splits(doe, c, q, r, doy)
    ensures DateInEra(era, doe) == DateInYear(400 * era + 100 * c + 4 * q + r, doy) && 0 <= doe < 146097
  {
    SplitsAre(doe, c, q, r, doy);
    var inCentury := doe - 36524 * c;
    var inFour := inCentury - 1461 * q;
    assert inFour - 365 * r == doy;
  }

  lemma Split(doe: int) returns (c: int, q: int, r: int, doy: int)
    requires 0 <= doe < 146097
    ensures Splits(doe, c, q, r, doy)
  {
    c := Least(doe / 36524, 3);
    q := (doe - 36524 * c) / 1461;
    r := Least((doe - 36524 * c - 1461 * q) / 365, 3);
    doy := doe - 36524 * c - 1461 * q - 365 * r;
  }

  /** After the last day of a year comes the first of the next, in this era or the next one. */
  lemma NextYear(era: int, doe: int, c: int, q: int, r: int, doy: int)
    requires Splits(doe, c, q, r, doy) && doy == (if r == 3 && (q < 24 || c == 3) then 365 else 364)
    ensures DateInYear(400 * era + 100 * c + 4 * q + r + 1, 0) == if doe < 146096 then DateInEra(era, doe + 1) else DateInEra(era + 1, 0)
  {
    if r < 3 {
      SplitsIsTheDate(era, doe + 1, c, q, r + 1, 0);
    } else if q < 24 {
      SplitsIsTheDate(era, doe + 1, c, q + 1, 0, 0);
    } else if c < 3 {
      SplitsIsTheDate(era, doe + 1, c + 1, 0, 0, 0);
    } else {
      SplitsIsTheDate(era + 1, 0, 0, 0, 0, 0);
    }
  }

  /** Within a year the next day of the era is the next day of the year. */
  lemma SameYear(era: int, doe: int, c: int, q: int, r: int, doy: int)
    requires Splits(doe, c, q, r, doy) && doy < (if r == 3 && (q < 24 || c == 3) then 365 else 364)
    ensures DateInYear(400 * era + 100 * c + 4 * q + r, doy + 1) == DateInEra(era, doe + 1) && doe < 146096
  {
    SplitsIsTheDate(era, doe + 1, c, q, r, doy + 1);
  }

  lemma NextOfSplit(era: int, doe: int, c: int, q: int, r: int, doy: int)
    requires Splits(doe, c, q, r, doy)
    ensures NextDay(DateInYear(400 * era + 100 * c + 4 * q + r, doy))
         == if doe < 146096 then DateInEra(era, doe + 1) else DateInEra(era + 1, 0)
  {
    LeapInEra(era, c, q, r);
    NextInYear(400 * era + 100 * c + 4 * q + r, doy);
    if doy < (if r == 3 && (q < 24 || c == 3) then 365 else 364) {
      SameYear(era, doe, c, q, r, doy);
    } else {
      NextYear(era, doe, c, q, r, doy);
    }
  }

  lemma NextInEra(era: int, doe: int)
    requires 0 <= doe < 146097
    ensures NextDay(DateInEra(era, doe)) == if doe < 146096 then DateInEra(era, doe + 1) else DateInEra(era + 1, 0)
  {
    var c, q, r, doy := Split(doe);
    SplitsIsTheDate(era, doe, c, q, r, doy);
    NextOfSplit(era, doe, c, q, r, doy);
  }

  lemma CivilDateAt(day: int, era: int, doe: int)
    requires 0 <= doe < 146097 && day + 719468 == 146097 * era + doe
    ensures CivilDate(day) == DateInEra(era, doe)
  {
    assert (day + 719468) / 146097 == era;
  }

  lemma EraOf(day: int) returns (era: int, doe: int)
    ensures 0 <= doe < 146097 && day + 719468 == 146097 * era + doe
  {
    era, doe := (day + 719468) / 146097, (day + 719468) % 146097;
  }

  lemma DayZero()
    ensures CivilDate(0) == (1970, 1, 1)
  {
    CivilDateAt(0, 4, 135080);
    SplitsIsTheDate(4, 135080, 3, 17, 1, 306);
  }

  lemma NextDate(day: int)
    ensures CivilDate(day + 1) == NextDay(CivilDate(day))
  {
    var era, doe := EraOf(day);
    CivilDateAt(day, era, doe);
    NextInEra(era, doe);
    if doe < 146096 { CivilDateAt(day + 1, era, doe + 1); } else { CivilDateAt(day + 1, era + 1, 0); }
  }

  /** Day numbers walk the calendar from the first of January 1970. */
  lemma CivilDateIsTheCalendar(day: int)
    ensures CivilDate(0) == (1970, 1, 1)
    ensures CivilDate(day + 1) == NextDay(CivilDate(day))
  {
    DayZero();
    NextDate(day);
  }

  lemma DateRange(day: int)
    ensures var (_, m, d) := CivilDate(day); 1 <= m <= 12 && 1 <= d <= 31
  {
    var era, doe := EraOf(day);
    CivilDateAt(day, era, doe);
    var c, q, r, doy := Split(doe);
    SplitsIsTheDate(era, doe, c, q, r, doy);
    MonthRange(400 * era + 100 * c + 4 * q + r, doy);
  }

  lemma MonthRange(y: int, doy: int)
    requires 0 <= doy <= 365
    ensures var (_, m, d) := DateInYear(y, doy); 1 <= m <= 12 && 1 <= d <= 31
  {
  }

  // --- Digits -----------------------------------------------------------------------------

  predicate IsDigit(c: char) { '0' <= c <= '9' }

  /** The last `w` decimal digits of `n`. */
  function Digits(n: int, w: nat): (s: string)
    ensures |s| == w && forall i :: 0 <= i < w ==> IsDigit(s[i])
    decreases w
  {
    if w == 0 then "" else Digits(n / 10, w - 1) + ["0123456789"[n % 10]]
  }

  /** What a row of digits reads as. */
  function Number(s: string): int {
    if s == "" then 0 else 10 * Number(s[..|s| - 1]) + (s[|s| - 1] as int - '0' as int)
  }

  function Power10(w: nat): (p: int)
    ensures p >= 1
  {
    if w == 0 then 1 else 10 * Power10(w - 1)
  }

  lemma {:induction false} DigitsRead(n: int, w: nat)
    requires 0 <= n < Power10(w)
    ensures Number(Digits(n, w)) == n
    decreases w
  {
    if w > 0 {
      DigitsRead(n / 10, w - 1);
      var s := Digits(n, w);
      assert s[..|s| - 1] == Digits(n / 10, w - 1);
      assert "0123456789"[n % 10] as int - '0' as int == n % 10;
    }
  }
}
