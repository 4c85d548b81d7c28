/** UTC months over seconds since the Epoch (IEEE Std 1003.1-2017, section 4.16), in the proleptic
    Gregorian calendar.  The service detects a month turn in two ways: by comparing (year, month)
    pairs (src/billing.rs) and by comparing seconds with the first second of the month (src/jobs.rs). */
module Calendar {

  const SECONDS_PER_DAY := 86_400

  /** The timestamps the date library accepts: years -9999 to 9999. */
  const MIN_TIMESTAMP := -377_705_116_800
  const MAX_TIMESTAMP := 253_402_300_799

  predicate InRange(ts: int) { MIN_TIMESTAMP <= ts <= MAX_TIMESTAMP }

  datatype Month = Month(year: int, number: int) {
    predicate Valid() { 1 <= number <= 12 }

    /** The order of Rust tuples. */
    predicate Before(other: Month) {
      year < other.year || (year == other.year && number < other.number)
    }

    /** Months counted in one line, so that `Before` is `<`. */
    function Index(): int { year * 12 + number - 1 }

    function Next(): Month {
      if number == 12 then Month(year + 1, 1) else Month(year, number + 1)
    }
  }

  const FIRST_MONTH := Month(-9999, 1)

  predicate LeapYear(y: int) { y % 4 == 0 && (y % 100 != 0 || y % 400 == 0) }

  function MonthLength(m: Month): (days: int)
    requires m.Valid()
  {
    if m.number == 2 then (if LeapYear(m.year) then 29 else 28)
    else if m.number in {4, 6, 9, 11} then 30
    else 31
  }

  /** Days from the Epoch to January 1 of year `y`: the formula of section 4.16 with tm_year = y - 1900. */
  function YearStart(y: int): int {
    (y - 1970) * 365 + (y - 1969) / 4 - (y - 1901) / 100 + (y - 1601) / 400
  }

  /** Days from January 1 to the first day of the month. */
  function DaysBefore(m: Month): int
    requires m.Valid()
  {
    if m.number == 1 then 0 else if m.number == 2 then 31
    else
      (match m.number
       case 3 => 59 case 4 => 90 case 5 => 120 case 6 => 151 case 7 => 181 case 8 => 212
       case 9 => 243 case 10 => 273 case 11 => 304 case _ => 334)
      + (if LeapYear(m.year) then 1 else 0)
  }

  /** Days from the Epoch to the first day of the month. */
  function StartDay(m: Month): int
    requires m.Valid()
  {
    YearStart(m.year) + DaysBefore(m)
  }

  function StartSecond(m: Month): int
    requires m.Valid()
  {
    StartDay(m) * SECONDS_PER_DAY
  }

  lemma Remainder(x: int, k: int, q: int, r: int)
    requires k in {4, 100, 400} && 0 <= r < k && x == k * q + r
    ensures x % k == r
  {
  }

  lemma RemainderShift(y: int)
    ensures (y - 1968) % 4 == y % 4 && (y - 1900) % 100 == y % 100 && (y - 1600) % 400 == y % 400
    ensures y % 400 == 0 ==> y % 100 == 0
    ensures y % 100 == 0 ==> y % 4 == 0
  {
    Remainder(y - 1968, 4, y / 4 - 492, y % 4);
    Remainder(y - 1900, 100, y / 100 - 19, y % 100);
    Remainder(y - 1600, 400, y / 400 - 4, y % 400);
    if y % 400 == 0 {
      Remainder(y, 100, 4 * (y / 400), 0);
    }
    if y % 100 == 0 {
      Remainder(y, 4, 25 * (y / 100), 0);
    }
  }

  lemma FloorStep(a: int, k: int)
    requires k in {4, 100, 400}
    ensures (a + 1) / k == a / k + (if (a + 1) % k == 0 then 1 else 0)
  {
  }

  lemma YearLength(y: int)
    ensures YearStart(y + 1) == YearStart(y) + (if LeapYear(y) then 366 else 365)
  {
    FloorStep(y - 1969, 4);
    FloorStep(y - 1901, 100);
    FloorStep(y - 1601, 400);
    RemainderShift(y);
  }

  /** The length of a month by the leap-year rule is the distance between two starts by the formula. */
  lemma NextMonthStart(m: Month)
    requires m.Valid()
    ensures m.Next().Valid() && StartDay(m.Next()) == StartDay(m) + MonthLength(m)
  {
    YearLength(m.year);
  }

  /** A later month starts at least one whole month later. */
  lemma {:induction false} StartsOrdered(a: Month, b: Month)
    requires a.Valid() && b.Valid() && a.Before(b)
    ensures StartDay(a) + MonthLength(a) <= StartDay(b)
    decreases b.year - a.year, 12 - a.number
  {
    NextMonthStart(a);
    if a.Next() != b {
      StartsOrdered(a.Next(), b);
    }
  }

  // ----- which month a timestamp lies in

  /** The first month from `m` on whose successor starts after day `d`. */
  function MonthFrom(d: int, m: Month): (r: Month)
    requires m.Valid()
    ensures r.Valid()
    decreases d - StartDay(m)
  {
    NextMonthStart(m);
    if d < StartDay(m.Next()) then m else MonthFrom(d, m.Next())
  }

  lemma {:induction false} MonthFromContains(d: int, m: Month)
    requires m.Valid() && StartDay(m) <= d
    ensures var r := MonthFrom(d, m); r.Valid() && StartDay(r) <= d < StartDay(r) + MonthLength(r)
    decreases d - StartDay(m)
  {
    NextMonthStart(m);
    if d >= StartDay(m.Next()) {
      MonthFromContains(d, m.Next());
    }
  }

  /** The UTC month of `ts`; (0, 0) when the date library rejects it. */
  function YearMonth(ts: int): Month {
    if InRange(ts) then MonthFrom(ts / SECONDS_PER_DAY, FIRST_MONTH) else Month(0, 0)
  }

  predicate IsEarlierMonth(ts: int, now: int) { YearMonth(ts).Before(YearMonth(now)) }

  /** First second of the UTC month of `now`; an unrepresentable `now` counts as the Epoch. */
  function MonthStartEpoch(now: int): int {
    StartSecond(YearMonth(if InRange(now) then now else 0))
  }

  /** `YearMonth` is the one month whose seconds contain `ts`. */
  lemma YearMonthContains(ts: int)
    requires InRange(ts)
    ensures var m := YearMonth(ts);
            m.Valid() && StartSecond(m) <= ts < StartSecond(m) + MonthLength(m) * SECONDS_PER_DAY
  {
    MonthFromContains(ts / SECONDS_PER_DAY, FIRST_MONTH);
  }

  lemma YearMonthUnique(ts: int, m: Month)
    requires InRange(ts) && m.Valid()
    requires StartSecond(m) <= ts < StartSecond(m) + MonthLength(m) * SECONDS_PER_DAY
    ensures YearMonth(ts) == m
  {
    var n := YearMonth(ts);
    YearMonthContains(ts);
    if n.Before(m) {
      StartsOrdered(n, m);
    } else if m.Before(n) {
      StartsOrdered(m, n);
    }
  }

  /** The month start is the least timestamp of its month, and it lies in that month. */
  lemma MonthStartIsLeast(now: int)
    requires InRange(now)
    ensures InRange(MonthStartEpoch(now)) && MonthStartEpoch(now) <= now
    ensures YearMonth(MonthStartEpoch(now)) == YearMonth(now)
    ensures forall ts | InRange(ts) && YearMonth(ts) == YearMonth(now) :: MonthStartEpoch(now) <= ts
  {
    var m := YearMonth(now);
    var first := FIRST_MONTH;
    YearMonthContains(now);
    if m.Before(first) {
      StartsOrdered(m, first);
    } else if first.Before(m) {
      StartsOrdered(first, m);
    }
    YearMonthUnique(MonthStartEpoch(now), m);
    forall ts | InRange(ts) && YearMonth(ts) == m
      ensures StartSecond(m) <= ts
    {
      YearMonthContains(ts);
    }
  }

  /** The two month tests agree on every pair of representable timestamps. */
  lemma MonthTestsAgree(ts: int, now: int)
    requires InRange(ts) && InRange(now)
    ensures ts < MonthStartEpoch(now) <==> IsEarlierMonth(ts, now)
  {
    var a, b := YearMonth(ts), YearMonth(now);
    YearMonthContains(ts);
    YearMonthContains(now);
    if a.Before(b) {
      StartsOrdered(a, b);
    } else if b.Before(a) {
      StartsOrdered(b, a);
    }
  }

  lemma MonthNotBeforeEpoch(now: int)
    requires 0 <= now <= MAX_TIMESTAMP
    ensures YearMonth(now).year >= 1970 && MonthStartEpoch(now) >= 0
  {
    var m, epoch := YearMonth(now), Month(1970, 1);
    YearMonthContains(now);
    if m.Before(epoch) {
      StartsOrdered(m, epoch);
    } else if epoch.Before(m) {
      StartsOrdered(epoch, m);
    }
  }

  /** Beyond that range they part: with the clock in the years 1970 to 9999, they agree exactly on the
      timestamps up to the end of year 9999.  After it, only the pair test sees an old month. */
  lemma MonthTestsAgreeExactly(ts: int, now: int)
    requires 0 <= now <= MAX_TIMESTAMP
    ensures (ts < MonthStartEpoch(now) <==> IsEarlierMonth(ts, now)) <==> ts <= MAX_TIMESTAMP
  {
    MonthNotBeforeEpoch(now);
    MonthStartIsLeast(now);
    if InRange(ts) {
      MonthTestsAgree(ts, now);
    }
  }

  /** Months follow the clock. */
  lemma YearMonthMonotone(s: int, t: int)
    requires InRange(s) && InRange(t) && s <= t
    ensures !YearMonth(t).Before(YearMonth(s))
  {
    YearMonthContains(s);
    YearMonthContains(t);
    if YearMonth(t).Before(YearMonth(s)) {
      StartsOrdered(YearMonth(t), YearMonth(s));
    }
  }

  /** The month of `ts` as one number. */
  function MonthOf(ts: int): int { YearMonth(ts).Index() }

  lemma EarlierByNumber(ts: int, now: int)
    requires InRange(ts) && InRange(now)
    ensures IsEarlierMonth(ts, now) <==> MonthOf(ts) < MonthOf(now)
    ensures ts <= now ==> MonthOf(ts) <= MonthOf(now)
  {
    YearMonthContains(ts);
    YearMonthContains(now);
    if ts <= now {
      YearMonthMonotone(ts, now);
    }
  }

  lemma StartByNumber(ts: int, now: int)
    requires InRange(ts) && 0 <= now <= MAX_TIMESTAMP
    ensures ts < MonthStartEpoch(now) <==> MonthOf(ts) < MonthOf(now)
    ensures MonthOf(MonthStartEpoch(now)) == MonthOf(now) && 0 <= MonthStartEpoch(now) <= now
  {
    EarlierByNumber(ts, now);
    MonthTestsAgree(ts, now);
    MonthStartIsLeast(now);
    MonthNotBeforeEpoch(now);
  }

  // ----- known dates

  lemma MonthLengths(m: Month)
    requires m.Valid()
    ensures MonthLength(m) == [31, if LeapYear(m.year) then 29 else 28, 31, 30, 31, 30, 31, 31, 30, 31, 30, 31][m.number - 1]
  {
  }

  /** The representable seconds are those of the years -9999 to 9999. */
  lemma KnownRange()
    ensures StartSecond(Month(-9999, 1)) == MIN_TIMESTAMP && StartSecond(Month(10_000, 1)) == MAX_TIMESTAMP + 1
  {
  }

  /** The month of the second before `ts` and of `ts`, where a month starts at `ts`. */
  lemma TurnsAt(ts: int, m: Month)
    requires m.Valid() && InRange(ts - 1) && InRange(ts) && StartSecond(m.Next()) == ts
    ensures YearMonth(ts - 1) == m && YearMonth(ts) == m.Next()
  {
    NextMonthStart(m);
    YearMonthUnique(ts - 1, m);
    YearMonthUnique(ts, m.Next());
  }

  /** The Epoch starts 1970; the century year 1900 has no leap day, and 2000 has one; 2024 ends at the right second. */
  lemma KnownTurns()
    ensures YearMonth(-1) == Month(1969, 12) && YearMonth(0) == Month(1970, 1)
    ensures YearMonth(-2_203_891_201) == Month(1900, 2) && YearMonth(-2_203_891_200) == Month(1900, 3)
    ensures YearMonth(951_868_799) == Month(2000, 2) && YearMonth(951_868_800) == Month(2000, 3)
    ensures YearMonth(1_735_689_599) == Month(2024, 12) && YearMonth(1_735_689_600) == Month(2025, 1)
  {
    TurnsAt(0, Month(1969, 12));
    TurnsAt(-2_203_891_200, Month(1900, 2));
    TurnsAt(951_868_800, Month(2000, 2));
    TurnsAt(1_735_689_600, Month(2024, 12));
  }
}
