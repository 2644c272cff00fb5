/** Instants on the Gregorian calendar as the service holds them: naive fields, compared field by field. */
module Calendar {

  const HOUR: int := 3_600_000_000
  const DAY: int := 24 * HOUR

  /** `micros` is the time of day in microseconds. */
  datatype DateTime = DateTime(year: int, month: int, day: int, micros: int)

  predicate IsLeap(y: int) {
    y % 4 == 0 && (y % 100 != 0 || y % 400 == 0)
  }

  function DaysInMonth(y: int, m: int): int {
    if m == 2 then (if IsLeap(y) then 29 else 28)
    else if m == 4 || m == 6 || m == 9 || m == 11 then 30 else 31
  }

  predicate IsDateTime(t: DateTime) {
    1 <= t.month <= 12 && 1 <= t.day <= DaysInMonth(t.year, t.month) && 0 <= t.micros < DAY
  }

  type Moment = t: DateTime | IsDateTime(t) witness DateTime(1970, 1, 1, 0)

  // ----- the proleptic ordinal -----

  function DaysBeforeYear(y: int): int {
    365 * (y - 1) + (y - 1) / 4 - (y - 1) / 100 + (y - 1) / 400
  }

  function DaysBeforeMonth(y: int, m: int): int
    requires 1 <= m <= 13
  {
    if m == 1 then 0 else DaysBeforeMonth(y, m - 1) + DaysInMonth(y, m - 1)
  }

  /** Day 1 is the first of January of year 1. */
  function Ordinal(t: Moment): int {
    DaysBeforeYear(t.year) + DaysBeforeMonth(t.year, t.month) + t.day
  }

  /** Microseconds on one line. */
  function Instant(t: Moment): int {
    Ordinal(t) * DAY + t.micros
  }

  /** Monday is 0. */
  function Weekday(t: Moment): int {
    (Ordinal(t) + 6) % 7
  }

  /** The count begins with the first of January of year 1. */
  lemma DayOne()
    ensures Ordinal(DateTime(1, 1, 1, 0)) == 1
  {
  }

  /** Long and short months alternate, and the alternation starts again in August. */
  lemma MonthLengths(y: int, m: int)
    requires 1 <= m <= 12
    ensures DaysInMonth(y, m) == if m == 2 then 28 + (if IsLeap(y) then 1 else 0) else 30 + (m + m / 8) % 2
  {
    hide IsLeap;
  }

  lemma LeapDays(y: int)
    ensures y / 4 - y / 100 + y / 400 == (y - 1) / 4 - (y - 1) / 100 + (y - 1) / 400 + if IsLeap(y) then 1 else 0
  {
    Carry(y, 4);
    Carry(y, 100);
    Carry(y, 400);
  }

  lemma Carry(y: int, n: int)
    requires n == 4 || n == 100 || n == 400
    ensures y / n == (y - 1) / n + if y % n == 0 then 1 else 0
  {
  }

  function YearLength(y: int): int {
    if IsLeap(y) then 366 else 365
  }

  lemma NextYear(y: int)
    ensures DaysBeforeYear(y + 1) == DaysBeforeYear(y) + YearLength(y)
  {
    hide IsLeap;
    LeapDays(y);
  }

  lemma {:induction false} YearsGrow(y: int, z: int)
    requires y < z
    ensures DaysBeforeYear(y) + YearLength(y) <= DaysBeforeYear(z)
    decreases z - y
  {
    hide IsLeap, DaysBeforeYear;
    if z == y + 1 {
      NextYear(y);
    } else {
      YearsGrow(y, z - 1);
      NextYear(z - 1);
    }
  }

  lemma {:induction false} MonthsGrow(y: int, m: int, n: int)
    requires 1 <= m < n <= 13
    ensures DaysBeforeMonth(y, m) + DaysInMonth(y, m) <= DaysBeforeMonth(y, n)
    decreases n
  {
    hide IsLeap;
    if m + 1 < n { MonthsGrow(y, m, n - 1); }
  }

  lemma YearAdds(y: int)
    ensures DaysBeforeMonth(y, 13) == YearLength(y)
  {
    hide IsLeap;
    assert DaysBeforeMonth(y, 2) == 31;
    assert DaysBeforeMonth(y, 3) == 31 + DaysInMonth(y, 2);
    assert DaysBeforeMonth(y, 5) == DaysBeforeMonth(y, 3) + 61;
    assert DaysBeforeMonth(y, 7) == DaysBeforeMonth(y, 5) + 61;
    assert DaysBeforeMonth(y, 9) == DaysBeforeMonth(y, 7) + 62;
    assert DaysBeforeMonth(y, 11) == DaysBeforeMonth(y, 9) + 61;
    assert DaysBeforeMonth(y, 13) == DaysBeforeMonth(y, 11) + 61;
  }

  predicate EarlierDate(a: Moment, b: Moment) {
    a.year < b.year || (a.year == b.year && (a.month < b.month || (a.month == b.month && a.day < b.day)))
  }

  lemma EarlierIsSmaller(a: Moment, b: Moment)
    requires EarlierDate(a, b)
    ensures Ordinal(a) < Ordinal(b)
  {
    hide IsLeap, DaysBeforeYear, DaysBeforeMonth, DaysInMonth;
    if a.year < b.year {
      YearsGrow(a.year, b.year);
      YearAdds(a.year);
      MonthsGrow(a.year, a.month, 13);
      if b.month > 1 { MonthsGrow(b.year, 1, b.month); }
      FirstMonth(a.year);
      FirstMonth(b.year);
    } else if a.month < b.month {
      MonthsGrow(a.year, a.month, b.month);
    }
  }

  lemma FirstMonth(y: int)
    ensures DaysBeforeMonth(y, 1) == 0 && DaysInMonth(y, 1) == 31
  {
  }

  /** The comparison of datetimes: by fields, the most significant first. */
  predicate NotAfter(a: Moment, b: Moment) {
    EarlierDate(a, b) || (a.year == b.year && a.month == b.month && a.day == b.day && a.micros <= b.micros)
  }

  /** Comparing fields is comparing instants, and different fields are different instants. */
  lemma OneLine(a: Moment, b: Moment)
    ensures NotAfter(a, b) <==> Instant(a) <= Instant(b)
    ensures Instant(a) == Instant(b) <==> a == b
  {
    if EarlierDate(a, b) {
      EarlierIsSmaller(a, b);
    } else if EarlierDate(b, a) {
      EarlierIsSmaller(b, a);
    } else {
      assert Ordinal(a) == Ordinal(b);
    }
    hide Ordinal;
  }

  // ----- moving by days and hours -----

  function NextDay(t: Moment): Moment {
    if t.day < DaysInMonth(t.year, t.month) then t.(day := t.day + 1)
    else if t.month < 12 then t.(month := t.month + 1, day := 1)
    else t.(year := t.year + 1, month := 1, day := 1)
  }

  function PreviousDay(t: Moment): Moment {
    if t.day > 1 then t.(day := t.day - 1)
    else if t.month > 1 then t.(month := t.month - 1, day := DaysInMonth(t.year, t.month - 1))
    else t.(year := t.year - 1, month := 12, day := 31)
  }

  lemma NextDayIsNext(t: Moment)
    ensures Ordinal(NextDay(t)) == Ordinal(t) + 1 && NextDay(t).micros == t.micros
  {
    hide IsLeap, DaysBeforeYear;
    FirstMonth(t.year + 1);
    if t.day == DaysInMonth(t.year, t.month) && t.month == 12 {
      NextYear(t.year);
      YearAdds(t.year);
    }
  }

  lemma PreviousDayIsPrevious(t: Moment)
    ensures Ordinal(PreviousDay(t)) == Ordinal(t) - 1 && PreviousDay(t).micros == t.micros
  {
    hide IsLeap, DaysBeforeYear;
    FirstMonth(t.year);
    if t.day == 1 && t.month == 1 {
      NextYear(t.year - 1);
      YearAdds(t.year - 1);
    }
  }

  /** A moment moved by whole days. */
  function PlusDays(t: Moment, n: int): (r: Moment)
    ensures Instant(r) == Instant(t) + n * DAY && r.micros == t.micros
    decreases if n < 0 then -n else n
  {
    if n == 0 then t
    else if n > 0 then
      NextDayIsNext(t);
      PlusDays(NextDay(t), n - 1)
    else
      PreviousDayIsPrevious(t);
      PlusDays(PreviousDay(t), n + 1)
  }

  function PlusHour(t: Moment): (r: Moment)
    ensures Instant(r) == Instant(t) + HOUR
  {
    if t.micros + HOUR < DAY then t.(micros := t.micros + HOUR)
    else
      NextDayIsNext(t);
      NextDay(t).(micros := t.micros + HOUR - DAY)
  }
}
