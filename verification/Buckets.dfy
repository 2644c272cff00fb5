/** Dashboard buckets: the starts of hours, days, weeks and months, and the series drawn over them. */
module Buckets {
  import opened Calendar
  import opened Sums

  datatype Bucket = Hour | Day | Week | Month

  function Midnight(t: Moment): Moment {
    t.(micros := 0)
  }

  function BucketStart(t: Moment, bucket: Bucket): Moment {
    match bucket
    case Month => Midnight(t).(day := 1)
    case Week => PlusDays(Midnight(t), -Weekday(Midnight(t)))
    case Day => Midnight(t)
    case Hour => t.(micros := t.micros - t.micros % HOUR)
  }

  function FirstOfNextMonth(t: Moment): Moment {
    if t.month + 1 > 12 then t.(year := t.year + 1, month := 1, day := 1) else t.(month := t.month + 1, day := 1)
  }

  function NextBucket(t: Moment, bucket: Bucket): Moment {
    match bucket
    case Hour => PlusHour(t)
    case Day => PlusDays(t, 1)
    case Week => PlusDays(t, 7)
    case Month => FirstOfNextMonth(t)
  }

  predicate IsStart(t: Moment, bucket: Bucket) {
    BucketStart(t, bucket) == t
  }

  // ----- each bucket is one stretch of time -----

  lemma MonthFrom(t: Moment)
    ensures Midnight(t).(day := 1).micros == 0
    ensures Instant(Midnight(t).(day := 1)) <= Instant(t) < Instant(FirstOfNextMonth(Midnight(t).(day := 1)))
  {
    OneLine(Midnight(t).(day := 1), t);
    OneLine(FirstOfNextMonth(Midnight(t).(day := 1)), t);
  }

  lemma MidnightInstant(t: Moment)
    ensures Instant(Midnight(t)) == Instant(t) - t.micros && Ordinal(Midnight(t)) == Ordinal(t)
    ensures Weekday(Midnight(t)) == (Ordinal(t) + 6) % 7
  {
  }

  /** A start is not after its moment, and the next start is. */
  lemma StartBounds(t: Moment, bucket: Bucket)
    ensures var s := BucketStart(t, bucket); Instant(s) <= Instant(t) < Instant(NextBucket(s, bucket))
  {
    hide Instant, Ordinal, PlusDays, PlusHour;
    MidnightInstant(t);
    match bucket
    case Month => MonthFrom(t);
    case Week =>
    case Day =>
    case Hour => HourInstant(t);
  }

  lemma HourInstant(t: Moment)
    ensures Instant(t.(micros := t.micros - t.micros % HOUR)) == Instant(t) - t.micros % HOUR
  {
  }

  /** Every moment of a bucket has its start. */
  lemma WholeBucket(s: Moment, t: Moment, bucket: Bucket)
    requires IsStart(s, bucket) && Instant(s) <= Instant(t) < Instant(NextBucket(s, bucket))
    ensures BucketStart(t, bucket) == s
  {
    match bucket
    case Month => WholeMonth(s, t);
    case Week => WholeWeek(s, t);
    case Day => WholeDay(s, t);
    case Hour => WholeHour(s, t);
  }

  lemma WholeMonth(s: Moment, t: Moment)
    requires IsStart(s, Month) && Instant(s) <= Instant(t) < Instant(NextBucket(s, Month))
    ensures BucketStart(t, Month) == s
  {
    OneLine(s, t);
    OneLine(FirstOfNextMonth(s), t);
    hide Instant, IsLeap, DaysInMonth;
  }

  lemma WholeDay(s: Moment, t: Moment)
    requires IsStart(s, Day) && Instant(s) <= Instant(t) < Instant(NextBucket(s, Day))
    ensures BucketStart(t, Day) == s
  {
    hide Instant, Ordinal, PlusDays;
    SameDay(s, t);
    MidnightInstant(t);
    OneLine(Midnight(t), s);
  }

  /** Less than a day after a midnight is the same day. */
  lemma SameDay(s: Moment, t: Moment)
    requires s.micros == 0 && Instant(s) <= Instant(t) < Instant(s) + DAY
    ensures Ordinal(t) == Ordinal(s) && Instant(t) - t.micros == Instant(s)
  {
    hide Ordinal;
  }

  lemma WholeHour(s: Moment, t: Moment)
    requires IsStart(s, Hour) && Instant(s) <= Instant(t) < Instant(NextBucket(s, Hour))
    ensures BucketStart(t, Hour) == s
  {
    hide Ordinal, PlusHour;
    HourOfDay(s, t);
    HourInstant(t);
    OneLine(t.(micros := t.micros - t.micros % HOUR), s);
  }

  lemma HourOfDay(s: Moment, t: Moment)
    requires s.micros % HOUR == 0 && Instant(s) <= Instant(t) < Instant(s) + HOUR
    ensures t.micros % HOUR == Instant(t) - Instant(s)
  {
    hide Ordinal;
    assert Ordinal(t) == Ordinal(s);
  }

  lemma WholeWeek(s: Moment, t: Moment)
    requires IsStart(s, Week) && Instant(s) <= Instant(t) < Instant(NextBucket(s, Week))
    ensures BucketStart(t, Week) == s
  {
    hide PlusDays, Ordinal;
    MidnightInstant(s);
    MidnightInstant(t);
    OneLine(s, Midnight(s));
    WeekStartsOnMonday(s);
    WeekdayWithin(s, t);
    OneLine(BucketStart(t, Week), s);
  }

  lemma WeekStartsOnMonday(s: Moment)
    requires IsStart(s, Week)
    ensures s.micros == 0 && Weekday(s) == 0
  {
    hide PlusDays, Ordinal;
    MidnightInstant(s);
    OneLine(s, Midnight(s));
  }

  lemma WeekdayWithin(s: Moment, t: Moment)
    requires s.micros == 0 && Weekday(s) == 0 && Instant(s) <= Instant(t) < Instant(s) + 7 * DAY
    ensures Weekday(t) == Ordinal(t) - Ordinal(s)
  {
    hide Ordinal;
    assert 0 <= Ordinal(t) - Ordinal(s) < 7;
  }

  // ----- starts follow starts -----

  lemma StartIsStart(t: Moment, bucket: Bucket)
    ensures IsStart(BucketStart(t, bucket), bucket)
  {
    match bucket
    case Month =>
    case Week => MondayIsStart(t);
    case Day =>
    case Hour =>
  }

  lemma MondayIsStart(t: Moment)
    ensures IsStart(BucketStart(t, Week), Week)
  {
    hide PlusDays, Ordinal;
    var s := BucketStart(t, Week);
    MidnightInstant(t);
    assert Ordinal(s) == Ordinal(t) - Weekday(Midnight(t));
    assert Weekday(s) == 0;
    OneLine(PlusDays(Midnight(s), 0), s);
  }

  lemma NextIsStart(s: Moment, bucket: Bucket)
    requires IsStart(s, bucket)
    ensures IsStart(NextBucket(s, bucket), bucket) && Instant(s) < Instant(NextBucket(s, bucket))
  {
    hide Instant, Ordinal, PlusDays, PlusHour;
    StartBounds(s, bucket);
    match bucket
    case Month =>
    case Week => NextMonday(s);
    case Day => NextMidnight(s);
    case Hour => NextHour(s);
  }

  lemma NextMidnight(s: Moment)
    requires IsStart(s, Day)
    ensures IsStart(NextBucket(s, Day), Day)
  {
    hide Instant, Ordinal, PlusDays;
  }

  lemma NextMonday(s: Moment)
    requires IsStart(s, Week)
    ensures IsStart(NextBucket(s, Week), Week)
  {
    hide PlusDays, Ordinal;
    WeekStartsOnMonday(s);
    var n := NextBucket(s, Week);
    assert Ordinal(n) == Ordinal(s) + 7;
    OneLine(PlusDays(Midnight(n), 0), n);
  }

  lemma NextHour(s: Moment)
    requires IsStart(s, Hour)
    ensures IsStart(PlusHour(s), Hour)
  {
    hide Ordinal, Instant;
  }

  // ----- what a start is, on the clock and the calendar -----

  /** The fifth of January 1970 was a Monday. */
  const A_MONDAY: Moment := DateTime(1970, 1, 5, 0)

  /** Microseconds since that Monday began. */
  function SinceMonday(t: Moment): int {
    Instant(t) - Instant(A_MONDAY)
  }

  /** A full hour, a midnight, a whole number of weeks from that Monday, or the midnight that begins a month. */
  predicate Begins(t: Moment, bucket: Bucket) {
    match bucket
    case Hour => SinceMonday(t) % 3_600_000_000 == 0
    case Day => SinceMonday(t) % 86_400_000_000 == 0
    case Week => SinceMonday(t) % 604_800_000_000 == 0
    case Month => t.day == 1 && t.micros == 0
  }

  lemma MondayInstant()
    ensures Instant(A_MONDAY) == 719167 * DAY && DAY == 86_400_000_000 && HOUR == 3_600_000_000
  {
    assert DaysBeforeYear(1970) == 719162;
  }

  lemma InstantParts(t: Moment)
    ensures SinceMonday(t) == (Ordinal(t) - 719167) * 86_400_000_000 + t.micros
  {
    hide Ordinal;
    MondayInstant();
  }

  lemma DayBegins(t: Moment)
    ensures IsStart(t, Day) <==> Begins(t, Day)
  {
    hide Ordinal, SinceMonday;
    InstantParts(t);
    MondayInstant();
  }

  lemma HoursOfDays(days: int, micros: int)
    ensures (days * 86_400_000_000 + micros) % 3_600_000_000 == micros % 3_600_000_000
  {
    var hours, rest := days * 24 + micros / 3_600_000_000, micros % 3_600_000_000;
    assert days * 86_400_000_000 + micros == hours * 3_600_000_000 + rest;
  }

  lemma HourBegins(t: Moment)
    ensures IsStart(t, Hour) <==> Begins(t, Hour)
  {
    hide Ordinal, SinceMonday;
    InstantParts(t);
    HoursOfDays(Ordinal(t) - 719167, t.micros);
  }

  lemma WeekBegins(t: Moment)
    ensures IsStart(t, Week) <==> Begins(t, Week)
  {
    hide Ordinal, SinceMonday, PlusDays;
    InstantParts(t);
    MondayInstant();
    MidnightInstant(t);
    OneLine(t, BucketStart(t, Week));
  }

  /** The start of a moment's bucket is the last such instant that is not after it. */
  lemma StartIsLast(t: Moment, bucket: Bucket)
    ensures Begins(BucketStart(t, bucket), bucket) && NotAfter(BucketStart(t, bucket), t)
    ensures forall x: Moment :: Begins(x, bucket) && NotAfter(x, t) ==> NotAfter(x, BucketStart(t, bucket))
  {
    hide BucketStart, Instant, NotAfter, Begins, NextBucket;
    var s := BucketStart(t, bucket);
    StartIsStart(t, bucket);
    StartBounds(t, bucket);
    StartBegins(s, bucket);
    OneLine(s, t);
    forall x: Moment | Begins(x, bucket) && NotAfter(x, t) ensures NotAfter(x, s) {
      StartBegins(x, bucket);
      OneLine(x, t);
      OneLine(x, s);
      if Instant(s) < Instant(x) { WholeBucket(s, x, bucket); }
    }
  }

  lemma StartBegins(t: Moment, bucket: Bucket)
    ensures IsStart(t, bucket) <==> Begins(t, bucket)
  {
    match bucket
    case Hour => HourBegins(t);
    case Day => DayBegins(t);
    case Week => WeekBegins(t);
    case Month =>
  }

  // ----- the range -----

  /** The starts from a cursor on, up to the end of the range. */
  function Starts(cursor: Moment, end: Moment, bucket: Bucket): seq<Moment>
    requires IsStart(cursor, bucket)
    decreases Instant(end) - Instant(cursor)
  {
    NextIsStart(cursor, bucket);
    if Instant(cursor) > Instant(end) then [] else [cursor] + Starts(NextBucket(cursor, bucket), end, bucket)
  }

  method BuildBuckets(start: Moment, end: Moment, bucket: Bucket) returns (buckets: seq<Moment>)
    ensures IsStart(BucketStart(start, bucket), bucket) && buckets == Starts(BucketStart(start, bucket), end, bucket)
  {
    hide BucketStart, NextBucket, Instant, NotAfter, IsStart;
    var cursor := BucketStart(start, bucket);
    StartIsStart(start, bucket);
    ghost var first := cursor;
    buckets := [];
    OneLine(cursor, end);
    while NotAfter(cursor, end)
      invariant IsStart(cursor, bucket) && IsStart(first, bucket)
      invariant buckets + Starts(cursor, end, bucket) == Starts(first, end, bucket)
      invariant NotAfter(cursor, end) <==> Instant(cursor) <= Instant(end)
      decreases Instant(end) - Instant(cursor)
    {
      NextIsStart(cursor, bucket);
      buckets := buckets + [cursor];
      cursor := NextBucket(cursor, bucket);
      OneLine(cursor, end);
    }
  }

  /** The starts are exactly the bucket starts from the cursor to the end, in strictly growing order. */
  lemma {:induction false} StartsTile(cursor: Moment, end: Moment, bucket: Bucket)
    requires IsStart(cursor, bucket)
    ensures var bs := Starts(cursor, end, bucket);
      && (forall x: Moment :: x in bs <==> IsStart(x, bucket) && Instant(cursor) <= Instant(x) <= Instant(end))
      && (forall i, j :: 0 <= i < j < |bs| ==> Instant(bs[i]) < Instant(bs[j]))
    decreases Instant(end) - Instant(cursor)
  {
    hide BucketStart, NextBucket, Instant, IsStart;
    NextIsStart(cursor, bucket);
    if Instant(cursor) <= Instant(end) {
      var next := NextBucket(cursor, bucket);
      StartsTile(next, end, bucket);
      var rest := Starts(next, end, bucket);
      forall x: Moment | IsStart(x, bucket) && Instant(cursor) <= Instant(x) <= Instant(end)
        ensures x == cursor || x in rest
      {
        if Instant(x) < Instant(next) { OnlyStart(cursor, x, bucket); }
      }
    }
  }

  lemma OnlyStart(s: Moment, x: Moment, bucket: Bucket)
    requires IsStart(s, bucket) && IsStart(x, bucket) && Instant(s) <= Instant(x) < Instant(NextBucket(s, bucket))
    ensures x == s
  {
    hide BucketStart, NextBucket, Instant;
    WholeBucket(s, x, bucket);
  }

  lemma StartsKeepOrder(a: Moment, b: Moment, bucket: Bucket)
    requires Instant(a) <= Instant(b)
    ensures Instant(BucketStart(a, bucket)) <= Instant(BucketStart(b, bucket))
  {
    hide BucketStart, NextBucket, Instant;
    StartIsStart(b, bucket);
    StartBounds(a, bucket);
    StartBounds(b, bucket);
    if Instant(BucketStart(b, bucket)) <= Instant(a) { WholeBucket(BucketStart(b, bucket), a, bucket); }
  }

  /** `x` is the bucket start of some moment of the range. */
  ghost predicate Touches(start: Moment, end: Moment, bucket: Bucket, x: Moment) {
    exists t: Moment :: NotAfter(start, t) && NotAfter(t, end) && BucketStart(t, bucket) == x
  }

  /** What the range is asked for: its own starts, and nothing else. */
  lemma BucketsTileTheRange(start: Moment, end: Moment, bucket: Bucket)
    requires NotAfter(start, end)
    ensures IsStart(BucketStart(start, bucket), bucket)
    ensures forall x: Moment :: x in Starts(BucketStart(start, bucket), end, bucket) <==> Touches(start, end, bucket, x)
  {
    hide BucketStart, Instant, NotAfter, Starts;
    StartIsStart(start, bucket);
    var first := BucketStart(start, bucket);
    StartsTile(first, end, bucket);
    StartBounds(start, bucket);
    OneLine(start, end);
    forall x: Moment | x in Starts(first, end, bucket) ensures Touches(start, end, bucket, x) {
      OneLine(start, x);
      OneLine(x, end);
      OneLine(start, start);
      if Instant(x) < Instant(start) {
        FirstStart(start, x, bucket);
        assert NotAfter(start, start) && NotAfter(start, end) && BucketStart(start, bucket) == x;
      } else {
        assert NotAfter(start, x) && NotAfter(x, end) && BucketStart(x, bucket) == x;
      }
    }
    forall t: Moment | NotAfter(start, t) && NotAfter(t, end)
      ensures BucketStart(t, bucket) in Starts(first, end, bucket)
    {
      OneLine(start, t);
      OneLine(t, end);
      StartIsStart(t, bucket);
      StartBounds(t, bucket);
      StartsKeepOrder(start, t, bucket);
    }
  }

  /** A start between the range's first start and its beginning is that first start. */
  lemma FirstStart(start: Moment, x: Moment, bucket: Bucket)
    requires IsStart(x, bucket) && Instant(BucketStart(start, bucket)) <= Instant(x) < Instant(start)
    ensures x == BucketStart(start, bucket)
  {
    hide BucketStart, NextBucket, Instant;
    StartIsStart(start, bucket);
    StartBounds(start, bucket);
    OnlyStart(BucketStart(start, bucket), x, bucket);
  }

  // ----- the series -----

  datatype Point = Point(period: Moment, value: real)

  function Series(periods: seq<Moment>, mapping: map<Moment, real>): (points: seq<Point>)
    ensures |points| == |periods|
    ensures forall i :: 0 <= i < |points| ==> points[i] == Point(periods[i], ValueOf(mapping, periods[i]))
  {
    if periods == [] then []
    else
      var last := periods[|periods| - 1];
      Series(periods[..|periods| - 1], mapping) + [Point(last, ValueOf(mapping, last))]
  }

  function SeriesTotal(points: seq<Point>): real {
    if points == [] then 0.0 else SeriesTotal(points[..|points| - 1]) + points[|points| - 1].value
  }

  lemma {:induction false} SeriesSums(periods: seq<Moment>, mapping: map<Moment, real>)
    ensures SeriesTotal(Series(periods, mapping)) == SumOver(mapping, periods)
  {
    if periods != [] {
      var front := periods[..|periods| - 1];
      SeriesSums(front, mapping);
      assert Series(periods, mapping)[..|periods| - 1] == Series(front, mapping);
    }
  }

  /** A series over a range loses nothing of a mapping keyed by starts of moments in the range. */
  lemma SeriesConserves(start: Moment, end: Moment, bucket: Bucket, mapping: map<Moment, real>)
    requires NotAfter(start, end)
    requires forall k <- mapping.Keys :: Touches(start, end, bucket, k)
    ensures IsStart(BucketStart(start, bucket), bucket)
    ensures SeriesTotal(Series(Starts(BucketStart(start, bucket), end, bucket), mapping)) == Total(mapping)
  {
    hide BucketStart, Instant, NotAfter, Starts, SeriesTotal, Series, IsStart, Touches;
    BucketsTileTheRange(start, end, bucket);
    var periods := Starts(BucketStart(start, bucket), end, bucket);
    StartsTile(BucketStart(start, bucket), end, bucket);
    SeriesSums(periods, mapping);
    assert NoRepeats(periods);
    SumOverAll(mapping, periods);
  }
}
