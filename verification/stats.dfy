/** The four reporters, `time_stats`, `station_stats`, `trip_duration_stats`
    and `user_stats`, as the values they print (timing and formatting aside). */
module Stats {
  import opened Wrappers
  import opened Tally
  import opened Ranking
  import opened Trips

  function MonthsOf(rows: seq<Trip>): seq<int>
  {
    seq(|rows|, i requires 0 <= i < |rows| => rows[i].month)
  }

  function WeekdaysOf(rows: seq<Trip>): seq<string>
  {
    seq(|rows|, i requires 0 <= i < |rows| => rows[i].weekday)
  }

  function HoursOf(rows: seq<Trip>): seq<int>
  {
    seq(|rows|, i requires 0 <= i < |rows| => rows[i].hour)
  }

  function StartsOf(rows: seq<Trip>): seq<string>
  {
    seq(|rows|, i requires 0 <= i < |rows| => rows[i].startStation)
  }

  function EndsOf(rows: seq<Trip>): seq<string>
  {
    seq(|rows|, i requires 0 <= i < |rows| => rows[i].endStation)
  }

  /** The (start station, end station) key of each row. */
  function PairsOf(rows: seq<Trip>): seq<(string, string)>
  {
    seq(|rows|, i requires 0 <= i < |rows| => (rows[i].startStation, rows[i].endStation))
  }

  function DurationsOf(rows: seq<Trip>): seq<int>
  {
    seq(|rows|, i requires 0 <= i < |rows| => rows[i].duration)
  }

  function UserTypesOf(rows: seq<Trip>): seq<string>
  {
    seq(|rows|, i requires 0 <= i < |rows| => rows[i].userType)
  }

  /** The non-missing cells of a column, in row order (what `value_counts`,
      `min` and `max` look at). */
  function Present<T(==,!new)>(cells: seq<Option<T>>): (r: seq<T>)
    ensures |r| <= |cells|
    ensures forall v :: v in r <==> Some(v) in cells
    ensures forall v :: Count(r, v) == Count(cells, Some(v))
  {
    if |cells| == 0 then []
    else
      assert cells == [cells[0]] + cells[1..];
      var head := if cells[0].Some? then [cells[0].value] else [];
      var rest := Present(cells[1..]);
      forall v ensures Count(head + rest, v) == Count(cells, Some(v)) {
        CountAppend(head, rest, v);
      }
      head + rest
  }

  function GendersOf(rows: seq<Trip>): seq<string>
  {
    Present(seq(|rows|, i requires 0 <= i < |rows| => rows[i].gender))
  }

  function BirthYearsOf(rows: seq<Trip>): seq<int>
  {
    Present(seq(|rows|, i requires 0 <= i < |rows| => rows[i].birthYear))
  }

  // ---- time_stats ----

  /** The top-3 month, weekday and start-hour rankings. */
  datatype TimeStats = TimeStats(months: seq<Entry<int>>, weekdays: seq<Entry<string>>, hours: seq<Entry<int>>)

  function TimeStatsOf(rows: seq<Trip>): (s: TimeStats)
    ensures IsTopRanking(MonthsOf(rows), s.months, 3)
    ensures IsTopRanking(WeekdaysOf(rows), s.weekdays, 3)
    ensures IsTopRanking(HoursOf(rows), s.hours, 3)
  {
    TimeStats(NLargest(MonthsOf(rows), 3), NLargest(WeekdaysOf(rows), 3), NLargest(HoursOf(rows), 3))
  }

  /** A table whose rows all carry month `m` has the single month ranking
      line (m, number of rows). */
  lemma {:induction false} SingleMonthRanking(rows: seq<Trip>, m: int)
    requires |rows| > 0
    requires forall i :: 0 <= i < |rows| ==> rows[i].month == m
    ensures TimeStatsOf(rows).months == [Entry(m, |rows|)]
  {
    var xs := MonthsOf(rows);
    assert xs[0] == m;
    assert Elems(xs) == {m};
    CountAllEqual(xs, m);
    var r := TimeStatsOf(rows).months;
    assert |r| == 1;
    assert r[0].value in xs;
  }

  // ---- station_stats ----

  /** Top-3 start stations, top-3 end stations, and the size of every
      (start, end) group. */
  datatype StationStats = StationStats(
    starts: seq<Entry<string>>,
    ends: seq<Entry<string>>,
    pairs: seq<Entry<(string, string)>>)

  function StationStatsOf(rows: seq<Trip>): (s: StationStats)
    ensures IsTopRanking(StartsOf(rows), s.starts, 3)
    ensures IsTopRanking(EndsOf(rows), s.ends, 3)
    ensures NoDuplicates(Keys(s.pairs))
    ensures forall p :: p in PairsOf(rows) <==> p in Keys(s.pairs)
    ensures forall j :: 0 <= j < |s.pairs| ==> s.pairs[j].count == Count(PairsOf(rows), s.pairs[j].value)
    ensures SumOf(Counts(s.pairs)) == |rows|
  {
    GroupSizesSum(PairsOf(rows));
    StationStats(NLargest(StartsOf(rows), 3), NLargest(EndsOf(rows), 3), GroupSizes(PairsOf(rows)))
  }

  // ---- trip_duration_stats ----

  /** `df['Trip Duration'].sum()`, accumulated row by row. */
  method TotalTravelTime(rows: seq<Trip>) returns (total: int)
    ensures total == SumOf(DurationsOf(rows))
  {
    var ds := DurationsOf(rows);
    total := 0;
    var i := 0;
    while i < |rows|
      invariant 0 <= i <= |rows|
      invariant total == SumOf(ds[..i])
    {
      assert ds[..i + 1] == ds[..i] + [ds[i]];
      SumOfAppend(ds[..i], [ds[i]]);
      total := total + rows[i].duration;
      i := i + 1;
    }
    assert ds[..i] == ds;
  }

  /** With no negative durations, no single trip lasts longer than the total. */
  lemma {:induction false} TotalBoundsEachTrip(rows: seq<Trip>)
    requires forall i :: 0 <= i < |rows| ==> rows[i].duration >= 0
    ensures SumOf(DurationsOf(rows)) >= 0
    ensures forall i :: 0 <= i < |rows| ==> rows[i].duration <= SumOf(DurationsOf(rows))
  {
    var ds := DurationsOf(rows);
    assert forall i :: 0 <= i < |rows| ==> ds[i] == rows[i].duration;
    SumOfBoundsTerms(ds);
  }

  // ---- user_stats ----

  /** Earliest and most recent birth year (None where pandas yields NaN: no
      birth year present) and the top-3 birth years. */
  datatype BirthYearStats = BirthYearStats(earliest: Option<int>, latest: Option<int>, common: seq<Entry<int>>)

  /** What the user-type breakdown, the gender breakdown (if the schema has
      the column) and the birth-year figures (if it has that column) are. */
  datatype UserStats = UserStats(
    userTypes: seq<Entry<string>>,
    genders: Option<seq<Entry<string>>>,
    birthYears: Option<BirthYearStats>)

  function MinOf(xs: seq<int>): (m: int)
    requires |xs| > 0
    ensures m in xs
    ensures forall x :: x in xs ==> m <= x
  {
    if |xs| == 1 then xs[0]
    else
      assert xs == [xs[0]] + xs[1..];
      var m := MinOf(xs[1..]);
      if xs[0] <= m then xs[0] else m
  }

  function MaxOf(xs: seq<int>): (m: int)
    requires |xs| > 0
    ensures m in xs
    ensures forall x :: x in xs ==> x <= m
  {
    if |xs| == 1 then xs[0]
    else
      assert xs == [xs[0]] + xs[1..];
      var m := MaxOf(xs[1..]);
      if xs[0] >= m then xs[0] else m
  }

  /** `b` holds the earliest, the latest and the top-3 of `years`. */
  predicate DescribesBirthYears(years: seq<int>, b: BirthYearStats)
  {
    && (b.earliest.Some? <==> |years| > 0)
    && (b.latest.Some? <==> |years| > 0)
    && (b.earliest.Some? ==> b.earliest.value in years && forall y :: y in years ==> b.earliest.value <= y)
    && (b.latest.Some? ==> b.latest.value in years && forall y :: y in years ==> y <= b.latest.value)
    && IsTopRanking(years, b.common, 3)
  }

  function BirthYearStatsOf(years: seq<int>): (b: BirthYearStats)
    ensures DescribesBirthYears(years, b)
  {
    if |years| == 0 then BirthYearStats(None, None, NLargest(years, 3))
    else BirthYearStats(Some(MinOf(years)), Some(MaxOf(years)), NLargest(years, 3))
  }

  function UserStatsOf(t: Table): (u: UserStats)
    ensures IsTopRanking(UserTypesOf(t.rows), u.userTypes, |Elems(UserTypesOf(t.rows))|)
    ensures forall v :: v in UserTypesOf(t.rows) <==> v in Keys(u.userTypes)
    ensures u.genders.Some? <==> t.schema.hasGender
    ensures u.genders.Some? ==>
              IsTopRanking(GendersOf(t.rows), u.genders.value, |Elems(GendersOf(t.rows))|)
              && forall v :: v in GendersOf(t.rows) <==> v in Keys(u.genders.value)
    ensures u.birthYears.Some? <==> t.schema.hasBirthYear
    ensures u.birthYears.Some? ==> DescribesBirthYears(BirthYearsOf(t.rows), u.birthYears.value)
  {
    UserStats(
      ValueCounts(UserTypesOf(t.rows)),
      if t.schema.hasGender then Some(ValueCounts(GendersOf(t.rows))) else None,
      if t.schema.hasBirthYear then Some(BirthYearStatsOf(BirthYearsOf(t.rows))) else None)
  }

  /** Whenever a birth year is present, the earliest is not after the latest
      and both occur in the table. */
  lemma {:induction false} EarliestNotAfterLatest(t: Table)
    requires UserStatsOf(t).birthYears.Some?
    ensures var b := UserStatsOf(t).birthYears.value;
            b.earliest.Some? <==> b.latest.Some?
    ensures var b := UserStatsOf(t).birthYears.value;
            b.earliest.Some? ==>
              && b.earliest.value <= b.latest.value
              && b.earliest.value in BirthYearsOf(t.rows)
              && b.latest.value in BirthYearsOf(t.rows)
  {
    var b := UserStatsOf(t).birthYears.value;
    if b.earliest.Some? {
      assert b.latest.value in BirthYearsOf(t.rows);
    }
  }
}
