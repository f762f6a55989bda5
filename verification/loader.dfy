/** `load_data`: pick the city's file, then keep the rows of the requested
    month and weekday. Reading the CSV file and deriving the time columns are
    the parameter `read`. */
module Loader {
  import opened Wrappers
  import opened Text
  import opened Tally
  import opened Config
  import opened Trips
  import opened Selection

  /** What `load_data` raises: `KeyError` for a city without a data file,
      `ValueError` from `RECORD_MONTHS.index` for an unknown month name. */
  datatype LoadError = UnknownCity(city: string) | UnknownMonth(month: string)

  /** Whether the loader keeps row `t` for the given month and day answers,
      stated row by row. */
  predicate Selects(month: string, day: string, t: Trip)
  {
    && (month == "all" || (1 <= t.month <= |Months| && Months[t.month - 1] == month))
    && (day == "all" || t.weekday == Title(day))
  }

  /** The boolean mask `df['month'] == m`. */
  function MonthMask(m: int): Trip -> bool
  {
    (t: Trip) => t.month == m
  }

  /** The boolean mask `df['day_of_the_week'] == name`. */
  function DayMask(name: string): Trip -> bool
  {
    (t: Trip) => t.weekday == name
  }

  function LoadData(city: string, month: string, day: string, read: string -> Table): (r: Result<Table, LoadError>)
    ensures city !in CityData ==> r == Err(UnknownCity(city))
    ensures city in CityData && month != "all" && month !in Months ==> r == Err(UnknownMonth(month))
    ensures r.Ok? <==> city in CityData && (month == "all" || month in Months)
    ensures r.Ok? ==> r.value.schema == read(CityData[city]).schema
    ensures r.Ok? ==> |r.value.rows| <= |read(CityData[city]).rows|
    ensures r.Ok? && month == "all" && day == "all" ==> r.value == read(CityData[city])
  {
    if city !in CityData then Err(UnknownCity(city))
    else
      var df := read(CityData[city]);
      if month != "all" && MonthNumber(month).None? then Err(UnknownMonth(month))
      else
        Ok(Table(df.schema, FilterRows(df.rows, month, day)))
  }

  /** Lines 84-96: the month mask when a month is named, then the day mask
      when a day is named. */
  function FilterRows(rows: seq<Trip>, month: string, day: string): (r: seq<Trip>)
    requires month == "all" || month in Months
    ensures |r| <= |rows|
    ensures month == "all" && day == "all" ==> r == rows
  {
    var byMonth := if month != "all" then Filter(rows, MonthMask(MonthNumber(month).value)) else rows;
    if day != "all" then Filter(byMonth, DayMask(Title(day))) else byMonth
  }

  /** `Selects` as a mask over rows. */
  function SelectMask(month: string, day: string): Trip -> bool
  {
    (t: Trip) => Selects(month, day, t)
  }

  /** Applying the month mask and then the day mask is one mask that selects
      by both. */
  lemma {:induction false} FilterRowsIsOneMask(rows: seq<Trip>, month: string, day: string)
    requires month == "all" || month in Months
    ensures FilterRows(rows, month, day) == Filter(rows, SelectMask(month, day))
  {
    if month == "all" && day == "all" {
      NoMaskSelectsAll(rows);
    } else if month == "all" {
      DayMaskIsSelectMask(rows, day);
    } else if day == "all" {
      MonthMaskIsSelectMask(rows, month);
    } else {
      BothMasksAreSelectMask(rows, month, day);
    }
  }

  lemma {:induction false} NoMaskSelectsAll(rows: seq<Trip>)
    ensures rows == Filter(rows, SelectMask("all", "all"))
  {
    FilterAgree(rows, (t: Trip) => true, SelectMask("all", "all"));
    FilterTrue(rows);
  }

  lemma {:induction false} DayMaskIsSelectMask(rows: seq<Trip>, day: string)
    requires day != "all"
    ensures Filter(rows, DayMask(Title(day))) == Filter(rows, SelectMask("all", day))
  {
    FilterAgree(rows, DayMask(Title(day)), SelectMask("all", day));
  }

  lemma {:induction false} MonthMaskIsSelectMask(rows: seq<Trip>, month: string)
    requires month in Months
    ensures Filter(rows, MonthMask(MonthNumber(month).value)) == Filter(rows, SelectMask(month, "all"))
  {
    MonthMaskSelects(month);
    FilterAgree(rows, MonthMask(MonthNumber(month).value), SelectMask(month, "all"));
  }

  lemma {:induction false} BothMasksAreSelectMask(rows: seq<Trip>, month: string, day: string)
    requires month in Months && day != "all"
    ensures Filter(Filter(rows, MonthMask(MonthNumber(month).value)), DayMask(Title(day)))
         == Filter(rows, SelectMask(month, day))
  {
    MonthMaskSelects(month);
    var p := MonthMask(MonthNumber(month).value);
    var q := DayMask(Title(day));
    FilterFilter(rows, p, q);
    FilterAgree(rows, And(p, q), SelectMask(month, day));
  }

  /** A row passes the month mask exactly when `Selects` accepts its month. */
  lemma {:induction false} MonthMaskSelects(month: string)
    requires month in Months
    ensures forall t :: MonthMask(MonthNumber(month).value)(t)
                    <==> 1 <= t.month <= |Months| && Months[t.month - 1] == month
  {
    MonthNumbers();
  }

  lemma {:induction false} FilterTrue(xs: seq<Trip>)
    ensures Filter(xs, (t: Trip) => true) == xs
  {
    if |xs| > 0 {
      FilterTrue(xs[1..]);
      assert xs == [xs[0]] + xs[1..];
    }
  }

  /** The loaded table holds exactly the selected rows of the city's file:
      every copy of a selected row, no copy of any other, in file order. */
  lemma {:induction false} LoadDataSelectsRows(city: string, month: string, day: string, read: string -> Table)
    requires LoadData(city, month, day, read).Ok?
    ensures var src := read(CityData[city]).rows;
            var rows := LoadData(city, month, day, read).value.rows;
            && IsSubsequence(rows, src)
            && (forall t :: Count(rows, t) == if Selects(month, day, t) then Count(src, t) else 0)
            && (forall t :: t in rows <==> t in src && Selects(month, day, t))
  {
    var src := read(CityData[city]).rows;
    FilterRowsIsOneMask(src, month, day);
    FilterIsSubsequence(src, SelectMask(month, day));
    forall t ensures Count(Filter(src, SelectMask(month, day)), t) == if Selects(month, day, t) then Count(src, t) else 0 {
      FilterCount(src, SelectMask(month, day), t);
    }
  }

  /** Every query the intended input loops can return loads without raising,
      and a query of "all" for both filters yields the whole file. */
  lemma {:induction false} IntendedQueriesLoad(answers: seq<string>, read: string -> Table)
    ensures PreferredCityIntended(answers).Some? ==>
              var q := PreferredCityIntended(answers).value.query;
              && LoadData(q.city, q.month, q.day, read).Ok?
              && (q.month == "all" && q.day == "all" ==> LoadData(q.city, q.month, q.day, read).value == read(CityData[q.city]))
  {
  }
}
