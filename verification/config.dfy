/** The program's fixed lookup tables: the cities, the data file of each, and
    the month and weekday names a user may choose. */
module Config {
  import opened Wrappers
  import opened Tally

  const CityData: map<string, string> :=
    map["chicago" := "chicago.csv",
        "new york city" := "new_york_city.csv",
        "washington" := "washington.csv"]

  const Cities: seq<string> := ["chicago", "new york city", "washington"]

  const Months: seq<string> := ["january", "february", "march", "april", "may", "june"]

  const Days: seq<string> :=
    ["sunday", "monday", "tuesday", "wednesday", "thursday", "friday", "saturday"]

  /** `list.index(x)`: the first position holding `x`, or None where Python
      raises `ValueError`. */
  function IndexOf<T(==)>(s: seq<T>, x: T): (r: Option<nat>)
    ensures r.None? <==> x !in s
    ensures r.Some? ==> r.value < |s| && s[r.value] == x
    ensures r.Some? ==> forall j :: 0 <= j < r.value ==> s[j] != x
  {
    if |s| == 0 then None
    else if s[0] == x then Some(0)
    else
      assert s == [s[0]] + s[1..];
      match IndexOf(s[1..], x)
      case None => None
      case Some(i) => Some(i + 1)
  }

  /** The month number `RECORD_MONTHS.index(month) + 1`, None for a name that
      is not in the list. */
  function MonthNumber(month: string): (r: Option<nat>)
    ensures r.Some? <==> month in Months
    ensures r.Some? ==> 1 <= r.value <= |Months| && Months[r.value - 1] == month
  {
    match IndexOf(Months, month)
    case None => None
    case Some(i) => Some(i + 1)
  }

  /** Every city the program offers has a data file, and no other name does. */
  lemma {:induction false} CitiesHaveDataFiles()
    ensures forall c :: c in Cities <==> c in CityData
  {
  }

  /** `january`..`june` are months 1..6. */
  lemma {:induction false} MonthNumbers()
    ensures forall i :: 0 <= i < |Months| ==> MonthNumber(Months[i]) == Some(i + 1)
  {
    assert NoDuplicates(Months);
  }
}
