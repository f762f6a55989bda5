/** Whole-pipeline consequences: what a given query makes the reporters
    print. */
module Scenarios {
  import opened Wrappers
  import opened Text
  import opened Ranking
  import opened Config
  import opened Trips
  import opened Loader
  import opened Stats

  /** "chicago", "march", "friday": every loaded row is a March Friday trip,
      so the month ranking is the single line (3, number of rows). */
  lemma {:induction false} ChicagoMarchFriday(read: string -> Table)
    ensures LoadData("chicago", "march", "friday", read).Ok?
    ensures var rows := LoadData("chicago", "march", "friday", read).value.rows;
            && (forall i :: 0 <= i < |rows| ==> rows[i].month == 3 && rows[i].weekday == "Friday")
            && (|rows| > 0 ==> TimeStatsOf(rows).months == [Entry(3, |rows|)])
  {
    var rows := LoadData("chicago", "march", "friday", read).value.rows;
    LoadDataSelectsRows("chicago", "march", "friday", read);
    forall i | 0 <= i < |rows| ensures rows[i].month == 3 && rows[i].weekday == "Friday" {
      assert rows[i] in rows;
      MarchFridaySelects(rows[i]);
    }
    if |rows| > 0 {
      SingleMonthRanking(rows, 3);
    }
  }

  lemma {:induction false} MarchFridaySelects(t: Trip)
    requires Selects("march", "friday", t)
    ensures t.month == 3 && t.weekday == "Friday"
  {
    TitleOfLowerWord("friday");
    assert Title("friday") == "Friday";
    assert Months[t.month - 1] == "march";
  }

  /** "washington", "all", "all" on a file without gender or birth-year
      columns: the whole file is loaded and only user types are reported. */
  lemma {:induction false} WashingtonAllAll(read: string -> Table)
    requires read(CityData["washington"]).schema == CitySchema("washington")
    ensures LoadData("washington", "all", "all", read) == Ok(read("washington.csv"))
    ensures var u := UserStatsOf(LoadData("washington", "all", "all", read).value);
            u.genders == None && u.birthYears == None
  {
  }
}
