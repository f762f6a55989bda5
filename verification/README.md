# Bikeshare explorer: a Dafny model of its selection and statistics core

The program is an interactive explorer for bike-share trip data. It asks for a
city (Chicago, New York City or Washington), a month and a weekday. It then
loads that city's trips, keeps the trips of the chosen month and weekday, and
prints four reports:

- the most frequent months, weekdays and start hours;
- the most frequent start and end stations, and the size of every
  (start, end) trip group;
- the total travel time;
- the user-type breakdown, plus gender and birth-year figures for the cities
  whose files have those columns.

On request it also shows raw rows five at a time.

This project models that core as pure functions over a sequence of trip
records, and proves what each step guarantees:

- Trip records already carry the derived month, weekday name and hour.
- The input loops take the user's answers as a given sequence of strings.
- Reading a city's file is a parameter `read: string -> Table`.

Modules, in dependency order:

- `Wrappers`: `Option` and `Result`.
- `Text`: `str.lower` and `str.title` on ASCII letters and the Kelvin sign (U+212A).
- `Tally`: counting, boolean-mask filtering, first-appearance de-duplication, sums.
- `Ranking`: `value_counts()`, `value_counts().nlargest(k)` and
  `groupby(..., sort=False).size()`. `IsTopRanking` is the reference meaning of
  a top-k ranking. It leaves the order among equal counts free.
- `Config`: the lookup tables `RECORD_CITY_DATA`, `RECORD_CITIES`,
  `RECORD_MONTHS` and `RECORD_DAYS`, and `list.index`.
- `Trips`: trip records, the per-city schema and tables.
- `Selection`: the three input loops of `preferred_city`.
- `Loader`: `load_data`.
- `Stats`: `time_stats`, `station_stats`, `trip_duration_stats` and `user_stats`.
- `Pager`: `display_data`.
- `Scenarios`: whole-pipeline consequences of particular queries.

## Model

| member | source | states |
|---|---|---|
| Text.Lower | BIKESHARE_5.py:30 | `.lower()` keeps the length, leaves no upper-case letter, keeps every character's case class (the ASCII capital it is a form of), and changes exactly the upper-case characters |
| Text.LowerUnique | BIKESHARE_5.py:30 | those properties determine the lower-cased string: any string with the same length, no upper-case letter and the same case classes is `Lower(s)` |
| Text.KelvinLowersToK | BIKESHARE_5.py:30 | the Kelvin sign lowers to the ASCII letter "k" |
| Text.Title | BIKESHARE_5.py:95 | `day.title()` keeps the length and each character's case class: only the case of letters changes (which letters are raised is stated by Text.TitleOfLowerWord) |
| Text.TitleOfLowerWord | BIKESHARE_5.py:95 | `day.title()` of a lower-case word raises only its first letter, so "friday" becomes "Friday" |
| Config.IndexOf | BIKESHARE_5.py:87 | `list.index` gives the first position holding the value, or fails (ValueError) exactly when the value is absent |
| Config.MonthNumber | BIKESHARE_5.py:87 | a month name maps to its 1-based position in the month list, and only listed names have a number |
| Config.MonthNumbers | BIKESHARE_5.py:11 | january..june are months 1..6 |
| Config.CitiesHaveDataFiles | BIKESHARE_5.py:5-9 | a name is in the city list exactly when it has a data file |
| Selection.StopFrom | BIKESHARE_5.py:28-32 | an input loop started at some answer stops at the first answer from there on whose lower-cased form is listed, and finds nothing exactly when every answer from there on is rejected |
| Selection.ReadChoice | BIKESHARE_5.py:28-32 | an input loop returns the lower-cased form of the first answer whose lower-cased form is listed; every earlier answer was rejected; it never returns when no answer is acceptable |
| Selection.Collect | BIKESHARE_5.py:27-59 | the city, month and day loops read one answer stream in turn: a query comes back exactly when some answer is an acceptable city, a later one an acceptable month and a later one still an acceptable day; it is the lower-cased answers where each loop, started just after the previous one, first accepts, and the answers read end at the accepted day |
| Selection.PreferredCity | BIKESHARE_5.py:38-55 | as written, an accepted city has a data file and an accepted month and day are list names, so never "all" |
| Selection.MonthAllIsRejected | BIKESHARE_5.py:41 | the answer "All" offered by the month prompt is rejected, so the answers "Chicago", "All" yield no query |
| Selection.DayAllIsRejected | BIKESHARE_5.py:51 | the answer "All" offered by the day prompt is rejected, so the answers "Chicago", "March", "All" yield no query |
| Selection.PreferredCityIntended | BIKESHARE_5.py:40 | with "all" added to both lists, a collected month is a month name or "all", and the same holds for the day |
| Selection.KelvinCityIsAccepted | BIKESHARE_5.py:30-31 | "NEW YORK CITY" with the Kelvin sign in place of its K lowers to "new york city" and is accepted as a city |
| Selection.MonthOffersAccepted | BIKESHARE_5.py:40 | every word the month prompt offers, "All" included, passes the intended month test |
| Selection.DayOffersAccepted | BIKESHARE_5.py:50 | every word the day prompt offers, "All" included, passes the intended day test |
| Selection.IntendedAcceptsEveryOffer | BIKESHARE_5.py:40-51 | with "all" added to both lists, every word the month prompt offers (January to June, All) and every word the day prompt offers (Sunday to Saturday, All) is accepted, and the answers "Chicago", "All", "All" give the query chicago/all/all after three answers |
| Loader.LoadData | BIKESHARE_5.py:62-98 | an unknown city raises KeyError; an unknown month name raises ValueError; otherwise the result keeps the file's schema and has no more rows than the file; "all"/"all" returns the file unchanged |
| Loader.FilterRows | BIKESHARE_5.py:84-96 | the month and day masks never add rows, and with "all" for both they keep the table |
| Loader.FilterRowsIsOneMask | BIKESHARE_5.py:84-96 | the month mask followed by the day mask selects the same rows as the single per-row test `Selects` |
| Loader.MonthMaskSelects | BIKESHARE_5.py:87-90 | a row passes the month mask exactly when the month list names its month number |
| Loader.LoadDataSelectsRows | BIKESHARE_5.py:84-98 | the loaded rows are a subsequence of the file; each row that matches the month and title-cased day keeps all its copies; every other row is dropped |
| Loader.IntendedQueriesLoad | BIKESHARE_5.py:85-93 | every query the intended input loops return loads without raising, and one with "all" for both filters loads the whole file |
| Tally.Count | BIKESHARE_5.py:109 | a value's count is at most the row count, and is positive exactly when the value occurs |
| Tally.Filter | BIKESHARE_5.py:90-95 | `df[mask]` never adds rows, and a value is in the result exactly when it is in the table and passes the mask |
| Tally.FilterIsSubsequence | BIKESHARE_5.py:90 | a boolean mask keeps the surviving rows in their original order |
| Tally.FilterCount | BIKESHARE_5.py:95 | a boolean mask keeps every copy of a matching row and no copy of any other |
| Tally.FilterFilter | BIKESHARE_5.py:90-95 | masking twice selects what the conjunction of both masks selects |
| Tally.Distinct | BIKESHARE_5.py:149 | the distinct values, without repetition, are exactly the values that occur |
| Tally.SumOfBoundsTerms | BIKESHARE_5.py:163 | a sum of non-negative terms is non-negative and at least every term |
| Ranking.MostFrequent | BIKESHARE_5.py:109 | picks a candidate whose count no other candidate exceeds |
| Ranking.Largest | BIKESHARE_5.py:109 | selects min(k, #candidates) distinct candidates with their true counts in non-increasing order; no candidate left out has a larger count than one kept; with k large enough every candidate is kept |
| Ranking.NLargest | BIKESHARE_5.py:114 | `value_counts().nlargest(k)` meets `IsTopRanking`: at most k lines (fewer when there are fewer distinct values), true counts, non-increasing, nothing left out counts more |
| Ranking.ValueCounts | BIKESHARE_5.py:182 | `value_counts()` is a top ranking over all distinct values, with one line for every value present |
| Ranking.GroupSizes | BIKESHARE_5.py:149 | the pair groups have one line per distinct key present, each with its true, positive size |
| Ranking.GroupSizesSum | BIKESHARE_5.py:149 | the group sizes add up to the number of rows |
| Stats.TimeStatsOf | BIKESHARE_5.py:101-120 | the month, weekday and start-hour reports are top-3 rankings of those columns |
| Stats.SingleMonthRanking | BIKESHARE_5.py:109 | when every row has month m, the month report is the single line (m, number of rows) |
| Stats.StationStatsOf | BIKESHARE_5.py:127-150 | start and end stations are top-3 rankings; the pair table has one line per distinct (start, end) pair present, with true counts summing to the row count |
| Stats.TotalTravelTime | BIKESHARE_5.py:163 | the row-by-row total equals the sum of the durations |
| Stats.TotalBoundsEachTrip | BIKESHARE_5.py:163 | with non-negative durations, the total is at least each trip's duration |
| Stats.Present | BIKESHARE_5.py:188-201 | the non-missing cells of a column: each value occurs as many times as there are rows holding it, so `value_counts` of them counts rows |
| Stats.MinOf | BIKESHARE_5.py:195 | the earliest birth year occurs and is not after any other |
| Stats.MaxOf | BIKESHARE_5.py:198 | the most recent birth year occurs and is not before any other |
| Stats.BirthYearStatsOf | BIKESHARE_5.py:194-202 | earliest and latest exist exactly when some birth year is present, occur among the birth years, bound all of them, and the common years are a top-3 ranking |
| Stats.UserStatsOf | BIKESHARE_5.py:175-202 | user types are always a full ranking; gender figures exist exactly when the schema has Gender; birth-year figures exist exactly when it has Birth Year; a missing column is never an error |
| Stats.EarliestNotAfterLatest | BIKESHARE_5.py:195-199 | when birth years are reported and some is present, the earliest is not after the latest and both occur in the table |
| Pager.DisplayFrom | BIKESHARE_5.py:214-220 | the loop stops at the first answer whose lower-cased form is not "yes"; every window it shows is the first min(5, n) rows, whatever the offset |
| Pager.DisplayData | BIKESHARE_5.py:209-220 | as written, each "yes" shows the same first five rows, and the number of windows is the number of leading "yes" answers |
| Pager.DisplayAdvancingFrom | BIKESHARE_5.py:219 | with the offset used, the window after k "yes" answers is `iloc[start + 5k : start + 5k + 5]` |
| Pager.ILocWindow | BIKESHARE_5.py:220 | `df.iloc[a:b]` (`Pager.ILoc`, which carries no contract of its own): position i of the window is row a + i, and the window has every row from a up to b that the table has, none past its end |
| Pager.DisplayDataIntended | BIKESHARE_5.py:214-220 | with the offset used, the windows shown, laid end to end, are the table's first min(5 * windows, n) rows |
| Pager.WindowsCover | BIKESHARE_5.py:219-220 | consecutive five-row windows laid end to end form one slice of the table |
| Pager.SecondWindowRepeatsFirst | BIKESHARE_5.py:220 | on ten rows with answers "yes", "yes", "no", the code as written shows rows 0-4 twice; with the offset used it shows rows 0-4, then rows 5-9 |
| Scenarios.ChicagoMarchFriday | BIKESHARE_5.py:85-95 | loading "chicago", "march", "friday" keeps only March Friday rows, so the month report is (3, number of rows) |
| Scenarios.WashingtonAllAll | BIKESHARE_5.py:187-194 | for a file without Gender or Birth Year, "all"/"all" loads the whole file and the user report has no gender or birth-year figures |

## Left out

- CSV reading (`pd.read_csv`) and start-time parsing (`to_datetime`, `.dt.month`, `.dt.weekday_name`, `.dt.hour`) are library calls. `read` stands for them, and records carry the derived columns already.
- The mean travel time (line 167) uses floating point and is not modelled.
- Timing with `time.time()`, every `print`, and the section separators are output only. This includes the label "Most frequent start hour" printed above the pair counts at line 150.
- The `ValueError` / `KeyboardInterrupt` handlers around `input()` re-prompt exactly as a rejected answer does. Input is modelled as a finite list of answers, and running out of answers gives `None`.
- The `main` session loop and its restart prompt (lines 223-237) only sequence the modelled steps.
- The discarded grouping at line 145 is overwritten at line 149 before use.
- Text.Lower: only ASCII letters and the Kelvin sign change case. Every other non-ASCII character lowers, in Python, to a form that still contains a non-ASCII character, so it can never spell a listed name; the model leaves such characters unchanged, which gives the same accept/reject answer. Text.Title likewise raises only ASCII letters.
- Ranking.NLargest: pandas returns equal counts in an unspecified order. `IsTopRanking` admits every order among equal counts, and the function picks the first most frequent candidate.
- Stats.TotalTravelTime: durations are unbounded integers. Fractional durations and int64 overflow are not modelled.
- Ranking.GroupSizes: the contract states which lines there are and their counts, not their order (first appearance, as `sort=False` gives).
- Stats.Present: pandas `value_counts`, `min` and `max` skip missing cells. The model represents a missing cell as `None`, and the result is None where pandas would give NaN.

## Findings

| source | as written | input that shows it | evidently intended | confidence | as-written member | corrected member |
|---|---|---|---|---|---|---|
| BIKESHARE_5.py:41 | `if month in RECORD_MONTHS` rejects "all" | answers "Chicago", "All": the month loop asks again forever | "all" accepted, as the prompt at line 40 offers and `load_data` handles at line 85 | high, not executed | Selection.MonthAllIsRejected | Selection.PreferredCityIntended |
| BIKESHARE_5.py:51 | `if day in RECORD_DAYS` rejects "all" | answers "Chicago", "March", "All": the day loop asks again forever | "all" accepted, as the prompt at line 50 offers and `load_data` handles at line 93 | high, not executed | Selection.DayAllIsRejected | Selection.IntendedAcceptsEveryOffer |
| BIKESHARE_5.py:220 | `df.iloc[0:5]` ignores `start_loc` | ten rows, answers "yes", "yes", "no": rows 0-4 are shown twice | `df.iloc[start_loc - 5:start_loc]` after the increment at line 219 (or printing before it), paging forward from row 0 | medium, not executed | Pager.DisplayData | Pager.DisplayDataIntended |

The as-written versions model the code (`PreferredCity`, `DisplayData`). The
intended versions sit beside them: `PreferredCityIntended` with
`IntendedQueriesLoad`, and `DisplayDataIntended` with `WindowsCover`.
