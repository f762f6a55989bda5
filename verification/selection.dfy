/** The three input loops that ask for a city, a month and a day. Each loop
    keeps prompting until the lower-cased answer is in its list; the answers
    a user types are given as a sequence. */
module Selection {
  import opened Wrappers
  import opened Text
  import opened Config

  /** The acceptance test of every input loop: `answer.lower() in choices`. */
  predicate Accepts(choices: seq<string>, answer: string)
  {
    Lower(answer) in choices
  }

  /** Answer `i` is the first answer from position `from` on that `choices`
      accepts: where an input loop started at `from` stops. */
  predicate FirstAccepted(answers: seq<string>, choices: seq<string>, from: int, i: int)
  {
    && 0 <= from <= i < |answers|
    && Accepts(choices, answers[i])
    && forall a :: from <= a < i ==> !Accepts(choices, answers[a])
  }

  /** One `while True` input loop, started at answer `from` of the answer
      stream: the position of the answer it stops at, or None when the
      answers run out first. */
  function StopFrom(answers: seq<string>, choices: seq<string>, from: nat): (r: Option<nat>)
    requires from <= |answers|
    ensures r.None? <==> forall a :: from <= a < |answers| ==> !Accepts(choices, answers[a])
    ensures r.Some? ==> FirstAccepted(answers, choices, from, r.value)
    decreases |answers| - from
  {
    if from == |answers| then None
    else if Accepts(choices, answers[from]) then Some(from)
    else StopFrom(answers, choices, from + 1)
  }

  /** An accepted answer (lower-cased) and how many answers were read to get it. */
  datatype Pick = Pick(choice: string, read: nat)

  /** A single input loop over the answers still to come. */
  function ReadChoice(answers: seq<string>, choices: seq<string>): (r: Option<Pick>)
    ensures r.None? <==> forall j :: 0 <= j < |answers| ==> !Accepts(choices, answers[j])
    ensures r.Some? ==> 0 < r.value.read <= |answers|
    ensures r.Some? ==> r.value.choice == Lower(answers[r.value.read - 1]) && r.value.choice in choices
    ensures r.Some? ==> forall j :: 0 <= j < r.value.read - 1 ==> !Accepts(choices, answers[j])
  {
    match StopFrom(answers, choices, 0)
    case None => None
    case Some(i) => Some(Pick(Lower(answers[i]), i + 1))
  }

  /** The triple the input stage hands to the loader. */
  datatype Query = Query(city: string, month: string, day: string)

  /** A query and the number of answers consumed to obtain it. */
  datatype Collected = Collected(query: Query, read: nat)

  /** Answers `i`, `j` and `k` are where the city, month and day loops stop,
      each loop starting just after the previous one stopped. */
  predicate LoopsStopAt(answers: seq<string>, months: seq<string>, days: seq<string>, i: int, j: int, k: int)
  {
    && FirstAccepted(answers, Cities, 0, i)
    && FirstAccepted(answers, months, i + 1, j)
    && FirstAccepted(answers, days, j + 1, k)
  }

  /** Some answer passes the city test, a later one the month test and a later
      one still the day test. */
  predicate HasAcceptableTriple(answers: seq<string>, months: seq<string>, days: seq<string>)
  {
    exists i, j, k :: 0 <= i < j < k < |answers|
      && Accepts(Cities, answers[i]) && Accepts(months, answers[j]) && Accepts(days, answers[k])
  }

  lemma {:induction false} NoCityNoTriple(answers: seq<string>, months: seq<string>, days: seq<string>)
    requires forall a :: 0 <= a < |answers| ==> !Accepts(Cities, answers[a])
    ensures !HasAcceptableTriple(answers, months, days)
  {
  }

  /** The city loop stopped at `i0` and no later answer is a month. */
  lemma {:induction false} NoMonthNoTriple(answers: seq<string>, months: seq<string>, days: seq<string>, i0: int)
    requires FirstAccepted(answers, Cities, 0, i0)
    requires forall a :: i0 + 1 <= a < |answers| ==> !Accepts(months, answers[a])
    ensures !HasAcceptableTriple(answers, months, days)
  {
  }

  /** The city and month loops stopped at `i0` and `j0` and no later answer
      is a day. */
  lemma {:induction false} NoDayNoTriple(answers: seq<string>, months: seq<string>, days: seq<string>, i0: int, j0: int)
    requires FirstAccepted(answers, Cities, 0, i0)
    requires FirstAccepted(answers, months, i0 + 1, j0)
    requires forall a :: j0 + 1 <= a < |answers| ==> !Accepts(days, answers[a])
    ensures !HasAcceptableTriple(answers, months, days)
  {
  }

  lemma {:induction false} StopsGiveTriple(answers: seq<string>, months: seq<string>, days: seq<string>, i: int, j: int, k: int)
    requires LoopsStopAt(answers, months, days, i, j, k)
    ensures HasAcceptableTriple(answers, months, days)
  {
  }

  /** The three loops in sequence, each reading where the previous one stopped,
      with the given month and day lists. A query comes back exactly when the
      answers hold an acceptable city, month and day in that order; it is
      made of the answers where the loops stop, and the answers read are
      those up to the accepted day. */
  function Collect(answers: seq<string>, months: seq<string>, days: seq<string>): (r: Option<Collected>)
    ensures r.None? <==> !HasAcceptableTriple(answers, months, days)
    ensures r.Some? ==> exists i, j, k :: (
              && LoopsStopAt(answers, months, days, i, j, k)
              && r.value.read == k + 1
              && r.value.query == Query(Lower(answers[i]), Lower(answers[j]), Lower(answers[k])))
    ensures r.Some? ==> r.value.read <= |answers|
    ensures r.Some? ==> r.value.query.city in Cities
    ensures r.Some? ==> r.value.query.month in months && r.value.query.day in days
  {
    match StopFrom(answers, Cities, 0)
    case None =>
      NoCityNoTriple(answers, months, days);
      None
    case Some(i) => AfterCity(answers, months, days, i)
  }

  /** The month and day loops, once the city loop has stopped at answer `i`. */
  function AfterCity(answers: seq<string>, months: seq<string>, days: seq<string>, i: nat): (r: Option<Collected>)
    requires FirstAccepted(answers, Cities, 0, i)
    ensures r.None? <==> !HasAcceptableTriple(answers, months, days)
    ensures r.Some? ==> exists j, k :: (
              && LoopsStopAt(answers, months, days, i, j, k)
              && r.value.read == k + 1
              && r.value.query == Query(Lower(answers[i]), Lower(answers[j]), Lower(answers[k])))
  {
    match StopFrom(answers, months, i + 1)
    case None =>
      NoMonthNoTriple(answers, months, days, i);
      None
    case Some(j) => AfterMonth(answers, months, days, i, j)
  }

  /** The day loop, once the city and month loops have stopped at answers
      `i` and `j`. */
  function AfterMonth(answers: seq<string>, months: seq<string>, days: seq<string>, i: nat, j: nat): (r: Option<Collected>)
    requires FirstAccepted(answers, Cities, 0, i)
    requires FirstAccepted(answers, months, i + 1, j)
    ensures r.None? <==> !HasAcceptableTriple(answers, months, days)
    ensures r.Some? ==> exists k :: (
              && LoopsStopAt(answers, months, days, i, j, k)
              && r.value.read == k + 1
              && r.value.query == Query(Lower(answers[i]), Lower(answers[j]), Lower(answers[k])))
  {
    match StopFrom(answers, days, j + 1)
    case None =>
      NoDayNoTriple(answers, months, days, i, j);
      None
    case Some(k) =>
      StopsGiveTriple(answers, months, days, i, j, k);
      Some(Collected(Query(Lower(answers[i]), Lower(answers[j]), Lower(answers[k])), k + 1))
  }

  /** `preferred_city` as written: the month and day loops accept only the
      names in `RECORD_MONTHS` and `RECORD_DAYS`. */
  function PreferredCity(answers: seq<string>): (r: Option<Collected>)
    ensures r.Some? ==> r.value.query.city in Cities && r.value.query.city in CityData
    ensures r.Some? ==> r.value.query.month in Months && r.value.query.month != "all"
    ensures r.Some? ==> r.value.query.day in Days && r.value.query.day != "all"
  {
    assert "all" !in Months && "all" !in Days;
    Collect(answers, Months, Days)
  }

  /** The month prompt invites "All", yet the month loop never accepts it:
      a user who answers "All" is asked again, forever. */
  lemma {:induction false} MonthAllIsRejected()
    ensures !Accepts(Months, "All") && !Accepts(Months, "all")
    ensures PreferredCity(["Chicago", "All"]) == None
  {
    assert Lower("All") == "all" && Lower("all") == "all";
  }

  /** Likewise the day prompt invites "All" and the day loop rejects it. */
  lemma {:induction false} DayAllIsRejected()
    ensures !Accepts(Days, "All") && !Accepts(Days, "all")
    ensures PreferredCity(["Chicago", "March", "All"]) == None
  {
    assert Lower("All") == "all" && Lower("all") == "all";
    var answers := ["Chicago", "March", "All"];
    assert !HasAcceptableTriple(answers, Months, Days) by {
      assert forall k :: 2 <= k < |answers| ==> !Accepts(Days, answers[k]);
    }
  }

  /** "NEW YORK CITY" with the Kelvin sign in place of its K lowers to
      "new york city", so the city loop accepts it. */
  lemma {:induction false} KelvinCityIsAccepted()
    ensures Lower("NEW YOR" + [Kelvin] + " CITY") == "new york city"
    ensures Accepts(Cities, "NEW YOR" + [Kelvin] + " CITY")
  {
  }

  /** `preferred_city` as its prompts and docstring describe it: "all" is
      one more acceptable month and day. */
  function PreferredCityIntended(answers: seq<string>): (r: Option<Collected>)
    ensures r.Some? ==> r.value.query.city in CityData
    ensures r.Some? ==> r.value.query.month in Months || r.value.query.month == "all"
    ensures r.Some? ==> r.value.query.day in Days || r.value.query.day == "all"
  {
    Collect(answers, Months + ["all"], Days + ["all"])
  }

  /** The words the month prompt offers (line 40). */
  const MonthOffers: seq<string> := ["January", "February", "March", "April", "May", "June", "All"]

  /** The words the day prompt offers (line 50). */
  const DayOffers: seq<string> :=
    ["Sunday", "Monday", "Tuesday", "Wednesday", "Thursday", "Friday", "Saturday", "All"]

  /** Every word the month prompt offers passes the intended month test. */
  lemma {:induction false} MonthOffersAccepted()
    ensures forall w :: w in MonthOffers ==> Accepts(Months + ["all"], w)
  {
    assert Lower("All") == "all";
    assert Lower("January") == "january" && Lower("February") == "february";
    assert Lower("March") == "march" && Lower("April") == "april";
    assert Lower("May") == "may" && Lower("June") == "june";
  }

  /** Every word the day prompt offers passes the intended day test. */
  lemma {:induction false} DayOffersAccepted()
    ensures forall w :: w in DayOffers ==> Accepts(Days + ["all"], w)
  {
    assert Lower("All") == "all";
    assert Lower("Sunday") == "sunday" && Lower("Monday") == "monday";
    assert Lower("Tuesday") == "tuesday" && Lower("Wednesday") == "wednesday";
    assert Lower("Thursday") == "thursday" && Lower("Friday") == "friday";
    assert Lower("Saturday") == "saturday";
  }

  /** With the intended lists, every word a prompt offers is accepted, "All"
      included, and a user answering "All" twice gets an unfiltered query. */
  lemma {:induction false} IntendedAcceptsEveryOffer()
    ensures forall w :: w in MonthOffers ==> Accepts(Months + ["all"], w)
    ensures forall w :: w in DayOffers ==> Accepts(Days + ["all"], w)
    ensures PreferredCityIntended(["Chicago", "All", "All"]) == Some(Collected(Query("chicago", "all", "all"), 3))
  {
    MonthOffersAccepted();
    DayOffersAccepted();
    assert Lower("All") == "all";
    assert Lower("Chicago") == "chicago";
  }
}
