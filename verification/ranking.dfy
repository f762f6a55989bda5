/** Frequency tables: `value_counts()`, `value_counts().nlargest(k)` and
    `groupby(..., sort=False).size()` over one column. */
module Ranking {
  import opened Tally

  /** One line of a frequency table: a value and how many rows hold it. */
  datatype Entry<T> = Entry(value: T, count: nat)

  function Keys<T>(es: seq<Entry<T>>): seq<T>
  {
    seq(|es|, i requires 0 <= i < |es| => es[i].value)
  }

  function Counts<T>(es: seq<Entry<T>>): seq<int>
  {
    seq(|es|, i requires 0 <= i < |es| => es[i].count as int)
  }

  /** Counts never grow from one line to the next. */
  predicate NonIncreasing<T>(es: seq<Entry<T>>)
  {
    forall i, j :: 0 <= i < j < |es| ==> es[i].count >= es[j].count
  }

  /** The reference meaning of `value_counts().nlargest(k)` on the column `xs`:
      min(k, #distinct) lines, one per value, each with that value's true
      count, in non-increasing order of count, and no value left out occurs
      more often than any value kept. The order among equal counts is free. */
  predicate IsTopRanking<T(==)>(xs: seq<T>, r: seq<Entry<T>>, k: nat)
  {
    && |r| == Min(k, |Elems(xs)|)
    && NoDuplicates(Keys(r))
    && (forall j :: 0 <= j < |r| ==> r[j].value in xs && r[j].count == Count(xs, r[j].value))
    && NonIncreasing(r)
    && (forall v, j :: v in xs && v !in Keys(r) && 0 <= j < |r| ==> Count(xs, v) <= r[j].count)
  }

  /** The position of a candidate that occurs in `xs` at least as often as
      every other candidate (the first such one). */
  function MostFrequent<T(==)>(xs: seq<T>, cands: seq<T>): (i: nat)
    requires |cands| > 0
    ensures i < |cands|
    ensures forall j :: 0 <= j < |cands| ==> Count(xs, cands[j]) <= Count(xs, cands[i])
  {
    if |cands| == 1 then 0
    else
      var i := MostFrequent(xs, cands[1..]) + 1;
      assert forall j :: 1 <= j < |cands| ==> cands[j] == cands[1..][j - 1];
      if Count(xs, cands[0]) >= Count(xs, cands[i]) then 0 else i
  }

  function Remove<T>(s: seq<T>, i: nat): seq<T>
    requires i < |s|
  {
    s[..i] + s[i + 1..]
  }

  lemma {:induction false} RemoveFacts<T>(s: seq<T>, i: nat)
    requires NoDuplicates(s) && i < |s|
    ensures |Remove(s, i)| == |s| - 1
    ensures NoDuplicates(Remove(s, i))
    ensures forall v :: v in Remove(s, i) <==> v in s && v != s[i]
  {
    var r := Remove(s, i);
    assert forall j :: 0 <= j < |r| ==> r[j] == if j < i then s[j] else s[j + 1];
    forall v | v in s && v != s[i] ensures v in r {
      var j :| 0 <= j < |s| && s[j] == v;
      if j < i { assert r[j] == v; } else { assert r[j - 1] == v; }
    }
  }

  /** `r` ranks the `k` most frequent of the distinct candidates `cands` by
      their counts in `xs`. */
  predicate RanksCandidates<T(==)>(xs: seq<T>, cands: seq<T>, r: seq<Entry<T>>, k: nat)
  {
    && |r| == Min(k, |cands|)
    && (forall j :: 0 <= j < |r| ==> r[j].value in cands && r[j].count == Count(xs, r[j].value))
    && NoDuplicates(Keys(r))
    && NonIncreasing(r)
    && (forall v, j :: v in cands && v !in Keys(r) && 0 <= j < |r| ==> Count(xs, v) <= r[j].count)
    && (k >= |cands| ==> forall v :: v in cands ==> v in Keys(r))
  }

  /** The front half of `RanksCons`: the new ranking has true counts,
      distinct keys and non-increasing counts. */
  lemma {:induction false} ConsOrdered<T>(xs: seq<T>, cands: seq<T>, k: nat, i: nat, rest: seq<Entry<T>>)
    requires NoDuplicates(cands) && i < |cands| && k > 0
    requires forall j :: 0 <= j < |cands| ==> Count(xs, cands[j]) <= Count(xs, cands[i])
    requires |rest| == Min(k - 1, |cands| - 1)
    requires forall j :: 0 <= j < |rest| ==> rest[j].value in Remove(cands, i) && rest[j].count == Count(xs, rest[j].value)
    requires NoDuplicates(Keys(rest)) && NonIncreasing(rest)
    ensures var r := [Entry(cands[i], Count(xs, cands[i]))] + rest;
            && |r| == Min(k, |cands|)
            && (forall j :: 0 <= j < |r| ==> r[j].value in cands && r[j].count == Count(xs, r[j].value))
            && NoDuplicates(Keys(r))
            && NonIncreasing(r)
  {
    RemoveFacts(cands, i);
    var top := Entry(cands[i], Count(xs, cands[i]));
    var r := [top] + rest;
    assert forall j :: 1 <= j < |r| ==> r[j] == rest[j - 1];
    assert Keys(r) == [cands[i]] + Keys(rest);
    forall j | 0 <= j < |rest| ensures rest[j].count <= top.count {
      assert rest[j].value in cands;
    }
  }

  /** The back half of `RanksCons`: nothing left out counts more than a kept
      line, and with room for all every candidate is kept. */
  lemma {:induction false} ConsCovers<T>(xs: seq<T>, cands: seq<T>, k: nat, i: nat, rest: seq<Entry<T>>)
    requires NoDuplicates(cands) && i < |cands| && k > 0
    requires forall j :: 0 <= j < |cands| ==> Count(xs, cands[j]) <= Count(xs, cands[i])
    requires RanksCandidates(xs, Remove(cands, i), rest, k - 1)
    ensures var r := [Entry(cands[i], Count(xs, cands[i]))] + rest;
            && (forall v, j :: v in cands && v !in Keys(r) && 0 <= j < |r| ==> Count(xs, v) <= r[j].count)
            && (k >= |cands| ==> forall v :: v in cands ==> v in Keys(r))
  {
    RemoveFacts(cands, i);
    var top := Entry(cands[i], Count(xs, cands[i]));
    var r := [top] + rest;
    assert forall j :: 1 <= j < |r| ==> r[j] == rest[j - 1];
    assert Keys(r) == [cands[i]] + Keys(rest);
    forall v, j | v in cands && v !in Keys(r) && 0 <= j < |r|
      ensures Count(xs, v) <= r[j].count
    {
      assert v != cands[i];
      if j > 0 {
        assert v in Remove(cands, i) && v !in Keys(rest);
      }
    }
    if k >= |cands| {
      forall v | v in cands ensures v in Keys(r) {
        if v != cands[i] {
          assert v in Remove(cands, i);
        }
      }
    }
  }

  /** Putting a most frequent candidate in front of a ranking of the others
      ranks all of them. */
  lemma {:induction false} RanksCons<T>(xs: seq<T>, cands: seq<T>, k: nat, i: nat, rest: seq<Entry<T>>)
    requires NoDuplicates(cands) && i < |cands| && k > 0
    requires forall j :: 0 <= j < |cands| ==> Count(xs, cands[j]) <= Count(xs, cands[i])
    requires RanksCandidates(xs, Remove(cands, i), rest, k - 1)
    ensures RanksCandidates(xs, cands, [Entry(cands[i], Count(xs, cands[i]))] + rest, k)
  {
    ConsOrdered(xs, cands, k, i, rest);
    ConsCovers(xs, cands, k, i, rest);
  }

  /** Selection of the `k` most frequent candidates, most frequent first. */
  function Largest<T(==,!new)>(xs: seq<T>, cands: seq<T>, k: nat): (r: seq<Entry<T>>)
    requires NoDuplicates(cands)
    ensures RanksCandidates(xs, cands, r, k)
    decreases |cands|
  {
    if k == 0 || |cands| == 0 then []
    else
      var i := MostFrequent(xs, cands);
      RemoveFacts(cands, i);
      var rest := Largest(xs, Remove(cands, i), k - 1);
      RanksCons(xs, cands, k, i, rest);
      [Entry(cands[i], Count(xs, cands[i]))] + rest
  }

  /** `value_counts().nlargest(k)`. */
  function NLargest<T(==,!new)>(xs: seq<T>, k: nat): (r: seq<Entry<T>>)
    ensures IsTopRanking(xs, r, k)
  {
    DistinctCard(xs);
    Largest(xs, Distinct(xs), k)
  }

  /** `value_counts()`: the full frequency table, most frequent first. */
  function ValueCounts<T(==,!new)>(xs: seq<T>): (r: seq<Entry<T>>)
    ensures IsTopRanking(xs, r, |Elems(xs)|)
    ensures forall v :: v in xs <==> v in Keys(r)
  {
    DistinctCard(xs);
    Largest(xs, Distinct(xs), |Distinct(xs)|)
  }

  /** One line per candidate, in candidate order, with its count in `xs`. */
  function Tabulate<T(==)>(xs: seq<T>, cands: seq<T>): seq<Entry<T>>
  {
    seq(|cands|, i requires 0 <= i < |cands| => Entry(cands[i], Count(xs, cands[i])))
  }

  /** `groupby(col, sort=False).size()`: one line per distinct value. */
  function GroupSizes<T(==,!new)>(xs: seq<T>): (r: seq<Entry<T>>)
    ensures NoDuplicates(Keys(r))
    ensures forall v :: v in xs <==> v in Keys(r)
    ensures forall j :: 0 <= j < |r| ==> r[j].count == Count(xs, r[j].value) && r[j].count > 0
    ensures |r| == |Elems(xs)|
  {
    DistinctCard(xs);
    var r := Tabulate(xs, Distinct(xs));
    assert Keys(r) == Distinct(xs);
    r
  }

  /** Summing the counts of a list of distinct values that covers `xs`, one
      row of `xs` at a time: the first row adds one to exactly one value. */
  lemma {:induction false} SumOverCandidates<T>(xs: seq<T>, cands: seq<T>)
    requires |xs| > 0
    ensures SumOf(Counts(Tabulate(xs, cands)))
         == Count(cands, xs[0]) + SumOf(Counts(Tabulate(xs[1..], cands)))
  {
    if |cands| > 0 {
      SumOverCandidates(xs, cands[1..]);
      assert Counts(Tabulate(xs, cands))[1..] == Counts(Tabulate(xs, cands[1..]));
      assert Counts(Tabulate(xs[1..], cands))[1..] == Counts(Tabulate(xs[1..], cands[1..]));
    }
  }

  lemma {:induction false} TabulateSum<T>(xs: seq<T>, cands: seq<T>)
    requires NoDuplicates(cands)
    requires forall v :: v in xs ==> v in cands
    ensures SumOf(Counts(Tabulate(xs, cands))) == |xs|
  {
    if |xs| == 0 {
      var c := Counts(Tabulate(xs, cands));
      assert forall i :: 0 <= i < |c| ==> c[i] == 0;
      ZeroSum(c);
    } else {
      SumOverCandidates(xs, cands);
      CountUnique(cands, xs[0]);
      TabulateSum(xs[1..], cands);
    }
  }

  lemma {:induction false} ZeroSum(c: seq<int>)
    requires forall i :: 0 <= i < |c| ==> c[i] == 0
    ensures SumOf(c) == 0
  {
    if |c| > 0 {
      ZeroSum(c[1..]);
    }
  }

  /** The group sizes add up to the number of rows. */
  lemma {:induction false} GroupSizesSum<T(!new)>(xs: seq<T>)
    ensures SumOf(Counts(GroupSizes(xs))) == |xs|
  {
    TabulateSum(xs, Distinct(xs));
  }
}
