/** `display_data`: show rows of the table for as long as the user answers
    "yes". */
module Pager {
  import opened Wrappers
  import opened Text
  import opened Tally

  /** `df.iloc[a:b]`: both bounds are clamped to the table. */
  function ILoc<T>(rows: seq<T>, a: nat, b: nat): seq<T>
  {
    var lo := Min(a, |rows|);
    var hi := Min(b, |rows|);
    if lo <= hi then rows[lo..hi] else []
  }

  /** What a window holds: position `i` of `iloc[a:b]` is row `a + i`, and
      the window has every row from `a` up to (not including) `b` that the
      table has, so it is empty past the end. */
  lemma {:induction false} ILocWindow<T>(rows: seq<T>, a: nat, b: nat)
    ensures |ILoc(rows, a, b)| == if a <= b && a <= |rows| then Min(b, |rows|) - a else 0
    ensures forall i :: 0 <= i < |ILoc(rows, a, b)| ==> ILoc(rows, a, b)[i] == rows[a + i]
  {
  }

  /** The loop's continue test: `answer.lower() == 'yes'`. */
  predicate WantsMore(answer: string)
  {
    Lower(answer) == "yes"
  }

  /** The loop as written, from offset `startLoc`: the offset advances by 5
      per "yes" but every window shown is `iloc[0:5]`. The result lists the
      windows shown before the first other answer; None means the answers
      ran out first. */
  function DisplayFrom<T>(answers: seq<string>, rows: seq<T>, startLoc: nat): (r: Option<seq<seq<T>>>)
    ensures r.None? <==> forall j :: 0 <= j < |answers| ==> WantsMore(answers[j])
    ensures r.Some? ==> |r.value| < |answers| && !WantsMore(answers[|r.value|])
    ensures r.Some? ==> forall j :: 0 <= j < |r.value| ==> WantsMore(answers[j])
    ensures r.Some? ==> forall k :: 0 <= k < |r.value| ==> r.value[k] == rows[..Min(5, |rows|)]
  {
    if |answers| == 0 then None
    else if !WantsMore(answers[0]) then Some([])
    else
      assert forall j :: 1 <= j < |answers| ==> answers[j] == answers[1..][j - 1];
      match DisplayFrom(answers[1..], rows, startLoc + 5)
      case None => None
      case Some(ws) => Some([ILoc(rows, 0, 5)] + ws)
  }

  /** `display_data(df)` as written: every "yes" shows the same first five rows. */
  function DisplayData<T>(answers: seq<string>, rows: seq<T>): (r: Option<seq<seq<T>>>)
    ensures r.None? <==> forall j :: 0 <= j < |answers| ==> WantsMore(answers[j])
    ensures r.Some? ==> |r.value| < |answers|
    ensures r.Some? ==> forall j :: 0 <= j <= |r.value| ==> (WantsMore(answers[j]) <==> j < |r.value|)
    ensures r.Some? ==> forall k :: 0 <= k < |r.value| ==> r.value[k] == rows[..Min(5, |rows|)]
  {
    DisplayFrom(answers, rows, 0)
  }

  /** The loop with the offset put to use: the window after `k` "yes"
      answers is `iloc[startLoc + 5k : startLoc + 5k + 5]`. */
  function DisplayAdvancingFrom<T>(answers: seq<string>, rows: seq<T>, startLoc: nat): (r: Option<seq<seq<T>>>)
    ensures r.None? <==> forall j :: 0 <= j < |answers| ==> WantsMore(answers[j])
    ensures r.Some? ==> |r.value| < |answers| && !WantsMore(answers[|r.value|])
    ensures r.Some? ==> forall j :: 0 <= j < |r.value| ==> WantsMore(answers[j])
    ensures r.Some? ==> forall k :: 0 <= k < |r.value| ==> r.value[k] == ILoc(rows, startLoc + 5 * k, startLoc + 5 * k + 5)
  {
    if |answers| == 0 then None
    else if !WantsMore(answers[0]) then Some([])
    else
      assert forall j :: 1 <= j < |answers| ==> answers[j] == answers[1..][j - 1];
      match DisplayAdvancingFrom(answers[1..], rows, startLoc + 5)
      case None => None
      case Some(ws) =>
        PrependWindow(rows, startLoc, ws);
        Some([ILoc(rows, startLoc, startLoc + 5)] + ws)
  }

  /** `display_data` with the window taken at `start_loc`: the windows shown
      page through the table, each row once and in order. */
  function DisplayDataIntended<T>(answers: seq<string>, rows: seq<T>): (r: Option<seq<seq<T>>>)
    ensures r.None? <==> forall j :: 0 <= j < |answers| ==> WantsMore(answers[j])
    ensures r.Some? ==> |r.value| < |answers|
    ensures r.Some? ==> forall j :: 0 <= j <= |r.value| ==> (WantsMore(answers[j]) <==> j < |r.value|)
    ensures r.Some? ==> Concat(r.value) == rows[..Min(5 * |r.value|, |rows|)]
  {
    var r := DisplayAdvancingFrom(answers, rows, 0);
    if r.Some? then WindowsCover(rows, 0, r.value); r else r
  }

  /** The windows one after the other. */
  function Concat<T>(ws: seq<seq<T>>): seq<T>
  {
    if |ws| == 0 then [] else ws[0] + Concat(ws[1..])
  }

  /** Successive five-row windows from `startLoc` together are one slice. */
  lemma {:induction false} WindowsCover<T>(rows: seq<T>, startLoc: nat, ws: seq<seq<T>>)
    requires forall k :: 0 <= k < |ws| ==> ws[k] == ILoc(rows, startLoc + 5 * k, startLoc + 5 * k + 5)
    ensures Concat(ws) == ILoc(rows, startLoc, startLoc + 5 * |ws|)
    decreases |ws|
  {
    if |ws| == 0 {
      assert ILoc(rows, startLoc, startLoc) == [];
    } else {
      ShiftWindows(rows, startLoc, ws);
      WindowsCover(rows, startLoc + 5, ws[1..]);
      ConsWindow(rows, startLoc, ws);
    }
  }

  /** The window at `startLoc` followed by the windows from `startLoc + 5`
      are the windows from `startLoc`. */
  lemma {:induction false} PrependWindow<T>(rows: seq<T>, startLoc: nat, ws: seq<seq<T>>)
    requires forall k :: 0 <= k < |ws| ==> ws[k] == ILoc(rows, startLoc + 5 + 5 * k, startLoc + 5 + 5 * k + 5)
    ensures var all := [ILoc(rows, startLoc, startLoc + 5)] + ws;
            forall k :: 0 <= k < |all| ==> all[k] == ILoc(rows, startLoc + 5 * k, startLoc + 5 * k + 5)
  {
    var all := [ILoc(rows, startLoc, startLoc + 5)] + ws;
    forall k | 0 <= k < |all|
      ensures all[k] == ILoc(rows, startLoc + 5 * k, startLoc + 5 * k + 5)
    {
      if k > 0 {
        assert all[k] == ws[k - 1];
        assert startLoc + 5 + 5 * (k - 1) == startLoc + 5 * k;
      }
    }
  }

  /** The windows after the first start five rows later. */
  lemma {:induction false} ShiftWindows<T>(rows: seq<T>, startLoc: nat, ws: seq<seq<T>>)
    requires |ws| > 0
    requires forall k :: 0 <= k < |ws| ==> ws[k] == ILoc(rows, startLoc + 5 * k, startLoc + 5 * k + 5)
    ensures ws[0] == ILoc(rows, startLoc, startLoc + 5)
    ensures forall k :: 0 <= k < |ws| - 1 ==> ws[1..][k] == ILoc(rows, startLoc + 5 + 5 * k, startLoc + 5 + 5 * k + 5)
  {
    forall k | 0 <= k < |ws| - 1
      ensures ws[1..][k] == ILoc(rows, startLoc + 5 + 5 * k, startLoc + 5 + 5 * k + 5)
    {
      assert ws[1..][k] == ws[k + 1];
      assert startLoc + 5 * (k + 1) == startLoc + 5 + 5 * k;
    }
  }

  /** A window in front of the windows that follow it covers both stretches. */
  lemma {:induction false} ConsWindow<T>(rows: seq<T>, startLoc: nat, ws: seq<seq<T>>)
    requires |ws| > 0 && ws[0] == ILoc(rows, startLoc, startLoc + 5)
    requires Concat(ws[1..]) == ILoc(rows, startLoc + 5, startLoc + 5 + 5 * (|ws| - 1))
    ensures Concat(ws) == ILoc(rows, startLoc, startLoc + 5 * |ws|)
  {
    AdjacentWindows(rows, startLoc, startLoc + 5, startLoc + 5 + 5 * (|ws| - 1));
  }

  lemma {:induction false} AdjacentWindows<T>(rows: seq<T>, a: nat, b: nat, c: nat)
    requires a <= b <= c
    ensures ILoc(rows, a, b) + ILoc(rows, b, c) == ILoc(rows, a, c)
  {
    var n := |rows|;
    assert rows[Min(a, n)..Min(b, n)] + rows[Min(b, n)..Min(c, n)] == rows[Min(a, n)..Min(c, n)];
  }

  /** The same answers on a ten-row table: as written, the second "yes"
      shows rows 0-4 again; with the offset used, it shows rows 5-9. */
  lemma {:induction false} SecondWindowRepeatsFirst()
    ensures DisplayData(["yes", "yes", "no"], [0, 1, 2, 3, 4, 5, 6, 7, 8, 9])
         == Some([[0, 1, 2, 3, 4], [0, 1, 2, 3, 4]])
    ensures DisplayDataIntended(["yes", "yes", "no"], [0, 1, 2, 3, 4, 5, 6, 7, 8, 9])
         == Some([[0, 1, 2, 3, 4], [5, 6, 7, 8, 9]])
  {
    var answers := ["yes", "yes", "no"];
    var rows := [0, 1, 2, 3, 4, 5, 6, 7, 8, 9];
    assert WantsMore(answers[0]) && WantsMore(answers[1]) && !WantsMore(answers[2]) by {
      assert Lower("yes") == "yes";
      assert Lower("no") == "no";
    }
    var shown := DisplayData(answers, rows).value;
    assert |shown| == 2;
    assert shown[0] == rows[..5] && shown[1] == rows[..5];
    assert rows[..5] == [0, 1, 2, 3, 4];
    var paged := DisplayAdvancingFrom(answers, rows, 0).value;
    assert |paged| == 2;
    assert paged[0] == ILoc(rows, 0, 5) && paged[1] == ILoc(rows, 5, 10);
    assert ILoc(rows, 0, 5) == [0, 1, 2, 3, 4];
    assert ILoc(rows, 5, 10) == [5, 6, 7, 8, 9];
    assert shown == [[0, 1, 2, 3, 4], [0, 1, 2, 3, 4]];
    assert paged == [[0, 1, 2, 3, 4], [5, 6, 7, 8, 9]];
    assert DisplayDataIntended(answers, rows) == DisplayAdvancingFrom(answers, rows, 0);
  }
}
