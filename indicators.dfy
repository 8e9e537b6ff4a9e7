/**
 * Rolling means of the close series.
 *
 * Two variants appear in the bot: a partial window that is defined from row 0
 * (`min_periods=1`) and a full window that stays undefined until `period`
 * closes have been seen and is then rounded to three decimal places
 * (`min_periods=period` followed by `.round(3)`). Prices are exact reals.
 */
module Indicators {
  import opened Wrappers

  /** Sum of a series, peeled from the back so that windows ending at a row unfold naturally. */
  function Sum(s: seq<real>): real
  {
    if s == [] then 0.0 else Sum(s[..|s| - 1]) + s[|s| - 1]
  }

  lemma {:induction false} SumAppend(a: seq<real>, b: seq<real>)
    ensures Sum(a + b) == Sum(a) + Sum(b)
  {
    if b == [] {
      assert a + b == a;
    } else {
      assert (a + b)[..|a + b| - 1] == a + b[..|b| - 1];
      SumAppend(a, b[..|b| - 1]);
    }
  }

  lemma {:induction false} SumBounds(s: seq<real>, lo: real, hi: real)
    requires forall k :: 0 <= k < |s| ==> lo <= s[k] <= hi
    ensures |s| as real * lo <= Sum(s) <= |s| as real * hi
  {
    if s != [] {
      SumBounds(s[..|s| - 1], lo, hi);
    }
  }

  predicate PricesPositive(closes: seq<real>)
  {
    forall i :: 0 <= i < |closes| ==> closes[i] > 0.0
  }

  /** Arithmetic mean of a non-empty series. */
  function Mean(s: seq<real>): real
    requires |s| > 0
  {
    Sum(s) / |s| as real
  }

  /** A mean lies between any lower and upper bound of the values it averages. */
  lemma MeanBounds(s: seq<real>, lo: real, hi: real)
    requires |s| > 0
    requires forall k :: 0 <= k < |s| ==> lo <= s[k] <= hi
    ensures lo <= Mean(s) <= hi
  {
    SumBounds(s, lo, hi);
    var n := |s| as real;
    assert Mean(s) * n == Sum(s);
  }

  /**
   * Round-half-to-even at three decimal places, the rounding `.round(3)`
   * applies. The result is a multiple of 0.001 within 0.0005 of its argument.
   */
  function Round3(x: real): (r: real)
    ensures (r * 1000.0).Floor as real == r * 1000.0
    ensures -0.0005 <= r - x <= 0.0005
  {
    var y := x * 1000.0;
    var f := y.Floor;
    var frac := y - f as real;
    var n := if frac < 0.5 then f
             else if frac > 0.5 then f + 1
             else if f % 2 == 0 then f else f + 1;
    n as real / 1000.0
  }

  /** First row of the window of `w` rows that ends at row `i`, clipped at row 0. */
  function WindowStart(i: nat, w: nat): nat
  {
    if i + 1 >= w then i + 1 - w else 0
  }

  /** The closes a backward-looking window of `w` rows sees at row `i`. */
  function Window(closes: seq<real>, i: nat, w: nat): (win: seq<real>)
    requires i < |closes|
    ensures |win| == if i + 1 < w then i + 1 else w
    ensures w >= 1 ==> win[|win| - 1] == closes[i]
    ensures forall k :: 0 <= k < |win| ==> win[k] == closes[WindowStart(i, w) + k]
  {
    closes[WindowStart(i, w)..i + 1]
  }

  /**
   * `rolling(window=w, min_periods=1).mean()`: every row has a value, the mean
   * of the (up to) `w` closes ending at that row.
   */
  function PartialMovingAverage(closes: seq<real>, w: nat): (col: seq<real>)
    requires w >= 1
    ensures |col| == |closes|
  {
    seq(|closes|, i requires 0 <= i < |closes| => Mean(Window(closes, i, w)))
  }

  /**
   * Each partial-window mean is the mean of the min(i + 1, w) closes ending at
   * row i, and it stays within any bounds the closes respect (positive prices
   * give positive means).
   */
  lemma PartialMovingAverageAt(closes: seq<real>, w: nat, i: nat, lo: real, hi: real)
    requires w >= 1 && i < |closes|
    requires forall k :: 0 <= k < |closes| ==> lo <= closes[k] <= hi
    ensures var win := closes[WindowStart(i, w)..i + 1];
      && |win| == (if i + 1 < w then i + 1 else w)
      && PartialMovingAverage(closes, w)[i] * |win| as real == Sum(win)
      && lo <= PartialMovingAverage(closes, w)[i] <= hi
  {
    var win := Window(closes, i, w);
    MeanBounds(win, lo, hi);
    assert Mean(win) * |win| as real == Sum(win);
  }

  /**
   * `rolling(window=p, min_periods=p).mean().round(3)`: undefined on rows
   * 0 .. p - 2, afterwards the rounded mean of the last `p` closes.
   */
  function MovingAverage(closes: seq<real>, p: nat): (col: seq<Option<real>>)
    requires p >= 1
    ensures |col| == |closes|
    ensures forall i :: 0 <= i < |col| ==> (col[i].None? <==> i + 1 < p)
  {
    seq(|closes|, i requires 0 <= i < |closes| =>
      if i + 1 < p then None else Some(Round3(Mean(Window(closes, i, p)))))
  }

  /**
   * Where the full-window mean is defined it is within rounding distance of
   * the exact mean of the `p` closes i - p + 1 .. i, and so within 0.0005 of
   * any bounds those closes respect.
   */
  lemma MovingAverageAt(closes: seq<real>, p: nat, i: nat, lo: real, hi: real)
    requires p >= 1 && p - 1 <= i < |closes|
    requires forall k :: i + 1 - p <= k <= i ==> lo <= closes[k] <= hi
    ensures MovingAverage(closes, p)[i].Some?
    ensures var v := MovingAverage(closes, p)[i].value;
      && -0.0005 <= v - Sum(closes[i + 1 - p..i + 1]) / p as real <= 0.0005
      && lo - 0.0005 <= v <= hi + 0.0005
  {
    var win := Window(closes, i, p);
    assert win == closes[i + 1 - p..i + 1];
    MeanBounds(win, lo, hi);
  }

  /**
   * Running-sum refinement: sliding a window one row forward adds the new
   * close and drops the one that falls out, so a mean can be maintained in
   * O(1) per row and agrees with the direct recomputation above.
   */
  lemma {:induction false} SlidingSum(closes: seq<real>, w: nat, i: nat)
    requires w >= 1 && i + 1 < |closes|
    ensures Sum(Window(closes, i + 1, w))
         == Sum(Window(closes, i, w)) + closes[i + 1]
            - (if i + 1 >= w then closes[i + 1 - w] else 0.0)
  {
    var s, e := WindowStart(i, w), WindowStart(i + 1, w);
    assert closes[s..i + 2] == closes[s..i + 1] + [closes[i + 1]];
    SumAppend(closes[s..i + 1], [closes[i + 1]]);
    assert Sum([closes[i + 1]]) == closes[i + 1] by {
      assert [closes[i + 1]][..0] == [];
    }
    if i + 1 >= w {
      assert s + 1 == e;
      assert closes[s..i + 2] == [closes[s]] + closes[e..i + 2];
      SumAppend([closes[s]], closes[e..i + 2]);
      assert Sum([closes[s]]) == closes[s] by {
        assert [closes[s]][..0] == [];
      }
    } else {
      assert s == e;
    }
  }

  /**
   * The window sums maintained incrementally: the first row's sum is its
   * close, and each later row adds its close and drops the one that left the
   * window.
   */
  function RunningSums(closes: seq<real>, w: nat): (sums: seq<real>)
    requires w >= 1
    ensures |sums| == |closes|
  {
    if closes == [] then []
    else if |closes| == 1 then [closes[0]]
    else
      var n := |closes| - 1;
      var pre := RunningSums(closes[..n], w);
      pre + [pre[n - 1] + closes[n] - (if n >= w then closes[n - w] else 0.0)]
  }

  /** The incrementally maintained sum at row i agrees with summing its window directly. */
  lemma {:induction false} RunningSumsAgree(closes: seq<real>, w: nat, i: nat)
    requires w >= 1 && i < |closes|
    ensures RunningSums(closes, w)[i] == Sum(Window(closes, i, w))
    decreases |closes|
  {
    var n := |closes| - 1;
    if n == 0 {
      assert Window(closes, 0, w) == [closes[0]];
      assert [closes[0]][..0] == [];
    } else if i < n {
      RunningSumsAgree(closes[..n], w, i);
      RunningSumsEarlier(closes, w, i);
    } else {
      RunningSumsAgree(closes[..n], w, n - 1);
      RunningSumsNext(closes, w);
    }
  }

  /** Rows before the last keep the running sum they had in the shorter series. */
  lemma RunningSumsEarlier(closes: seq<real>, w: nat, i: nat)
    requires w >= 1 && i + 1 < |closes|
    requires var pre := closes[..|closes| - 1];
      RunningSums(pre, w)[i] == Sum(Window(pre, i, w))
    ensures RunningSums(closes, w)[i] == Sum(Window(closes, i, w))
  {
    var n := |closes| - 1;
    assert RunningSums(closes, w)[i] == RunningSums(closes[..n], w)[i];
    PrefixWindow(closes, n, i, w);
  }

  /** The last row's running sum is its window's sum when the row before it was. */
  lemma RunningSumsNext(closes: seq<real>, w: nat)
    requires w >= 1 && |closes| >= 2
    requires var n := |closes| - 1;
      RunningSums(closes[..n], w)[n - 1] == Sum(Window(closes[..n], n - 1, w))
    ensures var n := |closes| - 1;
      RunningSums(closes, w)[n] == Sum(Window(closes, n, w))
  {
    var n := |closes| - 1;
    var m := n - 1;
    assert m + 1 == n;
    var before := Sum(Window(closes, m, w));
    var evicted := if n >= w then closes[n - w] else 0.0;
    assert Sum(Window(closes, n, w)) == before + closes[n] - evicted by {
      SlidingSum(closes, w, m);
    }
    assert RunningSums(closes[..n], w)[m] == before by {
      PrefixWindow(closes, n, m, w);
    }
    RunningSumsLast(closes, w);
  }

  /** The last running sum is the one before it, plus the new close, minus the evicted close. */
  lemma RunningSumsLast(closes: seq<real>, w: nat)
    requires w >= 1 && |closes| >= 2
    ensures var n := |closes| - 1;
      RunningSums(closes, w)[n]
        == RunningSums(closes[..n], w)[n - 1] + closes[n] - (if n >= w then closes[n - w] else 0.0)
  {
  }

  /** A window that ends before row n has the same sum in the first n closes. */
  lemma PrefixWindow(closes: seq<real>, n: nat, i: nat, w: nat)
    requires i < n <= |closes|
    ensures Sum(Window(closes[..n], i, w)) == Sum(Window(closes, i, w))
  {
    assert closes[..n][WindowStart(i, w)..i + 1] == closes[WindowStart(i, w)..i + 1];
  }

  /** Each defined full-window mean is the rounded running sum divided by the period. */
  lemma MovingAverageFromRunningSums(closes: seq<real>, p: nat, i: nat)
    requires p >= 1 && p - 1 <= i < |closes|
    ensures MovingAverage(closes, p)[i] == Some(Round3(RunningSums(closes, p)[i] / p as real))
  {
    RunningSumsAgree(closes, p, i);
  }

  /** Appending a close leaves every earlier full-window mean (and its undefinedness) as it was. */
  lemma MovingAverageAppend(closes: seq<real>, c: real, p: nat)
    requires p >= 1
    ensures MovingAverage(closes + [c], p)[..|closes|] == MovingAverage(closes, p)
  {
    var ext := closes + [c];
    forall i | 0 <= i < |closes|
      ensures MovingAverage(ext, p)[i] == MovingAverage(closes, p)[i]
    {
      assert Window(ext, i, p) == Window(closes, i, p);
    }
  }

  /**
   * The frame's moving-average columns, one per listed period and keyed by it
   * (the column `MA_<period>`), each as long as the close series.
   */
  function MovingAverageTable(closes: seq<real>, periods: seq<nat>): (table: map<nat, seq<Option<real>>>)
    requires forall p :: p in periods ==> p >= 1
    ensures table.Keys == set p | p in periods
    ensures forall p :: p in table ==>
      && |table[p]| == |closes|
      && (forall i :: 0 <= i < |closes| ==> (table[p][i].None? <==> i + 1 < p))
  {
    map p | p in periods :: MovingAverage(closes, p)
  }

  /**
   * One incoming candle: its close is appended unchanged to the series and
   * every column is recomputed over the whole series.
   */
  function AppendAndRecompute(closes: seq<real>, c: real, periods: seq<nat>)
    : (r: (seq<real>, map<nat, seq<Option<real>>>))
    requires forall p :: p in periods ==> p >= 1
    ensures r.0 == closes + [c]
    ensures r.1.Keys == set p | p in periods
  {
    var ext := closes + [c];
    (ext, MovingAverageTable(ext, periods))
  }

  /** Recomputing after an append keeps every value the table already held. */
  lemma AppendKeepsTable(closes: seq<real>, c: real, periods: seq<nat>)
    requires forall p :: p in periods ==> p >= 1
    ensures var before := MovingAverageTable(closes, periods);
      var after := AppendAndRecompute(closes, c, periods).1;
      && after.Keys == before.Keys
      && forall p :: p in after ==> |after[p]| == |closes| + 1 && after[p][..|closes|] == before[p]
  {
    forall p | p in periods {
      MovingAverageAppend(closes, c, p);
    }
  }
}
