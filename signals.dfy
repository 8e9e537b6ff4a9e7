/**
 * Signal detection from two moving-average columns.
 *
 * Edge crossover (the streaming variants): +1 when the short mean moves above
 * the long mean, -1 when it moves below, 0 otherwise and whenever a current
 * or previous mean is undefined. Level/diff (the backtest): the level is 1
 * while short > long, and the position is the change of level from the
 * previous row.
 */
module Signals {
  import opened Wrappers
  import opened Indicators

  /** `a > b` as a column comparison evaluates it: false when either side is undefined. */
  predicate Above(a: Option<real>, b: Option<real>)
  {
    a.Some? && b.Some? && a.value > b.value
  }

  predicate Below(a: Option<real>, b: Option<real>)
  {
    a.Some? && b.Some? && a.value < b.value
  }

  predicate AtMost(a: Option<real>, b: Option<real>)
  {
    a.Some? && b.Some? && a.value <= b.value
  }

  predicate AtLeast(a: Option<real>, b: Option<real>)
  {
    a.Some? && b.Some? && a.value >= b.value
  }

  /**
   * Crossover at one row. The column starts at 0, the golden-cross mask
   * writes 1 and then the death-cross mask writes -1, so -1 wins where both
   * masks hold; they never both hold, so the result is exactly the one rule
   * that applies.
   */
  function Cross(short: Option<real>, long: Option<real>, prevShort: Option<real>, prevLong: Option<real>): (r: int)
    ensures r == 1 || r == 0 || r == -1
    ensures r == 1 <==> Above(short, long) && AtMost(prevShort, prevLong)
    ensures r == -1 <==> Below(short, long) && AtLeast(prevShort, prevLong)
    ensures short.None? || long.None? || prevShort.None? || prevLong.None? ==> r == 0
    ensures short == long ==> r == 0
  {
    var golden := Above(short, long) && AtMost(prevShort, prevLong);
    var death := Below(short, long) && AtLeast(prevShort, prevLong);
    if death then -1 else if golden then 1 else 0
  }

  /** `shift(1)`: the previous row's value, undefined at row 0. */
  function Shift(col: seq<Option<real>>, i: nat): Option<real>
    requires i < |col|
  {
    if i == 0 then None else col[i - 1]
  }

  /** The crossover column computed from a short and a long moving-average column. */
  function CrossColumn(shortCol: seq<Option<real>>, longCol: seq<Option<real>>): (col: seq<int>)
    requires |shortCol| == |longCol|
    ensures |col| == |shortCol|
    ensures |col| > 0 ==> col[0] == 0
    ensures forall i :: 0 <= i < |col| ==> col[i] == 1 || col[i] == 0 || col[i] == -1
  {
    seq(|shortCol|, i requires 0 <= i < |shortCol| =>
      Cross(shortCol[i], longCol[i], Shift(shortCol, i), Shift(longCol, i)))
  }

  /** `calculate_ma_crossover` / `calculate_crossover`: means for both periods, then the crossover column. */
  function MaCrossover(closes: seq<real>, shortPeriod: nat, longPeriod: nat): (col: seq<int>)
    requires shortPeriod >= 1 && longPeriod >= 1
    ensures |col| == |closes|
  {
    CrossColumn(MovingAverage(closes, shortPeriod), MovingAverage(closes, longPeriod))
  }

  /**
   * The crossover is 0 on every row where a current or previous mean is still
   * undefined, that is on rows 0 .. max(short, long) - 1.
   */
  lemma CrossoverZeroUntilDefined(closes: seq<real>, shortPeriod: nat, longPeriod: nat, i: nat)
    requires shortPeriod >= 1 && longPeriod >= 1
    requires i < |closes| && (i < shortPeriod || i < longPeriod)
    ensures MaCrossover(closes, shortPeriod, longPeriod)[i] == 0
  {
    var s, l := MovingAverage(closes, shortPeriod), MovingAverage(closes, longPeriod);
    if i > 0 {
      assert i - 1 + 1 < shortPeriod || i - 1 + 1 < longPeriod;
      assert s[i - 1].None? || l[i - 1].None?;
    }
  }

  /**
   * Edge triggering: a row that signals +1 leaves the short mean above the
   * long mean, so the next row cannot signal +1 again; likewise for -1.
   */
  lemma CrossIsEdgeTriggered(shortCol: seq<Option<real>>, longCol: seq<Option<real>>, i: nat)
    requires |shortCol| == |longCol| && i + 1 < |shortCol|
    ensures CrossColumn(shortCol, longCol)[i] == 1 ==> CrossColumn(shortCol, longCol)[i + 1] != 1
    ensures CrossColumn(shortCol, longCol)[i] == -1 ==> CrossColumn(shortCol, longCol)[i + 1] != -1
  {
    var col := CrossColumn(shortCol, longCol);
    assert col[i] == Cross(shortCol[i], longCol[i], Shift(shortCol, i), Shift(longCol, i));
    assert col[i + 1] == Cross(shortCol[i + 1], longCol[i + 1], shortCol[i], longCol[i]);
  }

  /** Appending a close leaves the crossover of every earlier row unchanged. */
  lemma CrossoverAppend(closes: seq<real>, c: real, shortPeriod: nat, longPeriod: nat)
    requires shortPeriod >= 1 && longPeriod >= 1
    ensures MaCrossover(closes + [c], shortPeriod, longPeriod)[..|closes|]
         == MaCrossover(closes, shortPeriod, longPeriod)
  {
    var ext := closes + [c];
    MovingAverageAppend(closes, c, shortPeriod);
    MovingAverageAppend(closes, c, longPeriod);
    var s, l := MovingAverage(closes, shortPeriod), MovingAverage(closes, longPeriod);
    var s', l' := MovingAverage(ext, shortPeriod), MovingAverage(ext, longPeriod);
    forall i | 0 <= i < |closes|
      ensures CrossColumn(s', l')[i] == CrossColumn(s, l)[i]
    {
      assert s'[i] == s[i] && l'[i] == l[i];
      if i > 0 {
        assert s'[i - 1] == s[i - 1] && l'[i - 1] == l[i - 1];
      }
    }
  }

  /** `np.where(short_mavg > long_mavg, 1, 0)`. */
  function Levels(shortCol: seq<real>, longCol: seq<real>): (levels: seq<int>)
    requires |shortCol| == |longCol|
    ensures |levels| == |shortCol|
    ensures forall i :: 0 <= i < |levels| ==>
      (levels[i] == 1 || levels[i] == 0) && (levels[i] == 1 <==> shortCol[i] > longCol[i])
  {
    seq(|shortCol|, i requires 0 <= i < |shortCol| => if shortCol[i] > longCol[i] then 1 else 0)
  }

  /** `signal.diff()`: undefined at row 0, afterwards the change of level. */
  function Positions(levels: seq<int>): (pos: seq<Option<int>>)
    ensures |pos| == |levels|
    ensures |pos| > 0 ==> pos[0] == None
    ensures forall i :: 1 <= i < |pos| ==> pos[i].Some?
  {
    seq(|levels|, i requires 0 <= i < |levels| => if i == 0 then None else Some(levels[i] - levels[i - 1]))
  }

  predicate IsLevelSeries(levels: seq<int>)
  {
    forall i :: 0 <= i < |levels| ==> levels[i] == 0 || levels[i] == 1
  }

  /**
   * For 0/1 levels every defined position is -1, 0 or 1: +1 exactly where the
   * level rises from 0 to 1 and -1 exactly where it falls from 1 to 0.
   */
  lemma PositionValues(levels: seq<int>, i: nat)
    requires IsLevelSeries(levels) && 1 <= i < |levels|
    ensures var p := Positions(levels)[i];
      && p.Some? && (p.value == 1 || p.value == 0 || p.value == -1)
      && (p.value == 1 <==> levels[i - 1] == 0 && levels[i] == 1)
      && (p.value == -1 <==> levels[i - 1] == 1 && levels[i] == 0)
  {
  }

  /** Across a run of zero positions the level does not move. */
  lemma {:induction false} LevelFlat(levels: seq<int>, i: nat, j: nat)
    requires 1 <= i < j <= |levels|
    requires forall k :: i < k < j ==> Positions(levels)[k] == Some(0)
    ensures levels[j - 1] == levels[i]
  {
    if j - 1 > i {
      LevelFlat(levels, i, j - 1);
      assert Positions(levels)[j - 1] == Some(levels[j - 1] - levels[j - 2]);
    }
  }

  /**
   * Nonzero positions alternate in sign: between a buy and the next nonzero
   * position there is always a sell, and the other way round.
   */
  lemma PositionsAlternate(levels: seq<int>, i: nat, j: nat)
    requires IsLevelSeries(levels) && 1 <= i < j < |levels|
    requires Positions(levels)[i] != Some(0) && Positions(levels)[j] != Some(0)
    requires forall k :: i < k < j ==> Positions(levels)[k] == Some(0)
    ensures Positions(levels)[j].value == -Positions(levels)[i].value
  {
    LevelFlat(levels, i, j);
    PositionValues(levels, i);
    PositionValues(levels, j);
  }
}
