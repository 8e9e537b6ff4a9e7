/**
 * The historical backtest: partial-window means, level/diff positions and a
 * full-notional ledger that converts all cash to stock on a +1 position and
 * all stock to cash on a -1 position.
 */
module Backtest {
  import opened Wrappers
  import opened Indicators
  import opened Signals

  /**
   * The backtest ledger's two balances. This is a separate ledger from the
   * streaming bot's USD/BTC balances: it always moves the whole balance.
   */
  datatype Holding = Holding(cash: real, stock: real)

  /** Portfolio value at a close price. */
  function Valuation(h: Holding, c: real): real
  {
    h.cash + h.stock * c
  }

  /** All in one asset: the backtest never holds cash and stock at once. */
  predicate Flat(h: Holding)
  {
    h.cash == 0.0 || h.stock == 0.0
  }

  predicate Solvent(h: Holding)
  {
    h.cash >= 0.0 && h.stock >= 0.0
  }

  /**
   * One row of the ledger. A buy needs cash and a sell needs stock; any other
   * row (including an undefined position) changes nothing.
   */
  function TradeStep(h: Holding, position: Option<int>, c: real): (h': Holding)
    requires c > 0.0
    ensures position != Some(1) && position != Some(-1) ==> h' == h
    ensures position == Some(1) ==> h' == (if h.cash > 0.0 then Holding(0.0, h.cash / c) else h)
    ensures position == Some(-1) ==> h' == (if h.stock > 0.0 then Holding(h.stock * c, 0.0) else h)
    ensures position == Some(1) && h.cash > 0.0 ==> h'.cash == 0.0 && h'.stock * c == h.cash
    ensures position == Some(-1) && h.stock > 0.0 ==> h'.stock == 0.0 && h'.cash == h.stock * c
  {
    if position == Some(1) then
      (if h.cash > 0.0 then Holding(0.0, h.cash / c) else h)
    else if position == Some(-1) then
      (if h.stock > 0.0 then Holding(h.stock * c, 0.0) else h)
    else h
  }

  /**
   * A step keeps balances non-negative, and from a flat holding it stays flat
   * and leaves the value at the trade price unchanged.
   */
  lemma TradeStepPreserves(h: Holding, position: Option<int>, c: real)
    requires c > 0.0
    ensures Solvent(h) ==> Solvent(TradeStep(h, position, c))
    ensures Flat(h) ==> Flat(TradeStep(h, position, c))
    ensures Flat(h) ==> Valuation(TradeStep(h, position, c), c) == Valuation(h, c)
  {
    if position == Some(1) && h.cash > 0.0 {
      assert (h.cash / c) * c == h.cash;
    }
  }

  /** The holding after the first `n` rows, starting from all cash. */
  function HoldingAfter(startingCapital: real, positions: seq<Option<int>>, closes: seq<real>, n: nat): Holding
    requires n <= |positions| == |closes| && PricesPositive(closes)
  {
    if n == 0 then Holding(startingCapital, 0.0)
    else TradeStep(HoldingAfter(startingCapital, positions, closes, n - 1), positions[n - 1], closes[n - 1])
  }

  /**
   * After every row the holding is all cash or all stock, and with a
   * non-negative starting capital both balances stay non-negative.
   */
  lemma {:induction false} HoldingAfterInvariant(startingCapital: real, positions: seq<Option<int>>, closes: seq<real>, n: nat)
    requires n <= |positions| == |closes| && PricesPositive(closes)
    ensures Flat(HoldingAfter(startingCapital, positions, closes, n))
    ensures startingCapital >= 0.0 ==> Solvent(HoldingAfter(startingCapital, positions, closes, n))
  {
    if n > 0 {
      HoldingAfterInvariant(startingCapital, positions, closes, n - 1);
      TradeStepPreserves(HoldingAfter(startingCapital, positions, closes, n - 1), positions[n - 1], closes[n - 1]);
    }
  }

  /** A row's trade happens at that row's close and leaves the portfolio value there unchanged. */
  lemma ValuationConservedAtRow(startingCapital: real, positions: seq<Option<int>>, closes: seq<real>, i: nat)
    requires i < |positions| == |closes| && PricesPositive(closes)
    ensures Valuation(HoldingAfter(startingCapital, positions, closes, i + 1), closes[i])
         == Valuation(HoldingAfter(startingCapital, positions, closes, i), closes[i])
  {
    HoldingAfterInvariant(startingCapital, positions, closes, i);
    TradeStepPreserves(HoldingAfter(startingCapital, positions, closes, i), positions[i], closes[i]);
  }

  /** The `portfolio_value` column for the first `n` rows: each row valued at its own close after its trade. */
  function ValueSeries(startingCapital: real, positions: seq<Option<int>>, closes: seq<real>, n: nat): seq<real>
    requires n <= |positions| == |closes| && PricesPositive(closes)
  {
    if n == 0 then []
    else ValueSeries(startingCapital, positions, closes, n - 1)
         + [Valuation(HoldingAfter(startingCapital, positions, closes, n), closes[n - 1])]
  }

  lemma {:induction false} ValueSeriesAt(startingCapital: real, positions: seq<Option<int>>, closes: seq<real>, n: nat)
    requires n <= |positions| == |closes| && PricesPositive(closes)
    ensures |ValueSeries(startingCapital, positions, closes, n)| == n
    ensures forall i :: 0 <= i < n ==> ValueSeries(startingCapital, positions, closes, n)[i]
                                        == Valuation(HoldingAfter(startingCapital, positions, closes, i + 1), closes[i])
  {
    if n > 0 {
      ValueSeriesAt(startingCapital, positions, closes, n - 1);
    }
  }

  /**
   * `dataFrame[dataFrame["position"].isin([1, -1])]`: the indices, from row
   * `from` on, of the rows whose position is +1 or -1, in increasing order.
   */
  function TradeRows(positions: seq<Option<int>>, from: nat): (rows: seq<nat>)
    requires from <= |positions|
    ensures forall k :: 0 <= k < |rows| ==> from <= rows[k] < |positions|
    ensures forall k, m :: 0 <= k < m < |rows| ==> rows[k] < rows[m]
    ensures forall i :: from <= i < |positions| ==> (i in rows <==> positions[i] == Some(1) || positions[i] == Some(-1))
    decreases |positions| - from
  {
    if from == |positions| then []
    else
      var rest := TradeRows(positions, from + 1);
      if positions[from] == Some(1) || positions[from] == Some(-1) then [from] + rest else rest
  }

  /** The body of the row loop: a buy spends all cash, a sell sells all stock, anything else does nothing. */
  method TradeRow(cash: real, stock: real, position: Option<int>, c: real) returns (cash': real, stock': real)
    requires c > 0.0
    ensures Holding(cash', stock') == TradeStep(Holding(cash, stock), position, c)
  {
    cash', stock' := cash, stock;
    if position == Some(1) {
      if cash' > 0.0 {
        stock' := cash' / c;
        cash' := 0.0;
      }
    } else if position == Some(-1) {
      if stock' > 0.0 {
        cash' := stock' * c;
        stock' := 0.0;
      }
    }
  }

  /**
   * `Trade`: walk the rows, converting on +1/-1 positions, record the
   * portfolio value of every row and return the rows whose position is +1 or
   * -1, in their original order.
   */
  method Trade(closes: seq<real>, positions: seq<Option<int>>, startingCapital: real)
    returns (portfolioValue: seq<real>, executed: seq<nat>)
    requires |closes| == |positions| && PricesPositive(closes)
    ensures |portfolioValue| == |closes|
    ensures forall i :: 0 <= i < |closes| ==>
      portfolioValue[i] == Valuation(HoldingAfter(startingCapital, positions, closes, i + 1), closes[i])
    ensures executed == TradeRows(positions, 0)
  {
    var cash, stock := startingCapital, 0.0;
    portfolioValue := [];
    var i := 0;
    while i < |closes|
      invariant 0 <= i <= |closes|
      invariant Holding(cash, stock) == HoldingAfter(startingCapital, positions, closes, i)
      invariant portfolioValue == ValueSeries(startingCapital, positions, closes, i)
    {
      cash, stock := TradeRow(cash, stock, positions[i], closes[i]);
      var value := cash + stock * closes[i];
      assert value == Valuation(HoldingAfter(startingCapital, positions, closes, i + 1), closes[i]);
      portfolioValue := portfolioValue + [value];
      i := i + 1;
    }
    ValueSeriesAt(startingCapital, positions, closes, |closes|);
    // the reported trades: every row whose position is +1 or -1
    executed := TradeRows(positions, 0);
  }

  /**
   * The rows the backtest reports alternate between buys and sells: the
   * position of each reported row is the negation of the previous one's.
   */
  lemma TradeRowsAlternate(levels: seq<int>)
    requires IsLevelSeries(levels)
    ensures var pos := Positions(levels);
      var rows := TradeRows(pos, 0);
      && (forall k :: 0 <= k < |rows| ==> rows[k] >= 1 && pos[rows[k]].Some?)
      && (forall k :: 0 <= k < |rows| ==> pos[rows[k]].value == 1 || pos[rows[k]].value == -1)
      && (forall k :: 0 <= k < |rows| - 1 ==> pos[rows[k + 1]].value == -pos[rows[k]].value)
  {
    var pos := Positions(levels);
    var rows := TradeRows(pos, 0);
    forall k | 0 <= k < |rows|
      ensures rows[k] >= 1 && pos[rows[k]].Some?
      ensures pos[rows[k]].value == 1 || pos[rows[k]].value == -1
    {
      assert rows[k] in rows;
    }
    forall k | 0 <= k < |rows| - 1
      ensures pos[rows[k + 1]].value == -pos[rows[k]].value
    {
      var i, j := rows[k], rows[k + 1];
      assert i in rows && j in rows;
      forall m | i < m < j
        ensures pos[m] == Some(0)
      {
        PositionValues(levels, m);
      }
      PositionsAlternate(levels, i, j);
    }
  }

  /** The position column the backtest trades on, from partial-window means of both lengths. */
  function BacktestPositions(closes: seq<real>, shortWindow: nat, longWindow: nat): (pos: seq<Option<int>>)
    requires shortWindow >= 1 && longWindow >= 1
    ensures |pos| == |closes|
  {
    Positions(Levels(PartialMovingAverage(closes, shortWindow), PartialMovingAverage(closes, longWindow)))
  }

  /**
   * The backtest pipeline: moving averages, signals, then the ledger. The
   * rows it reports as executed alternate between buys and sells.
   */
  method RunBacktest(closes: seq<real>, shortWindow: nat, longWindow: nat, startingCapital: real)
    returns (portfolioValue: seq<real>, executed: seq<nat>)
    requires shortWindow >= 1 && longWindow >= 1 && PricesPositive(closes)
    ensures var pos := BacktestPositions(closes, shortWindow, longWindow);
      && |portfolioValue| == |closes|
      && (forall i :: 0 <= i < |closes| ==>
            portfolioValue[i] == Valuation(HoldingAfter(startingCapital, pos, closes, i + 1), closes[i]))
      && (forall k :: 0 <= k < |executed| ==> executed[k] < |closes| && pos[executed[k]].Some?)
      && (forall k :: 0 <= k < |executed| ==> pos[executed[k]].value == 1 || pos[executed[k]].value == -1)
      && (forall k :: 0 <= k < |executed| - 1 ==> pos[executed[k + 1]].value == -pos[executed[k]].value)
    ensures executed == TradeRows(BacktestPositions(closes, shortWindow, longWindow), 0)
  {
    var shortMavg := PartialMovingAverage(closes, shortWindow);
    var longMavg := PartialMovingAverage(closes, longWindow);
    var levels := Levels(shortMavg, longMavg);
    var pos := Positions(levels);
    portfolioValue, executed := Trade(closes, pos, startingCapital);
    TradeRowsAlternate(levels);
  }
}
