/**
 * The streaming bot's fractional, leveraged ledger.
 *
 * On a buy it spends a fixed fraction of the USD balance and credits
 * (spend / close) * leverage BTC; on a sell it sells a fixed fraction of the
 * BTC balance and credits (sold * close) * leverage USD. The earlier variant
 * trades on every nonzero crossover; the later one debounces through the last
 * executed signal, so two signals in the same direction trade once.
 */
module Ledger {
  import opened Indicators
  import opened Signals

  /** The trade parameters: buy and sell fractions and the leverage. */
  datatype Sizing = Sizing(buyPct: real, sellPct: real, leverage: real)

  predicate SaneSizing(s: Sizing)
  {
    0.0 <= s.buyPct <= 1.0 && 0.0 <= s.sellPct <= 1.0 && s.leverage >= 0.0
  }

  datatype Balances = Balances(usd: real, btc: real)

  predicate NonNegative(b: Balances)
  {
    b.usd >= 0.0 && b.btc >= 0.0
  }

  /** `usd + btc * close`, the `total_portfolio_value` of a row. */
  function Total(b: Balances, c: real): real
  {
    b.usd + b.btc * c
  }

  /** The two columns of a row the ledger reads: its close and its crossover. */
  datatype Row = Row(close: real, cross: int)

  /** The three values a row's ledger call returns: USD, BTC and their total at the row's close. */
  datatype RowBalance = RowBalance(usd: real, btc: real, total: real)

  function Snapshot(b: Balances, c: real): (r: RowBalance)
    ensures r.total == r.usd + r.btc * c
  {
    RowBalance(b.usd, b.btc, Total(b, c))
  }

  predicate RowPricesPositive(rows: seq<Row>)
  {
    forall i :: 0 <= i < |rows| ==> rows[i].close > 0.0
  }

  /** The rows of a frame: each close with its crossover. */
  function CrossRows(closes: seq<real>, shortPeriod: nat, longPeriod: nat): (rows: seq<Row>)
    requires shortPeriod >= 1 && longPeriod >= 1
    ensures |rows| == |closes|
    ensures forall i :: 0 <= i < |rows| ==>
      rows[i].close == closes[i] && (rows[i].cross == 1 || rows[i].cross == 0 || rows[i].cross == -1)
  {
    var cross := MaCrossover(closes, shortPeriod, longPeriod);
    seq(|closes|, i requires 0 <= i < |closes| => Row(closes[i], cross[i]))
  }

  /**
   * After a new close, the recomputed rows begin with the rows the ledger saw
   * before, so replaying the ledger over the frame meets every earlier
   * crossover again.
   */
  lemma CrossRowsAppend(closes: seq<real>, c: real, shortPeriod: nat, longPeriod: nat)
    requires shortPeriod >= 1 && longPeriod >= 1
    ensures var rows := CrossRows(closes + [c], shortPeriod, longPeriod);
      && |rows| == |closes| + 1
      && rows[..|closes|] == CrossRows(closes, shortPeriod, longPeriod)
      && rows[|closes|].close == c
  {
    CrossoverAppend(closes, c, shortPeriod, longPeriod);
    var ext := MaCrossover(closes + [c], shortPeriod, longPeriod);
    forall i | 0 <= i < |closes|
      ensures ext[i] == MaCrossover(closes, shortPeriod, longPeriod)[i]
    {
      assert ext[..|closes|][i] == ext[i];
    }
  }

  /** A fraction in [0, 1] of a non-negative amount is non-negative and at most the amount. */
  lemma FractionOf(x: real, p: real)
    requires x >= 0.0 && 0.0 <= p <= 1.0
    ensures 0.0 <= x * p <= x
  {
    assert x * p <= x * 1.0;
  }

  lemma NonNegativeProduct(x: real, y: real)
    requires x >= 0.0 && y >= 0.0
    ensures x * y >= 0.0
  {
  }

  lemma QuotientTimesDivisor(x: real, c: real)
    requires c > 0.0
    ensures (x / c) * c == x
    ensures x >= 0.0 ==> x / c >= 0.0
  {
  }

  /**
   * A buy: spend the buy fraction of the USD balance. Balances stay
   * non-negative for sane sizing, the USD balance never grows, and with
   * leverage 1 the total at the trade price is unchanged.
   */
  function Buy(b: Balances, s: Sizing, c: real): (r: Balances)
    requires c > 0.0
    ensures SaneSizing(s) && NonNegative(b) ==> NonNegative(r) && r.usd <= b.usd && r.btc >= b.btc
    ensures s.leverage == 1.0 ==> Total(r, c) == Total(b, c)
  {
    var spend := b.usd * s.buyPct;
    var bought := (spend / c) * s.leverage;
    BuyFacts(b, s, c, spend, bought);
    Balances(b.usd - spend, b.btc + bought)
  }

  lemma BuyFacts(b: Balances, s: Sizing, c: real, spend: real, bought: real)
    requires c > 0.0 && spend == b.usd * s.buyPct && bought == (spend / c) * s.leverage
    ensures SaneSizing(s) && NonNegative(b) ==> 0.0 <= spend <= b.usd && bought >= 0.0
    ensures s.leverage == 1.0 ==> (b.usd - spend) + (b.btc + bought) * c == b.usd + b.btc * c
  {
    if SaneSizing(s) && NonNegative(b) {
      BuyNonNegative(b.usd, s.buyPct, spend, c, s.leverage, bought);
    }
    if s.leverage == 1.0 {
      BuyConserves(b.usd, b.btc, spend, c);
    }
  }

  lemma BuyNonNegative(usd: real, pct: real, spend: real, c: real, leverage: real, bought: real)
    requires usd >= 0.0 && 0.0 <= pct <= 1.0 && c > 0.0 && leverage >= 0.0
    requires spend == usd * pct && bought == (spend / c) * leverage
    ensures 0.0 <= spend <= usd && bought >= 0.0
  {
    FractionOf(usd, pct);
    QuotientTimesDivisor(spend, c);
    NonNegativeProduct(spend / c, leverage);
  }

  lemma BuyConserves(usd: real, btc: real, spend: real, c: real)
    requires c > 0.0
    ensures (usd - spend) + (btc + (spend / c) * 1.0) * c == usd + btc * c
  {
    var q := spend / c;
    QuotientTimesDivisor(spend, c);
    assert q * c == spend;
    assert (btc + q * 1.0) * c == btc * c + q * c;
  }

  /**
   * A sell: sell the sell fraction of the BTC balance. Balances stay
   * non-negative for sane sizing, the BTC balance never grows, and with
   * leverage 1 the total at the trade price is unchanged.
   */
  function Sell(b: Balances, s: Sizing, c: real): (r: Balances)
    requires c > 0.0
    ensures SaneSizing(s) && NonNegative(b) ==> NonNegative(r) && r.btc <= b.btc && r.usd >= b.usd
    ensures s.leverage == 1.0 ==> Total(r, c) == Total(b, c)
  {
    var sold := b.btc * s.sellPct;
    var earned := (sold * c) * s.leverage;
    SellFacts(b, s, c, sold, earned);
    Balances(b.usd + earned, b.btc - sold)
  }

  lemma SellFacts(b: Balances, s: Sizing, c: real, sold: real, earned: real)
    requires c > 0.0 && sold == b.btc * s.sellPct && earned == (sold * c) * s.leverage
    ensures SaneSizing(s) && NonNegative(b) ==> 0.0 <= sold <= b.btc && earned >= 0.0
    ensures s.leverage == 1.0 ==> (b.usd + earned) + (b.btc - sold) * c == b.usd + b.btc * c
  {
    if SaneSizing(s) && NonNegative(b) {
      FractionOf(b.btc, s.sellPct);
      NonNegativeProduct(sold, c);
      NonNegativeProduct(sold * c, s.leverage);
    }
    if s.leverage == 1.0 {
      SellConserves(b.usd, b.btc, sold, c);
    }
  }

  lemma SellConserves(usd: real, btc: real, sold: real, c: real)
    ensures (usd + (sold * c) * 1.0) + (btc - sold) * c == usd + btc * c
  {
    assert (btc - sold) * c == btc * c - sold * c;
  }

  /** One row without debounce: +1 buys, -1 sells, anything else changes nothing. */
  function CrossStep(b: Balances, s: Sizing, row: Row): (r: Balances)
    requires row.close > 0.0
    ensures row.cross != 1 && row.cross != -1 ==> r == b
  {
    if row.cross == 1 then Buy(b, s, row.close)
    else if row.cross == -1 then Sell(b, s, row.close)
    else b
  }

  /** The balances after every row of `rows`, trading on every nonzero crossover. */
  function EveryCrossRun(b: Balances, s: Sizing, rows: seq<Row>): Balances
    requires RowPricesPositive(rows)
  {
    if rows == [] then b
    else CrossStep(EveryCrossRun(b, s, rows[..|rows| - 1]), s, rows[|rows| - 1])
  }

  /** The frame `apply` builds without debounce: one snapshot per row, after that row's trade. */
  function EveryCrossFrame(b: Balances, s: Sizing, rows: seq<Row>): seq<RowBalance>
    requires RowPricesPositive(rows)
  {
    if rows == [] then []
    else
      EveryCrossFrame(b, s, rows[..|rows| - 1])
        + [Snapshot(EveryCrossRun(b, s, rows), rows[|rows| - 1].close)]
  }

  /** Row i of the frame holds the balances after rows 0..i, valued at row i's close. */
  lemma {:induction false} EveryCrossFrameAt(b: Balances, s: Sizing, rows: seq<Row>)
    requires RowPricesPositive(rows)
    ensures |EveryCrossFrame(b, s, rows)| == |rows|
    ensures forall i :: 0 <= i < |rows| ==>
      EveryCrossFrame(b, s, rows)[i] == Snapshot(EveryCrossRun(b, s, rows[..i + 1]), rows[i].close)
  {
    if rows != [] {
      var pre := rows[..|rows| - 1];
      EveryCrossFrameAt(b, s, pre);
      forall i | 0 <= i < |pre|
        ensures EveryCrossFrame(b, s, rows)[i] == Snapshot(EveryCrossRun(b, s, rows[..i + 1]), rows[i].close)
      {
        assert pre[..i + 1] == rows[..i + 1];
      }
      assert rows[..|rows|] == rows;
    }
  }

  /** With sane sizing and positive prices the balances never go negative. */
  lemma {:induction false} EveryCrossRunNonNegative(b: Balances, s: Sizing, rows: seq<Row>)
    requires RowPricesPositive(rows) && SaneSizing(s) && NonNegative(b)
    ensures NonNegative(EveryCrossRun(b, s, rows))
  {
    if rows != [] {
      EveryCrossRunNonNegative(b, s, rows[..|rows| - 1]);
    }
  }

  /** Rows without a crossover leave the balances exactly as they were. */
  lemma {:induction false} EveryCrossRunQuiet(b: Balances, s: Sizing, rows: seq<Row>)
    requires RowPricesPositive(rows)
    requires forall i :: 0 <= i < |rows| ==> rows[i].cross == 0
    ensures EveryCrossRun(b, s, rows) == b
  {
    if rows != [] {
      EveryCrossRunQuiet(b, s, rows[..|rows| - 1]);
    }
  }

  function Pow(x: real, n: nat): real
  {
    if n == 0 then 1.0 else Pow(x, n - 1) * x
  }

  /** The number of rows whose crossover is +1. */
  function BuySignals(rows: seq<Row>): nat
  {
    if rows == [] then 0
    else BuySignals(rows[..|rows| - 1]) + (if rows[|rows| - 1].cross == 1 then 1 else 0)
  }

  /**
   * No debounce: every +1 row buys again, even with only 0 rows between
   * them, so after k such rows the USD balance has been reduced by the buy
   * fraction k times.
   */
  lemma {:induction false} EveryCrossBuysOnEveryRow(b: Balances, s: Sizing, rows: seq<Row>)
    requires RowPricesPositive(rows)
    requires forall i :: 0 <= i < |rows| ==> rows[i].cross == 0 || rows[i].cross == 1
    ensures EveryCrossRun(b, s, rows).usd == Remaining(b.usd, s.buyPct, BuySignals(rows))
  {
    if rows != [] {
      EveryCrossBuysOnEveryRow(b, s, rows[..|rows| - 1]);
      EveryCrossRunStep(b, s, rows);
    } else {
      assert BuySignals(rows) == 0 && Pow(1.0 - s.buyPct, 0) == 1.0;
      assert EveryCrossRun(b, s, rows) == b;
    }
  }

  /** The USD left from usd after k buys, each spending the fraction buyPct of what is left. */
  function Remaining(usd: real, buyPct: real, k: nat): real
  {
    usd * Pow(1.0 - buyPct, k)
  }

  /** The undebounced run over rows is its run over all but the last row, followed by one more step. */
  lemma {:induction false} EveryCrossRunStep(b: Balances, s: Sizing, rows: seq<Row>)
    requires RowPricesPositive(rows) && |rows| > 0
    requires rows[|rows| - 1].cross == 0 || rows[|rows| - 1].cross == 1
    requires EveryCrossRun(b, s, rows[..|rows| - 1]).usd == Remaining(b.usd, s.buyPct, BuySignals(rows[..|rows| - 1]))
    ensures EveryCrossRun(b, s, rows).usd == Remaining(b.usd, s.buyPct, BuySignals(rows))
  {
    var pre, row := rows[..|rows| - 1], rows[|rows| - 1];
    BuySignalStep(EveryCrossRun(b, s, pre), EveryCrossRun(b, s, rows), s, row, b.usd, BuySignals(pre), BuySignals(rows));
  }

  /** One more row of the undebounced run: a +1 spends the buy fraction once more, a 0 changes nothing. */
  lemma {:induction false} BuySignalStep(before: Balances, after: Balances, s: Sizing, row: Row, a: real, k: nat, k': nat)
    requires row.close > 0.0 && (row.cross == 0 || row.cross == 1)
    requires after == CrossStep(before, s, row)
    requires before.usd == Remaining(a, s.buyPct, k)
    requires k' == k + (if row.cross == 1 then 1 else 0)
    ensures after.usd == Remaining(a, s.buyPct, k')
  {
    if row.cross == 1 {
      BuyFromPower(before, s, row.close, a, k);
    }
  }

  /** A buy from a USD balance of a * (1 - buy_pct)^k leaves a * (1 - buy_pct)^(k+1). */
  lemma {:induction false} BuyFromPower(before: Balances, s: Sizing, c: real, a: real, k: nat)
    requires c > 0.0 && before.usd == Remaining(a, s.buyPct, k)
    ensures Buy(before, s, c).usd == Remaining(a, s.buyPct, k + 1)
  {
    BuyUsd(before, s, c);
    SpendStep(before.usd, a, Pow(1.0 - s.buyPct, k), Pow(1.0 - s.buyPct, k + 1), s.buyPct, Buy(before, s, c).usd);
  }

  lemma BuyUsd(b: Balances, s: Sizing, c: real)
    requires c > 0.0
    ensures Buy(b, s, c).usd == b.usd - b.usd * s.buyPct
  {
  }

  /** Spending the fraction p of u = a * q leaves a * q', where q' = q * (1 - p). */
  lemma SpendStep(u: real, a: real, q: real, q': real, p: real, r: real)
    requires u == a * q && r == u - u * p && q' == q * (1.0 - p)
    ensures r == a * q'
  {
    assert a * (q * (1.0 - p)) == a * q - (a * q) * p;
  }

  /** The debounced ledger's state: balances and the direction of the last executed trade. */
  datatype LedgerState = LedgerState(balances: Balances, lastTradeSignal: int)

  predicate IsSignal(x: int)
  {
    x == 1 || x == 0 || x == -1
  }

  /** A crossover fires a trade when it is a buy or a sell that differs from the last executed one. */
  predicate Fires(lastTradeSignal: int, cross: int)
  {
    (cross == 1 || cross == -1) && cross != lastTradeSignal
  }

  predicate Trades(st: LedgerState, row: Row)
  {
    Fires(st.lastTradeSignal, row.cross)
  }

  /** One row with debounce; an executed trade records its direction. */
  function DebouncedStep(st: LedgerState, s: Sizing, row: Row): (r: LedgerState)
    requires row.close > 0.0
    ensures !Trades(st, row) ==> r == st
    ensures Trades(st, row) ==> r.lastTradeSignal == row.cross
    ensures IsSignal(st.lastTradeSignal) ==> IsSignal(r.lastTradeSignal)
  {
    if Trades(st, row) then LedgerState(CrossStep(st.balances, s, row), row.cross) else st
  }

  function DebouncedRun(st: LedgerState, s: Sizing, rows: seq<Row>): LedgerState
    requires RowPricesPositive(rows)
  {
    if rows == [] then st
    else DebouncedStep(DebouncedRun(st, s, rows[..|rows| - 1]), s, rows[|rows| - 1])
  }

  /** The frame `apply` builds with debounce: one snapshot per row, after that row's step. */
  function DebouncedFrame(st: LedgerState, s: Sizing, rows: seq<Row>): seq<RowBalance>
    requires RowPricesPositive(rows)
  {
    if rows == [] then []
    else
      DebouncedFrame(st, s, rows[..|rows| - 1])
        + [Snapshot(DebouncedRun(st, s, rows).balances, rows[|rows| - 1].close)]
  }

  /** Row i of the frame holds the balances after rows 0..i, valued at row i's close. */
  lemma {:induction false} DebouncedFrameAt(st: LedgerState, s: Sizing, rows: seq<Row>)
    requires RowPricesPositive(rows)
    ensures |DebouncedFrame(st, s, rows)| == |rows|
    ensures forall i :: 0 <= i < |rows| ==>
      DebouncedFrame(st, s, rows)[i] == Snapshot(DebouncedRun(st, s, rows[..i + 1]).balances, rows[i].close)
  {
    if rows != [] {
      var pre := rows[..|rows| - 1];
      DebouncedFrameAt(st, s, pre);
      forall i | 0 <= i < |pre|
        ensures DebouncedFrame(st, s, rows)[i] == Snapshot(DebouncedRun(st, s, rows[..i + 1]).balances, rows[i].close)
      {
        assert pre[..i + 1] == rows[..i + 1];
      }
      assert rows[..|rows|] == rows;
    }
  }

  /** The debounce memory after `rows`: it follows the crossovers that fire and ignores the rest. */
  function LastSignalAfter(lastTradeSignal: int, rows: seq<Row>): int
  {
    if rows == [] then lastTradeSignal
    else
      var before := LastSignalAfter(lastTradeSignal, rows[..|rows| - 1]);
      var cross := rows[|rows| - 1].cross;
      if Fires(before, cross) then cross else before
  }

  /** The directions of the trades the debounced ledger executes over `rows`, in order. */
  function Executed(lastTradeSignal: int, rows: seq<Row>): seq<int>
  {
    if rows == [] then []
    else
      var pre := rows[..|rows| - 1];
      var cross := rows[|rows| - 1].cross;
      Executed(lastTradeSignal, pre) + (if Fires(LastSignalAfter(lastTradeSignal, pre), cross) then [cross] else [])
  }

  /** The debounced ledger's memory evolves as `LastSignalAfter`, whatever the balances and prices. */
  lemma {:induction false} DebouncedRunMemory(st: LedgerState, s: Sizing, rows: seq<Row>)
    requires RowPricesPositive(rows)
    ensures DebouncedRun(st, s, rows).lastTradeSignal == LastSignalAfter(st.lastTradeSignal, rows)
  {
    if rows != [] {
      DebouncedRunMemory(st, s, rows[..|rows| - 1]);
    }
  }

  /**
   * With sane sizing and positive prices the balances never go negative, and
   * the last trade signal stays in {-1, 0, 1}.
   */
  lemma {:induction false} DebouncedRunInvariant(st: LedgerState, s: Sizing, rows: seq<Row>)
    requires RowPricesPositive(rows) && IsSignal(st.lastTradeSignal)
    ensures IsSignal(DebouncedRun(st, s, rows).lastTradeSignal)
    ensures SaneSizing(s) && NonNegative(st.balances) ==> NonNegative(DebouncedRun(st, s, rows).balances)
  {
    if rows != [] {
      DebouncedRunInvariant(st, s, rows[..|rows| - 1]);
    }
  }

  /** Rows without a crossover leave balances and debounce memory untouched. */
  lemma {:induction false} DebouncedRunQuiet(st: LedgerState, s: Sizing, rows: seq<Row>)
    requires RowPricesPositive(rows)
    requires forall i :: 0 <= i < |rows| ==> rows[i].cross == 0
    ensures DebouncedRun(st, s, rows) == st
    ensures Executed(st.lastTradeSignal, rows) == []
  {
    if rows != [] {
      DebouncedRunQuiet(st, s, rows[..|rows| - 1]);
    }
  }

  /**
   * Executed trades alternate: each is a buy or a sell, the first differs from
   * the initial debounce memory, each later one is the opposite of the one
   * before, and the memory afterwards is the last executed direction.
   */
  lemma {:induction false} ExecutedAlternate(lastTradeSignal: int, rows: seq<Row>)
    ensures var e := Executed(lastTradeSignal, rows);
      && (forall k :: 0 <= k < |e| ==> e[k] == 1 || e[k] == -1)
      && (|e| > 0 ==> e[0] != lastTradeSignal)
      && (forall k :: 0 < k < |e| ==> e[k] == -e[k - 1])
      && LastSignalAfter(lastTradeSignal, rows) == (if |e| == 0 then lastTradeSignal else e[|e| - 1])
  {
    if rows != [] {
      ExecutedAlternate(lastTradeSignal, rows[..|rows| - 1]);
    }
  }

  /** Some row of `rows` carries crossover `x`. */
  predicate Occurs(rows: seq<Row>, x: int)
  {
    exists i :: 0 <= i < |rows| && rows[i].cross == x
  }

  /** Every executed direction is the crossover of some row. */
  lemma {:induction false} ExecutedFromRows(lastTradeSignal: int, rows: seq<Row>)
    ensures forall k :: 0 <= k < |Executed(lastTradeSignal, rows)| ==> Occurs(rows, Executed(lastTradeSignal, rows)[k])
  {
    if rows != [] {
      var n := |rows| - 1;
      var pre := rows[..n];
      ExecutedFromRows(lastTradeSignal, pre);
      var e, ePre := Executed(lastTradeSignal, rows), Executed(lastTradeSignal, pre);
      forall k | 0 <= k < |e|
        ensures Occurs(rows, e[k])
      {
        if k < |ePre| {
          var i :| 0 <= i < |pre| && pre[i].cross == ePre[k];
          assert rows[i].cross == e[k];
        } else {
          assert rows[n].cross == e[k];
        }
      }
    }
  }

  /** Rows without a crossover neither trade nor change the debounce memory. */
  lemma {:induction false} QuietMemory(lastTradeSignal: int, rows: seq<Row>)
    requires forall i :: 0 <= i < |rows| ==> rows[i].cross == 0
    ensures LastSignalAfter(lastTradeSignal, rows) == lastTradeSignal
    ensures Executed(lastTradeSignal, rows) == []
  {
    if rows != [] {
      QuietMemory(lastTradeSignal, rows[..|rows| - 1]);
    }
  }

  /**
   * Debounce: repeated signals in one direction with no opposite signal
   * between them execute at most one trade, and exactly one when the
   * direction is a buy or a sell that the memory does not already hold and
   * at least one such signal occurs.
   */
  lemma {:induction false} RepeatedSignalTradesOnce(lastTradeSignal: int, rows: seq<Row>, x: int)
    requires forall i :: 0 <= i < |rows| ==> rows[i].cross == 0 || rows[i].cross == x
    ensures |Executed(lastTradeSignal, rows)| <= 1
    ensures (x == 1 || x == -1) && lastTradeSignal != x && Occurs(rows, x) ==>
      Executed(lastTradeSignal, rows) == [x]
  {
    if rows != [] {
      var n := |rows| - 1;
      var pre := rows[..n];
      RepeatedSignalTradesOnce(lastTradeSignal, pre, x);
      var ePre := Executed(lastTradeSignal, pre);
      if |ePre| == 1 {
        // the one trade so far was an x, so the memory now blocks every further x
        ExecutedAlternate(lastTradeSignal, pre);
        ExecutedFromRows(lastTradeSignal, pre);
        var i :| 0 <= i < |pre| && pre[i].cross == ePre[0];
        assert LastSignalAfter(lastTradeSignal, pre) == x;
      } else if !Occurs(pre, x) {
        // everything before the last row was quiet
        QuietMemory(lastTradeSignal, pre);
        if Occurs(rows, x) {
          var j :| 0 <= j < |rows| && rows[j].cross == x;
          assert j == n;
        }
      }
    }
  }

  /**
   * `Executed` lists exactly the trades the debounced ledger makes: the last
   * row adds its crossover precisely when the run up to it trades on that row.
   */
  lemma ExecutedMatchesRun(st: LedgerState, s: Sizing, rows: seq<Row>)
    requires RowPricesPositive(rows) && |rows| > 0
    ensures var pre := rows[..|rows| - 1];
      var row := rows[|rows| - 1];
      Executed(st.lastTradeSignal, rows)
        == Executed(st.lastTradeSignal, pre) + (if Trades(DebouncedRun(st, s, pre), row) then [row.cross] else [])
  {
    DebouncedRunMemory(st, s, rows[..|rows| - 1]);
  }

  /**
   * Contrast with the undebounced run: a stretch of +1 rows that starts
   * after anything but a buy buys exactly once, at the first row's close.
   */
  lemma {:induction false} DebouncedBuysOnce(st: LedgerState, s: Sizing, rows: seq<Row>)
    requires RowPricesPositive(rows) && |rows| > 0 && st.lastTradeSignal != 1
    requires forall i :: 0 <= i < |rows| ==> rows[i].cross == 1
    ensures DebouncedRun(st, s, rows) == LedgerState(Buy(st.balances, s, rows[0].close), 1)
  {
    if |rows| > 1 {
      var pre := rows[..|rows| - 1];
      DebouncedBuysOnce(st, s, pre);
    } else {
      assert rows[..0] == [];
    }
  }

  /**
   * `calculate_portfolio_balance` without debounce: the USD and BTC balances
   * are the variant's module-level state, updated row by row.
   */
  class EveryCrossLedger {
    var usd: real
    var btc: real
    const sizing: Sizing

    function Balance(): Balances
      reads this
    {
      Balances(usd, btc)
    }

    constructor (usd: real, btc: real, sizing: Sizing)
      ensures Balance() == Balances(usd, btc) && this.sizing == sizing
    {
      this.usd := usd;
      this.btc := btc;
      this.sizing := sizing;
    }

    method CalculatePortfolioBalance(row: Row) returns (result: RowBalance)
      requires row.close > 0.0
      modifies this
      ensures Balance() == CrossStep(old(Balance()), sizing, row)
      ensures result == Snapshot(Balance(), row.close)
    {
      if row.cross == 1 {
        ExecuteBuy(row.close);
      } else if row.cross == -1 {
        ExecuteSell(row.close);
      }
      result := CurrentRow(row.close);
    }

    /** The row's returned values: both balances and their total at `close`. */
    method CurrentRow(close: real) returns (result: RowBalance)
      ensures result == Snapshot(Balance(), close)
    {
      result := RowBalance(usd, btc, usd + btc * close);
    }

    /** The buy branch: spend the buy fraction of USD on leveraged BTC at `close`. */
    method ExecuteBuy(close: real)
      requires close > 0.0
      modifies this
      ensures Balance() == Buy(old(Balance()), sizing, close)
    {
      var buyAmountUsd := usd * sizing.buyPct;
      var btcBought := (buyAmountUsd / close) * sizing.leverage;
      usd := usd - buyAmountUsd;
      btc := btc + btcBought;
    }

    /** The sell branch: sell the sell fraction of BTC for leveraged USD at `close`. */
    method ExecuteSell(close: real)
      requires close > 0.0
      modifies this
      ensures Balance() == Sell(old(Balance()), sizing, close)
    {
      var btcSold := btc * sizing.sellPct;
      var usdEarned := (btcSold * close) * sizing.leverage;
      usd := usd + usdEarned;
      btc := btc - btcSold;
    }

    /** `df.apply(calculate_portfolio_balance, axis=1)`: one call per row, in order. */
    method ApplyRows(rows: seq<Row>) returns (frame: seq<RowBalance>)
      requires RowPricesPositive(rows)
      modifies this
      ensures Balance() == EveryCrossRun(old(Balance()), sizing, rows)
      ensures frame == EveryCrossFrame(old(Balance()), sizing, rows)
      ensures |frame| == |rows|
      ensures forall i :: 0 <= i < |rows| ==>
        frame[i] == Snapshot(EveryCrossRun(old(Balance()), sizing, rows[..i + 1]), rows[i].close)
    {
      frame := [];
      var i := 0;
      while i < |rows|
        invariant 0 <= i <= |rows|
        invariant Balance() == EveryCrossRun(old(Balance()), sizing, rows[..i])
        invariant frame == EveryCrossFrame(old(Balance()), sizing, rows[..i])
      {
        assert rows[..i + 1][..i] == rows[..i];
        var result := CalculatePortfolioBalance(rows[i]);
        frame := frame + [result];
        i := i + 1;
      }
      assert rows[..|rows|] == rows;
      EveryCrossFrameAt(old(Balance()), sizing, rows);
    }

    /**
     * `on_message`: the candle's close is appended to the frame's closes, the
     * crossover column is recomputed over the whole frame and the ledger is
     * applied to every row again, continuing from the current balances.
     */
    method OnMessage(closes: seq<real>, c: real, shortPeriod: nat, longPeriod: nat)
      returns (closes': seq<real>, frame: seq<RowBalance>)
      requires shortPeriod >= 1 && longPeriod >= 1 && PricesPositive(closes) && c > 0.0
      modifies this
      ensures closes' == closes + [c]
      ensures var rows := CrossRows(closes', shortPeriod, longPeriod);
        && Balance() == EveryCrossRun(old(Balance()), sizing, rows)
        && frame == EveryCrossFrame(old(Balance()), sizing, rows)
    {
      closes' := closes + [c];
      var rows := CrossRows(closes', shortPeriod, longPeriod);
      frame := ApplyRows(rows);
    }
  }

  /**
   * `calculate_portfolio_balance` with debounce: balances plus the last
   * executed signal, reset to 0 when the connection opens.
   */
  class DebouncedLedger {
    var usd: real
    var btc: real
    var lastTradeSignal: int
    const sizing: Sizing

    ghost predicate Valid()
      reads this
    {
      IsSignal(lastTradeSignal)
    }

    function State(): LedgerState
      reads this
    {
      LedgerState(Balances(usd, btc), lastTradeSignal)
    }

    constructor (usd: real, btc: real, sizing: Sizing)
      ensures Valid() && State() == LedgerState(Balances(usd, btc), 0) && this.sizing == sizing
    {
      this.usd := usd;
      this.btc := btc;
      this.lastTradeSignal := 0;
      this.sizing := sizing;
    }

    /** `on_open`: forget the last trade direction; the balances carry over. */
    method OnOpen()
      modifies this
      ensures Valid() && State() == LedgerState(old(State()).balances, 0)
    {
      lastTradeSignal := 0;
    }

    method CalculatePortfolioBalance(row: Row) returns (result: RowBalance)
      requires Valid() && row.close > 0.0
      modifies this
      ensures Valid()
      ensures State() == DebouncedStep(old(State()), sizing, row)
      ensures result == Snapshot(State().balances, row.close)
    {
      ghost var before := State();
      var currentSignal := row.cross;
      if (currentSignal == 1 || currentSignal == -1) && currentSignal != lastTradeSignal {
        if currentSignal == 1 {
          ExecuteBuy(row.close);
        } else if currentSignal == -1 {
          ExecuteSell(row.close);
        }
        lastTradeSignal := currentSignal;
        assert State() == LedgerState(CrossStep(before.balances, sizing, row), row.cross);
      } else {
        assert !Trades(before, row);
      }
      result := CurrentRow(row.close);
    }

    /** The row's returned values: both balances and their total at `close`. */
    method CurrentRow(close: real) returns (result: RowBalance)
      ensures result == Snapshot(State().balances, close)
    {
      result := RowBalance(usd, btc, usd + btc * close);
    }

    /** The buy branch: spend the buy fraction of USD on leveraged BTC at `close`. */
    method ExecuteBuy(close: real)
      requires close > 0.0
      modifies this
      ensures State() == LedgerState(Buy(old(State()).balances, sizing, close), old(lastTradeSignal))
    {
      var buyAmountUsd := usd * sizing.buyPct;
      var btcBought := (buyAmountUsd / close) * sizing.leverage;
      usd := usd - buyAmountUsd;
      btc := btc + btcBought;
    }

    /** The sell branch: sell the sell fraction of BTC for leveraged USD at `close`. */
    method ExecuteSell(close: real)
      requires close > 0.0
      modifies this
      ensures State() == LedgerState(Sell(old(State()).balances, sizing, close), old(lastTradeSignal))
    {
      var btcSold := btc * sizing.sellPct;
      var usdEarned := (btcSold * close) * sizing.leverage;
      usd := usd + usdEarned;
      btc := btc - btcSold;
    }

    /** `df.apply(calculate_portfolio_balance, axis=1)`: one call per row, in order. */
    method ApplyRows(rows: seq<Row>) returns (frame: seq<RowBalance>)
      requires Valid() && RowPricesPositive(rows)
      modifies this
      ensures Valid()
      ensures State() == DebouncedRun(old(State()), sizing, rows)
      ensures frame == DebouncedFrame(old(State()), sizing, rows)
      ensures |frame| == |rows|
      ensures forall i :: 0 <= i < |rows| ==>
        frame[i] == Snapshot(DebouncedRun(old(State()), sizing, rows[..i + 1]).balances, rows[i].close)
    {
      frame := [];
      var i := 0;
      while i < |rows|
        invariant 0 <= i <= |rows|
        invariant Valid()
        invariant State() == DebouncedRun(old(State()), sizing, rows[..i])
        invariant frame == DebouncedFrame(old(State()), sizing, rows[..i])
      {
        assert rows[..i + 1][..i] == rows[..i];
        var result := CalculatePortfolioBalance(rows[i]);
        frame := frame + [result];
        i := i + 1;
      }
      assert rows[..|rows|] == rows;
      DebouncedFrameAt(old(State()), sizing, rows);
    }

    /**
     * `on_message`: the candle's close is appended to the frame's closes, the
     * crossover column is recomputed over the whole frame and the ledger is
     * applied to every row again, continuing from the current state.
     */
    method OnMessage(closes: seq<real>, c: real, shortPeriod: nat, longPeriod: nat)
      returns (closes': seq<real>, frame: seq<RowBalance>)
      requires Valid() && shortPeriod >= 1 && longPeriod >= 1 && PricesPositive(closes) && c > 0.0
      modifies this
      ensures Valid() && closes' == closes + [c]
      ensures var rows := CrossRows(closes', shortPeriod, longPeriod);
        && State() == DebouncedRun(old(State()), sizing, rows)
        && frame == DebouncedFrame(old(State()), sizing, rows)
    {
      closes' := closes + [c];
      var rows := CrossRows(closes', shortPeriod, longPeriod);
      frame := ApplyRows(rows);
    }
  }
}
