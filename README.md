# Moving-average crossover trading bot — Dafny model

This project models the core of a small crypto trading bot that turns a
series of candle closes into moving averages, crossover signals and a
simulated portfolio. The bot exists in several variants, and the model
covers each of them:

- **Backtest** (`simulated_trading_bot.py`). Partial-window rolling means (`min_periods=1`).
  A level signal (1 while the short mean is above the long mean) and its row-to-row difference
  give the position. A full-notional ledger converts all cash to stock on a +1 position and all
  stock to cash on a -1 position, records a portfolio value per row and returns the rows whose
  position is ±1.
- **Streaming variants** (`binance_ohlcv_v2.py` … `v5.py`). Full-window rolling means, undefined
  until `period` closes exist and rounded to 3 places. One column per configured period; the
  series is extended one close at a time and everything is recomputed. Then an edge crossover
  signal (+1 golden, -1 death, 0 otherwise). In v4 and v5, a fractional, leveraged ledger:
  v4 trades on every nonzero crossover, and v5 debounces through the last executed signal.

Prices are exact `real` numbers and are required to be positive. An undefined (NaN) cell is
`Option.None`. A comparison with an undefined side is false, as a column comparison is.
`Round3` is round-half-to-even at three decimal places on the exact mean.

Files:

- `wrappers.dfy`: the `Option` type.
- `indicators.dfy`: sums, means, windows, `Round3`, both rolling-mean variants, the
  per-period table of v2, the append-and-recompute step, the running-sum step law, and the
  incrementally maintained window sums with the proof that they agree with the direct sums.
- `signals.dfy`: the edge crossover, its column and pipeline, and level/position signals.
- `backtest.dfy`: the full-notional ledger (`Trade` is a method whose loop mutates cash and
  stock) and the backtest pipeline.
- `ledger.dfy`: buy and sell sizing, folds for both streaming ledgers, their lemmas, and one
  class per variant whose fields are the variant's module-level balances.

## Model

| member | source | states |
|---|---|---|
| `Indicators.Round3` | binance_ohlcv_v2.py:17-21 | the rounded mean is a multiple of 0.001 within 0.0005 of the exact mean |
| `Indicators.PartialMovingAverage` | simulated_trading_bot.py:44-45 | one value per row, defined from row 0 |
| `Indicators.PartialMovingAverageAt` | simulated_trading_bot.py:44-45 | the value at row i is the mean of the min(i+1, W) closes ending at row i, i.e. closes max(0, i-W+1)..i; it lies within any bounds of the closes, so positive prices give positive means |
| `Indicators.MovingAverage` | binance_ohlcv_v3.py:15-20 | same length as the closes; undefined exactly on rows 0..p-2 |
| `Indicators.MovingAverageAt` | binance_ohlcv_v4.py:18-23 | for i ≥ p-1 the value is defined and lies within 0.0005 of the exact mean of the p closes i-p+1..i, hence within 0.0005 of any bounds those closes respect (positive closes give means above -0.0005, and a window between lo and hi gives a mean between lo-0.0005 and hi+0.0005) |
| `Indicators.SlidingSum` | binance_ohlcv_v5.py:20-25 | moving a window one row forward adds the new close and drops the evicted one, so a running sum agrees with recomputing the window directly |
| `Indicators.RunningSumsAgree` | binance_ohlcv_v5.py:20-25 | the window sums maintained incrementally (start from the first close, then add each new close and drop the evicted one) equal the directly summed window on every row |
| `Indicators.MovingAverageFromRunningSums` | binance_ohlcv_v5.py:20-25 | every defined full-window mean is the rounded incrementally maintained sum divided by the period |
| `Indicators.MovingAverageAppend` | binance_ohlcv_v4.py:66-69 | appending a close and recomputing leaves every earlier mean, and its undefinedness, unchanged |
| `Indicators.MovingAverageTable` | binance_ohlcv_v2.py:12-22 | one column per listed period, keyed by the period; each is as long as the close series and undefined exactly on rows 0..p-2 |
| `Indicators.AppendAndRecompute` | binance_ohlcv_v2.py:39-46 | the new close is appended unaltered after the existing closes, and the table keeps one column per period |
| `Indicators.AppendKeepsTable` | binance_ohlcv_v2.py:39-46 | after an append each column is one row longer and its earlier rows equal the table before the append |
| `Signals.Cross` | binance_ohlcv_v3.py:31-40 | result in {-1,0,1}; 1 iff short > long and prev short ≤ prev long; -1 iff short < long and prev short ≥ prev long (the two masks are exclusive, so the -1 write never overwrites a 1); 0 when any of the four means is undefined and when the current means are equal |
| `Signals.CrossColumn` | binance_ohlcv_v4.py:31-38 | one signal per row, each in {-1,0,1}; row 0 (whose shifted means are undefined) is 0 |
| `Signals.MaCrossover` | binance_ohlcv_v3.py:22-40 | the crossover column has one entry per close |
| `Signals.CrossoverZeroUntilDefined` | binance_ohlcv_v5.py:33-40 | the crossover is 0 on every row before both the current and the previous short and long means are defined |
| `Signals.CrossIsEdgeTriggered` | binance_ohlcv_v5.py:36-38 | a +1 row is never followed by another +1 row, and a -1 row never by another -1 |
| `Signals.CrossoverAppend` | binance_ohlcv_v3.py:56-60 | appending a close and recomputing leaves the crossover of every earlier row unchanged |
| `Signals.Levels` | simulated_trading_bot.py:55 | each level is 0 or 1, and it is 1 exactly when short_mavg > long_mavg |
| `Signals.Positions` | simulated_trading_bot.py:56 | one position per row, undefined at row 0 and defined at every later row |
| `Signals.PositionValues` | simulated_trading_bot.py:55-56 | for 0/1 levels each defined position is in {-1,0,1}: +1 exactly where the level rises and -1 exactly where it falls |
| `Signals.PositionsAlternate` | simulated_trading_bot.py:55-56 | two nonzero positions with only zero positions between them have opposite signs |
| `Backtest.TradeStep` | simulated_trading_bot.py:71-78 | rows whose position is not ±1 (including the undefined row 0) change nothing; a +1 row with cash > 0 converts all of it to stock = cash/close, and with no cash changes nothing; a -1 row with stock > 0 converts all of it to cash = stock·close, and with no stock changes nothing |
| `Backtest.TradeStepPreserves` | simulated_trading_bot.py:71-79 | a step keeps balances non-negative; from an all-cash or all-stock holding it stays so, and cash + stock·close is unchanged at the trade price |
| `Backtest.TradeRow` | simulated_trading_bot.py:71-78 | the loop body's branch on one row moves cash and stock exactly as `TradeStep` says |
| `Backtest.HoldingAfterInvariant` | simulated_trading_bot.py:66-78 | starting from all cash, after every row cash = 0 or stock = 0, and both balances are non-negative when the starting capital is |
| `Backtest.ValuationConservedAtRow` | simulated_trading_bot.py:73-79 | the portfolio value at a row's close is the same before and after that row's trade |
| `Backtest.ValueSeriesAt` | simulated_trading_bot.py:79 | the value column has one entry per row, and entry i is cash + stock·close after row i's trade |
| `Backtest.TradeRows` | simulated_trading_bot.py:81 | the returned indices are strictly increasing and are exactly the rows whose position is 1 or -1 |
| `Backtest.Trade` | simulated_trading_bot.py:65-82 | the loop's portfolio_value at row i is the valuation after folding the rows 0..i, and the returned rows are those with position ±1, in order |
| `Backtest.TradeRowsAlternate` | simulated_trading_bot.py:71-81 | every returned row has position +1 or -1, and consecutive returned rows have opposite positions, so buys and sells alternate |
| `Backtest.RunBacktest` | simulated_trading_bot.py:119-121 | the whole pipeline values every row by the ledger fold; the rows it returns are exactly the rows whose position is ±1, in order, and they alternate between buy and sell |
| `Ledger.Buy` | binance_ohlcv_v4.py:43-46 | with fractions in [0,1], leverage ≥ 0 and a positive price, balances stay non-negative, USD does not grow and BTC does not shrink; with leverage 1 usd + btc·close is unchanged |
| `Ledger.Sell` | binance_ohlcv_v4.py:48-51 | under the same conditions balances stay non-negative, BTC does not grow and USD does not shrink; with leverage 1 the total at the trade price is unchanged |
| `Ledger.CrossStep` | binance_ohlcv_v4.py:42-52 | a row whose crossover is neither 1 nor -1 leaves both balances unchanged |
| `Ledger.Snapshot` | binance_ohlcv_v5.py:59 | the returned total is usd + btc·close |
| `Ledger.CrossRows` | binance_ohlcv_v5.py:73-75 | each row the ledger reads carries the frame's close and a crossover in {-1,0,1} |
| `Ledger.CrossRowsAppend` | binance_ohlcv_v4.py:66-69 | after a new close the recomputed rows are one longer, end with the new close and begin with exactly the rows before, so each replay meets the earlier crossovers again |
| `Ledger.EveryCrossRunNonNegative` | binance_ohlcv_v4.py:40-52 | over any rows with positive prices, sane sizing keeps both balances non-negative |
| `Ledger.EveryCrossRunQuiet` | binance_ohlcv_v4.py:42-52 | rows that never cross leave the balances exactly as initialised |
| `Ledger.EveryCrossBuysOnEveryRow` | binance_ohlcv_v4.py:42-46 | there is no debounce: over rows whose crossovers are 0 or +1 the USD balance ends at usd·(1-buy_pct)^k, k the number of +1 rows, so every +1 row buys even with only 0 rows between them |
| `Ledger.BuySignalStep` | binance_ohlcv_v4.py:42-46 | one row of the undebounced ledger: from a USD balance of a·(1-buy_pct)^k, a 0 row leaves it there and a +1 row takes it to a·(1-buy_pct)^(k+1) |
| `Ledger.EveryCrossRunStep` | binance_ohlcv_v4.py:42-46 | the undebounced run over rows is the run over all but the last row followed by one more step, so the USD left after k buys, usd·(1-buy_pct)^k, carries over one row |
| `Ledger.EveryCrossFrameAt` | binance_ohlcv_v4.py:71 | the frame `apply` builds has one triple per row, and row i's triple is the balances after rows 0..i with their total at row i's close |
| `Ledger.DebouncedStep` | binance_ohlcv_v5.py:46-57 | a row trades only when its signal is ±1 and differs from last_trade_signal, otherwise nothing changes; after a trade last_trade_signal is the executed signal and stays in {-1,0,1} |
| `Ledger.DebouncedRunMemory` | binance_ohlcv_v5.py:46-57 | last_trade_signal after any rows depends only on the crossovers: it follows each one that fires and ignores the rest, whatever the balances and prices |
| `Ledger.ExecutedMatchesRun` | binance_ohlcv_v5.py:46-57 | the trade list grows by the last row's crossover exactly when the debounced run up to that row trades on it, so it lists the trades the ledger makes |
| `Ledger.DebouncedFrameAt` | binance_ohlcv_v5.py:75 | the frame `apply` builds has one triple per row, and row i's triple is the balances after the debounced rows 0..i with their total at row i's close |
| `Ledger.DebouncedRunInvariant` | binance_ohlcv_v5.py:42-59 | over any rows, last_trade_signal stays in {-1,0,1}, and sane sizing keeps balances non-negative |
| `Ledger.DebouncedRunQuiet` | binance_ohlcv_v5.py:46 | rows that never cross execute no trade and leave balances and last_trade_signal unchanged |
| `Ledger.QuietMemory` | binance_ohlcv_v5.py:46 | rows that never cross leave last_trade_signal as it was and execute nothing |
| `Ledger.ExecutedAlternate` | binance_ohlcv_v5.py:46-57 | each executed trade is ±1; the first differs from the initial last_trade_signal; each later one is the opposite of the one before; and last_trade_signal ends as the last executed direction |
| `Ledger.ExecutedFromRows` | binance_ohlcv_v5.py:44-57 | every executed direction is the crossover of some row |
| `Ledger.RepeatedSignalTradesOnce` | binance_ohlcv_v5.py:46-57 | rows whose crossovers are all 0 or one direction x execute at most one trade; when x is ±1, differs from last_trade_signal and occurs at least once, they execute exactly the one trade x, however many x rows (with 0 rows between) there are |
| `Ledger.DebouncedBuysOnce` | binance_ohlcv_v5.py:46-51 | a run of +1 rows that starts after anything but a buy buys exactly once, at the first row's close, and leaves last_trade_signal = 1 |
| `Ledger.EveryCrossLedger.constructor` | binance_ohlcv_v4.py:8-12 | the ledger starts from the given USD and BTC balances and sizing |
| `Ledger.EveryCrossLedger.CalculatePortfolioBalance` | binance_ohlcv_v4.py:40-52 | the balances become the undebounced step of the old balances (so, by `Ledger.Buy` and `Ledger.Sell`, sane sizing keeps them non-negative); the returned triple is (usd, btc, usd + btc·close) |
| `Ledger.EveryCrossLedger.ExecuteBuy` | binance_ohlcv_v4.py:43-46 | the buy branch leaves the balances that `Ledger.Buy` gives for the old balances |
| `Ledger.EveryCrossLedger.ExecuteSell` | binance_ohlcv_v4.py:48-51 | the sell branch leaves the balances that `Ledger.Sell` gives for the old balances |
| `Ledger.EveryCrossLedger.CurrentRow` | binance_ohlcv_v4.py:52 | the returned triple is the current USD and BTC balances and usd + btc·close |
| `Ledger.EveryCrossLedger.ApplyRows` | binance_ohlcv_v4.py:71 | one call per row in order: the final balances are the fold over all rows, the frame is `EveryCrossFrame`, and row i's triple reflects the fold over rows 0..i |
| `Ledger.EveryCrossLedger.OnMessage` | binance_ohlcv_v4.py:54-71 | the close is appended, the crossover rows are recomputed over the whole frame and the ledger is replayed over all of them from the current balances |
| `Ledger.DebouncedLedger.constructor` | binance_ohlcv_v5.py:8-13 | the ledger starts from the given balances with last_trade_signal = 0 |
| `Ledger.DebouncedLedger.OnOpen` | binance_ohlcv_v5.py:90-93 | opening the connection resets last_trade_signal to 0 and keeps the balances |
| `Ledger.DebouncedLedger.CalculatePortfolioBalance` | binance_ohlcv_v5.py:42-59 | the state becomes the debounced step of the old state, and last_trade_signal stays in {-1,0,1}; the returned triple is (usd, btc, usd + btc·close) |
| `Ledger.DebouncedLedger.ExecuteBuy` | binance_ohlcv_v5.py:47-51 | the buy branch leaves the balances that `Ledger.Buy` gives and does not itself touch last_trade_signal |
| `Ledger.DebouncedLedger.ExecuteSell` | binance_ohlcv_v5.py:52-56 | the sell branch leaves the balances that `Ledger.Sell` gives and does not itself touch last_trade_signal |
| `Ledger.DebouncedLedger.CurrentRow` | binance_ohlcv_v5.py:59 | the returned triple is the current USD and BTC balances and usd + btc·close |
| `Ledger.DebouncedLedger.ApplyRows` | binance_ohlcv_v5.py:75 | one call per row in order: the final state is the debounced fold over all rows, the frame is `DebouncedFrame`, and row i's triple reflects the fold over rows 0..i |
| `Ledger.DebouncedLedger.OnMessage` | binance_ohlcv_v5.py:61-75 | the close is appended, the crossover rows are recomputed over the whole frame and the debounced ledger is replayed over all of them from the current state, keeping last_trade_signal in {-1,0,1} |

## Left out

- Websocket plumbing is not modelled: the subscription, the open/error/close callbacks apart
  from v5's reset of `last_trade_signal`, JSON parsing of messages, and the SIGINT handler.
  These are network I/O and process signals.
- `binance_ohlcv_v1.py` is not part of this model. It only parses, prints and appends rows.
- CSV and Excel export, reading the backtest's CSV file, the `input()` prompt for the starting
  capital, the date/time helper and all printing are left out. The capital and the windows
  (13 and 48 in `main`) are parameters of `RunBacktest`.
- Floating point is not modelled. Prices and balances are exact reals. `.round(3)` is exact
  round-half-to-even on the exact mean. NaN is `None`, not NaN arithmetic.
- Only positive prices are modelled. A buy divides by the close, so the model requires every
  close to be positive, and a zero or negative close is outside it.
- Window lengths must be at least 1. The source only ever passes 5, 10, 13 and 48.
- The frame itself is not a module-level variable. `OnMessage` takes the frame's closes and
  returns them with the new close appended. Its replay of the ledger over every row, from the
  carried-forward balances, is modelled as the source does it.
- Only the close column feeds the model. The timestamp, pair and volume columns are carried by
  the frame but never read by the core.
- v3's printing of the newest row is left out. Its `ma_cross` column is `MaCrossover`.
- The backtest returns row indices. The source returns the matching data-frame rows.
- Not modelled, because no variant of the source does these: rejecting out-of-order
  timestamps, configuration errors, clamping negative balances, and an O(1) circular-buffer
  indicator. `Indicators.RunningSumsAgree` proves the running-sum update equal to direct
  recomputation on every row.
