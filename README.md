# Stock breakout analyzer: a Dafny model

This project models `analyze_stock_breakout`, the breakout detector and
forward-return calculator of the Stock-Breakout-Analysis-Bot repository
(`utils/stock_analysis.py`). The Dafny code is verified; nothing in it is executed.

The analyzer receives the daily history of one ticker: a 30-calendar-day
warm-up buffer, then the requested window. It then does the following:

1. It answers no-data when the history is empty or shorter than 20 bars.
2. It adds three columns to every bar:
   - the trailing 20-bar mean volume, with the bar itself included in the window;
   - the close-over-close percent return;
   - the volume ratio, `volume / mean * 100`.
3. It selects the bars whose ratio and return both strictly beat their
   thresholds. This runs over the whole history, warm-up buffer included.
4. For each selected bar, in order, it takes the next `holding_period` bars after it:
   - if there are none, the bar is skipped;
   - otherwise it records a trade that exits at the close of the last of those bars.
5. It returns an empty table when no trade was recorded, and the table of trades otherwise.

Modules, one per stage:

- `Series` (series.dfy): the bar `Bar(date, close, volume)`. The date is a day number. A well-formed history has strictly increasing dates, positive closes and non-negative volumes.
- `Indicators` (indicators.dfy): the three derived columns. A pandas NaN is `None` here.
- `Selection` (selection.dfy): the breakout mask and the breakout positions.
- `Forward` (forward.dfy): the forward-return loop.
  - `ForwardReturns` is the loop, written as a method with a `for` loop that extends a `seq<Event>`.
  - The method is proved against `EventsOf`, a function that builds the same list turn by turn.
  - `EventAt` follows the source's date filter and `[:holding_period]` slice.
  - `MakeEvent` is a second, independent description of the same trade: the exit is the bar at position `min(i + holding, n - 1)`.
  - `EventAtExitIndex` proves that the two descriptions agree.
- `Stats` (stats.dfy): the summary statistics over the result table.
- `Analyzer` (analyzer.dfy): the three-way outcome `NoData | Empty | Events(events)`.
  - `Analysis` is the analysis as a function.
  - `Analyze` is the source's sequence of steps as a method, proved equal to `Analysis`.
- `Scenarios` (scenarios.dfy): a worked history, 25 or 26 bars long, with one volume and price spike, carried through to its outcome. `SpikeHistory` describes it, and `SpikeHistoriesExist` exhibits both lengths.
- `Wrappers` (wrappers.dfy): the `Option` type.

The trailing 20-bar mean volume includes the bar itself (line 66). A volume of 300 against nineteen bars of 100 therefore gives a mean of 110, not 100, and a volume ratio of 300 / 110 * 100 ≈ 272.7%, not 300%. The scenario lemmas use that value.

## Model

| member | source | states |
|---|---|---|
| Indicators.MovingAverageWithin | utils/stock_analysis.py:66 | the 20-bar mean volume is defined exactly from bar 19 on, and it lies within any bounds that hold for the volumes of bars i-19..i (so a flat window gives that volume back) |
| Indicators.ReturnCompoundsPreviousClose | utils/stock_analysis.py:70 | the daily return is defined from bar 1 on; compounding the previous close by it gives back today's close; it is positive exactly when the close rose |
| Indicators.RatioAtMost2000 | utils/stock_analysis.py:74 | a defined volume ratio lies in [0, 2000]%, because the trailing window includes the bar itself |
| Indicators.VolumeSumBounds | utils/stock_analysis.py:66 | a window's volume sum lies between its length times any lower and any upper bound of its volumes |
| Selection.BreakoutsBelow | utils/stock_analysis.py:77-80 | the breakout positions among the first n bars, ascending, none before bar 19, and a bar is listed exactly when it is a breakout |
| Selection.BreakoutIndices | utils/stock_analysis.py:77-80 | the selected rows are exactly the bars whose ratio and return are both defined and strictly above their thresholds, in series order, none among the first 19 bars, the warm-up buffer included |
| Selection.NoBreakoutAbove2000 | utils/stock_analysis.py:74-80 | a volume threshold of 2000% or more selects no bar |
| Selection.SingleBreakout | utils/stock_analysis.py:77-80 | when exactly one bar qualifies, the selection is that bar alone |
| Forward.After | utils/stock_analysis.py:89 | the date filter keeps only bars dated strictly after the given date |
| Forward.Slice | utils/stock_analysis.py:89 | `[:holding_period]` keeps a prefix, of length min(holding, count) for a non-negative holding |
| Forward.AfterIsSuffix | utils/stock_analysis.py:89 | with ascending unique dates, the bars dated after bar i are exactly the bars positioned after it |
| Forward.ExitIndex | utils/stock_analysis.py:89-92 | the exit bar is strictly after the entry bar, at most holding bars later, and is either entry + holding or the last bar |
| Forward.MakeEvent | utils/stock_analysis.py:85-102 | a trade's entry is the breakout bar's date and close, and it carries that bar's volume ratio and daily return; its exit is the date and close of bar `ExitIndex` (min(i + holding, n - 1)), strictly later; its return compounds the entry price into the exit price and is positive exactly when the exit price is higher |
| Forward.EventAtExitIndex | utils/stock_analysis.py:85-103 | for a holding period of at least 1, the loop body yields no trade for a breakout on the last bar, and otherwise the trade that exits at bar min(i + holding, n - 1) |
| Forward.ForwardReturns | utils/stock_analysis.py:83-103 | the loop over the breakout bars builds exactly the list `EventsOf` describes, one turn at a time |
| Forward.EventsAreTrades | utils/stock_analysis.py:84-103 | the loop emits one trade per breakout that has a later bar, in breakout order, each the trade `MakeEvent` describes |
| Forward.TradableCount | utils/stock_analysis.py:89-91 | among ascending breakouts, only one on the last bar is dropped; all the others keep their trade |
| Forward.TradableMembers | utils/stock_analysis.py:89-91 | a breakout before the last bar has a trade, and every trade belongs to such a breakout |
| Forward.TradableIncreasing | utils/stock_analysis.py:84-95 | the traded breakouts are a subsequence of the breakouts, still ascending, none on the last bar |
| Forward.EventsAscending | utils/stock_analysis.py:84-103 | trades come out in strictly ascending entry-date order |
| Stats.Max | utils/stock_analysis.py:115 | the best trade's return is one of the returns, and no return exceeds it |
| Stats.Min | utils/stock_analysis.py:116 | the worst trade's return is one of the returns, and it exceeds no return |
| Stats.SumBetween | utils/stock_analysis.py:113 | a sum of n returns lies between n times any lower bound and n times any upper bound of them |
| Stats.CountPositiveRange | utils/stock_analysis.py:114 | the count of winning trades is at most the number of trades; it equals that number exactly when every trade won, and is 0 exactly when none did |
| Stats.WinRatePercent | utils/stock_analysis.py:114 | the win rate is a percentage in [0, 100]; it is 100 exactly when every trade won, and 0 exactly when none did |
| Stats.Summarize | utils/stock_analysis.py:111-117 | over a non-empty `Return_Percent` column: total trades = number of rows; best ≥ every return ≥ worst, and each is some trade's return |
| Stats.AverageBetweenWorstAndBest | utils/stock_analysis.py:113-116 | the average return lies between the worst and the best trade |
| Stats.WinRateRange | utils/stock_analysis.py:114 | the win rate is in [0, 100]; it is 100 exactly when every trade won, and 0 exactly when none did |
| Analyzer.Analyze | utils/stock_analysis.py:44-119 | the source's steps compute the analysis; the result is no-data exactly when the history has fewer than 20 bars; a table of trades is never empty |
| Analyzer.OutcomeCases | utils/stock_analysis.py:44-106 | for a holding period of at least 1: the result is no-data exactly when there are fewer than 20 bars, whatever the thresholds; it is the empty table exactly when there are enough bars but no breakout before the last bar; it is the table of trades otherwise |
| Analyzer.TradesAreBreakouts | utils/stock_analysis.py:77-103 | the rows of a table of trades match, in order, the breakouts before the last bar (a bar has a row exactly when it is such a breakout); each breakout is at bar 19 or later and its row is its positional trade; entry dates ascend |
| Analyzer.TradeCount | utils/stock_analysis.py:84-103 | the number of rows is the number of breakouts, less one when the last bar is a breakout |
| Analyzer.HighVolumeThresholdNoTrades | utils/stock_analysis.py:74-106 | a volume threshold of 2000% or more never yields a table of trades |
| Analyzer.ZeroHoldingNoEvents | utils/stock_analysis.py:89-91 | with a holding period of 0 the slice is empty and the loop records no trade |
| Analyzer.ZeroHoldingNoTrades | utils/stock_analysis.py:89-106 | a holding period of 0 never yields a table of trades |
| Scenarios.SpikeMean | utils/stock_analysis.py:66 | in a history flat at 100 shares except for 300 shares on bar 24, the trailing mean at bar 24 is 110, because the window includes the bar itself |
| Scenarios.SpikeColumns | utils/stock_analysis.py:66-74 | in that history, with the close flat at 100 and 105 on bar 24, bar 24's volume ratio is 300/110*100 (about 272.7%) and its daily return is 5% |
| Scenarios.SpikeIsTheOnlyBreakout | utils/stock_analysis.py:66-80 | in that history, 25 or 26 bars long, only bar 24 beats a 200% ratio and a 3% return |
| Scenarios.BreakoutOnLastBarIsEmpty | utils/stock_analysis.py:89-106 | when that spike is on the last of 25 bars, the result is the empty table, not no-data |
| Scenarios.BreakoutWithNextBarIsOneTrade | utils/stock_analysis.py:66-119 | with a 26th bar closing 10% higher, the result is one trade: entry at bar 24 at 105, exit at bar 25 at 115.5, return 10%, ratio 300/110*100, daily return 5% |

## Left out

- The data fetch (`yf.Ticker(...).history(...)`, utils/stock_analysis.py:34-39) is network I/O. The fetched history is an input instead, so a failed or empty fetch is the empty history, which gives no-data.
- The 30-day buffer date arithmetic (lines 27-28) is left out. It only chooses what to fetch, and the history is already an input.
- Date strings are not modelled. Parsing and formatting with `strptime`/`strftime` (lines 23-24, 96, 100) are replaced by integer day numbers. A lookup by date (`stock_data.loc[date, ...]`) is a lookup by position, because dates are unique.
- The `print` logging throughout is not modelled.
- The `future_date` calendar offset (line 88) is never used by the source. The exit is decided by trading-bar offset.
- The catch-all `except` clauses (lines 51-53, 121-123) are not modelled. The well-formedness precondition stands in for them: positive closes, non-negative volumes, ascending unique dates. Under it nothing in the computation can fail.
- A zero close is excluded rather than modelled. In pandas, float division by a zero close does not raise: it gives `inf` or `NaN`, which the source's comparisons and return arithmetic would then carry along. The model requires positive closes (`Series.PositivePrices`).
- Floating point is not modelled. Prices, volumes and returns are exact reals. A NaN is `None`, and a comparison with it is false. `inf` cannot arise, because closes are positive and a zero mean volume only occurs together with a zero volume (0/0, a NaN).
- Stats.Summarize: the source computes the summary statistics and then discards them, returning only the table (lines 111-119). So `Analyze` does not return them; `Summarize` takes the `Return_Percent` column (`Forward.ReturnColumn`) of a non-empty table, the only case in which the source computes it. The average is stated through its bounds (worst ≤ average ≤ best, `Stats.AverageBetweenWorstAndBest`) rather than a floating-point tolerance.
- Negative holding periods follow Python's slice semantics in `Forward.Slice`: `[:-k]` drops the last k bars. No lemma describes their exits. The exit-index lemmas require a holding period of at least 1, and a holding period of 0 is covered by `ZeroHoldingNoTrades`.
- Idempotence (same inputs give the same result) has no lemma. It holds by construction, because `Analysis` is a function of its inputs.
- The Flask routes, request parsing, CSV export and server start in app.py are web and file I/O. test_yf.py is an exploratory network script with no logic of its own.
