/**
 * `analyze_stock_breakout` with the data fetch taken out: given the fetched
 * daily history (warm-up buffer included), the two thresholds and the
 * holding period, it answers no-data, an empty table, or the table of trades.
 */
module Analyzer {
  import opened Wrappers
  import opened Series
  import opened Indicators
  import opened Selection
  import opened Forward

  /** `None`, an empty `DataFrame`, or the `DataFrame` of trades. */
  datatype Outcome = NoData | Empty | Events(events: seq<Event>)

  /** The analysis as a value of its inputs. */
  function Analysis(bars: seq<Bar>, volumeThreshold: real, priceThreshold: real, holding: int): Outcome
    requires WellFormed(bars)
  {
    if |bars| == 0 then NoData
    else if |bars| < Window then NoData
    else
      var events := EventsOf(bars, BreakoutIndices(bars, volumeThreshold, priceThreshold), holding);
      if events == [] then Empty else Events(events)
  }

  /** The analyzer's steps in the order the source takes them. */
  method Analyze(bars: seq<Bar>, volumeThreshold: real, priceThreshold: real, holding: int)
    returns (outcome: Outcome)
    requires WellFormed(bars)
    ensures outcome == Analysis(bars, volumeThreshold, priceThreshold, holding)
    ensures outcome == NoData <==> |bars| < Window
    ensures outcome.Events? ==> outcome.events != []
  {
    if |bars| == 0 {
      return NoData;
    }
    if |bars| < Window {
      return NoData;
    }
    var breakouts := BreakoutIndices(bars, volumeThreshold, priceThreshold);
    var results := ForwardReturns(bars, breakouts, holding);
    if results == [] {
      return Empty;
    }
    return Events(results);
  }

  /**
   * The three outcomes, for a holding period of at least one bar: no-data
   * exactly for a history shorter than 20 bars (an empty one included),
   * whatever the thresholds; the empty table exactly when the history is
   * long enough but no bar before the last is a breakout; the table of
   * trades otherwise.
   */
  lemma OutcomeCases(bars: seq<Bar>, volumeThreshold: real, priceThreshold: real, holding: int)
    requires WellFormed(bars) && holding >= 1
    ensures Analysis(bars, volumeThreshold, priceThreshold, holding) == NoData <==> |bars| < Window
    ensures Analysis(bars, volumeThreshold, priceThreshold, holding) == Empty <==>
              |bars| >= Window &&
              forall i :: 0 <= i < |bars| - 1 ==> !IsBreakout(bars, volumeThreshold, priceThreshold, i)
  {
    if |bars| >= Window {
      var breakouts := BreakoutIndices(bars, volumeThreshold, priceThreshold);
      EventsAreTrades(bars, breakouts, holding);
      TradableCount(bars, breakouts);
      var t := Tradable(bars, breakouts);
      if t != [] {
        assert t[0] in breakouts;
      }
    }
  }

  /**
   * What a table of trades contains, for a holding period of at least one
   * bar. Its rows correspond, in order, to the breakout bars other than the
   * last bar of the series: one row per such bar and no other rows. The row
   * of breakout bar i opens at bar i's close, on or after bar 19, and closes
   * at bar min(i + holding, n - 1), strictly later and at most `holding`
   * bars later. Its return is the percent growth from entry to exit price.
   * Entry dates ascend.
   */
  lemma TradesAreBreakouts(bars: seq<Bar>, volumeThreshold: real, priceThreshold: real, holding: int)
    requires WellFormed(bars) && holding >= 1
    requires Analysis(bars, volumeThreshold, priceThreshold, holding).Events?
    ensures var events := Analysis(bars, volumeThreshold, priceThreshold, holding).events;
            var t := Tradable(bars, BreakoutIndices(bars, volumeThreshold, priceThreshold));
            && |events| == |t|
            && (forall i :: 0 <= i < |bars| - 1 ==> (i in t <==> IsBreakout(bars, volumeThreshold, priceThreshold, i)))
            && (forall k :: 0 <= k < |t| ==>
                  && Window - 1 <= t[k] < |bars| - 1
                  && Enriched(bars, t[k])
                  && events[k] == MakeEvent(bars, t[k], holding))
            && (forall j, k :: 0 <= j < k < |events| ==> events[j].entryDate < events[k].entryDate)
  {
    var breakouts := BreakoutIndices(bars, volumeThreshold, priceThreshold);
    EventsAreTrades(bars, breakouts, holding);
    TradableMembers(bars, breakouts);
    EventsAscending(bars, breakouts, holding);
  }

  /**
   * With a breakout on every bar but the last one dropped, the table has as
   * many rows as there are breakout bars, less one when the last bar is a
   * breakout.
   */
  lemma TradeCount(bars: seq<Bar>, volumeThreshold: real, priceThreshold: real, holding: int)
    requires WellFormed(bars) && holding >= 1 && |bars| >= Window
    ensures var breakouts := BreakoutIndices(bars, volumeThreshold, priceThreshold);
            var rows := |EventsOf(bars, breakouts, holding)|;
            rows == if IsBreakout(bars, volumeThreshold, priceThreshold, |bars| - 1)
                    then |breakouts| - 1 else |breakouts|
  {
    var breakouts := BreakoutIndices(bars, volumeThreshold, priceThreshold);
    EventsAreTrades(bars, breakouts, holding);
    TradableCount(bars, breakouts);
  }

  /** No volume threshold of 2000% or more is ever beaten, so no table of trades results. */
  lemma HighVolumeThresholdNoTrades(bars: seq<Bar>, volumeThreshold: real, priceThreshold: real, holding: int)
    requires WellFormed(bars) && volumeThreshold >= 2000.0
    ensures !Analysis(bars, volumeThreshold, priceThreshold, holding).Events?
  {
    NoBreakoutAbove2000(bars, volumeThreshold, priceThreshold);
  }

  /** A holding period of zero takes no bar after any breakout (`[:0]` is empty), so no trade is made. */
  lemma {:induction false} ZeroHoldingNoEvents(bars: seq<Bar>, breakouts: seq<nat>)
    requires PositivePrices(bars) && ValidBreakouts(bars, breakouts)
    ensures EventsOf(bars, breakouts, 0) == []
  {
    if breakouts != [] {
      ZeroHoldingNoEvents(bars, breakouts[..|breakouts| - 1]);
    }
  }

  lemma ZeroHoldingNoTrades(bars: seq<Bar>, volumeThreshold: real, priceThreshold: real)
    requires WellFormed(bars)
    ensures !Analysis(bars, volumeThreshold, priceThreshold, 0).Events?
  {
    ZeroHoldingNoEvents(bars, BreakoutIndices(bars, volumeThreshold, priceThreshold));
  }

}
