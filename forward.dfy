/**
 * The forward-return pass: for each breakout bar, in series order, hold for
 * `holding_period` trading bars and record the trade.
 */
module Forward {
  import opened Wrappers
  import opened Series
  import opened Indicators
  import opened Selection

  /** One row of the result table. */
  datatype Event = Event(
    entryDate: int,
    volumeRatio: real,
    dailyReturn: real,
    entryPrice: real,
    exitDate: int,
    exitPrice: real,
    returnPct: real)

  /** `stock_data[stock_data.index > date]`: the bars dated strictly after `date`, in order. */
  function After(bars: seq<Bar>, date: int): (r: seq<Bar>)
    ensures |r| <= |bars|
    ensures forall k :: 0 <= k < |r| ==> r[k].date > date
  {
    if bars == [] then []
    else (if bars[0].date > date then [bars[0]] else []) + After(bars[1..], date)
  }

  /** Python's slice `s[:stop]` for any integer `stop`; a negative one counts from the end. */
  function Slice<T>(s: seq<T>, stop: int): (r: seq<T>)
    ensures |r| <= |s| && r == s[..|r|]
    ensures 0 <= stop ==> |r| == if stop < |s| then stop else |s|
  {
    if stop >= |s| then s
    else if stop >= 0 then s[..stop]
    else if |s| + stop > 0 then s[..|s| + stop]
    else []
  }

  /** The `Return_Percent` column of the result table. */
  function ReturnColumn(events: seq<Event>): (r: seq<real>)
    ensures |r| == |events|
    ensures forall k :: 0 <= k < |r| ==> r[k] == events[k].returnPct
  {
    seq(|events|, k requires 0 <= k < |events| => events[k].returnPct)
  }

  /** `stock_data[stock_data.index > date][:holding_period]` for the bar at position i. */
  function Future(bars: seq<Bar>, i: nat, holding: int): seq<Bar>
    requires i < |bars|
  {
    Slice(After(bars, bars[i].date), holding)
  }

  /**
   * The row recorded for breakout bar i when the position is closed at bar
   * `exit`: the entry at bar i's close, its two derived columns, the exit's
   * date and close, and the percent return from entry to exit.
   */
  function Trade(bars: seq<Bar>, i: nat, exit: Bar): Event
    requires i < |bars| && PositivePrices(bars) && Enriched(bars, i)
  {
    var entry := bars[i].close;
    Event(bars[i].date, VolumeRatio(bars, i).value, DailyReturn(bars, i).value,
          entry, exit.date, exit.close, (exit.close - entry) / entry * 100.0)
  }

  /**
   * One turn of the loop over breakout bar i: the next `holding` bars after
   * it; no trade when there are none; otherwise exit at the close of the last
   * of them.
   */
  function EventAt(bars: seq<Bar>, i: nat, holding: int): Option<Event>
    requires i < |bars| && PositivePrices(bars) && Enriched(bars, i)
  {
    var future := Future(bars, i, holding);
    if future == [] then None else Some(Trade(bars, i, future[|future| - 1]))
  }

  /** The bar a trade opened at bar i closes at: `holding` bars later, or the last bar. */
  function ExitIndex(n: nat, i: nat, holding: nat): (x: nat)
    requires i + 1 < n && holding >= 1
    ensures i < x < n && x <= i + holding
    ensures x == i + holding || x == n - 1
  {
    if i + holding < n - 1 then i + holding else n - 1
  }

  /**
   * The trade opened at bar i, described by bar positions rather than by
   * date filtering: entry at bar i's close, exit at bar ExitIndex's close.
   * The exit is strictly later than the entry, and the recorded percent
   * return compounds the entry price into the exit price.
   */
  function MakeEvent(bars: seq<Bar>, i: nat, holding: nat): (e: Event)
    requires i + 1 < |bars| && holding >= 1 && WellFormed(bars) && Enriched(bars, i)
    ensures e.entryDate == bars[i].date && e.entryPrice == bars[i].close
    ensures Some(e.volumeRatio) == VolumeRatio(bars, i) && Some(e.dailyReturn) == DailyReturn(bars, i)
    ensures e.exitDate == bars[ExitIndex(|bars|, i, holding)].date
    ensures e.exitPrice == bars[ExitIndex(|bars|, i, holding)].close
    ensures e.entryDate < e.exitDate
    ensures e.exitPrice == e.entryPrice * (1.0 + e.returnPct / 100.0)
    ensures e.returnPct > 0.0 <==> e.exitPrice > e.entryPrice
  {
    var x := ExitIndex(|bars|, i, holding);
    var entry, exit := bars[i].close, bars[x].close;
    var growth := (exit - entry) / entry;
    assert growth * entry == exit - entry;
    Event(bars[i].date, VolumeRatio(bars, i).value, DailyReturn(bars, i).value,
          entry, bars[x].date, exit, growth * 100.0)
  }

  /** Every breakout index names a bar of the series with both columns defined. */
  predicate ValidBreakouts(bars: seq<Bar>, breakouts: seq<nat>)
    requires PositivePrices(bars)
  {
    forall k :: 0 <= k < |breakouts| ==> breakouts[k] < |bars| && Enriched(bars, breakouts[k])
  }

  /** The `results` list after the loop has visited `breakouts` in order. */
  function EventsOf(bars: seq<Bar>, breakouts: seq<nat>, holding: int): seq<Event>
    requires PositivePrices(bars) && ValidBreakouts(bars, breakouts)
  {
    if breakouts == [] then []
    else
      var last := breakouts[|breakouts| - 1];
      EventsOf(bars, breakouts[..|breakouts| - 1], holding) + AsList(EventAt(bars, last, holding))
  }

  function AsList(o: Option<Event>): seq<Event>
  {
    match o
    case None => []
    case Some(e) => [e]
  }

  /** One more turn of the loop appends the trade of the next breakout, if any. */
  lemma EventsOfExtend(bars: seq<Bar>, breakouts: seq<nat>, k: nat, holding: int)
    requires PositivePrices(bars) && ValidBreakouts(bars, breakouts) && k < |breakouts|
    ensures ValidBreakouts(bars, breakouts[..k]) && ValidBreakouts(bars, breakouts[..k + 1])
    ensures EventsOf(bars, breakouts[..k + 1], holding)
            == EventsOf(bars, breakouts[..k], holding) + AsList(EventAt(bars, breakouts[k], holding))
  {
    assert breakouts[..k + 1][..k] == breakouts[..k];
  }

  /** The breakouts that have at least one later bar, i.e. are not on the last bar. */
  function Tradable(bars: seq<Bar>, breakouts: seq<nat>): seq<nat>
  {
    if breakouts == [] then []
    else
      var last := breakouts[|breakouts| - 1];
      Tradable(bars, breakouts[..|breakouts| - 1]) + if last + 1 < |bars| then [last] else []
  }

  /** Method form of the loop `for date in breakout_days.index: ... results.append(...)`. */
  method ForwardReturns(bars: seq<Bar>, breakouts: seq<nat>, holding: int) returns (events: seq<Event>)
    requires PositivePrices(bars) && ValidBreakouts(bars, breakouts)
    ensures events == EventsOf(bars, breakouts, holding)
  {
    events := [];
    for k := 0 to |breakouts|
      invariant ValidBreakouts(bars, breakouts[..k])
      invariant events == EventsOf(bars, breakouts[..k], holding)
    {
      EventsOfExtend(bars, breakouts, k, holding);
      var i := breakouts[k];
      var future := Future(bars, i, holding);
      if future != [] {
        var exit := future[|future| - 1];
        events := events + [Trade(bars, i, exit)];
      }
    }
    assert breakouts[..|breakouts|] == breakouts;
  }

  /** When every bar is dated after `date`, filtering by date keeps them all. */
  lemma {:induction false} AfterKeepsLater(bars: seq<Bar>, date: int)
    requires forall k :: 0 <= k < |bars| ==> bars[k].date > date
    ensures After(bars, date) == bars
  {
    if bars != [] {
      AfterKeepsLater(bars[1..], date);
    }
  }

  /**
   * With ascending unique dates, the bars dated after bar i are exactly the
   * bars positioned after it.
   */
  lemma {:induction false} AfterIsSuffix(bars: seq<Bar>, i: nat)
    requires IncreasingDates(bars) && i < |bars|
    ensures After(bars, bars[i].date) == bars[i + 1..]
  {
    if i == 0 {
      AfterKeepsLater(bars[1..], bars[0].date);
    } else {
      AfterIsSuffix(bars[1..], i - 1);
      assert bars[1..][i - 1] == bars[i];
      assert bars[1..][i..] == bars[i + 1..];
    }
  }

  /**
   * The date-filtering loop body and the positional description agree: a
   * breakout on the last bar yields no trade, any other yields the trade
   * that exits at ExitIndex.
   */
  lemma EventAtExitIndex(bars: seq<Bar>, i: nat, holding: int)
    requires WellFormed(bars) && i < |bars| && Enriched(bars, i) && holding >= 1
    ensures EventAt(bars, i, holding) == if i + 1 < |bars| then Some(MakeEvent(bars, i, holding)) else None
  {
    AfterIsSuffix(bars, i);
    var future := Future(bars, i, holding);
    if i + 1 < |bars| {
      var x := ExitIndex(|bars|, i, holding);
      assert |future| == x - i;
      assert future[|future| - 1] == bars[x];
    }
  }

  /** Keeping only the breakouts before the last bar changes nothing when all of them are. */
  lemma {:induction false} TradableKeepsAll(bars: seq<Bar>, breakouts: seq<nat>)
    requires forall k :: 0 <= k < |breakouts| ==> breakouts[k] + 1 < |bars|
    ensures Tradable(bars, breakouts) == breakouts
  {
    if breakouts != [] {
      TradableKeepsAll(bars, breakouts[..|breakouts| - 1]);
    }
  }

  /**
   * Among ascending breakouts inside the series, only one on the last bar
   * is dropped: every other breakout is tradable.
   */
  lemma {:induction false} TradableCount(bars: seq<Bar>, breakouts: seq<nat>)
    requires StrictlyIncreasing(breakouts)
    requires forall k :: 0 <= k < |breakouts| ==> breakouts[k] < |bars|
    ensures |bars| > 0 && |bars| - 1 in breakouts ==>
              Tradable(bars, breakouts) == breakouts[..|breakouts| - 1]
    ensures !(|bars| > 0 && |bars| - 1 in breakouts) ==> Tradable(bars, breakouts) == breakouts
  {
    if breakouts != [] {
      var m := |breakouts| - 1;
      var front := breakouts[..m];
      assert forall k :: 0 <= k < |front| ==> front[k] < breakouts[m];
      TradableKeepsAll(bars, front);
      if breakouts[m] + 1 < |bars| {
        TradableKeepsAll(bars, breakouts);
      } else {
        assert |bars| - 1 !in front;
      }
    } else {
      TradableKeepsAll(bars, breakouts);
    }
  }

  /** A breakout before the last bar is tradable, and nothing else is. */
  lemma {:induction false} TradableMembers(bars: seq<Bar>, breakouts: seq<nat>)
    requires StrictlyIncreasing(breakouts)
    requires forall k :: 0 <= k < |breakouts| ==> breakouts[k] < |bars|
    ensures forall k :: 0 <= k < |Tradable(bars, breakouts)| ==>
              Tradable(bars, breakouts)[k] in breakouts && Tradable(bars, breakouts)[k] + 1 < |bars|
    ensures forall i :: 0 <= i < |bars| - 1 ==> (i in Tradable(bars, breakouts) <==> i in breakouts)
  {
    TradableCount(bars, breakouts);
    TradableIncreasing(bars, breakouts);
    forall i | 0 <= i < |bars| - 1 && i in breakouts
      ensures i in Tradable(bars, breakouts)
    {
      var j :| 0 <= j < |breakouts| && breakouts[j] == i;
      if j < |breakouts| - 1 {
        assert breakouts[..|breakouts| - 1][j] == i;
      }
    }
  }

  /** Tradable keeps a subsequence: each of its elements is one of the breakouts, in order. */
  lemma {:induction false} TradableIncreasing(bars: seq<Bar>, breakouts: seq<nat>)
    requires StrictlyIncreasing(breakouts)
    ensures StrictlyIncreasing(Tradable(bars, breakouts))
    ensures forall k :: 0 <= k < |Tradable(bars, breakouts)| ==>
              Tradable(bars, breakouts)[k] in breakouts && Tradable(bars, breakouts)[k] + 1 < |bars|
  {
    if breakouts != [] {
      var m := |breakouts| - 1;
      TradableIncreasing(bars, breakouts[..m]);
      var t := Tradable(bars, breakouts[..m]);
      forall k | 0 <= k < |t| ensures t[k] < breakouts[m] {
        var j :| 0 <= j < m && breakouts[..m][j] == t[k];
      }
    }
  }

  /**
   * The loop emits exactly one trade per tradable breakout, in the order of
   * the breakouts, each the positional trade MakeEvent describes.
   */
  lemma {:induction false} EventsAreTrades(bars: seq<Bar>, breakouts: seq<nat>, holding: int)
    requires WellFormed(bars) && ValidBreakouts(bars, breakouts) && holding >= 1
    ensures |EventsOf(bars, breakouts, holding)| == |Tradable(bars, breakouts)|
    ensures forall k :: 0 <= k < |Tradable(bars, breakouts)| ==>
              Tradable(bars, breakouts)[k] + 1 < |bars| && Enriched(bars, Tradable(bars, breakouts)[k]) &&
              EventsOf(bars, breakouts, holding)[k] == MakeEvent(bars, Tradable(bars, breakouts)[k], holding)
  {
    if breakouts != [] {
      var m := |breakouts| - 1;
      var last := breakouts[m];
      EventsAreTrades(bars, breakouts[..m], holding);
      EventAtExitIndex(bars, last, holding);
    }
  }

  /** Trades come out in ascending entry-date order, the order of the breakout bars. */
  lemma EventsAscending(bars: seq<Bar>, breakouts: seq<nat>, holding: int)
    requires WellFormed(bars) && ValidBreakouts(bars, breakouts) && holding >= 1
    requires StrictlyIncreasing(breakouts)
    ensures forall j, k :: 0 <= j < k < |EventsOf(bars, breakouts, holding)| ==>
              EventsOf(bars, breakouts, holding)[j].entryDate < EventsOf(bars, breakouts, holding)[k].entryDate
  {
    EventsAreTrades(bars, breakouts, holding);
    TradableIncreasing(bars, breakouts);
  }

}
