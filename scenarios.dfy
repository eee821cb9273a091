/**
 * Two worked histories: volume flat at 100 and the close flat at 100,
 * except that bar 24 trades 300 shares and closes 5% higher. The trailing
 * mean at bar 24 includes bar 24 itself, (19 * 100 + 300) / 20 = 110, so its
 * volume ratio is 300 / 110 * 100, about 272.7%. The history either ends at
 * bar 24 or has a 26th bar closing 10% above bar 24.
 */
module Scenarios {
  import opened Wrappers
  import opened Series
  import opened Indicators
  import opened Selection
  import opened Forward
  import opened Analyzer

  predicate SpikeHistory(bars: seq<Bar>)
  {
    && (|bars| == 25 || |bars| == 26)
    && (forall i :: 0 <= i < 24 ==> bars[i] == Bar(i, 100.0, 100.0))
    && bars[24] == Bar(24, 105.0, 300.0)
    && (|bars| == 26 ==> bars[25] == Bar(25, 115.5, 100.0))
  }

  /** The 25-bar history, the spike on its last bar. */
  function Spike25(): seq<Bar>
  {
    seq(25, i => Bar(i, if i == 24 then 105.0 else 100.0, if i == 24 then 300.0 else 100.0))
  }

  lemma SpikeHistoriesExist()
    ensures SpikeHistory(Spike25()) && SpikeHistory(Spike25() + [Bar(25, 115.5, 100.0)])
  {
    var s := Spike25() + [Bar(25, 115.5, 100.0)];
    assert forall i :: 0 <= i < 25 ==> s[i] == Spike25()[i];
  }

  lemma SpikeWellFormed(bars: seq<Bar>)
    requires SpikeHistory(bars)
    ensures WellFormed(bars)
  {
    assert forall i :: 0 <= i < |bars| ==> bars[i].date == i;
  }

  /** Before the spike neither the volume nor the close moves, so no bar qualifies. */
  lemma QuietBeforeSpike(bars: seq<Bar>)
    requires SpikeHistory(bars)
    ensures WellFormed(bars)
    ensures forall i :: 0 <= i < 24 ==> !IsBreakout(bars, 200.0, 3.0, i)
  {
    SpikeWellFormed(bars);
    forall i | 0 <= i < 24
      ensures !IsBreakout(bars, 200.0, 3.0, i)
    {
      assert i > 0 ==> DailyReturn(bars, i) == Some(0.0);
    }
  }

  /** At bar 24 the trailing mean volume is 110: nineteen bars of 100 and the spike's 300. */
  lemma SpikeMean(bars: seq<Bar>)
    requires SpikeHistory(bars)
    ensures VolumeMA(bars, 24) == Some(110.0)
  {
    VolumeSumBounds(bars, 5, 24, 100.0, 100.0);
    assert VolumeSum(bars, 5, 25) == VolumeSum(bars, 5, 24) + 300.0;
  }

  /** The spike's volume ratio is 300 / 110 * 100, about 272.7%, and its return 5%. */
  lemma SpikeColumns(bars: seq<Bar>)
    requires SpikeHistory(bars)
    ensures WellFormed(bars)
    ensures VolumeRatio(bars, 24) == Some(300.0 / 110.0 * 100.0)
    ensures DailyReturn(bars, 24) == Some(5.0)
  {
    SpikeWellFormed(bars);
    SpikeMean(bars);
  }

  /** On the 26th bar the mean is still 110, so its 100 shares give a ratio under 200%. */
  lemma NoBreakoutAfterSpike(bars: seq<Bar>)
    requires SpikeHistory(bars) && |bars| == 26
    ensures WellFormed(bars)
    ensures !IsBreakout(bars, 200.0, 3.0, 25)
  {
    SpikeWellFormed(bars);
    VolumeSumBounds(bars, 6, 24, 100.0, 100.0);
    assert VolumeSum(bars, 6, 26) == VolumeSum(bars, 6, 24) + 300.0 + 100.0;
    assert VolumeMA(bars, 25) == Some(110.0);
  }

  /** Only bar 24 beats a 200% volume ratio and a 3% daily return in either history. */
  lemma SpikeIsTheOnlyBreakout(bars: seq<Bar>)
    requires SpikeHistory(bars)
    ensures WellFormed(bars)
    ensures BreakoutIndices(bars, 200.0, 3.0) == [24]
  {
    QuietBeforeSpike(bars);
    SpikeColumns(bars);
    if |bars| == 26 {
      NoBreakoutAfterSpike(bars);
    }
    SingleBreakout(bars, 200.0, 3.0, 24);
  }

  /** A breakout on the last bar has no bar to exit on: the table is empty, not no-data. */
  lemma BreakoutOnLastBarIsEmpty(bars: seq<Bar>)
    requires SpikeHistory(bars) && |bars| == 25
    ensures WellFormed(bars)
    ensures Analysis(bars, 200.0, 3.0, 1) == Empty
  {
    QuietBeforeSpike(bars);
    OutcomeCases(bars, 200.0, 3.0, 1);
  }

  /** The trade opened on the spike and held one bar. */
  lemma SpikeTrade(bars: seq<Bar>)
    requires SpikeHistory(bars) && |bars| == 26
    ensures WellFormed(bars) && Enriched(bars, 24)
    ensures MakeEvent(bars, 24, 1) == Event(24, 300.0 / 110.0 * 100.0, 5.0, 105.0, 25, 115.5, 10.0)
  {
    SpikeColumns(bars);
    assert ExitIndex(26, 24, 1) == 25;
  }

  /** With one more bar, the spike yields one trade held one bar, returning 10%. */
  lemma BreakoutWithNextBarIsOneTrade(bars: seq<Bar>)
    requires SpikeHistory(bars) && |bars| == 26
    ensures WellFormed(bars)
    ensures Analysis(bars, 200.0, 3.0, 1)
            == Events([Event(24, 300.0 / 110.0 * 100.0, 5.0, 105.0, 25, 115.5, 10.0)])
  {
    SpikeIsTheOnlyBreakout(bars);
    SpikeTrade(bars);
    EventsAreTrades(bars, [24], 1);
    assert Tradable(bars, [24]) == [24];
  }

}
