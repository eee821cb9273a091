/** The breakout filter: the bars whose volume ratio and daily return both beat their thresholds. */
module Selection {
  import opened Wrappers
  import opened Series
  import opened Indicators

  /**
   * The row mask `(Volume_Ratio > volume_threshold) & (Daily_Return > price_threshold)`.
   * A comparison with NaN is false, so a bar with either column undefined never qualifies.
   */
  predicate IsBreakout(bars: seq<Bar>, volumeThreshold: real, priceThreshold: real, i: nat)
    requires i < |bars| && PositivePrices(bars)
  {
    && VolumeRatio(bars, i).Some? && VolumeRatio(bars, i).value > volumeThreshold
    && DailyReturn(bars, i).Some? && DailyReturn(bars, i).value > priceThreshold
  }

  predicate StrictlyIncreasing(s: seq<nat>)
  {
    forall j, k :: 0 <= j < k < |s| ==> s[j] < s[k]
  }

  /** Indices, in series order, of the breakout bars among bars[..n]. */
  function BreakoutsBelow(bars: seq<Bar>, volumeThreshold: real, priceThreshold: real, n: nat): (r: seq<nat>)
    requires n <= |bars| && PositivePrices(bars)
    ensures StrictlyIncreasing(r)
    ensures forall k :: 0 <= k < |r| ==> Window - 1 <= r[k] < n
    ensures forall i :: 0 <= i < n ==> (i in r <==> IsBreakout(bars, volumeThreshold, priceThreshold, i))
  {
    if n == 0 then []
    else
      var earlier := BreakoutsBelow(bars, volumeThreshold, priceThreshold, n - 1);
      if IsBreakout(bars, volumeThreshold, priceThreshold, n - 1) then earlier + [n - 1] else earlier
  }

  /**
   * `stock_data[mask].index` as positions in the series: exactly the breakout
   * bars, in ascending order, none of them among the first 19 bars (their
   * 20-bar mean is undefined). Selection runs over the whole fetched series,
   * warm-up buffer included.
   */
  function BreakoutIndices(bars: seq<Bar>, volumeThreshold: real, priceThreshold: real): (r: seq<nat>)
    requires PositivePrices(bars)
    ensures StrictlyIncreasing(r)
    ensures forall k :: 0 <= k < |r| ==> Window - 1 <= r[k] < |bars|
    ensures forall k :: 0 <= k < |r| ==> Enriched(bars, r[k])
    ensures forall i :: 0 <= i < |bars| ==> (i in r <==> IsBreakout(bars, volumeThreshold, priceThreshold, i))
  {
    var r := BreakoutsBelow(bars, volumeThreshold, priceThreshold, |bars|);
    assert forall k :: 0 <= k < |r| ==> r[k] in r;
    r
  }

  /**
   * No volume threshold of 2000% or more can be beaten: the volume ratio is
   * at most 2000% (see RatioAtMost2000), so no bar is a breakout.
   */
  lemma NoBreakoutAbove2000(bars: seq<Bar>, volumeThreshold: real, priceThreshold: real)
    requires WellFormed(bars) && volumeThreshold >= 2000.0
    ensures BreakoutIndices(bars, volumeThreshold, priceThreshold) == []
  {
    var r := BreakoutIndices(bars, volumeThreshold, priceThreshold);
    if r != [] {
      assert IsBreakout(bars, volumeThreshold, priceThreshold, r[0]) by {
        assert r[0] in r;
      }
      RatioAtMost2000(bars, r[0]);
    }
  }

  /** When exactly one bar qualifies, the selection is that bar alone. */
  lemma SingleBreakout(bars: seq<Bar>, volumeThreshold: real, priceThreshold: real, i: nat)
    requires PositivePrices(bars) && i < |bars|
    requires IsBreakout(bars, volumeThreshold, priceThreshold, i)
    requires forall j :: 0 <= j < |bars| && j != i ==> !IsBreakout(bars, volumeThreshold, priceThreshold, j)
    ensures BreakoutIndices(bars, volumeThreshold, priceThreshold) == [i]
  {
    var r := BreakoutIndices(bars, volumeThreshold, priceThreshold);
    assert |r| >= 2 ==> r[0] < r[1];
    forall k | 0 <= k < |r| ensures r[k] == i {
      assert r[k] in r;
    }
    assert i in r;
  }

}
