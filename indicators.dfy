/**
 * The three columns the analyzer adds to the price history: the trailing
 * 20-bar mean volume, the close-over-close percent return and the volume
 * ratio. Pandas leaves a value NaN where it is undefined; here it is None.
 */
module Indicators {
  import opened Wrappers
  import opened Series

  /** Length of the trailing volume window, and the fewest bars the analyzer accepts. */
  const Window: nat := 20

  /** Sum of the volumes of bars[lo..hi]. */
  function VolumeSum(bars: seq<Bar>, lo: nat, hi: nat): real
    requires lo <= hi <= |bars|
    decreases hi - lo
  {
    if lo == hi then 0.0 else VolumeSum(bars, lo, hi - 1) + bars[hi - 1].volume
  }

  /** `Volume.rolling(window=20).mean()` at bar i: undefined until a full window exists. */
  function VolumeMA(bars: seq<Bar>, i: nat): Option<real>
    requires i < |bars|
  {
    if i + 1 < Window then None
    else Some(VolumeSum(bars, i + 1 - Window, i + 1) / Window as real)
  }

  /** `Close.pct_change() * 100` at bar i: undefined on the first bar. */
  function DailyReturn(bars: seq<Bar>, i: nat): Option<real>
    requires i < |bars| && PositivePrices(bars)
  {
    if i == 0 then None
    else Some((bars[i].close - bars[i - 1].close) / bars[i - 1].close * 100.0)
  }

  /**
   * `Volume / Volume_20MA * 100` at bar i: NaN where the mean is NaN, and
   * NaN (0/0) where the mean is zero, which with non-negative volumes
   * happens only when every volume of the window, this bar's included, is zero.
   */
  function VolumeRatio(bars: seq<Bar>, i: nat): Option<real>
    requires i < |bars|
  {
    match VolumeMA(bars, i)
    case None => None
    case Some(mean) => if mean == 0.0 then None else Some(bars[i].volume / mean * 100.0)
  }

  /** Both derived columns the breakout filter compares are defined at bar i. */
  predicate Enriched(bars: seq<Bar>, i: nat)
    requires i < |bars| && PositivePrices(bars)
  {
    VolumeRatio(bars, i).Some? && DailyReturn(bars, i).Some?
  }

  /** A sum of volumes lies between the window length times the least and the greatest volume. */
  lemma {:induction false} VolumeSumBounds(bars: seq<Bar>, lo: nat, hi: nat, least: real, greatest: real)
    requires lo <= hi <= |bars|
    requires forall j :: lo <= j < hi ==> least <= bars[j].volume <= greatest
    ensures (hi - lo) as real * least <= VolumeSum(bars, lo, hi) <= (hi - lo) as real * greatest
    decreases hi - lo
  {
    if lo < hi {
      VolumeSumBounds(bars, lo, hi - 1, least, greatest);
    }
  }

  /** With non-negative volumes, every sum of volumes is non-negative. */
  lemma {:induction false} VolumeSumNonNegative(bars: seq<Bar>, lo: nat, hi: nat)
    requires lo <= hi <= |bars| && NonNegativeVolumes(bars)
    ensures VolumeSum(bars, lo, hi) >= 0.0
    decreases hi - lo
  {
    if lo < hi {
      VolumeSumNonNegative(bars, lo, hi - 1);
    }
  }

  /** With non-negative volumes, every single volume of a range is at most the range's sum. */
  lemma {:induction false} VolumeSumCovers(bars: seq<Bar>, lo: nat, hi: nat, j: nat)
    requires lo <= j < hi <= |bars| && NonNegativeVolumes(bars)
    ensures bars[j].volume <= VolumeSum(bars, lo, hi)
    decreases hi - lo
  {
    if j < hi - 1 {
      VolumeSumCovers(bars, lo, hi - 1, j);
    } else {
      VolumeSumNonNegative(bars, lo, hi - 1);
    }
  }

  /**
   * The 20-bar mean is defined exactly from bar 19 on, and it is a mean:
   * it lies within any bounds the window's volumes lie within.
   */
  lemma MovingAverageWithin(bars: seq<Bar>, i: nat, least: real, greatest: real)
    requires i < |bars|
    requires forall j :: 0 <= j && i + 1 - Window <= j <= i ==> least <= bars[j].volume <= greatest
    ensures VolumeMA(bars, i).Some? <==> i >= Window - 1
    ensures VolumeMA(bars, i).Some? ==> least <= VolumeMA(bars, i).value <= greatest
  {
    if i >= Window - 1 {
      VolumeSumBounds(bars, i + 1 - Window, i + 1, least, greatest);
    }
  }

  /**
   * Because the trailing window includes the bar itself, a bar's volume is at
   * most 20 times the window's mean: the volume ratio never exceeds 2000%.
   */
  lemma RatioAtMost2000(bars: seq<Bar>, i: nat)
    requires i < |bars| && NonNegativeVolumes(bars)
    ensures VolumeRatio(bars, i).Some? ==> 0.0 <= VolumeRatio(bars, i).value <= 2000.0
  {
    if VolumeRatio(bars, i).Some? {
      var lo := i + 1 - Window;
      var total := VolumeSum(bars, lo, i + 1);
      var mean := total / Window as real;
      VolumeSumCovers(bars, lo, i + 1, i);
      VolumeSumNonNegative(bars, lo, i + 1);
      var v := bars[i].volume;
      assert mean > 0.0;
      assert v <= 20.0 * mean;
      QuotientAtMost(v, mean, 20.0);
    }
  }

  /** A non-negative quotient a / b with a at most c times b is at most c. */
  lemma QuotientAtMost(a: real, b: real, c: real)
    requires b > 0.0 && 0.0 <= a <= c * b
    ensures 0.0 <= a / b <= c
  {
    var q := a / b;
    assert q * b == a;
    assert (q - c) * b <= 0.0;
  }

  /**
   * The percent return is the growth of the close over the previous close:
   * compounding the previous close by it gives back today's close, and it is
   * positive exactly when the close rose.
   */
  lemma ReturnCompoundsPreviousClose(bars: seq<Bar>, i: nat)
    requires 0 < i < |bars| && PositivePrices(bars)
    ensures DailyReturn(bars, i).Some?
    ensures bars[i].close == bars[i - 1].close * (1.0 + DailyReturn(bars, i).value / 100.0)
    ensures DailyReturn(bars, i).value > 0.0 <==> bars[i].close > bars[i - 1].close
  {
    var prev, cur := bars[i - 1].close, bars[i].close;
    assert prev > 0.0;
    var growth := (cur - prev) / prev;
    assert growth * prev == cur - prev;
    assert DailyReturn(bars, i).value / 100.0 == growth;
    assert growth > 0.0 <==> cur - prev > 0.0;
  }

}
