/**
 * The summary statistics computed over the result table's `Return_Percent`
 * column: trade count, mean return, win rate, best and worst trade.
 */
module Stats {

  datatype Summary = Summary(
    totalTrades: nat,
    averageReturn: real,
    winRate: real,
    bestTrade: real,
    worstTrade: real)

  function Sum(s: seq<real>): real
  {
    if s == [] then 0.0 else Sum(s[..|s| - 1]) + s[|s| - 1]
  }

  /** Column `max()`: an element that no element exceeds. */
  function Max(s: seq<real>): (m: real)
    requires |s| > 0
    ensures m in s
    ensures forall k :: 0 <= k < |s| ==> s[k] <= m
  {
    if |s| == 1 then s[0]
    else
      var rest := Max(s[..|s| - 1]);
      assert rest in s;
      if s[|s| - 1] > rest then s[|s| - 1] else rest
  }

  /** Column `min()`: an element that exceeds no element. */
  function Min(s: seq<real>): (m: real)
    requires |s| > 0
    ensures m in s
    ensures forall k :: 0 <= k < |s| ==> m <= s[k]
  {
    if |s| == 1 then s[0]
    else
      var rest := Min(s[..|s| - 1]);
      assert rest in s;
      if s[|s| - 1] < rest then s[|s| - 1] else rest
  }

  /** How many entries are strictly positive: `(Return_Percent > 0).sum()`. */
  function CountPositive(s: seq<real>): nat
  {
    if s == [] then 0 else CountPositive(s[..|s| - 1]) + if s[|s| - 1] > 0.0 then 1 else 0
  }

  /** The count of positive entries is at most the length, and reaches it or zero exactly at the extremes. */
  lemma {:induction false} CountPositiveRange(s: seq<real>)
    ensures CountPositive(s) <= |s|
    ensures CountPositive(s) == |s| <==> forall k :: 0 <= k < |s| ==> s[k] > 0.0
    ensures CountPositive(s) == 0 <==> forall k :: 0 <= k < |s| ==> s[k] <= 0.0
  {
    if s != [] {
      var front := s[..|s| - 1];
      CountPositiveRange(front);
      assert forall k :: 0 <= k < |front| ==> front[k] == s[k];
    }
  }

  /** A sum of n entries lies between n times any lower and n times any upper bound of them. */
  lemma {:induction false} SumBetween(s: seq<real>, lo: real, hi: real)
    requires forall k :: 0 <= k < |s| ==> lo <= s[k] <= hi
    ensures |s| as real * lo <= Sum(s) <= |s| as real * hi
  {
    if s != [] {
      SumBetween(s[..|s| - 1], lo, hi);
    }
  }

  /** Dividing a total known to lie between n*lo and n*hi by n gives a value between lo and hi. */
  lemma MeanBetween(total: real, count: nat, lo: real, hi: real)
    requires count > 0 && count as real * lo <= total <= count as real * hi
    ensures lo <= total / count as real <= hi
  {
    var n := count as real;
    var mean := total / n;
    assert mean * n == total;
    assert (mean - lo) * n >= 0.0;
    assert (hi - mean) * n >= 0.0;
  }

  /** `wins / n * 100` is a percentage: 100 exactly when every trade won, 0 exactly when none did. */
  lemma WinRatePercent(wins: nat, n: nat)
    requires 0 < n && wins <= n
    ensures 0.0 <= wins as real / n as real * 100.0 <= 100.0
    ensures wins as real / n as real * 100.0 == 100.0 <==> wins == n
    ensures wins as real / n as real * 100.0 == 0.0 <==> wins == 0
  {
    var fraction := wins as real / n as real;
    assert fraction * n as real == wins as real;
    MeanBetween(wins as real, n, 0.0, 1.0);
  }

  /**
   * `summary_stats` over the non-empty `Return_Percent` column: the trade
   * count, and best and worst trades that bound every trade and are each
   * some trade's return.
   */
  function Summarize(column: seq<real>): (r: Summary)
    requires |column| > 0
    ensures r.totalTrades == |column|
    ensures forall k :: 0 <= k < |column| ==> r.worstTrade <= column[k] <= r.bestTrade
    ensures r.bestTrade in column && r.worstTrade in column
  {
    Summary(|column|, Sum(column) / |column| as real,
            CountPositive(column) as real / |column| as real * 100.0,
            Max(column), Min(column))
  }

  /** The average return lies between the worst and the best trade. */
  lemma AverageBetweenWorstAndBest(column: seq<real>)
    requires |column| > 0
    ensures Summarize(column).worstTrade <= Summarize(column).averageReturn <= Summarize(column).bestTrade
  {
    var best, worst := Max(column), Min(column);
    SumBetween(column, worst, best);
    MeanBetween(Sum(column), |column|, worst, best);
  }

  /**
   * The win rate, the percentage of trades with a positive return, lies in
   * [0, 100]; it is 100 exactly when every trade made money, and 0 exactly
   * when none did.
   */
  lemma WinRateRange(column: seq<real>)
    requires |column| > 0
    ensures 0.0 <= Summarize(column).winRate <= 100.0
    ensures Summarize(column).winRate == 100.0 <==> forall k :: 0 <= k < |column| ==> column[k] > 0.0
    ensures Summarize(column).winRate == 0.0 <==> forall k :: 0 <= k < |column| ==> column[k] <= 0.0
  {
    CountPositiveRange(column);
    WinRatePercent(CountPositive(column), |column|);
  }

}
