/** The daily price history the analyzer receives from its data provider. */
module Series {

  /** One trading day: its date as a day number, its closing price and its traded volume. */
  datatype Bar = Bar(date: int, close: real, volume: real)

  /** The provider returns one bar per trading day, in ascending date order, dates unique. */
  predicate IncreasingDates(bars: seq<Bar>)
  {
    forall i, j :: 0 <= i < j < |bars| ==> bars[i].date < bars[j].date
  }

  /** Closing prices are positive, so every percent change below is defined. */
  predicate PositivePrices(bars: seq<Bar>)
  {
    forall i :: 0 <= i < |bars| ==> bars[i].close > 0.0
  }

  /** Volumes are share counts. */
  predicate NonNegativeVolumes(bars: seq<Bar>)
  {
    forall i :: 0 <= i < |bars| ==> bars[i].volume >= 0.0
  }

  predicate WellFormed(bars: seq<Bar>)
  {
    IncreasingDates(bars) && PositivePrices(bars) && NonNegativeVolumes(bars)
  }

}
