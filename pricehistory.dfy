/** The daily price history the dashboard charts, and the two computations it
    makes on it: trailing windows (`data.tail(k)`) and the previous day's
    change in closing price (StockPricePredictor.py, `stockPricesToday`,
    `plot_raw_data`, `pastTrends`). Prices are exact reals. */
module PriceHistory {

  /** One trading day of the history: OHLC prices on a calendar date. */
  datatype PriceBar = PriceBar(date: string, open: real, high: real, low: real, close: real)

  /** Window of the candlestick chart, `data.tail(30)`. */
  const CandlestickWindow := 30
  /** Window of the "Last 5 Days Trend" table, `data.tail()` (the default of 5). */
  const TrendWindow := 5

  function Min(a: int, b: int): int
  {
    if a <= b then a else b
  }

  /** `tail(k)`: the last min(k, |s|) rows, in their original order. */
  function Tail<T>(s: seq<T>, k: nat): (r: seq<T>)
    ensures |r| == Min(k, |s|)
    ensures s == s[..|s| - |r|] + r
    ensures |s| <= k ==> r == s
  {
    s[|s| - Min(k, |s|)..]
  }

  /** Row i of the window is row |s| - |window| + i of the history. */
  lemma TailIndex<T>(s: seq<T>, k: nat, i: nat)
    requires i < |Tail(s, k)|
    ensures Tail(s, k)[i] == s[|s| - Min(k, |s|) + i]
  {
  }

  /** A window of a window is the smaller window: the five-row trend table
      shows the last five candles of the 30-day chart. */
  lemma TailOfTail<T>(s: seq<T>, j: nat, k: nat)
    ensures Tail(Tail(s, k), j) == Tail(s, Min(j, k))
  {
  }

  lemma TrendWithinCandlestick(data: seq<PriceBar>)
    ensures Tail(data, TrendWindow) == Tail(Tail(data, CandlestickWindow), TrendWindow)
  {
    TailOfTail(data, TrendWindow, CandlestickWindow);
  }

  /** When a new trading day is appended, the window slides by one: it is the
      previous window plus the new day, trimmed back to k rows. */
  lemma TailSlide<T>(s: seq<T>, x: T, k: nat)
    ensures Tail(s + [x], k) == Tail(Tail(s, k) + [x], k)
  {
  }

  /** Change of the last close from the one before it, as shown under
      "Previous Day Change"; 0 when fewer than two bars exist. */
  function DayOverDayChange(data: seq<PriceBar>): (delta: real)
    ensures |data| < 2 ==> delta == 0.0
    ensures |data| >= 2 ==> data[|data| - 2].close + delta == data[|data| - 1].close
  {
    if |data| >= 2 then data[|data| - 1].close - data[|data| - 2].close else 0.0
  }

  /** The change depends only on the last two bars, so it is the same when
      computed on any trailing window of at least two rows. */
  lemma DayOverDayOfWindow(data: seq<PriceBar>, k: nat)
    requires k >= 2
    ensures DayOverDayChange(Tail(data, k)) == DayOverDayChange(data)
  {
  }

  /** Appending a new bar makes the change the new close minus the last one. */
  lemma DayOverDayAppend(data: seq<PriceBar>, bar: PriceBar)
    requires |data| >= 1
    ensures DayOverDayChange(data + [bar]) == bar.close - data[|data| - 1].close
  {
  }

  /** Exchanging the last two closes negates the change. */
  lemma DayOverDaySwap(data: seq<PriceBar>, a: PriceBar, b: PriceBar)
    ensures DayOverDayChange(data + [a, b]) == -DayOverDayChange(data + [b, a])
  {
  }

  /** Closes [100, 105] give +5 and [105, 100] give -5. */
  lemma DayOverDayExamples(d1: string, d2: string)
    ensures DayOverDayChange([PriceBar(d1, 100.0, 100.0, 100.0, 100.0),
                              PriceBar(d2, 105.0, 105.0, 105.0, 105.0)]) == 5.0
    ensures DayOverDayChange([PriceBar(d1, 105.0, 105.0, 105.0, 105.0),
                              PriceBar(d2, 100.0, 100.0, 100.0, 100.0)]) == -5.0
    ensures DayOverDayChange([]) == 0.0
  {
  }
}
