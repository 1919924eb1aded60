/** The forecast horizon of `predictingTheStockPrices` in StockPricePredictor.py:
    a count of forecast years, starting at the current year, turned into the
    number of days handed to the forecaster. */
module Horizon {
  import opened Calendar

  /** Smallest and largest value of the "Years of prediction" slider. */
  const MinForecastYears := 1
  const MaxForecastYears := 4

  /** Days in calendar year y. */
  function YearLength(y: int): (days: int)
    ensures days == 365 || days == 366
  {
    if IsLeapYear(y) then 366 else 365
  }

  /** Total days of the years year, year + 1, ..., year + n - 1: the value
      `period` holds after the loop has processed its first n offsets.
      A non-positive count is an empty `range`, hence no days. */
  function HorizonDays(year: int, n: int): int
    decreases n
  {
    if n <= 0 then 0 else HorizonDays(year, n - 1) + YearLength(year + n - 1)
  }

  /** The loop over `range(0, n_years)` that accumulates `period`. */
  method ForecastHorizon(year: int, nYears: int) returns (period: int)
    ensures period == HorizonDays(year, nYears)
    ensures nYears >= 0 ==> 365 * nYears <= period <= 366 * nYears
  {
    if nYears >= 0 {
      HorizonBounds(year, nYears);
    }
    period := 0;
    var i := 0;
    while i < nYears
      invariant 0 <= i && (i == 0 || i <= nYears)
      invariant period == HorizonDays(year, i)
    {
      if IsLeapYear(year + i) {
        period := period + 366;
      } else {
        period := period + 365;
      }
      i := i + 1;
    }
  }

  /** Every year adds 365 or 366 days. */
  lemma {:induction false} HorizonBounds(year: int, n: int)
    requires n >= 0
    ensures 365 * n <= HorizonDays(year, n) <= 366 * n
  {
    if n > 0 {
      HorizonBounds(year, n - 1);
    }
  }

  /** A one-year horizon is 366 days exactly when the current year is a leap year. */
  lemma OneYearHorizon(year: int)
    ensures HorizonDays(year, 1) == 366 <==> IsLeapYear(year)
    ensures HorizonDays(year, 1) == 365 <==> !IsLeapYear(year)
  {
  }

  /** The horizon of n + m years is that of the first n years followed by that
      of the m years after them. */
  lemma {:induction false} HorizonSplit(year: int, n: int, m: int)
    requires n >= 0 && m >= 0
    ensures HorizonDays(year, n + m) == HorizonDays(year, n) + HorizonDays(year + n, m)
    decreases m
  {
    if m > 0 {
      HorizonSplit(year, n, m - 1);
    }
  }

  /** Each extra forecast year lengthens the horizon by at least 365 days, so
      the horizon is strictly increasing in the number of years. */
  lemma {:induction false} HorizonIncreasing(year: int, n: int, m: int)
    requires 0 <= n <= m
    ensures HorizonDays(year, n) + 365 * (m - n) <= HorizonDays(year, m)
    ensures HorizonDays(year, m) <= HorizonDays(year, n) + 366 * (m - n)
    ensures n < m ==> HorizonDays(year, n) < HorizonDays(year, m)
  {
    HorizonSplit(year, n, m - n);
    HorizonBounds(year + n, m - n);
  }

  /** Over the slider's range the horizon lies between 365 and 1464 days. */
  lemma SliderHorizonRange(year: int, n: int)
    requires MinForecastYears <= n <= MaxForecastYears
    ensures 365 <= HorizonDays(year, n) <= 1464
  {
    HorizonBounds(year, n);
  }

  /** Independent closed form: 365 days a year plus the leap years in the
      span, counted with the Gregorian divisibility rules. */
  lemma {:induction false} HorizonClosedForm(year: int, n: int)
    requires n >= 0
    ensures HorizonDays(year, n) == 365 * n + LeapsThrough(year + n - 1) - LeapsThrough(year - 1)
  {
    if n > 0 {
      HorizonClosedForm(year, n - 1);
      LeapsThroughStep(year + n - 1);
    }
  }

  /** A 400-year horizon is one full Gregorian cycle: 146097 days, whatever
      the starting year. */
  lemma GregorianCycle(year: int)
    ensures HorizonDays(year, 400) == 146097
  {
    HorizonClosedForm(year, 400);
    LeapsThroughCycle(year - 1);
  }

  /** The one multiple of four among year, ..., year + 3. */
  function MultipleOfFourIn(year: int): (c: int)
    ensures year <= c < year + 4 && c % 4 == 0
  {
    year + (4 - year % 4) % 4
  }

  /** A four-year horizon (the slider's maximum) has exactly one leap day,
      1461 days, unless the one multiple of four it spans is a century year
      not divisible by 400, when it has none. */
  lemma FourYearHorizon(year: int)
    ensures HorizonDays(year, MaxForecastYears) ==
            if IsLeapYear(MultipleOfFourIn(year)) then 1461 else 1460
  {
    var c := MultipleOfFourIn(year);
    assert HorizonDays(year, 4) ==
           YearLength(year) + YearLength(year + 1) + YearLength(year + 2) + YearLength(year + 3);
    var q, r := year / 4, year % 4;
    Residue(year, q, r, 0);
    Residue(year, q, r, 1);
    Residue(year, q, r, 2);
    Residue(year, q, r, 3);
  }

  /** The residue modulo four of year + k, from year == 4 * q + r. */
  lemma Residue(year: int, q: int, r: int, k: int)
    requires year == 4 * q + r && 0 <= r < 4 && 0 <= k < 4
    ensures (year + k) % 4 == (r + k) % 4
    ensures (r + k) % 4 != 0 ==> !IsLeapYear(year + k)
  {
    if r + k < 4 {
      DivUnique(year + k, 4, q, r + k);
    } else {
      DivUnique(year + k, 4, q + 1, r + k - 4);
    }
  }

  /** The end-to-end cases: 2024 is a leap year, so one forecast year is 366
      days; 2097 to 2100 span the non-leap century year 2100 and four years
      are only 1460 days. */
  lemma HorizonExamples()
    ensures HorizonDays(2024, 1) == 366
    ensures HorizonDays(2023, 1) == 365
    ensures HorizonDays(2024, 4) == 1461
    ensures HorizonDays(2097, 4) == 1460
  {
    FourYearHorizon(2024);
    FourYearHorizon(2097);
  }
}
