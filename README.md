# Stockify forecast dashboard: verified model of its calculations

Stockify is a Streamlit dashboard (StockPricePredictor.py). It fetches a ticker's daily price history and company profile, shows recent trends and a news feed, and forecasts prices with Prophet. Most of it is glue around outside services. This project models the few exact computations inside it:

- **Calendar** (`calendar.dfy`): the Gregorian `isLeapYear` rule, plus a closed-form leap-year count used as an independent reference.
- **Horizon** (`horizon.dfy`): the loop in `predictingTheStockPrices` that turns the "Years of prediction" slider value (1 to 4) into the day count `period` given to the forecaster. `HorizonDays` is the specification function and `ForecastHorizon` is the loop, proved equal to it.
- **DateText** (`datetext.dfy`): `year = int(TODAY[:4])`, reading the year from today's `%Y-%m-%d` string. The error path (`int` raising ValueError) is `None`.
- **PriceHistory** (`pricehistory.dfy`): the OHLC history, the `tail(k)` windows behind the 30-day candlestick chart and the 5-row trend table, and the previous-day change in closing price.
- **NewsFeed** (`newsfeed.dfy`): the `min(15, len(articles))` bound, and the render loop as a method that returns the widgets it would put on the page.
- **Wrappers** (`wrappers.dfy`): an `Option` type.

Parameters stand in for the environment. The current year, or today's date string, is an argument instead of `date.today()`. The decoded article list is an argument instead of the NewsAPI response. The slider value is an argument too.

Python's `%` floors, while Dafny's `%` is Euclidean. Both give the same non-negative remainder for the positive divisors 4, 100 and 400. So `IsLeapYear` agrees with the Python function on every integer, negative years included. Prices are exact `real`s, not floats.

`Horizon.FourYearHorizon` gives the four-year horizon exactly. It is 1461 days when the span's one multiple of four is a leap year, and 1460 days otherwise. For example, 2097 to 2100 has no leap year, because 2100 is not one.

## Model

| member | source | states |
|---|---|---|
| Calendar.LeapYearRule | StockPricePredictor.py:43-44 | a year is a leap year iff it is a multiple of 4 and, if it is a century year, also a multiple of 400 |
| Calendar.LeapYearPeriodic | StockPricePredictor.py:43-44 | the leap-year rule repeats every 400 years |
| Calendar.LeapYearExamples | StockPricePredictor.py:43-44 | 2000 and 2024 are leap years; 1900 and 2023 are not |
| Calendar.LeapsThroughStep | StockPricePredictor.py:43-44 | the closed-form count m/4 - m/100 + m/400 goes up by one exactly at leap years |
| Calendar.LeapsThroughCycle | StockPricePredictor.py:43-44 | every 400-year span holds exactly 97 leap years |
| Horizon.ForecastHorizon | StockPricePredictor.py:129-136 | the loop's final `period` is the sum of 366 for each leap year and 365 otherwise over year..year+n_years-1, which is between 365·n and 366·n days; a non-positive count gives 0 |
| Horizon.HorizonBounds | StockPricePredictor.py:132-136 | for n ≥ 0 years, 365·n ≤ horizon ≤ 366·n |
| Horizon.OneYearHorizon | StockPricePredictor.py:132-136 | a one-year horizon is 366 days iff the current year is a leap year, else 365 |
| Horizon.HorizonSplit | StockPricePredictor.py:132-136 | the horizon of n + m years is the first n years' horizon plus the following m years' horizon |
| Horizon.HorizonIncreasing | StockPricePredictor.py:130-136 | each extra year adds between 365 and 366 days, so the horizon is strictly increasing in the year count |
| Horizon.SliderHorizonRange | StockPricePredictor.py:130-136 | for slider values 1..4 the horizon is between 365 and 1464 days |
| Horizon.HorizonClosedForm | StockPricePredictor.py:129-136 | the horizon equals 365·n plus the number of leap years in the span, counted in closed form |
| Horizon.GregorianCycle | StockPricePredictor.py:129-136 | a 400-year horizon is 146097 days from any starting year |
| Horizon.FourYearHorizon | StockPricePredictor.py:130-136 | the 4-year (slider maximum) horizon is 1461 days when the span's one multiple of four is a leap year, else 1460 |
| Horizon.HorizonExamples | StockPricePredictor.py:129-136 | 2024 with one year gives 366; 2023 with one year gives 365; 2024 with four years gives 1461; 2097 with four years gives 1460 |
| DateText.DecimalValue | StockPricePredictor.py:176 | a string of n digits denotes a number below 10^n |
| DateText.FirstFour | StockPricePredictor.py:176 | `TODAY[:4]` is a prefix of length min(4, length) |
| DateText.DecimalOfPadDigits | StockPricePredictor.py:175-176 | reading back a zero-padded numeral gives the number written |
| DateText.YearOfIsoDate | StockPricePredictor.py:175-176 | for a `DDDD-DD-DD` string the parse succeeds, and the year is the value of its first four digits, in 0..9999 |
| DateText.CurrentYearOfIsoDate | StockPricePredictor.py:175-176 | formatting a date as `%Y-%m-%d` and parsing its year gives back that year |
| DateText.CurrentYearRejects | StockPricePredictor.py:176 | a non-digit among the first four characters makes the model's parse return None. Python raises for every such character except whitespace, a sign, an underscore or a non-ASCII digit, and a `%Y-%m-%d` string holds none of these |
| DateText.CurrentYearOfEmpty | StockPricePredictor.py:176 | an empty date string has no year: `int("")` raises (None) |
| PriceHistory.Tail | StockPricePredictor.py:109 | `tail(k)` has min(k, length) rows, is a suffix of the history in original order, and is the whole history when it has at most k rows |
| PriceHistory.TailIndex | StockPricePredictor.py:109 | row i of the window is row length - min(k, length) + i of the history |
| PriceHistory.TailOfTail | StockPricePredictor.py:109-125 | a j-window of a k-window is the min(j, k)-window of the history |
| PriceHistory.TrendWithinCandlestick | StockPricePredictor.py:109-125 | the 5-row trend table shows the last five rows of the 30-day candlestick window |
| PriceHistory.TailSlide | StockPricePredictor.py:109 | appending a day slides the window: it becomes the old window plus the new day, trimmed to k rows |
| PriceHistory.DayOverDayChange | StockPricePredictor.py:83-84 | the change is 0 with fewer than two bars; otherwise the previous close plus the change equals the last close |
| PriceHistory.DayOverDayOfWindow | StockPricePredictor.py:83-84 | the change is the same when computed on any trailing window of at least two rows |
| PriceHistory.DayOverDayAppend | StockPricePredictor.py:83-84 | after a new bar is appended, the change is its close minus the previous last close |
| PriceHistory.DayOverDaySwap | StockPricePredictor.py:83-84 | exchanging the last two bars negates the change |
| PriceHistory.DayOverDayExamples | StockPricePredictor.py:83-84 | closes [100, 105] give 5, closes [105, 100] give -5, and an empty history gives 0 |
| NewsFeed.NewsCount | StockPricePredictor.py:23 | the article count rendered is at most 15 and at most the number available, and reaches one of the two |
| NewsFeed.RenderNewsFeed | StockPricePredictor.py:23-40 | the page holds the widgets of the first min(15, n) articles in order: title, then the image when present, then content, then link. Its headlines are those articles' titles. Every index the loop reads is valid |
| NewsFeed.HeadlinesOfFeed | StockPricePredictor.py:24-26 | the headlines of a rendered run of articles are their titles in order |
| NewsFeed.RenderedHeadlines | StockPricePredictor.py:23-26 | the page carries exactly min(15, n) headlines, and the i-th is the i-th article's title |

## Left out

- Streamlit widgets, layout and charts (`st.*`, `go.Figure`, `plot_plotly`): these are presentation only. The news feed's output is modelled as a list of widgets, and nothing else is rendered.
- yahooquery `Ticker` lookups, `load_data` and the company profile sidebar (`populateSideBar`): these are network clients. The price history is an input.
- The "today" table and `priceChangeToday` in `stockPricesToday`: they take a subtraction of two values the market-data service provides, with no logic of their own.
- The NewsAPI request and the JSON decode: network I/O. The decoded articles are an input. A missing `articles` key is not modelled.
- `ArticleWidgets`: `st.image` is called inside a `try` that ignores failures. The model shows an image exactly when `urlToImage` is present. It does not model an image URL that fails to load.
- Prophet model construction, fitting and prediction, its seasonality settings, and the logistic cap (maximum close plus 5% of the standard deviation): an opaque statistical library over floating point.
- The top-level `try`/`except` that turns KeyError, FileNotFoundError, TypeError, ValueError and ConnectionError into fixed messages: these depend on exceptions raised inside unseen libraries.
- `date.today()` and `strftime`: the clock is an argument. `DateText.IsoDate` formats the year as four zero-padded digits. How strftime's `%Y` pads years below 1000 depends on the platform and is not modelled.
- DateText.ParseDigits: models Python's `int` only on ASCII digit strings. Signs, surrounding whitespace, underscores and non-ASCII digits are parsed by Python but rejected here. None of them can occur in a `%Y-%m-%d` string.
- DateText.CurrentYearRejects: holds of the model's digits-only parse, not of Python's `int`. `int` accepts leading or trailing whitespace, a sign, an underscore between digits and non-ASCII digits, so `int(" 202")` is 202 where the model gives None. A `%Y-%m-%d` string holds none of these characters.
- The parse runs outside the `try` block, so a ValueError there would not be caught. The model returns `None` and does not model the uncaught crash.
- PriceHistory.Tail: takes `k` as a natural number. pandas' meaning of a negative `tail(n)` is not modelled, because the dashboard calls it only with 30 and 5.
- An empty price history at line 85: `stockPricesToday` runs inside the top-level `try`, reached through `pastTrends` (lines 122 and 193). After `reset_index` (line 93) the history has a RangeIndex, so `data['close'][len(data) - 1]` looks up the label -1 and raises KeyError. Lines 206-207 catch it and show "This company is not listed !". So an empty history is reported as an unlisted company. This is not modelled.
