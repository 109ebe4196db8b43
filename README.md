# StockAlert core in Dafny

A model of the two parts of the StockAlert dashboard that hold logic:

- **Indicator computation** (`calculate_indicators` in `utils/indicators.py`). From the daily
  closes and volumes it builds EMA12 and EMA26 with pandas' `ewm(span, adjust=False)` recursion
  (α = 2/(span+1), `ema[0] = close[0]`, `ema[i] = α·close[i] + (1−α)·ema[i−1]`), MACD = EMA12 − EMA26,
  Signal = the span-9 EMA of MACD, and an RSI from 14-row simple rolling means of the gain and
  loss columns. Module `Indicators` (`indicators.dfy`): pure functions over `seq<real>`, with lemmas.
- **Alert rules and aggregation** (`app.py`). Four independent rules look at the latest row:
  RSI strictly above the upper threshold, RSI strictly below the lower threshold, volume strictly
  above a factor times the 5-row mean volume, and a MACD/Signal crossover that compares with the
  row before. The fired labels are appended in that fixed order, one per line, and the stored text
  is stripped. The loop appends one row per symbol that has data and collects the rows whose alert
  is non-empty. The ticker list drops missing entries and keeps first occurrences. Module `Alerts`
  (`alerts.dfy`) holds the rules and the step-by-step `BuildAlert` method. Module `Watchlist`
  (`watchlist.dfy`) holds the ticker de-duplication and the `Scan` method, whose loop invariants tie
  the two accumulated lists to specification functions. Module `Options` (`option.dfy`) is the
  `Option` type.

Numbers are `real`, not IEEE doubles. Every place where pandas would produce NaN is an explicit
`None`:
- the delta on row 0;
- the rolling means before their window is full;
- the 0/0 ratio of a window with neither gains nor losses.

A comparison against NaN is false, so a `None` never fires a rule. When the loss average is zero
and the gain average is positive, `rs` is +∞ and the RSI is 100. The model writes that case out.

The code works on a copy (`df.copy()`). In Dafny the bars are values, so no operation can change
the caller's series.

Three points where the code departs from the usual textbook conventions for these indicators.
The model follows the code:
- **When the RSI starts.** The rolling means run over the zero-filled gain and loss columns with
  `min_periods=14`. So the RSI is defined from row 13 on, and the window on row 13 includes the
  filled zero of row 0. The usual convention starts the RSI once 14 deltas exist, on row 14.
- **A flat window.** When a window holds neither gains nor losses, the code divides 0 by 0 and gets
  NaN (`Indicators.RsiOfFlatSeries`). The usual convention gives 50 there.
- **Validity of MACD.** The code uses MACD and Signal from row 0 on. It has no flag that marks them
  valid only from row 26, once the slow EMA has a full span behind it.

The code does not check the thresholds against each other. The only constraints are the slider
ranges (upper 60–90, lower 10–40, factor 1.0–5.0). The model uses them only to prove that the two
RSI labels cannot fire together.

About the MACD rule: the code reads `iloc[-2]` only when the first conjunct,
`latest MACD > latest Signal`, holds, because `and` short-circuits. The rules therefore require
`Evaluable(f)`: the frame is non-empty and, if it has a single row, that row's MACD does not exceed
its Signal. Otherwise the code would raise an `IndexError`. `Alerts.ComputedFrameEvaluable` proves
that every non-empty computed frame meets this. Both EMAs start at the first close, so the first row
has MACD = Signal = 0.

## Model

| member | source | states |
|---|---|---|
| `Indicators.Alpha` | utils/indicators.py:10-11 | the smoothing factor 2/(span+1) of any span ≥ 1 lies in (0, 1] |
| `Indicators.Ema` | utils/indicators.py:10-11 | the EMA has one value per input value, starts at the first value and follows α·x[i] + (1−α)·ema[i−1] afterwards |
| `Indicators.EmaAtBounded` | utils/indicators.py:10-11 | if every value up to i lies in [lo, hi], so does the EMA at i |
| `Indicators.EmaWithinPrefixRange` | utils/indicators.py:10-11 | every EMA value lies between the minimum and the maximum of the prefix it was computed from |
| `Indicators.EmaOfConstant` | utils/indicators.py:10-11 | a constant series has that constant as its EMA on every row |
| `Indicators.EmaAtPrefix` | utils/indicators.py:10-11 | the EMA at row i depends only on rows 0..i |
| `Indicators.FirstRowMacdSignalZero` | utils/indicators.py:10-13 | on row 0 both EMAs equal the first close, so MACD and Signal are 0 |
| `Indicators.ConstantPriceFlatMacd` | utils/indicators.py:10-13 | a constant price gives MACD 0 and Signal 0 on every row |
| `Indicators.SignalWithinMacdRange` | utils/indicators.py:13 | Signal at row i lies between the smallest and largest MACD value of rows 0..i |
| `Indicators.Macd` | utils/indicators.py:12 | the MACD column has one value per close and is 0 on the first row (both EMAs start at the first close) |
| `Indicators.Signal` | utils/indicators.py:13 | the Signal column has one value per close and is 0 on the first row (the span-9 EMA starts at MACD[0] = 0) |
| `Indicators.Gain` | utils/indicators.py:17 | the gain is ≥ 0, and positive exactly when the close rose from the previous row; NaN on row 0 is filled with 0 |
| `Indicators.Loss` | utils/indicators.py:18 | the loss is ≥ 0, and positive exactly when the close fell from the previous row; NaN on row 0 is filled with 0 |
| `Indicators.Delta` | utils/indicators.py:16 | the delta is defined exactly from row 1 on (NaN on row 0) |
| `Indicators.GainLossSplitDelta` | utils/indicators.py:16-18 | gain and loss are ≥ 0 and at most one is non-zero; from row 1 on, gain − loss is the price change; on row 0 both are 0 |
| `Indicators.GainsNonNegative` | utils/indicators.py:17-18 | every entry of the gain and loss columns is ≥ 0 |
| `Indicators.RollingMean` | utils/indicators.py:19-20 | a rolling mean with min_periods = window is present exactly once the window is full, and is ≥ 0 over a non-negative column |
| `Indicators.AvgGain` | utils/indicators.py:19 | avg_gain is present exactly from row 13 on and is ≥ 0 |
| `Indicators.AvgLoss` | utils/indicators.py:20 | avg_loss is present exactly from row 13 on and is ≥ 0 |
| `Indicators.NetOfRow` | utils/indicators.py:16-18 | on each row gain − loss is the price change from the previous row, and 0 on row 0 |
| `Indicators.Telescope` | utils/indicators.py:16-20 | two columns whose row-wise difference is the price change (0 on row 0) differ in their window sums by the net change across the window |
| `Indicators.WindowNetChange` | utils/indicators.py:16-20 | over any window the sum of gains minus the sum of losses is the net price change across it |
| `Indicators.AverageNetChange` | utils/indicators.py:16-20 | from row 13 on, avg_gain − avg_loss equals the net price change over the window divided by 14 |
| `Indicators.RsiFormulaCases` | utils/indicators.py:21-22 | with losses, RSI = 100·gain/(gain+loss) in [0, 100); with gains but no losses, 100; with neither, NaN |
| `Indicators.RsiClosedForm` | utils/indicators.py:21-22 | 100 − 100/(1 + g/l) equals 100·g/(g+l) and lies in [0, 100) when l > 0 |
| `Indicators.RsiFromAverages` | utils/indicators.py:21-22 | for non-negative averages the result is NaN exactly when both are 0, otherwise in [0, 100], and exactly 100 when the loss average is 0 and the gain average positive (rs = +∞) |
| `Indicators.RsiAt` | utils/indicators.py:19-22 | the RSI at a row is NaN on rows 0–12 and lies in [0, 100] wherever it is defined |
| `Indicators.Rsi` | utils/indicators.py:21-27 | the RSI column has one entry per close, is NaN on rows 0–12, and every defined entry lies in [0, 100] |
| `Indicators.RsiInRange` | utils/indicators.py:16-22 | a defined RSI is 100 exactly when avg_loss is 0 |
| `Indicators.RsiDefinedFromRow13` | utils/indicators.py:19-22 | RSI is NaN on rows 0–12; from row 13 on it is NaN exactly when both averages are 0 |
| `Indicators.RsiOfRisingSeries` | utils/indicators.py:16-22 | a strictly rising series has RSI 100 from row 13 on |
| `Indicators.RsiOfFallingSeries` | utils/indicators.py:16-22 | a strictly falling series has RSI 0 from row 13 on |
| `Indicators.RsiOfFlatSeries` | utils/indicators.py:16-22 | a flat series has a NaN RSI on every row |
| `Indicators.CalculateIndicators` | utils/indicators.py:3-29 | the frame has exactly one row per bar, aligned index-for-index, with that bar's Close and Volume |
| `Indicators.IndicatorColumns` | utils/indicators.py:12-27 | on every row, MACD = EMA12 − EMA26 of the closes, Signal = EMA9 of the MACD column, and RSI is the RSI of the closes at that row |
| `Indicators.FirstRowFlat` | utils/indicators.py:10-13 | the first row of a computed frame has MACD = Signal = 0 |
| `Indicators.RollingMeanPrefix` | utils/indicators.py:19-20 | a rolling mean at row i does not depend on rows after i |
| `Indicators.RsiAtPrefix` | utils/indicators.py:16-22 | the RSI at row i does not depend on rows after i |
| `Indicators.MacdPrefix` | utils/indicators.py:10-13 | MACD and Signal of a prefix are the prefix of MACD and Signal |
| `Indicators.CalculateIndicatorsPrefix` | utils/indicators.py:3-29 | the frame of the first k bars is the first k rows of the full frame |
| `Alerts.SliderRanges` | app.py:16-18 | the slider intervals upper 60–90, lower 10–40 and factor 1.0–5.0; within them the lower threshold is below the upper one and the factor is positive |
| `Alerts.ComputedFrameEvaluable` | app.py:52 | every non-empty computed frame can be evaluated by the MACD rule without reading a missing row |
| `Alerts.Overbought` | app.py:46-47 | the overbought rule fires only on a defined (non-NaN) latest RSI |
| `Alerts.Oversold` | app.py:48-49 | the oversold rule fires only on a defined (non-NaN) latest RSI |
| `Alerts.LatestVolumeMean` | app.py:50 | the 5-row mean volume of the latest row is present exactly when there are at least 5 rows |
| `Alerts.VolumeSpikes` | app.py:50-51 | the volume rule fires only when the frame has at least 5 rows, so that the 5-row mean exists |
| `Alerts.BullishCrossover` | app.py:52-53 | the MACD rule fires only on a frame of at least 2 rows whose latest MACD is strictly above its Signal |
| `Alerts.FiredAlerts` | app.py:45-53 | a label is fired exactly when its rule holds (each rule checked on its own) and the fired labels are in the fixed order overbought, oversold, volume spike, crossover |
| `Alerts.RuleSemantics` | app.py:46-53 | in terms of the rows: strict > against the upper threshold, strict < against the lower one, a NaN RSI fires neither; strict > of volume against factor × 5-row mean, which needs 5 rows; MACD > Signal now and MACD < Signal on the row before |
| `Alerts.AlertText` | app.py:45-53 | the accumulated `alert` string, label + "\n" per fired rule in order (that `+=` step is `AlertTextAppend`); it is empty exactly when no rule fired |
| `Alerts.AlertTextAppend` | app.py:45-53 | appending labels with `+=` distributes over concatenation of the fired lists |
| `Alerts.BuildAlert` | app.py:45-53 | building the text with `+=` gives each fired label followed by a newline, in rule order |
| `Alerts.Label` | app.py:47-53 | each rule's label is longer than one character; the definition holds the literal text of the source (the emoji U+1F4C8, U+1F4C9, U+1F6A8 or U+2705, a space, the words), and `LabelShape` and `LabelsDistinct` state its shape |
| `Alerts.LabelsDistinct` | app.py:47-53 | different rules have different labels |
| `Alerts.LabelShape` | app.py:47-53 | every label is one line that neither starts nor ends with whitespace |
| `Alerts.JoinedLabelsShape` | app.py:45-53 | the built text is the fired labels joined by newlines plus one trailing newline |
| `Alerts.StoredAlertText` | app.py:62 | `strip()` of the built text removes exactly the trailing newline, and the stored text is empty exactly when no rule fired |
| `Alerts.IsSpace` | app.py:62 | the whitespace set of Python's `str.isspace`, which `strip()` removes; it contains space, tab, newline and carriage return and no ASCII letter or digit |
| `Alerts.Strip` | app.py:62 | `strip()` never lengthens the text; what it removes is stated by the three lemmas below |
| `Alerts.StripCutsOnlyWhitespace` | app.py:62 | the stripped text neither starts nor ends with whitespace and is a slice `s[a..b]` of the input with only whitespace before `a` and from `b` on |
| `Alerts.StripLeftShape` | app.py:62 | removing leading whitespace leaves a suffix that does not start with whitespace, and everything removed is whitespace |
| `Alerts.StripRightShape` | app.py:62 | removing trailing whitespace leaves a prefix that does not end with whitespace, and everything removed is whitespace |
| `Alerts.RsiLabelsExclusive` | app.py:16-17 | within the slider ranges both RSI labels never fire together |
| `Alerts.CrossoverIsEdgeTriggered` | app.py:52-53 | a crossover cannot hold on two consecutive rows, and equality on the previous row does not fire it |
| `Alerts.DailyCrossover` | app.py:52-53 | the MACD rule evaluated on the first k bars fires exactly when the full frame crosses at row k−1; a one-bar series never fires it |
| `Alerts.CrossoverNotOnConsecutiveDays` | app.py:52-53 | evaluated on two successive days of one series, the MACD rule never fires on both |
| `Alerts.ConstantPriceNoCrossover` | app.py:52-53 | a constant close price never fires the MACD rule |
| `Watchlist.DropMissing` | app.py:25 | `dropna()` keeps exactly the present entries |
| `Watchlist.DropMissingAppend` | app.py:25 | `dropna()` works entry by entry: the result for a concatenation is the concatenation of the results, so order and repeats are kept |
| `Watchlist.DropMissingSingle` | app.py:25 | a missing entry gives nothing and a present entry gives itself |
| `Watchlist.DropMissingKeepsFirstOccurrenceOrder` | app.py:25 | two values whose first occurrences are in some order after `dropna()` were first present in the column in the same order |
| `Watchlist.Unique` | app.py:25 | `unique()` keeps exactly the values of its input, each once |
| `Watchlist.UniqueKeepsFirstOccurrenceOrder` | app.py:25 | the unique values are ordered by their first occurrence in the input |
| `Watchlist.LoadTickers` | app.py:25-28 | the ticker list holds exactly the tickers present in the column, each once |
| `Watchlist.LoadTickersSpec` | app.py:22-28 | the tickers are ordered by their first occurrence after `dropna()`, hence by their first present occurrence in the column; with `LoadTickers` this determines the list |
| `Watchlist.SymbolRow` | app.py:42-63 | a symbol's row carries its ticker, its latest close and volume, the exact (unrounded) RSI, MACD and Signal of its last row, and its alert is the fired labels joined by newlines |
| `Watchlist.Outcome` | app.py:38-41 | a symbol gives a row exactly when its download succeeds with a non-empty series |
| `Watchlist.Rows` | app.py:37-65 | the loop appends at most one row per visited symbol (the row-by-row correspondence is `RowsFollowProcessedTickers`) |
| `Watchlist.Triggered` | app.py:66-67 | at most one collected row per row, and every collected row has a non-empty alert |
| `Watchlist.RowsStep` | app.py:37-65 | visiting one more symbol appends exactly the row that symbol contributes, if any |
| `Watchlist.TriggeredSnoc` | app.py:66-67 | appending a row appends it to the collected rows exactly when its alert is non-empty |
| `Watchlist.ScanSymbol` | app.py:38-67 | one pass of the loop body gives the symbol's row, if any, and whether its raw alert text is non-empty, which holds exactly when the stored stripped text is non-empty |
| `Watchlist.Scan` | app.py:34-67 | the loop leaves `data` equal to the rows of the symbols with data, in ticker order, and `alerts_triggered` equal to the rows among them whose alert is non-empty |
| `Watchlist.RowsFollowProcessedTickers` | app.py:37-65 | collects `RowTickers` and `ProcessedIsSubsequence`: one row per symbol with data, in ticker order, and the symbols with data form a subsequence of the list |
| `Watchlist.RowTickers` | app.py:37-65 | the rows carry the tickers of the symbols with data, one each, in order, and each row is the row that ticker's download produces |
| `Watchlist.ProcessedIsSubsequence` | app.py:37-41 | the symbols with data form an order-preserving subsequence of the ticker list |
| `Watchlist.NoRowWithoutData` | app.py:40-41 | a symbol whose series is empty or whose download fails adds no row |
| `Watchlist.TriggeredFilter` | app.py:66-67 | a row is collected exactly when it is a row of `data` with a non-empty alert, and the collected rows keep their order |
| `Watchlist.TriggeredAppend` | app.py:65-67 | collecting distributes over concatenation: each symbol's row joins the collected rows in turn |
| `Watchlist.TriggeredIffSomeRuleFires` | app.py:45-67 | a symbol's row is collected exactly when at least one rule fires for it |

## Left out

- User interface: the Streamlit page, sidebar widgets, success and info messages and the table
  (app.py:9-19, 31, 73, 78-80). This is display only. The slider bounds of app.py:16-18 are kept as
  the `SliderRanges` predicate.
- Market-data download, `yf.download` (app.py:39). This is a network call. The model takes it as a
  parameter `feed: string -> Download` that gives the bars of a symbol, or `DownloadFailed`.
- The broad `try/except` with `st.error` (app.py:38, 69-70). It is modelled only as "a failed
  download appends no row". The error message is display.
- CSV reading in `load_tickers` (app.py:24, 27). This is file I/O. Only `dropna().unique()` of an
  already-read column is modelled.
- `email_alerts.py` in full: environment credentials, the body formatting and SMTP transport. The
  model stops at the `alerts_triggered` list handed to it.
- IEEE-754 behaviour: rounding, NaN propagation beyond the explicit `None` cases, signed zeros and
  overflow. Also the display rounding `round(…, 2)` of RSI, MACD and Signal (app.py:58-60). The row
  keeps the exact values.
- The `int(...)` of the volume (app.py:61). Volumes are natural numbers in the model.
- `df[['Close', 'Volume']]` selection with column multi-indexes, which some downloader versions
  return: the model's bars carry exactly a close and a volume.
- Exceptions other than a failed download. Over `real` values `calculate_indicators` and the rules
  cannot raise. The one read that could fail, of the second-to-last row, is proved never to happen
  on a computed frame.
