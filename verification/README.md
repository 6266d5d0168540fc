# Signal ledger reconciliation, modelled in Dafny

This project models the core of a stock-signal tracker. Every cycle, the tracker appends newly generated Buy/Sell signals to a ledger sheet and sends an alert for each Buy. It then re-reads the whole ledger, pairs each Sell with the pending Buy of the same stock, and overwrites two summary sheets: the closed trades, and one row of totals (trades, winning trades, win ratio, total P&L).

The model covers the two functions of `google_sheets.py` that hold this logic:

- `log_summary_metrics` is modelled as `Reconcile.LogSummaryMetrics`. The ledger it reads is an input grid of text cells. The run ends in one of four ways:
  - `HeaderOnly`: the early exit for a ledger of at most one row.
  - `Failed`: a column the run reads is missing from the header. Python raises a `KeyError`, which the run catches.
  - `NoPairs`: the early exit when the pass closes no trade.
  - `Logged`: the trades and the summary that would be written.
- The pairing loop is modelled twice:
  - `Pairing.Walk` is a left fold of `Pairing.Step` over the date-sorted entries. It carries a `map<string, (int, int)>` of open positions and a growing trade list. `Pairing.Run` is that fold together with what is proved about it, and is what a run uses.
  - `Pairing.PairTrades` is the same loop written imperatively, as in the source.

  Both are compared against a reference definition, `Pairing.ExpectedTrades`. That definition looks back along the rows: a stock has a pending buy exactly when its latest Buy-or-Sell row is a Buy.
- `log_to_google_sheets` is modelled as `Alerts.LogToSheets`. It returns the rows that would be appended and the Buy alerts that would be sent.

Modules follow the pipeline:

- `PyText`: Python's `str.strip()` and `str.lower()`.
- `Ledger`: entries, column lookup, and coercion with dropping of bad rows.
- `DateSort`: the date sort.
- `Pairing`: the Buy/Sell walk.
- `Metrics`: the summary figures.
- `Reconcile`: one whole run, plus the two summary sheets.
- `Alerts`: the appended rows and their alerts.

Modelling choices:

- **Reconciliation is a pure function.** A run is a function of the ledger grid and the two coercions, so an unchanged ledger gives the same trades and summary every time.
- **Prices and dates are integers.** Prices are in minor currency units (paise), so `round(x, 2)` on a price or a P&L is the identity. Dates are day numbers.
- **Coercion is a parameter.** `pd.to_numeric(errors='coerce')` and `pd.to_datetime(errors='coerce')` become function parameters of type `string -> Option<int>`, where `None` stands for NaN/NaT.
- **The win ratio is an exact `real`.** It equals winning / total × 100.
- **Signal text is classified once.** A signal cell is classified (`Ledger.ActionOf`) when its entry is built. The source normalises it inside the loop (line 85), which gives the same result.
- **Strip matches Python exactly.** `str.strip()` removes exactly the characters for which `str.isspace()` holds, and `PyText.IsSpace` lists that set.
- **Lower-casing is ASCII only.** The only non-ASCII characters whose Python lower-case form contains ASCII letters are U+0130 (lower-cases to "i" plus a combining dot) and U+212A, the Kelvin sign (lower-cases to "k"). Neither letter occurs in "buy" or "sell", so comparisons against those two words come out the same either way.
- **Ties in date order are broken stably; the date facts hold for any order.** `df.sort_values('Date')` uses pandas' default quicksort, which is not stable. The model sorts with a stable insertion sort (`DateSort.SortByDate`). The date properties (`Pairing.TradesInDateOrder`) are proved for every date-sorted sequence, so they hold however pandas orders ties. Which trade a same-day Buy/Sell pair produces does depend on tie order, and only the stable choice is modelled for that.
- **Early exits write nothing.** A ledger of at most one row (google_sheets.py:70-72), and a ledger whose pass closes no trade (google_sheets.py:105-107), return before either summary sheet is touched. The outcomes `HeaderOnly` and `NoPairs` carry no trades and no summary.
- **Columns are read by header name.** The run looks up the headers `Stock`, `Date`, `Signal` and `Close` (`Ledger.StockColumn` and the like).
- **Column lookups happen in code order.** `Close` and `Date` are read before rows are dropped (google_sheets.py:75-77). `Stock` and `Signal` are read only inside the loop (lines 84-85), so a header without them fails only if some row survives coercion. `Reconcile.ReadEntries` keeps that order, and reports the first missing column in it.

## Model

| member | source | states |
|---|---|---|
| PyText.Strip | google_sheets.py:85 | `strip()` yields the infix that remains after removing leading and trailing whitespace. It is empty iff the cell is all whitespace; otherwise it starts and ends with a non-space character. |
| PyText.StripPadded | google_sheets.py:85 | Any whitespace padding around a word disappears under `strip()`. |
| PyText.NormalizeMatches | google_sheets.py:85 | `strip().lower()` equals a lower-case word iff the cell is that word, in any ASCII case, surrounded by any whitespace (both directions). |
| Ledger.ActionOf | google_sheets.py:85-91 | A cell is a Buy iff its normal form is "buy", a Sell iff it is "sell", and is ignored otherwise. |
| Ledger.IndexOf | google_sheets.py:74-76 | Column lookup by header name finds the first matching header, and fails iff the header lacks that name. |
| Ledger.Survivors | google_sheets.py:75-77 | The rows kept after coercion are no more than the input rows, and each is some input row whose price and date both parsed. |
| Ledger.SurvivorsAppend | google_sheets.py:77 | Dropping works row by row: the survivors of two batches are the survivors of each, in order. |
| Ledger.DropsExactlyUnparsable | google_sheets.py:75-77 | A row is kept iff both its price and its date parse, and it is kept with exactly those values. Otherwise the result is unchanged and nothing fails. |
| DateSort.Insert | google_sheets.py:78 | Inserting into date-sorted entries keeps them sorted and adds exactly that entry. |
| DateSort.SortByDate | google_sheets.py:78 | The sorted ledger is date-ascending and a permutation (same multiset) of the valid entries. |
| DateSort.SortKeepsCounts | google_sheets.py:78 | Sorting keeps the number of Buy rows and of Sell rows. |
| Pairing.Step | google_sheets.py:89-103 | A Buy maps its stock to exactly that row's (date, price), replacing any earlier pending buy. A Sell with a pending buy emits one trade (same stock, popped buy date/price, this row's sell date/price, P&L = sell − buy) and removes the stock. Anything else changes nothing. Other stocks are never touched. |
| Pairing.PairTrades | google_sheets.py:80-103 | The imperative loop yields exactly the reference trades, and its final map holds exactly the pending buys. |
| Pairing.OpenMatchesPending | google_sheets.py:89-92 | After the walk, a stock has an open position iff its latest Buy/Sell row is a Buy, and the position holds that row's date and price. |
| Pairing.TradesMatchExpected | google_sheets.py:83-103 | The walk emits exactly the trades the reference definition expects, in emission order. |
| Pairing.TradeCountBounds | google_sheets.py:89-103 | Along the walk, trades ≤ valid Sell rows, and trades + open positions ≤ valid Buy rows. |
| Pairing.Run | google_sheets.py:80-103 | The pass emits exactly the reference trades (`Pairing.ExpectedTrades`); it emits at most one trade per valid Sell row, and at most one trade or open position per valid Buy row. |
| Pairing.DatesWithin | google_sheets.py:89-103 | No pending buy, and neither the buy date nor the sell date of any trade, is after the dates of the rows read so far. |
| Pairing.TradesInDateOrder | google_sheets.py:78-103 | On any date-ascending order of the rows, every trade has buy date ≤ sell date, and trades come out in ascending sell-date order. |
| Pairing.StocksIndependent | google_sheets.py:84-103 | A stock's trades and pending buy are those of a walk over that stock's rows alone, however other stocks' rows are interleaved. |
| Pairing.TradesTraceable | google_sheets.py:89-103 | Every trade pairs a Buy row with a later Sell row of the same stock, at their dates and prices, with P&L = sell − buy. Every open position comes from a Buy row of its stock. |
| Pairing.BuyThenSell | google_sheets.py:89-103 | Buy A@10 then Sell A@15 gives one trade with P&L 5. |
| Pairing.RepeatedBuyReplaces | google_sheets.py:89-90 | Buy A@10, Buy A@12, Sell A@20 closes the second buy with P&L 8. |
| Pairing.UnmatchedSell | google_sheets.py:91 | A lone Sell gives no trade and no position. |
| Pairing.InterleavedStocks | google_sheets.py:91-103 | A Sell of B between a Buy and a Sell of A does not pair across stocks. |
| Metrics.Wins | google_sheets.py:110 | Winning trades never exceed total trades. |
| Metrics.WinsCountsWinners | google_sheets.py:110 | The win count is the number of positions whose trade has a P&L strictly above zero. |
| Metrics.TotalPnlSign | google_sheets.py:111 | The summed P&L is ≥ 0 when no trade loses and ≤ 0 when no trade wins. |
| Metrics.Percent | google_sheets.py:112 | winning / total × 100 times the total is winning × 100; it lies in [0, 100], and is 100 or 0 exactly when all or none of the trades win. |
| Metrics.WinsAppend | google_sheets.py:110-111 | Win count and total P&L add up over concatenated trade lists. |
| Metrics.WinsExtremes | google_sheets.py:110 | Wins equal the trade count iff every P&L is strictly positive, and are zero iff none is. |
| Metrics.RatioFacts | google_sheets.py:112 | winning / total × 100 lies in [0, 100]. It is 100 iff all trades win and 0 iff none does. |
| Metrics.Summarize | google_sheets.py:109-112 | Total = number of trades. Winning = number of trades with P&L > 0, and ≤ total. Total P&L = the sum of the trades' P&L. The ratio × total = winning × 100, with the ratio in [0, 100]. The ratio is 100 or 0 exactly at all wins or no wins. |
| Metrics.BreakEvenCountsOnlyAsTrade | google_sheets.py:110-111 | A zero-P&L trade raises the trade count but neither the wins nor the total P&L. |
| Metrics.MixedOutcomes | google_sheets.py:109-112 | P&L {+5, −2, 0} gives 3 trades, 1 win, total 3, and a ratio of one third × 100. |
| Reconcile.SurvivorsWidth | google_sheets.py:74-77 | Surviving rows keep the header's width, so their Stock and Signal cells exist. |
| Reconcile.ReadEntries | google_sheets.py:74-85 | Reading succeeds iff `Close` and `Date` are in the header and, unless no row survives coercion, so are `Stock` and `Signal`. A failure names the first missing column in lookup order (Close, Date, Stock, Signal). On success the entries are exactly the data rows whose price and date coerce, in ledger order, each carrying its `Stock` cell, coerced date, classified `Signal` and coerced price. |
| Reconcile.LogSummaryMetrics | google_sheets.py:69-112 | Header-only iff at most one row. A failed read ends as `Failed` with that read's missing column. A readable ledger ends with no pairs iff the reference pairing of its date-sorted entries closes no trade, and otherwise logs exactly those trades with `Metrics.Summarize` of them. A logged run has at least one trade, a ratio in [0, 100], buy ≤ sell dates, and ascending sell dates. |
| Reconcile.LoggedTradesBounded | google_sheets.py:89-107 | A run over readable rows logs or reports no pairs. Logged trades ≤ valid Sells and ≤ valid Buys. No valid Sell or no valid Buy means no summary is written. |
| Reconcile.LoggedTradesArePairs | google_sheets.py:78-107 | On every readable ledger, a run logs trades iff the reference pairing of the date-sorted entries has some. The logged trades are exactly those, each tracing back to a Buy row and a later Sell row of its stock. |
| Reconcile.TradesSheet | google_sheets.py:120-125 | The trades sheet is its header followed by one row per trade, in emission order, each field (buy date, sell date, stock, buy price, sell price, P&L) under the column whose title names it. |
| Reconcile.SummarySheet | google_sheets.py:134-136 | The summary sheet is its header and exactly one row of four figures, each under the column whose title names it (total trades, winning trades, win ratio, total P&L). |
| Alerts.BuildRows | google_sheets.py:25-35 | One appended row per signal, carrying the same timestamp, the stock, and the signal's date, text and close. |
| Alerts.Select | google_sheets.py:40-47 | Every alert comes from a selected row, and there are no more alerts than rows. |
| Alerts.SelectAppend | google_sheets.py:40-47 | Alerts follow row order: alerts of two batches are each batch's alerts in turn. |
| Alerts.SelectCount | google_sheets.py:40-47 | There is exactly one alert per selected row. |
| Alerts.SelectKeepsAll | google_sheets.py:40-47 | Every selected row gets its alert. |
| Alerts.BuyAlerts | google_sheets.py:40-47 | The alert count equals the number of Buy rows. Each Buy row's (stock, date, price) is alerted, and every alert is some Buy row's. |
| Alerts.BuyAlertsAppend | google_sheets.py:40-47 | Buy alerts keep the order of their rows. |
| Alerts.BuyRowIffPaddedBuy | google_sheets.py:41-42 | A row is alerted on iff its signal is "buy" in any ASCII case with any surrounding whitespace. |
| Alerts.LogToSheets | google_sheets.py:24-49 | The appended rows are exactly one row per signal, stamped with the stock and the time, and the alerts are exactly the Buy alerts of those rows. No signals means no append and no alerts. There are as many alerts as Buy signals; every Buy signal is alerted with its stock, date and price, and every alert is one of those. |

## Left out

- The gspread client, credentials, and the worksheet open/create/clear/update/append calls (google_sheets.py:12-20, 69, 114-136) are remote I/O. The ledger is an input grid, and the two summary sheets are returned values (`Reconcile.TradesSheet`, `Reconcile.SummarySheet`).
- The grid is assumed rectangular (`Ledger.Rectangular`), as the sheet read returns it. Ragged rows, which pandas would pad or reject, are not modelled.
- Duplicate header names are not modelled. Lookup uses the first occurrence, whereas pandas would select several columns.
- Telegram delivery (google_sheets.py:47) is a foreign network call. The model gives only the alerts that would be sent. The alert's message text (emoji, Markdown, price formatting) is not modelled.
- `datetime.now()` is a clock reading, so it becomes the `now` parameter. `print` logging is left out.
- Float arithmetic and `round(..., 2)` are left out. Prices are exact integers in minor units, and the win ratio is an exact real.
- Metrics.Summarize: the win ratio is not rounded to two decimals, because prices and ratios are modelled exactly rather than as floats.
- Date formatting with `strftime("%Y-%m-%d")` is not modelled. Dates are day numbers in the trade rows.
- Parsing is abstract. The model does not say which strings `pd.to_numeric` and `pd.to_datetime` accept.
- Ledger.SurvivorsAppend: coercion is modelled cell by cell, so whether a row survives depends on that row alone. From pandas 2.0 on, `pd.to_datetime(errors='coerce')` infers one date format from the first non-null value of the column and coerces the other cells against it, so whether a date cell parses can depend on other rows. The row-by-row reading of `Ledger.SurvivorsAppend` and `Ledger.DropsExactlyUnparsable` holds in the model, not for pandas' column-wide inference.
- The broad `except Exception` boundaries (google_sheets.py:61-63, 139-140) are left out. Only the `KeyError` for a missing column is modelled, as `Failed`.
- `get_signals_from_sheet` (google_sheets.py:53-63) is a plain read for display.
- All of main.py is left out: the Flask routes, signal generation, the `trades.csv` journal and the per-stock orchestration. These are I/O or calls into modules that are not part of this model. main.py separately sends a second alert for a stock's latest Buy, using `lower()` without `strip()`; that path is not part of this model either.
