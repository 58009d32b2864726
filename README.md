# Portfolio simulator and SEC filing reader, modelled in Dafny

This project models the two computational cores of a thesis codebase that
back-tests an equal-weight stock portfolio and reads income statements out of
SEC EDGAR filings:

- `stock.dfy` (module `Stocks`) is one held instrument: a `Stock` object whose
  `update_price` and `update_quantity` overwrite its fields in place. It is
  proved against the value `StockState` and its `WithPrice`/`WithQuantity`.
- `portfolio.dfy` (module `Portfolios`) is the `Portfolio` object.
  - It covers the three opening strategies (equal weight, best stock, market
    index), `update_worth`, `update_prices`, `buy_stock` with the 50% weight
    ceiling, `sell_stock` with the 5% weight floor, and the day loop of
    `simulation`.
  - Every method is proved against a function on the value `Account` (cash,
    insertion order of the positions, positions, trade ledger). The
    properties of the portfolio are lemmas about those functions: sound books
    are kept, `cash + Σ position` is conserved by trading, and the ceiling and
    floor are respected.
- `data.dfy` (module `Filings`) is the `Data` object.
  - It covers the ticker to central-index-key lookup and the 10-K/10-Q filter,
    reverse and 25-record tail of the filing index.
  - The core is the reading of the operations statement in `process_quarterly`:
    page selection by a centred heading, the first wide table, row cleaning,
    label matching against the fixed vocabulary (first match wins), and the
    formatting of a figure cell.
  - `process_filings` stores the statements of the 10-Q records among the
    first two records of the index.

Money is integer cents. Prices in the price history are rounded to two
decimals, so every price is a whole number of cents, `price * quantity` is
exact and `round(x, 2)` is the identity. The weight rules become integer
divisions:

- `floor(worth * 0.5 / price)` is `worth / (2 * price)`;
- `floor(worth * 0.05 / price)` is `worth / (20 * price)`;
- the equal-weight quantity `floor((cash / n) / price)` is `cash / (n * price)`.

A figure read with `float()` is kept exactly as a sign, its decimal digits and
the number of digits after the point, so no rounding enters the model.

The HTML layer of a filing is abstracted.

- A filing is a sequence of pages.
- A page holds its candidate heading elements, each as tag name, style, text
  and whether a table is nested in it, and its tables.
- A table is a flag saying whether its style width exceeds 99.5%, and its rows
  of stripped cell texts.

Network responses are parameters:

- the ticker table;
- the filing index the server sent, or None for a failed request;
- a function from accession number to the fetched pages, or None for a failed
  request.

Two behaviours of the code differ from what its design suggests. The model
follows the code in both:

- A cell in parentheses is negated only when it has a decimal point. `"(1,234)"`
  reads as +1234 (data.py:148-150). `Filings.ParseValueInt` states this.
- `buy_stock` can sell. When the held quantity already exceeds the ceiling,
  `max - quantity` is negative, so shares are sold and cash rises
  (portfolio.py:199-209). `Portfolios.BuyCanSell` and
  `Portfolios.BuyCanSellExample` state this.

## Model

| member | source | states |
|---|---|---|
| Stocks.StockState.WithPrice | stock.py:34-40 | the new state has the new price and position = price * quantity; ticker, quantity and trade log are unchanged |
| Stocks.StockState.WithQuantity | stock.py:42-48 | the new state has the new quantity and position = quantity * price; ticker, price and trade log are unchanged |
| Stocks.Opened | stock.py:8-32 | a new stock holds the given ticker, price and quantity, position = price * quantity (rounding to cents is exact) and an empty trade log |
| Stocks.UpdatesCommute | stock.py:34-48 | updating price then quantity reaches the same state as the other order, namely (ticker, p, q, p * q, trades) |
| Stocks.UpdatesIdempotent | stock.py:34-48 | each update applied twice equals applying it once, and a later update replaces an earlier one |
| Stocks.UpdateToSameValue | stock.py:34-48 | on a consistent state, updating a field to its own value changes nothing |
| Stocks.Stock.constructor | stock.py:8-32 | the object's fields are the state `Opened` describes, with price and quantity 0 by default |
| Stocks.Stock.UpdatePrice | stock.py:34-40 | the fields become old state `.WithPrice(p)`; position stays price * quantity |
| Stocks.Stock.UpdateQuantity | stock.py:42-48 | the fields become old state `.WithQuantity(q)`; position stays price * quantity |
| Portfolios.MaxQuantity | portfolio.py:193 | the ceiling quantity is non-negative for a non-negative worth |
| Portfolios.MaxQuantityIsFloor | portfolio.py:193 | the ceiling quantity q is floor(worth * 0.5 / price): 2 * price * q <= worth < 2 * price * (q + 1) |
| Portfolios.TargetQuantity | portfolio.py:231 | the floor quantity is non-negative for a non-negative worth |
| Portfolios.TargetQuantityIsFloor | portfolio.py:231 | the floor quantity q is floor(worth * 0.05 / price): 20 * price * q <= worth < 20 * price * (q + 1) |
| Portfolios.Affordable | portfolio.py:196 | the affordable quantity is non-negative for non-negative cash |
| Portfolios.AffordableIsFloor | portfolio.py:196 | floor(cash / price) leaves 0 <= cash - price * q < price |
| Portfolios.BoughtQuantity | portfolio.py:196-205 | the new holding is min(held + floor(cash / price), ceiling), and the bought quantity never exceeds what the cash affords |
| Portfolios.BuyKeepsCashNonNegative | portfolio.py:196-210 | a purchase leaves cash >= 0 and a non-negative holding |
| Portfolios.BuyCanSell | portfolio.py:199-209 | above the ceiling, buy_stock "buys" a negative quantity and cash rises |
| Portfolios.BuyCanSellExample | portfolio.py:199-209 | a concrete case: cash 100.00, worth 1000.00, price 10.00 and 80 shares held give a purchase of -30 |
| Portfolios.SoldQuantity | portfolio.py:234-238 | the sold quantity is positive exactly when the floor quantity is below the holding, and the holding drops to the floor quantity |
| Portfolios.RecordContents | portfolio.py:213-220 | recording a trade adds it under date and ticker, adds the date when missing, and keeps every other date and every other ticker of that date |
| Portfolios.RecordOnDay | portfolio.py:59-83 | recording into a freshly reset day is the same as writing that day's dictionary |
| Portfolios.Opening | portfolio.py:72-80 | an opened position has the given price and quantity, position = price * quantity and the opening trade in its log |
| Portfolios.Traded | portfolio.py:208-213 | after a trade the position has the new quantity at the same price, stays consistent and logs (price, traded) |
| Portfolios.InvestedUpdate | portfolio.py:155-156 | replacing one holding changes the sum of positions by exactly that holding's change |
| Portfolios.InvestedFrame | portfolio.py:155-156 | the sum of positions depends only on the positions of the listed tickers |
| Portfolios.InvestedAppend | portfolio.py:155-156 | opening a new ticker adds its position to the sum |
| Portfolios.InvestedNonNegative | portfolio.py:155-156 | the sum of non-negative positions is non-negative |
| Portfolios.SoundBooksInvestedNonNegative | portfolio.py:155-159 | sound books have a non-negative invested value |
| Portfolios.Repriced | portfolio.py:169-180 | after re-marking every ticker keeps its ticker, quantity and trade log, takes the day's price and stays consistent; no ticker is added or dropped |
| Portfolios.RepricedTwice | portfolio.py:169-180 | re-marking twice is re-marking once at the later prices |
| Portfolios.RepricedAtSamePrices | portfolio.py:169-180 | re-marking at the current prices changes nothing |
| Portfolios.RepricedBooks | portfolio.py:169-180 | re-marking at positive prices keeps the books sound |
| Portfolios.EqualWeightQuantity | portfolio.py:55-68 | the equal-weight quantity is non-negative |
| Portfolios.EqualWeightQuantityCost | portfolio.py:55-68 | n positions bought at the equal-weight quantity cost at most the initial cash |
| Portfolios.SetupCostBound | portfolio.py:62-77 | the total cost of the opening is non-negative and at most the number of tickers times cash / n |
| Portfolios.SetupCostWithinCash | portfolio.py:62-77 | the opening never spends more than the initial cash |
| Portfolios.EqualWeightTradesContents | portfolio.py:59-83 | the day's ledger holds exactly the tickers, each with (price, floor((cash / n) / price)) |
| Portfolios.EqualWeightHoldingsContents | portfolio.py:62-80 | each ticker is opened at the day's price with its equal-weight quantity; other holdings are unchanged |
| Portfolios.OpenKeepsBooks | portfolio.py:72-83 | opening an affordable position keeps the books sound and the total changes only by the replaced position |
| Portfolios.BuyKeepsBooks | portfolio.py:185-223 | buy_stock keeps the books sound and conserves cash + Σ position |
| Portfolios.BuyRespectsCeiling | portfolio.py:191-208 | when cash covers one share, the new quantity is at most the ceiling and at most held + affordable, and equals one of them |
| Portfolios.BuyLedger | portfolio.py:185-223 | without cash for one share buy_stock changes nothing; otherwise cash drops by price × bought, the stock takes held + bought shares and logs (price, bought), trades[date][ticker] becomes (price, bought), and every other position and every other ledger entry is unchanged |
| Portfolios.SellKeepsBooks | portfolio.py:225-253 | sell_stock keeps the books sound and conserves cash + Σ position |
| Portfolios.SellReachesFloor | portfolio.py:231-241 | sell_stock changes something exactly when the floor quantity is below the holding, and then sets the holding to the floor quantity |
| Portfolios.SellLedger | portfolio.py:225-253 | when sell_stock trims, the sold quantity is positive, cash rises by price × sold, the stock falls to held − sold and logs (price, −sold), trades[date][ticker] becomes (price, −sold), and every other position and every other ledger entry is unchanged |
| Portfolios.RepriceKeepsBooks | portfolio.py:166-180 | update_prices keeps the books sound, the cash, the order of the positions and the trade ledger |
| Portfolios.SingleSetupSummary | portfolio.py:87-116 | a single-ticker opening keeps the books sound, leaves 0 <= cash < price, opens floor(cash / price) shares, starts the day's ledger with that trade and changes the total only by the replaced position |
| Portfolios.EqualWeightOpenAllFields | portfolio.py:62-77 | after the loop, cash is the initial cash minus the opening cost, the order lists the tickers and the holdings are the equal-weight ones |
| Portfolios.EqualWeightOpenAllTrades | portfolio.py:59-83 | after the loop, the day's ledger is exactly the equal-weight trades |
| Portfolios.EqualWeightOpenAllSound | portfolio.py:62-77 | the opening loop keeps the books sound |
| Portfolios.EqualWeightOpenAllTotal | portfolio.py:62-85 | opening distinct new tickers conserves cash + Σ position |
| Portfolios.EqualWeightSetupSummary | portfolio.py:52-85 | setup_equal_weight keeps the books sound, leaves cash = initial cash minus the opening cost and >= 0, and fixes the order, holdings and day's ledger |
| Portfolios.EqualWeightSetupKeepsTotal | portfolio.py:52-85 | for distinct tickers, none of which was held before, cash + Σ position after setup_equal_weight equals cash + Σ position before |
| Portfolios.EqualWeightOpenAllStep | portfolio.py:62-83 | one loop iteration is one opening of the next ticker at its equal-weight quantity |
| Portfolios.EqualWeightAffords | portfolio.py:55-77 | at every iteration the cash left covers the next ticker's cost |
| Portfolios.Simulated | portfolio.py:277-286 | after the first day the portfolio holds the original tickers plus the universe |
| Portfolios.SimulatedPriced | portfolio.py:277-286 | every held ticker has a positive close on each later day |
| Portfolios.SimulatedSummary | portfolio.py:277-291 | after k > 1 days the books are the day-0 opening re-marked at day k-1's close, since no trade follows the opening |
| Portfolios.SimulatedSound | portfolio.py:277-291 | the simulation keeps the books sound |
| Portfolios.SimulatedWorths | portfolio.py:277-291 | one worth per simulated day |
| Portfolios.SimulatedWorthsContents | portfolio.py:277-291 | the worth of day j is the total of the books after j + 1 simulated days |
| Portfolios.RecordedContents | portfolio.py:159-164 | saving worths under dates keeps the earlier dates, adds exactly the saved ones, gives each date the worth saved last for it, and leaves the other dates' worth unchanged |
| Portfolios.RecordedAppend | portfolio.py:164 | saving one more worth under a date extends the history by exactly that entry |
| Portfolios.SimulatedNext | portfolio.py:277-291 | the next simulated day is the equal-weight setup on the first day and a re-marking at the day's close on every later day |
| Portfolios.RecordedStep | portfolio.py:277-291 | one more simulated day saves that day's total under its date |
| Portfolios.SimulatedHistory | portfolio.py:273-292 | after the simulation worth_history holds the earlier dates and every simulated day, each day the total of the books after it (last visit wins for a repeated date), and unchanged earlier worth for other dates |
| Portfolios.Portfolio.constructor | portfolio.py:13-38 | empty positions, ledger and worth history, worth 0 and the given cash |
| Portfolios.Portfolio.UpdateWorth | portfolio.py:149-164 | worth = cash + Σ position and worth_history gains the entry for today, other days unchanged |
| Portfolios.Portfolio.RepriceAll | portfolio.py:169-180 | the loop re-marks every position at the given prices |
| Portfolios.Portfolio.UpdatePrices | portfolio.py:166-183 | the books become the re-marked books, and worth and history are updated |
| Portfolios.Portfolio.Open | portfolio.py:72-83 | the books become the books with the opened position |
| Portfolios.Portfolio.SetupBestStock | portfolio.py:87-116 | the books become the single-ticker opening of NVDA, and worth and history are updated |
| Portfolios.Portfolio.SetupMarket | portfolio.py:118-147 | the books become the single-ticker opening of ^GSPC, and worth and history are updated |
| Portfolios.Portfolio.OpenEqualWeight | portfolio.py:62-83 | the loop's books are the fold of openings over the tickers |
| Portfolios.Portfolio.SetupEqualWeight | portfolio.py:52-85 | the books become the equal-weight setup, and worth and history are updated |
| Portfolios.Portfolio.BuyStock | portfolio.py:185-223 | the books become `Buy` of the old books, with soundness kept |
| Portfolios.Portfolio.SellStock | portfolio.py:225-253 | the books become `Sell` of the old books, with soundness kept |
| Portfolios.Portfolio.SimulateDay | portfolio.py:277-292 | day 0 opens equal weight, later days re-mark; worth and history follow |
| Portfolios.Portfolio.SimulateStep | portfolio.py:277-292 | one loop turn extends the simulated books and the recorded worth history by that day |
| Portfolios.Portfolio.SimulateDays | portfolio.py:277-292 | over a non-empty price history, the loop leaves the books `Simulated` over all days, saves each day's simulated total under its date, and ends on the last day with worth equal to the total |
| Portfolios.Portfolio.Simulation | portfolio.py:273-292 | the books become `Simulated` over all days, and worth_history becomes the earlier history with each day's simulated total saved under its date, so it gains exactly the simulated days; an empty price history changes nothing, date and worth included |
| Filings.Lower | data.py:131 | lower-casing keeps the length and maps each character |
| Filings.LowerIdempotent | data.py:131 | lower-casing twice is lower-casing once |
| Filings.OccursAt | data.py:142 | Python's substring test holds exactly when the word sits at some index |
| Filings.RemoveAppend | data.py:23-24 | deleting pattern characters distributes over concatenation |
| Filings.RemoveKeeps | data.py:23-24 | nothing of the pattern is left, deleting again changes nothing, and a string without pattern characters is unchanged |
| Filings.RemoveAbsent | data.py:23-24 | characters absent from the string can be added to the pattern |
| Filings.RemoveSubset | data.py:23-24 | deletion keeps only characters of the string outside the pattern |
| Filings.ParseIntShowNat | data.py:149-152 | int() reads back written digits, with or without a minus sign |
| Filings.ParseValueInt | data.py:148-153 | a cell of digits reads as their value, and in parentheses as the same, un-negated value |
| Filings.ParseValueShowNat | data.py:152 | formatting a written natural number reads it back |
| Filings.CommaIgnored | data.py:148-153 | a comma anywhere in a cell does not change what it reads as, e.g. "1,234" reads as "1234" |
| Filings.ParenthesesStripped | data.py:148-149 | wrapping a cell in parentheses only adds the '(' the code tests, and stripping gives the same characters |
| Filings.Parenthesised | data.py:148-153 | in parentheses a decimal cell reads as the negated float of the cell, an integer cell as the cell itself |
| Filings.ParenthesisedDecimal | data.py:148-153 | a decimal cell read as d / 10^e reads in parentheses as -d / 10^e |
| Filings.DigitsValueAppend | data.py:149-152 | the value of digits a + b is value(a) * 10^len(b) + value(b) |
| Filings.ParseFloatDigits | data.py:149-152 | float() reads whole.fraction, either side possibly empty but not both (".5" included), as the joined digits scaled by the fraction's length |
| Filings.ParseValueDecimal | data.py:148-153 | a decimal cell reads as its exact value (e.g. "1234.5" as 12345 / 10, ".5" as 5 / 10), and in parentheses as its negation |
| Filings.ParsedHasDigit | data.py:149-152 | int() and float() accept nothing without a digit |
| Filings.NoDigitNone | data.py:144-155 | a cell without digits, such as "n/a", stores None rather than raising |
| Filings.ParseIntShape | data.py:150-153 | int() accepts only digits with an optional leading sign, and at least one character |
| Filings.ParseFloatShape | data.py:150-153 | float() accepts only digits and at most one '.', with an optional leading sign |
| Filings.MalformedNone | data.py:144-155 | a cell holding a character no number has, such as "12a", stores None rather than raising |
| Filings.TwoDotsNone | data.py:144-155 | a cell with two '.' and no '(', such as "1.2.3", stores None rather than raising |
| Filings.CleanRowAppend | data.py:131-132 | cells are kept or dropped one by one, in order |
| Filings.CleanRowKept | data.py:131-132 | kept cells are non-empty, not "$" and lower-case, and no more than the row's cells |
| Filings.CleanRowIdempotent | data.py:131-132 | cleaning a cleaned row changes nothing |
| Filings.CleanRowMembers | data.py:131-132 | the kept cells are exactly the lower-cased texts of the cells that are neither empty nor "$"; with CleanRowAppend this fixes their order |
| Filings.ApplyTermsContents | data.py:139-155 | one row keeps every present metric, adds exactly the metrics some variation of which occurs in its label, each with the row's parsed value |
| Filings.ApplyRowContents | data.py:129-155 | a row with fewer than two kept cells changes nothing; otherwise its first cell is the label and its second the value |
| Filings.ExtractRowsFirstMatch | data.py:129-155 | first match wins: a present metric never changes, and a missing one gets the value of the first row selecting it, or stays missing |
| Filings.ExtractRowsKeys | data.py:139-143 | only the five metric names are ever added |
| Filings.HeadingIgnoresCase | data.py:110-115 | the heading test ignores the case of the text, and "comprehensive" headings never qualify |
| Filings.FirstWide | data.py:120-124 | the table chosen is wide and is the first wide table of the page, every earlier one being narrow; there is none exactly when no table is wide |
| Filings.ExtractPagesKeeps | data.py:107-155 | metrics found on earlier pages are never changed by later ones, and only metric names are added |
| Filings.QuarterlyKeys | data.py:66-157 | a statement exists exactly when the filing was fetched, and holds only the five metrics |
| Filings.ExtractPagesFirstMatch | data.py:107-155 | across pages, a metric not yet present takes the value of the first selecting row among the first wide tables of the statement pages, in page order, and stays absent when no such row selects it |
| Filings.QuarterlyFirstMatch | data.py:66-157 | a fetched filing's statement holds a metric exactly when some row of its statement pages' first wide tables selects it, and then holds the value of the first such row |
| Filings.FindCikFirst | data.py:41 | the lookup fails exactly when no row has the ticker, and otherwise gives the key of the first row that has it |
| Filings.ReportsContents | data.py:60 | the filter keeps exactly the 10-K and 10-Q records |
| Filings.ReportsAppend | data.py:60 | the filter works record by record, so the kept records stay in their original order |
| Filings.RecentContents | data.py:61-64 | the retained index is the first min(25, k) of the k reports, reversed, so its length is min(25, k) |
| Filings.RecentForms | data.py:60-64 | every retained record is a 10-K or 10-Q |
| Filings.FiledContents | data.py:170-174 | only report dates of 10-Q records gain or change an entry, and each changed entry is the statement of such a record |
| Filings.FiledLastWins | data.py:170-174 | the last 10-Q record with a given report date leaves its statement under that date, overwriting any entry stored there before |
| Filings.Data.constructor | data.py:26-34 | no key, no statements, no index |
| Filings.Data.GetCik | data.py:36-41 | the key becomes the first match; with no match nothing changes and `found` is false |
| Filings.Data.GetMetadata | data.py:43-64 | a successful response stores the recent index, a failed one changes nothing |
| Filings.Data.ProcessQuarterly | data.py:66-157 | the nested page, row and term loops compute the statement `Quarterly` describes |
| Filings.Data.ProcessFilings | data.py:166-174 | the first two records are filed; with no index or fewer than two records the call fails after filing what it reached |

## Left out

- Portfolios.Portfolio.SetupEqualWeight: requires at least one configured ticker. With none, the source raises ZeroDivisionError at portfolio.py:55; that exception is not modelled.
- Portfolios.Portfolio.SimulateDay: requires at least one configured ticker on the first day, for the same ZeroDivisionError at portfolio.py:55 reached through portfolio.py:281.
- Portfolios.Portfolio.SimulateDays: requires at least one configured ticker, for the same ZeroDivisionError on its first day; `Simulation` calls it only for a non-empty price history.
- Portfolios.Portfolio.Simulation: requires at least one configured ticker when the price history is not empty, for the same ZeroDivisionError on its first day; an empty history with no tickers is accepted and changes nothing.
- Portfolios.Portfolio.constructor: requires non-negative starting cash, which the books' invariant needs; the source accepts a negative amount (portfolio.py:13-38), and what it then does is not modelled.
- Every price the model trades or re-marks at is positive (`WellHeld`, `PricedAll`, `PricedToday`, `SimulationPriced`, and the `price > 0` requirement of opening, buying and selling). A zero close is not modelled. The closes are numpy floats, so dividing by one gives `inf`, or `nan` when the numerator is 0, and `math.floor` then raises OverflowError or ValueError in the setups (portfolio.py:68, 99, 130) and in `buy_stock` and `sell_stock` (portfolio.py:193, 231). `update_prices` accepts a zero close silently (portfolio.py:174, giving a position of 0). A missing (NaN) close is not modelled either: it makes `math.floor` raise at portfolio.py:68 and spreads NaN through `update_prices` and `update_worth`.
- Network I/O and logging are not modelled: `requests.get` and its status checks, `yf.download` (`get_price_history`), and every `print`. Responses and the price history are parameters.
- `describe` in both classes only prints, and is left out.
- BeautifulSoup and regex page handling are not modelled. This covers locating the document, splitting on page-break `<hr>` strings, searching the tree, and `get_text(strip = True)`. Pages, elements and tables are given already split, with stripped texts.
- The table-width test `float(...) > 99.5` is the `wide` flag of a table. The source raises when a table's style has no `width:`; that crash is not modelled.
- `process_annual` has an empty body and is never called (10-K records are skipped), so it is not modelled.
- The URLs built from the key and accession number are not modelled, nor the crash of `get_metadata` when no key was found. The fetch is a parameter keyed by accession number.
- Python's `int()` and `float()` accept more than the strict grammar modelled here (an optional sign, digits, at most one '.'): surrounding whitespace, underscores, exponents, `inf` and `nan`. Such cells read as None in the model.
- `Filings.Lower` lower-cases ASCII letters only; Unicode case mapping is not modelled.
- Floating-point money is not modelled: amounts are integer cents and `round(x, 2)` is the identity. This hides that stock.py:23 rounds the position while stock.py:40 and 48 do not.
- Portfolio positions are values (`StockState`), not shared `Stock` objects. Aliasing between `positions[ticker]` and a caller's `Stock` is not modelled.
- Portfolios.Portfolio.BuyStock: takes the ticker of a held position rather than any `Stock` object; buying a stock that is not in `positions` is not modelled.
- Portfolios.Portfolio.SellStock: takes the ticker of a held position rather than any `Stock` object; selling a stock that is not in `positions` is not modelled.
- The single-position branch of `update_prices` (portfolio.py:176-180) and the scalar `price_history.loc[date]` of the single-ticker setups (portfolio.py:96, 127) are pandas shape differences. Both are modelled as the close of that ticker on that day.
- `worth_history[date]` is the dictionary `{'worth': worth}` in the source and is modelled as the number itself.
- The `date` field starts as None in the source and as the empty date in the model. `price_history` is the constructor's `days` and `closes`.
- The trades inside the simulation loop are commented out in the source and are not modelled. The second `update_worth` call of each day is covered, since it recomputes the same worth.
- The `edgar` and `filing_dates` fields of `Stock` are never used and are not modelled.
