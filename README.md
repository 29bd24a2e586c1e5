# cad-capital-gains in Dafny

A model of the core of `cad-capital-gains`, a tool that computes Canadian
capital gains with the adjusted cost base (ACB) method, and of the
properties it relies on. The model covers:

- **Transaction** (`Records`): a mutable record. It has a guarded
  `share_balance` setter, `expenses` and `set_superficial_loss`.
- **Transactions** (`Collection`): a collection holding a list of
  transactions and a ticker refcount dictionary. It supports append,
  `tickers`, `len`, Python indexing (negative indices too) and `filter_by`.
  The predicate of `filter_by` follows Python truthiness: an empty ticker
  list, a year of `0` or an empty action string means "no filter".
- **ExchangeRate** (`Rates`): a per-currency table of daily CAD rates.
  The constructor validates the range, asks a rate source for observations
  starting seven days before the start date, and fills the table in a loop.
  A lookup walks back one day at a time, but never to or past 2017-01-03.
- **TickerGains** (`Gains`): the ACB fold for one ticker. `add_transaction`
  updates the running share balance and total ACB and writes the computed
  values into the transaction.
- **The capgains_calc command** (`CalcCommand`): the two filter predicates,
  the per-currency date ranges and rate map, the `get_calculated_dicts`
  pipeline and the ticker ordering.
- **The capgains_maxcost command** (`MaxCostCommand`): `_get_max_cost`,
  `_get_year_end_cost`, the currency map built from currency groups, and
  `calculate_costs`.

Some conventions:

- Dates are proleptic-Gregorian ordinals, as returned by
  `date.toordinal()`. `Dates.YearOf` gives the calendar year of an ordinal.
- Strings are `seq<char>`. Python string order is `Lex.Less`.
- Amounts are exact `real`s.
- The HTTP rate source is a function `fetch(currency, start, end)` passed
  as a parameter. It returns either the decoded observations or one of the four
  failures the code maps to exceptions.

### Where the code and its tests disagree (the model follows the code)

- **BUY cost.** `add_transaction` uses `(qty*price - commission)*rate` on
  both sides (ticker_gains.py:25 and :30). So a BUY's commission lowers its
  cost. tests/test_ticker_gains.py:30-33 expect the first BUY's proceeds
  to be -10020.00 and its ACB 10020.00. The test's trades come from a
  fixture (tests/conftest.py) and are called without a currency argument,
  so the trade of `Gains.BuyThenSellExample` (buy 100 at 50.00, then sell
  50 at 120.00, commission 10.00, rate 2.0) is reconstructed from the
  expected values and from the sale shown at tests/test_capgains_calc.py:15.
  For that trade the expected values are `(qty*price + commission)*rate`;
  the code gives -9980.00 and 9980.00.
  tests/test_capgains_calc.py:99 expects the final sale of its scenario
  to gain 1779.80 with an ACB change of -200.20, where the code gives 1780.20 and -199.80.
  `Gains.BuyThenSellExample` and `Gains.BuySellSellExample` give the values
  the code produces.
- **Negative share balance.** The guard at ticker_gains.py:34 tests the old
  balance, which is never negative, so it never fires (`assert false` in
  the model). The error that does happen comes from the `share_balance`
  setter (transaction.py:65-69). It is raised by the call at
  ticker_gains.py:36, before any other field changes.
- **Range checks.** The constructor checks only `end < start` and
  `end < min_date` (exchange_rate.py:19-24). There is no start-date floor,
  no end-date ceiling and no currency validation. The only other failure
  before the query is the OverflowError of the seven-day shift (:29) for a
  start date in the first week of 0001.
- **Lookups at the floor.** `get_rate` finds no rate for a date on or
  before 2017-01-03, even when that date has an observation
  (exchange_rate.py:72). A stored rate of `0` is reported as missing, since
  `0` is falsy.
- **`filter_by` with `max_year`.** The predicate filters on `max_year`
  only when it is truthy, so `max_year=0` keeps every year. The
  equivalences `CalcCommand.ForTickerIsFilterBy` and
  `CalcCommand.YearSalesIsFilterBy` therefore require a non-zero year.
- **Empty ticker list.** `capgains_calc` with an empty ticker list reports
  every ticker (capgains_calc.py:112).

## Model

| member | source | states |
|---|---|---|
| Dates.MinDateIsJanuaryThird2017 | capgains/exchange_rate.py:7 | the lookup floor is the ordinal of 2017-01-03 |
| Records.Transaction.constructor | capgains/transaction.py:4-19 | the inputs are stored as given; the exchange rate starts unset, share balance, proceeds, capital gain and ACB start at 0, and the superficial-loss flag starts false |
| Records.Transaction.SetShareBalance | capgains/transaction.py:65-69 | succeeds exactly when the new balance is non-negative and then stores it; otherwise it reports the error and leaves the balance unchanged |
| Records.Transaction.Expenses | capgains/transaction.py:103-105 | defined exactly when an exchange rate is set; then it is the commission converted at that rate: dividing by a non-zero rate gives back the commission, and a zero commission or a zero rate gives 0 |
| Records.Transaction.SetSuperficialLoss | capgains/transaction.py:107-109 | marks the transaction as a superficial loss and zeroes its capital gain, changing nothing else |
| Collection.CountPositive | capgains/transactions.py:29-35 | a ticker's refcount is positive exactly when some stored transaction has that ticker |
| Collection.Transactions.constructor | capgains/transactions.py:4-8 | the collection holds the given transactions in order, and the refcount matches them |
| Collection.Transactions.AddTransaction | capgains/transactions.py:29-35 | appends the transaction, bumps its ticker's count (inserting 1 for a new ticker), and keeps the refcount consistent with the list |
| Collection.Transactions.Tickers | capgains/transactions.py:15-18 | strictly sorted, with exactly the tickers that occur in the collection |
| Collection.Transactions.Length | capgains/transactions.py:20-21 | zero exactly when the collection is empty |
| Collection.Transactions.Get | capgains/transactions.py:26-27 | defined exactly for -len <= x < len, and then an entry of the collection |
| Collection.GetWraps | capgains/transactions.py:26-27 | a negative position names the same entry as the position a length further on, -1 names the last entry, and len and -len-1 name none |
| Collection.Keep | capgains/transactions.py:43-57 | the per-entry test of `filter_by`: every truthy argument's criterion holds; with no truthy argument every entry passes, and an explicit False for the flag drops superficial losses (None keeps them). `Collection.SelectMembership` states what the filter keeps with it |
| Collection.Transactions.FilterBy | capgains/transactions.py:37-58 | a fresh, consistent collection holding the selection of the stored transactions under the filter arguments |
| Collection.SelectIsSubsequence | capgains/transactions.py:43-58 | filtering keeps the original order and drops only entries |
| Collection.SelectMembership | capgains/transactions.py:43-57 | an entry is kept exactly when it is stored and passes every truthy filter argument (tickers, year, max year, action, superficial-loss flag) |
| Collection.SelectAll | capgains/transactions.py:43-58 | when every entry passes, the selection is the whole list |
| Collection.SelectNoFilter | capgains/transactions.py:44-56 | with no truthy argument, filtering returns the list unchanged |
| Collection.SelectIdempotent | capgains/transactions.py:43-58 | filtering twice with the same arguments is filtering once |
| Collection.SelectAppend | capgains/transactions.py:43-58 | filtering distributes over concatenation |
| Lex.SortSet | capgains/commands/capgains_calc.py:114-117 | the set's elements in strictly increasing Python string order, each once |
| Rates.Admit | capgains/exchange_rate.py:19-56 | fails with the range-order error when end < start, otherwise with the range-floor error when end < 2017-01-03, otherwise with the overflow error when start - 7 falls before 0001-01-01 (the `timedelta` subtraction at :29 raises OverflowError); succeeds exactly when the range is valid, start - 7 is a date, and the source, queried for the currency from start - 7 to end, returns observations, and then yields those observations |
| Rates.OrderedRangeAdmitted | capgains/exchange_rate.py:19-21 | an ordered range never fails the range-order check |
| Rates.NewExchangeRate | capgains/exchange_rate.py:14-56 | fails exactly when the validations or the fetch for its currency fail, with the same error; otherwise it holds the currency, the un-shifted dates and the table built from the observations fetched for that currency |
| Rates.ExchangeRate.constructor | capgains/exchange_rate.py:45-47 | the table maps each observed date to its value, with a later observation overriding an earlier one |
| Rates.ObservationMapKeys | capgains/exchange_rate.py:45-47 | the table's dates are exactly the observed dates |
| Rates.ObservationMapLastWins | capgains/exchange_rate.py:46-47 | a date's entry is the value of its last observation |
| Rates.ExchangeRate.LastRateInRange | capgains/exchange_rate.py:70-77 | the backward walk returns the rate of the latest observed date in (2017-01-03, date], or nothing |
| Rates.LastRateExact | capgains/exchange_rate.py:73-74 | an observed date after the floor gets its own rate |
| Rates.LastRateIsLatestObservation | capgains/exchange_rate.py:72-76 | a date with no observation takes the rate of the latest earlier observed date after the floor |
| Rates.LastRateFound | capgains/exchange_rate.py:72-76 | every rate found comes from an observed date after the floor with no later observation up to the date |
| Rates.LastRateMissing | capgains/exchange_rate.py:72-77 | nothing is found exactly when no date in (2017-01-03, date] is observed |
| Rates.SundayTakesFridayRate | tests/test_exchange_rate.py:52-57 | with Thursday, Friday and Monday observed, the Sunday lookup returns Friday's rate, the same as Friday itself |
| Rates.ExchangeRate.GetRate | capgains/exchange_rate.py:80-89 | succeeds exactly when a non-zero rate is found, returning it; otherwise it fails naming the date |
| Gains.AcbPerShare | capgains/ticker_gains.py:18-22 | 0 for an empty position; otherwise the per-share ACB times the balance gives back the total ACB |
| Gains.Apply | capgains/ticker_gains.py:16-33 | the new total ACB is the old one plus the delta; a SELL lowers the balance by the quantity and its gain is the proceeds plus the delta; any other action raises the balance, has gain 0 and a delta equal to its cost |
| Gains.SellUsesAverageCost | capgains/ticker_gains.py:18-27 | a SELL removes the sold fraction qty/balance of the total ACB and gains the proceeds less that amount; with no position it removes nothing and gains the proceeds |
| Gains.BuyThenSellAll | capgains/ticker_gains.py:16-33 | buying qty into an empty position and then selling all qty closes it (balance 0, ACB 0), with a gain equal to the sale's net CAD proceeds less the purchase's net CAD cost |
| Gains.SellWholePosition | capgains/ticker_gains.py:22-33 | selling the whole position leaves balance 0 and ACB 0 |
| Gains.SellKeepsAcbPerShare | capgains/ticker_gains.py:22-33 | a partial sale leaves the per-share ACB unchanged |
| Gains.BuyThenSellExample | tests/test_ticker_gains.py:17-45 | the code's values for buy 100 at 50 and then sell 50 at 120, commission 10 and rate 2: BUY proceeds -9980, SELL gain 6990, ACB 4990 |
| Gains.BuySellSellExample | tests/test_capgains_calc.py:59-101 | the code's values for the three-trade scenario: the final sale gains 1780.20 and leaves ACB 0 |
| Gains.TickerGains.constructor | capgains/ticker_gains.py:5-8 | a new fold holds the ticker, with balance 0 and ACB 0 |
| Gains.TickerGains.AddTransaction | capgains/ticker_gains.py:14-42 | keeps the invariant (non-negative balance, total ACB = sum of the deltas). It succeeds exactly when the new balance is non-negative; then it writes balance, proceeds, gain, delta and ACB into the transaction and advances the fold. Otherwise it reports the negative balance and changes nothing |
| CalcCommand.FilterTransaction | capgains/commands/capgains_calc.py:40-49 | for a non-zero year, true exactly when the collection's filter with `tickers=[ticker], max_year=year` keeps the entry, that is when its ticker matches and its year is at most the year; `CalcCommand.ForTickerIsFilterBy` lifts this to whole lists |
| CalcCommand.FilterCalculatedTransaction | capgains/commands/capgains_calc.py:52-62 | for a non-zero year, true exactly when the collection's filter with `year=year, action='SELL', superficial_loss=False` keeps the entry; `CalcCommand.YearSalesIsFilterBy` lifts this to whole lists |
| CalcCommand.ForTickerIsFilterBy | capgains/commands/capgains_calc.py:40-49 | the ticker-and-max-year predicate selects the same list as `filter_by(tickers=[ticker], max_year=year)` |
| CalcCommand.YearSalesIsFilterBy | capgains/commands/capgains_calc.py:52-62 | the year/SELL/non-superficial predicate selects the same list as `filter_by(year=..., action='SELL', superficial_loss=False)` |
| CalcCommand.DateRangesKeys | capgains/commands/capgains_calc.py:67-71 | there is a range for a currency exactly when some transaction uses it |
| CalcCommand.DateRangesOrdered | capgains/commands/capgains_calc.py:70-78 | a range's first date is never after its last |
| CalcCommand.DateRangesCover | capgains/commands/capgains_calc.py:67-78 | every transaction's date lies in its currency's range |
| CalcCommand.DateRangesAttained | capgains/commands/capgains_calc.py:67-78 | both ends of a range are dates of that currency's transactions, so a range is (min date, max date) |
| CalcCommand.AppearanceMembers | capgains/commands/capgains_calc.py:67-71 | the dictionary's key order lists exactly the currencies present |
| CalcCommand.AppearanceDistinct | capgains/commands/capgains_calc.py:70-71 | the key order lists each currency once |
| CalcCommand.AppearanceOrder | capgains/commands/capgains_calc.py:67-71 | the key order is the order of first appearance: the currencies before the k-th key are exactly those of the entries before that key's first entry |
| CalcCommand.CurrencyDateRanges | capgains/commands/capgains_calc.py:65-78 | builds exactly the ranges `DateRanges` gives (one per currency present, each from that currency's earliest to its latest date) and the key order `Appearance` gives |
| CalcCommand.ExchangeRatesFor | capgains/commands/capgains_calc.py:79-85 | builds the tables in the given key order; fails exactly when some currency's range is refused, and then with the error of the first refused currency in that order, every earlier one being admitted; otherwise one rate table per currency, built for that currency over its range; ordered ranges never fail the range-order check |
| CalcCommand.CurrencyExchangeRates | capgains/commands/capgains_calc.py:65-86 | fails exactly when some currency's (min date, max date) range is refused, with the error of the first such currency in order of first appearance and never the range-order error; otherwise one table per currency present, built for that currency from exactly its (min date, max date) |
| CalcCommand.CalculatedTransactions | capgains/commands/capgains_calc.py:89-103 | nothing when the ticker has no entries up to the year; otherwise it fails exactly when some currency's range over all the transactions is refused, with the error of the first such currency in order of first appearance; on success the year's non-superficial sales of the ticker, in order, or nothing when there are none |
| CalcCommand.ReportTickers | capgains/commands/capgains_calc.py:112-117 | given tickers are kept as given; otherwise every ticker present, sorted and without duplicates |
| MaxCostCommand.InYearMembership | capgains/commands/capgains_maxcost.py:16 | `filter_by(year=y)` keeps exactly the transactions dated in year y |
| MaxCostCommand.YearEndCost | capgains/commands/capgains_maxcost.py:28-39 | the year-end cost: 0 or the running cost of some entry. `MaxCostCommand.YearEndCostIsLatestYear`, `MaxCostCommand.YearEndCostOwnYear` and `MaxCostCommand.YearEndCostWithoutEntries` say which, for every year at or above the floor and for a year below it that has entries |
| MaxCostCommand.YearEndCostIsLatestYear | capgains/commands/capgains_maxcost.py:28-39 | the year-end cost is the running cost of the last entry of the latest year between the floor and the year that has entries |
| MaxCostCommand.YearEndCostOwnYear | capgains/commands/capgains_maxcost.py:29-39 | a year that has entries gives its own last running cost, even below the floor, since the floor is tested only for a year without entries |
| MaxCostCommand.YearEndCostWithoutEntries | capgains/commands/capgains_maxcost.py:32-35 | with no entries between the floor and the year, the year-end cost is 0 |
| MaxCostCommand.GetMaxCost | capgains/commands/capgains_maxcost.py:15-25 | the maximum of 0, every running cost in the year and the previous year's year-end cost: at least each of them and equal to one of them |
| MaxCostCommand.FirstLastIsGroupEnds | capgains/commands/capgains_maxcost.py:46-55 | `FirstLast` has a range for a currency exactly when its group is non-empty, from the group's first member's date to its last member's date; the group is the currency's entries in input order, as the stable sort and `groupby` give |
| MaxCostCommand.FirstLastDates | capgains/commands/capgains_maxcost.py:52-55 | the loop builds exactly the ranges `FirstLast` gives |
| MaxCostCommand.FirstLastKeys | capgains/commands/capgains_maxcost.py:48-53 | there is one range per currency present in the input and no other |
| MaxCostCommand.FirstLastFirst | capgains/commands/capgains_maxcost.py:46-54 | a range starts at the date of its currency's first entry in input order (the sort is stable) |
| MaxCostCommand.FirstLastLast | capgains/commands/capgains_maxcost.py:46-55 | a range ends at the date of its currency's last entry in input order |
| MaxCostCommand.FirstLastOrdered | capgains/commands/capgains_maxcost.py:54-57 | on chronological input every range is ordered, so the rate constructor's range-order check passes |
| MaxCostCommand.SortedFirstIsLeast | capgains/commands/capgains_maxcost.py:46-58 | when the tables are built in increasing currency order, the first refusal met is that of the least refused currency in string order |
| MaxCostCommand.CurrencyExchangeRates | capgains/commands/capgains_maxcost.py:42-58 | fails exactly when some group's range (first member's date, last member's date) is refused for its currency, with the error of the least such currency in string order, every smaller one being admitted; otherwise one table per currency present, built for that currency over its group's range; never the range-order error on chronological input |
| MaxCostCommand.TickerUpToSelection | capgains/commands/capgains_maxcost.py:61-63 | the selection is a subsequence of the input holding exactly the ticker's entries dated up to the year |
| MaxCostCommand.CalculateCosts | capgains/commands/capgains_maxcost.py:61-67 | fails exactly when some group's range among the ticker's entries up to the year is refused, with the error of the least such currency in string order; on success, a consistent collection holding exactly those entries, in input order |

## Left out

- HTTP request and JSON decoding of the rate source (exchange_rate.py:33-56): I/O. The source is the `fetch` parameter, and each exception becomes a `RateError` value. Exception messages are not modelled.
- Rates.Admit and Rates.NewExchangeRate: dates are unbounded ordinals, while Python's `date` spans 0001-01-01 to 9999-12-31. The overflow of the start date shifted back seven days is modelled (`DateOverflow`); any other date outside that span is not a Python date, and the model does not reject it.
- The rate table is keyed by ISO date strings in the code (exchange_rate.py:47, :73). The model keys it by day ordinals, so an observation is assumed to carry a well-formed ISO date. A response that is not JSON, or an observation without the expected value entry, is not modelled: whether the first is caught at exchange_rate.py:54 depends on the version of `requests` (recent versions raise a subclass of its request exception there), and the second (a KeyError, or a ValueError from `float`) is raised inside the `try` that starts at exchange_rate.py:33 but matches none of its handlers at :48-56, so it escapes unconverted.
- Floating-point rounding: amounts are exact `real`s.
- Reading transactions from CSV (transactions_reader.py): file I/O.
- Table rendering, `click.echo` output and the CLI (capgains_show.py, cli.py, capgains_calc.py:106-128, capgains_maxcost.py:70-89): output only. The ticker ordering at capgains_calc.py:112-117 is modelled.
- `TickerGains.add_transactions` (called at capgains_calc.py:97 and capgains_maxcost.py:66): it is not defined in ticker_gains.py, so nothing of it can be modelled.
- CalcCommand.CalculatedTransactions: where the code raises at capgains_calc.py:97, because `add_transactions` does not exist, the model skips that call and goes on to the year filter. It also leaves out `to_dict`, so it returns the selected transactions rather than their dictionaries.
- MaxCostCommand.CalculateCosts: skips that call at capgains_maxcost.py:66 in the same way, so it returns the selected transactions without the computed values.
- MaxCostCommand.FirstLast: the sort and `groupby` at capgains_maxcost.py:46-49 are not modelled as such. The model makes one pass in input order, and `MaxCostCommand.FirstLastIsGroupEnds` proves it gives each group's first and last dates, given that Python's `sorted` is stable.
- `cumulative_cost`, `acb_delta` and `to_dict` as transaction fields are not defined in transaction.py. `cumulativeCost` is a plain field that the maximum-cost code only reads. `acbDelta` is written by `Gains.TickerGains.AddTransaction`.
- Superficial-loss detection: nothing in the code decides when a loss is superficial. Only the flag and its setter (`Records.Transaction.SetSuperficialLoss`) are modelled.
- The noon/indicative rate-series split, a CAD-to-CAD shortcut and currency validation: not in the code.
- Chronological-order checks on the input: not in the code. Where order matters, it is a hypothesis of the lemma.
- The read-only property accessors of Transaction (transaction.py:21-51) are the class's `const` fields. The `ticker` property of TickerGains (ticker_gains.py:10-12) takes an extra argument in the code and is the `ticker` field of the model.
- `year_min` of `_get_year_end_cost` is a parameter. The code that would supply it reads `transactions_to_report.year_min` (capgains_maxcost.py:85-86), but transactions.py defines no `year_min`, so those calls would raise an AttributeError; they are never reached anyway, since `calculate_costs` has already raised at capgains_maxcost.py:66.
