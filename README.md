# WealthTrack-Pro portfolio accounting, modelled in Dafny

This project models the accounting core of WealthTrack-Pro, a single-user
portfolio tracker. The tracker keeps a log of stock trades (BUY or SELL, with
quantity, price and fee), a list of dividend receipts, and a map from ticker
to an estimated dividend per share. Everything else it shows is computed from
those three pieces of state:

- **Holdings** (`App`, `App.tsx`). The trades are sorted by date, with BUYs
  before other trades on the same date. They are then folded, per ticker, into
  a running average-cost position: a BUY adds its cost including the fee; a
  SELL is clamped to the quantity held, keeps the average, and wipes the cost
  basis when the position closes. The result is the open positions, in
  first-seen ticker order, each annotated with its dividend estimate.
- **State updates** (`App`). These append or remove trades and dividends, and
  set an estimate.
- **The performance ledger** (`Dashboard`, `components/Dashboard.tsx`).
  - A second cost-basis fold realizes a capital gain on every SELL that finds
    shares.
  - Gains and dividends go into per-year buckets, where the year is the first
    run of four digits in the date.
  - It produces yearly rows with a running cumulative profit, the current and
    previous year's figures, lifetime totals, dividend growth, the monthly
    average and the allocation chart's data.
- **The CSV codec** (`DataManagement`, `components/DataManagement.tsx`).
  Export writes a header plus one comma-joined line per record. Import splits
  on newlines, drops blank lines and the header, splits on commas, assigns the
  fields by position, and appends the records to the existing list.
- **Allocation figures** (`Portfolio`, `components/Portfolio.tsx`;
  `AIInsights`, `components/AIInsights.tsx`). These cover:
  - the estimated annual income and each holding's share of the invested
    capital;
  - the top holding and the average and largest allocation;
  - the concentration label, the concentration warning and the efficiency
    score.

`TradeOrder` holds what both folds share:
- the code-point string order that stands in for `localeCompare`;
- the generic stable insertion sort that stands in for `Array.prototype.sort`;
- the fold comparator.

`Types` holds the records of `types.ts`.

How the model is built:
- The two folds are imperative in the source. They are methods with loops
  (`App.ComputeHoldings`, `Dashboard.ComputeLedger`), each proved equal to a
  specification function (`App.HoldingsOf`, `Dashboard.LedgerOf`). The
  properties are proved about those functions.
- The rest is pure and is modelled as functions and lemmas.
- Amounts are Dafny `real`s.
- The wall clock is passed in as parameters: the current year, the previous
  year and the months passed.
- Number printing and `parseFloat` are a parameter pair (`DataManagement.NumberFormat`).
  Nothing is assumed of the pair as a whole. An import reads back each printed
  number reparsed (`DataManagement.Reprinted`). The exact round trip holds for
  the records whose numbers print back (`DataManagement.PrintsBack`), as every
  finite double does under `String` and `parseFloat`.
- The random fallback id of an imported record is a parameter `freshId`.

Where the code and its description differ, the model follows the code:
- The holdings fold treats every trade type other than `BUY` as a sell.
- The ledger ignores types other than `BUY` and `SELL`. CSV import can produce
  any string as a type.
- A CSV field missing from a short line is `undefined` in the source. The
  model reads it as the empty string; see "## Left out" for what the source
  does with it afterwards.

## Model

| member | source | states |
|---|---|---|
| TradeOrder.StrLessTrichotomy | App.tsx:86 | any two dates are equal or one precedes the other in code-point order |
| TradeOrder.StrLessTransitive | App.tsx:86 | the code-point order on dates is transitive |
| TradeOrder.StrLeqTotalPreorder | components/Dashboard.tsx:110 | the order used to sort the year keys is total and transitive |
| TradeOrder.Insert | App.tsx:85-88 | inserting into a sorted copy adds exactly the one element |
| TradeOrder.SortBy | App.tsx:85-88 | the sorted copy is a permutation of the input (same multiset, same length) |
| TradeOrder.SortByMembers | App.tsx:85-88 | the sorted copy has exactly the input's elements |
| TradeOrder.SortBySorted | App.tsx:85-88 | for a total preorder every earlier element may precede every later one |
| TradeOrder.SortByDistinct | components/Dashboard.tsx:110 | sorting keys without repeats produces none |
| TradeOrder.SortByHead | components/AIInsights.tsx:13 | the first element of the stable sort is the earliest input element that may precede all others |
| TradeOrder.FoldLeqTotalPreorder | App.tsx:85-88 | the key (date, BUY before the rest) is a total preorder |
| TradeOrder.FoldOrder | App.tsx:85-88 | the fold order is a permutation of the trade log |
| TradeOrder.FoldOrderIsOrdered | components/Dashboard.tsx:73-76 | in fold order dates never decrease and on one date no BUY follows a non-BUY |
| App.Trade | App.tsx:101-116 | one trade keeps the position consistent: quantity >= 0, invested = quantity * average, both 0 when closed; ticker, name and estimates kept |
| App.Annotate | App.tsx:118-119 | the per-share estimate is the map's value or 0 and the yearly estimate is quantity times it; the position is untouched |
| App.AnnotateThenTrade | App.tsx:97-119 | the estimate set on a fresh record makes no difference once the trade's own annotation is applied |
| App.Step | App.tsx:90-122 | one iteration keeps the map well formed and leaves every other ticker's record unchanged |
| App.Current | App.tsx:91-99 | the record a trade starts from is consistent and carries the trade's ticker |
| App.StepEntries | App.tsx:90-122 | an iteration replaces exactly the traded ticker's record with the annotated trade result |
| App.BookOf | App.tsx:90-122 | after any prefix of the fold the map is well formed and every record carries its estimate |
| App.TradesOf | App.tsx:90-122 | the per-ticker sub-log holds exactly the log's trades on that ticker |
| App.Replay | App.tsx:101-116 | replaying trades never makes a quantity negative and keeps ticker and name |
| App.EntryIsReplay | App.tsx:90-122 | a ticker has a record iff some trade names it, and the record is its trades replayed from a fresh record named after the first |
| App.OpenPositionsSpec | App.tsx:124 | the filter keeps exactly the records with quantity > 0, once per ticker |
| App.HoldingsOfShape | App.tsx:82-125 | every holding is open, consistent and annotated, and no ticker appears twice |
| App.HoldingsOfEmpty | App.tsx:82-125 | an empty log gives no holdings |
| App.HoldingOfTicker | App.tsx:82-125 | a ticker is held iff its trades in fold order leave a positive quantity; its holding is that replay, named after its first trade |
| App.ReplayQuantityBounds | App.tsx:101-116 | the final quantity lies between held + bought - sell requests and held + bought |
| App.ReplayQuantityExact | App.tsx:102-109 | without over-selling the final quantity is held + bought - sold |
| App.NoBuysBoughtNothing | App.tsx:101-106 | a sub-log without BUYs adds no quantity |
| App.NeverBoughtNotHeld | App.tsx:91-124 | selling a ticker never bought leaves no holding for it |
| App.BuyExample | App.tsx:101-106 | buying 10 at 100 with fee 5 gives 10 shares, average 100.5 and 1005 invested |
| App.PartialSellKeepsAverage | App.tsx:107-111 | a sell that leaves shares reduces the quantity by the request and keeps the average |
| App.FullSellResets | App.tsx:107-115 | selling at least the quantity held closes the position with invested and average 0 |
| App.ReopenStartsFresh | App.tsx:101-115 | a BUY into a closed position starts a fresh basis from its own cost |
| App.TradeCostNonNegative | App.tsx:101-116 | with non-negative price and fee a trade keeps average and invested non-negative |
| App.ReplayCostNonNegative | App.tsx:101-116 | the same over any sequence of trades |
| App.TradesCommute | App.tsx:101-116 | two trades of the same side on one position commute exactly |
| App.StepKeepsSimilar | App.tsx:90-122 | one step applied to two maps whose records differ only in their names gives two such maps |
| App.StepsOnOtherTickersCommute | App.tsx:90-122 | steps on different tickers commute exactly |
| App.StepsOnOneTickerCommute | App.tsx:90-122 | two same-side steps on one ticker commute up to the name of a record they create |
| App.StepsCommute | App.tsx:90-122 | two same-side steps commute up to record names |
| App.Swapped | App.tsx:85-88 | an adjacent exchange is a permutation that moves exactly two positions |
| App.SwapAtEnd | App.tsx:85-122 | exchanging the last two same-side trades leaves every position unchanged |
| App.SwapKeepsPositions | App.tsx:85-122 | exchanging any two adjacent same-side trades leaves every ticker's quantity, average and invested amount unchanged |
| App.UpdateRecord | App.tsx:101-119 | the in-place update of one record equals the annotated trade result |
| App.FoldTrades | App.tsx:90-122 | the loop over the sorted copy builds exactly the specified map, in insertion order |
| App.CollectOpen | App.tsx:124 | the loop over the map's values returns exactly the open records in key order |
| App.ComputeHoldings | App.tsx:82-125 | the memo returns exactly the specified holdings |
| App.HoldingsCostNonNegative | App.tsx:82-125 | with non-negative prices and fees no holding has a negative cost basis |
| App.UpdateDividendEstimate | App.tsx:75-80 | the ticker's estimate becomes the value; every other ticker's estimate and presence is unchanged |
| App.AddTransaction | App.tsx:127 | the trade is appended after the unchanged log |
| App.AddDividend | App.tsx:130 | the receipt is appended after the unchanged list |
| App.RemoveId | App.tsx:128 | the filter keeps exactly the elements whose id differs from the target |
| App.RemoveIdConcat | App.tsx:128 | the filter distributes over concatenation, so it keeps the survivors' order |
| App.RemoveIdAbsent | App.tsx:128 | removing an id no element carries changes nothing |
| App.RemoveTransaction | App.tsx:128 | the remaining trades are exactly those with a different id |
| App.RemoveDividend | App.tsx:131 | the remaining receipts are exactly those with a different id |
| App.AddThenRemove | App.tsx:127-128 | adding a trade and removing its id equals removing the id alone |
| App.RemoveTransactionKeepsOrder | App.tsx:128 | removing a uniquely identified trade leaves the others in order |
| App.RemoveDividendKeepsOrder | App.tsx:131 | removing a uniquely identified receipt leaves the others in order |
| Dashboard.FirstDigitRun | components/Dashboard.tsx:50 | finds the first position where four ASCII digits start, or reports that none does |
| Dashboard.GetYearFromDateSpec | components/Dashboard.tsx:49-52 | the year is the first run of four digits in the date, else the current year |
| Dashboard.GetYearExamples | components/Dashboard.tsx:49-52 | "2024-03-15" and "15/03/2024" give "2024"; "n/a" gives the current year |
| Dashboard.TxYears | components/Dashboard.tsx:64-67 | one year per trade, in log order |
| Dashboard.DividendYears | components/Dashboard.tsx:68-71 | one year per receipt, in list order |
| Dashboard.Register | components/Dashboard.tsx:64-71 | creating missing buckets yields each year once, exactly the known and new years |
| Dashboard.RegisterTradeYears | components/Dashboard.tsx:64-67 | the loop creates a zero bucket for each trade year in creation order |
| Dashboard.RegisterDividendYears | components/Dashboard.tsx:68-71 | the loop creates a zero bucket for each dividend year in creation order |
| Dashboard.YearKeysCover | components/Dashboard.tsx:64-71 | every trade's and receipt's year has a bucket |
| Dashboard.SortedYearsSpec | components/Dashboard.tsx:60-110 | the sorted keys are strictly ascending and are exactly the years of some trade or receipt |
| Dashboard.AfterSell | components/Dashboard.tsx:96-97 | after a covered SELL the tracked quantity lies between 0 and the previous quantity |
| Dashboard.Track | components/Dashboard.tsx:79-100 | one trade keeps every tracked quantity non-negative |
| Dashboard.TrackBuyTracked | components/Dashboard.tsx:81-84 | a BUY adds its quantity and cost including the fee to an existing basis and realizes nothing |
| Dashboard.TrackBuyUntracked | components/Dashboard.tsx:81-84 | a BUY of an untracked ticker starts its basis at its own quantity and cost |
| Dashboard.TrackSellUncovered | components/Dashboard.tsx:85-86 | a SELL of an untracked or empty ticker changes nothing and realizes nothing |
| Dashboard.TrackSellCovered | components/Dashboard.tsx:86-97 | a covered SELL realizes price * sold - fee share - average * sold in its date's year, sells min(request, held) and keeps the average |
| Dashboard.AfterSellKeepsAverage | components/Dashboard.tsx:96-97 | the remaining basis has the same average price |
| Dashboard.TrackerOf | components/Dashboard.tsx:78-100 | the fold keeps quantities non-negative and credits gains only to years of trades |
| Dashboard.TrackerOfStep | components/Dashboard.tsx:79-100 | the fold of one more trade is one more step |
| Dashboard.DividendEntries | components/Dashboard.tsx:102-107 | one (year, amount) entry per receipt, in order |
| Dashboard.Rows | components/Dashboard.tsx:109-119 | one row per sorted year |
| Dashboard.RowsAt | components/Dashboard.tsx:109-119 | row i holds year i, its dividend and gain totals, and dividends plus gains summed over years 0..i |
| Dashboard.TrackTrade | components/Dashboard.tsx:79-100 | one loop iteration performs the specified step and credits its gain to its year and to the lifetime total |
| Dashboard.RealizeGains | components/Dashboard.tsx:78-100 | the sell loop leaves each bucket's gain as the specified year total and the lifetime gain as the sum |
| Dashboard.AddDividends | components/Dashboard.tsx:102-107 | the dividend loop adds each receipt to its year and to the lifetime total |
| Dashboard.BuildRows | components/Dashboard.tsx:109-119 | the row loop builds exactly the specified rows |
| Dashboard.ComputeLedger | components/Dashboard.tsx:59-127 | the memo returns exactly the specified ledger |
| Dashboard.YearTotalAbsent | components/Dashboard.tsx:66 | a year no entry names totals 0 |
| Dashboard.ColumnTotalIsTotal | components/Dashboard.tsx:93-94 | summing the year buckets gives the lifetime total when every entry's year is a key |
| Dashboard.CumulativeIsColumns | components/Dashboard.tsx:112 | the running profit is the dividend column plus the gain column |
| Dashboard.RowsColumns | components/Dashboard.tsx:109-119 | the rows' dividend and gain columns sum to the bucket sums |
| Dashboard.RowsPrefix | components/Dashboard.tsx:109-119 | the first k rows are the rows of the first k years |
| Dashboard.RowsCumulative | components/Dashboard.tsx:109-119 | each row's cumulative profit is the sum of dividends and gains of the rows up to it |
| Dashboard.GainYearsAreKeys | components/Dashboard.tsx:92 | every realized gain's year already has a bucket, so the guard never creates one |
| Dashboard.DividendYearsAreKeys | components/Dashboard.tsx:104 | every receipt's year already has a bucket |
| Dashboard.DividendTotalIsAmountSum | components/Dashboard.tsx:102-107 | the lifetime dividend total is the sum of all amounts |
| Dashboard.LedgerTotals | components/Dashboard.tsx:59-127 | the yearly columns sum to the lifetime totals, the dividend total is the sum of amounts, and the last cumulative profit is dividends plus gains |
| Dashboard.LedgerRows | components/Dashboard.tsx:109-119 | one row per sorted year with its dividend and gain totals and the running profit |
| Dashboard.LedgerYearStats | components/Dashboard.tsx:121-126 | current and previous year figures are that year's totals, 0 for a year without a bucket |
| Dashboard.ExampleSellArithmetic | components/Dashboard.tsx:87-97 | concrete sells: 4 of 10 at 150 with fee 2 on a 1005 basis gain 196 and leave 6 at 603 |
| Dashboard.GainExamples | components/Dashboard.tsx:78-100 | buy 10 at 100 + 5, sell 4 at 150 - 2, sell 10 at 120 realize 196 then 117 |
| Dashboard.SameDateSellOrderMatters | components/Dashboard.tsx:73-100 | two SELLs of the whole position on one date realize 1000 in one order and -500 in the other, since only the first finds shares |
| Dashboard.DivGrowth | components/Dashboard.tsx:129-131 | growth is 0 without a positive previous dividend, else the percentage change |
| Dashboard.MonthlyAvgCombined | components/Dashboard.tsx:133 | the average times the months passed is this year's dividends plus gains |
| Dashboard.ValueGeqTotalPreorder | components/Dashboard.tsx:139 | the descending comparator is a total preorder |
| Dashboard.Slices | components/Dashboard.tsx:136-138 | one slice per holding, named by ticker, valued at invested capital |
| Dashboard.AllocationDataSpec | components/Dashboard.tsx:135-140 | the chart data is a permutation of the slices in non-increasing value |
| DataManagement.Split | components/DataManagement.tsx:72-74 | splitting always yields at least one piece |
| DataManagement.SplitJoin | components/DataManagement.tsx:49 | splitting a join of separator-free parts gives back the parts |
| DataManagement.JoinSplit | components/DataManagement.tsx:72 | joining the pieces of a split gives back the text |
| DataManagement.JoinHasSeparator | components/DataManagement.tsx:49 | two or more joined parts contain the separator |
| DataManagement.Kept | components/DataManagement.tsx:72 | the filter keeps exactly the non-blank lines |
| DataManagement.KeptAll | components/DataManagement.tsx:72 | a text without blank lines loses no line |
| DataManagement.KeptConcat | components/DataManagement.tsx:72 | the filter works line by line |
| DataManagement.BlankLineIgnored | components/DataManagement.tsx:72 | a blank line anywhere in the file does not change the imported lines |
| DataManagement.TransactionLines | components/DataManagement.tsx:46-49 | one comma-joined line per trade, in order |
| DataManagement.DividendLines | components/DataManagement.tsx:56-59 | one comma-joined line per receipt, in order |
| DataManagement.HeaderLines | components/DataManagement.tsx:45-55 | the headers contain a comma and no newline |
| DataManagement.DataLines | components/DataManagement.tsx:72-73 | the data lines are the kept lines less the first |
| DataManagement.ImportedTransactions | components/DataManagement.tsx:73-85 | one trade per data line, parsed by position, in file order |
| DataManagement.ImportTransactions | components/DataManagement.tsx:86 | the imported trades are appended after the unchanged log |
| DataManagement.ImportedDividends | components/DataManagement.tsx:105-114 | one receipt per data line, parsed by position, in file order |
| DataManagement.ImportDividends | components/DataManagement.tsx:115 | the imported receipts are appended after the unchanged list |
| DataManagement.DataLinesOfExport | components/DataManagement.tsx:49-73 | splitting and filtering an exported file gives back its lines after the header |
| DataManagement.TransactionLineRoundTrip | components/DataManagement.tsx:46-84 | with clean text fields, a non-empty id and printable numbers, an exported trade line parses back to the trade with each number reparsed; it is the trade itself when its numbers print back |
| DataManagement.DividendLineRoundTrip | components/DataManagement.tsx:56-113 | an exported receipt line parses back to the receipt with its amount reparsed; it is the receipt itself when the amount prints back |
| DataManagement.TransactionLinesRoundTrip | components/DataManagement.tsx:46-84 | each exported trade line holds a ',' and no newline, and parses back to its reprinted trade |
| DataManagement.DividendLinesRoundTrip | components/DataManagement.tsx:56-113 | each exported receipt line holds a ',' and no newline, and parses back to its reprinted receipt |
| DataManagement.TransactionExportDataLines | components/DataManagement.tsx:49-73 | the data lines of an exported trade file are its trade lines |
| DataManagement.DividendExportDataLines | components/DataManagement.tsx:59-105 | the data lines of an exported receipt file are its receipt lines |
| DataManagement.TransactionsRoundTrip | components/DataManagement.tsx:44-85 | when every number prints back, importing an exported trade log gives back exactly the log |
| DataManagement.DividendsRoundTrip | components/DataManagement.tsx:54-114 | when every amount prints back, importing an exported receipt list gives back exactly the list |
| DataManagement.Reprinted | components/DataManagement.tsx:81-83 | a reread trade keeps every text field; it equals the trade exactly when each number reads back as itself |
| DataManagement.DividendReprinted | components/DataManagement.tsx:112 | a reread receipt keeps every text field; it equals the receipt exactly when the amount reads back as itself |
| DataManagement.TransactionsReread | components/DataManagement.tsx:44-85 | importing an exported trade log gives one trade per exported trade, in order, each with its numbers reparsed and its text fields and id unchanged |
| DataManagement.DividendsReread | components/DataManagement.tsx:54-114 | importing an exported receipt list gives one receipt per exported receipt, in order, each with its amount reparsed |
| DataManagement.RoundTripExample | components/DataManagement.tsx:44-85 | a concrete trade and printer meet the round trip's hypotheses |
| DataManagement.TransactionFields | components/DataManagement.tsx:45-48 | a trade exports as eight fields, matching the header |
| DataManagement.ParseTransaction | components/DataManagement.tsx:76 | a non-empty fallback id always gives the parsed trade an id |
| AIInsights.TopHolding | components/AIInsights.tsx:13 | there is a top holding iff there are holdings, and it is one of them |
| DataManagement.TransactionExportLines | components/DataManagement.tsx:44-49 | the export is the header line, then one line per trade |
| DataManagement.DividendExportLines | components/DataManagement.tsx:54-59 | the export is the header line, then one line per receipt |
| DataManagement.ParseShortLine | components/DataManagement.tsx:74-84 | a seven-field line reads fees as "0", replaces an empty id, and keeps the type as written |
| DataManagement.ParseShortDividendLine | components/DataManagement.tsx:106-112 | a four-field line parses its missing amount from the empty string |
| Portfolio.EmptyPortfolio | components/Portfolio.tsx:12 | no holdings: no capital, no income, no allocation rows |
| Portfolio.IncomeNonNegative | components/Portfolio.tsx:12 | with non-negative estimates the annual income is non-negative |
| Portfolio.Share | components/Portfolio.tsx:51 | the share is finite iff the total is not 0, and then share * total = invested * 100; a zero total gives NaN or an infinity by the sign of the part |
| Portfolio.Allocations | components/Portfolio.tsx:49-51 | one allocation per holding: its share of the sum of all investments |
| Portfolio.ShareSumScales | components/Portfolio.tsx:50-51 | the shares against a fixed total scale to the part of the total the holdings make up |
| Portfolio.AllocationsSumTo100 | components/Portfolio.tsx:50-51 | with a non-zero total the allocations add up to 100 |
| Portfolio.MemberAtMostTotal | components/Portfolio.tsx:50 | with no negative investment each holding's investment is at most the total |
| Portfolio.TotalNonNegative | components/Portfolio.tsx:50 | with no negative investment the total is non-negative |
| Portfolio.ShareBounds | components/Portfolio.tsx:51 | a non-negative part of a positive total is a share between 0 and 100 |
| Portfolio.AllocationsInRange | components/Portfolio.tsx:50-51 | with a positive total and no negative investment every allocation is finite and in [0, 100] |
| AIInsights.InvestedGeqTotalPreorder | components/AIInsights.tsx:13 | the descending comparator is a total preorder |
| AIInsights.TopHoldingSpec | components/AIInsights.tsx:13 | a top holding exists iff there are holdings; it is one of them, none has more invested, and every earlier one has less |
| AIInsights.TopHoldingIndex | components/AIInsights.tsx:13 | the top holding sits at an index whose investment bounds every holding's |
| AIInsights.MaxAllocationIndex | components/AIInsights.tsx:13-15 | the largest allocation is the share of a holding no other exceeds |
| AIInsights.CountIsLength | components/AIInsights.tsx:14 | the count of holdings is the list's length |
| AIInsights.AvgAllocation | components/AIInsights.tsx:14 | 0 with no holdings, else a positive value that times the count is 100 |
| AIInsights.ConcentrationLabel | components/AIInsights.tsx:37-42 | 'Moderate' iff the largest allocation exceeds 30, else 'Healthy' |
| AIInsights.WarningImpliesModerate | components/AIInsights.tsx:42-79 | the warning (above 40) only ever shows next to 'Moderate' |
| AIInsights.EfficiencyScore | components/AIInsights.tsx:56 | score + largest allocation = 100 + average when finite; an infinite allocation gives the opposite infinity, NaN gives NaN |
| AIInsights.TotalAtMostCountTimesMax | components/AIInsights.tsx:12-13 | the total is at most the count times any bound on the investments |
| AIInsights.MaxAllocationNotNegInfinity | components/AIInsights.tsx:12-15 | the largest allocation is never minus infinity |
| AIInsights.ShareBetween | components/AIInsights.tsx:14-15 | a share of a part that, counted once per holding, covers the total lies between 100/n and 100 |
| AIInsights.AverageAtMostTopShare | components/AIInsights.tsx:14-15 | the average allocation is at most the share of a holding no holding exceeds |
| AIInsights.MaxAllocationBounds | components/AIInsights.tsx:12-15 | with no negative investment and a positive total the largest allocation is finite and between the average and 100 |
| AIInsights.EfficiencyScoreBounds | components/AIInsights.tsx:12-56 | under the same conditions the efficiency score is finite and between the average allocation and 100 |
| AIInsights.EmptyReport | components/AIInsights.tsx:12-15 | no holdings: no top and both allocations 0; the label, warning and score functions would give 'Healthy', none and 100, but the source renders none of them |
| AIInsights.SingleHoldingReport | components/AIInsights.tsx:12-79 | one funded holding: it is the top, both allocations are 100, 'Moderate' with a warning, a score of 100 |

## Left out

- Rendering, charts, routing, number formatting (`toFixed`, `toLocaleString`) and the message banners are display only.
- `localStorage` persistence and `resetAllData` are I/O.
- `components/TickerSearch.tsx` is a network client with timers and DOM listeners, so it is not part of this model.
- `components/Transactions.tsx` and `components/Dividends.tsx` build records from form state with `Date.now()` and `parseFloat`. They are not part of this model.
- Types.AllPositive: the folds require every trade quantity to be positive. This is an assumption of the model, not a guarantee of the source. The form checks only that the quantity field is not empty, and import checks nothing, so a quantity of 0 or below can reach the folds. There a BUY of 0 into a closed position divides 0 by 0 (App.tsx:105), whose NaN the model does not represent.
- Tickers are map keys in the model. The source keys plain objects by ticker (App.tsx:97, 118; components/Dashboard.tsx:82, 86), so an imported ticker that names an `Object.prototype` member, such as `constructor`, finds an inherited value there. The model does not capture that. The form upper-cases tickers, which keeps such names out; import does not.
- `FileReader`, `Blob`, the download link and the file name with today's date are I/O.
- The `try`/`catch` around import is left out: nothing in the modelled parsing throws.
- The optional `notes` field of trades and receipts is not modelled. Export never writes it and import never reads it.
- IEEE-754 arithmetic is not modelled: amounts are exact reals, with no rounding and no NaN from unparseable input. Division by zero in the allocation figures is kept apart (`Portfolio.Ratio`): an infinity or NaN, compared the way JavaScript compares them.
- `localeCompare` is replaced by Unicode code-point order, and `Object.keys(...).sort()` uses the same order. JavaScript's default sort compares UTF-16 code units. The two orders differ only when a character outside the Basic Multilingual Plane is compared with one in U+E000 to U+FFFF, which dates and four-digit years do not hold.
- A data line with fewer fields than the header leaves `undefined` fields in the source. A missing date then makes `localeCompare` (App.tsx:86) and `match` (components/Dashboard.tsx:50) throw, so the holdings and ledger memos fail. The model instead reads the field as the empty string: it sorts that date first and books it in the current year. A missing ticker is likewise the key `""` in the model, where the source's `Map` at App.tsx:91 keeps `undefined` and `""` apart.
- AIInsights.EmptyReport: with no holdings the source returns a placeholder (components/AIInsights.tsx:17-24) before any label, warning or score is rendered. Only the top holding and the two allocations at lines 12-15 are computed there. The lemma's other clauses say what the model's functions give, not what is shown.
- The sort of trades: the source's comparator returns -1 whenever the first trade is a BUY, so it is not consistent inside a group of same-date trades. The engine may return any order that respects (date, BUY first). The model fixes one such order, a stable insertion sort by that key, and proves the rest as follows:
  - `TradeOrder.FoldOrderIsOrdered` shows the fixed order is a permutation that respects the key.
  - `App.SwapKeepsPositions` shows holdings do not depend on the order inside a same-date, same-side group, except that a record created inside the group takes its name from whichever trade comes first.
  - `Dashboard.SameDateSellOrderMatters` shows that ledger gains can depend on that order.
- The dead guards `if (!years[yr])` in the ledger's sell and dividend loops (components/Dashboard.tsx:92, 104) create no bucket in the model. Every year already has one (`Dashboard.GainYearsAreKeys`, `Dashboard.DividendYearsAreKeys`).
- A `\r` left at the end of a line of a file with CRLF line ends is kept as part of the last field, as in the source. It is not special-cased.
- The fallback id `Date.now().toString() + Math.random()` is replaced by the parameter `freshId`.
- Portfolio.Allocations: a zero total gives NaN or an infinity per holding, depending on the sign of the holding's own investment. A negative investment with a zero total is reported as minus infinity. The model does not say which rendering (`toFixed`, the bar width) follows from it.
