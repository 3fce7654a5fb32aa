# Personal wealth tracker — ingestion, merge and valuation core in Dafny

This project models the decision logic of a personal wealth tracker and proves
properties of it. The tracker imports brokerage CSV exports, normalises each
row into a holding, merges the batch into the tracked holdings, and values
the portfolio from live quotes. It also measures savings goals against the
calendar.

Modules, one concept each:

- `Basics` holds `Option`, the `Somes` filter that drops skipped rows, and
  time. Instants are whole seconds, dates are day numbers, and `timedelta.days`
  is floor division.
- `Text` holds ASCII case mapping, Python's `strip`, `replace(c, '')`,
  `split(c)[0]` and the substring test `in`.
- `Numbers` holds the `$`/`,` clean-up and a decimal reading of `float(text)`.
  The accepted texts are characterised by an independent numeral grammar
  (`Decimal`), and `ParseFloat` adds the special values `nan` and `inf`.
- `Records` holds the CSV table (cells are `Option<string>`, `None` is a
  pandas null) and the `Holding` record.
- `Columns` holds header keyword detection: `auto_detect_column` and the
  per-target detection loop.
- `CsvImport` is the generic import with its cost → value → quote → 1.0
  fallback chain.
- `SofiRows` is the row normaliser shared by the two SoFi importers. Their
  two deliberate differences are explicit parameters: the cost rule, and how
  the symbol is tidied.
- `SofiImport` is the in-app SoFi import. A cost basis is always a total, and
  every `/` is deleted from symbols.
- `SofiCleaner` is the stand-alone cleaner script. It has the
  "above ten times the shares means total" heuristic, cuts the symbol at `/`,
  and removes duplicates. It also holds the banking-row filter and the choice
  of export type.
- `Merge` covers the three merge strategies.
- `MarketData` covers per-symbol quote fallback and the portfolio valuation.
  The quote provider is a function parameter that returns `None` when the
  lookup raises.
- `Goals` covers goal progress, pace and status.
- `Dashboard` covers due-date alerts, wealth milestones, the diversification
  score and the automatic update of portfolio goals.

The quote provider and the current instant `now` are parameters everywhere.
Nothing reads a clock, a file or the network.

Behaviours of the code worth knowing:

- An unrecognised merge strategy returns the tracked holdings unchanged
  (app.py:249). It is not a fatal error.
- "Replace all data" with an empty import yields an empty portfolio
  (`Merge.EmptyImport`). So merging an empty batch is not the identity under
  every strategy.
- Only the cleaner script removes duplicate symbols. Neither the generic
  import nor the in-app SoFi import does.
- The generic import does not treat `NULL` as a null symbol. Its share count
  has only commas removed, so `$10` shares skip the row
  (`CsvImport.DollarSharesSkipped`).
- The in-app SoFi import always divides the cost basis by the share count,
  even for a column matched by `Avg_Cost`. Only the cleaner script applies
  the ten-times heuristic. The in-app import also deletes every `/` instead
  of keeping the part before the first one.
- The code holds no time-to-live cache logic of its own. See "Left out".

## Model

| member | source | states |
|---|---|---|
| `Columns.AutoDetectColumn` | app.py:137-146 | The result is 0 exactly when no header contains a keyword (case-insensitively). Otherwise it is 1 + the position of the first matching header, in header order. It always lies in 0..\|columns\|, and it agrees with the reference search `FirstMatch`. |
| `Columns.FirstMatchFrom` | app.py:141-144 | Reference search: the first matching header at or after a position, with no match between. `None` means nothing from there on matches. |
| `Columns.DetectColumns` | scripts/sofi_cleaner.py:41-46 | A target is detected iff some header matches one of its keywords. Its column is the first such header in file order. Nothing prevents two targets from sharing a header. |
| `Text.Contains` | scripts/sofi_cleaner.py:162-164 | Python's `needle in haystack`: true iff the needle occurs at some position. |
| `Text.Strip` | app.py:156 | The result is one contiguous slice of `s` with only whitespace before and after it, and neither end of the result is whitespace. So every non-whitespace character of `s` is kept in order, and the result is empty iff `s` is all whitespace. |
| `Text.StripIdempotent` | app.py:156 | Stripping an already stripped text changes nothing. |
| `Text.ContainsAny` | scripts/sofi_cleaner.py:162-164 | Python's `any(k in text for k in keywords)`: true iff some keyword occurs in the text. |
| `Text.RemoveChar` | app.py:316 | `replace(c, '')`: no `c` is left, every other character keeps its multiplicity, and text without `c` comes back unchanged. |
| `Text.RemoveCharOne` | app.py:316 | A single character is dropped iff it is `c`. |
| `Text.RemoveCharAppend` | app.py:316 | Removal works piece by piece: the result for `a + b` is the result for `a` followed by the result for `b`. With `RemoveCharOne` this fixes the order of the kept characters. |
| `Text.BeforeFirst` | scripts/sofi_cleaner.py:103-104 | `split(c)[0]`: the longest prefix without `c`. When it is shorter than the text, it is followed by `c`. |
| `Numbers.ParseNumber` | app.py:160 | `float(text)` for plain decimals. Whatever is accepted is a well-formed numeral (at most one sign, at least one digit, fraction digits only after a point) between blanks, and the number read is that numeral's value. With `DecimalParses`, a text is accepted iff it has that shape. |
| `Numbers.DecimalParses` | app.py:160 | Every well-formed numeral (at most one sign, at least one digit, fraction digits only after a point), with any blanks around it, is read as exactly the value its digits denote, negated for `-`. |
| `Numbers.TwoPointsRejected` | app.py:160 | `1.2.3` is rejected. |
| `Numbers.DoubleSignRejected` | app.py:160 | `--5` is rejected. |
| `Numbers.LonePointRejected` | app.py:160 | `.` is rejected. |
| `Numbers.ParseFloat` | scripts/sofi_cleaner.py:165 | `float(text)` with its special values. A plain decimal is finite with the decimal reading. `nan` in any letter case, with an optional sign, is not-a-number. `inf` and `infinity` are infinities, negative iff the stripped text starts with `-`. Anything else raises. |
| `Numbers.NanTextIsNaN` | scripts/sofi_cleaner.py:165 | The text `nan`, which is how a null cell prints, is read as not-a-number. |
| `Numbers.Sanitize` | scripts/sofi_cleaner.py:71 | Removes every `,` and `$` and nothing else: the multiset of the other characters is kept, and text without either comes back unchanged. |
| `Numbers.SanitizeAppend` | scripts/sofi_cleaner.py:71 | Sanitising works piece by piece, so the kept characters stay in their order. |
| `Numbers.DollarDefeatsParse` | app.py:160 | Text containing `$` never parses as a number. |
| `Numbers.ParseNumeral` | app.py:160 | Reading back the decimal rendering of a whole number gives that number. |
| `Numbers.ParseDecimalText` | app.py:169 | Reading back `whole.frac` gives the exact value of its digits. |
| `Numbers.ParseNegated` | app.py:169 | A leading minus sign negates the parsed value. |
| `CsvImport.QuoteFallback` | app.py:192-200 | 1.0 without a market layer. Otherwise the price the market layer quotes for the symbol, which is 0 when its lookup failed. |
| `CsvImport.CostChain` | app.py:165-200 | A nonzero declared cost is taken verbatim. An unreadable value gives 1.0. A nonzero value gives value ÷ shares. Otherwise the quote fallback is used. |
| `CsvImport.ImportRow` | app.py:153-211 | A row yields a holding iff both mapped columns exist, the cleaned symbol is neither empty nor `NAN`, and the comma-stripped share count parses to a positive number. The holding has that symbol and share count, no name, today's date, and the cost from the fallback chain. |
| `CsvImport.ProcessCsvImport` | app.py:148-213 | Exactly the holdings of the rows that are not skipped, in row order: every kept row's holding is in the result, every holding in the result is some row's, and the result is the kept outcomes of the rows in turn (see `CsvImport.ImportRowsAppend`). Every holding has positive shares and a symbol that is neither empty nor `NAN`. |
| `CsvImport.ImportRowsAppend` | app.py:153-211 | Rows are independent: importing two runs of rows gives the holdings of each, concatenated. |
| `CsvImport.DollarSharesSkipped` | app.py:160 | A share count written with `$` always skips the row. |
| `CsvImport.DeclaredCostWins` | app.py:166-174 | A per-share cost that parses to a nonzero number becomes the average cost, whatever the value column and the market say. |
| `CsvImport.ValueCostIgnoresMarket` | app.py:174-187 | Without a usable cost, a readable nonzero value gives value ÷ shares, whatever the quote. |
| `CsvImport.QuoteCostWhenNoColumns` | app.py:192-200 | With neither a cost nor a value column, the cost is the quoted price, or 1.0 without a market layer. |
| `SofiRows.BasisCost` | scripts/sofi_cleaner.py:80-86 | In-app rule: the cost times the shares is the basis. Cleaner rule: the same when the basis exceeds ten times the shares, otherwise the basis is the per-share cost. |
| `SofiRows.CostHeuristicExamples` | scripts/sofi_cleaner.py:83-86 | 500 on 10 shares gives 50, and 8 on 10 shares gives 8, under the cleaner rule. Under the in-app rule, 8 on 10 shares gives 0.8. |
| `SofiRows.TidySymbol` | scripts/sofi_cleaner.py:102-104 | The tidied symbol has no space and no `/`, and a symbol without either is unchanged. The in-app rule keeps every other character. The cleaner rule keeps the space-free text before the first `/`. |
| `SofiRows.DropSlashesAppend` | app.py:316 | The in-app tidying works piece by piece, so the kept characters stay in their order. |
| `SofiRows.CostChain` | scripts/sofi_cleaner.py:76-99 | A non-null cost basis always decides. Otherwise a detected market-value column decides even when its cell is null. Otherwise a detected price column decides. A null deciding cell leaves 0, and an unreadable one skips the row. |
| `SofiRows.SofiRow` | scripts/sofi_cleaner.py:53-118 | A row is kept iff symbol and shares columns are detected, the symbol is not `''`, `NAN` or `NULL`, the sanitised share count parses to a positive number, and the deciding cost cell (if any) parses. A kept row has the tidied symbol, the share count, the chain's cost, no name and today's date. |
| `SofiRows.KeptRowIsTidy` | app.py:289-316 | A kept row has positive shares and a symbol without spaces or `/`. |
| `SofiRows.SofiBatch` | app.py:271-329 | Exactly the holdings of the kept rows, in row order: every kept row's holding is in the result, every holding is some row's, and the result is the kept row outcomes in turn. All holdings have positive shares and tidy symbols. |
| `SofiRows.MissingColumnSkipsAll` | scripts/sofi_cleaner.py:55-68 | Without a detected symbol or shares column, no row is kept. |
| `SofiImport.ProcessSofiCsv` | app.py:251-329 | The in-app import yields exactly the holdings of the rows the in-app rules keep, in row order. Every holding has positive shares and a symbol without spaces or `/`. |
| `SofiImport.BasisDecides` | app.py:297-300 | Under the in-app rule, a non-null cost basis decides the cost chain and must parse. |
| `SofiImport.CostBasisIsTotal` | app.py:297-300 | A kept row with a non-null cost basis has cost basis ÷ shares as its average cost, whatever the other columns hold. |
| `SofiImport.BadCostBasisSkipsRow` | app.py:298-299 | A non-null cost basis that does not parse skips the row. |
| `SofiImport.NullMarketValueLeavesZero` | app.py:303-307 | Without a usable cost basis, a null market value leaves the cost at 0, even when a price column exists. |
| `SofiCleaner.DedupFrom` | scripts/sofi_cleaner.py:126 | The result holds only input holdings whose symbols are unseen, all with distinct symbols, and covers every unseen symbol of the input. |
| `SofiCleaner.Dedup` | scripts/sofi_cleaner.py:126 | Distinct symbols, the same symbol set as the input, and only input holdings. |
| `SofiCleaner.DedupFromSuffix` | scripts/sofi_cleaner.py:126 | From any position, the walk equals the reference list of first occurrences from that position. |
| `SofiCleaner.DedupKeepsFirstOccurrences` | scripts/sofi_cleaner.py:126 | Dedup is exactly the reference definition: the holdings at first-occurrence positions, in input order. |
| `SofiCleaner.CleanInvestmentCsv` | scripts/sofi_cleaner.py:119-141 | `None` iff no row survives. Otherwise the result is exactly the first holding of each surviving symbol, in row order, so it is non-empty, with distinct symbols, positive shares and tidy symbols. |
| `SofiCleaner.CleanerSymbolIsPrefix` | scripts/sofi_cleaner.py:102-104 | The cleaner's symbol is the space-free cleaned cell up to its first `/`. |
| `SofiCleaner.ColumnNamed` | scripts/sofi_cleaner.py:160 | The header named exactly as asked, or `None` when no header has that name. |
| `SofiCleaner.RowTransaction` | scripts/sofi_cleaner.py:160-172 | A row gives a transaction iff it is investment-related and `float` accepts its amount. The transaction has the row's date, description and amount. |
| `SofiCleaner.RowTransactions` | scripts/sofi_cleaner.py:158-172 | Reference filter: the transaction each row would give on its own, in row order. |
| `SofiCleaner.BankingRows` | scripts/sofi_cleaner.py:158-182 | A successful walk yields at most one transaction per row. |
| `SofiCleaner.NullAmountIsNaN` | scripts/sofi_cleaner.py:165 | A null Amount cell is read as not-a-number, so it neither fails the walk nor drops the row. |
| `SofiCleaner.BankingRowsStep` | scripts/sofi_cleaner.py:162-172 | An unrelated row is passed over. A related row with an unreadable amount fails the walk. Otherwise the row's transaction is put in front of the rest. |
| `SofiCleaner.BankingRowsFailure` | scripts/sofi_cleaner.py:165 | The whole run fails iff some related row has an amount `float` rejects. A null amount is not-a-number and does not fail it. |
| `SofiCleaner.BankingRowsFilter` | scripts/sofi_cleaner.py:158-182 | A run that does not fail yields exactly the reference filter's transactions, in row order. |
| `SofiCleaner.InvestInsideTransfer` | scripts/sofi_cleaner.py:162-164 | A description containing `transfer to invest` contains `invest`. |
| `SofiCleaner.TransferKeywordRedundant` | scripts/sofi_cleaner.py:162-164 | The keyword `transfer to invest` never changes the verdict, because `invest` already catches it. |
| `SofiCleaner.DetectCsvType` | scripts/sofi_cleaner.py:205-213 | The type is banking iff the lower-cased first line has no investment hint and has a banking hint. In every other case it is investment. |
| `SofiCleaner.ResolveCsvType` | scripts/sofi_cleaner.py:204-215 | An explicit `--type` is obeyed, and `auto` gives the type detected from the first line. |
| `SofiCleaner.RunCleaner` | scripts/sofi_cleaner.py:219-230 | The chosen type decides which cleaner runs. An investment run fails iff no row survives. A banking run fails iff some related row's amount is rejected, and otherwise yields the reference filter's transactions, possibly none. |
| `Merge.FreshOnly` | app.py:223-224 | A holding is kept iff it is imported and its key is not in the given set, and it is kept as many times as it is imported. |
| `Merge.FreshOnlyAppend` | app.py:223-224 | Filtering works piece by piece, so the kept holdings stay in import order. |
| `Merge.FreshOnlyOne` | app.py:223-224 | A single imported holding is kept iff its key is new. |
| `Merge.AddNewPositions` | app.py:221-225 | The tracked holdings come first, unchanged and in order. They are followed by the filtered import (`FreshOnly`): exactly the imported holdings whose upper-cased symbol is not tracked, in import order and with repeats. The key set becomes the union. |
| `Merge.AddNewIdempotent` | app.py:221-225 | Adding the same batch twice adds nothing the second time. |
| `Merge.FirstKeyIndex` | app.py:235-239 | The position of the first holding with the key, or `None` iff no holding has it. |
| `Merge.Refresh` | app.py:238-241 | The refreshed holding keeps its symbol and name, and takes the update's shares, cost and date. |
| `Merge.UpdateOne` | app.py:231-245 | A tracked key refreshes only its first holding's shares, cost and date, and nothing else changes. An untracked key is appended. The length grows by one exactly for a new key. |
| `Merge.UpdateAll` | app.py:227-247 | Tracked holdings keep their positions, symbols and names. The key set becomes the union, and every holding appended after the tracked ones carries the key of an imported holding. |
| `Merge.HandleDataMerge` | app.py:215-249 | Replace returns the import, Add and Update dispatch, and any other strategy returns the tracked holdings. Every strategy except Replace keeps every tracked key. |
| `Merge.EmptyImport` | app.py:215-249 | An empty import changes nothing, except that Replace empties the portfolio. |
| `Merge.StrategiesAgreeOnKeys` | app.py:221-247 | Add and Update end up tracking the same keys. |
| `Merge.UpdateCount` | app.py:229-245 | The length grows by exactly the number of imported keys that were not tracked. |
| `Merge.UpdateLeavesOthers` | app.py:235-240 | A tracked holding whose key is not imported, or which is not the first of its key, is left exactly as it was. |
| `Merge.UpdateOneSameKey` | app.py:238-245 | After one update, the first holding of the key carries the update's figures. |
| `Merge.UpdateOneOtherKey` | app.py:235-245 | One update neither moves nor touches the first holding of any other tracked key. |
| `Merge.LastUpdateWins` | app.py:231-245 | After the merge, the first holding of each imported key carries the shares, cost and date of the last imported holding with that key. |
| `MarketData.LiveQuote` | financial_apis.py:101-114 | The price is the last close. The change is relative to the previous close, which defaults to the price. The change percentage times the previous close is 100 × change when the previous close is positive, and 0 otherwise. The name defaults to the symbol. |
| `MarketData.SymbolQuote` | financial_apis.py:95-131 | A raised lookup or an empty history gives the zero quote named after the symbol. Otherwise the quote is the one built from the last bar, the previous close and the long name, so its price is the last close. |
| `MarketData.GetCurrentPrices` | financial_apis.py:91-133 | Exactly one entry per requested symbol, each depending only on that symbol's own lookup. |
| `MarketData.FailedLookupIsZero` | financial_apis.py:115-131 | A failed or empty lookup gives that symbol the zero quote, whatever happens to the others. |
| `MarketData.QuoteIsolation` | financial_apis.py:95-131 | Two providers that agree on a symbol give it the same entry, whatever the other requested symbols. |
| `MarketData.GainPercent` | financial_apis.py:171 | The percentage times the cost is 100 × gain when the cost is positive, and 0 otherwise. |
| `MarketData.PositionOf` | financial_apis.py:147-174 | Value is shares × price, cost is shares × average cost, and gain is value − cost. A symbol without a quote is priced 0, named after itself, and stamped now. |
| `MarketData.Positions` | financial_apis.py:147-174 | One position per holding, in holding order, with repeated symbols included. |
| `MarketData.CalculatePortfolioValue` | financial_apis.py:135-185 | An empty portfolio gives zero totals, no positions, and no gain percentage or update time. Otherwise the positions are the holdings' positions in order, the totals are the sums of their values and costs, the total gain is value − cost, and the gain percentage follows the same rule as for positions. |
| `MarketData.SymbolList` | financial_apis.py:140 | The symbols of the holdings, in order. |
| `MarketData.PortfolioUsesOwnQuotes` | financial_apis.py:140-153 | In the full valuation, every holding is priced from its own symbol's lookup. |
| `MarketData.TotalGainIsSumOfGains` | financial_apis.py:157-176 | The sum of the position gains is total value − total cost. |
| `MarketData.ValuationGainIsSumOfGains` | financial_apis.py:176 | The reported total gain is the sum of the position gains. |
| `MarketData.TotalValueAppend` | financial_apis.py:159-160 | Totals over concatenated positions are the sums of the parts. |
| `MarketData.ValuationAdditive` | financial_apis.py:143-160 | Splitting a portfolio in two, at any point and with either part possibly empty, splits its total value and total cost the same way. |
| `MarketData.TenSharesExample` | financial_apis.py:155-182 | 10 shares at 5 quoted at 8 give value 80, cost 50, gain 30 and 60 %. |
| `Goals.StartInstant` | financial_apis.py:194-197 | Without a start date, the start lies exactly 365 whole days before now. Otherwise it is a midnight, on the start date. |
| `Goals.Percent` | financial_apis.py:209-210 | The percentage times the whole is 100 × the part. |
| `Goals.PercentMonotone` | financial_apis.py:209 | A larger part is a larger percentage of the same whole. |
| `Goals.PerDay` | financial_apis.py:213 | The daily rate times max(days, 1) is the amount. |
| `Goals.Assess` | financial_apis.py:217-226 | Ahead iff progress ≥ time progress. On track iff it is below that but at least 0.9 × time progress. Behind otherwise. |
| `Goals.CalculateGoalProgress` | financial_apis.py:190-239 | Needed = target − current. Progress is a percentage of a positive target, else 0. Days remaining is the floor of the day difference. Daily × max(days left, 1) = needed, and monthly = 30 × daily. Status follows `Assess`. Time progress is the elapsed share of whole days, else 0. Achievable iff days remain and the daily rate is below 1000. |
| `Goals.MoreSavedNeverWorse` | financial_apis.py:209-226 | Saving more never lowers the progress or the status, and never raises the amount needed. |
| `Goals.DefaultStartSpansAYear` | financial_apis.py:194-206 | Without a start date, 365 days have elapsed, and the span is the days remaining plus 365. |
| `Goals.ReachedGoalIsAhead` | financial_apis.py:207-239 | A goal reached on or before its date is ahead, at 100 % or more, needs nothing, and is achievable iff days remain. |
| `Goals.BehindExample` | financial_apis.py:195-239 | 15,000 of 100,000 with a year left and the default start: 15 % against 50 % means behind, needing 85,000 over 365 days, still achievable. |
| `Dashboard.DashboardAlert` | app.py:801-806 | An alert is shown iff the due date is at most 7 days away. It is an error iff the date is at most 3 days away. |
| `Dashboard.CardDueLevel` | app.py:1330-1335 | Error at most 3 days away, warning for 4 to 7 days, and informational beyond. |
| `Dashboard.AlertLevelsAgree` | app.py:801-806 | The dashboard alerts exactly for the due dates the card page does not show as informational, and at the same level. |
| `Dashboard.CardAlert` | app.py:797-806 | A card alerts iff it has a due date at most 7 days away. The alert carries the card's name, its days until due and the card-page level. |
| `Dashboard.CardAlerts` | app.py:796-806 | The alerts of the cards in card order, one per card that alerts. Each is within 7 days and leveled as on the card page. There are none iff every dated card is more than 7 days from its due date. |
| `Dashboard.AlertsAreTheCards` | app.py:796-806 | Every card due within 7 days contributes its own alert, and every alert shown belongs to some card. |
| `Dashboard.CardAlertsAppend` | app.py:796-806 | Cards alert independently: the alerts of two lists joined are the alerts of each, joined. |
| `Dashboard.AlertPanelOf` | app.py:792-811 | No cards gives the invitation to add cards. No alerts gives "all current". Otherwise it gives the alerts. |
| `Dashboard.MilestoneLines` | app.py:864-872 | Each listed milestone is marked reached iff the net worth attains it. Only the last line can be "to go", with milestone − net worth remaining. The list stops early only at a "to go" line. |
| `Dashboard.ReachedExactly` | app.py:864-872 | With increasing milestones, exactly the milestones not above the net worth are shown as reached. |
| `Dashboard.NextMilestone` | app.py:866-872 | The position of the first milestone the net worth does not reach. It is `None` iff every milestone is reached, and every milestone before it is reached. |
| `Dashboard.ToGoLineIsNext` | app.py:866-872 | The list ends with a "to go" line exactly when a milestone is left. That line is the next milestone's, with milestone − net worth remaining, and it is the last line shown. |
| `Dashboard.AllMilestonesAtAMillion` | app.py:864 | With the tracker's milestones, nothing is left iff the net worth reaches 1,000,000. |
| `Dashboard.DiversificationScore` | app.py:1586 | At most 100, exactly 100 iff there are 5 or more holdings, and 20 per holding below that. |
| `Dashboard.DiversificationMonotone` | app.py:1586 | More holdings never lower the score. |
| `Dashboard.AutoUpdateGoals` | app.py:1365-1374 | Goals whose lower-cased name contains `portfolio` or `100k` get the current portfolio value, when there are goals and holdings and market data is available. Nothing else about any goal changes. |
| `Dashboard.AutoUpdateIdempotent` | app.py:1370-1372 | Refreshing twice with the same quotes gives the same goals as refreshing once. |
| `Dashboard.SampleGoalIsPortfolioGoal` | app.py:129 | The sample goal "First $100K Portfolio" follows the portfolio value. |
| `Basics.Somes` | app.py:202-213 | Keeps the values of the kept rows: nothing new, everything kept, and empty iff every row was skipped. |
| `Basics.SomesAppend` | app.py:153-211 | Skipping is per row: the kept values of two runs joined are the kept values of each, joined. |
| `Basics.SomesOfMap` | app.py:152-211 | The values kept from a per-row computation are exactly the results of the rows that produced one. |
| `Basics.DayOf` | app.py:207 | The date of an instant is the day whose midnight is the last one at or before it. |
| `Basics.WholeDays` | financial_apis.py:203-205 | `timedelta.days` is the floor of the difference in days. |

## Left out

- The Streamlit pages, widgets and messages are presentation only. The model
  keeps the decisions behind them (which alert, which level, which milestone)
  but not their text, colours or layout.
- The live monitoring loop and its sleeps are left out. They are timing and
  concurrency, with no decision logic.
- Reading and writing CSV files is left out: `load_data`, `save_data`,
  `pd.read_csv`, `to_csv`, output file names and console output. Tables are
  inputs and results are outputs.
- A missing input file in the cleaner script, and an unreadable CSV, are left
  out. They happen before any row logic runs.
- yfinance is left out. The quote provider is a parameter, and `None` stands
  for a lookup that raised. A `previousClose` that is present but `None`
  (which would raise) is folded into "absent". A `longName` that is present
  but `None` would give the quote a null name; in the model a name is
  always text, so that case is folded into "absent" too and the name falls
  back to the symbol. `get_stock_data`, the app's
  fallback valuation used when the market-data module is missing, is left
  out.
- The 30-second `st.cache_data` memoisation of `get_current_prices` is left
  out. It is a library cache keyed on the argument list. The class's own
  `cache_duration`, `last_update` and `price_cache` fields are never used, so
  the code holds no time-to-live logic to model. Every quote is stamped with
  the single instant `now`.
- MarketData.GetCurrentPrices: the list of symbols is not de-duplicated
  first (`unique()`). The result is a map, so a repeated symbol has the
  same entry either way.
- The SoFi account connector, Plaid setup and the sync routine are left out.
  They are credentials and demo data. The launcher script is left out too.
- The analytics page's randomly simulated returns are left out.
- Numbers.ParseNumber: Python floats are left out. Numbers are exact reals, and
  `float(text)` is a decimal reader: optional sign, digits, optional fraction. It has no
  exponent and no digit-group underscores (`1_000`), and it rejects `inf` and `nan`.
- Numbers.ParseFloat: adds `nan` and the infinities for the banking amount only. It
  shares the decimal reader's gaps: no exponent and no underscores.
- Numeric CSV cells are given as the text `str()` would render. Rendering
  pandas floats (for example `1e-05`) is not modelled.
- `CsvImport.ImportRow`: a null share, cost or value cell reads as `"nan"`.
  Python parses that as NaN and keeps the row, or carries NaN on. The model
  treats it as unreadable: the row is skipped, or the fallback is used. The
  same holds for the texts `nan`, `inf` and `infinity` in these cells.
- `SofiRows.SofiRow`: a null share cell is likewise skipped, where Python
  would keep a NaN share count, because `NaN <= 0` is false. Share, cost,
  value and price texts `nan`, `inf` and `infinity` are likewise unreadable. Cost, value and
  price cells are guarded against nulls in the source, so they match.
- Case mapping is ASCII-only. Python's `upper`/`lower` also map non-ASCII
  letters. Whitespace for `strip` is the Latin-1 part of Python's set.
- `Goals.CalculateGoalProgress`: dates are day numbers, and a date given as
  text stands for its midnight. Parsing date text with `pd.to_datetime` is
  not modelled, and an empty start date is given as `None`. The source reads
  the clock twice (default start, and today). The model uses one instant.
- The returned target date is kept as its midnight instant, not as a
  timestamp object.
- Columns are identified by position, and duplicate header names are not
  modelled. pandas renames them on reading.
- `Dashboard.AutoUpdateGoals` leaves out saving the updated goals file.
- The banking cleaner's constant `type` field, `investment_related`, is left
  out of `Transaction`.
- Currency and percentage display formatting are left out.
