# Accountant bot: a verified model of its spending ledgers

The accountant bot records spendings posted to a Telegram channel. Each post
holds one or more lines of the form `Lunch 345` or `Taxi 12.5 usd`. From them
the bot builds daily and monthly reports in Armenian drams (AMD), converting
foreign amounts at cached exchange rates. The repository holds two
generations of the bookkeeping:

* **src/spending.js** is the current store. It is a MongoDB collection of
  entries, one per spending line. Each entry carries its date, category,
  amount in drams, the message id and line index it came from, and for
  foreign amounts the original amount, currency and rate.
* **index.js** is the older, file-backed ledger. It keeps the same spendings
  twice: a `daily` map from date and category to a running total, and a
  `monthly` log of the individual records. It also holds the channel-post
  and edited-post handlers that parse `Category 1,000` lines.

Beside them sit the line parser and date helpers of **src/helpers.js** and
the cached exchange-rate service of **src/currency.js**.

## How the model is built

| file | module | what it holds |
|---|---|---|
| `common.dfy` | `Common` | `Option`, message ids, distinctness of a sequence |
| `text.dfy` | `Text` | characters and strings: ASCII case mapping, whitespace trimming, splitting and joining on a character |
| `helpers.dfy` | `Helpers` | the spending-line pattern, `parseSpending`, `parseSpendings`, and the calendar arithmetic of `getDateFromTimestamp`, `getToday` and `getCurrentMonth` |
| `currency.dfy` | `Currency` | `getExchangeRate` as a function of the cache, the clock and the two sources' responses; the `RateCache` class updates the cache in place; `convertToAMD`; `isSupportedCurrency` |
| `aggregate.dfy` | `Aggregate` | the fold used by every report: sums per key kept in first-seen order (`Tally`), and the stable sort by decreasing total (`SortDesc`) |
| `spending.dfy` | `Spending` | the entry store as a class over a sequence of entries, the write operations of src/spending.js as its methods, and the reports as functions of the entries |
| `ledger.dfy` | `Ledger` | the `{ daily, monthly }` document of index.js as a class; its write operations as methods, each proved to reach a pure transition; the invariant tying `daily` to `monthly`; the reports and the two message handlers |

Each operation that changes state is modelled twice. A class method performs
the source's own steps. A pure function of the old state states the result,
and the method's `ensures` says the method reaches it. The properties are
proved about those functions as lemmas. Where the source reads the clock,
the network or the database, the model takes the value as a parameter:
today's date, the rate source's response, or the current entries.

Two pieces of the source are given a meaning of their own and proved against it:

* **The line pattern.** The lazy `(.+?)` group is specified as the least
  split point at which the rest of the line matches the tail
  (`Helpers.MatchesAt`). A deterministic parser is proved sound and complete
  for that meaning.
* **The ledger invariant.** `Ledger.WellFormed` says three things:
  * every cell of `daily` is the sum of the amounts of the `monthly` records
    of that date and category;
  * no cell is zero and no date is empty;
  * no message id appears twice in the log.

  Every operation of index.js is proved to keep it, for every category name
  other than the two `Object.prototype` keys named under "Left out".

## Model

| member | source | states |
|---|---|---|
| `Common.Count` | src/spending.js:85-86 | the number of entries a `deleteMany` reports is at most their number, and zero exactly when the id is absent |
| `Common.DistinctCardinality` | src/spending.js:94 | a sequence without repeats has as many distinct members as elements |
| `Text.ToLower` | src/helpers.js:32 | `toLowerCase` keeps the length and maps each character to its lower case (ASCII letters) |
| `Text.ToUpper` | src/helpers.js:34 | `toUpperCase` keeps the length and maps each character to its upper case (ASCII letters) |
| `Text.Trim` | src/helpers.js:48 | `trim` returns the input without its leading and trailing whitespace: the result neither starts nor ends with whitespace, and is empty exactly when the input is all whitespace |
| `Text.Split` | src/helpers.js:48 | `split('\n')` yields at least one part, no part contains the separator, and joining the parts with it gives back the text |
| `Helpers.ParseTail` | src/helpers.js:29 | the tail `\s+([\d,]+(?:\.\d+)?)\s*([A-Za-z]{3})?$` after a split point is read by a deterministic parser, and the reading it returns is a tail of the pattern |
| `Helpers.ParseTailComplete` | src/helpers.js:29 | when the rest of the line is a tail of the pattern, the parser finds it, and there is only one such reading |
| `Helpers.LazyMatch` | src/helpers.js:29 | a reported match satisfies the pattern at its split point |
| `Helpers.LazyMatchIsLeast` | src/helpers.js:29 | the lazy `(.+?)` gives the least split point at which the line matches, and there is no match exactly when no split point matches |
| `Helpers.LazyMatchIs` | src/helpers.js:29 | the match reported is the least matching split with its one tail reading |
| `Helpers.NumeralValuePositive` | src/helpers.js:33-36 | a digits-and-commas numeral is positive exactly when one of its digits is not `0`, which is when the `amount <= 0` guard lets it through |
| `Helpers.AmountOfParts` | src/helpers.js:33-36 | the amount `Number(match[2].replace(/,/g, ''))` has the integral digits' value as its whole part, and is positive exactly when one of its digits, integral or fractional, is not `0` |
| `Helpers.CurrencyOf` | src/helpers.js:34 | the currency is the upper-cased three-letter group when present, `AMD` otherwise |
| `Helpers.CategoryOf` | src/helpers.js:32 | the category is the trimmed first group, with no upper-case letter left |
| `Helpers.ParseSpending` | src/helpers.js:28-39 | a parsed spending has a positive amount, a category without upper-case letters and a three-letter upper-case currency |
| `Helpers.ParseSpendingOfMatch` | src/helpers.js:28-39 | at the least matching split, the line gives the trimmed lower-cased category, the amount and the currency, or nothing when the amount is not positive |
| `Helpers.ParseSpendingOfNonMatch` | src/helpers.js:29-30 | a line the pattern does not match gives no spending |
| `Helpers.NonBlankLines` | src/helpers.js:48 | every line kept is non-empty and already trimmed |
| `Helpers.CollectCollects` | src/helpers.js:51-56 | collecting the per-line results keeps exactly the lines that parsed, in order, each with its position among the non-blank lines as `lineIndex` |
| `Helpers.ParseSpendings` | src/helpers.js:47-59 | every result is a parsed non-blank line at its `lineIndex`, the indices strictly increase, and every line that parses is present |
| `Helpers.CivilFromDays` | src/helpers.js:8-11 | the calendar date of a day number has a month from 1 to 12 and a day from 1 to 31 |
| `Helpers.CivilRoundTrip` | src/helpers.js:8-11 | counting the days back from the computed date gives the day number again, for every day number including those before the epoch |
| `Helpers.NatToString` | src/helpers.js:10-11 | `String(n)` is a non-empty string of digits without a leading zero |
| `Helpers.NatToStringValue` | src/helpers.js:10-11 | reading back `String(n)` gives `n` |
| `Helpers.Pad2` | src/helpers.js:10-11 | `padStart(2, '0')` keeps a string of two or more characters, and otherwise fills it to two with leading zeros |
| `Helpers.Pad2Value` | src/helpers.js:10-11 | a month or day below 100 prints as two digits that read back as the number |
| `Helpers.Slice7` | src/helpers.js:25 | `slice(0, 7)` is the first seven characters, or the whole string when shorter |
| `Helpers.DateStringFormat` | src/helpers.js:7-13 | for a four-digit year the date string is `YYYY-MM-DD`: ten characters, dashes at positions 4 and 7, and numerals that read back as the year, month and day |
| `Helpers.MonthOfDateString` | src/helpers.js:24-26 | the first seven characters of a date string are its `YYYY-MM`: digits around a dash, reading back as its year and month |
| `Helpers.DateFromTimestampDay` | src/helpers.js:7-13 | the date of a timestamp is the local day holding the shifted instant (its day number times 86400 is at most the instant, which is less than the next day's start), and for a four-digit year it is that date's `YYYY-MM-DD` text |
| `Helpers.TodayDay` | src/helpers.js:19-22 | today is the local day whose start, in milliseconds, is at most `Date.now()` and less than a day earlier, printed as `YYYY-MM-DD` for a four-digit year |
| `Helpers.CurrentMonthOfToday` | src/helpers.js:24-26 | the current month is today's `YYYY-MM`: seven characters, digits around a dash, reading back as today's year and month |
| `Currency.TruthyRate` | src/currency.js:44-46 | a response gives a rate exactly when it succeeded with a present, non-zero value |
| `Currency.ExchangeRate` | src/currency.js:23-78 | the home currency (any case) has rate 1 and touches nothing; a fresh cached rate is returned unchanged with no fetch and no cache change; otherwise the primary is asked, and the fallback exactly when the primary failed; the rate returned is the truthy rate of the answering source or `null`, and it alone is cached, stamped with the store time, under the lower-cased code; the cache keeps only lower-case, non-home, non-zero rates |
| `Currency.Round` | src/currency.js:99 | `Math.round` is within one half of its argument |
| `Currency.Converted` | src/currency.js:95-100 | a missing rate keeps the amount and reports failure; otherwise the amount times the rate, rounded to the nearest integer, and success |
| `Currency.IsSupportedCurrency` | src/currency.js:109-111 | exactly the strings of three ASCII letters |
| `Currency.ParsedCurrencySupported` | src/currency.js:109-111 | every currency the line parser produces is a supported code |
| `Currency.RateCache.GetExchangeRate` | src/currency.js:23-78 | updating the cache in place returns the rate and sources of `ExchangeRate` and leaves the cache it describes |
| `Currency.RateCache.ConvertToAmd` | src/currency.js:86-101 | the home currency converts to itself at rate 1 without rounding or fetching; any other currency is converted at the rate the lookup finds |
| `Aggregate.Bump` | src/spending.js:122 | `acc[k] = (acc[k] \|\| 0) + a` adds `a` to the total of `k` alone, adds `k` to the keys when new, keeps them distinct, and grows the sum by `a` |
| `Aggregate.Tally` | src/spending.js:121-139 | summing per key gives each key once, exactly the keys of the items, each key's total, and the same grand total |
| `Aggregate.SortDesc` | src/spending.js:162 | the sort by decreasing total returns a permutation of its input ordered by non-increasing total |
| `Aggregate.SortDescStable` | src/spending.js:162 | the sort is stable: the buckets of any one total keep their input order |
| `Aggregate.SortDescKeeps` | src/spending.js:162 | the sort returns a permutation, ordered by non-increasing total, with the same keys and sum |
| `Aggregate.SortedTally` | src/spending.js:141-164 | the sorted per-key totals list each key once, in non-increasing order, each with its sum, adding up to the items' total |
| `Aggregate.SumByKeys` | index.js:161-163 | lines that list each key once with its total add up to the sum of the items |
| `Spending.ForeignOf` | src/spending.js:39-43 | the original amount, currency and rate are kept exactly when conversion info is given for a currency other than AMD |
| `Spending.FindFirst` | src/spending.js:15-18 | `findOne` finds the first entry matching the message id, and the line index when one is given, or reports that none matches |
| `Spending.Filter` | src/spending.js:85 | `deleteMany` keeps exactly the entries its query does not match, and removes all when every entry matches |
| `Spending.FilterAppend` | src/spending.js:85 | the kept entries stay in their order: filtering a concatenation concatenates the filtered parts |
| `Spending.FilterMultiplicity` | src/spending.js:85 | each kept entry occurs as often as before, each removed one not at all |
| `Spending.FilterDropsCount` | src/spending.js:85-86 | the number of entries removed for a message is the number of entries carrying its id |
| `Spending.FilterUnique` | src/spending.js:85 | removing entries keeps every (message id, line index) pair unique |
| `Spending.Dedup` | src/spending.js:94 | `[...new Set(ids)]` has no repeats and the same members |
| `Spending.ResetDayRequests` | src/spending.js:93-105 | the ids to delete are today's message ids, each once, and their count is the number of distinct messages |
| `Spending.EntryDate` | src/spending.js:12 | a new entry's date is the non-empty custom date, else the date of a non-zero message timestamp, else today |
| `Spending.Store.Add` | src/spending.js:10-47 | a duplicate (message id, line index) leaves the store unchanged; otherwise the entry is appended with the custom date, the message date or today, and its foreign-currency fields; pairs stay unique |
| `Spending.Store.UpdateSpending` | src/spending.js:49-72 | the first entry of the message gets the new category, amount and currency fields, which are cleared for AMD; false and no change when the message is untracked |
| `Spending.Store.RemoveSpending` | src/spending.js:74-78 | the first entry of the message is removed, and the result says whether one was |
| `Spending.Store.RemoveAllByMessageId` | src/spending.js:83-87 | every entry of the message is removed, and the count is how many were: the number of entries carrying its id |
| `Spending.Store.ResetDay` | src/spending.js:89-106 | the deletions are requested for today's distinct message ids in first-seen order, every entry of today is removed, and the count is the number of distinct messages |
| `Spending.Amounts` | src/spending.js:122 | one (category, amount) item per entry |
| `Spending.OriginalsKeys` | src/spending.js:133-138 | the original-currency items are exactly the currencies of the entries with a foreign original |
| `Spending.CategoryRows` | src/spending.js:141-162 | the rows are the per-category totals sorted by decreasing amount, each with its category's per-currency originals |
| `Spending.CategoryRowsSpec` | src/spending.js:141-164 | each category once, in non-increasing order, each with the sum of its amounts, adding up to the day's total |
| `Spending.CategoryOriginals` | src/spending.js:143-157 | a category's originals list each foreign currency of that category once, with the sum of its original amounts |
| `Spending.GetDailyData` | src/spending.js:108-174 | `null` exactly when no entry has the report date (the target date, or today when none is given); otherwise the sorted rows, their total and the day's originals |
| `Spending.DailyRows` | src/spending.js:141-164 | the day's rows list each category once, in non-increasing order, each with the sum of its amounts, and the total is the sum of the day's amounts |
| `Spending.DailyOriginals` | src/spending.js:133-138 | the day's originals list each foreign currency once with the sum of its original amounts |
| `Spending.Capitalize` | src/spending.js:231-233 | the first character is upper-cased and the rest is kept |
| `Spending.PadRight` | src/spending.js:227-229 | `padEnd`: the string, then spaces up to the requested length, never shorter than the string |
| `Spending.CsvOf` | src/spending.js:210-224 | the fixed header, one row per category in report order with its capitalized name, amount and originals, and a last `TOTAL` row with the day's total and original totals |
| `Spending.DailyCsv` | src/spending.js:203-208 | `null` exactly when there is no daily data; otherwise the CSV of the day's report |
| `Spending.MonthlySummary` | src/spending.js:235-241 | the empty-month message exactly when no entry's date starts with the month |
| `Spending.MonthlyRows` | src/spending.js:243-272 | the month's rows list each category once, in non-increasing order, each with the sum of its amounts, and the total is the sum of the month's amounts and of the rows |
| `Spending.MonthlyOriginals` | src/spending.js:273-285 | the month's total in original currencies lists each foreign currency of the month once, with the sum of its original amounts |
| `Spending.HasSpendingsOn` | src/spending.js:292-297 | true exactly when some entry has today's date |
| `Ledger.CellSumConcat` | index.js:56 | the total of a cell over a concatenated log is the sum of the totals over the parts |
| `Ledger.CellSumPositive` | index.js:157 | with positive amounts, a cell's total is positive exactly when some record falls in it |
| `Ledger.CellSumAtLeast` | index.js:75-84 | a record's cell holds at least that record's amount, so reverting it never goes below zero |
| `Ledger.DailyDetermined` | index.js:24-31 | under the invariant, the `daily` totals are determined by the `monthly` log |
| `Ledger.Deposit` | index.js:53-54 | adding to a cell, creating the date when missing, raises that cell alone by the amount and creates no empty date or cell |
| `Ledger.WithdrawCells` | index.js:75-84 | reverting at most what a cell holds lowers that cell alone by the amount, and drops the cell and the date when they empty |
| `Ledger.FindId` | index.js:64 | `find`/`findIndex` on the message id gives the first record of the message, or none exactly when the message is untracked |
| `Ledger.AddKeepsInvariant` | index.js:43-60 | `add` keeps the invariant: after the skip or the append, every cell of `daily` is still the sum of its records, no cell or date is empty, and ids stay unique |
| `Ledger.UpdateCells` | index.js:62-98 | an update moves the old amount out of its cell and the new amount into the new category's cell on the record's original date, and nothing else |
| `Ledger.UpdateKeepsInvariant` | index.js:62-98 | `updateSpending` keeps the invariant, reports whether the message was tracked, and changes nothing when it was not |
| `Ledger.RemoveCells` | index.js:100-124 | a removal takes the record's amount out of its cell and nothing else |
| `Ledger.RemoveKeepsInvariant` | index.js:100-124 | `removeSpending` keeps the invariant, reports whether the message was tracked, and leaves it untracked |
| `Ledger.OtherDays` | index.js:145 | the filter keeps exactly the records of other days |
| `Ledger.OtherDaysCells` | index.js:144-145 | dropping today's records empties today's cells and keeps every other cell |
| `Ledger.ResetKeepsInvariant` | index.js:126-150 | `resetDay` keeps the invariant |
| `Ledger.TodayIds` | index.js:131-133 | the ids to delete are exactly the message ids of today's records |
| `Ledger.TodayIdsDistinct` | index.js:131-133 | under the invariant no message is asked to be deleted twice, although the source does not deduplicate |
| `Ledger.ParseLegacyLine` | index.js:251-257 | a parsed line has a positive amount and a category without upper-case letters |
| `Ledger.ParseLegacyLineOfMatch` | index.js:251-257 | at the least matching split, the line gives its trimmed lower-cased category and its amount, or nothing when all the amount's digits are `0` |
| `Ledger.ParseLegacyLineOfNonMatch` | index.js:251-252 | a line the pattern does not match gives nothing |
| `Ledger.EditKeepsInvariant` | index.js:287-321 | a new post and an edit both keep the invariant |
| `Ledger.EditReconciles` | index.js:287-321 | after an edit the log agrees with the message: a parsable text is tracked with the parsed category and amount, an unparsable one is untracked, and the channel message is deleted exactly when a record was removed |
| `Ledger.HasTodaySpendingsIffRecord` | index.js:194-198 | under the invariant, today has totals exactly when the log has a record of today |
| `Ledger.DayItemsSums` | index.js:163 | a category's amount among today's items is its cell's total |
| `Ledger.DayItemsKeys` | index.js:161 | today's items have exactly today's categories |
| `Ledger.DailyTotal` | index.js:161-163 | one line per category of today with its cell adds up to the sum of today's records |
| `Ledger.SummaryLines` | index.js:161-163 | one line per key of the day's map, each once, with its total, and the total is the sum of the lines |
| `Ledger.InMonth` | index.js:171 | the records whose date starts with the month |
| `Ledger.Items` | index.js:178-181 | one (category, amount) item per record |
| `Ledger.ItemsTotal` | index.js:188 | the items add up to the records' total |
| `Ledger.MonthlySummary` | index.js:169-175 | the empty-month message exactly when no record's date starts with the month |
| `Ledger.MonthlyRows` | index.js:177-188 | the month's lines list each category once, in non-increasing order, each with its sum, adding up to the month's total |
| `Ledger.Ledger.constructor` | index.js:24-26 | a missing file loads as the empty document, which satisfies the invariant |
| `Ledger.Ledger.Add` | index.js:43-60 | the in-place steps of `add` reach `AfterAdd` and keep the invariant |
| `Ledger.Ledger.UpdateSpending` | index.js:62-98 | the in-place steps of `updateSpending` reach `AfterUpdate` and keep the invariant |
| `Ledger.Ledger.RemoveSpending` | index.js:100-124 | the in-place steps of `removeSpending` reach `AfterRemove` and keep the invariant |
| `Ledger.Ledger.ResetDay` | index.js:126-150 | the deletions are requested for today's records' ids in log order, each once; today's totals and records are gone; the count is the number of requests |
| `Ledger.Ledger.DailySummary` | index.js:152-167 | nothing when today has no totals; otherwise one line per category with its total, and a total that is both the sum of the lines and the sum of today's records |
| `Ledger.Ledger.HandleNewPost` | index.js:201-260 | an empty post is ignored; a parsable trimmed line is added under the post's id; the invariant is kept |
| `Ledger.Ledger.HandleEdit` | index.js:287-321 | an empty edit is ignored; an unparsable one removes the message's record and asks for the message's deletion exactly when one was removed; a parsable one updates the record, or adds it when untracked |

## Left out

- Telegram transport, MongoDB, the data.json file and the HTTP server are left out. Each operation takes the current state and returns the new state, and the messages to delete are returned as a list.
- src/handlers.js, src/database.js, src/config.js, src/data.js, src/scheduler.js and src/server.js are not part of this model.
- The time zone is a parameter: an offset from UTC for src/helpers.js, and a `today` string for the stores. The clock of src/currency.js is two readings, one for the freshness check and one for the cache timestamp.
- JavaScript numbers are modelled as exact reals in src/spending.js and src/currency.js, and as unbounded integers in index.js. Precision loss for very long digit strings is not modelled.
- Case mapping (`toLowerCase`, `toUpperCase`) covers the ASCII letters only; other characters are kept as they are.
- Text formatting is not modelled: `toLocaleString`, the emoji messages, `getDailySummary` of src/spending.js (a fixed-width rendering of `getDailyData`), the Markdown table, and the CSV quoting and text. The CSV is modelled as its header and its rows of values.
- The order of JavaScript object keys (insertion order, with integer-like keys first) is not modelled. The daily lines of index.js come out in an unspecified order.
- `Spending.MonthlySummary`: the `$regex` prefix query is modelled as a plain prefix test, so regex metacharacters in the month are not modelled.
- The concurrent `Promise.all` of deletions is a sequential list of requests. Failures of individual deletions are not modelled, because the source only logs them.
- Queries with a `null` message id are not modelled. Message ids are positive integers or absent.
- `console` logging, the channel-id filter, the `/help`, `/total`, `/monthly-total` and `/reset-day` commands and the callback queries of index.js are left out.
- `Aggregate.Bump`: keys are ordinary map keys. The source accumulates in a plain JavaScript object, where the category names `constructor` and `__proto__` (a post `Constructor 500` lower-cases to the first) hit `Object.prototype`: at src/spending.js:122 and :247 `(acc["constructor"] || 0) + amount` concatenates a string, and at src/spending.js:124-127 the `.push` onto `categoryDetails["constructor"]` throws, so `getDailyData` and `getDailyCsv` fail where the model returns rows.
- `Ledger.Deposit`: cells are ordinary map entries. In index.js:54 the category `constructor` stores a string concatenation in the cell and `__proto__` silently drops the assignment, so for those two names `daily` stops being the sum of `monthly`; the invariant proofs hold for every other category name.
- `Spending.PadRight`: lengths count Unicode characters, while `padEnd` counts UTF-16 code units, so for each character outside the Basic Multilingual Plane (such as an emoji) the model pads with one space more than the source.
- `Ledger.Ledger.Add`: requires a positive amount, because its only callers pass the positive amount the line parse produced.
- `Ledger.Ledger.UpdateSpending`: requires a positive new amount, for the same reason.

