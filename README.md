# Expense tracker core, modelled in Dafny

The expense tracker keeps every expense in one `expenses` table. Rows
arrive in two ways. The add-expense endpoint stores what the user enters,
tagged with a source such as "manual" or "sms". The Gmail sync stores the
amounts it finds in payment e-mails. The tracker then summarises a
trailing window of days into a total, per-month and per-day sums, and a
listing ordered newest first. It also turns the per-month sums into short
insights.

This project models the parts of `app.py` that compute or change data:

- the amount extractor `parse_amount` with its pattern `AMOUNT_REGEX`;
- the ledger, meaning the AUTOINCREMENT table, `store_expense` and the manual insert of `api_add_expense`;
- `summarize_expenses`, including its accumulation loop and the order of its listing;
- `build_insights`, returning insight values instead of sentences;
- the per-message normalisation and the page loop of `sync_gmail_expenses`.

Modules, one per file:

| file | module | what it holds |
|---|---|---|
| `common.dfy` | `Common` | `Option`, `Result` |
| `text.dfy` | `Text` | the Python string operations the core uses: `strip`, `split(..)[0]`, slicing, ASCII lower-casing, code-point order |
| `dates.dfy` | `Dates` | proleptic Gregorian dates, `timedelta` subtraction, `isoformat` |
| `amounts.dfy` | `Amounts` | a hand-written matcher equivalent to `AMOUNT_REGEX` under `finditer`, plus `parse_amount` |
| `examples_amounts.dfy` | `AmountExamples` | worked inputs of the extractor |
| `expenses.dfy` | `Expenses` | the table as the class `Ledger`, with the insert and the manual add |
| `ordering.dfy` | `Ordering` | `ORDER BY date DESC, id DESC` |
| `summary.dfy` | `Summaries` | `summarize_expenses` |
| `insights.dfy` | `Insights` | `build_insights` |
| `mail.dfy` | `Mail` | normalising one Gmail message |
| `sync.dfy` | `Sync` | the Gmail page loop |

Amounts are `real`. The table is a `seq` of rows in insertion order, and
its next AUTOINCREMENT value is a field. Dates that reach the code as
text stay text, and are compared as SQLite and Python compare them: by
code points. Errors that Python raises become `None` or `Err(..)`:

- `OverflowError` when a window start falls before 0001-01-01, and when the greatest month key has year 1 and a month that is a multiple of 12, so the day before `date(1, 1, 1)` is asked for;
- `ValueError` when the greatest month key is not two numerals joined by one '-', or its year lies outside 1..9999. A month such as 13 or 00 raises nothing: `m % 12 + 1` is always a valid month, so such a key is divided by 31 or by the length of the month it wraps to.

`today` and the library calls of the sync (base64/UTF-8 decoding, date
parsing, `json.dumps`) are parameters.

## Model

| member | source | states |
|---|---|---|
| `Amounts.MarkerEnd` | app.py:35-36 | the marker found at a position is one of `₹`, `INR`, `Rs` or `Rs.` as `re.IGNORECASE` compares letters (so `İ`, `ı` and `ſ` count too). Whenever any of them fits there, one is found. It is the one that fits, except that `Rs.` wins over `Rs` when both do |
| `Amounts.SpacesEndSpec` | app.py:35 | the greedy `\s*` run takes every whitespace character from its start and stops at the first other character |
| `Amounts.DigitRunEnd` | app.py:35 | the greedy `[0-9,]*` run: every character in it is a digit or comma, and the character after it is neither |
| `Amounts.FractionEnd` | app.py:35 | the optional `(?:\.[0-9]{1,2})` group takes the longest fraction that fits: what it covers is empty or a period with one or two digits, and no longer such fraction starts there |
| `Amounts.MatchAt` | app.py:34-37 | a reported match starts with a currency marker and ends inside the text; its capture is a digit, then digits and commas, then optionally a period with one or two digits |
| `Amounts.MatchAtSound` | app.py:34-37 | every match reported is a match of the pattern: marker, whitespace, a digit, digits and commas, an optional fraction. The group captures exactly the text after the whitespace |
| `Amounts.MatchAtComplete` | app.py:34-37 | wherever the pattern matches at a position, a match is reported there that is at least as long: the greedy longest match |
| `Amounts.MatchAtIff` | app.py:34-37 | a match is reported at a position exactly when the pattern matches there |
| `Amounts.CapturesFindMatch` | app.py:134 | `finditer`, resumed at a position, yields a capture only if a match starts at or after it |
| `Amounts.MatchYieldsCapture` | app.py:134 | a match at or after the position where `finditer` resumes makes it yield a capture |
| `Amounts.StripCommas` | app.py:140 | `replace(",", "")` leaves no comma |
| `Amounts.StripCommasCount` | app.py:140 | removing commas keeps every other character as often as it occurs, and shortens the text by exactly the number of commas |
| `Amounts.StripCommasKeeps` | app.py:140 | a text without commas is left as it is; with `StripCommasAppend` this fixes the result character by character |
| `Amounts.StripCommasAppend` | app.py:140 | removing commas distributes over concatenation |
| `Amounts.StripCommasOfRun` | app.py:140 | a run that starts with a digit and holds only digits and commas is a non-empty numeral once its commas are removed |
| `Amounts.DecimalValue` | app.py:140 | `float` of a numeral with an optional fraction is a non-negative number |
| `Amounts.DecimalOfNumerals` | app.py:140 | `float` of a numeral w is its value, and of `w.f` it is w + f / 10^len(f) |
| `Amounts.DecimalOfPad` | app.py:140 | a zero-padded numeral converts back to the number written |
| `Amounts.DecimalOfPads` | app.py:140 | two zero-padded numerals x and y joined by a period, y being k digits, convert back to x + y / 10^k |
| `Amounts.CaptureStripped` | app.py:140 | removing the commas of a capture leaves a non-empty numeral followed by the fraction as written |
| `Amounts.CaptureConverts` | app.py:137-142 | every capture, once its commas are removed, converts to the number it stands for: its whole part without commas plus its fraction digits over 10^k. So the `ValueError` branch is never taken |
| `Amounts.Convert` | app.py:137-142 | the conversion loop keeps at most one number per capture, and none is negative. When every capture converts, it keeps one number per capture, in order, each the `float` of that capture without commas |
| `Amounts.CapturesConvert` | app.py:134-142 | the conversion loop keeps one number for every capture `finditer` yields |
| `Amounts.Max` | app.py:143 | `max` returns one of the numbers, and none is larger |
| `Amounts.ParseAmount` | app.py:133-143 | the amount found is never negative |
| `Amounts.ParseAmountSpec` | app.py:133-143 | `parse_amount` is `None` exactly when no marker-plus-numeral match occurs anywhere in the text (a missing text counts as ""); otherwise it is the largest converted capture, which is one of them |
| `Amounts.NoMatchInside` | app.py:34-37 | no match starts strictly inside another match, so resuming the scan at a match's end skips no match |
| `Amounts.CapturesSound` | app.py:134 | every capture `finditer` yields from a position is the capture of a match starting at or after it |
| `Amounts.CapturesComplete` | app.py:134 | every match starting at or after the position where `finditer` resumes has its capture yielded |
| `Amounts.CapturesValued` | app.py:134-142 | every capture converts, and its value is the value of some match in the text |
| `Amounts.ParseAmountAttained` | app.py:133-143 | the amount returned is the value of a match that occurs in the text |
| `Amounts.ParseAmountBounds` | app.py:133-143 | whenever a match occurs anywhere in the text, an amount is returned and it is at least that match's value: the maximum over every match |
| `Amounts.ParseAmountPattern` | app.py:133-136 | `parse_amount` is `None` exactly when the pattern matches nowhere in the text |
| `Amounts.NoMarkerNoAmount` | app.py:34-37 | without a currency marker there is no amount |
| `Amounts.PlainNumberNoAmount` | app.py:133-136 | digits, commas, periods and spaces alone give `None` |
| `AmountExamples.FractionKeepsTwoDigits` | app.py:34-37 | "Rs 1234.567" gives 1234.56: the fraction keeps two digits and the third is ignored |
| `AmountExamples.MarkerInsideWord` | app.py:34-37 | "hours 5" gives 5.0: the `rs` inside a word counts as a marker |
| `AmountExamples.LargestAmountWins` | app.py:137-143 | "INR 100, INR 2,500" gives 2500.0: the separators are dropped and the larger amount wins, though it comes second |
| `Expenses.Numbered` | app.py:65 | storing n entries from identifier `first` yields n rows |
| `Expenses.NumberedAt` | app.py:65 | entry k of a batch is stored under identifier `first + k` |
| `Expenses.NumberedAppend` | app.py:65 | storing two batches in turn numbers the second from where the first stopped |
| `Expenses.Ledger.constructor` | app.py:64-72 | an empty table whose first identifier will be 1 |
| `Expenses.Ledger.Store` | app.py:114-130 | `store_expense` appends exactly one row under the next identifier, larger than every earlier one, and keeps identifiers positive and strictly increasing |
| `Expenses.ManualEntry` | app.py:789-801 | the endpoint rejects exactly the non-positive amounts. The source defaults to "manual", a given source is kept, and an explicit null source is rejected by the NOT NULL column. A missing or empty date becomes today's ISO date. A missing merchant or description becomes "", a null one stays NULL, and a given one is kept. The raw column repeats the description |
| `Expenses.Ledger.AddManual` | app.py:789-801 | a rejected request leaves the table unchanged; an accepted one appends exactly that entry under the next identifier |
| `Ordering.Insert` | app.py:183 | inserting a row into a list in `date DESC, id DESC` order keeps that order and adds exactly that row |
| `Ordering.SortNewestFirst` | app.py:183 | the listing order is a permutation of the rows, in `date DESC, id DESC` order |
| `Ordering.NewestFirstUnique` | app.py:183 | with distinct identifiers only one arrangement of the rows is in that order, so the model's sort is the query's order |
| `Dates.PrevDay` | app.py:219 | the day before a date is the latest date strictly before it; it is `None` exactly at 0001-01-01 |
| `Dates.MinusDays` | app.py:153 | `date - timedelta(days=n)` is on or before the date, and is the date itself for n = 0 |
| `Dates.MinusDaysStep` | app.py:153 | going back n + 1 days is going back n days and then one more |
| `Dates.Iso` | app.py:153 | `isoformat()` is `YYYY-MM-DD` |
| `Dates.IsoOrder` | app.py:154 | ISO texts compare as strings exactly as the dates compare |
| `Text.LeadingSpacesSpec` | app.py:352 | the leading whitespace run is whitespace and stops at the first other character |
| `Text.TrailingSpacesSpec` | app.py:352 | the trailing whitespace run is whitespace and stops at the last other character |
| `Text.BlankLeadingSpaces` | app.py:352 | a text is all whitespace exactly when its leading whitespace run covers it |
| `Text.StripNonBlank` | app.py:352 | on a text that is not all whitespace, `strip()` keeps exactly what lies between the two whitespace runs, and that starts and ends with a non-blank |
| `Text.Strip` | app.py:352 | `strip()` is a slice of the text that begins after its leading whitespace |
| `Text.StripSpec` | app.py:352 | what `strip()` keeps neither starts nor ends with whitespace |
| `Text.StripDrops` | app.py:352 | everything `strip()` drops after the kept text is whitespace |
| `Text.BeforeFirst` | app.py:352 | `split(sep)[0]` is the prefix up to the first `sep` and holds no `sep` |
| `Text.Truncate` | app.py:354 | `s[:n]` is a prefix of at most n characters, and the whole text when it is short enough |
| `Summaries.WindowBoundary` | app.py:152-155 | the window starts at `today - (days - 1)` and is inclusive: it admits its first day and today, and not the day before its first day |
| `Summaries.WindowAdmits` | app.py:152-155 | for ISO-dated rows the string test `date >= start` is the date comparison |
| `Summaries.Selected` | app.py:149-161 | the rows selected are exactly the stored rows inside the window and of the requested source ("all" keeps every source) |
| `Summaries.SelectedIdsIncreasing` | app.py:149-161 | selection keeps table order, so identifiers still increase |
| `Summaries.BucketsTotal` | app.py:163-172 | the month buckets, like the day buckets, together hold exactly the total |
| `Summaries.BucketsContents` | app.py:163-172 | a bucket exists exactly for the keys of the selected rows, and holds the total of the rows with its key |
| `Summaries.TotalAppend` | app.py:167-169 | the running total of two batches of rows is the sum of their totals |
| `Summaries.TotalSort` | app.py:175-185 | sorting for the listing neither adds nor drops an amount |
| `Summaries.ListedTotalOfListing` | app.py:187-197 | the listing's amounts sum to the total of the rows listed |
| `Summaries.Listing` | app.py:187-197 | one entry per row, in order, with a NULL merchant or description shown as "" |
| `Summaries.ListingInOrder` | app.py:175-185 | the listing is newest first: dates never increase, and identifiers strictly decrease within one date |
| `Summaries.Accumulate` | app.py:163-172 | the loop computes the total, the `date[:7]` month buckets and the per-date buckets of the selected rows |
| `Summaries.Summarize` | app.py:146-204 | `summarize_expenses` returns the total, the month and day buckets and the listing of the selected rows. The total equals the sum of each bucket map and of the listing, and the listing is newest first. The result is `None` exactly when the window overflows |
| `Insights.Greatest` | app.py:211-212 | `sorted(keys)[-1]` is a key, and no key sorts after it |
| `Insights.ParseMonthKey` | app.py:214 | `map(int, key.split("-"))` into two names succeeds exactly when the key is two numerals joined by one '-', and yields their values |
| `Insights.ParseMonthText` | app.py:214 | the `YYYY-MM` key of a calendar date reads back as its year and month |
| `Insights.MonthTextOfIso` | app.py:170 | `date[:7]` of a calendar date's ISO text is its `YYYY-MM` key |
| `Insights.MonthKeyOfIsoDate` | app.py:170 | the month key `summarize_expenses` files a row with a calendar date under is that date's `YYYY-MM` text, and `build_insights` reads it back as the date's year and month |
| `Insights.DaysSoFar` | app.py:215-220 | the divisor is today's day in the current month, and otherwise the length of the key's month. For a month outside 1..12 that is the length of month `m % 12`, or 31 when `m % 12` is 0, as the next-month arithmetic gives. It lies between 1 and 31, and is `None` exactly when Python raises |
| `Insights.Comparison` | app.py:225-234 | the second insight exists exactly when the runner-up key has a positive spend. The direction is "higher" exactly when the latest month spent more, and the percentage is the change relative to the runner-up |
| `Insights.Headline` | app.py:210-224 | the first insight is about the greatest month key |
| `Insights.BuildInsights` | app.py:207-235 | no insights exactly for an empty map; otherwise one or two |
| `Insights.InsightsFail` | app.py:207-235 | the generator raises exactly when the greatest key does not read as a year and month, or that month has no last day in range |
| `Insights.InsightsShape` | app.py:207-235 | the result is the headline followed by the comparison when there is one |
| `Insights.FirstInsight` | app.py:211-224 | the first insight carries the greatest key's total and that total divided by a positive day count |
| `Insights.SecondInsight` | app.py:225-234 | a second insight appears exactly when a runner-up with positive spend exists, and it compares the latest month with that runner-up |
| `Insights.IsoMonthsSucceed` | app.py:214-220 | for the month key of any calendar date except December of year 1, the generator does not raise |
| `Insights.IsoMonthAverage` | app.py:215-221 | for such a key the average is over today's day in the current month, and over the month's length otherwise |
| `Mail.HeaderValue` | app.py:313-322 | the value of the first header whose lower-cased name matches, or "" when none does |
| `Mail.FirstPlainText` | app.py:331-340 | the data of the first `text/plain` part with non-empty data, `None` exactly when there is none |
| `Mail.BodyData` | app.py:331-346 | the body comes from the parts when the payload has them, and otherwise from the payload's own non-empty data |
| `Mail.Merchant` | app.py:352 | the merchant is the whole From header, or a non-blank name free of '<' with no surrounding whitespace; it is empty only for an empty header |
| `Mail.MerchantOfName` | app.py:352 | when the part b of the From header before the first '<' is not all whitespace, the merchant is b with both whitespace runs cut off |
| `Mail.MerchantOfBlank` | app.py:352 | when that part is all whitespace (or empty), the merchant is the whole header |
| `Mail.MerchantWithinFrom` | app.py:352 | a merchant other than the whole header is the display name as it appears in the header |
| `Mail.MerchantOfNamedAddress` | app.py:352 | "Name <address>" yields the name |
| `Mail.MerchantOfBareAddress` | app.py:352 | a header with no display name is kept whole |
| `Mail.CandidateFields` | app.py:310-356 | a message is stored exactly when its subject and body hold an amount. It is then a "gmail" expense of that amount, described by its subject, with the merchant from its From header and a 10-character ISO date. Its raw column is the first 1000 characters of the JSON of its subject and From header |
| `Mail.CandidateDate` | app.py:325-329 | a parsed Date header gives the message's own date; otherwise the date is today's |
| `Mail.Harvest` | app.py:303-357 | a page yields at most one entry per message |
| `Mail.HarvestAccounts` | app.py:348-357 | every message is either stored or skipped |
| `Mail.HarvestFromMessages` | app.py:303-357 | every stored entry is what some message of the page yields |
| `Mail.GmailEntries` | app.py:348-356 | everything the sync stores is marked "gmail", has a non-negative amount and a description, and keeps a bounded raw snapshot |
| `Sync.FirstStop` | app.py:299-361 | the loop ends at the first response that has no messages or whose next-page token is missing or empty |
| `Sync.BatchStep` | app.py:299-361 | reading one more response extends what is stored by what its messages yield |
| `Sync.EmptyResponse` | app.py:299-301 | a response without messages adds nothing |
| `Sync.StoreResponse` | app.py:303-357 | storing one response appends what its messages yield under the next identifiers, and counts them |
| `Sync.StorePage` | app.py:303-357 | one page stores, in order, the entries its messages yield, under consecutive new identifiers, and counts them |
| `Sync.SyncMessages` | app.py:287-363 | the rows added are exactly the entries of the pages up to the stopping one, stored under consecutive new identifiers after the existing rows. Earlier rows are unchanged, and the count returned is the number of rows added |
| `Sync.SyncGmail` | app.py:273-363 | `sync_gmail_expenses` with the normalisation built from the given library calls |

## Left out

- Floating point: amounts are exact reals, so binary rounding in `float()`, in the running sums and in the percentages is not modelled. Neither are NaN and infinities from `float()` on a request body.
- The `created_at` column and the `todos` and `settings` tables are not modelled.
- SQLite, the SQL text, connections and commits are left out. The table is a sequence, and each query is the function it computes.
- OAuth, token storage, the todo list, the HTML pages and every route other than `api_add_expense` are left out.
- HTTP request parsing is left out. A request field is missing, null or a string, and the amount arrives already converted.
- The clock is a parameter: `today` is given to each operation that reads it.
- The Gmail API is left out. The message listing arrives as a sequence of responses whose messages are already fetched, so the query string, `maxResults=50` and the `days` argument do not appear.
- Base64/UTF-8 decoding, `parsedate_to_datetime` and `json.dumps` are parameters (`Mail.MailCodec`). A decoding exception aborting the sync is not modelled.
- An exception mid-sync is not modelled, so the rows already committed before it are not captured.
- The f-string formatting of insights is left out. Insights are values carrying the month, the amounts and the direction; rounding to `,.0f` and `.1f` is not modelled.
- `Sync.SyncMessages`: requires that some response ends the listing. The source loops as long as the service keeps returning page tokens.
- `Sync.SyncGmail`: requires that some response ends the listing, as for `Sync.SyncMessages`.
- `Mail.HeaderValue`: header names are lower-cased in ASCII only. For the three names looked up ("subject", "from" and "date") this agrees with Python's `lower()`, because no non-ASCII character lowers to a letter of these names: the Kelvin sign lowers to 'k', and U+0130 lowers to 'i' followed by U+0307, neither of which occurs in them.
- `Insights.ParseMonthKey`: `int()` also accepts a sign, surrounding whitespace, underscores between digits and non-ASCII decimal digits. Keys spelled that way are treated as malformed. No key produced from an ISO date has such a form.
- `Amounts.DecimalValue`: `float()` is modelled only on digits with an optional period and fraction. It also accepts forms such as "12.", ".5" or "1e3", but no capture has such a shape. Its own contract states only that the value is non-negative; the value itself is stated by `Amounts.DecimalOfNumerals`, `Amounts.DecimalOfPads` and `Amounts.CaptureConverts`.
- `Amounts.ParseAmount`: its own contract states only that the amount is non-negative. Its value is pinned by `Amounts.ParseAmountSpec` (`None` exactly when nothing matches), `Amounts.ParseAmountAttained` (the value of some match) and `Amounts.ParseAmountBounds` (no match is worth more).
- `Expenses.ManualEntry`: JSON fields of other types (numbers, lists) and the `float()` parse of the amount are left out.
- `Insights.FirstInsight`: the average is stated as the spend divided by the day count. The `if days_so_far else 0` fallback cannot be reached, because the count is at least 1.
