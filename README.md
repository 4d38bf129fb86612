# wise-investing: stock enrichment, alerts and table logic in Dafny

This project models the rules at the centre of the wise-investing dashboard. It covers:

- the development quote cache and how watchlist stocks are enriched with quote data (`WatchlistView`);
- the scheduled price-alert endpoint (`SendNotification`);
- the stock table's market-cap tiers, "N/A" cells and numeric sorting (`Columns`);
- the company profile's ethical score (`CompanyProfile`);
- the bulk "SYMBOL [price]" form: parsing, name lookup, schema and submit loop (`AddManyStocks`).

Supporting modules hold the shared pieces:

- `Domain` holds the records: `Quote`, `Stock`, `Watchlist`, and `FetchResult`, which is what one quote fetch gives (an exception, or an optional quote).
- `JsStrings` models the JavaScript string operations the code uses: `trim` with the full JavaScript whitespace set, `split("\n")`, `split(/\s+/)` as `Fields`, `join`, and `toUpperCase` restricted to ASCII.
- `JsNumbers` models `toFixed(2)` (`Fixed2`), `Number(x.toFixed(2))` (`Round2`) and `parseFloat`, over exact reals.

Numbers are `real`. JavaScript `null` and `undefined` are both `None`. Truthiness of a number means "present and not 0".

The quote source, the name search and the add-to-watchlist action are function parameters. The model never calls them itself.

Code that updates state is modelled as imperative Dafny:

- The cache is a class over a `map`, updated in place by `GetStockQuote`.
- The alert route refreshes an `array` of stocks in place and then loops over it to send messages.
- The ethical score is built up step by step in a method.
- The validate and submit handlers are loops.

Code that only computes (enrichment of one stock, market-cap labels, comparators, the schema) is modelled as functions with lemmas.

Some behaviour of the code that the model keeps as it is:

- **No alert de-duplication.** The code keeps no "last notified" marker, so an alert fires every time the threshold test passes.
- **No per-stock failure isolation.** During enrichment, one failing quote rejects the whole page. In the alert route, one throwing quote makes the response 500.
- **Purchase price tested for truthiness.** Enrichment checks the purchase price only for being truthy, not for being positive.
- **One message per stock.** The route sends one message per triggering stock, not one combined message per user.
- **Cache TTL.** The TTL is `30 * 60` seconds, although the comment on it says 5 minutes. Expiry is not modelled.
- **Unpriced stocks in the alert pass.** The route's alert pass also evaluates a stock with no current price, reading it as a 100% loss. `HandleGet` sends what the route sends; the corrected pass `Alerts` is set beside it (see the findings below).

The alert header is kept exactly as written, with the literal characters `/n` before a real line break.

## Model

| member | source | states |
|---|---|---|
| WatchlistView.CacheKey | src/components/watchlist.tsx:34 | the key is "stock_" followed by the symbol, and the symbol can be read back from it |
| WatchlistView.CacheKeyInjective | src/components/watchlist.tsx:34 | two symbols share a cache key iff they are equal |
| WatchlistView.StoredAfterChanges | src/components/watchlist.tsx:42-59 | a lookup only ever adds an entry; it changes the cache iff not in production, a miss, and a quote with a truthy price; existing entries are untouched and an exception stores nothing |
| WatchlistView.StoredAfterKeepsResolution | src/components/watchlist.tsx:33-60 | against a quote source that answers each symbol one fixed way, after a lookup every symbol's lookup answers as it did before: caching never changes an answer within that model |
| WatchlistView.QuoteCache.constructor | src/components/watchlist.tsx:14-15 | the cache starts empty and satisfies its invariant (only "stock_" keys, only quotes with a truthy price) |
| WatchlistView.QuoteCache.GetStockQuote | src/components/watchlist.tsx:33-60 | the source is asked iff production or a miss; a hit returns the stored quote, which always has a truthy price (so `key in entries` matches `if (cachedData)`); the answer and the new cache are `Resolve`/`StoredAfter` of the old cache; the invariant is kept |
| WatchlistView.LookupTwice | src/components/watchlist.tsx:42-55 | in development, against a time-invariant source, a second lookup gives the same answer, and does not ask the source when the first quote had a truthy price |
| WatchlistView.CalculateChange | src/components/watchlist.tsx:85-88 | the result is a whole number of hundredths within 0.005 of current minus purchase |
| WatchlistView.CalculateChangePercent | src/components/watchlist.tsx:74-80 | for a non-zero purchase price, the result is a whole number of hundredths within 0.005 of (current − purchase)/purchase·100 |
| WatchlistView.ChangeAndPercentAgree | src/components/watchlist.tsx:74-88 | for a positive purchase price, the rounded change and the rounded percent never have opposite signs |
| WatchlistView.EnrichStock | src/components/watchlist.tsx:101-127 | no quote: stock unchanged. Otherwise only price, currency, market cap, change and percent are set (from the quote, null-coalesced). A truthy purchase price gives change and percent against it, each rounded to a whole number of hundredths and within 0.005 of the exact figure, with a missing price read as 0; otherwise they come from the quote's day change |
| WatchlistView.EnrichStockIdempotent | src/components/watchlist.tsx:110-127 | enriching an enriched stock again with the same quote changes nothing |
| WatchlistView.EnrichWatchlistsShape | src/components/watchlist.tsx:94-140 | the result is rejected iff some lookup throws; otherwise each watchlist keeps its own fields and the number and order of its stocks, each stock keeps id and symbol, and a stock with no quote is unchanged |
| WatchlistView.LookupKeepsAnswers | src/components/watchlist.tsx:50-55 | a lookup keeps the cache answering like the contents the page load started from |
| WatchlistView.SameAnswersSameEnrichment | src/components/watchlist.tsx:97-137 | caches that answer every lookup alike give the same page data, so the order of the concurrent lookups does not matter |
| WatchlistView.ProcessWatchlist | src/components/watchlist.tsx:100-135 | one watchlist's stocks are looked up in order; the result is the enriched watchlist for the starting cache, or none when a lookup throws |
| WatchlistView.ProcessWatchlists | src/components/watchlist.tsx:94-140 | the page data equals `EnrichWatchlists` against the cache the load began with, and the cache afterwards answers every lookup as before |
| WatchlistView.ProcessTwice | src/components/watchlist.tsx:94-140 | loading the page twice against the same time-invariant source gives the same data |
| JsNumbers.Round2 | src/components/watchlist.tsx:79 | `Number(x.toFixed(2))` is a whole number of hundredths within 0.005 of x |
| JsNumbers.Round2Sign | src/components/watchlist.tsx:87 | rounding to two decimals never flips the sign of a value |
| JsNumbers.Round2Monotone | src/components/watchlist.tsx:87 | rounding to two decimals keeps the order of values |
| JsNumbers.Round2Idempotent | src/components/watchlist.tsx:79 | rounding a rounded value changes nothing |
| JsNumbers.ParseFixed2 | src/app/api/sendNotification/route.ts:75-77 | `parseFloat(x.toFixed(2))` is x rounded to two decimals, so each two-decimal text reads back to its rounded value |
| JsStrings.SplitJoin | src/components/dashboard/addManyStocks.tsx:95 | splitting parts joined with a separator they do not contain gives back the parts |
| JsStrings.JoinSplit | src/components/dashboard/addManyStocks.tsx:95 | joining the pieces of a split with the separator gives back the text |
| JsStrings.Trim | src/components/dashboard/addManyStocks.tsx:96 | the result is a slice of the input with only whitespace outside it, and it has no whitespace at either end |
| JsStrings.SplitAppend | src/components/dashboard/addManyStocks.tsx:95 | splitting `a` + separator + `b` gives the parts of `a` followed by the parts of `b` |
| JsStrings.Fields | src/components/dashboard/addManyStocks.tsx:103 | `split(/\s+/)`: the tokens hold no whitespace, and the first is the line's longest whitespace-free prefix |
| JsStrings.FieldsWeave | src/components/dashboard/addManyStocks.tsx:103 | the tokens with the non-empty whitespace runs between them put back together give the text: only the separating whitespace is lost |
| JsStrings.FieldsOfTrimmed | src/components/dashboard/addManyStocks.tsx:103 | splitting a trimmed non-empty line at whitespace gives non-empty tokens, more than one iff the line contains whitespace |
| JsStrings.UpperIdempotent | src/components/dashboard/addManyStocks.tsx:104 | an upper-cased text has no lower-case ASCII letter, and upper-casing it again changes nothing |
| SendNotification.AuthorizedExactly | src/app/api/sendNotification/route.ts:18 | the request is let in iff its header equals "Bearer " followed by the key ("undefined" when unset); the emptiness test adds nothing |
| SendNotification.ApplyQuote | src/app/api/sendNotification/route.ts:40-58 | a quote that is absent or has a falsy price leaves the stock unchanged; otherwise price, day change and the six moving-average fields are copied verbatim and nothing else changes |
| SendNotification.RefreshQuotes | src/app/api/sendNotification/route.ts:34-62 | every array element becomes `ApplyQuote` of its old value and its own quote; `failed` holds iff some fetch threw |
| SendNotification.CrossesInPrices | src/app/api/sendNotification/route.ts:68-72 | for a positive purchase price p, the alert test holds iff current ≥ 1.03·p or current ≤ 0.97·p (both bounds inclusive) |
| SendNotification.SplitAlertText | src/app/api/sendNotification/route.ts:73-77 | an alert whose fields have no line break has exactly the five template lines |
| SendNotification.ReadAlertText | src/app/api/sendNotification/route.ts:73-77 | the symbol and the three number texts read back from any alert text |
| SendNotification.ReadAlertMessage | src/app/api/sendNotification/route.ts:73-77 | an alert reads back as its symbol and, to two decimals, the purchase price, current price and percent change |
| SendNotification.AlertsAppend | src/app/api/sendNotification/route.ts:64-82 | in the corrected pass, the alerts for a concatenation of stock lists are the alerts of each part, in order |
| SendNotification.AlertsOne | src/app/api/sendNotification/route.ts:64-82 | in the corrected pass, one stock gives at most one alert, and one iff it has a current price and moved at least 3% |
| SendNotification.AlertsSound | src/app/api/sendNotification/route.ts:64-82 | every message of the corrected pass is the alert of some stock that has a current price and moved at least 3% |
| SendNotification.AlertsComplete | src/app/api/sendNotification/route.ts:64-82 | every stock that has a current price and moved at least 3% gets its alert in the corrected pass |
| SendNotification.AlertsExactly | src/app/api/sendNotification/route.ts:64-82 | the corrected pass sends a message iff it is the alert, addressed to the user's chat, of a stock with a current price whose move is at least 3% |
| SendNotification.SendAlerts | src/app/api/sendNotification/route.ts:64-82 | the loop sends exactly the pass as written (`AlertsAsWritten`) over the refreshed portfolio, in order; when every stock has a current price that is the corrected `Alerts` |
| SendNotification.HandleGet | src/app/api/sendNotification/route.ts:14-88 | bad token: 401, nothing sent, portfolio untouched. No user: the handler throws. No portfolio: 500. Otherwise every stock is refreshed; 500 with nothing sent iff a fetch threw, else 200 with exactly the as-written pass sent, which is `Alerts` when every stock has a current price |
| SendNotification.AlertsAsWrittenAppend | src/app/api/sendNotification/route.ts:64-82 | as written, the messages for a concatenation are those of each part, in order |
| SendNotification.AlertsAsWrittenOne | src/app/api/sendNotification/route.ts:64-77 | as written, one stock gives at most one message, and one iff its change, with a missing current price read as 0, is at least 3% either way |
| SendNotification.AsWrittenAgreesWhenPriced | src/app/api/sendNotification/route.ts:64-82 | when every stock has a current price, the alert pass as written and the corrected one send the same messages |
| SendNotification.UnpricedStockAlertsAsWritten | src/app/api/sendNotification/route.ts:64-77 | as written, a stock with no current price whose quote gave none is reported as −100% with an "undefined" current price; the corrected pass sends nothing |
| SendNotification.UnpricedStockExample | src/app/api/sendNotification/route.ts:64-77 | a stock bought at 100 whose quote is empty gets an alert reading −100.00% as written, and none in the corrected pass |
| Columns.TierExactlyOne | src/components/columns.tsx:32-42 | every value lies in exactly one tier's range (≥1e12, [1e9,1e12), [1e6,1e9), below 1e6), the one `formatMarketCap` picks |
| Columns.TierMonotone | src/components/columns.tsx:32-42 | a larger market cap never gets a smaller tier |
| Columns.MantissaRange | src/components/columns.tsx:33-38 | a scaled mantissa is at least 1, and below 1000 except in trillions |
| Columns.FormatMarketCap | src/components/columns.tsx:32-42 | values below 1e6 are shown unscaled and unchanged; all others are scaled |
| Columns.FormatMarketCapReadsBack | src/components/columns.tsx:33-38 | a scaled label carries its tier's suffix (T, B or M), and its mantissa reads back as the value over the tier's scale, rounded to two decimals |
| Columns.FormatMarketCapError | src/components/columns.tsx:33-38 | the value a scaled label shows is within 0.005 of a tier unit of the true value |
| Columns.MarketCapCell | src/components/columns.tsx:161-165 | "N/A" iff the market cap is null or 0, otherwise the formatted value |
| Columns.PurchasePriceCell | src/components/columns.tsx:186-192 | "N/A" iff the price is null or 0 (null parses as NaN) or the currency is null or empty; otherwise the price in that currency |
| Columns.SortingFn | src/components/columns.tsx:167-172 | the comparator used by all five numeric columns (also lines 201-205, 229-233, 256-260, 283-287) is negative iff the first row's value is smaller and zero iff the values are equal, with null read as 0 |
| Columns.SortingFnLaws | src/components/columns.tsx:167-172 | the comparator is antisymmetric, zero on equal rows, ties null with 0, and "not after" is transitive |
| CompanyProfile.Clamp | src/components/companyProfile.tsx:73 | the result lies in [0, 100], equals the input inside that range, and is 0 below it and 100 above it |
| CompanyProfile.CalculateEthicalScore | src/components/companyProfile.tsx:43-74 | the step-by-step score lies in [0, 100] and equals the clamped weighted sum of the ESG fields; associations play no part |
| CompanyProfile.WeightedScoreCoalesces | src/components/companyProfile.tsx:47-62 | the weighted sum is 0.4·E + 0.3·S + 0.2·G − 0.1·C, with missing fields read as 0 |
| CompanyProfile.EmptyEsgScoresZero | src/components/companyProfile.tsx:44-62 | missing ESG data, or data whose fields are all missing or 0, scores 0 |
| CompanyProfile.EthicalScoreMonotone | src/components/companyProfile.tsx:47-62 | higher E/S/G scores or lower controversies never lower the score |
| CompanyProfile.InRangeScoresNeedNoClamp | src/components/companyProfile.tsx:47-73 | with no controversies and scores in [0, 100], the weighted sum is at most 90 and comes out unclamped |
| AddManyStocks.Compact | src/components/dashboard/addManyStocks.tsx:97 | no empty string is kept, the kept strings are exactly the non-empty input strings, and there are no more of them than inputs |
| AddManyStocks.CompactAppend | src/components/dashboard/addManyStocks.tsx:97 | filtering a concatenation filters each part, in order |
| AddManyStocks.CompactOne | src/components/dashboard/addManyStocks.tsx:97 | a single string is kept once iff it is non-empty (with `CompactAppend`: each non-empty string once, in input order) |
| AddManyStocks.TrimAll | src/components/dashboard/addManyStocks.tsx:96 | each line is trimmed, with count and order kept |
| AddManyStocks.Lines | src/components/dashboard/addManyStocks.tsx:94-97 | every line kept is non-empty and trimmed |
| AddManyStocks.LinesAppend | src/components/dashboard/addManyStocks.tsx:94-97 | the lines of two texts joined by a line break are the lines of the first followed by those of the second |
| AddManyStocks.LinesOne | src/components/dashboard/addManyStocks.tsx:94-97 | a text without line breaks gives its trimmed self as one line, or no line when that is empty (with `LinesAppend`: one line per non-blank input line, in order) |
| AddManyStocks.LinesMembers | src/components/dashboard/addManyStocks.tsx:94-97 | a line is kept iff it is the non-empty trimmed form of some line of the pasted text |
| AddManyStocks.NameFrom | src/components/dashboard/addManyStocks.tsx:108-118 | a failed search gives the empty name; a reply with hits gives the first hit's name, or "" when it has none; a non-empty name is the first hit's name |
| AddManyStocks.ValidateLineShape | src/components/dashboard/addManyStocks.tsx:103-120 | a line's symbol is its first token (its longest whitespace-free prefix) upper-cased, which is non-empty; a price iff it has a second token, parsed from that token; a failed lookup gives the empty name |
| AddManyStocks.ValidateLines | src/components/dashboard/addManyStocks.tsx:99-121 | the loop gives one result per line, in order, each the parsed line with the name its symbol's search gave |
| AddManyStocks.Validate | src/components/dashboard/addManyStocks.tsx:90-121 | one result per kept line, in order, each the parsed line with the name its symbol's search gave |
| AddManyStocks.RowIssuesExactly | src/components/dashboard/addManyStocks.tsx:50-56 | a row draws no complaint iff its symbol is non-empty and any price is a positive number ("Symbol is required", "Purchase Price must be a number", "Must be positive"); its complaints name it |
| AddManyStocks.IssuesExactly | src/components/dashboard/addManyStocks.tsx:48-59 | the schema has no complaint iff every row has a non-empty symbol and any price is a positive number |
| AddManyStocks.IssuesNameInvalidRows | src/components/dashboard/addManyStocks.tsx:48-59 | every complaint names a row in range, and that row is invalid |
| AddManyStocks.FormRows | src/components/dashboard/addManyStocks.tsx:124-130 | the form is reset to one row per result, with symbol, name and price copied |
| AddManyStocks.ParsedRowsValid | src/components/dashboard/addManyStocks.tsx:48-59 | parsed rows always have a symbol, so the schema accepts them iff every given price is a positive number |
| AddManyStocks.RequestFor | src/components/dashboard/addManyStocks.tsx:138-143 | the request carries the upper-cased symbol, the name or "", the watchlist name and the price unchanged |
| AddManyStocks.Requests | src/components/dashboard/addManyStocks.tsx:137-143 | one request per row, in order |
| AddManyStocks.Submit | src/components/dashboard/addManyStocks.tsx:134-164 | rows the schema refuses send nothing. Otherwise the requests sent are a prefix of all requests, every one before the last succeeded, and "all added" holds iff every row was sent and succeeded (as it does when every add succeeds). A refusal ends with that response's message; an exception ends with the generic error |

## Left out

- I/O: Yahoo Finance, the symbol-search HTTP call, Prisma, authentication, the Telegram bot, console logging and toasts. The quote source, the name search and the add action are parameters; sends are returned as a list of messages.
- Rendering, dialogs, the table UI and the other columns' JSX are not modelled.
- Cache expiry (`node-cache` TTL) is not modelled. An entry, once stored, stays.
- WatchlistView.StoredAfterKeepsResolution: the quote source is a fixed function, so it answers each symbol the same way at every lookup. In the program, prices move while a cached quote is served for up to 30 minutes, so a cached answer can differ from what the source would say now. The same holds for `LookupTwice`, `LookupKeepsAnswers`, `SameAnswersSameEnrichment` and `ProcessTwice`.
- AddManyStocks.Validate, AddManyStocks.Submit: the name search and the add action are fixed functions too, so two identical lines of one paste get the same search answer and two identical requests get the same add answer. The program's network calls promise no such thing; no property stated here depends on it.
- Concurrency: `Promise.all` is modelled as a sequential loop. `SameAnswersSameEnrichment` shows the enrichment result does not depend on the order of lookups. The route's un-awaited send loop is modelled as sending in order before the response.
- WatchlistView.ProcessWatchlists: a lookup that throws makes the result `None` at once. The lookups still in flight under `Promise.all` are not modelled.
- SendNotification.HandleGet: the route divides by the purchase price without a guard. The model requires a set, non-zero purchase price on every portfolio stock instead of modelling `Infinity`/`NaN` percentages.
- SendNotification.HandleGet: after a throwing fetch, the other fetches that are still pending may update their stocks after the 500 response. The model applies every quote before answering.
- Floating point is exact `real` arithmetic. `toFixed(2)` rounds halves away from zero. `parseFloat` reads an optional sign, digits and an optional fraction. Exponent forms, `Infinity` and binary rounding are not modelled.
- Columns.FormatMarketCap: the unscaled branch returns the value itself rather than JavaScript's `Number.prototype.toString` text.
- Columns.PurchasePriceCell: the `Intl.NumberFormat` currency text is not modelled; the cell carries the amount and the currency code.
- `toUpperCase` is modelled for ASCII letters only.
- AddManyStocks.IssuesExactly: zod's type errors for non-string symbols are not modelled. Symbol length counts characters, not UTF-16 code units.
- The server action behind `addStockToWatchlist` is not part of this model; only its `success`/`message` answer or its exception is.

## Findings

| source | as written | input that shows it | evidently intended | confidence | as-written member | corrected member |
|---|---|---|---|---|---|---|
| src/app/api/sendNotification/route.ts:64-77 | the alert pass evaluates every portfolio stock, including one the quote pass skipped whose current price is still null; `null - p` is read as `-p`, giving −100%, so the test passes | a portfolio stock bought at 100, with no stored current price, whose quote comes back empty: an alert reading "Current Price: $undefined" and "Change: -100.00%" is sent | a stock without a current price is not evaluated | not executed | SendNotification.UnpricedStockExample | SendNotification.AlertsSound, SendNotification.AlertsComplete |
