# TMC write-off ledger — a Dafny model

This project models a small inventory system for goods and materials ("ТМЦ"). It has two parts:

- **Server** (`main.py`, over the tables declared in `backend/database.py`). It keeps a catalog of items and a journal of write-offs. It writes an item off only when an item of that category and name exists and has enough stock. It answers statistics over a date range and, optionally, over a destination. It lists the distinct categories, names and destinations. It returns both tables in their fixed orders.
- **Browser client** (`frontend/app.js`). It validates the two forms, builds the request URLs, turns replies into messages, fills the select controls, renders the two lists, and switches between the three panels.

Modules, one per file:

| file | module | what it holds |
|---|---|---|
| `wrappers.dfy` | `Wrappers` | `Option` |
| `lex.dfy` | `Lex` | the string order SQLite uses for `<=` on `TEXT` (the default BINARY collation), with its order laws |
| `sorting.dfy` | `Sorting` | a stable insertion sort by any total preorder, proved sorted and a permutation; it stands for SQL `ORDER BY` |
| `ledger.dfy` | `Ledger` | the two tables, the write-off transaction as a specification function, and the class `Inventory` whose methods update the tables in place |
| `queries.dfy` | `Queries` | the read-only endpoints: `/stats`, `/categories`, `/names/{category}`, `/destinations`, `/tmc/all`, `/writeoffs/all` |
| `client_rules.dfy` | `ClientRules` | the client's decision rules: validation, URLs and the query the server reads back, submission feedback, option lists, table rows, tab lookup |
| `client_view.dfy` | `ClientView` | the class `View`: the page state the handlers change, the requests they issue, the alerts, and the panels' `hidden` flags |

Modelling decisions:

- **Money.** Prices, amounts and totals are `Float` columns in the source. Here they are integers, counted in the smallest currency unit. The write-off total is therefore exactly `price * quantity`.
- **Row ids.** A row inserted without an id gets one more than the largest id in the table. This is SQLite's rowid rule as long as no row was deleted, and nothing in the source deletes a row.
- **First match.** `.first()` without an `ORDER BY` is modelled as the first matching row in table order.
- **DISTINCT.** SQL fixes no order for the rows `DISTINCT` returns. The contracts say only that each value appears once and exactly the qualifying values appear. The model keeps first occurrences.
- **ORDER BY.** Rows that tie under `ORDER BY` come back in an unspecified order. The contracts say only "sorted by the key, and a permutation of the table". The insertion sort that realises this happens to be stable.
- **Replies.** Each network reply is a parameter of the client handler that receives it:
  - `None` when the fetch or its JSON decoding fails;
  - for a POST, a `PostReply`, which carries the status flag and the body if it parsed.

## Model

| member | source | states |
|---|---|---|
| Lex.LexLeReflexive | main.py:164-165 | every date string is within a range that starts and ends at it |
| Lex.LexLeTotal | main.py:164-165 | any two strings are ordered one way or the other |
| Lex.LexLeAntisymmetric | main.py:164-165 | two strings each `<=` the other are equal |
| Lex.LexLeTransitive | main.py:164-165 | the string order is transitive, so the date bounds compose |
| Sorting.Insert | main.py:61 | inserting into a sorted sequence keeps it sorted; the result holds exactly the old elements plus the new one, as a multiset |
| Sorting.SortBy | main.py:61 | the result is sorted by the given total preorder and is a permutation of the input |
| Ledger.MaxId | backend/database.py:17 | the largest id of an id column: no id exceeds it, a non-empty column contains it, and it is 0 for an empty column |
| Ledger.NextItemId | backend/database.py:17 | a new catalog id is exactly one more than the largest id in use (1 in an empty table), so it is positive and fresh |
| Ledger.NextWriteoffId | backend/database.py:28 | a new write-off id is exactly one more than the largest id in use (1 in an empty table), so it is positive and fresh |
| Ledger.FindFrom | main.py:128-131 | the search from a position finds nothing exactly when no row from there on matches; otherwise it gives the first matching row from there |
| Ledger.FindFirst | main.py:128-131 | `None` exactly when no row has the category and name; otherwise the index of the first such row |
| Ledger.Writeoff | main.py:117-158 | the refusals exactly: "Item not found" iff no row matches, "Not enough quantity" iff the first match has less stock than asked; both leave the tables unchanged; there is no other error reply, and every other reply is "Writeoff recorded successfully" |
| Ledger.WriteoffAccepted | main.py:139-158 | when the first match has enough stock: its quantity drops by the amount, every other row and field is unchanged, and exactly one write-off is appended, with the id one above the largest in the journal, the request's fields, the item's receipt date and price, and the total price × quantity |
| Ledger.FirstMatchUnique | main.py:128-131 | two first-match indices for the same key are the same row |
| Ledger.WriteoffKeepsKeysUnique | backend/database.py:17-28 | a write-off keeps the ids of both tables unique and in ascending order, so table order stays rowid order |
| Ledger.WriteoffKeepsItemIds | backend/database.py:17 | an accepted write-off changes no catalog row's id and the catalog's length |
| Ledger.WriteoffAppendsFreshId | backend/database.py:28 | appending a write-off whose id exceeds every earlier one keeps the journal's ids unique and ascending |
| Ledger.Inventory.constructor | backend/database.py:40-41 | fresh tables are empty and satisfy the invariant: unique ids, ascending in table order |
| Ledger.Inventory.AddTmcItem | main.py:94-114 | appends exactly one catalog row carrying the given fields under a fresh id; the journal is unchanged; the reply is the success message; unique, ascending ids are kept |
| Ledger.Inventory.AddWriteoff | main.py:117-158 | the new tables and the reply are exactly those of `Ledger.Writeoff` on the old tables; unique, ascending ids are kept |
| Queries.Matching | main.py:163-171 | the query never returns more rows than the journal holds |
| Queries.MatchingSelects | main.py:163-169 | a write-off is returned exactly when its date lies within the bounds (inclusive, string order) and, if a destination is given, its destination equals it |
| Queries.GetStats | main.py:161-180 | the dates are echoed; the destination echoed is the given one or "Все направления" when none or an empty one is given; the count is at most the journal length |
| Queries.StatsCountsSelectedRows | main.py:171-176 | the count is the number of journal positions whose row satisfies the filter |
| Queries.StatsAdditive | main.py:171-176 | the statistics of a journal split in two are the sums of the statistics of the halves |
| Queries.MatchingAppend | main.py:163-171 | the query over two concatenated journals is the concatenation of the two queries |
| Queries.SumTotalsAppend | main.py:172 | the total of a concatenation is the sum of the totals |
| Queries.StatsAfterWriteoff | main.py:156-176 | after one more write-off, the count rises by one and the total by its amount when it is selected; otherwise both stay the same |
| Queries.EmptyRange | main.py:163-166 | a start date after the end date gives count 0 and total 0 |
| Queries.MatchingNone | main.py:163-171 | a journal none of whose rows satisfies the filter gives the empty result |
| Queries.DestinationNarrows | main.py:168-169 | filtering by a destination never raises the count above the unfiltered one |
| Queries.Distinct | main.py:49 | `DISTINCT` gives each value once and exactly the values present |
| Queries.NonEmpty | main.py:50 | drops exactly the empty strings and keeps distinctness |
| Queries.Categories | main.py:49 | the category column, row by row |
| Queries.NamesIn | main.py:55 | the names of exactly the rows of the given category |
| Queries.Destinations | main.py:185 | the destination column, row by row |
| Queries.GetCategories | main.py:47-50 | no duplicates; a string is listed iff it is non-empty and some item has it as category |
| Queries.GetNames | main.py:53-56 | no duplicates; a string is listed iff it is non-empty and is the name of some item of the category |
| Queries.GetDestinations | main.py:183-186 | no duplicates; a string is listed iff it is non-empty and some write-off has it as destination |
| Queries.ItemOrderIsTotalPreorder | main.py:61 | ordering by (category, name) is a total preorder, so sorting by it is well defined |
| Queries.WriteoffOrderIsTotalPreorder | main.py:77 | ordering by write-off date descending is a total preorder |
| Queries.GetAllTmc | main.py:59-72 | the catalog listing is sorted by category, then name, and is a permutation of the table |
| Queries.GetAllWriteoffs | main.py:75-91 | the journal listing is sorted by write-off date, newest first, and is a permutation of the table |
| ClientRules.Truthy | frontend/app.js:261 | a parsed number is truthy exactly when it is neither NaN nor 0 |
| ClientRules.WriteoffFormComplete | frontend/app.js:261 | a form passes only with category, name, date and destination non-empty; a NaN or 0 quantity fails it; any non-zero quantity with those four fields passes; basis is not checked |
| ClientRules.WriteoffGuardIgnoresBasis | frontend/app.js:261 | the guard's verdict does not depend on the basis field |
| ClientRules.WriteoffGuardAdmitsNegative | frontend/app.js:261 | a negative quantity passes the guard when the other checked fields are filled |
| ClientRules.TmcFormComplete | frontend/app.js:302-303 | a form passes only with category, name and receipt date non-empty; a NaN or 0 amount, price or quantity fails it; all six truthy pass |
| ClientRules.TabLoads | frontend/app.js:74-85 | "writeoff" starts the category and write-off loaders, "stats" the destination loader, "tmc" the catalog loader, any other name none; the name loader is never started |
| ClientRules.NavTarget | frontend/app.js:40-53 | after trimming, "Списание ТМЦ" opens "writeoff" and reloads write-offs, "Статистика" opens "stats", "Справочник ТМЦ" opens "tmc" and reloads the catalog; any other caption opens nothing; every opened panel starts a loader |
| ClientRules.StatsRequest | frontend/app.js:335-345 | no request exactly when a date is missing; otherwise a GET of the statistics URL built from the three inputs |
| ClientRules.StatsQueryRoundTrip | frontend/app.js:342-345 | the query of the statistics URL cuts into exactly the two date fields and, only when one was chosen, the destination field, for values without `&` or `#` |
| ClientRules.DecodedStatsParams | main.py:162 | the parameters the handler receives for the statistics URL are those fields with each value decoded |
| ClientRules.StatsRequestServed | main.py:161-180 | for values without `&`, `#`, `%` or `+`, the statistics the server answers to the client's URL filter by destination exactly when the user chose one, and echo the chosen destination or "Все направления" |
| ClientRules.AmpersandSplitsDestination | frontend/app.js:342-345 | as written, a destination `a&b` reaches the handler as `a` (or as empty when `b` is itself "destination"), never as chosen |
| ClientRules.DestinationWithAmpersandCut | frontend/app.js:342-345 | as written, the destination "R&D" reaches the handler as "R", and the summary echoes "R" |
| ClientRules.DestinationWithPlusDecoded | frontend/app.js:342-345 | as written, the destination "A+B" reaches the handler as "A B" |
| ClientRules.Escape | frontend/app.js:342-345 | an escaped value holds no character that cuts a query, and is empty exactly when the value is (corrected client) |
| ClientRules.DecodeEscape | frontend/app.js:342-345 | the server's decoding undoes the escaping for every string (corrected client) |
| ClientRules.EscapedStatsRequestServed | main.py:161-180 | with escaped values the handler receives exactly the two dates and the chosen destination for every input, and the summary is filtered by that destination exactly when one is chosen (corrected client) |
| ClientRules.ErrorText | frontend/app.js:283 | `result.error \|\| fallback`: the server's non-empty error text, otherwise the fallback |
| ClientRules.WriteoffFeedbackAsWritten | frontend/app.js:274-288 | as written: success exactly for a reachable reply with status ok and a JSON body, whatever the body says; success shows "Списание успешно записано!", resets and reloads categories, destinations and write-offs; no response or a non-JSON body shows "Ошибка подключения к серверу"; a non-ok status shows `result.error` or "Ошибка при записи списания"; failures neither reset nor reload |
| ClientRules.WriteoffFeedback | frontend/app.js:274-288 | the corrected rule of the write-off finding: success exactly for a reachable reply with status ok, a JSON body and no error field, with the same message, reset and reloads; a refusal shows the server's error text; no response or a non-JSON body shows "Ошибка подключения к серверу"; a non-ok status without an error shows "Ошибка при записи списания"; failures neither reset nor reload |
| ClientRules.TmcFeedback | frontend/app.js:311-327 | success exactly when the status is ok; success shows "ТМЦ успешно добавлен!", resets and reloads categories and the catalog; every failure shows the connection or the generic error and changes nothing else |
| ClientRules.RefusedWriteoffShownAsSuccess | frontend/app.js:276-281 | as written, every write-off the server refuses (its refusal comes with status 200) is shown as a success, with reset and reloads |
| ClientRules.RefusalOnShortStock | main.py:133-137 | refusals come from forms the page can send: with one "Ручка" of stock 5 listed in the selects, a complete form asking for 10 is answered "Not enough quantity", and the page as written shows it as "Списание успешно записано!" |
| ClientRules.WriteoffOutcomeShownFaithfully | main.py:133-158 | with the error field consulted, every server outcome is shown as decided: a refusal with its own text and no change, an acceptance as success with reset and reloads |
| ClientRules.FillOptions | frontend/app.js:100-106 | the select holds the empty-valued placeholder, then one option per returned value, in order, with value and text equal |
| ClientRules.RenderTmcList | frontend/app.js:148-177 | the empty-list message exactly for an empty list; otherwise the six-column header and one row per item in order: category, name, receipt date, price in roubles, quantity in pieces, amount in roubles |
| ClientRules.RenderWriteoffList | frontend/app.js:191-222 | the empty-list message exactly for an empty list; otherwise the seven-column header and one row per write-off in order: date, category, name, quantity, total, destination, basis |
| ClientRules.FirstIndex | frontend/app.js:68 | no panel exactly when the id is absent; otherwise the first panel with that id |
| ClientRules.OnlyRequestedPanelVisible | frontend/app.js:62-71 | with unique ids, after `showTab` a panel is visible exactly when it is the requested one |
| ClientView.View.LoadCategories | frontend/app.js:94-113 | one GET of `/categories`; on success the category select offers the placeholder and the categories and its value is empty; on failure only the error message changes |
| ClientView.View.LoadNames | frontend/app.js:115-140 | with no category chosen, only the placeholder option and no request; otherwise one GET of `/names/{category}`, then the names offered or the error message |
| ClientView.View.LoadDestinations | frontend/app.js:230-248 | one GET of `/destinations`; on success the destination select offers "Все направления" and the destinations; a failure changes nothing on the page |
| ClientView.View.LoadAllTmc | frontend/app.js:142-183 | one GET of `/tmc/all`; the catalog container shows the rendered list or "Ошибка загрузки данных"; nothing else changes |
| ClientView.View.LoadWriteoffs | frontend/app.js:185-228 | one GET of `/writeoffs/all`; the journal container shows the rendered list or "Ошибка загрузки данных"; nothing else changes |
| ClientView.View.SubmitWriteoff | frontend/app.js:250-289 | an incomplete form (category, name, quantity, date or destination falsy) gets "Заполните все обязательные поля" and no request; otherwise one POST of the six fields, then the message, reset and reloads of `WriteoffFeedbackAsWritten`, as the page does |
| ClientView.View.SubmitWriteoffChecked | frontend/app.js:250-289 | the same handler with the corrected rule `WriteoffFeedback`: a refused write-off keeps the form, reloads nothing and shows the server's reason |
| ClientView.View.AddTmcItem | frontend/app.js:291-328 | an incomplete form (any of the six fields falsy) gets "Заполните все поля" and no request; otherwise one POST of the six fields, then the message, reset and reloads of `TmcFeedback` |
| ClientView.View.LoadStats | frontend/app.js:330-360 | a missing date raises the alert "Выберите период дат" and issues no request; otherwise one GET of the statistics URL, then the result shown or the alert "Ошибка загрузки статистики" |
| ClientView.View.ShowTab | frontend/app.js:59-86 | every panel is hidden except the first whose id is `name + "-tab"`; the loaders started are those of that panel |
| ClientRules.Trim | frontend/app.js:40 | `String.prototype.trim`: a slice of the caption with only white space cut off on either side, neither starting nor ending with white space, and the caption itself when it has none at its ends |
| ClientRules.TrimPadded | frontend/app.js:40 | cutting the white space off both sides of a caption gives back exactly the caption |
| ClientRules.CaptionPaddingIgnored | frontend/app.js:40-54 | white space around a caption does not change the panel it opens or the loaders it starts |
| ClientView.View.ClickNav | frontend/app.js:38-55 | the three captions, after trimming, open their panels, with the extra loader each starts; any other caption does nothing |

## Left out

- Floating point: prices, amounts and totals are modelled as exact integers, so the rounding of `Float` columns and of `toFixed(2)` in the statistics view is not captured.
- Parsing: the text→number step of `parseInt`/`parseFloat` is not modelled; a form carries its result (NaN or a value) directly.
- Percent-encoding by `URLSearchParams` of the POST parameters: they are kept as key/value pairs.
- ClientRules.Decode: decodes `+` and escapes of codes below 0x80 only; the UTF-8 decoding of multi-byte escapes by the server is not modelled. The corrected client's escaping produces no other escapes.
- ClientRules.Escape: escapes only `&`, `#`, `%` and `+`, the characters that change how the query is read; `encodeURIComponent` escapes more, which the server decodes back to the same text.
- ClientRules.NamesUrl: `loadNames` puts the category into the path unencoded (frontend/app.js:124), as the model does. A category containing `/`, `?`, `#` or `%` then does not reach `get_names` as itself. The server's path routing and decoding are not modelled, so this is not proved here.
- ClientRules.Plain, ClientRules.Unsplit: these describe only how the server reads a query string. The browser's URL parsing inside `fetch` also drops tabs and newlines and trailing spaces before sending. So a destination ending in a space reaches the handler without it, and that is not captured.
- ClientView.View.LoadStats: issues the unescaped URL, as the page does; the corrected URL is `ClientRules.EscapedStatsUrl`, proved correct by `ClientRules.EscapedStatsRequestServed`.
- `GET /export/excel` and `exportToExcel` (`main.py:189-225`, `frontend/app.js:362-384`): file writing, `pandas` and browser downloads are I/O.
- Routing, CORS, the session dependency `get_db` and FastAPI's parameter validation (e.g. a 422 for a non-integer quantity).
- `created_at` columns: they come from the clock.
- `create_tables.py`, `restart.py` and `frontend/start_server.py` are process and file plumbing and are not part of this model.
- `loadInitialData` and the `DOMContentLoaded` set-up: the order in which awaited loaders run, default dates from the clock, and handler registration. `ClickNav` covers the handler itself.
- Concurrency: each handler is one atomic step. Interleavings of concurrent fetches, and replies arriving after a later action, are not modelled.
- `showMessage`'s 5-second timer that clears the message, and `console` logging.
- ClientView.View.SubmitWriteoff, ClientView.View.AddTmcItem: `form.reset()` is modelled as emptying every field. In the page, an input with a default `value` attribute would return to that default instead.
- ClientView.View.LoadStats: the rendered HTML of the stats card is not modelled; the received `Stats` value stands for it.
- ClientView.View.LoadCategories: the name select is not repainted when categories reload, as in the source; consequences of the stale name list are not analysed.
- Ledger.Writeoff, Ledger.Inventory: ids and quantities are unbounded integers. SQLite stores the `Integer` columns in 64 bits (backend/database.py:17,23,28,34), so a quantity outside that range makes the commit fail (main.py:113,157). The server then answers with status 500 and the tables unchanged. That failure path is not modelled.
- Queries.GetStats: its own contract states only the echoes and a count bound. The exact count and total are stated by `Queries.StatsCountsSelectedRows` and the other `Queries` lemmas.
- Queries.Matching: its own contract is only a length bound. Membership is stated by `Queries.MatchingSelects`.

## Findings

| source | as written | input that shows it | evidently intended | confidence | as-written member | corrected member |
|---|---|---|---|---|---|---|
| main.py:133-137 with frontend/app.js:276-281 | the server reports a refused write-off as a plain dict, which FastAPI sends with status 200. The client judges success by `response.ok` alone, so it shows "Списание успешно записано!", resets the form and reloads | a catalog holding one item, category "Канцтовары", name "Ручка", stock 5, which the selects offer; the user submits a complete form asking for 10: the server answers `{"error": "Not enough quantity"}` with status 200 | a refusal is shown as an error with the server's text, and the form is kept | not executed | ClientRules.RefusedWriteoffShownAsSuccess and ClientRules.RefusalOnShortStock (over ClientRules.WriteoffFeedbackAsWritten) | ClientRules.WriteoffFeedback, proved by ClientRules.WriteoffOutcomeShownFaithfully and used by ClientView.View.SubmitWriteoffChecked |
| frontend/app.js:342-345 | `loadStats` interpolates the chosen dates and destination into the URL without encoding them. `&` inside a destination ends its field, and the server decodes `+` as a space | the destination "R&D", drawn from the destinations the server itself lists: the URL ends `&destination=R&D`, and the handler receives "R"; "A+B" arrives as "A B" | every value is encoded (`encodeURIComponent`), so that the handler receives exactly the chosen destination | not executed | ClientRules.AmpersandSplitsDestination, with ClientRules.DestinationWithAmpersandCut and ClientRules.DestinationWithPlusDecoded (over ClientRules.StatsUrl) | ClientRules.EscapedStatsUrl, proved by ClientRules.EscapedStatsRequestServed and ClientRules.DecodeEscape |
