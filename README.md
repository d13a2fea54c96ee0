# Wallet client: ledger pipeline model

A Dafny model of the ledger pipeline inside the browser client of a simple
wallet (`app-v2.js`). The client fetches the account's full transaction
ledger and groups its entries by calendar day. It flattens the groups into a
render queue of day headers and transaction items, and draws that queue twelve
nodes at a time as the user scrolls. It can also export the ledger as CSV. The
model covers these steps, plus the metadata decoding and classification behind
each transaction row, and the gate in `navTo` that sends a logged-out user to
the login card.

Modules, one per part of the pipeline:

- `Wrappers` (`wrappers.dfy`): `Option` and `Result`.
- `Meta` (`meta.dfy`): decoding of an entry's `metadata`, the icon and the description of a transaction.
- `Ledger` (`ledger.dfy`): ledger entries, the order of day keys, the two sorts, the day grouping (`groupByDate`).
- `RenderQueue` (`render_queue.dfy`): the flattened header/item queue (`buildRenderQueue`) and its layout.
- `Renderer` (`renderer.dfy`): the page state as a class `LedgerView` holding the ledger, the queue and the cursor; the chunked renderer (`renderNextChunk`), the observer callback and `initLedger`.
- `Csv` (`csv.dfy`): the CSV export, a reader for the format it writes, and the round trip.
- `Navigation` (`navigation.dfy`): the protected-screen gate in `navTo`, with the screens as a class.

Several inputs depend on the clock, the locale or the JavaScript engine. These
are parameters of the model:

- `dayKey`: the local `YYYY-MM-DD` of a timestamp.
- `time`: the value `new Date(created_at)` compares by.
- `dayLabel`: the "Today" / "Yesterday" / "Mon D" label of a day.
- `parse`: `JSON.parse`, with `None` standing for a throw.

The CSV export writes `created_at` verbatim, so an entry keeps it as the text
the server sent.

Details of the code the model keeps:

- The icons are the glyphs ➕ 🛒 🔁 💸, not named icons. A transfer with a counterparty gets its glyph from `meta.type`, and only when the type is unknown from the sign of the amount.
- `txDesc` compares `meta.type` case-sensitively, while `txIcon` lowercases it first.
- The login screen is the element `auth`, and the token is read from the `jwt` key.
- The CSV header names the amount columns `amount_cents` and `balance_after_cents`.

## Model

| member | source | states |
|---|---|---|
| `Meta.SafeParseMeta` | app-v2.js:506-514 | Total. Absent metadata and the empty string give an empty object. An object is returned unchanged. Text that `JSON.parse` rejects gives an empty object. Otherwise the result is whatever the text parses to. The result is `null` only for text that parses to `null`. |
| `Meta.TxIcon` | app-v2.js:547-554 | The lowercased `meta.type` values topup, purchase, refund and transfer select ➕, 🛒, 🔁 and 💸. Otherwise (absent, empty or unknown type) the glyph is ➕ exactly when `amount > 0`, and 💸 when not. |
| `Meta.IconIgnoresTypeCase` | app-v2.js:548 | Lowercasing `meta.type` beforehand never changes the glyph. |
| `Meta.TxDesc` | app-v2.js:556-566 | Never empty. `null` metadata gives "Transaction". The exact types topup, purchase and refund give "Top-up", "Purchase" and "Refund", whatever the counterparty. Otherwise a non-empty counterparty X gives "Received from X" when `amount > 0` and "Sent to X" when not. Failing that, the result is the non-empty note, or "Transaction". |
| `Meta.DescAgreesWithIcon` | app-v2.js:547-566 | Each of the three fixed descriptions comes with its matching glyph. |
| `Meta.DescSignMattersOnlyForCounterparty` | app-v2.js:556-566 | Without a counterparty branch, the description does not depend on the amount. |
| `Meta.WorkedExamples` | app-v2.js:547-566 | A +500 top-up reads "Top-up" with ➕. A −300 entry with counterparty Bob reads "Sent to Bob" with 💸. |
| `Ledger.BelowTransitive` | app-v2.js:577 | The key order used for sorting day keys is transitive. |
| `Ledger.BelowTotal` | app-v2.js:577 | The key order is total on distinct keys. |
| `Ledger.SortKeysDesc` | app-v2.js:576-577 | Sorting the distinct day keys yields a permutation of them with the same members, strictly latest first. |
| `Ledger.SortKeysDescMembers` | app-v2.js:576-577 | The sorted keys are exactly the keys that went in. |
| `Ledger.SortByTimeDescSorts` | app-v2.js:597-599 | Sorting a bucket yields a permutation of it, ordered newest first (non-increasing `time`). |
| `Ledger.FirstSeen` | app-v2.js:569-576 | The dictionary's keys, in insertion order, have no repeats. |
| `Ledger.FirstSeenKeys` | app-v2.js:569-576 | The dictionary's keys are exactly the day keys that occur in the input. |
| `Ledger.BucketMembers` | app-v2.js:570-574 | A bucket holds exactly the input entries whose day key is its key. |
| `Ledger.GroupedCount` | app-v2.js:568-602 | There are as many groups as distinct day keys, and every key that occurs has a group. |
| `Ledger.GroupedOrder` | app-v2.js:576-601 | Group keys are strictly descending. Each group carries its key's label, and its items are newest first. |
| `Ledger.GroupedMembership` | app-v2.js:570-574 | An entry is in a group iff it is in the input and its day key is the group's key. |
| `Ledger.GroupedExactlyOnce` | app-v2.js:568-602 | Every input entry lies in exactly one group, the one keyed by its day key. |
| `Ledger.GroupedKeepsEveryEntry` | app-v2.js:568-602 | The groups' items, taken together, are a permutation of the input. |
| `Ledger.TwoDaysTwoGroups` | app-v2.js:568-602 | Two entries of one day and one of an earlier day give two groups, the later day first. |
| `Ledger.TwoDayKeys` | app-v2.js:569-577 | A ledger whose entries span exactly two days has those two day keys, the later first. |
| `Ledger.FillBuckets` | app-v2.js:569-574 | The `forEach` loop builds a dictionary whose keys are the first-seen day keys, in insertion order. The bucket under each key holds exactly that key's entries, in input order. |
| `Ledger.MapKeysToGroups` | app-v2.js:578-601 | The `map` step builds, key by key, one group per sorted key, carrying its label and its bucket sorted newest first. |
| `Ledger.BucketGroupsAreGrouped` | app-v2.js:568-602 | Mapping the sorted keys of the filled dictionary gives exactly the specified grouping. Its keys are strictly descending, and its items are a permutation of the input. |
| `Ledger.GroupByDate` | app-v2.js:568-602 | The imperative fill-then-sort returns the specified grouping. Its keys are strictly descending, and its items are a permutation of the input. |
| `RenderQueue.FlattenLength` | app-v2.js:604-611 | The queue length is the number of groups plus the total number of items. |
| `RenderQueue.FlattenContents` | app-v2.js:604-611 | Read in order, the item payloads are the groups' items concatenated, and the header labels are the groups' labels. |
| `RenderQueue.GroupLayout` | app-v2.js:606-609 | Each group's header sits at its offset, followed immediately by its items in order. |
| `RenderQueue.BuildRenderQueue` | app-v2.js:604-611 | The nested push loops build exactly the flattened queue, so the length, payloads and labels above hold of what they build. |
| `RenderQueue.AllItemsChronological` | app-v2.js:576-609 | For groups with descending keys and newest-first items, the concatenated items are reverse-chronological: latest day first, newest first within a day. |
| `RenderQueue.LedgerQueue` | app-v2.js:704-705 | The queue built from a ledger has one node per day plus one per entry. Its items are a permutation of the ledger, in reverse-chronological order. |
| `Renderer.View` | app-v2.js:620-653 | A header node becomes a date header with its label. An item becomes a row for the same entry, styled credit exactly when `amount > 0`. Its glyph is `txIcon` and its description `txDesc` of the entry's parsed metadata and amount. |
| `Renderer.Views` | app-v2.js:619-654 | A run of queue nodes draws one DOM node per queue node. |
| `Renderer.ViewsAt` | app-v2.js:619-654 | The `m`-th node drawn is the view of the `m`-th queue node, so the nodes are drawn in queue order. |
| `Renderer.Advance` | app-v2.js:617 | The new cursor lies between the old one and the queue length and is at most 12 further on. It is a full chunk further unless the queue ended. At the end it does not move. |
| `Renderer.CursorAfterCalls` | app-v2.js:617-656 | After k calls on a fresh queue of length L, the cursor is min(12·k, L). |
| `Renderer.ExhaustsAfterCeil` | app-v2.js:617-662 | Exactly ceil(L/12) calls bring the cursor to L; fewer leave it short. |
| `Renderer.WindowsTile` | app-v2.js:619-656 | The window drawn by the next call extends the views of the nodes drawn so far to the views of the longer prefix. |
| `Renderer.ListAfterCalls` | app-v2.js:617-656 | After k calls on a freshly loaded queue, each appending its window, the list holds exactly the views of the first min(12·k, L) queue nodes, in order. |
| `Renderer.DrawNodes` | app-v2.js:619-654 | The drawing loop appends exactly the views of `queue[start..end)`, in queue order. |
| `Renderer.LedgerView.constructor` | app-v2.js:26-29 | The page starts with an empty ledger and queue and the cursor at 0. |
| `Renderer.LedgerView.RenderNextChunk` | app-v2.js:613-663 | The cursor becomes min(index+12, L), and exactly the views of `queue[index..index')` are appended, in order. Queue and ledger are unchanged. At the end, the end text is shown and the observer is disconnected. Once exhausted, a call appends nothing and leaves the cursor unchanged. |
| `Renderer.LedgerView.SentinelVisible` | app-v2.js:670-676 | While the observer is connected, the callback renders the next chunk. That sets the end text and disconnects once the queue is exhausted. After disconnection the cursor, list and sentinel text stay as they were, and the observer stays disconnected. |
| `Renderer.LedgerView.InitLedger` | app-v2.js:681-723 | A rejected or failed request leaves the ledger, queue, cursor, list, sentinel text and observer alone. It reports the server's non-empty error, "Failed to load ledger", or "Ledger network error". The last also covers a rejection whose body is `null`, where reading `error` throws into the catch. A loaded ledger (`null` read as empty) gets a freshly built queue, cursor 0, a cleared list and sentinel, and a connected observer. Its first chunk is then drawn, leaving the end text shown and the observer disconnected if nothing remains. |
| `Renderer.LedgerView.ResetQueue` | app-v2.js:702-712 | Stores the loaded entries and the queue built from their grouping, rewinds the cursor to 0, empties the list, clears the sentinel text and connects the observer. |
| `Renderer.LedgerView.ShowLedger` | app-v2.js:702-714 | After the reset, the first chunk is drawn: the cursor is min(12, L), the list holds the views of the first window, and the observer stays connected only while nodes remain. The sentinel shows the end text exactly when the queue is exhausted. |
| `Csv.IntRoundTrip` | app-v2.js:752-753 | The decimal text of an amount reads back as the same integer. |
| `Csv.MetaField` | app-v2.js:754-755 | A type or counterparty column holds the property when it is a non-empty string, and is empty otherwise. |
| `Csv.EntryRow` | app-v2.js:749-757 | Each entry contributes a row of exactly 7 columns, as many as the header. |
| `Csv.EntryRowDecodes` | app-v2.js:747-757 | An entry's row has 7 columns in the fixed order. It reads back as the entry's id, transaction id, amount, balance, type, counterparty and timestamp. |
| `Csv.QuotedRoundTrip` | app-v2.js:760 | Reading a quoted field whose quotes were doubled recovers the original text. |
| `Csv.RowRoundTrip` | app-v2.js:760 | Reading a row of quoted, comma-joined fields recovers the fields. |
| `Csv.CsvRoundTrip` | app-v2.js:760 | Reading the newline-joined rows recovers every row. |
| `Csv.BuildRows` | app-v2.js:733-757 | The rows are the header followed by one row per entry, in ledger order. |
| `Csv.ExportReadsBack` | app-v2.js:760 | The text written for the header and the entry rows reads back as those rows. |
| `Csv.ExportRowsDecode` | app-v2.js:747-757 | The row written for each entry decodes to that entry. |
| `Csv.ExportCsv` | app-v2.js:731-760 | An empty ledger is refused, and only an empty one. Otherwise the text reads back as the header followed by one 7-column row per entry, and each row decodes to its entry. |
| `Csv.ExportCsvAsWritten` | app-v2.js:731-760 | As written, a non-empty export fails exactly when some entry's metadata decodes to `null`. |
| `Csv.NullMetadataAbortsExport` | app-v2.js:748-755 | An entry whose metadata is the text "null" makes the as-written export fail. |
| `Csv.AsWrittenAgreesWithoutNull` | app-v2.js:748-760 | Without such an entry, the as-written export and the corrected one write the same text. |
| `Navigation.EffectiveTarget` | app-v2.js:79-91 | The target becomes "auth" exactly when there is no token and the target is protected. Otherwise it is unchanged. Without a token the result is never protected. With one it is always the requested screen. |
| `Navigation.Screens.NavTo` | app-v2.js:76-133 | Afterwards only the effective target is shown, if it is a screen, so at most one screen is shown. With no token, no protected screen is shown. Refusal raises "Please login first". The sidebar is hidden exactly on "auth". The profile or ledger reload follows the effective target. |

## Left out

- Every `fetch` call (`register`, `login`, `initAccount`, `changePassword`, `topup`, `transferPesos`, `purchasePesos`, the request in `initLedger`). These are network I/O against a server outside this model. `initLedger` receives the request's outcome as a `LedgerResponse`.
- `localStorage`: the token is a parameter of `NavTo`.
- DOM construction and `innerHTML`, and `requestAnimationFrame`. An appended node is a `DomNode` value in the list.
- `createObserver` and the `IntersectionObserver` itself. Only the "still watching" flag is kept.
- The loader, toast, error popup and modal helpers. Only the message `initLedger` would show is returned, and `NavTo` records its toast text.
- `toggleAutoRefresh` and `setInterval`, and the race between overlapping reloads. The model is sequential.
- Floating point: `drawMiniChart`, `Math.round(pesos * 100)`, every `(x / 100).toFixed(2)` display, and `exportPDF`.
- `friendlyTime` and the bodies of `dayKey` and of the day labels. These depend on the clock and the locale, so they are the parameters `dayKey` and `dayLabel`.
- The internals of `JSON.parse`, which is the parameter `parse`.
- The `unhandledrejection` filter, the `DOMContentLoaded` handler, dark mode, and the sidebar and overlay handlers.
- Meta.SafeParseMeta: metadata of another JavaScript type (a number or a boolean) is not represented. Property values are strings only, so a non-string `meta.type` is left out; `toLowerCase` would throw on it.
- Meta.Lower: lowercases ASCII letters only. For comparing against the four ASCII type words this is exact, because the only non-ASCII character whose lowercase is an ASCII letter is the Kelvin sign, and `k` occurs in none of them.
- Ledger.SortKeysDesc: `localeCompare` is modelled as code-point order. The two agree on fixed-width, zero-padded `YYYY-MM-DD` keys.
- Ledger.SortByTimeDescSorts: the sort is stable, like `Array.prototype.sort`, but its contract states only order and permutation. `new Date` of unreadable text (NaN) is not modelled, since `time` is total.
- Ledger.GroupByDate: the in-place `sort` of the key array and of each bucket is modelled on values. The sort algorithm belongs to the JavaScript engine, not to this code.
- Renderer.LedgerView.RenderNextChunk: the `#ledgerList` and `#ledgerSentinel` elements are taken to exist. The early return without a container and the TypeError without a sentinel are not modelled.
- Renderer.LedgerView.InitLedger: a response body that is neither an array nor `null` is not modelled.
- Csv.ExportCsv: the `Blob`, the object URL and the download link are left out. Ids are kept in their string form. `String(n)` for integers of magnitude 10^21 or more, which uses exponent notation, is not modelled.
- Navigation.Screens.NavTo: an element with the target id that is not a screen is treated as absent. The side-button highlighting and the sidebar's individual style properties are left out. The profile and ledger reloads are returned as a `FollowUp` instead of being run.

## Findings

| source | as written | input that shows it | evidently intended | confidence | as-written member | corrected member |
|---|---|---|---|---|---|---|
| app-v2.js:748-755 | `safeParseMeta` returns `JSON.parse(m)` as it is, so metadata text `"null"` yields `null`. `m.type` then throws a TypeError, and the export aborts with no file. | a non-empty ledger with one entry whose `metadata` is the string `"null"` | the entry exports empty type and counterparty columns, as `txIcon` and `txDesc` already treat `null` metadata | medium; not executed | `Csv.ExportCsvAsWritten`, `Csv.NullMetadataAbortsExport` | `Csv.ExportCsv` (via `Csv.MetaField`) |
