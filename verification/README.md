# A verified model of the shop backend

The repository serves one small shop from three implementations (Rust, Go, Python) over one PostgreSQL
schema. This project models the four parts of it whose correctness is not visible in any single function,
and proves what they promise. Rust is the reference; Go and Python appear where they differ.

**Checkout and cancel.** `Shop` says what each committed request does to the tables, all at once; `Requests`
says of the tables themselves, column by column, what that is and when it goes through. `Protocol`
is what really runs: transactions interleaved statement by statement under READ COMMITTED, row locks that a
blocked `FOR UPDATE` resolves to the newest version, uncommitted writes private to their transaction, cart
rows read without a lock, and an abort (deadlock victim, timeout, refused statement) possible anywhere.
`Serializability` and `Theorems` connect the two for every schedule. `Database` writes the two handlers as
straight-line code over mutable tables while other connections run before every statement (`others[k]` is
what they do before statement `k`), and `Interleaving` holds what such code may rely on. `Carts` follows the
cart rows, which checkout reads without locking and deletes at its end. `Totals` is the
running total: 64-bit and wrapping in Go and in Rust's release build, unbounded in Python, where the BIGINT
column refuses what does not fit (`Arith` selects which).

**Keyset pagination.** `Pagination` fetches one row too many below a `(created_at, id)` key, cuts the page and
hands out the last key, and reasons about whole walks in which the table may be rewritten between pages. How
the cursor renders a timestamp is a parameter: exact in Rust and Python, whole seconds in Go.

**Refresh tokens.** `Tokens` is the machine of sign-in, rotation, reuse detection and logout at the grain of
statements: a refresh reads its row before its transaction and never looks again, and a revocation updates the
rows its statement saw when it began. `Families` proves what survives every interleaving, and which steps
exactly break the rest. `Sessions` writes the handlers as methods on the token table and proves the strong
guarantees for requests that do not overlap.

**Supporting cores.** `Cache` (the read-through product cache), `Codec` (base64url), `Cursors`, `PythonCursors`
and `GoCursors` (the JSON that each language puts into it), and `Migrator` (the crash-safe migration loop).

Some statements one might expect are false of the code, and are answered with a concrete input and the exact
condition instead:

- The order total is the sum of its lines: not when the sum passes 2^63 - 1 and the arithmetic wraps
  (`Totals.StoredTotalCanBeWrong`, `Totals.StoredTotalIsTrueIff`).
- Pages are stable, as the comment in rust/common/src/pagination.rs claims of the cursor in general: not in Go,
  whose cursor drops the fraction of a second (`Pagination.WholeSecondsSkipsARow`,
  `Pagination.WholeSecondsCompleteIff`, `Pagination.StableRowShownIffNotSkipped`).
- A refresh token can be exchanged once, and nothing outlives a logout: not when requests overlap
  (`Families.OverlappingRefreshesFork`, `Families.OverlappingRefreshOutlivesLogout`,
  `Families.StepKeepsChainIff`, `Families.StepKeepsDeadIff`).
- A cart is ordered once: two overlapping checkouts of one user order it twice (`Carts.OneCartOrderedTwice`),
  though no others do (`Carts.OrderedTwiceOnlyByOverlap`). A checkout takes the very row that it orders out of
  the cart exactly when nobody erased or changed that row between its reading the cart and its DELETE
  (`Carts.OrderedRowIsTakenIff`).
- An edit invalidates the cache: a reader that the edit overtakes puts the old row back
  (`Cache.ReaderOvertakenByEdit`). Exactly two kinds of step leave a wrong live entry behind
  (`Cache.StepKeepsCoveredIff`), and no answer is older than `Cache.ServedIsRecent` says.
- A decoded cursor is the encoded one for every string: in Python not for a character spelled as two surrogates,
  in Go not for bytes that are not UTF-8 (`PythonCursors.SplitCharacterIsJoined`, `GoCursors.BadByteIsReplaced`),
  and in both for exactly the other strings (`PythonCursors.PythonCursorRoundTripIff`,
  `GoCursors.GoCursorRoundTripIff`). No timestamp and no id is such.

Inputs that the model takes from outside: ids are fresh, a verified token says what was signed, the clock and
the failures of statements are parameters.

## Model

| member | source | states |
|---|---|---|
| Totals.WrappedIsTrueModulo | rust/server/src/orders/repo.rs:45-54 | the 64-bit running total is always the true sum modulo 2^64, into the signed range |
| Totals.NoWrapIff | go/internal/orders/repo.go:67-74 | no line product and no prefix sum wraps exactly when the true total is at most 2^63 - 1, and then the two totals are equal |
| Totals.StoredTotalIsTrueIff | python/app/routers/orders.py:50-57 | a total is stored and is the true one exactly when the true one fits BIGINT, in either arithmetic; Python never stores another |
| Totals.StoredTotalModulo | rust/server/migrations/0003_cart_orders.sql:16 | whatever total the CHECK lets through differs from the true one by a multiple of 2^64 |
| Totals.StoredTotalCanBeWrong | rust/server/src/orders/repo.rs:53 | a cart of valid lines whose wrapped total passes the CHECK and is stored wrong |
| Totals.TotalWithinBound | rust/server/migrations/0003_cart_orders.sql:30-31 | n lines at prices up to P total at most n * P * (2^31 - 1), from the 32-bit quantity |
| Totals.TotalIgnoresRowOrder | rust/server/src/cart/repo.rs:7-16 | the rows that the cart page and checkout read in different orders add up to one total, wrapped or not |
| Totals.QuoteCart | rust/server/src/cart/models.rs:33-58 | the cart page's total is the wrapped sum of the same lines, and each line total the wrapped product |
| Shop.ApplyKeepsStoreValid | rust/server/migrations/0002_catalog.sql:17 | every request keeps stock and price within their columns and every order's total that of its lines, and leaves committed orders alone but for one move to cancelled |
| Shop.HistoryKeepsStoreValid | rust/server/migrations/0002_catalog.sql:15-17 | the same after any history of committed requests |
| Shop.HistoryIsSettled | rust/server/migrations/0003_cart_orders.sql:23-32 | between any two points of a history no price edit, archive or cancel changes an order's lines, prices, total, currency or user, and cancelled is never left |
| Shop.StockIsConserved | rust/server/src/orders/repo.rs:67-85 | stock plus the units in live orders is what there was plus the net of admin edits, product by product, after any history |
| Shop.NoOversell | rust/server/src/orders/repo.rs:47-52 | live orders never hold more units than were ever put on the shelf |
| Shop.RestockedExactlyWhenCancelled | rust/server/src/orders/repo.rs:169-194 | an order is placed at most once and restocked at most once, and has been restocked exactly when its status became cancelled |
| Requests.EachRequestDoes | rust/server/src/orders/repo.rs:42-92 | request k of a history changes the tables, as its predecessors left them, in the columns that it names and in no other: a checkout inserts its user's confirmed order for the cart, at current names, prices and currency, with the (wrapped) cost of the cart as its total, and takes each product's units; a cancel marks the user's own order and gives its units back; an edit writes the columns it was given; a new product adds its row |
| Requests.CheckoutSucceedsIff | rust/server/src/orders/repo.rs:42-85 | a checkout goes through exactly when its order id is new, the cart has rows, all of existing products in quantities the column takes, no product is short, and the cost fits the column of the total |
| Requests.SomeShortIff | rust/server/migrations/0003_cart_orders.sql:7 | with one row per product, a product is short exactly when some row asks for more than its stock |
| Requests.CancelSucceedsIff | rust/server/src/orders/repo.rs:161-187 | a cancel goes through exactly for the user's own order that is not cancelled yet, if each product's stock with the order's units fits the column |
| Requests.EditSucceedsIff | rust/server/src/products/repo.rs:79-109 | an edit is refused exactly for a missing product, or when it gives a price or stock that the column does not take |
| Requests.OrderIsItsCart | rust/server/migrations/0003_cart_orders.sql:23-32 | after any history an order still is its user's order for the cart of its checkout, line by line, at the names, prices and currency of that moment |
| Requests.OnlyTheOwnerCancels | rust/server/src/orders/repo.rs:161-169 | whoever cancels an order in a history is its user, and it stays cancelled |
| Serializability.EachInStockFits | rust/server/migrations/0003_cart_orders.sql:7 | with one line per product, the line-by-line stock test is the test that the whole cart fits, on rows read under lock |
| Serializability.CommitCheckout | rust/server/src/orders/repo.rs:57-92 | the commit of a checkout changes the tables as the atomic checkout of its cart does, from the tables as they are at the commit |
| Serializability.CommitCancel | rust/server/src/orders/repo.rs:174-198 | the commit of a cancel changes the tables as the atomic cancel does |
| Serializability.StepLeavesOthersUndisturbed | rust/server/src/orders/repo.rs:32-40 | what a transaction has read under lock or written stays true whatever any other statement does |
| Serializability.StepCommitsItsRequest | rust/server/src/orders/repo.rs:28-94 | every step either leaves tables and history alone or appends one request and applies it atomically |
| Serializability.StepKeepsTables | rust/server/src/orders/repo.rs:158-198 | no step of any transaction unsettles a committed order |
| Serializability.StepKeepsInv | rust/server/src/orders/repo.rs:28-94 | the invariant of the interleaved machine survives every statement, abort and commit |
| Theorems.Serializable | rust/server/src/orders/repo.rs:28-94 | in every interleaving, with aborts anywhere, the tables are those of running the committed requests, and only those, one at a time in commit order |
| Theorems.CheckoutsOrderTheirSnapshot | rust/server/src/orders/repo.rs:32-92 | if request number k of the history is a checkout, the k-th commit of the schedule is by a transaction that last began with this very cart and user, inserted this order since, and did not end in between |
| Theorems.SnapshotIsTheCart | rust/server/src/orders/repo.rs:33-35 | that cart was all of its user's cart at that moment, one line per product |
| Theorems.EachCommitDoes | rust/server/src/orders/repo.rs:28-94 | in every interleaving, a step that commits makes one request the latest of the history and does to the tables, as they are by then, just what this request says; any other step leaves them alone |
| Theorems.OrdersAreAsRequested | rust/server/src/orders/repo.rs:54-76 | in every interleaving, an order stays its user's order for the cart that was checked out, at the names, prices and currency of its commit, and only its user cancels it |
| Theorems.StockInRange | rust/server/migrations/0002_catalog.sql:17 | in every reachable state committed and uncommitted stock is within 0 and 2^31 - 1 |
| Theorems.CheckNeverFires | rust/server/src/orders/repo.rs:80-84 | once a checkout's stock test passed and its order is inserted, no line insert and no stock update is refused or has to wait |
| Theorems.StockConservedEverywhere | rust/server/src/orders/repo.rs:181-187 | conservation and no overselling in every reachable state of the interleaved machine |
| Theorems.RestockedOnceEverywhere | rust/server/src/orders/repo.rs:161-174 | however many cancels overlap, an order is restocked once, exactly when it is cancelled |
| Theorems.OrdersAreHistory | rust/server/migrations/0003_cart_orders.sql:23-32 | from any point of any schedule on, committed orders keep everything but one move to cancelled |
| Theorems.OrderTotalsMatchLines | rust/server/src/orders/repo.rs:45-85 | every order's total in every reachable state agrees with its lines modulo 2^64, and is their sum exactly when that sum fits; always so in Python |
| Theorems.WritesAreExclusive | rust/server/src/orders/repo.rs:35 | two running transactions never hold uncommitted updates of one product, nor of one order |
| Theorems.QuoteIsCharged | rust/server/src/cart/models.rs:33-58 | on one store, a checkout charges the total that the cart page quotes, in whatever orders the two queries list the cart |
| Theorems.QuoteIsChargedLater | rust/server/src/cart/models.rs:33-58 | over any schedule, a checkout that begins on the quoted cart and finds the quoted prices under its locks commits an order of the quoted total |
| Database.AddUp | rust/server/src/orders/repo.rs:45-54 | the loop stops at the first row short of stock, or ends with every row in stock and the total of the lines |
| Database.ListCart | rust/server/src/orders/repo.rs:32-40 | the cart query yields every line of the cart once, and nothing exactly for the empty cart |
| Database.Connections.LockRows | rust/server/src/orders/repo.rs:35 | locking the rows one by one reads each product as it is once locked, with others running in between |
| Database.Connections.PlaceLines | rust/server/src/orders/repo.rs:67-85 | the loop inserts and takes every line of the cart, whatever others do in between, and cannot fail |
| Database.Connections.PlaceOrder | rust/server/src/orders/repo.rs:57-93 | from the passed stock test to the commit: the atomic checkout, or a refused statement or commit |
| Database.Connections.CheckoutCart | rust/server/src/orders/repo.rs:28-94 | the handler is a schedule of the machine; success, and a commit whose answer is lost, mean that its commit placed the order for the cart it read; once every row is locked, a row that is short is reported, the first one, with what was asked and what is there, and never otherwise; an empty cart is reported exactly as such; every other error is a rollback at a statement that cannot run, or a refused commit; alone it goes through exactly when the atomic checkout does; if the user does nothing else meanwhile, the cart ends empty |
| Database.Connections.RestockLines | rust/server/src/orders/repo.rs:181-187 | the loop restocks every line of the locked order, or stops at a refused update |
| Database.Connections.CancelOrder | rust/server/src/orders/repo.rs:158-198 | the same for cancel: success and a lost answer mean that its commit cancelled the user's own order; not found is answered exactly for an order that is missing or another user's, already cancelled, when alone, exactly for a cancelled one of the user; every other error comes of a lock, a statement that cannot run, or a refused commit; alone it goes through exactly when the atomic cancel does |
| Carts.RunKeepsRows | rust/server/src/orders/repo.rs:87-90 | a cart row leaves its cart only by an erasure, between any two points of any schedule |
| Carts.CartRowIff | rust/server/src/cart/repo.rs:36-67 | in every interleaving a cart holds a row exactly when the last write of that row put it there and nothing has erased it since, in the quantity written |
| Carts.OrderedRowIsTakenIff | rust/server/src/orders/repo.rs:32-90 | a committing checkout takes out of the cart the very row that a line of its order listed exactly when nobody erased it or changed its quantity between the checkout's begin and its DELETE; the commit empties just the rows the DELETE took |
| Carts.CommitErasesItsCart | rust/server/src/orders/repo.rs:87-92 | once a checkout has committed, every cart row that it ordered has been erased since it read the row, by it or by another |
| Carts.OrderedTwiceOnlyByOverlap | rust/server/src/orders/repo.rs:28-94 | a row that was not erased between the begins of two committed checkouts is ordered by both only if the one that commits later began before the other committed |
| Carts.OverlappingCheckouts | rust/server/src/orders/repo.rs:32-40 | any cart of one line that is twice in stock, and whose total the database accepts, is ordered twice by two checkouts that begin before either commits |
| Carts.OneCartOrderedTwice | go/internal/orders/repo.go:36-102 | the concrete cart and schedule |
| Pagination.ClampsAgreeIff | go/internal/pagination/pagination.go:40-49 | Rust's and Go's limit clamps agree exactly on an absent or positive limit: 20 for none, the limit itself up to 100, else 100; on the others Rust takes 1 and Go 20 |
| Pagination.ListRows | rust/server/src/products/handlers.rs:27-39 | the page handler: rows of the table that pass the filter and lie below the cursor, in order, at most the limit, and no cursor exactly when nothing is left |
| Pagination.MatchingMeaning | rust/server/src/products/repo.rs:21-47 | the query selects exactly the filtered rows below the cursor, in descending key order |
| Pagination.MatchingBelowCut | rust/server/src/orders/repo.rs:107-117 | a cursor at or below one row and above the next selects exactly the rows after the first |
| Pagination.WalkDescends | rust/server/src/products/handlers.rs:31-34 | whatever is written between pages, and however the cursor rounds down, a walk shows strictly descending keys: none twice |
| Pagination.StableRowShownIffNotSkipped | rust/common/src/pagination.rs:3-5 | a row that matched at every page read is shown by a finished walk exactly when it never lay between a page's rounded cursor and its true last key |
| Pagination.StableRowShownOnce | rust/server/src/products/repo.rs:33-48 | with an exact cursor such a row is shown exactly once, under any writes between the pages |
| Pagination.QuietWalkIsTheWholeList | rust/server/src/orders/handlers.rs:39-60 | over an unchanging table the pages concatenate to the filtered list, in the stated number of requests, when rounding keeps the rows apart |
| Pagination.ExactWalkIsTheWholeList | python/app/routers/orders.py:96-130 | so always with an exact cursor |
| Pagination.RequestsIsCeiling | rust/server/src/orders/handlers.rs:39-60 | the number of requests is one for nothing and otherwise the ceiling of rows by limit |
| Pagination.CompleteForLimitIff | go/internal/catalog/handler.go:96-101 | a rounded cursor lists a quiet table completely with pages of a given size exactly when at every page end the last row's rounded key lies above the next row |
| Pagination.CompleteForEveryLimitIff | go/internal/catalog/handler.go:96-101 | so for every page size exactly when every row's rounded key lies above the next row |
| Pagination.WholeSecondsCompleteIff | go/internal/orders/handler.go:69-74 | for Go: exactly when neighbouring rows are in different seconds, or the lower falls on the second with the lower id |
| Pagination.WholeSecondsSkipsARow | go/internal/catalog/handler.go:99 | two rows of one second, pages of one: the walk ends having shown only the first |
| Families.RunForgetsNothing | rust/server/src/auth/repo.rs:130-151 | in every interleaving used and revoked never go back to false and a row keeps its family and user |
| Families.FamilyIsATree | rust/server/src/auth/handlers.rs:22-43 | in every interleaving the tokens of a family form one tree under one first token, of one user, and a token is used exactly when another was issued for it |
| Families.OneTokenPerRefresh | rust/server/src/auth/handlers.rs:110-114 | in every interleaving a family has exactly one token more than successful refreshes |
| Families.UnusedCountsForks | rust/server/src/auth/handlers.rs:97-113 | its unused tokens are one plus the exchanges that committed for a token already used by then |
| Families.StepKeepsChainIff | rust/server/src/auth/handlers.rs:97-113 | a step breaks the chain of a family exactly when it exchanges a token that is used at the commit |
| Families.ChainedUnusedIsNewest | rust/server/src/auth/handlers.rs:110-114 | in a chained family a token is unused exactly when it is the newest |
| Families.StepKeepsDeadIff | rust/server/src/auth/handlers.rs:101-113 | a fully revoked family stays so exactly until a refresh commits that read its row before |
| Families.RevokeKillsIff | rust/server/src/auth/repo.rs:142-151 | a committed revocation leaves its whole family revoked exactly when it saw every token not revoked already |
| Families.StepKeepsUniformIff | rust/server/src/auth/repo.rs:142-151 | exactly which commits break all-or-nothing revocation |
| Families.OverlappingRefreshesFork | go/internal/auth/handler.go:160-194 | two overlapping refreshes of one token leave two unused tokens |
| Families.OverlappingRefreshOutlivesLogout | go/internal/auth/handler.go:201-211 | a refresh that read before a logout and commits after it leaves an unrevoked token |
| Sessions.TokenTable.StoreRefresh | rust/server/src/auth/repo.rs:96-116 | inserts an unused, unrevoked row, or nothing when refused |
| Sessions.TokenTable.GetRefresh | rust/server/src/auth/repo.rs:118-128 | a row that is found carries the family and user that the token of this id was signed with; none is found exactly for an id not stored |
| Sessions.TokenTable.MarkRefreshUsed | rust/server/src/auth/repo.rs:130-139 | sets one mark on at most one row, leaves every other field and row alone, and does nothing the second time |
| Sessions.TokenTable.RevokeFamily | rust/server/src/auth/repo.rs:142-151 | revokes all rows of the family and no other |
| Sessions.TokenTable.IssueSession | rust/server/src/auth/handlers.rs:22-43 | signs a token for the user and family and stores its row |
| Sessions.TokenTable.Login | rust/server/src/auth/handlers.rs:84-86 | new table and reply are those of the sign-in specification; the reply is the session exactly when nothing failed, not even the reply |
| Sessions.TokenTable.RefreshSession | rust/server/src/auth/handlers.rs:89-115 | new table and reply are those of the refresh specification, on every branch, with a rollback when a write fails and the stored token when only the commit's reply is lost |
| Sessions.TokenTable.Logout | rust/server/src/auth/handlers.rs:117-124 | always 204; the family is revoked unless verification or the statement failed |
| Sessions.WholeRequestIsARun | rust/server/src/auth/handlers.rs:89-124 | each whole request is one unbroken schedule of the statement machine |
| Sessions.SerialIsReached | rust/server/src/auth/handlers.rs:45-124 | so every sequence of whole requests reaches a state of that machine |
| Sessions.FamiliesStayOrderly | rust/server/src/auth/handlers.rs:89-115 | after any whole requests every token of a family but the newest is used, rows match what was signed, and a family is revoked wholly or not at all |
| Sessions.RefreshSucceedsIff | python/app/routers/auth.py:103-124 | a refresh stores a token exactly for the newest token of an unrevoked family, and only that one; it takes over for the same family and user, and is answered unless the reply is lost |
| Sessions.SignInSucceedsIff | rust/server/src/auth/handlers.rs:63-86 | a sign-in stores its own token, and only that, exactly when its writes stand; the token is then all of its family and exchangeable, and the reply is this session unless something failed |
| Sessions.SessionBuysTheNext | rust/server/src/auth/handlers.rs:22-43 | every session that is handed out, by sign-in or refresh, can be refreshed: the next exchange of its token is answered with one of the same family and user |
| Sessions.RefreshRefusedIff | rust/server/src/auth/handlers.rs:89-108 | a refresh is answered 401 exactly for a token that does not verify, is not stored or is of a revoked family, and for a replayed one, unless the database fails first |
| Sessions.RowAfter | rust/server/src/auth/repo.rs:130-151 | a request marks a stored row used exactly when it exchanges it, and revoked exactly with its family, and changes nothing else of it |
| Sessions.RetryAfterLostReply | rust/server/src/auth/handlers.rs:104-114 | a client that repeats a refresh whose reply was lost is taken for a replay and loses its family |
| Sessions.FamilyDiesIff | python/app/routers/auth.py:116-136 | a family is revoked exactly by a replayed used token or a sign-out, and then gets no token and buys no session |
| Sessions.DeadForever | rust/server/src/auth/handlers.rs:101-108 | after any further requests it is still revoked, with the same tokens |
| Cache.Catalog.GetProduct | rust/server/src/products/handlers.rs:43-55 | a live entry is served if GET works; otherwise the reply is the row itself, stock included, and not found exactly for a missing one, and the row is put if SET works |
| Cache.Catalog.UpdateProduct | rust/server/src/products/handlers.rs:68-81 | writes the columns it was given, now() and no other column, answers with the row and deletes the entry; or changes nothing, exactly for a missing product or a price or stock out of range |
| Cache.Catalog.ArchiveProduct | rust/server/src/products/handlers.rs:83-94 | clears the status of an existing row, writes now() and nothing else, and deletes the entry |
| Cache.HandleKeepsAgreementIff | rust/server/src/products/repo.rs:79-117 | without overlap, a request breaks the agreement of live entries and rows, updated_at included, exactly when it is an edit whose DEL fails over a live entry, unless it rewrites the row as it was at the very instant of the last edit |
| Cache.ServedAsStored | rust/server/src/products/handlers.rs:43-94 | if requests do not overlap and DEL works, every answer equals the row on all fields but stock, and misses exactly missing products |
| Cache.ServedForItsTime | rust/server/src/products/cache.rs:13-35 | an entry is served exactly until its time to live is over, whatever requests with no business with it do meanwhile, and after that, or when GET fails, the row is |
| Cache.WholeRequestIsARun | rust/server/src/products/handlers.rs:43-94 | each whole request is one unbroken schedule of the interleaved machine, so what holds of every schedule holds of whole requests |
| Cache.StepKeepsCoveredIff | rust/server/src/products/handlers.rs:43-94 | with any overlap, the rule that every live entry agrees with its row or is about to be deleted is broken exactly by a working put, for a time, of a row that differs with no DEL pending, and by a failing DEL over a live entry that differs with no other pending |
| Cache.CoveredWhileNoneStrands | rust/server/src/products/handlers.rs:43-94 | as long as a schedule has no such step, every live entry without a pending DEL is right |
| Cache.ServedIsRecent | rust/server/src/products/handlers.rs:43-55 | in every interleaving, whatever fails, every answer is either a live entry, which is the row that its reader found in the database, no longer ago than the time to live plus that reader's own delay from read to put; or, after a miss, the row that the request itself read |
| Cache.ReaderOvertakenByEdit | go/internal/catalog/handler.go:108-129 | a reader overtaken by an edit and its DEL leaves an old row in the cache, and it is served |
| Codec.DecodeInvertsEncode | go/internal/pagination/pagination.go:22-31 | unpadded base64url is read back by the strict and by the lenient decoder, for all bytes |
| Codec.EncodedNumber | go/internal/pagination/pagination.go:22-25 | the symbols of a group are the base 64 digits of the number that its bytes are, zero bits filling a short one |
| Codec.AlphabetRuns | rust/common/src/pagination.rs:7 | the 64 digits are written A to Z, a to z, 0 to 9, - and _ in this order |
| Codec.StrictDecodeIff | rust/common/src/pagination.rs:43-46 | the strict decoder accepts exactly the encodings: one text per byte string |
| Codec.RestoreInvertsStrip | python/app/pagination.py:25-30 | stripping the pads gives the unpadded text, and -len % 4 pads restore the padded one |
| Codec.PaddedGroups | python/app/pagination.py:25-31 | the padded decoder reads back the padded encoding |
| Cursors.ReadInvertsWrite | rust/common/src/pagination.rs:38-41 | every string is read back from its JSON escapes, whatever follows |
| Cursors.CursorRoundTrip | rust/common/src/pagination.rs:38-48 | decoding an encoded cursor gives it back for all strings, two cursors never share a text, and an accepted text is the encoding of its JSON |
| Cursors.PlainCursorText | rust/common/src/pagination.rs:29-41 | for strings without quotes, backslashes and controls, the JSON is the object of `ts` and `id` with the strings as they are |
| PythonCursors.ReadsPaired | python/app/pagination.py:24-31 | json.loads reads back every string of code points that json.dumps wrote, but that it joins a high surrogate with a low one after it |
| PythonCursors.DumpsAscii | python/app/pagination.py:23-25 | whatever the string, what json.dumps writes is printable ASCII |
| PythonCursors.PlainCursorText | python/app/pagination.py:23-25 | for plain strings the JSON is that object with a space after each colon and comma |
| PythonCursors.PythonCursorRoundTripIff | python/app/pagination.py:23-33 | through JSON, padded base64url, stripping and restoring: the decoded cursor is the encoded one exactly when neither string has such a pair |
| PythonCursors.SplitCharacterIsJoined | python/app/pagination.py:23-33 | a cursor whose string spells one character as two surrogates comes back with the character |
| GoCursors.FirstRuneIff | go/internal/pagination/pagination.go:22-25 | decoding a string of bytes begins with a character exactly when its UTF-8 encoding is how the bytes begin, so no encoding is a prefix of another |
| GoCursors.NoBadByteIff | go/internal/pagination/pagination.go:22-25 | decoding to the end meets no bad byte exactly when the bytes are the UTF-8 encoding of some characters |
| GoCursors.ReadsRepaired | go/internal/pagination/pagination.go:22-25 | what json.Marshal writes for any bytes, with its HTML and line separator escapes, is read back with U+FFFD for each bad byte; these are the same bytes exactly when they are UTF-8 |
| GoCursors.WritesNoMarkup | go/internal/pagination/pagination.go:22-25 | what json.Marshal writes holds no `<`, `>` or `&` |
| GoCursors.PlainTextIsRusts | go/internal/pagination/pagination.go:22-25 | for plain strings, as timestamps and ids are, Go and Rust mint the same text |
| GoCursors.GoCursorRoundTripIff | go/internal/pagination/pagination.go:22-37 | for any two strings of bytes the decoded cursor is the encoded one exactly when both are the UTF-8 encoding of some characters; else it has U+FFFD for each bad byte |
| GoCursors.BadByteIsReplaced | go/internal/pagination/pagination.go:22-37 | a cursor with one byte that is not UTF-8 comes back with three others |
| Migrator.Database.Migrate | go/internal/db/db.go:63-96 | the loop does to schema and records what the specification says, for every way each file can fare, and completes exactly when the query of every recorded file and everything for every missing one works |
| Migrator.RunAddsMissing | go/internal/db/db.go:63-95 | a run adds the first so many missing files in order, all of them when it completes |
| Migrator.RunStopsAt | go/internal/db/db.go:63-96 | a run that stops at a file has added just the missing ones before it, in order, and that file too when only the answer to its commit was lost |
| Migrator.RunCompletesIff | go/internal/db/db.go:63-96 | a run completes exactly when no file stops it; if all goes well it does, and every file is recorded |
| Migrator.RunAppliesOnce | python/app/db.py:24-36 | no file takes effect twice |
| Migrator.RestartsApplyAPrefix | go/internal/db/db.go:49-97 | after any crashes and restarts the schema is a first part of the sorted files, once each, and all of them once a run completed |
| Migrator.LessIff | go/internal/db/db.go:49-61 | the order of the listing: one name is before another exactly when it ends, or has the smaller character, where they part |
| Migrator.GrownSetInOrderIff | go/internal/db/db.go:57-72 | after a release that adds files, they have been applied in name order exactly when every new one sorts after all recorded ones |

## Left out

- HTTP routing, middleware, metrics, configuration, health checks, permission checks and request validation: plumbing and one-branch facts.
- Argon2 and JWT: a verified token yields the claims it was signed with, and only such tokens are presented.
- `register` creates its user and role in the transaction of its first token; the user tables are not part of this model, so it is the sign-in request here.
- The expiry of refresh tokens: an expired one fails verification, which is `None` here.
- Full-text search, category and user filters of the list queries: an arbitrary predicate on rows.
- Parsing and printing RFC 3339 timestamps: a cursor's key is what reading its text back yields, exact or rounded down.
- `add_item`, `set_item`, `remove_item` and `clear` of the cart: modelled as writes of single cart rows that may come at any time (`clear` as one for each row); only the one-row-per-product key of the table matters to checkout.
- Which transaction a deadlock ends: an abort may come at any statement. Termination under deadlock is not claimed.
- Locks that foreign keys take on referenced rows: they delay statements and are not modelled; nothing here depends on them.
- Deletion of products: no code does it.
- The displayed currency of a cart with several currencies, on which the languages differ; an order takes that of its first row, as the code does.
- Pagination.ListRows: takes the table as a list in key order; sorting is the database's.
- Sessions.TokenTable.RefreshSession: answers a failing revocation as Rust and Python do; Go answers 401 for it, and leaves the table the same.
- Sessions.TokenTable.Login: takes the user as authenticated; password and status checks come before it.
- Cache.Catalog.ArchiveProduct: requires an existing row to satisfy the column CHECKs, which every stored row does.
- Cache.ServedIsRecent: counts time in ticks of the length of one unit of the time to live.
- An edit that names a category that does not exist is refused by a foreign key; categories are not part of this model.
- `sku`, `slug` and `created_at` of a product: nothing changes them after the insert.
- Codec.PaddedGroups: characters outside the alphabet are refused; the Python library skips them, so it accepts more texts than the model, never fewer.
- Codec.DecodeInvertsEncode: the line breaks that Go's decoder ignores are not modelled.
- PythonCursors.PythonCursorRoundTripIff: the reader refuses JSON text outside ASCII, which json.dumps does not write and json.loads accepts.
- GoCursors.GoCursorRoundTripIff: the reader is the one of `Cursors`; for escapes of lone surrogates, which the encoder does not write, Go's puts U+FFFD.
- Cursors.CursorRoundTrip: the JSON reader knows the layout the encoder writes, with any escapes; other layouts, which the JSON libraries accept, are refused here, and bytes that are not UTF-8 are not.
- Migrator.Database.Migrate: one runner at a time, with the listing given in name order.
