# Bookstore backend, modelled in Dafny

This project models the core of an Express + Prisma bookstore backend and
its interactive command-line client:

- **Orders** (`/transactions`). Placing an order validates every line against
  the non-deleted books before anything is written. It then creates one order
  with one item per line and writes each book's stock as read during
  validation minus the line's quantity. The order routes also cover the
  caller's order list, the owner-only detail lookup and the shop-wide
  statistics: order count, average, quantity per genre, a stable
  descending sort, and the most and least popular genre.
- **Catalogue and accounts** (`/auth`, `/genre`, `/books`). Registration and
  login, genre create/list/get/rename/soft-delete, and book
  create/list/list-by-genre/get/patch/soft-delete. Names and titles are
  unique among non-deleted rows; listings are paginated, sorted and searched.
- **Middleware**: `AppError`, the bearer-token guard and the central error
  handler.
- **The CLI**: genre selection, item parsing, update payload building, and
  the login/logout session with its "Not logged in" guard.

The store is a `Database` object holding four tables as sequences (order
items live inside their order). A row's id is its position plus one, since
rows are never removed. `createdAt`/`deletedAt` are readings of one
monotonic clock. Handlers that write are methods that modify the
`Database`. Read-only handlers are functions of the tables. A handler
that can fail returns an `Outcome`: its data, or what it threw, which the
`ErrorHandler` turns into a status and message. `Genres.ListGenres` and
`Transactions.ListOrders` cannot fail and return their list directly, and
`Transactions.GetStatistics` returns its `Statistics` record. `Database.Valid()`
(`Tables.StoreOk`) is the store's invariant. It says ids are positions, no
two non-deleted genres or books share a name or title, every foreign key
resolves, and stock is never negative. Every writing handler preserves it.

Modules: `Wrappers` and `JsText` (JavaScript string and number built-ins),
`Sorting` (a stable insertion sort standing for both `Array.prototype.sort`
and the store's `orderBy`), `Tables`, `Middleware`, `Auth`, `Genres`, `Books`,
`Transactions`, `Cli`.

Where the code and its description differ, the model follows the code.
A few such boundary cases are kept as written:

- A book `PATCH` with `genre_id: 0` skips the genre check, because 0 is
  falsy, and fails at the store's foreign key.
- A negative `skip` reaches the store, which refuses it. A negative `limit`
  with page 1 (so `skip` 0) is a negative `take`, which the store reads
  from the end of the list: the last rows come back, and `totalPages` is
  zero or negative.
- Statistics over zero orders carry no `genreBreakdown` key.
- A CLI genre whose id is 0 is rejected as an invalid selection.

## Model

| member | source | states |
|---|---|---|
| Middleware.NewAppError | backend/src/middleware.ts:9-13 | the error keeps its message; its status is the given one, or 500 when none is given |
| Middleware.ErrorHandler | backend/src/middleware.ts:41-50 | an `AppError` gives its own status and message, a `ZodError` gives 400 "Validation error" with its field errors, anything else 500 "Server error"; `success` is always false |
| Middleware.ServerErrorsLookAlike | backend/src/middleware.ts:48-49 | any two unexpected errors produce the identical reply |
| Middleware.BearerToken | backend/src/middleware.ts:31-32 | a token exists iff the header is present and its second space-separated piece is non-empty, and then it is exactly that piece; it contains no space |
| Middleware.BearerTokenOfHeader | backend/src/middleware.ts:31 | `scheme token` yields exactly `token`, whatever the one-word scheme |
| Middleware.BearerTokenIgnoresTail | backend/src/middleware.ts:31 | `scheme token rest` yields exactly `token`: text after a further space is dropped |
| Middleware.NoTokenAfterScheme | backend/src/middleware.ts:31-32 | a header with only a scheme, with or without a trailing space, carries no token |
| Middleware.AuthRequest.constructor | backend/src/middleware.ts:15-17 | a request starts with no `userId` |
| Middleware.AuthMiddleware | backend/src/middleware.ts:29-39 | `next()` is called iff a token is present and verifies, and then `userId` is the decoded id; a missing token and a failed verification both give `Token invalid` 401 and leave `userId` alone |
| JsText.OrNull | backend/src/routes/authGenre.ts:30 | `s || null`: the empty string becomes null, any other value is kept |
| JsText.TrimStart | backend/src/cli.ts:61 | drops exactly the leading whitespace (ECMAScript WhiteSpace and LineTerminator): a suffix of the input, all dropped characters are whitespace, the rest starts with none |
| JsText.TrimEnd | backend/src/cli.ts:61 | drops exactly the trailing whitespace, symmetrically, over the same character set |
| JsText.Trim | backend/src/cli.ts:59-62 | `trim()` gives a slice of the input that neither starts nor ends with whitespace, and everything cut off on either side is whitespace |
| JsText.TrimOfTrimmed | backend/src/cli.ts:455 | text with no surrounding whitespace is its own trim |
| JsText.DigitPrefix | backend/src/routes/transactions.ts:244 | the longest run of leading digits, the part `parseInt` reads |
| JsText.ParseIntSign | backend/src/routes/authGenre.ts:176 | `parseInt(s)` (`JsText.ParseInt`): text whose first non-space character is a digit reads as a non-negative number, and a negative result needs a leading `-`; `ParseIntOfIntToString` and `DigitPrefix` carry what is read |
| JsText.ParseIntNeedsDigit | backend/src/routes/authGenre.ts:176-177 | text without a single digit is NaN, which `isNaN` turns into the 400 |
| JsText.NatToString | backend/src/routes/authGenre.ts:69 | the decimal text of a natural number is non-empty and all digits |
| JsText.IntToString | backend/src/routes/authGenre.ts:69 | `toString()` of an integer: non-empty, starts with `-` iff negative |
| JsText.ParseIntOfIntToString | backend/src/routes/transactions.ts:32 | `parseInt` reads back the integer `toString` wrote, even with non-digit text after it (for integers in JavaScript's safe range; see "## Left out") |
| JsText.ParseIntOfNumberText | backend/src/cli.ts:309-312 | `parseInt` of the decimal text of an integer is that integer |
| JsText.Split | backend/src/middleware.ts:31 | `split` on one character always gives at least one piece |
| JsText.SplitPiecesFree | backend/src/cli.ts:455 | no piece of a split contains the separator |
| JsText.JoinSplit | backend/src/cli.ts:454 | joining the pieces with the separator gives back the input |
| JsText.SplitJoin | backend/src/cli.ts:454-455 | splitting separator-free pieces joined by the separator gives back the pieces |
| JsText.Lower | backend/src/cli.ts:277 | `toLowerCase` keeps the length and lowers each character (ASCII letters) |
| JsText.LowerIdempotent | backend/src/cli.ts:277 | lowering twice is lowering once |
| JsText.ContainsInsensitive | backend/src/routes/authGenre.ts:346-349 | `contains` with `mode: 'insensitive'`: an empty search matches every text, and a match is never longer than the text |
| JsText.ExactImpliesInsensitive | backend/src/routes/authGenre.ts:348-349 | an exact substring is also found by the case-insensitive search |
| JsText.InsensitiveIgnoresCase | backend/src/routes/authGenre.ts:348-349 | the search gives the same answer on lowered title and search text |
| Sorting.Insert | backend/src/routes/transactions.ts:204-206 | inserting adds exactly one element: the multiset grows by it |
| Sorting.Sort | backend/src/routes/transactions.ts:204-206 | sorting is a permutation |
| Sorting.SortKeepsMembers | backend/src/routes/transactions.ts:204-206 | sorting keeps the length and exactly the same members |
| Sorting.InsertSorted | backend/src/routes/transactions.ts:204-206 | inserting into a sorted list under a total preorder keeps it sorted |
| Sorting.SortSorted | backend/src/routes/transactions.ts:204-206 | under a total preorder the result is sorted |
| Sorting.SortStable | backend/src/routes/transactions.ts:204-206 | elements that compare equal keep their relative order (stability) |
| Tables.UserByEmail | backend/src/routes/authGenre.ts:19 | found iff some user has the email, and then it is such a user |
| Tables.UserById | backend/src/routes/authGenre.ts:94-103 | found iff the id names a row, and then it is that row; where ids are positions the row carries the id asked for, and nothing is found iff no user has that id |
| Tables.LiveGenre | backend/src/routes/authGenre.ts:179-180 | found iff the id names a genre row that is not deleted; in a valid table the row carries that id, and nothing is found iff no live genre has it |
| Tables.LiveBook | backend/src/routes/authGenre.ts:461-462 | found iff the id names a book row that is not deleted; where ids are positions the row carries that id, and nothing is found iff no live book has it |
| Auth.Register | backend/src/routes/authGenre.ts:11-48 | fails with 400 iff the email is registered, adding no user; otherwise appends one user with the hashed password and `username || null`, and returns it without the password |
| Auth.RegisterTwice | backend/src/routes/authGenre.ts:19-22 | registering the same email a second time fails with 400, and at most one row is added |
| Auth.Login | backend/src/routes/authGenre.ts:51-89 | succeeds iff the email is known and the password matches; an unknown email and a wrong password give the same 401; the reply's user is that user's id, email and username, and the token signs the id text |
| Auth.TokenNamesTheUser | backend/src/routes/authGenre.ts:68-72 | the id a login token carries is read back by `parseInt` as the id of the user who logged in |
| Auth.Me | backend/src/routes/authGenre.ts:92-116 | the caller's profile iff the id names a row, otherwise 404; where ids are positions it is found iff some user has the caller's id, and then it is that user's profile |
| Genres.CreateGenre | backend/src/routes/authGenre.ts:122-147 | fails with 400 iff a non-deleted genre has the name, changing nothing; otherwise appends exactly one genre |
| Genres.DeletedNameIsFree | backend/src/routes/authGenre.ts:128-130 | a name held only by deleted genres is free again |
| Genres.LiveGenres | backend/src/routes/authGenre.ts:152-153 | exactly the non-deleted genres |
| Genres.NewerFirstIsPreorder | backend/src/routes/authGenre.ts:159 | newest-first is a total preorder |
| Genres.WithCounts | backend/src/routes/authGenre.ts:154-158 | one entry per genre, each genre paired with its book count, and nothing else |
| Genres.ListGenres | backend/src/routes/authGenre.ts:150-169 | exactly the non-deleted genres with their book counts, each once (a permutation of the counted live genres), newest first |
| Genres.GetGenre | backend/src/routes/authGenre.ts:172-199 | 400 for a non-numeric id, the genre with its count iff it exists and is not deleted, 404 otherwise |
| Genres.PatchGenre | backend/src/routes/authGenre.ts:202-244 | 400 for a bad id, then 404 unless the genre is live, then 400 if another live genre has the name, else only that row's name changes |
| Genres.RenameToSameName | backend/src/routes/authGenre.ts:220-226 | renaming a genre to its own name is never a duplicate |
| Genres.DeleteGenre | backend/src/routes/authGenre.ts:247-274 | 400 for a bad id, 404 unless live, else only `deletedAt` of that row is set and the row is kept |
| Genres.StampDeleted | backend/src/routes/authGenre.ts:262-265 | the soft-delete write keeps the store invariant and changes only that row's `deletedAt` |
| Genres.SoftDeleteKeepsGenresOk | backend/src/routes/authGenre.ts:262-265 | a soft delete keeps genre ids and name uniqueness |
| Genres.SoftDeleteKeepsStore | backend/src/routes/authGenre.ts:262-265 | books keep pointing at a deleted genre's row, so the whole store stays consistent |
| Genres.DeletedGenreIsHidden | backend/src/routes/authGenre.ts:254-260 | after a delete the id gives 404 (so patch and delete do too) and no listing shows it |
| Books.CreateBook | backend/src/routes/authGenre.ts:280-333 | the title check (400) comes before the genre check (404); either failure adds nothing; success appends exactly the described book |
| Books.QueryInt | backend/src/routes/authGenre.ts:338-339 | `parseInt(q) || fallback`: absent, non-numeric or 0 gives the fallback, else the parsed number |
| Books.QueryIntOfNumber | backend/src/routes/authGenre.ts:338-339 | a non-zero number written in decimal is taken as given |
| Books.SortKeyOf | backend/src/routes/authGenre.ts:353-360 | `title`, `publication_year` and `price` select their keys; anything else sorts by creation |
| Books.LexLeTotal | backend/src/routes/authGenre.ts:355 | any two titles are comparable |
| Books.LexLeTrans | backend/src/routes/authGenre.ts:355 | title order is transitive |
| Books.BookOrderIsPreorder | backend/src/routes/authGenre.ts:353-360 | every sort key gives a total preorder |
| Books.Matching | backend/src/routes/authGenre.ts:344-351 | exactly the non-deleted books of the genre (if any) whose title or writer contains the search, ignoring case |
| Books.Window | backend/src/routes/authGenre.ts:366-367 | `skip` then `take`: the right length, and item `i` is input item `skip + i` |
| Books.CeilDiv | backend/src/routes/authGenre.ts:380 | `Math.ceil(n / d)`: the least `r` with `n <= r * d` |
| Books.WindowFromEnd | backend/src/routes/authGenre.ts:366-367 | a negative `take`: the same length as the forward window, and the rows are the ones that end `skip` before the end of the list |
| Books.WindowFromEndReadsBackwards | backend/src/routes/authGenre.ts:366-367 | that window is the forward window of the reversed list, reversed back |
| Books.StoreWindow | backend/src/routes/authGenre.ts:366-367 | `skip`/`take` with a non-zero `take`: at most `|take|` rows, all from the list |
| Books.StoreWindowSorted | backend/src/routes/authGenre.ts:362-369 | a window of a sorted list, read either way, is sorted |
| Books.TotalPages | backend/src/routes/authGenre.ts:380 | `Math.ceil(total / limit)`: the ceiling division for a positive limit, and for a negative one the least `r` with `total / limit <= r` |
| Books.PagingOf | backend/src/routes/authGenre.ts:338-342 | page and limit default to 1 and 10, and `skip = (page - 1) * limit` |
| Books.Ranked | backend/src/routes/authGenre.ts:362-369 | a permutation of the matching books |
| Books.RankedSorted | backend/src/routes/authGenre.ts:362-369 | the ranked books appear in the order the sort key asks for |
| Books.ViewsOf | backend/src/routes/authGenre.ts:365 | each book paired with its genre, in order |
| Books.ListIn | backend/src/routes/authGenre.ts:362-382 | store failure iff `skip` is negative; otherwise the store's window of the ranking (counted from the end for a negative `limit`) with its genres, and `total`/`totalPages` as the count and `Math.ceil(total / limit)` |
| Books.Page | backend/src/routes/authGenre.ts:373-381 | one page: the store's window of the list, each book with its genre, and the pagination record; a negative `skip` fails |
| Books.ListedMatch | backend/src/routes/authGenre.ts:344-351 | every listed book is in the table and passes the filter |
| Books.WindowSorted | backend/src/routes/authGenre.ts:366-368 | a window of a sorted list is sorted |
| Books.ListedInOrder | backend/src/routes/authGenre.ts:353-369 | a page is in `sortBy` order |
| Books.ListBooksByGenre | backend/src/routes/authGenre.ts:389-451 | 400 for a bad id, 404 unless the genre is live, else the listing restricted to that genre |
| Books.WindowHoldsRank | backend/src/routes/authGenre.ts:342-380 | rank `k` is item `k % limit` of page `k / limit + 1`, and that page is within `totalPages` |
| Books.PagingOfNumbers | backend/src/routes/authGenre.ts:338-342 | a query naming page and limit in decimal skips `(page - 1) * limit` |
| Books.PageHoldsRank | backend/src/routes/authGenre.ts:338-381 | asking for rank `k`'s page always succeeds and shows that book at position `k % limit` |
| Books.GetBook | backend/src/routes/authGenre.ts:454-477 | 400 for a bad id, the book with its genre iff it is live, 404 otherwise |
| Books.Patched | backend/src/routes/authGenre.ts:527-531 | supplied fields take the new value, absent fields keep theirs; id and timestamps never change |
| Books.EmptyPatchIsIdentity | backend/src/routes/authGenre.ts:527-531 | an empty patch changes nothing |
| Books.PatchVerdict | backend/src/routes/authGenre.ts:500-525 | 404 unless live; the title check only when the title changes; the genre check only for a truthy genre id; the patched row otherwise |
| Books.PatchVerdictGenre | backend/src/routes/authGenre.ts:516-525 | in a consistent store a patch that passes the checks names an existing genre |
| Books.PatchBook | backend/src/routes/authGenre.ts:480-541 | 400 for a bad id, else the verdict's error, or exactly that row rewritten with the patch |
| Books.RewriteBook | backend/src/routes/authGenre.ts:527-531 | the update writes that one row only |
| Books.VerdictKeepsStore | backend/src/routes/authGenre.ts:507-531 | writing the accepted row keeps the store invariant |
| Books.PatchKeepsBooksOk | backend/src/routes/authGenre.ts:507-514 | a row with an unchanged or unclashing title and a valid genre keeps titles unique |
| Books.DeleteBook | backend/src/routes/authGenre.ts:544-571 | 400 for a bad id, 404 unless live, else only that row's `deletedAt` is set |
| Books.SoftDeleteKeepsBooksOk | backend/src/routes/authGenre.ts:559-562 | a soft delete keeps the book table's invariant |
| Books.DeletedBookIsHidden | backend/src/routes/authGenre.ts:454-468 | a deleted book gives 404 by id and is in no listing |
| Transactions.CheckItem | backend/src/routes/transactions.ts:36-53 | a line passes iff its book is live with enough stock; 404 for a missing book, else 400 for short stock |
| Transactions.ValidateItems | backend/src/routes/transactions.ts:34-56 | succeeds iff every line passes, giving one entry per line in order; otherwise it fails with the error of the first line that fails |
| Transactions.StockAfter | backend/src/routes/transactions.ts:81-88 | the stock writes in request order keep the table's length; what each book ends with is `StockAfterAt` |
| Transactions.StockAfterAt | backend/src/routes/transactions.ts:81-88 | after the update loop each book has the stock its last line wrote, or is unchanged |
| Transactions.ApplyStock | backend/src/routes/transactions.ts:81-88 | the update loop performs exactly those writes and touches nothing else |
| Transactions.LastQuantity | backend/src/routes/transactions.ts:35 | the last request line for a book exists iff some line names it |
| Transactions.LastLineOfRequest | backend/src/routes/transactions.ts:55 | the last validated entry for a book is its last request line with the book as read |
| Transactions.ItemsOf | backend/src/routes/transactions.ts:61-65 | one order item per request line, in request order |
| Transactions.ItemCost | backend/src/routes/transactions.ts:91 | a positive price times a positive quantity is positive |
| Transactions.OrderTotal | backend/src/routes/transactions.ts:90-93 | an order with no items totals 0 |
| Transactions.TotalPositive | backend/src/routes/transactions.ts:90-93 | with positive prices and quantities the total is positive iff there is an item |
| Transactions.OrderTotalAppend | backend/src/routes/transactions.ts:90-93 | the total is additive over concatenation, the sum of price times quantity |
| Transactions.TotalIgnoresStock | backend/src/routes/transactions.ts:79-93 | the stock writes do not change the total, which reads only prices |
| Transactions.ValidatedResolve | backend/src/routes/transactions.ts:55-65 | validated lines and the order items made from them name rows of the table |
| Transactions.DuplicateLinesLastWins | backend/src/routes/transactions.ts:48-85 | two lines of 3 for a book with 5 in stock both pass and leave 2, not -1 |
| Transactions.OrderStockAt | backend/src/routes/transactions.ts:81-88 | each book ends with its validated stock minus its last line's quantity, only stock changes, and it never goes negative |
| Transactions.OrderStock | backend/src/routes/transactions.ts:81-88 | the same for the whole table |
| Transactions.StockWritesKeepBooksOk | backend/src/routes/transactions.ts:81-88 | stock-only, non-negative writes keep the book table's invariant |
| Transactions.NewOrderKeepsOrdersOk | backend/src/routes/transactions.ts:58-67 | appending a well-formed order keeps the order table's invariant |
| Transactions.PlaceOrder | backend/src/routes/transactions.ts:58-93 | one order row with the caller and the items, then the stock writes; the total is that of the items |
| Transactions.PlacedOrderKeepsStore | backend/src/routes/transactions.ts:58-88 | the order and the stock writes together keep the store invariant |
| Transactions.CreateOrder | backend/src/routes/transactions.ts:9-104 | all-or-nothing: the first failing line's error and no change; otherwise exactly one order for the caller, each book's stock its validated stock minus its last line's quantity, and the total |
| Transactions.CommitOrder | backend/src/routes/transactions.ts:58-99 | the writes of a validated order keep the store invariant and leave each book with its written stock |
| Transactions.OrdersOf | backend/src/routes/transactions.ts:113-114 | exactly the caller's orders |
| Transactions.WithTotals | backend/src/routes/transactions.ts:129-135 | each order paired with its total at current prices |
| Transactions.NewestFirstIsPreorder | backend/src/routes/transactions.ts:126 | newest-first is a total preorder |
| Transactions.ListOrders | backend/src/routes/transactions.ts:106-145 | the caller's orders and no others, each once, newest first, each with its total |
| Transactions.OrderDetail | backend/src/routes/transactions.ts:235-293 | 400 for a non-numeric id; found iff the order exists and belongs to the caller, else 404; where ids are positions it is found iff some order has that id and the caller's user id, and then it is that order |
| Transactions.Add | backend/src/routes/transactions.ts:199-200 | a known genre's count grows by the quantity in place; a new genre is appended; genres stay distinct |
| Transactions.Tally | backend/src/routes/transactions.ts:194-202 | no genre appears twice |
| Transactions.TallyCounts | backend/src/routes/transactions.ts:194-202 | each genre's count is the total quantity of its items |
| Transactions.TallyCovers | backend/src/routes/transactions.ts:194-202 | a genre has an entry iff some item is of that genre |
| Transactions.Entries | backend/src/routes/transactions.ts:204 | `Object.entries`: one entry per key, in insertion order |
| Transactions.EntriesStep | backend/src/routes/transactions.ts:199-200 | one dictionary update is one `Add` on the entries |
| Transactions.Count | backend/src/routes/transactions.ts:199-200 | the dictionary update step, specified by `Add` |
| Transactions.CountItems | backend/src/routes/transactions.ts:197-201 | the inner loop adds one order's items to the tally |
| Transactions.Sales | backend/src/routes/transactions.ts:196-202 | the items the nested `forEach` visits, order by order; there are none iff no order has an item |
| Transactions.CountGenres | backend/src/routes/transactions.ts:194-202 | the nested loops produce the tally of every item of every order |
| Transactions.CountDescIsPreorder | backend/src/routes/transactions.ts:205 | larger-count-first is a total preorder |
| Transactions.Breakdown | backend/src/routes/transactions.ts:204-206 | `sortedGenres` holds exactly the entries of the tally, reordered; `BreakdownFacts` states the order and the counts |
| Transactions.BreakdownFacts | backend/src/routes/transactions.ts:204-206 | the breakdown is sorted by count, each count is the genre's quantity, it has exactly the genres sold, and it is empty iff nothing was sold |
| Transactions.BreakdownStable | backend/src/routes/transactions.ts:204-206 | genres with equal counts keep first-encounter order |
| Transactions.Extremes | backend/src/routes/transactions.ts:208-213 | in such a breakdown the first genre sold the most and the last the least |
| Transactions.MostPopularIsMax | backend/src/routes/transactions.ts:208-209 | the first entry is a genre sold, and no genre sold more |
| Transactions.LeastPopularIsMin | backend/src/routes/transactions.ts:210-213 | the last entry is a genre sold, and no genre sold less |
| Transactions.Mean | backend/src/routes/transactions.ts:192 | the average times the count is the total |
| Transactions.GetStatistics | backend/src/routes/transactions.ts:148-232 | zero orders give 0, 0, null, null and no breakdown; otherwise the count, the mean, the sorted breakdown, and most/least as its first and last entries, a maximum and a minimum |
| Cli.OrElse | backend/src/cli.ts:335 | `a || b` on strings |
| Cli.ErrorText | backend/src/cli.ts:128 | the server's message when non-empty, else the fallback |
| Cli.FindByName | backend/src/cli.ts:277 | the first genre whose lowercased name equals the lowercased input, or none iff no name matches |
| Cli.SelectGenre | backend/src/cli.ts:271-297 | a number from 1 to the length selects by position; anything else selects by name |
| Cli.SelectionOfListed | backend/src/cli.ts:271-297 | typing a listed number, or a listed name in any case, always selects a genre; the number selects that one |
| Cli.BookBody | backend/src/cli.ts:305-324 | the body has exactly the keys title, writer, publisher, year, price, stock and genre id, plus a description iff one was typed; the text answers as typed, year and stock through `parseInt`, the chosen genre's id |
| Cli.BookBodyOfNumbers | backend/src/cli.ts:309-323 | a year and a stock typed as decimal numbers are sent as those numbers |
| Cli.ParseLine | backend/src/cli.ts:455-456 | the book id is the trimmed piece up to its first `:`, and the quantity is `parseInt` of the second `:`-piece, or absent when there is none |
| Cli.ParseLineWithoutColon | backend/src/cli.ts:455-456 | a piece without a colon is all book id, with no quantity |
| Cli.ParseLineOfFields | backend/src/cli.ts:455-456 | for `id:qty` or `id:qty:more`, the id is `id` and the quantity `parseInt(qty)` |
| Cli.ParseItems | backend/src/cli.ts:454-457 | one item per comma-separated piece, in order |
| Cli.ParseLineOfRender | backend/src/cli.ts:455-456 | `id:quantity` reads back as that id text and quantity |
| Cli.ParseItemsOfText | backend/src/cli.ts:450-457 | typing items in the prompted format sends exactly those items, in order |
| Cli.BuildPatch | backend/src/cli.ts:409-412 | the payload holds exactly the non-empty fields among title, price and stock, and is empty iff all three are empty |
| Cli.Session.constructor | backend/src/cli.ts:42-43 | a session starts logged out |
| Cli.Session.Login | backend/src/cli.ts:115-130 | a successful login sets the token, the user and the header; a refused one changes nothing and reports the server's message |
| Cli.Session.Logout | backend/src/cli.ts:132-137 | logout clears the token, the user and the header |
| Cli.Session.Perform | backend/src/cli.ts:139-542 | a protected command without a token reports "Not logged in" and sends nothing; with a token every command other than create-book and update-book is sent, each with its verb, path and fields; create-book follows the genre rules; update-book is sent iff some field is typed, with exactly the typed fields, and otherwise reports "No fields to update" |
| Cli.BooksQuery | backend/src/cli.ts:334-346 | page and limit default to 1 and 10, and an empty search is left out |
| Cli.DefaultPaging | backend/src/cli.ts:335-343 | leaving both prompts empty asks for page 1 of 10 |
| Cli.LogoutLocksCommands | backend/src/cli.ts:132-143 | after a logout every protected command reports "Not logged in" |

`Books.ListBooks` (`GET /books`, `authGenre.ts:336-386`) is `Books.ListIn`
with no genre: every property above stated for `ListIn` is its contract.

## Left out

- Prisma persistence: the tables are in-memory sequences, and `created_at`/`deleted_at` come from a counter, not `Date`.
- bcrypt and JWT: hashing, password comparison, signing and verification are function parameters. Token expiry is not modelled.
- Prices are integer cents. `Number(price)` and floating-point sums are not modelled, nor the `toFixed(2)` rounding of `avgTransaction`: the model gives the exact mean as a `real`.
- Requests run one at a time. The race between validation and the stock writes under concurrent requests is not modelled.
- The zod schemas: their bounds are preconditions (at least one item, quantity at least 1, non-empty names, price > 0, stock >= 0, year 1000..2025). The 400 path for a body that fails them is left out, and so is the email format check.
- Integers are unbounded. In the source, ids, stock, quantities, page and limit are JavaScript numbers (doubles), and ids and stock are stored in the database's 32-bit `Int` columns. The model assumes they stay within that `Int` range and within JavaScript's safe integers: beyond them `parseInt` rounds (`parseInt("9007199254740993")` is 9007199254740992), `String(1e21)` is `"1e+21"`, and the store rejects an out-of-range id or stock with a validation error that the error handler turns into 500, where the model answers 404 or writes the row.
- `parseInt` understands only signed decimal text after leading whitespace. Hex and other radix forms, and a string `book_id`/`genre_id` in a body, are not modelled: those ids are integers.
- `toLowerCase` and the store's `mode: 'insensitive'` fold ASCII letters only. Title order is lexicographic by code point; the database's collation is not modelled.
- The store's order among equal sort keys is not specified. The model's stable sort is one allowed order.
- `findMany` without `orderBy` (the orders and their items read by the statistics handler) returns rows in no specified order. The model reads them in table order, so the first-encounter order that `Transactions.BreakdownStable` keeps for tied genres rests on that order.
- JavaScript's ordering of integer-like keys in `Object.entries` is not modelled: genre names are assumed not to be integer-like.
- Transactions.Count: genre names are assumed not to be `Object.prototype` property names (`constructor`, `toString`, `valueOf`, `__proto__`, ...). On `{}` such a name reads an inherited value, so `genreCount[name] || 0` would not start from 0; the model starts every genre from 0.
- Transactions.GetStatistics: carries the same assumption about genre names as `Transactions.Count`.
- Transactions.ItemSales: its contract states only the length. The genre name and quantity of each sale are read through `TallyCounts` and `TallyCovers`.
- Transactions.OrderTotal: its own contract states only that an empty order totals 0. The sum of price times quantity is `OrderTotalAppend`, and positivity is `TotalPositive`.
- The order responses include book and genre rows, order item ids and, in the detail, the user. The model returns the order with its items and total, without those included rows.
- Auth.Me: the `updated_at` field of the profile is not modelled.
- The CLI's menu loop (`start`, `showMenu`, `handleMenuLoggedIn/Out`), `register`, the prompts, axios and console output are left out. A command arrives with its typed answers, and the model gives the request sent or the message reported. `parseFloat` on the price is kept as raw text.
- The unresolved merge-conflict markers in `cli.ts` (lines 71-83, 232-239, 254-259 and 272-292) differ only in message prefixes, comments and formatting. The model has the logic both sides share, with messages without their prefixes.
- Express wiring (`index.ts`, `app.ts`, `server.ts`, `bookroutes.ts`, `genreroutes.ts`) is not part of this model.
