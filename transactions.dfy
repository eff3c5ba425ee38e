/**
 * The `/transactions` routes: placing an order, the caller's order list, one
 * order's detail, and the shop-wide statistics.
 */
module Transactions {
  import opened Wrappers
  import opened Tables
  import opened Middleware
  import opened Sorting
  import JsText

  // ---- placing an order ----

  /** One line of the request body, after the schema has converted `book_id`. */
  datatype ItemRequest = ItemRequest(bookId: int, quantity: int)

  /** The schema's bounds: at least one line, each with a quantity of at least 1. */
  predicate RequestOk(items: seq<ItemRequest>) {
    |items| >= 1 && forall i :: 0 <= i < |items| ==> items[i].quantity >= 1
  }

  /** An entry of `bookDetails`: the book as read during validation, and the quantity asked for. */
  datatype Line = Line(book: Book, quantity: int)

  function NoSuchBook(id: int): AppError {
    AppError("Buku dengan ID " + JsText.IntToString(id) + " tidak ditemukan", 404)
  }

  function OutOfStock(b: Book): AppError {
    AppError("Stok buku \"" + b.title + "\" tidak mencukupi. Stok tersedia: " + JsText.IntToString(b.stock), 400)
  }

  /** The two checks one line goes through, against the books as they are before the order. */
  function CheckItem(books: seq<Book>, item: ItemRequest): (r: Outcome<Line>)
    ensures r.Ok? <==> LiveBook(books, item.bookId).Some? && books[item.bookId - 1].stock >= item.quantity
    ensures LiveBook(books, item.bookId).None? ==> r == Fail(App(NoSuchBook(item.bookId)))
    ensures (LiveBook(books, item.bookId).Some? && books[item.bookId - 1].stock < item.quantity)
              ==> r == Fail(App(OutOfStock(books[item.bookId - 1])))
    ensures r.Ok? ==> r.value == Line(books[item.bookId - 1], item.quantity)
  {
    match LiveBook(books, item.bookId)
    case None => Fail(App(NoSuchBook(item.bookId)))
    case Some(b) => if b.stock < item.quantity then Fail(App(OutOfStock(b))) else Ok(Line(b, item.quantity))
  }

  /** Every line passes its checks. */
  predicate AllAvailable(books: seq<Book>, items: seq<ItemRequest>) {
    forall i :: 0 <= i < |items| ==> CheckItem(books, items[i]).Ok?
  }

  /** Line `k` is the first line that fails. */
  predicate FailsFirstAt(books: seq<Book>, items: seq<ItemRequest>, k: int) {
    && 0 <= k < |items|
    && CheckItem(books, items[k]).Fail?
    && forall i :: 0 <= i < k ==> CheckItem(books, items[i]).Ok?
  }

  /**
   * The validation loop: checks the lines in request order and stops at the
   * first one that fails; otherwise returns one entry per line.
   */
  method ValidateItems(books: seq<Book>, items: seq<ItemRequest>) returns (r: Outcome<seq<Line>>)
    ensures r.Ok? <==> AllAvailable(books, items)
    ensures r.Ok? ==> |r.value| == |items|
                      && forall i :: 0 <= i < |items| ==> r.value[i] == CheckItem(books, items[i]).value
    ensures r.Fail? ==> exists k :: FailsFirstAt(books, items, k) && r == Fail(CheckItem(books, items[k]).thrown)
  {
    var details: seq<Line> := [];
    var i := 0;
    while i < |items|
      invariant 0 <= i <= |items|
      invariant |details| == i
      invariant forall j :: 0 <= j < i ==> CheckItem(books, items[j]).Ok? && details[j] == CheckItem(books, items[j]).value
    {
      var checked := CheckItem(books, items[i]);
      if checked.Fail? {
        r := Fail(checked.thrown);
        assert FailsFirstAt(books, items, i) && r == Fail(CheckItem(books, items[i]).thrown);
        assert !AllAvailable(books, items);
        return;
      }
      details := details + [checked.value];
      assert details[i] == CheckItem(books, items[i]).value;
      i := i + 1;
    }
    assert AllAvailable(books, items);
    return Ok(details);
  }

  /** One stock write: the line's book gets the stock read during validation minus the quantity. */
  function SetStock(books: seq<Book>, l: Line): (r: seq<Book>)
    requires 1 <= l.book.id <= |books|
    ensures |r| == |books|
  {
    books[l.book.id - 1 := books[l.book.id - 1].(stock := l.book.stock - l.quantity)]
  }

  predicate LinesResolve(books: seq<Book>, lines: seq<Line>) {
    forall i :: 0 <= i < |lines| ==> 1 <= lines[i].book.id <= |books|
  }

  /** The writes of the update loop, in order. */
  function StockAfter(books: seq<Book>, lines: seq<Line>): (r: seq<Book>)
    requires LinesResolve(books, lines)
    ensures |r| == |books|
    decreases |lines|
  {
    if lines == [] then books else StockAfter(SetStock(books, lines[0]), lines[1..])
  }

  /** The last line for book `id`, if any. */
  function LastLine(lines: seq<Line>, id: int): (r: Option<Line>)
    ensures r.Some? ==> r.value in lines && r.value.book.id == id
    ensures r.None? <==> forall i :: 0 <= i < |lines| ==> lines[i].book.id != id
  {
    if lines == [] then None
    else
      var later := LastLine(lines[1..], id);
      assert forall i :: 1 <= i < |lines| ==> lines[i] == lines[1..][i - 1];
      if later.Some? then later
      else if lines[0].book.id == id then Some(lines[0])
      else None
  }

  /** Last write wins: each book ends with the stock its last line wrote, or unchanged without a line. */
  lemma {:induction false} StockAfterAt(books: seq<Book>, lines: seq<Line>, j: int)
    requires LinesResolve(books, lines)
    requires 0 <= j < |books|
    decreases |lines|
    ensures StockAfter(books, lines)[j] ==
      match LastLine(lines, j + 1)
      case None => books[j]
      case Some(l) => books[j].(stock := l.book.stock - l.quantity)
  {
    if lines != [] {
      var next := SetStock(books, lines[0]);
      assert LinesResolve(next, lines[1..]);
      StockAfterAt(next, lines[1..], j);
    }
  }

  /** The update loop. */
  method ApplyStock(db: Database, lines: seq<Line>)
    requires LinesResolve(db.books, lines)
    modifies db
    ensures db.books == StockAfter(old(db.books), lines)
    ensures db.users == old(db.users) && db.genres == old(db.genres) && db.orders == old(db.orders)
    ensures db.clock == old(db.clock)
  {
    var i := 0;
    while i < |lines|
      invariant 0 <= i <= |lines|
      invariant |db.books| == |old(db.books)|
      invariant LinesResolve(db.books, lines[i..])
      invariant StockAfter(db.books, lines[i..]) == StockAfter(old(db.books), lines)
      invariant db.users == old(db.users) && db.genres == old(db.genres) && db.orders == old(db.orders)
      invariant db.clock == old(db.clock)
    {
      var l := lines[i];
      assert lines[i..] == [l] + lines[i + 1..];
      db.books := db.books[l.book.id - 1 := db.books[l.book.id - 1].(stock := l.book.stock - l.quantity)];
      i := i + 1;
    }
    assert lines[i..] == [];
  }

  /** The quantity of the last request line for book `id`, if any. */
  function LastQuantity(items: seq<ItemRequest>, id: int): (r: Option<int>)
    ensures r.None? <==> forall i :: 0 <= i < |items| ==> items[i].bookId != id
    ensures r.Some? ==> exists i :: 0 <= i < |items| && items[i].bookId == id && items[i].quantity == r.value
  {
    if items == [] then None
    else
      var later := LastQuantity(items[1..], id);
      assert forall i :: 1 <= i < |items| ==> items[i] == items[1..][i - 1];
      if later.Some? then later
      else if items[0].bookId == id then Some(items[0].quantity)
      else None
  }

  /** With the lines validation built, the last line for a book is its last request line. */
  lemma {:induction false} LastLineOfRequest(books: seq<Book>, items: seq<ItemRequest>, lines: seq<Line>, id: int)
    requires forall k :: 0 <= k < |books| ==> books[k].id == k + 1
    requires Validated(books, items, lines)
    requires 1 <= id <= |books|
    ensures LastLine(lines, id) ==
      match LastQuantity(items, id)
      case None => None
      case Some(q) => Some(Line(books[id - 1], q))
  {
    if items != [] {
      LastLineOfRequest(books, items[1..], lines[1..], id);
    }
  }

  /** The items of a new order: one per request line, in request order. */
  function ItemsOf(items: seq<ItemRequest>): (r: seq<OrderItem>)
    ensures |r| == |items|
    ensures forall i :: 0 <= i < |items| ==> r[i] == OrderItem(items[i].bookId, items[i].quantity)
  {
    if items == [] then [] else [OrderItem(items[0].bookId, items[0].quantity)] + ItemsOf(items[1..])
  }

  /** Every item names a book of the table. */
  predicate ItemsResolve(items: seq<OrderItem>, books: seq<Book>) {
    forall i :: 0 <= i < |items| ==> 1 <= items[i].bookId <= |books|
  }

  /** One item's share of the total: its book's current price times its quantity. */
  function ItemCost(item: OrderItem, books: seq<Book>): (c: int)
    requires 1 <= item.bookId <= |books|
    ensures books[item.bookId - 1].price > 0 && item.quantity >= 1 ==> c > 0
  {
    books[item.bookId - 1].price * item.quantity
  }

  /** `order_items.reduce((sum, item) => sum + price * quantity, 0)`, with the books' current prices. */
  function OrderTotal(items: seq<OrderItem>, books: seq<Book>): (r: int)
    requires ItemsResolve(items, books)
    ensures items == [] ==> r == 0
  {
    if items == [] then 0
    else
      var last := items[|items| - 1];
      OrderTotal(items[..|items| - 1], books) + ItemCost(last, books)
  }

  /** With positive prices and quantities, a total is positive exactly when there is an item. */
  lemma {:induction false} TotalPositive(items: seq<OrderItem>, books: seq<Book>)
    requires ItemsResolve(items, books)
    requires forall i :: 0 <= i < |items| ==> books[items[i].bookId - 1].price > 0 && items[i].quantity >= 1
    ensures OrderTotal(items, books) >= 0
    ensures OrderTotal(items, books) > 0 <==> |items| > 0
  {
    if items != [] {
      var init := items[..|items| - 1];
      assert forall i :: 0 <= i < |init| ==> init[i] == items[i];
      TotalPositive(init, books);
    }
  }

  /** Totals add up over concatenation. */
  lemma {:induction false} OrderTotalAppend(a: seq<OrderItem>, b: seq<OrderItem>, books: seq<Book>)
    requires ItemsResolve(a, books) && ItemsResolve(b, books)
    ensures ItemsResolve(a + b, books)
    ensures OrderTotal(a + b, books) == OrderTotal(a, books) + OrderTotal(b, books)
  {
    var ab := a + b;
    assert ItemsResolve(ab, books) by {
      forall i | 0 <= i < |ab| ensures 1 <= ab[i].bookId <= |books| {
        if i < |a| {
          assert ab[i] == a[i];
        } else {
          assert ab[i] == b[i - |a|];
        }
      }
    }
    if b == [] {
      assert ab == a;
    } else {
      var b', last := b[..|b| - 1], b[|b| - 1];
      assert ab[..|ab| - 1] == a + b';
      assert ab[|ab| - 1] == last;
      OrderTotalAppend(a, b', books);
      var cost := ItemCost(last, books);
      assert OrderTotal(ab, books) == OrderTotal(a + b', books) + cost;
      assert OrderTotal(b, books) == OrderTotal(b', books) + cost;
    }
  }

  /** Two tables that differ only in stock give every order the same total. */
  lemma {:induction false} TotalIgnoresStock(items: seq<OrderItem>, books: seq<Book>, books': seq<Book>)
    requires |books'| == |books|
    requires forall k :: 0 <= k < |books| ==> books'[k].price == books[k].price
    requires ItemsResolve(items, books)
    ensures OrderTotal(items, books') == OrderTotal(items, books)
  {
    if items != [] {
      TotalIgnoresStock(items[..|items| - 1], books, books');
    }
  }

  /** Validation built `lines` from `items` against `books`. */
  predicate Validated(books: seq<Book>, items: seq<ItemRequest>, lines: seq<Line>) {
    && |lines| == |items|
    && forall i :: 0 <= i < |items| ==> CheckItem(books, items[i]).Ok? && lines[i] == CheckItem(books, items[i]).value
  }

  /** Validated lines, and the order items made from them, name books of the table. */
  lemma ValidatedResolve(books: seq<Book>, items: seq<ItemRequest>, lines: seq<Line>)
    requires forall k :: 0 <= k < |books| ==> books[k].id == k + 1
    requires Validated(books, items, lines)
    ensures LinesResolve(books, lines)
    ensures ItemsResolve(ItemsOf(items), books)
  {
    forall i | 0 <= i < |lines| ensures 1 <= lines[i].book.id <= |books| && 1 <= items[i].bookId <= |books| {
      assert CheckItem(books, items[i]).Ok?;
    }
  }

  /**
   * `after` is `before` with each book's stock set to its stock in `before`
   * minus the quantity of the last request line naming it; books no line
   * names are unchanged.
   */
  predicate StockWritten(before: seq<Book>, after: seq<Book>, items: seq<ItemRequest>) {
    && |after| == |before|
    && forall j :: 0 <= j < |before| ==> (after[j] ==
         match LastQuantity(items, j + 1)
         case None => before[j]
         case Some(q) => before[j].(stock := before[j].stock - q))
  }

  /**
   * Two lines of 3 for a book with 5 in stock both pass, since each is checked
   * against the 5 read before the order, and the book ends with 2: the second
   * write replaces the first instead of taking 3 more.
   */
  lemma DuplicateLinesLastWins(b: Book, after: seq<Book>)
    requires b.id == 1 && b.IsLive() && b.stock == 5
    requires StockWritten([b], after, [ItemRequest(1, 3), ItemRequest(1, 3)])
    ensures AllAvailable([b], [ItemRequest(1, 3), ItemRequest(1, 3)])
    ensures after == [b.(stock := 2)]
  {
    var items := [ItemRequest(1, 3), ItemRequest(1, 3)];
    assert LastQuantity(items, 1) == Some(3);
    assert after[0] == b.(stock := 2);
  }

  /**
   * The stock writes of a validated order, for book `j + 1`: its stock as
   * read during validation minus the quantity of its last request line, or
   * unchanged when no line names it; and it does not become negative.
   */
  lemma OrderStockAt(books: seq<Book>, items: seq<ItemRequest>, lines: seq<Line>, j: int)
    requires forall k :: 0 <= k < |books| ==> books[k].id == k + 1
    requires Validated(books, items, lines)
    requires 0 <= j < |books|
    ensures LinesResolve(books, lines)
    ensures StockAfter(books, lines)[j] ==
      match LastQuantity(items, j + 1)
      case None => books[j]
      case Some(q) => books[j].(stock := books[j].stock - q)
    ensures StockAfter(books, lines)[j] == books[j].(stock := StockAfter(books, lines)[j].stock)
    ensures books[j].stock >= 0 ==> StockAfter(books, lines)[j].stock >= 0
  {
    ValidatedResolve(books, items, lines);
    StockAfterAt(books, lines, j);
    LastLineOfRequest(books, items, lines, j + 1);
    var q := LastQuantity(items, j + 1);
    if q.Some? {
      var i :| 0 <= i < |items| && items[i].bookId == j + 1 && items[i].quantity == q.value;
      assert CheckItem(books, items[i]).Ok?;
    }
  }

  lemma OrderStock(books: seq<Book>, items: seq<ItemRequest>, lines: seq<Line>)
    requires forall k :: 0 <= k < |books| ==> books[k].id == k + 1 && books[k].stock >= 0
    requires Validated(books, items, lines)
    ensures LinesResolve(books, lines)
    ensures StockWritten(books, StockAfter(books, lines), items)
    ensures StockOnly(books, StockAfter(books, lines))
  {
    ValidatedResolve(books, items, lines);
    forall j | 0 <= j < |books|
      ensures StockAfter(books, lines)[j] ==
        match LastQuantity(items, j + 1)
        case None => books[j]
        case Some(q) => books[j].(stock := books[j].stock - q)
      ensures StockAfter(books, lines)[j] == books[j].(stock := StockAfter(books, lines)[j].stock)
      ensures books[j].stock >= 0 ==> StockAfter(books, lines)[j].stock >= 0
    {
      OrderStockAt(books, items, lines, j);
    }
  }

  /** `books'` differs from `books` in stock only, and no stock in it is negative. */
  predicate StockOnly(books: seq<Book>, books': seq<Book>) {
    && |books'| == |books|
    && forall j :: 0 <= j < |books| ==> books'[j] == books[j].(stock := books'[j].stock) && books'[j].stock >= 0
  }

  /** Writing only stock, and never a negative one, keeps the book table's invariant. */
  lemma StockWritesKeepBooksOk(books: seq<Book>, books': seq<Book>, genres: seq<Genre>)
    requires BooksOk(books, genres)
    requires StockOnly(books, books')
    ensures BooksOk(books', genres)
  {
  }

  /** Appending a well-formed order keeps the order table's invariant, whatever the stock. */
  lemma NewOrderKeepsOrdersOk(orders: seq<Order>, users: seq<User>, books: seq<Book>, books': seq<Book>, order: Order)
    requires OrdersOk(orders, users, books)
    requires |books'| == |books|
    requires order.id == |orders| + 1 && 1 <= order.userId <= |users|
    requires ItemsResolve(order.items, books)
    requires forall i :: 0 <= i < |order.items| ==> order.items[i].quantity >= 1
    ensures OrdersOk(orders + [order], users, books')
  {
    var os := orders + [order];
    assert forall i :: 0 <= i < |orders| ==> os[i] == orders[i];
  }

  /** What `POST /transactions` returns: the order and its total. */
  datatype OrderView = OrderView(order: Order, total: int)

  /**
   * The writes of a validated order: the order row, then the stock of every
   * line. `after` is the book table those stock writes produce; that the
   * writes keep the store consistent is `PlacedOrderKeepsStore`.
   */
  method PlaceOrder(db: Database, caller: int, items: seq<ItemRequest>, lines: seq<Line>, ghost after: seq<Book>)
    returns (r: OrderView)
    requires LinesResolve(db.books, lines) && ItemsResolve(ItemsOf(items), db.books)
    requires after == StockAfter(db.books, lines)
    requires StockOnly(db.books, after)
    modifies db
    ensures db.users == old(db.users) && db.genres == old(db.genres)
    ensures r.order == Order(|old(db.orders)| + 1, caller, old(db.clock), ItemsOf(items))
    ensures db.orders == old(db.orders) + [r.order]
    ensures db.clock == old(db.clock) + 1
    ensures db.books == after
    ensures ItemsResolve(r.order.items, after)
    ensures r.total == OrderTotal(r.order.items, after)
  {
    var order := Order(|db.orders| + 1, caller, db.clock, ItemsOf(items));
    var total := OrderTotal(order.items, db.books);
    TotalIgnoresStock(order.items, db.books, after);
    db.orders, db.clock := db.orders + [order], db.clock + 1;
    ApplyStock(db, lines);
    return OrderView(order, total);
  }

  /** The stock writes and the new order row, together, keep the store consistent. */
  lemma PlacedOrderKeepsStore(users: seq<User>, genres: seq<Genre>, books: seq<Book>, books': seq<Book>,
                              orders: seq<Order>, order: Order)
    requires StoreOk(users, genres, books, orders)
    requires StockOnly(books, books')
    requires order.id == |orders| + 1 && 1 <= order.userId <= |users|
    requires ItemsResolve(order.items, books)
    requires forall i :: 0 <= i < |order.items| ==> order.items[i].quantity >= 1
    ensures StoreOk(users, genres, books', orders + [order])
  {
    StockWritesKeepBooksOk(books, books', genres);
    NewOrderKeepsOrdersOk(orders, users, books, books', order);
  }

  /**
   * `POST /transactions` for the caller the guard let through. All lines are
   * validated before anything is written; then the order is created, and
   * then every line writes its book's stock as read during validation minus
   * its quantity, so for a book named on two lines the last line wins. A
   * caller that is no user fails at the order's foreign key, before any
   * stock is written.
   */
  method CreateOrder(db: Database, caller: int, items: seq<ItemRequest>) returns (r: Outcome<OrderView>)
    requires db.Valid()
    requires RequestOk(items)
    modifies db
    ensures db.Valid()
    ensures db.users == old(db.users) && db.genres == old(db.genres)
    ensures !AllAvailable(old(db.books), items) ==>
              exists k :: FailsFirstAt(old(db.books), items, k) && r == Fail(CheckItem(old(db.books), items[k]).thrown)
    ensures AllAvailable(old(db.books), items) && !(1 <= caller <= |old(db.users)|) ==> r == Fail(StoreConstraintError)
    ensures r.Fail? ==> db.books == old(db.books) && db.orders == old(db.orders) && db.clock == old(db.clock)
    ensures r.Ok? <==> AllAvailable(old(db.books), items) && 1 <= caller <= |old(db.users)|
    ensures r.Ok? ==>
      && r.value.order == Order(|old(db.orders)| + 1, caller, old(db.clock), ItemsOf(items))
      && db.orders == old(db.orders) + [r.value.order]
      && db.clock == old(db.clock) + 1
      && ItemsResolve(r.value.order.items, db.books)
      && r.value.total == OrderTotal(r.value.order.items, db.books)
      && StockWritten(old(db.books), db.books, items)
  {
    var checked := ValidateItems(db.books, items);
    if checked.Fail? {
      return Fail(checked.thrown);
    }
    if !(1 <= caller <= |db.users|) {
      return Fail(StoreConstraintError);
    }
    var placed := CommitOrder(db, caller, items, checked.value);
    return Ok(placed);
  }

  /** The writes of `POST /transactions` once every line has passed and the caller exists. */
  method CommitOrder(db: Database, caller: int, items: seq<ItemRequest>, lines: seq<Line>) returns (r: OrderView)
    requires db.Valid()
    requires RequestOk(items)
    requires 1 <= caller <= |db.users|
    requires Validated(db.books, items, lines)
    modifies db
    ensures db.Valid()
    ensures db.users == old(db.users) && db.genres == old(db.genres)
    ensures r.order == Order(|old(db.orders)| + 1, caller, old(db.clock), ItemsOf(items))
    ensures db.orders == old(db.orders) + [r.order]
    ensures db.clock == old(db.clock) + 1
    ensures ItemsResolve(r.order.items, db.books)
    ensures r.total == OrderTotal(r.order.items, db.books)
    ensures StockWritten(old(db.books), db.books, items)
  {
    OrderStock(db.books, items, lines);
    ValidatedResolve(db.books, items, lines);
    ghost var after := StockAfter(db.books, lines);
    PlacedOrderKeepsStore(db.users, db.genres, db.books, after, db.orders,
                          Order(|db.orders| + 1, caller, db.clock, ItemsOf(items)));
    r := PlaceOrder(db, caller, items, lines, after);
  }

  // ---- the caller's orders ----

  const TransactionIdInvalid := AppError("Transaction ID tidak valid", 400)
  const TransactionMissing := AppError("Transaksi tidak ditemukan", 404)

  /** `where: { user_id }`, in table order. */
  function OrdersOf(orders: seq<Order>, caller: int): (r: seq<Order>)
    ensures forall o :: o in r <==> o in orders && o.userId == caller
  {
    if orders == [] then []
    else
      assert forall o :: o in orders <==> o == orders[0] || o in orders[1..];
      (if orders[0].userId == caller then [orders[0]] else []) + OrdersOf(orders[1..], caller)
  }

  /** Each order with its total at the books' current prices. */
  function WithTotals(os: seq<Order>, books: seq<Book>): (r: seq<OrderView>)
    requires forall o :: o in os ==> ItemsResolve(o.items, books)
    ensures |r| == |os|
    ensures forall v :: v in r ==> v.order in os && ItemsResolve(v.order.items, books) && v.total == OrderTotal(v.order.items, books)
    ensures forall o :: o in os ==> OrderView(o, OrderTotal(o.items, books)) in r
  {
    if os == [] then []
    else
      assert forall o :: o in os <==> o == os[0] || o in os[1..];
      [OrderView(os[0], OrderTotal(os[0].items, books))] + WithTotals(os[1..], books)
  }

  /** `orderBy: { created_at: 'desc' }`. */
  predicate NewestFirst(a: OrderView, b: OrderView) {
    a.order.createdAt >= b.order.createdAt
  }

  lemma NewestFirstIsPreorder()
    ensures TotalPreorder(NewestFirst)
  {
  }

  /** Every order of the table names books of the table. */
  lemma OrderItemsResolve(orders: seq<Order>, books: seq<Book>)
    requires ItemRefsOk(orders, books)
    ensures forall o :: o in orders ==> ItemsResolve(o.items, books)
  {
    forall o | o in orders ensures ItemsResolve(o.items, books) {
      var i :| 0 <= i < |orders| && orders[i] == o;
      assert forall k :: 0 <= k < |o.items| ==> o.items[k] == orders[i].items[k];
    }
  }

  /** `GET /transactions`: the caller's orders and no one else's, newest first, each with its total. */
  function ListOrders(orders: seq<Order>, books: seq<Book>, caller: int): (r: seq<OrderView>)
    requires ItemRefsOk(orders, books)
    ensures forall v :: v in r ==>
      && v.order in orders && v.order.userId == caller
      && ItemsResolve(v.order.items, books) && v.total == OrderTotal(v.order.items, books)
    ensures forall o :: o in orders && o.userId == caller ==> exists v :: v in r && v.order == o
    ensures |r| == |OrdersOf(orders, caller)|
    ensures Sorted(r, NewestFirst)
  {
    OrderItemsResolve(orders, books);
    var os := OrdersOf(orders, caller);
    var views := WithTotals(os, books);
    NewestFirstIsPreorder();
    SortSorted(views, NewestFirst);
    var r := Sort(views, NewestFirst);
    SortKeepsMembers(views, NewestFirst);
    r
  }

  /** `GET /transactions/:transaction_id`: found only when the order is the caller's. */
  function OrderDetail(orders: seq<Order>, books: seq<Book>, idText: string, caller: int): (r: Outcome<OrderView>)
    requires ItemRefsOk(orders, books)
    ensures JsText.ParseInt(idText).None? ==> r == Fail(App(TransactionIdInvalid))
    ensures JsText.ParseInt(idText).Some? ==>
      var id := JsText.ParseInt(idText).value;
      && (r.Ok? <==> 1 <= id <= |orders| && orders[id - 1].userId == caller)
      && (r.Fail? ==> r == Fail(App(TransactionMissing)))
      && (r.Ok? ==> r.value.order == orders[id - 1] && ItemsResolve(r.value.order.items, books)
                    && r.value.total == OrderTotal(r.value.order.items, books))
    ensures JsText.ParseInt(idText).Some? && (forall i :: 0 <= i < |orders| ==> orders[i].id == i + 1) ==>
      var id := JsText.ParseInt(idText).value;
      && (r.Ok? <==> exists o :: o in orders && o.id == id && o.userId == caller)
      && (r.Ok? ==> r.value.order in orders && r.value.order.id == id && r.value.order.userId == caller)
  {
    match JsText.ParseInt(idText)
    case None => Fail(App(TransactionIdInvalid))
    case Some(id) =>
      if 1 <= id <= |orders| && orders[id - 1].userId == caller then
        OrderItemsResolve(orders, books);
        Ok(OrderView(orders[id - 1], OrderTotal(orders[id - 1].items, books)))
      else Fail(App(TransactionMissing))
  }

  // ---- statistics ----

  /** One item as the statistics see it: its book's genre name and its quantity. */
  datatype Sale = Sale(genre: string, quantity: int)

  /** An entry of `Object.entries(genreCounts)`. */
  datatype GenreCount = GenreCount(genre: string, count: int)

  function GenreNameOf(item: OrderItem, books: seq<Book>, genres: seq<Genre>): string
    requires 1 <= item.bookId <= |books| && GenreRefsOk(books, genres)
  {
    genres[books[item.bookId - 1].genreId - 1].name
  }

  /** The sales of one order, item by item. */
  function ItemSales(items: seq<OrderItem>, books: seq<Book>, genres: seq<Genre>): (r: seq<Sale>)
    requires ItemsResolve(items, books) && GenreRefsOk(books, genres)
    ensures |r| == |items|
  {
    if items == [] then []
    else
      var last := items[|items| - 1];
      ItemSales(items[..|items| - 1], books, genres) + [Sale(GenreNameOf(last, books, genres), last.quantity)]
  }

  /** The sales of all orders, order by order, as the nested `forEach` visits them. */
  function Sales(orders: seq<Order>, books: seq<Book>, genres: seq<Genre>): (r: seq<Sale>)
    requires ItemRefsOk(orders, books) && GenreRefsOk(books, genres)
    ensures r == [] <==> forall i :: 0 <= i < |orders| ==> orders[i].items == []
  {
    if orders == [] then []
    else
      var init := orders[..|orders| - 1];
      assert ItemRefsOk(init, books) by {
        assert forall i :: 0 <= i < |init| ==> init[i] == orders[i];
      }
      var last := orders[|orders| - 1];
      assert ItemsResolve(last.items, books);
      Sales(init, books, genres) + ItemSales(last.items, books, genres)
  }

  /** No genre appears twice. */
  predicate Distinct(counts: seq<GenreCount>) {
    forall i, j :: 0 <= i < j < |counts| ==> counts[i].genre != counts[j].genre
  }

  predicate HasGenre(counts: seq<GenreCount>, g: string) {
    exists k :: 0 <= k < |counts| && counts[k].genre == g
  }

  /** `genreCounts[g] = (genreCounts[g] || 0) + q`: a known genre's count grows in place, a new genre goes last. */
  function Add(counts: seq<GenreCount>, s: Sale): (r: seq<GenreCount>)
    requires Distinct(counts)
    ensures Distinct(r)
    ensures HasGenre(counts, s.genre) ==>
      && |r| == |counts|
      && forall i :: 0 <= i < |counts| ==>
           r[i] == (if counts[i].genre == s.genre then counts[i].(count := counts[i].count + s.quantity) else counts[i])
    ensures !HasGenre(counts, s.genre) ==> r == counts + [GenreCount(s.genre, s.quantity)]
  {
    if HasGenre(counts, s.genre) then
      seq(|counts|, i requires 0 <= i < |counts| =>
        if counts[i].genre == s.genre then counts[i].(count := counts[i].count + s.quantity) else counts[i])
    else
      counts + [GenreCount(s.genre, s.quantity)]
  }

  /** `genreCounts` after the given sales, as its entries in insertion order. */
  function Tally(sales: seq<Sale>): (r: seq<GenreCount>)
    ensures Distinct(r)
  {
    if sales == [] then [] else Add(Tally(sales[..|sales| - 1]), sales[|sales| - 1])
  }

  /** The summed quantity of the sales of genre `g`. */
  function QuantityOf(sales: seq<Sale>, g: string): int {
    if sales == [] then 0
    else QuantityOf(sales[..|sales| - 1], g) + (if sales[|sales| - 1].genre == g then sales[|sales| - 1].quantity else 0)
  }

  /** Each genre's entry holds the summed quantity of its sales. */
  lemma {:induction false} TallyCounts(sales: seq<Sale>)
    ensures forall i :: 0 <= i < |Tally(sales)| ==> Tally(sales)[i].count == QuantityOf(sales, Tally(sales)[i].genre)
  {
    if sales != [] {
      var init, last := sales[..|sales| - 1], sales[|sales| - 1];
      TallyCounts(init);
      var t := Tally(init);
      if !HasGenre(t, last.genre) {
        var r := Tally(sales);
        assert QuantityOf(init, last.genre) == 0 by {
          TallyCovers(init);
        }
      }
    }
  }

  /** A genre has an entry exactly when some sale is of that genre. */
  lemma {:induction false} TallyCovers(sales: seq<Sale>)
    ensures forall g :: HasGenre(Tally(sales), g) <==> exists i :: 0 <= i < |sales| && sales[i].genre == g
    ensures forall g :: !HasGenre(Tally(sales), g) ==> QuantityOf(sales, g) == 0
  {
    if sales != [] {
      var init, last := sales[..|sales| - 1], sales[|sales| - 1];
      TallyCovers(init);
      var t := Tally(init);
      var r := Tally(sales);
      forall g ensures HasGenre(r, g) <==> exists i :: 0 <= i < |sales| && sales[i].genre == g {
        if HasGenre(r, g) {
          var k :| 0 <= k < |r| && r[k].genre == g;
          if k < |t| {
            assert t[k].genre == g;
            assert HasGenre(t, g);
            var i :| 0 <= i < |init| && init[i].genre == g;
            assert sales[i].genre == g;
          } else {
            assert sales[|sales| - 1].genre == g;
          }
        }
        if exists i :: 0 <= i < |sales| && sales[i].genre == g {
          var i :| 0 <= i < |sales| && sales[i].genre == g;
          if i < |init| {
            assert init[i].genre == g;
            assert HasGenre(t, g);
            var k :| 0 <= k < |t| && t[k].genre == g;
            assert r[k].genre == g;
          } else if HasGenre(t, g) {
            var k :| 0 <= k < |t| && t[k].genre == g;
            assert r[k].genre == g;
          } else {
            assert r[|r| - 1].genre == g;
          }
        }
      }
    }
  }

  /** The sales in which genre `g` appears. */
  predicate Sold(sales: seq<Sale>, g: string) {
    exists i :: 0 <= i < |sales| && sales[i].genre == g
  }

  /** `genreCounts` as the handler builds it: a map and the order in which its keys first appeared. */
  ghost predicate KeysOk(keys: seq<string>, counts: map<string, int>) {
    && (forall i, j :: 0 <= i < j < |keys| ==> keys[i] != keys[j])
    && (forall k :: k in counts <==> k in keys)
  }

  /** `Object.entries(genreCounts)`. */
  function Entries(keys: seq<string>, counts: map<string, int>): (r: seq<GenreCount>)
    requires KeysOk(keys, counts)
    ensures |r| == |keys|
    ensures forall i :: 0 <= i < |keys| ==> r[i] == GenreCount(keys[i], counts[keys[i]])
  {
    seq(|keys|, i requires 0 <= i < |keys| => GenreCount(keys[i], counts[keys[i]]))
  }

  /** One `genreCounts[name] = (genreCounts[name] || 0) + q` step is one `Add`. */
  lemma EntriesStep(keys: seq<string>, counts: map<string, int>, sale: Sale)
    requires KeysOk(keys, counts)
    ensures Distinct(Entries(keys, counts))
    ensures sale.genre in counts ==>
      && KeysOk(keys, counts[sale.genre := counts[sale.genre] + sale.quantity])
      && Entries(keys, counts[sale.genre := counts[sale.genre] + sale.quantity]) == Add(Entries(keys, counts), sale)
    ensures sale.genre !in counts ==>
      && KeysOk(keys + [sale.genre], counts[sale.genre := sale.quantity])
      && Entries(keys + [sale.genre], counts[sale.genre := sale.quantity]) == Add(Entries(keys, counts), sale)
  {
    var e := Entries(keys, counts);
    assert HasGenre(e, sale.genre) <==> sale.genre in keys by {
      if sale.genre in keys {
        var k :| 0 <= k < |keys| && keys[k] == sale.genre;
        assert e[k].genre == sale.genre;
      }
    }
    if sale.genre !in counts {
      var keys', counts' := keys + [sale.genre], counts[sale.genre := sale.quantity];
      assert forall k :: k in keys' <==> k in keys || k == sale.genre;
      assert Entries(keys', counts') == e + [GenreCount(sale.genre, sale.quantity)];
    }
  }

  /** Item references of a table stay resolved in its prefixes. */
  lemma PrefixRefsOk(orders: seq<Order>, books: seq<Book>, i: int)
    requires ItemRefsOk(orders, books) && 0 <= i <= |orders|
    ensures ItemRefsOk(orders[..i], books)
  {
    assert forall j :: 0 <= j < i ==> orders[..i][j] == orders[j];
  }

  /** The sales of the first `i` orders. */
  function SalesOfFirst(orders: seq<Order>, books: seq<Book>, genres: seq<Genre>, i: int): seq<Sale>
    requires ItemRefsOk(orders, books) && GenreRefsOk(books, genres) && 0 <= i <= |orders|
  {
    PrefixRefsOk(orders, books, i);
    Sales(orders[..i], books, genres)
  }

  /** The sales of the first `i + 1` orders extend those of the first `i`. */
  lemma SalesStep(orders: seq<Order>, books: seq<Book>, genres: seq<Genre>, i: int)
    requires ItemRefsOk(orders, books) && GenreRefsOk(books, genres)
    requires 0 <= i < |orders|
    ensures ItemsResolve(orders[i].items, books)
    ensures SalesOfFirst(orders, books, genres, i + 1)
            == SalesOfFirst(orders, books, genres, i) + ItemSales(orders[i].items, books, genres)
  {
    PrefixRefsOk(orders, books, i);
    PrefixRefsOk(orders, books, i + 1);
    assert orders[..i + 1][..i] == orders[..i];
    assert orders[..i + 1][i] == orders[i];
  }

  /** A prefix of resolved items is resolved. */
  lemma PrefixResolve(items: seq<OrderItem>, books: seq<Book>, j: int)
    requires ItemsResolve(items, books) && 0 <= j <= |items|
    ensures ItemsResolve(items[..j], books)
  {
    assert forall i :: 0 <= i < j ==> items[..j][i] == items[i];
  }

  /** The sales of the first `j` items. */
  function SalesOfItems(items: seq<OrderItem>, books: seq<Book>, genres: seq<Genre>, j: int): seq<Sale>
    requires ItemsResolve(items, books) && GenreRefsOk(books, genres) && 0 <= j <= |items|
  {
    PrefixResolve(items, books, j);
    ItemSales(items[..j], books, genres)
  }

  /** Counting item `j` after `before` and the items ahead of it is one more `Add`. */
  lemma ItemSalesStep(before: seq<Sale>, items: seq<OrderItem>, books: seq<Book>, genres: seq<Genre>, j: int)
    requires ItemsResolve(items, books) && GenreRefsOk(books, genres)
    requires 0 <= j < |items|
    ensures Tally(before + SalesOfItems(items, books, genres, j + 1))
            == Add(Tally(before + SalesOfItems(items, books, genres, j)),
                   Sale(GenreNameOf(items[j], books, genres), items[j].quantity))
  {
    PrefixResolve(items, books, j);
    PrefixResolve(items, books, j + 1);
    assert items[..j + 1][..j] == items[..j];
    assert items[..j + 1][j] == items[j];
    var sold := SalesOfItems(items, books, genres, j);
    var sale := Sale(GenreNameOf(items[j], books, genres), items[j].quantity);
    assert SalesOfItems(items, books, genres, j + 1) == sold + [sale];
    assert before + (sold + [sale]) == (before + sold) + [sale];
    TallyStep(before + sold, sale);
  }

  /** Tallying one more sale is one more `Add`. */
  lemma TallyStep(sales: seq<Sale>, sale: Sale)
    ensures Tally(sales + [sale]) == Add(Tally(sales), sale)
  {
    assert (sales + [sale])[..|sales|] == sales;
  }

  /** `genreCounts[name] = (genreCounts[name] || 0) + quantity`, with `keys` the insertion order. */
  method Count(keys0: seq<string>, counts0: map<string, int>, sale: Sale) returns (keys: seq<string>, counts: map<string, int>)
    requires KeysOk(keys0, counts0)
    ensures KeysOk(keys, counts)
    ensures Entries(keys, counts) == Add(Entries(keys0, counts0), sale)
  {
    EntriesStep(keys0, counts0, sale);
    if sale.genre in counts0 {
      keys, counts := keys0, counts0[sale.genre := counts0[sale.genre] + sale.quantity];
    } else {
      keys, counts := keys0 + [sale.genre], counts0[sale.genre := sale.quantity];
    }
  }

  /** The inner `forEach`: one order's items added to `genreCounts`. */
  method CountItems(keys0: seq<string>, counts0: map<string, int>, items: seq<OrderItem>,
                    books: seq<Book>, genres: seq<Genre>, ghost before: seq<Sale>)
    returns (keys: seq<string>, counts: map<string, int>)
    requires KeysOk(keys0, counts0) && Entries(keys0, counts0) == Tally(before)
    requires ItemsResolve(items, books) && GenreRefsOk(books, genres)
    ensures KeysOk(keys, counts)
    ensures Entries(keys, counts) == Tally(before + ItemSales(items, books, genres))
  {
    keys, counts := keys0, counts0;
    var j := 0;
    assert items[..0] == [];
    assert before + [] == before;
    while j < |items|
      invariant 0 <= j <= |items|
      invariant KeysOk(keys, counts)
      invariant Entries(keys, counts) == Tally(before + SalesOfItems(items, books, genres, j))
    {
      var name := genres[books[items[j].bookId - 1].genreId - 1].name;
      var sale := Sale(name, items[j].quantity);
      assert sale == Sale(GenreNameOf(items[j], books, genres), items[j].quantity);
      keys, counts := Count(keys, counts, sale);
      ItemSalesStep(before, items, books, genres, j);
      j := j + 1;
    }
    assert items[..j] == items;
  }

  /** The nested `forEach` that fills `genreCounts`, over every item of every order. */
  method CountGenres(orders: seq<Order>, books: seq<Book>, genres: seq<Genre>) returns (entries: seq<GenreCount>)
    requires ItemRefsOk(orders, books) && GenreRefsOk(books, genres)
    ensures entries == Tally(Sales(orders, books, genres))
  {
    var counts: map<string, int> := map[];
    var keys: seq<string> := [];
    var i := 0;
    assert orders[..0] == [];
    while i < |orders|
      invariant 0 <= i <= |orders|
      invariant KeysOk(keys, counts)
      invariant Entries(keys, counts) == Tally(SalesOfFirst(orders, books, genres, i))
    {
      SalesStep(orders, books, genres, i);
      keys, counts := CountItems(keys, counts, orders[i].items, books, genres, SalesOfFirst(orders, books, genres, i));
      i := i + 1;
    }
    assert orders[..i] == orders;
    entries := Entries(keys, counts);
  }

  /** `sort((a, b) => b[1] - a[1])`: larger counts first, ties kept in insertion order. */
  predicate CountDesc(a: GenreCount, b: GenreCount) {
    a.count >= b.count
  }

  lemma CountDescIsPreorder()
    ensures TotalPreorder(CountDesc)
  {
  }

  /** `sortedGenres`: the genre counts of the given sales, largest first. */
  function Breakdown(sales: seq<Sale>): (r: seq<GenreCount>)
    ensures multiset(r) == multiset(Tally(sales))
  {
    Sort(Tally(sales), CountDesc)
  }

  /**
   * What the breakdown holds: one entry per genre sold, each with the total
   * quantity sold of that genre, largest first.
   */
  lemma BreakdownFacts(sales: seq<Sale>)
    ensures Sorted(Breakdown(sales), CountDesc)
    ensures forall i :: 0 <= i < |Breakdown(sales)| ==> Breakdown(sales)[i].count == QuantityOf(sales, Breakdown(sales)[i].genre)
    ensures forall g :: HasGenre(Breakdown(sales), g) <==> Sold(sales, g)
    ensures Breakdown(sales) == [] <==> sales == []
  {
    var t := Tally(sales);
    var b := Breakdown(sales);
    CountDescIsPreorder();
    SortSorted(t, CountDesc);
    SortKeepsMembers(t, CountDesc);
    TallyCounts(sales);
    TallyCovers(sales);
    forall i | 0 <= i < |b| ensures b[i].count == QuantityOf(sales, b[i].genre) {
      assert b[i] in t;
    }
    forall g ensures HasGenre(b, g) <==> HasGenre(t, g) {
      if HasGenre(b, g) {
        var k :| 0 <= k < |b| && b[k].genre == g;
        assert b[k] in t;
      }
      if HasGenre(t, g) {
        var k :| 0 <= k < |t| && t[k].genre == g;
        assert t[k] in b;
      }
    }
    if sales != [] {
      assert HasGenre(t, sales[0].genre);
    }
  }

  /** Genres with equal totals keep the order in which they were first sold (JavaScript's sort is stable). */
  lemma BreakdownStable(sales: seq<Sale>, c: GenreCount)
    ensures Ties(Breakdown(sales), c, CountDesc) == Ties(Tally(sales), c, CountDesc)
  {
    CountDescIsPreorder();
    SortStable(Tally(sales), c, CountDesc);
  }

  /** In a list sorted by descending count the first count is the largest and the last the smallest. */
  lemma CountBounds(b: seq<GenreCount>)
    requires Sorted(b, CountDesc) && b != []
    ensures forall k :: 0 <= k < |b| ==> b[|b| - 1].count <= b[k].count <= b[0].count
  {
    forall k | 0 <= k < |b| ensures b[|b| - 1].count <= b[k].count <= b[0].count {
      if 0 < k {
        assert CountDesc(b[0], b[k]);
      }
      if k < |b| - 1 {
        assert CountDesc(b[k], b[|b| - 1]);
      }
    }
  }

  /**
   * In a list of the sold genres with their quantities, sorted by descending
   * count, the first genre sold the most and the last the least.
   */
  lemma Extremes(b: seq<GenreCount>, sales: seq<Sale>)
    requires b != [] && Sorted(b, CountDesc)
    requires forall i :: 0 <= i < |b| ==> b[i].count == QuantityOf(sales, b[i].genre)
    requires forall g :: HasGenre(b, g) <==> Sold(sales, g)
    ensures Sold(sales, b[0].genre) && Sold(sales, b[|b| - 1].genre)
    ensures forall g :: Sold(sales, g) ==>
              QuantityOf(sales, b[|b| - 1].genre) <= QuantityOf(sales, g) <= QuantityOf(sales, b[0].genre)
  {
    CountBounds(b);
    assert HasGenre(b, b[0].genre) && HasGenre(b, b[|b| - 1].genre);
    forall g | Sold(sales, g)
      ensures QuantityOf(sales, b[|b| - 1].genre) <= QuantityOf(sales, g) <= QuantityOf(sales, b[0].genre)
    {
      assert HasGenre(b, g);
      var k :| 0 <= k < |b| && b[k].genre == g;
      assert b[k].count == QuantityOf(sales, g);
    }
  }

  /** The first entry of the breakdown is a genre sold, and no genre sold more. */
  lemma MostPopularIsMax(sales: seq<Sale>)
    requires sales != []
    ensures Breakdown(sales) != []
    ensures Sold(sales, Breakdown(sales)[0].genre)
    ensures forall g :: Sold(sales, g) ==> QuantityOf(sales, g) <= QuantityOf(sales, Breakdown(sales)[0].genre)
  {
    BreakdownFacts(sales);
    Extremes(Breakdown(sales), sales);
  }

  /** The last entry of the breakdown is a genre sold, and no genre sold less. */
  lemma LeastPopularIsMin(sales: seq<Sale>)
    requires sales != []
    ensures Breakdown(sales) != []
    ensures Sold(sales, Breakdown(sales)[|Breakdown(sales)| - 1].genre)
    ensures forall g :: Sold(sales, g) ==> QuantityOf(sales, Breakdown(sales)[|Breakdown(sales)| - 1].genre) <= QuantityOf(sales, g)
  {
    BreakdownFacts(sales);
    Extremes(Breakdown(sales), sales);
  }

  /** `totalAmount`: the totals of all orders, at the books' current prices. */
  function AllTotal(orders: seq<Order>, books: seq<Book>): int
    requires ItemRefsOk(orders, books)
  {
    if orders == [] then 0
    else
      var init := orders[..|orders| - 1];
      assert ItemRefsOk(init, books) by {
        assert forall i :: 0 <= i < |init| ==> init[i] == orders[i];
      }
      var last := orders[|orders| - 1];
      assert ItemsResolve(last.items, books);
      AllTotal(init, books) + OrderTotal(last.items, books)
  }

  /** `totalAmount / totalTransactions`, before rounding. */
  function Mean(sum: int, n: nat): (m: real)
    requires n > 0
    ensures m * (n as real) == sum as real
  {
    sum as real / n as real
  }

  /** The body of `GET /transactions/statistics`; `genreBreakdown` is absent when there are no orders. */
  datatype Statistics = Statistics(
    totalTransactions: nat, avgTransaction: real,
    mostPopularGenre: Option<string>, leastPopularGenre: Option<string>,
    genreBreakdown: Option<seq<GenreCount>>)

  /** `GET /transactions/statistics`: over every user's orders. */
  method GetStatistics(orders: seq<Order>, books: seq<Book>, genres: seq<Genre>) returns (st: Statistics)
    requires ItemRefsOk(orders, books) && GenreRefsOk(books, genres)
    ensures orders == [] ==> st == Statistics(0, 0.0, None, None, None)
    ensures orders != [] ==>
      var sales := Sales(orders, books, genres);
      && st.totalTransactions == |orders|
      && st.avgTransaction == Mean(AllTotal(orders, books), |orders|)
      && st.genreBreakdown == Some(Breakdown(sales))
      && (st.mostPopularGenre.None? <==> sales == [])
      && (st.leastPopularGenre.None? <==> sales == [])
      && (sales != [] ==>
            && Breakdown(sales) != []
            && st.mostPopularGenre == Some(Breakdown(sales)[0].genre)
            && st.leastPopularGenre == Some(Breakdown(sales)[|Breakdown(sales)| - 1].genre))
      && (st.mostPopularGenre.Some? ==>
            Sold(sales, st.mostPopularGenre.value)
            && forall g :: Sold(sales, g) ==> QuantityOf(sales, g) <= QuantityOf(sales, st.mostPopularGenre.value))
      && (st.leastPopularGenre.Some? ==>
            Sold(sales, st.leastPopularGenre.value)
            && forall g :: Sold(sales, g) ==> QuantityOf(sales, st.leastPopularGenre.value) <= QuantityOf(sales, g))
  {
    if |orders| == 0 {
      return Statistics(0, 0.0, None, None, None);
    }
    var sales := Sales(orders, books, genres);
    var counts := CountGenres(orders, books, genres);
    var sorted := Sort(counts, CountDesc);
    assert sorted == Breakdown(sales);
    var most: Option<string> := None;
    var least: Option<string> := None;
    if |sorted| > 0 {
      most := Some(sorted[0].genre);
      least := Some(sorted[|sorted| - 1].genre);
    }
    if sales != [] {
      MostPopularIsMax(sales);
      LeastPopularIsMin(sales);
    } else {
      BreakdownFacts(sales);
    }
    var avg := Mean(AllTotal(orders, books), |orders|);
    st := Statistics(|orders|, avg, most, least, Some(sorted));
  }
}
