/**
 * The store's tables as the handlers see them. Each table is a sequence in
 * insertion order; rows are never removed (genres and books are soft-deleted
 * through `deletedAt`), so a row's auto-increment id is its position plus one.
 * `createdAt` and `deletedAt` are readings of one monotonic clock.
 */
module Tables {
  import opened Wrappers

  datatype User = User(id: int, email: string, password: string, username: Option<string>, createdAt: nat)

  datatype Genre = Genre(id: int, name: string, createdAt: nat, deletedAt: Option<nat>) {
    predicate IsLive() { deletedAt.None? }
  }

  /** `price` is in cents; `stock` is `stock_quantity`. */
  datatype Book = Book(
    id: int, title: string, writer: string, publisher: string, publicationYear: int,
    description: Option<string>, price: int, stock: int, genreId: int,
    createdAt: nat, deletedAt: Option<nat>)
  {
    predicate IsLive() { deletedAt.None? }
  }

  datatype OrderItem = OrderItem(bookId: int, quantity: int)

  /** An order owns its items, in the order they were created. */
  datatype Order = Order(id: int, userId: int, createdAt: nat, items: seq<OrderItem>)

  /** `findUnique({ where: { email } })`. */
  function UserByEmail(users: seq<User>, email: string): (r: Option<User>)
    ensures r.Some? ==> r.value in users && r.value.email == email
    ensures r.None? <==> forall i :: 0 <= i < |users| ==> users[i].email != email
  {
    if users == [] then None
    else if users[0].email == email then Some(users[0])
    else
      var r := UserByEmail(users[1..], email);
      assert forall i :: 1 <= i < |users| ==> users[i] == users[1..][i - 1];
      r
  }

  /**
   * `findUnique({ where: { id } })` on users. Where ids are positions the row
   * found carries the id asked for, and nothing is found exactly when no row does.
   */
  function UserById(users: seq<User>, id: int): (r: Option<User>)
    ensures r.Some? ==> 1 <= id <= |users| && r.value == users[id - 1]
    ensures r.None? <==> !(1 <= id <= |users|)
    ensures UsersOk(users) ==> r.Some? ==> r.value in users && r.value.id == id
    ensures UsersOk(users) ==> (r.None? <==> forall u :: u in users ==> u.id != id)
  {
    if 1 <= id <= |users| then Some(users[id - 1])
    else
      assert UsersOk(users) ==> forall u :: u in users ==> u.id != id by {
        if UsersOk(users) {
          forall u | u in users ensures u.id != id {
            var k :| 0 <= k < |users| && users[k] == u;
          }
        }
      }
      None
  }

  /** `findFirst({ where: { id, deleted_at: null } })` on genres: a soft-deleted row is not found. */
  function LiveGenre(genres: seq<Genre>, id: int): (r: Option<Genre>)
    ensures r.Some? ==> 1 <= id <= |genres| && r.value == genres[id - 1] && r.value.IsLive()
    ensures r.None? <==> !(1 <= id <= |genres|) || !genres[id - 1].IsLive()
    ensures GenresOk(genres) ==> r.Some? ==> r.value in genres && r.value.id == id
    ensures GenresOk(genres) ==> (r.None? <==> forall g :: g in genres && g.IsLive() ==> g.id != id)
  {
    if 1 <= id <= |genres| && genres[id - 1].IsLive() then Some(genres[id - 1])
    else
      assert GenresOk(genres) ==> forall g :: g in genres && g.IsLive() ==> g.id != id by {
        if GenresOk(genres) {
          forall g | g in genres && g.IsLive() ensures g.id != id {
            var k :| 0 <= k < |genres| && genres[k] == g;
          }
        }
      }
      None
  }

  /**
   * `findFirst({ where: { id, deleted_at: null } })` on books. The last two
   * clauses hold where ids are positions, as `BooksOk` keeps.
   */
  function LiveBook(books: seq<Book>, id: int): (r: Option<Book>)
    ensures r.Some? ==> 1 <= id <= |books| && r.value == books[id - 1] && r.value.IsLive()
    ensures r.None? <==> !(1 <= id <= |books|) || !books[id - 1].IsLive()
    ensures (forall k :: 0 <= k < |books| ==> books[k].id == k + 1) ==>
              r.Some? ==> r.value in books && r.value.id == id
    ensures (forall k :: 0 <= k < |books| ==> books[k].id == k + 1) ==>
              (r.None? <==> forall b :: b in books && b.IsLive() ==> b.id != id)
  {
    if 1 <= id <= |books| && books[id - 1].IsLive() then Some(books[id - 1])
    else
      assert (forall k :: 0 <= k < |books| ==> books[k].id == k + 1) ==>
               forall b :: b in books && b.IsLive() ==> b.id != id by {
        if forall k :: 0 <= k < |books| ==> books[k].id == k + 1 {
          forall b | b in books && b.IsLive() ensures b.id != id {
            var k :| 0 <= k < |books| && books[k] == b;
          }
        }
      }
      None
  }

  /** A non-deleted genre other than `except` is called `name`. */
  predicate GenreNameTaken(genres: seq<Genre>, name: string, except: Option<int>) {
    exists i :: 0 <= i < |genres| && genres[i].IsLive() && genres[i].name == name
                && (except.None? || genres[i].id != except.value)
  }

  /** A non-deleted book other than `except` is called `title`. */
  predicate BookTitleTaken(books: seq<Book>, title: string, except: Option<int>) {
    exists i :: 0 <= i < |books| && books[i].IsLive() && books[i].title == title
                && (except.None? || books[i].id != except.value)
  }

  /** How many books (deleted ones too) point at genre `id`: `_count.books`. */
  function BooksInGenre(books: seq<Book>, id: int): (n: nat)
    ensures n <= |books|
  {
    if books == [] then 0
    else (if books[0].genreId == id then 1 else 0) + BooksInGenre(books[1..], id)
  }

  // ---- what the store keeps true ----

  ghost predicate UsersOk(users: seq<User>) {
    && (forall i :: 0 <= i < |users| ==> users[i].id == i + 1)
    && (forall i, j :: 0 <= i < j < |users| ==> users[i].email != users[j].email)
  }

  /** Ids are positions; no two non-deleted genres share a name. */
  ghost predicate GenresOk(genres: seq<Genre>) {
    && (forall i :: 0 <= i < |genres| ==> genres[i].id == i + 1)
    && (forall i, j :: 0 <= i < j < |genres| && genres[i].IsLive() && genres[j].IsLive()
          ==> genres[i].name != genres[j].name)
  }

  predicate GenreRefsOk(books: seq<Book>, genres: seq<Genre>) {
    forall i :: 0 <= i < |books| ==> 1 <= books[i].genreId <= |genres|
  }

  /** Ids are positions, non-deleted titles are unique, every genre reference resolves, stock is never negative. */
  ghost predicate BooksOk(books: seq<Book>, genres: seq<Genre>) {
    && (forall i :: 0 <= i < |books| ==> books[i].id == i + 1)
    && (forall i, j :: 0 <= i < j < |books| && books[i].IsLive() && books[j].IsLive()
          ==> books[i].title != books[j].title)
    && GenreRefsOk(books, genres)
    && (forall i :: 0 <= i < |books| ==> books[i].stock >= 0 && books[i].price > 0)
  }

  predicate ItemRefsOk(orders: seq<Order>, books: seq<Book>) {
    forall i, k :: 0 <= i < |orders| && 0 <= k < |orders[i].items| ==>
      1 <= orders[i].items[k].bookId <= |books|
  }

  ghost predicate OrdersOk(orders: seq<Order>, users: seq<User>, books: seq<Book>) {
    && (forall i :: 0 <= i < |orders| ==> orders[i].id == i + 1 && 1 <= orders[i].userId <= |users|)
    && ItemRefsOk(orders, books)
    && (forall i, k :: 0 <= i < |orders| && 0 <= k < |orders[i].items| ==> orders[i].items[k].quantity >= 1)
  }

  /** The four tables together. */
  ghost predicate StoreOk(users: seq<User>, genres: seq<Genre>, books: seq<Book>, orders: seq<Order>) {
    UsersOk(users) && GenresOk(genres) && BooksOk(books, genres) && OrdersOk(orders, users, books)
  }

  /** Order items refer to books by position only, so rewriting book rows in place keeps them valid. */
  lemma OrdersOkOverSameSize(orders: seq<Order>, users: seq<User>, books: seq<Book>, books': seq<Book>)
    requires OrdersOk(orders, users, books) && |books'| == |books|
    ensures OrdersOk(orders, users, books')
  {
  }

  /** The in-memory store: four tables (order items live in their order) and the clock that stamps rows. */
  class Database {
    var users: seq<User>
    var genres: seq<Genre>
    var books: seq<Book>
    var orders: seq<Order>
    var clock: nat

    ghost predicate Valid()
      reads this
    {
      StoreOk(users, genres, books, orders)
    }

    constructor ()
      ensures Valid()
      ensures users == [] && genres == [] && books == [] && orders == [] && clock == 0
    {
      users, genres, books, orders, clock := [], [], [], [], 0;
    }
  }
}
