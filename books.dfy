/**
 * The `/books` routes: create, the two paginated listings, lookup, partial
 * update and soft delete. Titles are unique among non-deleted books, and a
 * book may only be placed in a non-deleted genre.
 */
module Books {
  import opened Wrappers
  import opened Tables
  import opened Middleware
  import opened Sorting
  import JsText
  import Genres

  const TitleInUse := AppError("Buku dengan judul ini sudah ada", 400)
  const BookIdInvalid := AppError("Book ID tidak valid", 400)
  const BookMissing := AppError("Buku tidak ditemukan", 404)

  /** A book with its genre (`include: { genre: true }`). */
  datatype BookView = BookView(book: Book, genre: Genre)

  /** The body of `POST /books`; `price` is in cents. */
  datatype BookInput = BookInput(
    title: string, writer: string, publisher: string, publicationYear: int,
    description: Option<string>, price: int, stock: int, genreId: int)

  /** The bounds the create schema enforces. */
  predicate InputOk(b: BookInput) {
    |b.title| >= 1 && |b.writer| >= 1 && |b.publisher| >= 1
    && 1000 <= b.publicationYear <= 2025 && b.price > 0 && b.stock >= 0
  }

  /** `POST /books`: the title check comes before the genre check. */
  method CreateBook(db: Database, input: BookInput) returns (r: Outcome<BookView>)
    requires db.Valid()
    requires InputOk(input)
    modifies db
    ensures db.Valid()
    ensures db.users == old(db.users) && db.genres == old(db.genres) && db.orders == old(db.orders)
    ensures BookTitleTaken(old(db.books), input.title, None) ==> r == Fail(App(TitleInUse))
    ensures (!BookTitleTaken(old(db.books), input.title, None) && LiveGenre(old(db.genres), input.genreId).None?)
              ==> r == Fail(App(Genres.GenreMissing))
    ensures r.Fail? ==> db.books == old(db.books) && db.clock == old(db.clock)
    ensures r.Ok? <==> !BookTitleTaken(old(db.books), input.title, None) && LiveGenre(old(db.genres), input.genreId).Some?
    ensures r.Ok? ==>
      var b := Book(|old(db.books)| + 1, input.title, input.writer, input.publisher, input.publicationYear,
                    JsText.OrNull(input.description), input.price, input.stock, input.genreId, old(db.clock), None);
      && db.books == old(db.books) + [b]
      && r.value == BookView(b, db.genres[input.genreId - 1])
      && db.clock == old(db.clock) + 1
  {
    if BookTitleTaken(db.books, input.title, None) {
      return Fail(App(TitleInUse));
    }
    var genre := LiveGenre(db.genres, input.genreId);
    if genre.None? {
      return Fail(App(Genres.GenreMissing));
    }
    var b := Book(|db.books| + 1, input.title, input.writer, input.publisher, input.publicationYear,
                  JsText.OrNull(input.description), input.price, input.stock, input.genreId, db.clock, None);
    db.books := db.books + [b];
    db.clock := db.clock + 1;
    return Ok(BookView(b, genre.value));
  }

  // ---- listing ----

  /** The query string of the two listings; every parameter may be absent. */
  datatype BookQuery = BookQuery(page: Option<string>, limit: Option<string>, search: Option<string>, sortBy: Option<string>)

  /** `parseInt(q) || fallback`: a missing, non-numeric or zero parameter gives the fallback. */
  function QueryInt(q: Option<string>, fallback: int): (n: int)
    ensures fallback != 0 ==> n != 0
    ensures q.None? ==> n == fallback
    ensures q.Some? && JsText.ParseInt(q.value).None? ==> n == fallback
    ensures q.Some? && JsText.ParseInt(q.value).Some? ==>
              n == (if JsText.ParseInt(q.value).value == 0 then fallback else JsText.ParseInt(q.value).value)
  {
    if q.None? then fallback
    else
      match JsText.ParseInt(q.value)
      case None => fallback
      case Some(v) => if v == 0 then fallback else v
  }

  /** A number written out in decimal is read back as given. */
  lemma QueryIntOfNumber(n: int, fallback: int)
    requires n != 0
    ensures QueryInt(Some(JsText.IntToString(n)), fallback) == n
  {
    JsText.ParseIntOfIntToString(n, []);
    assert JsText.IntToString(n) + [] == JsText.IntToString(n);
  }

  datatype SortKey = ByTitle | ByYear | ByPrice | ByCreated

  /** `sortBy || 'created_at'`, then the `orderBy` chain; anything unknown sorts by creation. */
  function SortKeyOf(sortBy: Option<string>): (k: SortKey)
    ensures k == ByTitle <==> sortBy == Some("title")
    ensures k == ByYear <==> sortBy == Some("publication_year")
    ensures k == ByPrice <==> sortBy == Some("price")
  {
    var s := if sortBy.Some? && sortBy.value != "" then sortBy.value else "created_at";
    if s == "title" then ByTitle
    else if s == "publication_year" then ByYear
    else if s == "price" then ByPrice
    else ByCreated
  }

  /** Lexicographic order on code points: the store's ascending text order. */
  predicate LexLe(a: string, b: string) {
    a == [] || (b != [] && (a[0] < b[0] || (a[0] == b[0] && LexLe(a[1..], b[1..]))))
  }

  lemma {:induction false} LexLeTotal(a: string, b: string)
    ensures LexLe(a, b) || LexLe(b, a)
  {
    if a != [] && b != [] && a[0] == b[0] {
      LexLeTotal(a[1..], b[1..]);
    }
  }

  lemma {:induction false} LexLeTrans(a: string, b: string, c: string)
    requires LexLe(a, b) && LexLe(b, c)
    ensures LexLe(a, c)
  {
    if a != [] && b != [] && c != [] && a[0] == b[0] && b[0] == c[0] {
      LexLeTrans(a[1..], b[1..], c[1..]);
    }
  }

  /** `le(a, b)`: `a` may be listed before `b`. */
  function BookOrder(key: SortKey): (Book, Book) -> bool {
    match key
    case ByTitle => (a: Book, b: Book) => LexLe(a.title, b.title)
    case ByYear => (a: Book, b: Book) => a.publicationYear >= b.publicationYear
    case ByPrice => (a: Book, b: Book) => a.price <= b.price
    case ByCreated => (a: Book, b: Book) => a.createdAt >= b.createdAt
  }

  lemma BookOrderIsPreorder(key: SortKey)
    ensures TotalPreorder(BookOrder(key))
  {
    if key == ByTitle {
      var le := BookOrder(key);
      forall x: Book, y: Book ensures le(x, y) || le(y, x) {
        LexLeTotal(x.title, y.title);
      }
      forall x: Book, y: Book, z: Book | le(x, y) && le(y, z) ensures le(x, z) {
        LexLeTrans(x.title, y.title, z.title);
      }
    }
  }

  /** The `where` of a listing: not deleted, in the genre if one is given, and matching the search if it is non-empty. */
  predicate Matches(b: Book, genre: Option<int>, search: string) {
    && b.IsLive()
    && (genre.None? || b.genreId == genre.value)
    && (search == "" || JsText.ContainsInsensitive(b.title, search) || JsText.ContainsInsensitive(b.writer, search))
  }

  function Matching(books: seq<Book>, genre: Option<int>, search: string): (r: seq<Book>)
    ensures forall b :: b in r <==> b in books && Matches(b, genre, search)
    ensures |r| <= |books|
  {
    if books == [] then []
    else
      assert forall b :: b in books <==> b == books[0] || b in books[1..];
      (if Matches(books[0], genre, search) then [books[0]] else []) + Matching(books[1..], genre, search)
  }

  /** `skip` then `take` on a list. */
  function Window<T>(s: seq<T>, skip: nat, take: nat): (r: seq<T>)
    ensures |r| == if skip >= |s| then 0 else if take <= |s| - skip then take else |s| - skip
    ensures forall i :: 0 <= i < |r| ==> r[i] == s[skip + i]
  {
    if skip >= |s| then []
    else if take <= |s| - skip then s[skip..skip + take]
    else s[skip..]
  }

  /** `Math.ceil(n / d)` for a positive `d`. */
  function CeilDiv(n: nat, d: int): (r: nat)
    requires d > 0
    ensures n <= r * d
    ensures r == 0 || (r - 1) * d < n
    decreases n
  {
    if n == 0 then 0
    else
      var r' := CeilDiv(if n > d then n - d else 0, d);
      assert (r' + 1) * d == r' * d + d;
      r' + 1
  }

  /** The same window counted from the end of the list, in the list's own order. */
  function WindowFromEnd<T>(s: seq<T>, skip: nat, take: nat): (r: seq<T>)
    ensures |r| == |Window(s, skip, take)|
    ensures forall i :: 0 <= i < |r| ==> r[i] == s[|s| - skip - |r| + i]
  {
    if skip >= |s| then []
    else if take <= |s| - skip then s[|s| - skip - take..|s| - skip]
    else s[..|s| - skip]
  }

  function Reverse<T>(s: seq<T>): (r: seq<T>)
    ensures |r| == |s|
    ensures forall i :: 0 <= i < |s| ==> r[i] == s[|s| - 1 - i]
  {
    if s == [] then [] else Reverse(s[1..]) + [s[0]]
  }

  /**
   * A negative `take` makes the store read the list backwards, skip and take
   * there, and hand the rows back in the list's order.
   */
  lemma WindowFromEndReadsBackwards<T>(s: seq<T>, skip: nat, take: nat)
    ensures WindowFromEnd(s, skip, take) == Reverse(Window(Reverse(s), skip, take))
  {
    var rs := Reverse(s);
    var w := Window(rs, skip, take);
    var r := WindowFromEnd(s, skip, take);
    assert |r| == |w|;
    forall i | 0 <= i < |r| ensures r[i] == Reverse(w)[i] {
      var j := |w| - 1 - i;
      assert Reverse(w)[i] == w[j];
      assert w[j] == rs[skip + j];
      assert rs[skip + j] == s[|s| - 1 - (skip + j)];
    }
    assert r == Reverse(w);
  }

  /** `skip` and `take` as the store reads them, `take` being non-zero. */
  function StoreWindow<T>(s: seq<T>, skip: nat, take: int): (r: seq<T>)
    requires take != 0
    ensures |r| <= if take > 0 then take else -take
    ensures forall i :: 0 <= i < |r| ==> r[i] in s
  {
    if take > 0 then Window(s, skip, take) else WindowFromEnd(s, skip, -take)
  }

  /** A window read either way of a sorted list is sorted. */
  lemma StoreWindowSorted<T>(s: seq<T>, skip: nat, take: int, le: (T, T) -> bool)
    requires take != 0 && Sorted(s, le)
    ensures Sorted(StoreWindow(s, skip, take), le)
  {
    var w := StoreWindow(s, skip, take);
    if take > 0 {
      WindowSorted(s, skip, take, le);
    } else {
      forall i, j | 0 <= i < j < |w| ensures le(w[i], w[j]) {
        assert w[i] == s[|s| - skip - |w| + i] && w[j] == s[|s| - skip - |w| + j];
      }
    }
  }

  /** `Math.ceil(total / limit)` for a non-zero `limit`; `-0` is sent as `0`. */
  function TotalPages(total: nat, limit: int): (r: int)
    requires limit != 0
    ensures limit > 0 ==> r == CeilDiv(total, limit)
    ensures limit < 0 ==> r <= 0 && r * limit <= total < (r - 1) * limit
  {
    if limit > 0 then CeilDiv(total, limit)
    else
      var d := -limit;
      DivMod(total, d);
      var q := total / d;
      assert -q * limit == q * d;
      assert (-q - 1) * limit == q * d + d;
      -q
  }

  datatype Paging = Paging(page: int, limit: int, skip: int)

  /** `page`, `limit` and `skip = (page - 1) * limit` of a query. */
  function PagingOf(q: BookQuery): (p: Paging)
    ensures p.page == QueryInt(q.page, 1) && p.limit == QueryInt(q.limit, 10)
    ensures p.skip == (p.page - 1) * p.limit
  {
    var page := QueryInt(q.page, 1);
    var limit := QueryInt(q.limit, 10);
    Paging(page, limit, (page - 1) * limit)
  }

  /** The `search` parameter, `''` when absent. */
  function SearchOf(q: BookQuery): string {
    if q.search.Some? then q.search.value else ""
  }

  /** Every matching book, in the order of the query's sort key. */
  function Ranked(books: seq<Book>, genre: Option<int>, q: BookQuery): (r: seq<Book>)
    ensures multiset(r) == multiset(Matching(books, genre, SearchOf(q)))
    ensures |r| == |Matching(books, genre, SearchOf(q))|
    ensures forall i :: 0 <= i < |r| ==> r[i] in books && Matches(r[i], genre, SearchOf(q))
  {
    var key := SortKeyOf(q.sortBy);
    var m := Matching(books, genre, SearchOf(q));
    var r := Sort(m, BookOrder(key));
    assert forall i :: 0 <= i < |r| ==> r[i] in multiset(r);
    assert |multiset(r)| == |r| && |multiset(m)| == |m|;
    r
  }

  /** The matching books are in the order of the query's sort key. */
  lemma RankedSorted(books: seq<Book>, genre: Option<int>, q: BookQuery)
    ensures Sorted(Ranked(books, genre, q), BookOrder(SortKeyOf(q.sortBy)))
  {
    BookOrderIsPreorder(SortKeyOf(q.sortBy));
    SortSorted(Matching(books, genre, SearchOf(q)), BookOrder(SortKeyOf(q.sortBy)));
  }

  /** Each listed book with its genre. */
  function ViewsOf(w: seq<Book>, genres: seq<Genre>): (r: seq<BookView>)
    requires forall i :: 0 <= i < |w| ==> 1 <= w[i].genreId <= |genres|
    ensures |r| == |w|
    ensures forall i :: 0 <= i < |w| ==> r[i] == BookView(w[i], genres[w[i].genreId - 1])
  {
    if w == [] then [] else [BookView(w[0], genres[w[0].genreId - 1])] + ViewsOf(w[1..], genres)
  }

  datatype Pagination = Pagination(page: int, limit: int, total: nat, totalPages: int)
  datatype BookPage = BookPage(data: seq<BookView>, pagination: Pagination)

  /**
   * The body shared by `GET /books` and `GET /books/genre/:genre_id`. The
   * store refuses a negative `skip` and reads a negative `take` from the end.
   */
  function ListIn(books: seq<Book>, genres: seq<Genre>, genre: Option<int>, q: BookQuery): (r: Outcome<BookPage>)
    requires GenreRefsOk(books, genres)
    ensures var p := PagingOf(q);
      && (r.Fail? <==> p.skip < 0)
      && (r.Fail? ==> r == Fail(StoreValidationError))
      && (r.Ok? ==>
            var w := StoreWindow(Ranked(books, genre, q), p.skip, p.limit);
            var total := |Matching(books, genre, SearchOf(q))|;
            && r.value.pagination == Pagination(p.page, p.limit, total, TotalPages(total, p.limit))
            && |r.value.data| == |w|
            && (forall i :: 0 <= i < |w| ==> w[i] in books && 1 <= w[i].genreId <= |genres|)
            && (forall i :: 0 <= i < |w| ==> r.value.data[i] == BookView(w[i], genres[w[i].genreId - 1])))
  {
    var all := Ranked(books, genre, q);
    assert forall i :: 0 <= i < |all| ==> 1 <= all[i].genreId <= |genres|;
    Page(all, |Matching(books, genre, SearchOf(q))|, genres, PagingOf(q))
  }

  /** One page of `all`, whose length before paging is `total`. */
  function Page(all: seq<Book>, total: nat, genres: seq<Genre>, p: Paging): (r: Outcome<BookPage>)
    requires forall i :: 0 <= i < |all| ==> 1 <= all[i].genreId <= |genres|
    requires p.limit != 0
    ensures r.Fail? <==> p.skip < 0
    ensures r.Fail? ==> r == Fail(StoreValidationError)
    ensures r.Ok? ==>
      var w := StoreWindow(all, p.skip, p.limit);
      && r.value.pagination == Pagination(p.page, p.limit, total, TotalPages(total, p.limit))
      && |r.value.data| == |w|
      && (forall i :: 0 <= i < |w| ==> w[i] in all && 1 <= w[i].genreId <= |genres|)
      && (forall i :: 0 <= i < |w| ==> r.value.data[i] == BookView(w[i], genres[w[i].genreId - 1]))
  {
    if p.skip < 0 then Fail(StoreValidationError)
    else
      var w := StoreWindow(all, p.skip, p.limit);
      Ok(BookPage(ViewsOf(w, genres), Pagination(p.page, p.limit, total, TotalPages(total, p.limit))))
  }

  /** Every listed book is in the table and passes the listing's filter. */
  lemma ListedMatch(books: seq<Book>, genres: seq<Genre>, genre: Option<int>, q: BookQuery)
    requires GenreRefsOk(books, genres)
    requires ListIn(books, genres, genre, q).Ok?
    ensures var data := ListIn(books, genres, genre, q).value.data;
      forall i :: 0 <= i < |data| ==> data[i].book in books && Matches(data[i].book, genre, SearchOf(q))
  {
    var p := PagingOf(q);
    var all := Ranked(books, genre, q);
    var data := ListIn(books, genres, genre, q).value.data;
    var w := StoreWindow(all, p.skip, p.limit);
    forall i | 0 <= i < |data| ensures data[i].book in books && Matches(data[i].book, genre, SearchOf(q)) {
      assert data[i].book == w[i];
      var j :| 0 <= j < |all| && all[j] == w[i];
    }
  }

  /** A window of a sorted list is sorted. */
  lemma WindowSorted<T>(s: seq<T>, skip: nat, take: nat, le: (T, T) -> bool)
    requires Sorted(s, le)
    ensures Sorted(Window(s, skip, take), le)
  {
    var w := Window(s, skip, take);
    forall i, j | 0 <= i < j < |w| ensures le(w[i], w[j]) {
      assert w[i] == s[skip + i] && w[j] == s[skip + j];
    }
  }

  /** A page is in the order the `sortBy` parameter asks for. */
  lemma ListedInOrder(books: seq<Book>, genres: seq<Genre>, genre: Option<int>, q: BookQuery)
    requires GenreRefsOk(books, genres)
    requires ListIn(books, genres, genre, q).Ok?
    ensures var data := ListIn(books, genres, genre, q).value.data;
      forall i, j :: 0 <= i < j < |data| ==> BookOrder(SortKeyOf(q.sortBy))(data[i].book, data[j].book)
  {
    var p := PagingOf(q);
    assert p.skip >= 0;
    var le := BookOrder(SortKeyOf(q.sortBy));
    var w := StoreWindow(Ranked(books, genre, q), p.skip, p.limit);
    RankedSorted(books, genre, q);
    StoreWindowSorted(Ranked(books, genre, q), p.skip, p.limit, le);
    var data := ListIn(books, genres, genre, q).value.data;
    assert |data| == |w|;
    forall i, j | 0 <= i < j < |data| ensures le(data[i].book, data[j].book) {
      assert data[i].book == w[i] && data[j].book == w[j];
    }
  }

  /** `GET /books`. */
  function ListBooks(books: seq<Book>, genres: seq<Genre>, q: BookQuery): (r: Outcome<BookPage>)
    requires GenreRefsOk(books, genres)
    ensures r == ListIn(books, genres, None, q)
  {
    ListIn(books, genres, None, q)
  }

  /** `GET /books/genre/:genre_id`: the id is parsed first, the genre must not be deleted. */
  function ListBooksByGenre(books: seq<Book>, genres: seq<Genre>, idText: string, q: BookQuery): (r: Outcome<BookPage>)
    requires GenreRefsOk(books, genres)
    ensures JsText.ParseInt(idText).None? ==> r == Fail(App(Genres.GenreIdInvalid))
    ensures JsText.ParseInt(idText).Some? ==>
      var id := JsText.ParseInt(idText).value;
      && (LiveGenre(genres, id).None? ==> r == Fail(App(Genres.GenreMissing)))
      && (LiveGenre(genres, id).Some? ==> r == ListIn(books, genres, Some(id), q))
  {
    match JsText.ParseInt(idText)
    case None => Fail(App(Genres.GenreIdInvalid))
    case Some(id) =>
      if LiveGenre(genres, id).None? then Fail(App(Genres.GenreMissing))
      else ListIn(books, genres, Some(id), q)
  }

  lemma DivMod(k: int, d: int)
    requires d > 0 && k >= 0
    ensures (k / d) * d + k % d == k
    ensures 0 <= k % d < d
  {
  }

  lemma MulMono(p: int, t: int, d: int)
    requires d > 0 && p >= t
    ensures p * d >= t * d
  {
  }

  /** With a positive `limit`, rank `k` is item `k % limit` of page `k / limit + 1`, within `totalPages`. */
  lemma WindowHoldsRank<T>(s: seq<T>, limit: int, k: int)
    requires limit > 0 && 0 <= k < |s|
    ensures 0 <= k / limit && 0 <= (k / limit) * limit
    ensures (k / limit) * limit + k % limit == k
    ensures k % limit < |Window(s, (k / limit) * limit, limit)|
    ensures Window(s, (k / limit) * limit, limit)[k % limit] == s[k]
    ensures k / limit < CeilDiv(|s|, limit)
  {
    var page, rem := k / limit, k % limit;
    DivMod(k, limit);
    MulMono(page, 0, limit);
    var skip := page * limit;
    assert skip <= k;
    var w := Window(s, skip, limit);
    assert rem < |w|;
    var t := CeilDiv(|s|, limit);
    if page >= t {
      MulMono(page, t, limit);
      assert false;
    }
  }

  /** A query that spells out page `page` of `limit` books skips the pages before it. */
  lemma PagingOfNumbers(q: BookQuery, page: int, limit: int)
    requires page >= 1 && limit > 0
    requires q.page == Some(JsText.IntToString(page)) && q.limit == Some(JsText.IntToString(limit))
    ensures PagingOf(q) == Paging(page, limit, (page - 1) * limit)
  {
    QueryIntOfNumber(page, 1);
    QueryIntOfNumber(limit, 10);
  }

  /** The pages of a listing partition its ranking. */
  lemma PageHoldsRank(books: seq<Book>, genres: seq<Genre>, genre: Option<int>, q: BookQuery, limit: int, k: int)
    requires GenreRefsOk(books, genres)
    requires limit > 0
    requires 0 <= k < |Ranked(books, genre, q)|
    requires q.page == Some(JsText.IntToString(k / limit + 1)) && q.limit == Some(JsText.IntToString(limit))
    ensures var r := ListIn(books, genres, genre, q);
      && r.Ok?
      && k % limit < |r.value.data|
      && r.value.data[k % limit].book == Ranked(books, genre, q)[k]
      && k / limit + 1 <= r.value.pagination.totalPages
  {
    var all := Ranked(books, genre, q);
    WindowHoldsRank(all, limit, k);
    PagingOfNumbers(q, k / limit + 1, limit);
    var p := PagingOf(q);
    var w := Window(all, p.skip, p.limit);
    var r := ListIn(books, genres, genre, q);
    assert r.Ok?;
    assert r.value.data[k % limit].book == w[k % limit];
  }

  /** `GET /books/:book_id`: the genre is shown even when it has been deleted since. */
  function GetBook(books: seq<Book>, genres: seq<Genre>, idText: string): (r: Outcome<BookView>)
    requires GenreRefsOk(books, genres)
    ensures JsText.ParseInt(idText).None? ==> r == Fail(App(BookIdInvalid))
    ensures JsText.ParseInt(idText).Some? ==>
      var id := JsText.ParseInt(idText).value;
      && (r.Ok? <==> LiveBook(books, id).Some?)
      && (r.Fail? ==> r == Fail(App(BookMissing)))
      && (r.Ok? ==> r.value.book == books[id - 1] && r.value.genre == genres[books[id - 1].genreId - 1])
  {
    match JsText.ParseInt(idText)
    case None => Fail(App(BookIdInvalid))
    case Some(id) =>
      match LiveBook(books, id)
      case None => Fail(App(BookMissing))
      case Some(b) => Ok(BookView(b, genres[b.genreId - 1]))
  }

  // ---- partial update ----

  /** The body of `PATCH /books/:book_id`: each field may be absent. */
  datatype BookPatch = BookPatch(
    title: Option<string>, writer: Option<string>, publisher: Option<string>, publicationYear: Option<int>,
    description: Option<string>, price: Option<int>, stock: Option<int>, genreId: Option<int>)

  /** The bounds the update schema enforces on the fields that are present. */
  predicate PatchOk(p: BookPatch) {
    && (p.title.Some? ==> |p.title.value| >= 1)
    && (p.writer.Some? ==> |p.writer.value| >= 1)
    && (p.publisher.Some? ==> |p.publisher.value| >= 1)
    && (p.publicationYear.Some? ==> 1000 <= p.publicationYear.value <= 2025)
    && (p.price.Some? ==> p.price.value > 0)
    && (p.stock.Some? ==> p.stock.value >= 0)
  }

  /** Absent fields are left alone; a present description is stored as given, even empty. */
  function Patched(b: Book, p: BookPatch): (r: Book)
    ensures r.id == b.id && r.createdAt == b.createdAt && r.deletedAt == b.deletedAt
    ensures r.title == (if p.title.Some? then p.title.value else b.title)
    ensures r.writer == (if p.writer.Some? then p.writer.value else b.writer)
    ensures r.publisher == (if p.publisher.Some? then p.publisher.value else b.publisher)
    ensures r.publicationYear == (if p.publicationYear.Some? then p.publicationYear.value else b.publicationYear)
    ensures r.description == (if p.description.Some? then p.description else b.description)
    ensures r.price == (if p.price.Some? then p.price.value else b.price)
    ensures r.stock == (if p.stock.Some? then p.stock.value else b.stock)
    ensures r.genreId == (if p.genreId.Some? then p.genreId.value else b.genreId)
  {
    b.(title := if p.title.Some? then p.title.value else b.title,
       writer := if p.writer.Some? then p.writer.value else b.writer,
       publisher := if p.publisher.Some? then p.publisher.value else b.publisher,
       publicationYear := if p.publicationYear.Some? then p.publicationYear.value else b.publicationYear,
       description := if p.description.Some? then p.description else b.description,
       price := if p.price.Some? then p.price.value else b.price,
       stock := if p.stock.Some? then p.stock.value else b.stock,
       genreId := if p.genreId.Some? then p.genreId.value else b.genreId)
  }

  /** An empty patch changes nothing. */
  lemma EmptyPatchIsIdentity(b: Book)
    ensures Patched(b, BookPatch(None, None, None, None, None, None, None, None)) == b
  {
  }

  /**
   * The checks of `PATCH /books/:book_id` on a parsed id, in order. The
   * duplicate-title check runs only when the title changes; the genre check
   * runs only for a truthy `genre_id`, so a `genre_id` of 0 reaches the update
   * and the store rejects the foreign key.
   */
  function PatchVerdict(books: seq<Book>, genres: seq<Genre>, id: int, p: BookPatch): (r: Outcome<Book>)
    ensures LiveBook(books, id).None? ==> r == Fail(App(BookMissing))
    ensures LiveBook(books, id).Some? ==>
      var titleClash := p.title.Some? && p.title.value != books[id - 1].title
                        && BookTitleTaken(books, p.title.value, Some(id));
      var genreBad := p.genreId.Some? && p.genreId.value != 0 && LiveGenre(genres, p.genreId.value).None?;
      && (titleClash ==> r == Fail(App(TitleInUse)))
      && (!titleClash && genreBad ==> r == Fail(App(Genres.GenreMissing)))
      && (!titleClash && !genreBad && p.genreId == Some(0) ==> r == Fail(StoreConstraintError))
      && (r.Ok? <==> !titleClash && !genreBad && (p.genreId != Some(0)) && 1 <= Patched(books[id - 1], p).genreId <= |genres|)
      && (r.Ok? ==> r.value == Patched(books[id - 1], p))
  {
    match LiveBook(books, id)
    case None => Fail(App(BookMissing))
    case Some(existing) =>
      if p.title.Some? && p.title.value != existing.title && BookTitleTaken(books, p.title.value, Some(id)) then
        Fail(App(TitleInUse))
      else if p.genreId.Some? && p.genreId.value != 0 && LiveGenre(genres, p.genreId.value).None? then
        Fail(App(Genres.GenreMissing))
      else
        var b := Patched(existing, p);
        if !(1 <= b.genreId <= |genres|) then Fail(StoreConstraintError) else Ok(b)
  }

  /** In a consistent store a patch that passes the checks always names a valid genre. */
  lemma PatchVerdictGenre(books: seq<Book>, genres: seq<Genre>, id: int, p: BookPatch)
    requires BooksOk(books, genres)
    requires LiveBook(books, id).Some?
    requires p.genreId != Some(0)
    requires !(p.genreId.Some? && LiveGenre(genres, p.genreId.value).None?)
    ensures 1 <= Patched(books[id - 1], p).genreId <= |genres|
  {
  }

  /** `PATCH /books/:book_id`: the checks above, then the row is rewritten in place. */
  method PatchBook(db: Database, idText: string, p: BookPatch) returns (r: Outcome<BookView>)
    requires db.Valid()
    requires PatchOk(p)
    modifies db
    ensures db.Valid()
    ensures db.users == old(db.users) && db.genres == old(db.genres) && db.orders == old(db.orders)
    ensures db.clock == old(db.clock)
    ensures r.Fail? ==> db.books == old(db.books)
    ensures JsText.ParseInt(idText).None? ==> r == Fail(App(BookIdInvalid))
    ensures JsText.ParseInt(idText).Some? ==>
      var v := PatchVerdict(old(db.books), old(db.genres), JsText.ParseInt(idText).value, p);
      && (v.Fail? ==> r == Fail(v.thrown))
      && (v.Ok? ==> r.Ok? && r.value == BookView(v.value, old(db.genres)[v.value.genreId - 1])
                    && db.books == old(db.books)[JsText.ParseInt(idText).value - 1 := v.value])
  {
    var parsed := JsText.ParseInt(idText);
    if parsed.None? {
      return Fail(App(BookIdInvalid));
    }
    var id := parsed.value;
    var v := PatchVerdict(db.books, db.genres, id, p);
    if v.Fail? {
      return Fail(v.thrown);
    }
    var b := v.value;
    VerdictKeepsStore(db.users, db.genres, db.books, db.orders, id, p);
    RewriteBook(db, id - 1, b);
    return Ok(BookView(b, db.genres[b.genreId - 1]));
  }

  /** The `update` of one book row. */
  method RewriteBook(db: Database, i: int, b: Book)
    requires 0 <= i < |db.books|
    requires StoreOk(db.users, db.genres, db.books[i := b], db.orders)
    modifies db
    ensures db.Valid()
    ensures db.users == old(db.users) && db.genres == old(db.genres) && db.orders == old(db.orders)
    ensures db.clock == old(db.clock)
    ensures db.books == old(db.books)[i := b]
  {
    db.books := db.books[i := b];
  }

  /** Writing the row a patch's checks accepted keeps the whole store consistent. */
  lemma VerdictKeepsStore(users: seq<User>, genres: seq<Genre>, books: seq<Book>, orders: seq<Order>, id: int, p: BookPatch)
    requires StoreOk(users, genres, books, orders)
    requires PatchOk(p)
    requires PatchVerdict(books, genres, id, p).Ok?
    ensures 1 <= id <= |books|
    ensures StoreOk(users, genres, books[id - 1 := PatchVerdict(books, genres, id, p).value], orders)
  {
    var b := PatchVerdict(books, genres, id, p).value;
    PatchKeepsBooksOk(books, genres, id - 1, b);
    OrdersOkOverSameSize(orders, users, books, books[id - 1 := b]);
  }

  /** Replacing a row by one with the same id, a valid genre and no clashing title keeps the table consistent. */
  lemma PatchKeepsBooksOk(books: seq<Book>, genres: seq<Genre>, i: int, b: Book)
    requires BooksOk(books, genres) && 0 <= i < |books|
    requires b.id == books[i].id && b.deletedAt == books[i].deletedAt
    requires 1 <= b.genreId <= |genres| && b.stock >= 0 && b.price > 0
    requires b.title == books[i].title || !BookTitleTaken(books, b.title, Some(b.id))
    ensures BooksOk(books[i := b], genres)
  {
    var books' := books[i := b];
    forall j, k | 0 <= j < k < |books'| && books'[j].IsLive() && books'[k].IsLive()
      ensures books'[j].title != books'[k].title
    {
      if j == i || k == i {
        var o := if j == i then k else j;
        assert books'[o] == books[o] && books[o].id == o + 1;
        if b.title != books[i].title && books[o].IsLive() && books[o].title == b.title {
          assert false;
        }
      }
    }
  }

  /** `DELETE /books/:book_id`: stamps `deletedAt`, keeps the row and its order items. */
  method DeleteBook(db: Database, idText: string) returns (r: Outcome<()>)
    requires db.Valid()
    modifies db
    ensures db.Valid()
    ensures db.users == old(db.users) && db.genres == old(db.genres) && db.orders == old(db.orders)
    ensures JsText.ParseInt(idText).None? ==> r == Fail(App(BookIdInvalid))
    ensures JsText.ParseInt(idText).Some? ==>
      var id := JsText.ParseInt(idText).value;
      && (LiveBook(old(db.books), id).None? ==> r == Fail(App(BookMissing)))
      && (LiveBook(old(db.books), id).Some? ==>
            r.Ok? && db.books == old(db.books)[id - 1 := old(db.books)[id - 1].(deletedAt := Some(old(db.clock)))])
    ensures r.Fail? ==> db.books == old(db.books) && db.clock == old(db.clock)
    ensures r.Ok? ==> db.clock == old(db.clock) + 1
  {
    var parsed := JsText.ParseInt(idText);
    if parsed.None? {
      return Fail(App(BookIdInvalid));
    }
    var id := parsed.value;
    if LiveBook(db.books, id).None? {
      return Fail(App(BookMissing));
    }
    var books := db.books[id - 1 := db.books[id - 1].(deletedAt := Some(db.clock))];
    SoftDeleteKeepsBooksOk(db.books, db.genres, id - 1, db.clock);
    OrdersOkOverSameSize(db.orders, db.users, db.books, books);
    db.books := books;
    db.clock := db.clock + 1;
    return Ok(());
  }

  /** Deleting a book keeps ids, genres and stock, and cannot make two live titles clash. */
  lemma SoftDeleteKeepsBooksOk(books: seq<Book>, genres: seq<Genre>, i: int, t: nat)
    requires BooksOk(books, genres) && 0 <= i < |books|
    ensures BooksOk(books[i := books[i].(deletedAt := Some(t))], genres)
  {
  }

  /** A deleted book is not found by id and is in no listing. */
  lemma DeletedBookIsHidden(books: seq<Book>, genres: seq<Genre>, id: int, genre: Option<int>, q: BookQuery)
    requires GenreRefsOk(books, genres)
    requires 1 <= id <= |books| && !books[id - 1].IsLive()
    ensures GetBook(books, genres, JsText.IntToString(id)) == Fail(App(BookMissing))
    ensures ListIn(books, genres, genre, q).Ok? ==>
              forall v :: v in ListIn(books, genres, genre, q).value.data ==> v.book.IsLive()
  {
    if ListIn(books, genres, genre, q).Ok? {
      ListedMatch(books, genres, genre, q);
    }
    JsText.ParseIntOfIntToString(id, []);
    assert JsText.IntToString(id) + [] == JsText.IntToString(id);
  }
}
