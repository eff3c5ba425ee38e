/**
 * The `/genre` routes. Names are unique among non-deleted genres only, a
 * delete is soft, and every lookup by id ignores deleted rows.
 */
module Genres {
  import opened Wrappers
  import opened Tables
  import opened Middleware
  import opened Sorting
  import JsText

  const GenreNameInUse := AppError("Genre dengan nama ini sudah ada", 400)
  const GenreIdInvalid := AppError("Genre ID tidak valid", 400)
  const GenreMissing := AppError("Genre tidak ditemukan", 404)

  /** A genre with `_count.books`. */
  datatype GenreView = GenreView(genre: Genre, bookCount: nat)

  /** `POST /genre`, after the body has passed its schema. */
  method CreateGenre(db: Database, name: string) returns (r: Outcome<Genre>)
    requires db.Valid()
    requires |name| >= 1
    modifies db
    ensures db.Valid()
    ensures db.users == old(db.users) && db.books == old(db.books) && db.orders == old(db.orders)
    ensures r.Fail? <==> GenreNameTaken(old(db.genres), name, None)
    ensures r.Fail? ==> r == Fail(App(GenreNameInUse)) && db.genres == old(db.genres) && db.clock == old(db.clock)
    ensures r.Ok? ==>
      && r.value == Genre(|old(db.genres)| + 1, name, old(db.clock), None)
      && db.genres == old(db.genres) + [r.value]
      && db.clock == old(db.clock) + 1
  {
    if GenreNameTaken(db.genres, name, None) {
      return Fail(App(GenreNameInUse));
    }
    var g := Genre(|db.genres| + 1, name, db.clock, None);
    db.genres := db.genres + [g];
    db.clock := db.clock + 1;
    return Ok(g);
  }

  /** The name of a soft-deleted genre may be taken again. */
  lemma DeletedNameIsFree(genres: seq<Genre>, name: string)
    requires forall i :: 0 <= i < |genres| && genres[i].name == name ==> !genres[i].IsLive()
    ensures !GenreNameTaken(genres, name, None)
  {
  }

  /** Non-deleted genres, in table order. */
  function LiveGenres(genres: seq<Genre>): (r: seq<Genre>)
    ensures forall g :: g in r <==> g in genres && g.IsLive()
  {
    if genres == [] then []
    else
      assert forall g :: g in genres <==> g == genres[0] || g in genres[1..];
      (if genres[0].IsLive() then [genres[0]] else []) + LiveGenres(genres[1..])
  }

  /** `orderBy: { created_at: 'desc' }`. */
  predicate NewerFirst(a: GenreView, b: GenreView) {
    a.genre.createdAt >= b.genre.createdAt
  }

  lemma NewerFirstIsPreorder()
    ensures TotalPreorder(NewerFirst)
  {
  }

  /** Each genre paired with its `_count.books`, in the same order. */
  function WithCounts(gs: seq<Genre>, books: seq<Book>): (r: seq<GenreView>)
    ensures |r| == |gs|
    ensures forall v :: v in r <==> v.genre in gs && v.bookCount == BooksInGenre(books, v.genre.id)
  {
    if gs == [] then []
    else
      assert forall g :: g in gs <==> g == gs[0] || g in gs[1..];
      [GenreView(gs[0], BooksInGenre(books, gs[0].id))] + WithCounts(gs[1..], books)
  }

  /**
   * `GET /genre`: every non-deleted genre with its book count, newest first;
   * each live row appears once, with the count `WithCounts` gives it.
   */
  function ListGenres(genres: seq<Genre>, books: seq<Book>): (r: seq<GenreView>)
    ensures forall v :: v in r <==> v.genre in genres && v.genre.IsLive() && v.bookCount == BooksInGenre(books, v.genre.id)
    ensures |r| == |LiveGenres(genres)|
    ensures multiset(r) == multiset(WithCounts(LiveGenres(genres), books))
    ensures Sorted(r, NewerFirst)
  {
    var views := WithCounts(LiveGenres(genres), books);
    NewerFirstIsPreorder();
    SortSorted(views, NewerFirst);
    var r := Sort(views, NewerFirst);
    SortKeepsMembers(views, NewerFirst);
    assert forall v :: v in r <==> v in multiset(r);
    assert forall v :: v in views <==> v in multiset(views);
    r
  }

  /** `GET /genre/:genre_id`. */
  function GetGenre(genres: seq<Genre>, books: seq<Book>, idText: string): (r: Outcome<GenreView>)
    ensures JsText.ParseInt(idText).None? ==> r == Fail(App(GenreIdInvalid))
    ensures JsText.ParseInt(idText).Some? ==>
      var id := JsText.ParseInt(idText).value;
      && (r.Ok? <==> LiveGenre(genres, id).Some?)
      && (r.Fail? ==> r == Fail(App(GenreMissing)))
      && (r.Ok? ==> r.value == GenreView(genres[id - 1], BooksInGenre(books, id)))
  {
    match JsText.ParseInt(idText)
    case None => Fail(App(GenreIdInvalid))
    case Some(id) =>
      match LiveGenre(genres, id)
      case None => Fail(App(GenreMissing))
      case Some(g) => Ok(GenreView(g, BooksInGenre(books, id)))
  }

  /** `PATCH /genre/:genre_id`: existence first, then the duplicate check. */
  method PatchGenre(db: Database, idText: string, name: string) returns (r: Outcome<Genre>)
    requires db.Valid()
    requires |name| >= 1
    modifies db
    ensures db.Valid()
    ensures db.users == old(db.users) && db.books == old(db.books) && db.orders == old(db.orders)
    ensures db.clock == old(db.clock)
    ensures JsText.ParseInt(idText).None? ==> r == Fail(App(GenreIdInvalid))
    ensures JsText.ParseInt(idText).Some? ==>
      var id := JsText.ParseInt(idText).value;
      && (LiveGenre(old(db.genres), id).None? ==> r == Fail(App(GenreMissing)))
      && ((LiveGenre(old(db.genres), id).Some? && GenreNameTaken(old(db.genres), name, Some(id)))
            ==> r == Fail(App(GenreNameInUse)))
      && ((LiveGenre(old(db.genres), id).Some? && !GenreNameTaken(old(db.genres), name, Some(id)))
            ==> r.Ok? && r.value == old(db.genres)[id - 1].(name := name)
                && db.genres == old(db.genres)[id - 1 := r.value])
    ensures r.Fail? ==> db.genres == old(db.genres)
  {
    var parsed := JsText.ParseInt(idText);
    if parsed.None? {
      return Fail(App(GenreIdInvalid));
    }
    var id := parsed.value;
    if LiveGenre(db.genres, id).None? {
      return Fail(App(GenreMissing));
    }
    if GenreNameTaken(db.genres, name, Some(id)) {
      return Fail(App(GenreNameInUse));
    }
    var g := db.genres[id - 1].(name := name);
    db.genres := db.genres[id - 1 := g];
    return Ok(g);
  }

  /** Renaming a genre to the name it already has is never a duplicate. */
  lemma RenameToSameName(genres: seq<Genre>, id: int)
    requires GenresOk(genres)
    requires LiveGenre(genres, id).Some?
    ensures !GenreNameTaken(genres, genres[id - 1].name, Some(id))
  {
  }

  /** `DELETE /genre/:genre_id`: stamps `deletedAt`, keeps the row. */
  method DeleteGenre(db: Database, idText: string) returns (r: Outcome<()>)
    requires db.Valid()
    modifies db
    ensures db.Valid()
    ensures db.users == old(db.users) && db.books == old(db.books) && db.orders == old(db.orders)
    ensures JsText.ParseInt(idText).None? ==> r == Fail(App(GenreIdInvalid))
    ensures JsText.ParseInt(idText).Some? ==>
      var id := JsText.ParseInt(idText).value;
      && (LiveGenre(old(db.genres), id).None? ==> r == Fail(App(GenreMissing)))
      && (LiveGenre(old(db.genres), id).Some? ==>
            r.Ok? && db.genres == old(db.genres)[id - 1 := old(db.genres)[id - 1].(deletedAt := Some(old(db.clock)))])
    ensures r.Fail? ==> db.genres == old(db.genres) && db.clock == old(db.clock)
    ensures r.Ok? ==> db.clock == old(db.clock) + 1 && |db.genres| == |old(db.genres)|
  {
    var parsed := JsText.ParseInt(idText);
    if parsed.None? {
      return Fail(App(GenreIdInvalid));
    }
    var id := parsed.value;
    if LiveGenre(db.genres, id).None? {
      return Fail(App(GenreMissing));
    }
    StampDeleted(db, id);
    return Ok(());
  }

  /** The write of a genre delete: `deletedAt` set to the clock. */
  method StampDeleted(db: Database, id: int)
    requires db.Valid()
    requires LiveGenre(db.genres, id).Some?
    modifies db
    ensures db.Valid()
    ensures db.users == old(db.users) && db.books == old(db.books) && db.orders == old(db.orders)
    ensures db.genres == old(db.genres)[id - 1 := old(db.genres)[id - 1].(deletedAt := Some(old(db.clock)))]
    ensures db.clock == old(db.clock) + 1
  {
    SoftDeleteKeepsStore(db.users, db.genres, db.books, db.orders, id - 1, db.clock);
    db.genres, db.clock := db.genres[id - 1 := db.genres[id - 1].(deletedAt := Some(db.clock))], db.clock + 1;
  }

  /** Deleting a genre keeps ids and cannot make two live names clash. */
  lemma SoftDeleteKeepsGenresOk(genres: seq<Genre>, i: int, t: nat)
    requires GenresOk(genres) && 0 <= i < |genres|
    ensures GenresOk(genres[i := genres[i].(deletedAt := Some(t))])
  {
  }

  /** Books keep pointing at a deleted genre's row, so the whole store stays consistent. */
  lemma SoftDeleteKeepsStore(users: seq<User>, genres: seq<Genre>, books: seq<Book>, orders: seq<Order>, i: int, t: nat)
    requires StoreOk(users, genres, books, orders) && 0 <= i < |genres|
    ensures StoreOk(users, genres[i := genres[i].(deletedAt := Some(t))], books, orders)
  {
    SoftDeleteKeepsGenresOk(genres, i, t);
    assert GenreRefsOk(books, genres[i := genres[i].(deletedAt := Some(t))]);
  }

  /**
   * After a soft delete the genre is gone for every read: its id gives 404
   * (so patch and a second delete give 404 too) and no listing shows it.
   */
  lemma DeletedGenreIsHidden(genres: seq<Genre>, books: seq<Book>, id: int)
    requires GenresOk(genres)
    requires 1 <= id <= |genres| && !genres[id - 1].IsLive()
    ensures GetGenre(genres, books, JsText.IntToString(id)) == Fail(App(GenreMissing))
    ensures LiveGenre(genres, id).None?
    ensures forall v :: v in ListGenres(genres, books) ==> v.genre.id != id
  {
    JsText.ParseIntOfIntToString(id, []);
    assert JsText.IntToString(id) + [] == JsText.IntToString(id);
  }
}
