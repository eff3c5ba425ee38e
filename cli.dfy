/**
 * The interactive command-line client (`BookStoreCLI`). Prompts, the HTTP
 * client and the console are left out: a command arrives with the answers
 * already typed (each trimmed, as `prompt` trims them) and the model says
 * which request the client sends, or which message it reports instead.
 */
module Cli {
  import opened Wrappers
  import opened JsText

  /** The user the login response carries. */
  datatype CliUser = CliUser(id: int, email: string, username: Option<string>)

  /** A genre as `GET /genre` lists it. */
  datatype CliGenre = CliGenre(id: int, name: string)

  /** One entry of the `items` array the client posts: `book_id` is sent as text. */
  datatype ItemLine = ItemLine(bookId: string, quantity: Option<int>)

  /**
   * A JSON value in a request. `Int(None)` is what `parseInt` gives for text
   * with no digits (NaN, which a JSON body sends as `null`
   * and a query string as the text `NaN`); `Decimal` is text handed to
   * `parseFloat`, which is not modelled.
   */
  datatype Value = Text(s: string) | Int(n: Option<int>) | Decimal(raw: string) | ItemArray(lines: seq<ItemLine>)

  /** The JSON keys the client writes: `name`, `title`, ..., `stock_quantity`, `genre_id`, `page`, `limit`, `search`, `items`. */
  datatype Key = Name | Title | Writer | Publisher | PublicationYear | Description | Price | StockQuantity
               | GenreId | Page | Limit | Search | Items

  datatype Verb = Get | Post | Patch | Delete

  /** The query parameters or the body go in `fields`; an `undefined` field is an absent key. */
  datatype Request = Request(verb: Verb, path: string, fields: map<Key, Value>)

  /**
   * What a command does: send one request, or report a message and send
   * nothing. A message is the text handed to `error` or `success`, without the
   * prefix those print (the two sides of a merge conflict in the file differ
   * only there).
   */
  datatype Effect = Sent(request: Request) | Reported(message: string)

  const NotLoggedIn := "Not logged in"
  const NoFields := "No fields to update"
  const GenresUnavailable := "Failed to fetch genres"
  const NoGenres := "No genres available. Create a genre first."
  const InvalidGenre := "Invalid genre selection. Please enter a valid number or genre name."

  /** `a || b` on strings: the empty string is falsy. */
  function OrElse(a: string, b: string): (r: string)
    ensures a != "" ==> r == a
    ensures a == "" ==> r == b
  {
    if a != "" then a else b
  }

  /** `message || fallback`, for `err.response?.data?.message || fallback`. */
  function ErrorText(message: Option<string>, fallback: string): (r: string)
    ensures message.Some? && message.value != "" ==> r == message.value
    ensures !(message.Some? && message.value != "") ==> r == fallback
  {
    if message.Some? && message.value != "" then message.value else fallback
  }

  // ---- genre selection in `createBook` ----

  /** `genres.find(g => g.name.toLowerCase() === input.toLowerCase())`. */
  function FindByName(genres: seq<CliGenre>, input: string): (r: Option<CliGenre>)
    ensures r.None? <==> forall i :: 0 <= i < |genres| ==> Lower(genres[i].name) != Lower(input)
    ensures r.Some? ==> exists i :: 0 <= i < |genres| && genres[i] == r.value && Lower(r.value.name) == Lower(input)
                          && forall j :: 0 <= j < i ==> Lower(genres[j].name) != Lower(input)
  {
    if genres == [] then None
    else if Lower(genres[0].name) == Lower(input) then Some(genres[0])
    else
      var r := FindByName(genres[1..], input);
      assert forall i :: 1 <= i < |genres| ==> genres[i] == genres[1..][i - 1];
      if r.Some? then
        var k :| 0 <= k < |genres| - 1 && genres[1..][k] == r.value && Lower(r.value.name) == Lower(input)
                 && forall j :: 0 <= j < k ==> Lower(genres[1..][j].name) != Lower(input);
        assert genres[k + 1] == r.value;
        r
      else r
  }

  /**
   * A number from 1 to the list's length picks by position; anything else
   * picks the first genre with the same name up to ASCII case.
   */
  function SelectGenre(genres: seq<CliGenre>, input: string): (r: Option<CliGenre>)
    ensures ParseInt(input).Some? && 1 <= ParseInt(input).value <= |genres| ==> r == Some(genres[ParseInt(input).value - 1])
    ensures !(ParseInt(input).Some? && 1 <= ParseInt(input).value <= |genres|) ==> r == FindByName(genres, input)
  {
    match ParseInt(input)
    case Some(n) =>
      if 0 < n <= |genres| then Some(genres[n - 1]) else FindByName(genres, input)
    case None => FindByName(genres, input)
  }

  /** Typing a listed number, or a listed name in any case, always selects a genre. */
  lemma SelectionOfListed(genres: seq<CliGenre>, k: int, typed: string)
    requires 0 <= k < |genres|
    requires typed == IntToString(k + 1) || Lower(typed) == Lower(genres[k].name)
    ensures SelectGenre(genres, typed).Some?
    ensures typed == IntToString(k + 1) ==> SelectGenre(genres, typed) == Some(genres[k])
  {
    if typed == IntToString(k + 1) {
      ParseIntOfNumberText(k + 1);
    } else if !(ParseInt(typed).Some? && 1 <= ParseInt(typed).value <= |genres|) {
      assert SelectGenre(genres, typed) == FindByName(genres, typed);
    }
  }

  /** The answers to the `createBook` prompts after the genre. */
  datatype BookForm = BookForm(title: string, writer: string, publisher: string, year: string,
                               description: string, price: string, stock: string)

  /** The keys of the `POST /books` body: `description: description || undefined` drops an empty one. */
  function BookKeys(form: BookForm): set<Key> {
    {Title, Writer, Publisher, PublicationYear, Price, StockQuantity, GenreId}
    + (if form.description != "" then {Description} else {})
  }

  /** The value written under each key of the `POST /books` body. */
  function BookField(form: BookForm, genreId: int, k: Key): Value {
    match k
    case Title => Text(form.title)
    case Writer => Text(form.writer)
    case Publisher => Text(form.publisher)
    case PublicationYear => Int(ParseInt(form.year))
    case Description => Text(form.description)
    case Price => Decimal(form.price)
    case StockQuantity => Int(ParseInt(form.stock))
    case GenreId => Int(Some(genreId))
    case _ => Text([])
  }

  /**
   * The body of `POST /books`: the text answers as typed, the year and the
   * stock through `parseInt`, the price as typed for `parseFloat`, the chosen
   * genre's id, and a description only when one was typed.
   */
  function BookBody(form: BookForm, genreId: int): (m: map<Key, Value>)
    ensures m.Keys == {Title, Writer, Publisher, PublicationYear, Price, StockQuantity, GenreId}
                      + (if form.description != "" then {Description} else {})
    ensures forall k :: k in m ==> m[k] == BookField(form, genreId, k)
  {
    map k | k in BookKeys(form) :: BookField(form, genreId, k)
  }

  /** A year answer typed as a decimal number gives that number. */
  lemma YearFieldOfText(form: BookForm, genreId: int, year: int)
    ensures BookField(form.(year := JsText.IntToString(year)), genreId, PublicationYear) == Int(Some(year))
  {
    JsText.ParseIntOfNumberText(year);
  }

  /** A stock answer typed as a decimal number gives that number. */
  lemma StockFieldOfText(form: BookForm, genreId: int, stock: int)
    ensures BookField(form.(stock := JsText.IntToString(stock)), genreId, StockQuantity) == Int(Some(stock))
  {
    JsText.ParseIntOfNumberText(stock);
  }

  /** A year and a stock typed as decimal numbers reach the server as those numbers. */
  lemma BookBodyOfNumbers(form: BookForm, genreId: int, year: int, stock: int)
    ensures var typed := form.(year := JsText.IntToString(year), stock := JsText.IntToString(stock));
            && BookBody(typed, genreId)[PublicationYear] == Int(Some(year))
            && BookBody(typed, genreId)[StockQuantity] == Int(Some(stock))
  {
    var typed := form.(year := JsText.IntToString(year), stock := JsText.IntToString(stock));
    assert BookBody(typed, genreId)[PublicationYear] == BookField(typed, genreId, PublicationYear);
    assert BookBody(typed, genreId)[StockQuantity] == BookField(typed, genreId, StockQuantity);
    YearFieldOfText(form.(stock := JsText.IntToString(stock)), genreId, year);
    StockFieldOfText(form.(year := JsText.IntToString(year)), genreId, stock);
    assert typed == form.(stock := JsText.IntToString(stock)).(year := JsText.IntToString(year));
    assert typed == form.(year := JsText.IntToString(year)).(stock := JsText.IntToString(stock));
  }

  // ---- item parsing in `createTransaction` ----

  /** One comma-separated piece: `const [bookId, quantity] = piece.trim().split(":")`. */
  function ParseLine(piece: string): (r: ItemLine)
    ensures ':' !in r.bookId
    ensures var t := Trim(piece);
      t == r.bookId || (|r.bookId| < |t| && t[..|r.bookId| + 1] == r.bookId + [':'])
    ensures var parts := Split(Trim(piece), ':');
      r.bookId == parts[0] && r.quantity == if |parts| > 1 then ParseInt(parts[1]) else None
  {
    var t := Trim(piece);
    var parts := Split(t, ':');
    SplitPiecesFree(t, ':');
    JoinSplit(t, ':');
    assert |parts| > 1 ==> t[..|parts[0]| + 1] == parts[0] + [':'] by {
      if |parts| > 1 {
        assert Join(parts, ':') == parts[0] + [':'] + Join(parts[1..], ':');
      }
    }
    ItemLine(parts[0], if |parts| > 1 then ParseInt(parts[1]) else None)
  }

  /** A trimmed piece with no colon is all book id and has no quantity. */
  lemma ParseLineWithoutColon(piece: string)
    requires ':' !in Trim(piece)
    ensures ParseLine(piece) == ItemLine(Trim(piece), None)
  {
    SplitOfFree(Trim(piece), ':', [], false);
  }

  /** The first two `:`-pieces of `id:qty` and of `id:qty:more`. */
  lemma SplitFields(id: string, qty: string, tail: string)
    requires ':' !in id && ':' !in qty && (tail == [] || tail[0] == ':')
    ensures var parts := Split(id + [':'] + qty + tail, ':');
      |parts| > 1 && parts[0] == id && parts[1] == qty
  {
    assert id + [':'] + qty + tail == id + [':'] + (qty + tail);
    SplitOfFree(id, ':', qty + tail, true);
    if tail == [] {
      assert qty + tail == qty;
      SplitOfFree(qty, ':', [], false);
    } else {
      assert qty + tail == qty + [':'] + tail[1..];
      SplitOfFree(qty, ':', tail[1..], true);
    }
  }

  /**
   * `id:qty` and `id:qty:more`: the quantity is `parseInt` of the text
   * between the first colon and the next one, the rest is dropped.
   */
  lemma ParseLineOfFields(piece: string, id: string, qty: string, tail: string)
    requires Trim(piece) == id + [':'] + qty + tail
    requires ':' !in id && ':' !in qty && (tail == [] || tail[0] == ':')
    ensures ParseLine(piece) == ItemLine(id, ParseInt(qty))
  {
    SplitFields(id, qty, tail);
  }

  /** `itemsInput.split(",").map(...)`: one line per comma-separated piece, in order. */
  function ParseItems(input: string): (r: seq<ItemLine>)
    ensures |r| == |Split(input, ',')|
    ensures forall i :: 0 <= i < |r| ==> r[i] == ParseLine(Split(input, ',')[i])
  {
    var pieces := Split(input, ',');
    seq(|pieces|, i requires 0 <= i < |pieces| => ParseLine(pieces[i]))
  }

  /** An item as a user means it. */
  datatype Wanted = Wanted(bookId: int, quantity: int)

  /** `id:quantity`. */
  function Render(w: Wanted): string {
    IntToString(w.bookId) + ":" + IntToString(w.quantity)
  }

  /** `id:quantity,id:quantity,...`, the format the prompt asks for. */
  function ItemsText(ws: seq<Wanted>): string
    requires |ws| >= 1
  {
    Join(seq(|ws|, i requires 0 <= i < |ws| => Render(ws[i])), ',')
  }

  lemma NumberTextFree(i: int, c: char)
    requires c != '-' && !IsDigit(c)
    ensures c !in IntToString(i)
  {
    IntToStringChars(i);
  }

  /** Each rendered item reads back as the same book text and quantity. */
  lemma ParseLineOfRender(w: Wanted)
    ensures ParseLine(Render(w)) == ItemLine(IntToString(w.bookId), Some(w.quantity))
  {
    var a, b := IntToString(w.bookId), IntToString(w.quantity);
    var t := Render(w);
    assert t == a + [':'] + b;
    IntToStringChars(w.quantity);
    TrimOfTrimmed(t);
    NumberTextFree(w.bookId, ':');
    NumberTextFree(w.quantity, ':');
    assert Join([a, b], ':') == t;
    SplitJoin([a, b], ':');
    ParseIntOfIntToString(w.quantity, []);
    assert b + [] == b;
  }

  /** Typing items in the prompted format sends exactly those items, in order. */
  lemma ParseItemsOfText(ws: seq<Wanted>)
    requires |ws| >= 1
    ensures |ParseItems(ItemsText(ws))| == |ws|
    ensures forall i :: 0 <= i < |ws| ==> ParseItems(ItemsText(ws))[i] == ItemLine(IntToString(ws[i].bookId), Some(ws[i].quantity))
  {
    var texts := seq(|ws|, i requires 0 <= i < |ws| => Render(ws[i]));
    forall k | 0 <= k < |texts| ensures ',' !in texts[k] {
      NumberTextFree(ws[k].bookId, ',');
      NumberTextFree(ws[k].quantity, ',');
    }
    SplitJoin(texts, ',');
    forall i | 0 <= i < |ws| ensures ParseLine(texts[i]) == ItemLine(IntToString(ws[i].bookId), Some(ws[i].quantity)) {
      ParseLineOfRender(ws[i]);
    }
  }

  // ---- payload building in `updateBook` ----

  /** The update body holds exactly the fields typed in, each with its text. */
  predicate PatchOf(data: map<Key, Value>, title: string, price: string, stock: string) {
    && (Title in data <==> title != "") && (Title in data ==> data[Title] == Text(title))
    && (Price in data <==> price != "") && (Price in data ==> data[Price] == Decimal(price))
    && (StockQuantity in data <==> stock != "")
    && (StockQuantity in data ==> data[StockQuantity] == Int(ParseInt(stock)))
    && (forall k :: k in data ==> k == Title || k == Price || k == StockQuantity)
  }

  /** `const data = {}; if (title) data.title = ...; ...`. */
  method BuildPatch(title: string, price: string, stock: string) returns (data: map<Key, Value>)
    ensures PatchOf(data, title, price, stock)
    ensures data == map[] <==> title == "" && price == "" && stock == ""
  {
    data := map[];
    if title != "" {
      data := data[Title := Text(title)];
    }
    if price != "" {
      data := data[Price := Decimal(price)];
    }
    if stock != "" {
      data := data[StockQuantity := Int(ParseInt(stock))];
    }
    assert title != "" ==> Title in data;
  }

  // ---- commands ----

  /**
   * The menu's commands other than register, login, logout and exit, with the
   * answers to their prompts. `prompt` resolves with `answer.trim()`, so every
   * string field here is an answer already trimmed.
   */
  datatype Command =
    | Profile
    | CreateGenre(name: string)
    | UpdateGenre(genreId: string, name: string)
    | DeleteGenre(genreId: string)
    | ListGenres
    | ListBooks(page: string, limit: string, search: string)
    | ListBooksByGenre(genreId: string, page: string)
    | CreateBook(fetched: Option<seq<CliGenre>>, genreInput: string, form: BookForm)
    | UpdateBook(bookId: string, title: string, price: string, stock: string)
    | DeleteBook(bookId: string)
    | CreateOrder(itemsInput: string)
    | ListOrders
    | OrderDetail(orderId: string)
    | Statistics

  /** Listing genres and books is open to everyone; every other command starts with `if (!this.token)`. */
  predicate NeedsLogin(c: Command) {
    !(c.ListGenres? || c.ListBooks? || c.ListBooksByGenre?)
  }

  /** The answer to the login request: a token and user, or a refusal with the server's message. */
  datatype LoginReply = Accepted(token: string, user: CliUser) | Refused(message: Option<string>)

  /** `BookStoreCLI`'s session: the token, the user and the client's `Authorization` default. */
  class Session {
    var token: Option<string>
    var currentUser: Option<CliUser>
    var authHeader: Option<string>

    /** `this.token` is truthy. */
    predicate LoggedIn()
      reads this
    {
      token.Some? && token.value != ""
    }

    constructor ()
      ensures token == None && currentUser == None && authHeader == None
      ensures !LoggedIn()
    {
      token, currentUser, authHeader := None, None, None;
    }

    /** `login`: a successful reply sets the token, the user and, for a non-empty token, the header. */
    method Login(reply: LoginReply) returns (messages: seq<string>)
      modifies this
      ensures reply.Accepted? ==>
        && token == Some(reply.token) && currentUser == Some(reply.user)
        && authHeader == (if reply.token != "" then Some("Bearer " + reply.token) else old(authHeader))
        && messages == ["Logged in as " + reply.user.email, "token " + reply.token]
        && (LoggedIn() <==> reply.token != "")
    ensures reply.Refused? ==>
        && token == old(token) && currentUser == old(currentUser) && authHeader == old(authHeader)
        && messages == [ErrorText(reply.message, "Login failed")]
    {
      match reply
      case Accepted(t, u) =>
        token := Some(t);
        currentUser := Some(u);
        if t != "" {
          authHeader := Some("Bearer " + t);
        }
        messages := ["Logged in as " + u.email, "token " + t];
      case Refused(m) =>
        messages := [ErrorText(m, "Login failed")];
    }

    /** `logout`: forgets the token, the user and the header. */
    method Logout() returns (message: string)
      modifies this
      ensures token == None && currentUser == None && authHeader == None
      ensures !LoggedIn()
      ensures message == "Logged out"
    {
      token, currentUser, authHeader := None, None, None;
      message := "Logged out";
    }

    /** Runs one command: what it sends, or what it reports instead. */
    method Perform(c: Command) returns (e: Effect)
      ensures NeedsLogin(c) && !LoggedIn() ==> e == Reported(NotLoggedIn)
      ensures !NeedsLogin(c) ==> e.Sent?
      ensures e.Sent? ==> NeedsLogin(c) ==> LoggedIn()
      ensures c.ListBooks? ==>
        e == Sent(Request(Get, "/books", BooksQuery(c.page, c.limit, c.search)))
      ensures c.ListBooksByGenre? ==>
        e == Sent(Request(Get, "/books/genre/" + c.genreId,
                          map[Page := Int(ParseInt(OrElse(c.page, "1"))), Limit := Int(Some(10))]))
      ensures c.CreateBook? && LoggedIn() ==>
        && (c.fetched.None? ==> e == Reported(GenresUnavailable))
        && (c.fetched == Some([]) ==> e == Reported(NoGenres))
        && (c.fetched.Some? && c.fetched.value != [] ==>
              var picked := SelectGenre(c.fetched.value, c.genreInput);
              && (picked.None? || picked.value.id == 0 ==> e == Reported(InvalidGenre))
              && (picked.Some? && picked.value.id != 0 ==>
                    e == Sent(Request(Post, "/books", BookBody(c.form, picked.value.id)))))
      ensures c.UpdateBook? && LoggedIn() ==>
        && (e.Sent? <==> !(c.title == "" && c.price == "" && c.stock == ""))
        && (e.Reported? ==> e == Reported(NoFields))
        && (e.Sent? ==> e.request.verb == Patch && e.request.path == "/books/" + c.bookId
                        && PatchOf(e.request.fields, c.title, c.price, c.stock))
      ensures c.CreateOrder? && LoggedIn() ==>
        e == Sent(Request(Post, "/transactions", map[Items := ItemArray(ParseItems(c.itemsInput))]))
      ensures NeedsLogin(c) && LoggedIn() && !c.CreateBook? && !c.UpdateBook? ==> e.Sent?
      ensures c.Profile? && LoggedIn() ==> e == Sent(Request(Get, "/auth/me", map[]))
      ensures c.CreateGenre? && LoggedIn() ==> e == Sent(Request(Post, "/genre", map[Name := Text(c.name)]))
      ensures c.UpdateGenre? && LoggedIn() ==>
        e == Sent(Request(Patch, "/genre/" + c.genreId, map[Name := Text(c.name)]))
      ensures c.DeleteGenre? && LoggedIn() ==> e == Sent(Request(Delete, "/genre/" + c.genreId, map[]))
      ensures c.ListGenres? ==> e == Sent(Request(Get, "/genre", map[]))
      ensures c.DeleteBook? && LoggedIn() ==> e == Sent(Request(Delete, "/books/" + c.bookId, map[]))
      ensures c.ListOrders? && LoggedIn() ==> e == Sent(Request(Get, "/transactions", map[]))
      ensures c.OrderDetail? && LoggedIn() ==> e == Sent(Request(Get, "/transactions/" + c.orderId, map[]))
      ensures c.Statistics? && LoggedIn() ==> e == Sent(Request(Get, "/transactions/statistics", map[]))
    {
      if NeedsLogin(c) && !LoggedIn() {
        return Reported(NotLoggedIn);
      }
      match c
      case Profile => e := Sent(Request(Get, "/auth/me", map[]));
      case CreateGenre(name) => e := Sent(Request(Post, "/genre", map[Name := Text(name)]));
      case UpdateGenre(id, name) => e := Sent(Request(Patch, "/genre/" + id, map[Name := Text(name)]));
      case DeleteGenre(id) => e := Sent(Request(Delete, "/genre/" + id, map[]));
      case ListGenres => e := Sent(Request(Get, "/genre", map[]));
      case ListBooks(page, limit, search) => e := Sent(Request(Get, "/books", BooksQuery(page, limit, search)));
      case ListBooksByGenre(id, page) =>
        e := Sent(Request(Get, "/books/genre/" + id, map[Page := Int(ParseInt(OrElse(page, "1"))), Limit := Int(Some(10))]));
      case CreateBook(fetched, input, form) =>
        if fetched.None? {
          return Reported(GenresUnavailable);
        }
        var genres := fetched.value;
        if |genres| == 0 {
          return Reported(NoGenres);
        }
        var picked := SelectGenre(genres, input);
        if picked.None? || picked.value.id == 0 {
          return Reported(InvalidGenre);
        }
        e := Sent(Request(Post, "/books", BookBody(form, picked.value.id)));
      case UpdateBook(id, title, price, stock) =>
        var data := BuildPatch(title, price, stock);
        if |data| == 0 {
          return Reported(NoFields);
        }
        e := Sent(Request(Patch, "/books/" + id, data));
      case DeleteBook(id) => e := Sent(Request(Delete, "/books/" + id, map[]));
      case CreateOrder(input) => e := Sent(Request(Post, "/transactions", map[Items := ItemArray(ParseItems(input))]));
      case ListOrders => e := Sent(Request(Get, "/transactions", map[]));
      case OrderDetail(id) => e := Sent(Request(Get, "/transactions/" + id, map[]));
      case Statistics => e := Sent(Request(Get, "/transactions/statistics", map[]));
    }
  }

  /** The query of `listBooks`: page and limit default to 1 and 10, an empty search is left out. */
  function BooksQuery(page: string, limit: string, search: string): (m: map<Key, Value>)
    ensures Page in m && m[Page] == Int(ParseInt(OrElse(page, "1")))
    ensures Limit in m && m[Limit] == Int(ParseInt(OrElse(limit, "10")))
    ensures Search in m <==> search != ""
    ensures Search in m ==> m[Search] == Text(search)
  {
    var m := map[Page := Int(ParseInt(OrElse(page, "1"))), Limit := Int(ParseInt(OrElse(limit, "10")))];
    if search != "" then m[Search := Text(search)] else m
  }

  /** Leaving page and limit empty asks for the first page of ten. */
  lemma DefaultPaging()
    ensures BooksQuery("", "", "") == map[Page := Int(Some(1)), Limit := Int(Some(10))]
  {
    ParseIntOfIntToString(1, []);
    ParseIntOfIntToString(10, []);
    assert IntToString(1) + [] == "1";
    assert IntToString(10) + [] == "10";
  }

  /** After a logout every protected command reports "Not logged in" and sends nothing. */
  method LogoutLocksCommands(s: Session, c: Command) returns (e: Effect)
    requires NeedsLogin(c)
    modifies s
    ensures e == Reported(NotLoggedIn)
  {
    var _ := s.Logout();
    e := s.Perform(c);
  }
}
