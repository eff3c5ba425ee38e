/**
 * The `/auth` routes: registration, login and the caller's profile.
 * Password hashing and comparison (bcrypt) and token signing (JWT) are
 * parameters: `hash`, `matches(plain, hashed)` and `sign(userId)`.
 */
module Auth {
  import opened Wrappers
  import opened Tables
  import opened Middleware
  import JsText

  const EmailTaken := AppError("Email sudah terdaftar", 400)
  const BadCredentials := AppError("Email atau password salah", 401)
  const UserMissing := AppError("User tidak ditemukan", 404)

  /** A user as the routes return it: never with the password. */
  datatype UserView = UserView(id: int, email: string, username: Option<string>, createdAt: nat)

  function ViewOf(u: User): UserView {
    UserView(u.id, u.email, u.username, u.createdAt)
  }

  /** `POST /auth/register`, after the body has passed its schema. */
  method Register(db: Database, email: string, password: string, username: Option<string>, hash: string -> string)
    returns (r: Outcome<UserView>)
    requires db.Valid()
    requires |password| >= 6
    modifies db
    ensures db.Valid()
    ensures db.genres == old(db.genres) && db.books == old(db.books) && db.orders == old(db.orders)
    ensures r.Fail? <==> UserByEmail(old(db.users), email).Some?
    ensures r.Fail? ==> r == Fail(App(EmailTaken)) && db.users == old(db.users) && db.clock == old(db.clock)
    ensures r.Ok? ==>
      var u := User(|old(db.users)| + 1, email, hash(password), JsText.OrNull(username), old(db.clock));
      && db.users == old(db.users) + [u]
      && r.value == ViewOf(u)
      && db.clock == old(db.clock) + 1
  {
    if UserByEmail(db.users, email).Some? {
      return Fail(App(EmailTaken));
    }
    var u := User(|db.users| + 1, email, hash(password), JsText.OrNull(username), db.clock);
    db.users := db.users + [u];
    db.clock := db.clock + 1;
    return Ok(ViewOf(u));
  }

  /** Registering the same email twice leaves one row. */
  method RegisterTwice(db: Database, email: string, password: string, hash: string -> string)
    returns (second: Outcome<UserView>)
    requires db.Valid() && |password| >= 6
    modifies db
    ensures second == Fail(App(EmailTaken))
    ensures |db.users| <= |old(db.users)| + 1
  {
    var first := Register(db, email, password, None, hash);
    assert UserByEmail(db.users, email).Some? by {
      if first.Ok? {
        assert db.users[|db.users| - 1].email == email;
      }
    }
    second := Register(db, email, password, None, hash);
  }

  /** The user part of the login reply: no `created_at` there. */
  datatype LoginUser = LoginUser(id: int, email: string, username: Option<string>)

  datatype LoginData = LoginData(token: string, user: LoginUser)

  /** `POST /auth/login`: one error for an unknown email and for a wrong password. */
  function Login(users: seq<User>, email: string, password: string,
                 matches: (string, string) -> bool, sign: string -> string): (r: Outcome<LoginData>)
    ensures r.Fail? ==> r == Fail(App(BadCredentials))
    ensures r.Ok? <==> UserByEmail(users, email).Some? && matches(password, UserByEmail(users, email).value.password)
    ensures r.Ok? ==> r.value.user.email == email
                      && r.value.token == sign(JsText.IntToString(r.value.user.id))
    ensures r.Ok? ==> var u := UserByEmail(users, email).value;
                      r.value.user == LoginUser(u.id, u.email, u.username)
  {
    match UserByEmail(users, email)
    case None => Fail(App(BadCredentials))
    case Some(u) =>
      if !matches(password, u.password) then Fail(App(BadCredentials))
      else Ok(LoginData(sign(JsText.IntToString(u.id)), LoginUser(u.id, u.email, u.username)))
  }

  /**
   * The id a token carries is the decimal text of the user's id, which the
   * protected routes read back with `parseInt`: they see the same user.
   */
  lemma TokenNamesTheUser(users: seq<User>, email: string, password: string,
                          matches: (string, string) -> bool, sign: string -> string)
    requires UsersOk(users)
    requires Login(users, email, password, matches, sign).Ok?
    ensures var u := Login(users, email, password, matches, sign).value.user;
            JsText.ParseInt(JsText.IntToString(u.id)) == Some(u.id)
            && UserById(users, u.id).Some? && UserById(users, u.id).value.email == email
  {
    var u := Login(users, email, password, matches, sign).value.user;
    var found := UserByEmail(users, email).value;
    assert u.id == found.id;
    var i :| 0 <= i < |users| && users[i] == found;
    assert found.id == i + 1;
    assert UserById(users, u.id) == Some(found);
    JsText.ParseIntOfIntToString(u.id, []);
    assert JsText.IntToString(u.id) + [] == JsText.IntToString(u.id);
  }

  /** `GET /auth/me` for the caller the guard let through. */
  function Me(users: seq<User>, caller: int): (r: Outcome<UserView>)
    ensures r.Ok? <==> 1 <= caller <= |users|
    ensures r.Fail? ==> r == Fail(App(UserMissing))
    ensures r.Ok? ==> r.value == ViewOf(users[caller - 1])
    ensures UsersOk(users) ==> (r.Ok? <==> exists u :: u in users && u.id == caller)
    ensures UsersOk(users) && r.Ok? ==> exists u :: u in users && u.id == caller && r.value == ViewOf(u)
  {
    match UserById(users, caller)
    case None => Fail(App(UserMissing))
    case Some(u) => Ok(ViewOf(u))
  }
}
