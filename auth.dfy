/** Registration and login (server/routes/auth.js). Email syntax checking and
    normalisation, and password hashing and comparison, belong to libraries
    this model does not contain: they are passed in as functions. Tokens are
    not modelled. */
module Auth {
  import opened Base
  import opened JsStrings
  import opened Seqs
  import opened Store

  datatype RegisterBody = RegisterBody(username: Option<string>, email: Option<string>,
                                       password: Option<string>, role: Option<string>)

  const Roles: set<string> := {"user", "admin"}

  /** What the validators read: a missing field reads as the empty string. */
  function Text(x: Option<string>): string {
    x.GetOr("")
  }

  /** The validator chain at lines 43-57: a trimmed username of at least three
      characters, a syntactically valid email, a password of at least six
      characters, and a role, when one is given, of `user` or `admin`. */
  predicate RegisterValid(b: RegisterBody, isEmail: string -> bool) {
    && |Trim(Text(b.username))| >= 3
    && isEmail(Text(b.email))
    && |Text(b.password)| >= 6
    && (b.role.Some? ==> b.role.value in Roles)
  }

  datatype RegisterOutcome = RegisterOutcome(tables: Tables, status: int, field: Option<string>, user: Option<User>)

  /** `User.findOne({$or: [{email}, {username}]})`. */
  function Clash(email: string, username: string): User -> bool {
    (u: User) => u.email == email || u.username == username
  }

  /** `POST /register`. The sanitizers leave the username trimmed and the email
      normalised before the handler reads them. */
  function RegisterSpec(t: Tables, b: RegisterBody, isEmail: string -> bool,
                        normalize: string -> string, freshId: Id): (r: RegisterOutcome)
    ensures r.status == 201 || r.status == 400 || r.status == 500
    ensures r.status != 201 ==> r.tables == t && r.user.None?
    ensures !RegisterValid(b, isEmail) ==> r.status == 400 && r.field.None?
    ensures RegisterValid(b, isEmail) ==>
      var email := normalize(Text(b.email));
      var username := Trim(Text(b.username));
      && (r.status == 400 <==> exists k :: 0 <= k < |t.users| && (t.users[k].email == email || t.users[k].username == username))
      && (r.status == 400 ==>
            && r.field.Some?
            && var i := FirstIndex(t.users, Clash(email, username)).value;
               && (r.field.value == "email" <==> t.users[i].email == email)
               && (r.field.value != "email" ==> r.field.value == "username" && t.users[i].username == username))
      && (r.status == 500 <==> r.status != 400 && UserIndex(t.users, freshId).Some?)
      && (r.status == 201 ==>
            && r.user == Some(User(freshId, username, email, Text(b.password), OrElse(b.role, "user"), []))
            && r.tables == t.(users := t.users + [r.user.value]))
    ensures ValidTables(t) ==> ValidTables(r.tables)
  {
    if !RegisterValid(b, isEmail) then RegisterOutcome(t, 400, None, None)
    else
      var email := normalize(Text(b.email));
      var username := Trim(Text(b.username));
      match FirstIndex(t.users, Clash(email, username))
      case Some(i) =>
        RegisterOutcome(t, 400, Some(if t.users[i].email == email then "email" else "username"), None)
      case None =>
        if UserIndex(t.users, freshId).Some? then RegisterOutcome(t, 500, None, None)
        else
          var u := User(freshId, username, email, Text(b.password), OrElse(b.role, "user"), []);
          var t1 := t.(users := t.users + [u]);
          assert ValidTables(t) ==> ValidTables(t1) by {
            if ValidTables(t) {
              InsertUserValid(t, u);
            }
          }
          RegisterOutcome(t1, 201, None, Some(u))
  }

  method Register(db: Database, b: RegisterBody, isEmail: string -> bool,
                  normalize: string -> string, freshId: Id)
    returns (status: int, field: Option<string>, user: Option<User>)
    requires db.Valid()
    modifies db
    ensures db.Valid()
    ensures RegisterOutcome(db.Snapshot(), status, field, user) == RegisterSpec(old(db.Snapshot()), b, isEmail, normalize, freshId)
  {
    ghost var spec := RegisterSpec(db.Snapshot(), b, isEmail, normalize, freshId);
    if !RegisterValid(b, isEmail) {
      return 400, None, None;
    }
    var email := normalize(Text(b.email));
    var username := Trim(Text(b.username));
    var found := FirstIndex(db.users, Clash(email, username));
    if found.Some? {
      var existing := db.users[found.value];
      return 400, Some(if existing.email == email then "email" else "username"), None;
    }
    if UserIndex(db.users, freshId).Some? {
      // `user.save()` throws on the duplicate `_id`
      return 500, None, None;
    }
    var u := User(freshId, username, email, Text(b.password), OrElse(b.role, "user"), []);
    db.users := db.users + [u];
    assert db.Snapshot() == spec.tables;
    return 201, None, Some(u);
  }

  /** Registering the same body again is refused as a duplicate email. */
  lemma RegisterTwice(t: Tables, b: RegisterBody, isEmail: string -> bool,
                      normalize: string -> string, id1: Id, id2: Id)
    requires RegisterSpec(t, b, isEmail, normalize, id1).status == 201
    ensures var t1 := RegisterSpec(t, b, isEmail, normalize, id1).tables;
            var r2 := RegisterSpec(t1, b, isEmail, normalize, id2);
            r2.status == 400 && r2.field == Some("email") && r2.tables == t1
  {
    var r1 := RegisterSpec(t, b, isEmail, normalize, id1);
    assert RegisterValid(b, isEmail);
    var email := normalize(Text(b.email));
    var username := Trim(Text(b.username));
    var p := Clash(email, username);
    var t1 := r1.tables;
    var n := |t.users|;
    assert t1.users == t.users + [r1.user.value] && r1.user.value.email == email;
    forall k | 0 <= k < n ensures !p(t1.users[k]) {
      assert t1.users[k] == t.users[k];
    }
    FirstIndexAt(t1.users, p, n);
  }

  // ---------------------------------------------------------------- login

  const InvalidCredentials := "Invalid credentials"

  datatype LoginReply = LoginReply(status: int, message: string, userId: Option<Id>)

  /** The `/login` handler registered first (line 15): the first user with that
      email, then the password comparison; an unknown email and a wrong
      password get the same reply. A missing password makes the comparison
      throw (500). */
  function Login(users: seq<User>, email: string, password: Option<string>,
                 matches: (string, string) -> bool): (r: LoginReply)
    ensures r.status == 200 || r.status == 400 || r.status == 500
    ensures r.status == 400 ==> r == LoginReply(400, InvalidCredentials, None)
    ensures (forall k :: 0 <= k < |users| ==> users[k].email != email) ==> r.status == 400
    ensures r.status != 400 ==>
      exists k :: 0 <= k < |users| && users[k].email == email &&
        (forall j :: 0 <= j < k ==> users[j].email != email) &&
        (r.status == 500 <==> password.None?) &&
        (r.status == 200 ==> matches(password.value, users[k].password) && r.userId == Some(users[k].id))
    ensures r.status == 200 ==> password.Some?
    // the first user with that email decides the answer
    ensures forall i :: 0 <= i < |users| && users[i].email == email && (forall j :: 0 <= j < i ==> users[j].email != email) ==>
      && (password.None? ==> r.status == 500)
      && (password.Some? && matches(password.value, users[i].password) ==> r == LoginReply(200, "", Some(users[i].id)))
      && (password.Some? && !matches(password.value, users[i].password) ==> r == LoginReply(400, InvalidCredentials, None))
  {
    match FirstIndex(users, (u: User) => u.email == email)
    case None => LoginReply(400, InvalidCredentials, None)
    case Some(i) =>
      assert users[i].email == email && forall j :: 0 <= j < i ==> users[j].email != email;
      if password.None? then LoginReply(500, "Server error", None)
      else if !matches(password.value, users[i].password) then LoginReply(400, InvalidCredentials, None)
      else LoginReply(200, "", Some(users[i].id))
  }

  /** A caller cannot tell an unknown email from a wrong password. */
  lemma LoginIndistinguishable(users: seq<User>, unknown: string, known: string, password: string,
                               matches: (string, string) -> bool)
    requires forall k :: 0 <= k < |users| ==> users[k].email != unknown
    requires Login(users, known, Some(password), matches).status != 200
    ensures Login(users, unknown, Some(password), matches) == Login(users, known, Some(password), matches)
  {
  }

  // --------------------------------------------------------------- routing

  /** The handlers the router holds, in registration order. */
  datatype Handler = FirstLogin | RegisterHandler | SecondLogin
  datatype Route = Route(verb: string, path: string, handler: Handler)

  const Routes: seq<Route> := [
    Route("POST", "/login", FirstLogin),
    Route("POST", "/register", RegisterHandler),
    Route("POST", "/login", SecondLogin)
  ]

  /** Express runs the first route registered for the verb and path (the
      handlers answer without calling `next`). */
  function Dispatch(routes: seq<Route>, verb: string, path: string): (r: Option<Handler>)
    ensures r.Some? ==> exists k :: 0 <= k < |routes| && routes[k].verb == verb && routes[k].path == path &&
                          routes[k].handler == r.value &&
                          forall j :: 0 <= j < k ==> !(routes[j].verb == verb && routes[j].path == path)
    ensures r.None? <==> forall k :: 0 <= k < |routes| ==> !(routes[k].verb == verb && routes[k].path == path)
  {
    match FirstIndex(routes, (rt: Route) => rt.verb == verb && rt.path == path)
    case None => None
    case Some(i) => Some(routes[i].handler)
  }

  /** A login request reaches the first `/login` handler; the second one
      (line 125) is never reached, whatever the request. */
  lemma SecondLoginShadowed(verb: string, path: string)
    ensures Dispatch(Routes, "POST", "/login") == Some(FirstLogin)
    ensures Dispatch(Routes, verb, path) != Some(SecondLogin)
  {
  }
}
