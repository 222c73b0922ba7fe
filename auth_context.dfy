/** The client's session (client/src/context/AuthContext.js): the signed-in
    user and token, the `loading` flag, and the browser storage they are
    kept in across reloads. */
module AuthSession {
  import opened Base

  /** The stored user object, as far as the client consults it: the route
      guard reads its `email` and `role`, either of which may be absent. */
  datatype ClientUser = ClientUser(email: Option<string>, role: Option<string>)

  /** What the provider holds, with `localStorage` as a map from key to text. */
  datatype Session = Session(user: Option<ClientUser>, token: Option<string>, loading: bool,
                             storage: map<string, string>)

  /** What the provider's own code keeps: a held user comes with a token, and a
      held token is not empty and is the one in storage. A token without a user
      is possible (see `Restored`). */
  predicate Coherent(s: Session) {
    && (s.user.Some? ==> s.token.Some?)
    && (s.token.Some? ==> s.token.value != "" && "token" in s.storage && s.storage["token"] == s.token.value)
  }

  /** A coherent session in which a user is held exactly when a token is. */
  predicate ValidSession(s: Session) {
    Coherent(s) && (s.token.Some? ==> s.user.Some?)
  }

  /** The state before the first effect runs (lines 6-8). */
  function Initial(storage: map<string, string>): (s: Session)
    ensures ValidSession(s) && s.loading && s.storage == storage
  {
    Session(None, None, true, storage)
  }

  /** `localStorage.getItem(key)` is truthy. */
  predicate Stored(storage: map<string, string>, key: string) {
    key in storage && storage[key] != ""
  }

  /** What `JSON.parse` does with the stored text: it throws, or yields a value.
      `Parsed(None)` is a falsy value such as `null` (the text "null"); any
      truthy value is read as a `ClientUser`, whose fields are absent unless
      the value is an object that has them. */
  datatype ParseResult = Throws | Parsed(value: Option<ClientUser>)

  /** The mount effect (lines 10-27). */
  function Restored(storage: map<string, string>, parse: string -> ParseResult): (r: Session)
    ensures Coherent(r) && !r.loading
    ensures r.token.Some? <==> Stored(storage, "user") && Stored(storage, "token") && parse(storage["user"]).Parsed?
    ensures r.token.Some? ==> r.user == parse(storage["user"]).value && r.token == Some(storage["token"])
    // a stored falsy user leaves a token and no user
    ensures !ValidSession(r) <==>
              Stored(storage, "user") && Stored(storage, "token") && parse(storage["user"]) == Parsed(None)
    ensures Stored(storage, "user") && Stored(storage, "token") && parse(storage["user"]).Throws? ==>
              r.storage == storage - {"user", "token"}
    ensures !(Stored(storage, "user") && Stored(storage, "token") && parse(storage["user"]).Throws?) ==>
              r.storage == storage
  {
    if Stored(storage, "user") && Stored(storage, "token") then
      match parse(storage["user"])
      case Parsed(u) => Session(u, Some(storage["token"]), false, storage)
      case Throws => Session(None, None, false, storage - {"user", "token"})
    else Session(None, None, false, storage)
  }

  /** A stored user "null" beside a token restores a session that counts as
      authenticated but holds no user. */
  lemma NullUserAuthenticated(storage: map<string, string>, parse: string -> ParseResult)
    requires "user" in storage && storage["user"] == "null" && Stored(storage, "token")
    requires parse("null") == Parsed(None)
    ensures IsAuthenticated(Restored(storage, parse)) && Restored(storage, parse).user.None?
  {
    assert Stored(storage, "user");
  }

  datatype LoginResult = Ignored | LoggedIn | Failed(message: string)

  /** `login` (lines 29-50). `stringify` is `JSON.stringify`; `writeOk` says
      whether the storage writes succeed. */
  function LoginSpec(s: Session, userData: Option<ClientUser>, authToken: Option<string>,
                     stringify: ClientUser -> string, writeOk: bool): (r: (Session, LoginResult))
    ensures r.1 == Ignored <==> userData.None? || !TruthyOpt(authToken)
    ensures r.1 == Ignored ==> r.0 == s
    ensures r.1 == LoggedIn ==>
              r.0 == s.(user := userData, token := authToken,
                        storage := s.storage["user" := stringify(userData.value)]["token" := authToken.value])
    ensures r.1.Failed? ==> r.0 == s.(user := None, token := None, storage := s.storage - {"user", "token"})
    ensures r.1.Failed? <==> userData.Some? && TruthyOpt(authToken) && !writeOk
    ensures Coherent(s) ==> Coherent(r.0)
    ensures ValidSession(s) ==> ValidSession(r.0)
  {
    if userData.None? || !TruthyOpt(authToken) then (s, Ignored)
    else if writeOk then
      (s.(user := userData, token := authToken,
          storage := s.storage["user" := stringify(userData.value)]["token" := authToken.value]), LoggedIn)
    else (s.(user := None, token := None, storage := s.storage - {"user", "token"}), Failed("Failed to complete login"))
  }

  /** `logout` (lines 52-57). */
  function LogoutSpec(s: Session): (r: Session)
    ensures r.user.None? && r.token.None? && r.loading == s.loading
    ensures "user" !in r.storage && "token" !in r.storage
    ensures forall k :: k in s.storage && k != "user" && k != "token" ==> k in r.storage && r.storage[k] == s.storage[k]
    ensures ValidSession(r)
  {
    s.(user := None, token := None, storage := s.storage - {"user", "token"})
  }

  /** `isAuthenticated: !!token` (line 65). */
  predicate IsAuthenticated(s: Session) {
    TruthyOpt(s.token)
  }

  /** In a consistent session the token flag and the held user agree. */
  lemma AuthenticatedIffUser(s: Session)
    requires ValidSession(s)
    ensures IsAuthenticated(s) <==> s.user.Some?
  {
  }

  /** A login survives a reload when `JSON.parse` undoes `JSON.stringify`
      (whose text for an object is never empty). */
  lemma LoginThenReload(s: Session, u: ClientUser, t: string, stringify: ClientUser -> string,
                        parse: string -> ParseResult)
    requires t != "" && stringify(u) != "" && parse(stringify(u)) == Parsed(Some(u))
    ensures var after := LoginSpec(s, Some(u), Some(t), stringify, true).0;
            Restored(after.storage, parse).user == Some(u) && Restored(after.storage, parse).token == Some(t)
  {
    var after := LoginSpec(s, Some(u), Some(t), stringify, true).0;
    assert after.storage["user"] == stringify(u);
  }

  /** A logout survives a reload: nothing is restored. */
  lemma LogoutThenReload(s: Session, parse: string -> ParseResult)
    ensures Restored(LogoutSpec(s).storage, parse).user.None?
    ensures !IsAuthenticated(Restored(LogoutSpec(s).storage, parse))
  {
  }

  /** The provider, whose fields the effect and the callbacks set in place. */
  class AuthProvider {
    var user: Option<ClientUser>
    var token: Option<string>
    var loading: bool
    var storage: map<string, string>

    function State(): Session
      reads this
    {
      Session(user, token, loading, storage)
    }

    predicate Valid()
      reads this
    {
      Coherent(State())
    }

    constructor(browserStorage: map<string, string>)
      ensures State() == Initial(browserStorage) && ValidSession(State())
    {
      user := None;
      token := None;
      loading := true;
      storage := browserStorage;
    }

    /** The mount effect, run once on the initial state. */
    method Restore(parse: string -> ParseResult)
      requires user.None? && token.None? && loading
      modifies this
      ensures State() == Restored(old(storage), parse) && Valid()
    {
      var storedUser := if "user" in storage then Some(storage["user"]) else None;
      var storedToken := if "token" in storage then Some(storage["token"]) else None;
      if TruthyOpt(storedUser) && TruthyOpt(storedToken) {
        var parsed := parse(storedUser.value);
        if parsed.Parsed? {
          user := parsed.value;
          token := storedToken;
        } else {
          storage := storage - {"user"};
          storage := storage - {"token"};
          assert storage == old(storage) - {"user", "token"};
        }
      }
      loading := false;
    }

    method Login(userData: Option<ClientUser>, authToken: Option<string>, stringify: ClientUser -> string,
                 writeOk: bool) returns (result: LoginResult)
      requires Valid()
      modifies this
      ensures (State(), result) == LoginSpec(old(State()), userData, authToken, stringify, writeOk) && Valid()
      ensures old(ValidSession(State())) ==> ValidSession(State())
    {
      if userData.None? || !TruthyOpt(authToken) {
        return Ignored;
      }
      if writeOk {
        user := userData;
        token := authToken;
        storage := storage["user" := stringify(userData.value)];
        storage := storage["token" := authToken.value];
        result := LoggedIn;
      } else {
        user := None;
        token := None;
        storage := storage - {"user"};
        storage := storage - {"token"};
        assert storage == old(storage) - {"user", "token"};
        result := Failed("Failed to complete login");
      }
    }

    method Logout()
      modifies this
      ensures State() == LogoutSpec(old(State())) && ValidSession(State())
    {
      user := None;
      token := None;
      storage := storage - {"user"};
      storage := storage - {"token"};
      assert storage == old(storage) - {"user", "token"};
    }
  }
}
