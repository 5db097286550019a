/**
 * Authentication service: registering a user by email and logging in with
 * email and password. Password hashing, hash comparison and token signing
 * are parameters of the model. A token is signed for a user id at a given
 * second: jwt.sign stamps the issue and expiry times from the clock, so the
 * same id signed at two seconds gives two tokens.
 */
module AuthService {
  import opened Common
  import opened JsString
  import opened Store

  const EmailTaken := HttpError(409, "Email already registered")
  const InvalidCredentials := HttpError(401, "Invalid credentials")

  /** The user as the service hands it out: without password hash. */
  datatype PublicUser = PublicUser(
    id: Id,
    email: string,
    displayName: string,
    avatarUrl: Option<string>,
    statusMessage: Option<string>)

  /** What both registration and login return. */
  datatype Session = Session(user: PublicUser, token: string)

  function Sanitize(u: User): PublicUser {
    PublicUser(u.id, u.email, u.displayName, u.avatarUrl, u.statusMessage)
  }

  /** The sanitized user depends on nothing but the public fields: two users
      that differ in password hash or phone number look the same. */
  lemma SanitizeHidesSecrets(u: User, password: string, phoneNumber: Option<string>)
    ensures Sanitize(u.(password := password, phoneNumber := phoneNumber)) == Sanitize(u)
    ensures Sanitize(u).id == u.id && Sanitize(u).email == u.email
  {
  }

  /** The email setters of the user schema (lowercase, trim), which apply to
      stored values and to query values alike. */
  function NormalizeEmail(email: string): string {
    ToLower(Trim(email))
  }

  /** A normalized email is its own normal form, so the stored email finds
      its user again. */
  lemma NormalizeEmailIdempotent(email: string)
    ensures NormalizeEmail(NormalizeEmail(email)) == NormalizeEmail(email)
  {
    var t := Trim(email);
    var n := ToLower(t);
    if n != [] {
      LowerCharWhitespace(t[0]);
      LowerCharWhitespace(t[|t| - 1]);
    }
    TrimOfTrimmed(n);
    ToLowerIdempotent(t);
  }

  /** The paths that fail the user schema's required checks, in schema order. */
  function MissingUserPaths(email: string, displayName: string, password: string): (paths: seq<string>)
    ensures paths == [] <==> email != "" && displayName != "" && password != ""
  {
    (if email == "" then ["email"] else [])
    + (if displayName == "" then ["displayName"] else [])
    + (if password == "" then ["password"] else [])
  }

  /** The outcome of registerUser: refused with 409 when the email is taken,
      refused by the schema when a required field is empty after its
      setters, otherwise the user is created and a token is signed for it. */
  function Register(st: State, email: string, password: string, displayName: string,
                    avatarUrl: Option<string>, hash: string -> string, sign: (Id, nat) -> string, now: nat): Step<Session>
  {
    var e := NormalizeEmail(email);
    if UserIndexByEmail(st.users, e).Some? then Step(Err(EmailTaken), st)
    else
      var name := Trim(displayName);
      var pw := hash(password);
      var missing := MissingUserPaths(e, name, pw);
      if missing != [] then Step(Err(ValidationError(missing)), st)
      else
        var u := User(st.nextId, e, name, avatarUrl, pw, None, None);
        Step(Ok(Session(Sanitize(u), sign(u.id, now))), st.(users := st.users + [u], nextId := st.nextId + 1))
  }

  method RegisterUser(db: Database, email: string, password: string, displayName: string,
                      avatarUrl: Option<string>, hash: string -> string, sign: (Id, nat) -> string,
                      now: nat)
    returns (r: Result<Session>)
    modifies db
    ensures Step(r, db.Snapshot()) == Register(old(db.Snapshot()), email, password, displayName, avatarUrl, hash, sign, now)
  {
    ghost var expected := Register(db.Snapshot(), email, password, displayName, avatarUrl, hash, sign, now);
    var e := NormalizeEmail(email);
    var existing := UserIndexByEmail(db.users, e);
    if existing.Some? {
      return Err(EmailTaken);
    }
    var name := Trim(displayName);
    var pw := hash(password);
    var missing := MissingUserPaths(e, name, pw);
    if missing != [] {
      return Err(ValidationError(missing));
    }
    var u := User(db.nextId, e, name, avatarUrl, pw, None, None);
    assert expected.state.users == db.users + [u] && expected.state.nextId == db.nextId + 1;
    db.users := db.users + [u];
    db.nextId := db.nextId + 1;
    r := Ok(Session(Sanitize(u), sign(u.id, now)));
  }

  /** The outcome of loginUser. It reads the store and changes nothing. */
  function Login(users: seq<User>, email: string, password: string,
                 compare: (string, string) -> bool, sign: (Id, nat) -> string, now: nat): Result<Session>
  {
    match UserIndexByEmail(users, NormalizeEmail(email))
    case None => Err(InvalidCredentials)
    case Some(i) =>
      if !compare(password, users[i].password) then Err(InvalidCredentials)
      else Ok(Session(Sanitize(users[i]), sign(users[i].id, now)))
  }

  /** An unknown email and a wrong password fail alike; a login succeeds
      exactly when a user has the email and the password matches its hash,
      and then returns that user with a token signed for its id now. */
  lemma LoginOutcome(users: seq<User>, email: string, password: string,
                     compare: (string, string) -> bool, sign: (Id, nat) -> string, now: nat)
    requires forall i, j :: 0 <= i < j < |users| ==> users[i].email != users[j].email
    ensures var r := Login(users, email, password, compare, sign, now);
            && (r.Err? ==> r.error == InvalidCredentials)
            && (r.Ok? <==> exists u :: u in users && u.email == NormalizeEmail(email) && compare(password, u.password))
            && (forall u :: u in users && u.email == NormalizeEmail(email) && compare(password, u.password)
                  ==> r == Ok(Session(Sanitize(u), sign(u.id, now))))
  {
    var e := NormalizeEmail(email);
    UserByEmail(users, e);
  }

  /** Registration is refused with 409 exactly when a stored user already has
      the normalized email, and then nothing is stored. */
  lemma RegisterConflictIff(st: State, email: string, password: string, displayName: string,
                            avatarUrl: Option<string>, hash: string -> string, sign: (Id, nat) -> string,
                            now: nat)
    ensures var out := Register(st, email, password, displayName, avatarUrl, hash, sign, now);
            && (out.result == Err(EmailTaken) <==> exists u :: u in st.users && u.email == NormalizeEmail(email))
            && (out.result.Err? ==> out.state == st)
  {
    UserByEmail(st.users, NormalizeEmail(email));
  }

  /** A successful registration stores exactly one user with the normalized
      email, the trimmed name and the password hash, and returns it without
      the hash, with a token for its fresh id. */
  lemma RegisterCreatesUser(st: State, email: string, password: string, displayName: string,
                            avatarUrl: Option<string>, hash: string -> string, sign: (Id, nat) -> string,
                            now: nat)
    ensures var out := Register(st, email, password, displayName, avatarUrl, hash, sign, now);
            out.result.Ok? ==>
              exists u :: && out.state.users == st.users + [u]
                          && u.id == st.nextId && u.email == NormalizeEmail(email)
                          && u.displayName == Trim(displayName) && u.password == hash(password)
                          && u.avatarUrl == avatarUrl
                          && out.result.value == Session(Sanitize(u), sign(st.nextId, now))
                          && out.state.conversations == st.conversations
                          && out.state.messages == st.messages
  {
    var out := Register(st, email, password, displayName, avatarUrl, hash, sign, now);
    if out.result.Ok? {
      var u := out.state.users[|st.users|];
      assert out.state.users == st.users + [u];
    }
  }

  /** A store that gains one user with the counter's id and an email no
      stored user has stays valid. */
  lemma ValidAfterUser(st: State, st': State, u: User)
    requires Valid(st)
    requires st'.users == st.users + [u] && u.id == st.nextId && st'.nextId == st.nextId + 1
    requires st'.conversations == st.conversations && st'.messages == st.messages
    requires forall v :: v in st.users ==> v.email != u.email
    ensures Valid(st')
  {
    assert forall i :: 0 <= i < |st.users| ==> st.users[i] in st.users;
  }

  /** Registration keeps the store's invariant, emails unique included. */
  lemma RegisterPreservesValid(st: State, email: string, password: string, displayName: string,
                               avatarUrl: Option<string>, hash: string -> string, sign: (Id, nat) -> string,
                            now: nat)
    requires Valid(st)
    ensures Valid(Register(st, email, password, displayName, avatarUrl, hash, sign, now).state)
  {
    var out := Register(st, email, password, displayName, avatarUrl, hash, sign, now);
    if out.result.Ok? {
      RegisterConflictIff(st, email, password, displayName, avatarUrl, hash, sign, now);
      RegisterCreatesUser(st, email, password, displayName, avatarUrl, hash, sign, now);
      var u :| out.state.users == st.users + [u] && u.id == st.nextId && u.email == NormalizeEmail(email)
               && out.state.conversations == st.conversations && out.state.messages == st.messages;
      ValidAfterUser(st, out.state, u);
    }
  }

  /** Once registered, the same email (in any case, with any surrounding
      whitespace) and password log in as the new user at any later second,
      given that the comparison accepts a password against its own hash. The
      token is the one signed for the new id at the login's second; it is the
      registration's token only when both are signed at the same second. */
  lemma RegisterThenLogin(st: State, email: string, password: string, displayName: string,
                          avatarUrl: Option<string>, hash: string -> string, sign: (Id, nat) -> string,
                          now: nat, compare: (string, string) -> bool, email': string, later: nat)
    requires Valid(st)
    requires forall p :: compare(p, hash(p))
    requires NormalizeEmail(email') == NormalizeEmail(email)
    ensures var out := Register(st, email, password, displayName, avatarUrl, hash, sign, now);
            var login := Login(out.state.users, email', password, compare, sign, later);
            out.result.Ok? ==>
              && login == Ok(Session(out.result.value.user, sign(st.nextId, later)))
              && (later == now ==> login == out.result)
  {
    var out := Register(st, email, password, displayName, avatarUrl, hash, sign, now);
    if out.result.Ok? {
      RegisterPreservesValid(st, email, password, displayName, avatarUrl, hash, sign, now);
      RegisterCreatesUser(st, email, password, displayName, avatarUrl, hash, sign, now);
      var u :| out.state.users == st.users + [u] && u.id == st.nextId && u.email == NormalizeEmail(email)
               && u.password == hash(password) && out.result.value == Session(Sanitize(u), sign(st.nextId, now));
      assert compare(password, hash(password));
      assert u in out.state.users;
      LoginOutcome(out.state.users, email', password, compare, sign, later);
    }
  }
}
