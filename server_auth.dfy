/**
 * The server's account rules (server/src/auth.rs): the username validator, the
 * user record and its authentication flags, and the order in which signup and
 * login check their inputs. The database is a map from record id to stored
 * user, and bcrypt is a pair of function parameters.
 */
module ServerAuth {
  import opened Wrappers
  import ClientAuth

  /** The characters of the class `[a-zA-Z0-9_-]`. */
  predicate IsTokenChar(c: char)
  {
    ('a' <= c <= 'z') || ('A' <= c <= 'Z') || ('0' <= c <= '9') || c == '_' || c == '-'
  }

  /** Where the leftmost match of `[a-zA-Z0-9_-]+` at or after `from` starts; |s| when there is none. */
  function FirstTokenChar(s: string, from: nat): (i: nat)
    requires from <= |s|
    ensures from <= i <= |s|
    ensures i < |s| ==> IsTokenChar(s[i])
    ensures forall j :: from <= j < i ==> !IsTokenChar(s[j])
    decreases |s| - from
  {
    if from == |s| || IsTokenChar(s[from]) then from else FirstTokenChar(s, from + 1)
  }

  /** Where a greedy run of token characters starting at `from` ends. */
  function RunEnd(s: string, from: nat): (j: nat)
    requires from <= |s|
    ensures from <= j <= |s|
    ensures forall k :: from <= k < j ==> IsTokenChar(s[k])
    ensures j < |s| ==> !IsTokenChar(s[j])
    decreases |s| - from
  {
    if from == |s| || !IsTokenChar(s[from]) then from else RunEnd(s, from + 1)
  }

  /** The regex `find`: the bounds of the leftmost-first match of `[a-zA-Z0-9_-]+`, if any. */
  function FindToken(s: string): Option<(nat, nat)>
  {
    var i := FirstTokenChar(s, 0);
    if i == |s| then None else Some((i, RunEnd(s, i)))
  }

  /**
   * `validate_username`: the name must be its own first match, which holds
   * exactly when it is non-empty and made only of letters, digits, '_' and '-'.
   */
  predicate ValidateUsername(username: string)
    ensures ValidateUsername(username) <==>
              |username| > 0 && forall i :: 0 <= i < |username| ==> IsTokenChar(username[i])
  {
    WholeRun(username);
    match FindToken(username)
    case None => false
    case Some((start, end)) => start <= end <= |username| && username == username[start..end]
  }

  /** A name made only of token characters is matched from its first to its last character. */
  lemma WholeRun(s: string)
    ensures |s| > 0 && (forall i :: 0 <= i < |s| ==> IsTokenChar(s[i])) ==> FindToken(s) == Some((0, |s|))
  {
    if |s| > 0 && forall i :: 0 <= i < |s| ==> IsTokenChar(s[i]) {
      assert FirstTokenChar(s, 0) == 0;
      RunToEnd(s, 0);
    }
  }

  /** A run of token characters reaching the end of the string is matched to the end. */
  lemma {:induction false} RunToEnd(s: string, from: nat)
    requires from <= |s|
    requires forall k :: from <= k < |s| ==> IsTokenChar(s[k])
    ensures RunEnd(s, from) == |s|
    decreases |s| - from
  {
    if from < |s| {
      RunToEnd(s, from + 1);
    }
  }

  /** The names the validation test expects to be rejected: empty, or holding ' ' or '='. */
  lemma UsernameTableRejects()
    ensures !ValidateUsername("") && !ValidateUsername(" ") && !ValidateUsername("=") && !ValidateUsername("==")
    ensures !ValidateUsername("bob ") && !ValidateUsername("bob 123")
  {
    assert !IsTokenChar(" "[0]);
    assert !IsTokenChar("="[0]);
    assert !IsTokenChar("=="[0]);
    assert !IsTokenChar("bob "[3]);
    assert !IsTokenChar("bob 123"[3]);
  }

  /** The names the validation test expects to be accepted. */
  lemma UsernameTableAccepts()
    ensures ValidateUsername("_") && ValidateUsername("_-") && ValidateUsername("bob")
    ensures ValidateUsername("123bob") && ValidateUsername("bob123") && ValidateUsername("_bob")
    ensures ValidateUsername("bob-") && ValidateUsername("-bob_")
  {
  }

  /** A user as the session layer sees it. */
  datatype User = User(username: string, anonymous: bool)
  {
    predicate IsAuthenticated() { !anonymous }

    predicate IsActive() { true }

    predicate IsAnonymous() { anonymous }
  }

  /** The user of a request without a login. */
  function DefaultUser(): (u: User)
    ensures u.username == "Guest" && u.IsAnonymous() && !u.IsAuthenticated()
  {
    User("Guest", true)
  }

  /** A user record of the database. */
  datatype SqlUser = SqlUser(username: string, passwordHash: string)
  {
    function IntoUser(): (u: User)
      ensures u.username == username && u.IsAuthenticated() && !u.IsAnonymous()
    {
      User(username, false)
    }
  }

  /** Every user is active, and is authenticated exactly when not anonymous. */
  lemma UserFlags(u: User)
    ensures u.IsActive() && (u.IsAuthenticated() <==> !u.IsAnonymous())
  {
  }

  /** The database table of users, keyed by record id. */
  type Users = map<string, SqlUser>

  /** Every record is stored under its own valid username. */
  ghost predicate WellFormed(db: Users)
  {
    forall name :: name in db ==> db[name].username == name && ValidateUsername(name)
  }

  const UsernameTaken: string := "Username is taken"
  const UsernameInvalid: string := "Username is invalid"
  const PasswordsDidNotMatch: string := "Passwords did not match"
  const FailedToCreateUser: string := "Failed to create user"
  const UserDoesNotExist: string := "User does not exist"
  const IncorrectPassword: string := "Incorrect password"

  /** A successful signup: the table with the new record, and where the browser goes next. */
  datatype SignedUp = SignedUp(db: Users, redirect: string)

  /**
   * `signup`: the checks in the source's order. `hash` is bcrypt's hash and
   * `created` whether the database accepted the new record. It fails with the
   * first failing check, in the order taken name, invalid name, mismatched
   * confirmation, database failure; it succeeds exactly when all pass, adding
   * the one new record and changing no other.
   */
  function Signup(db: Users, username: string, password: string, confirmation: string,
                  hash: string -> string, created: bool): (r: Result<SignedUp, string>)
    ensures r == Err(UsernameTaken) <==> username in db
    ensures r == Err(UsernameInvalid) <==> username !in db && !ValidateUsername(username)
    ensures r == Err(PasswordsDidNotMatch) <==> username !in db && ValidateUsername(username) && password != confirmation
    ensures r == Err(FailedToCreateUser) <==>
              username !in db && ValidateUsername(username) && password == confirmation && !created
    ensures r.Ok? <==> username !in db && ValidateUsername(username) && password == confirmation && created
    ensures r.Ok? ==> && r.value.redirect == "/" && r.value.db.Keys == db.Keys + {username}
                      && r.value.db[username] == SqlUser(username, hash(password))
                      && forall name :: name in db ==> r.value.db[name] == db[name]
  {
    if username in db then Err(UsernameTaken)
    else if !ValidateUsername(username) then Err(UsernameInvalid)
    else if password != confirmation then Err(PasswordsDidNotMatch)
    else if !created then Err(FailedToCreateUser)
    else Ok(SignedUp(db[username := SqlUser(username, hash(password))], "/"))
  }

  /** A successful login: the user id handed to the session layer and the redirect. */
  datatype LoggedIn = LoggedIn(userId: string, redirect: string)

  /**
   * `login`: the checks in the source's order; `verify` is bcrypt's verify. It
   * fails with the first failing check, in the order unknown user, invalid name,
   * wrong password, and succeeds exactly when all pass, handing over the stored
   * record's name and sending the user to their index note. In a well-formed
   * table the name check never fires and the stored name is the one given.
   */
  function Login(db: Users, username: string, password: string, verify: (string, string) -> bool): (r: Result<LoggedIn, string>)
    ensures r == Err(UserDoesNotExist) <==> username !in db
    ensures r == Err(UsernameInvalid) <==> username in db && !ValidateUsername(username)
    ensures r == Err(IncorrectPassword) <==>
              username in db && ValidateUsername(username) && !verify(password, db[username].passwordHash)
    ensures r.Ok? <==> username in db && ValidateUsername(username) && verify(password, db[username].passwordHash)
    ensures r.Ok? ==> r.value == LoggedIn(db[username].username, "/" + db[username].username + "/notes/index.md")
    ensures WellFormed(db) ==> r != Err(UsernameInvalid)
                               && (r.Ok? ==> r.value == LoggedIn(username, "/" + username + "/notes/index.md"))
  {
    if username !in db then Err(UserDoesNotExist)
    else if !ValidateUsername(username) then Err(UsernameInvalid)
    else if !verify(password, db[username].passwordHash) then Err(IncorrectPassword)
    else Ok(LoggedIn(db[username].username, "/" + db[username].username + "/notes/index.md"))
  }

  /** Signup keeps every record under its own valid name. */
  lemma SignupKeepsWellFormed(db: Users, username: string, password: string, confirmation: string,
                              hash: string -> string, created: bool)
    requires WellFormed(db)
    ensures var r := Signup(db, username, password, confirmation, hash, created);
            r.Ok? ==> WellFormed(r.value.db)
  {
  }

  /**
   * After a successful signup, logging in with the same name and password
   * succeeds whenever bcrypt verifies a password against its own hash, whatever
   * else the table holds.
   */
  lemma SignupThenLogin(db: Users, username: string, password: string,
                        hash: string -> string, verify: (string, string) -> bool)
    requires verify(password, hash(password))
    requires Signup(db, username, password, password, hash, true).Ok?
    ensures var db' := Signup(db, username, password, password, hash, true).value.db;
            Login(db', username, password, verify) == Ok(LoggedIn(username, "/" + username + "/notes/index.md"))
  {
  }

  /**
   * Valid usernames hold no '&', so the client's unencoded login body names the
   * credentials of a valid user unambiguously.
   */
  lemma ValidLoginBodyIsUnambiguous(u1: string, p1: string, u2: string, p2: string)
    requires ValidateUsername(u1) && ValidateUsername(u2)
    requires ClientAuth.LoginBody(u1, p1) == ClientAuth.LoginBody(u2, p2)
    ensures u1 == u2 && p1 == p2
  {
    assert !IsTokenChar('&');
    ClientAuth.LoginBodyDeterminesCredentials(u1, p1, u2, p2);
  }
}
