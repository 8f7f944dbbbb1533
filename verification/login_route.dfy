/**
 * `POST /api/auth/login`: lookup by lower-cased username, password check, then the
 * email-verification gate; success hands out a 7-day token for `{ userId, username }`.
 *
 * Two versions: `LoginAsWritten` follows the handler, in which comparing against a user
 * who has no password (one created through Google sign-in) throws and is reported as
 * 400 with the hashing library's message; `Login` treats that case as a wrong password.
 */
module LoginRoute {
  import opened Wrappers
  import opened JsStrings
  import opened Schema
  import opened UserModel
  import opened Database
  import opened Http
  import opened Accounts

  datatype LoginRequest = LoginRequest(username: Option<string>, password: Option<string>)

  const InvalidCredentials := "Invalid username or password"
  const Unverified := "Please verify your email before logging in"

  /** The 403 reply: `success: false`, the error, and `needsVerification: true`. */
  function NeedsVerification(): (r: Response)
    ensures r.status == 403 && r.body.Envelope? && r.body.needsVerification && !r.body.success
  {
    Response(403, Envelope(false, None, Some(Unverified), None, true))
  }

  /** The 200 reply of a successful sign-in. */
  function Session(u: User, now: int): (r: Response)
    ensures r.status == 200 && Succeeded(r)
    ensures r.body.data == Some(LoginSession(u.id, u.username, u.email, Sign(Claims(u.id, u.username), now)))
  {
    Success(200, Some("Login successful"), Some(LoginSession(u.id, u.username, u.email, Sign(Claims(u.id, u.username), now))))
  }

  /** The user a login request names, if any. */
  function Named(st: Store, req: LoginRequest): Option<nat>
    requires Filled(req.username)
  {
    FindUser(st, ByUsername(ToLower(req.username.value)))
  }

  /** The handler as written: a user without a stored password makes the comparison throw. */
  function LoginAsWritten(st: Store, req: LoginRequest, now: int): (r: Response)
    ensures !Filled(req.username) || !Filled(req.password) ==> r == Fail(400, "Username and password are required")
    ensures Filled(req.username) && Filled(req.password) && Named(st, req).None? ==> r == Fail(401, InvalidCredentials)
    ensures Filled(req.username) && Filled(req.password) && Named(st, req).Some? && st.users[Named(st, req).value].password.None?
            ==> r == Fail(400, "Illegal arguments: string, undefined")
    ensures Filled(req.username) && Filled(req.password) && Named(st, req).Some? && st.users[Named(st, req).value].password.Some?
            ==> r == Login(st, req, now)
  {
    if !Filled(req.username) || !Filled(req.password) then Fail(400, "Username and password are required")
    else
      match Named(st, req)
      case None => Fail(401, InvalidCredentials)
      case Some(i) =>
        var u := st.users[i];
        match Compare(req.password.value, u.password)
        case Err(e) => Fail(400, e)
        case Ok(ok) =>
          if !ok then Fail(401, InvalidCredentials)
          else if !u.isEmailVerified then NeedsVerification()
          else Session(u, now)
  }

  /**
   * The handler with a missing password counted as a mismatch: an unknown username and a
   * wrong (or absent) password get the same 401; the right password of an unverified
   * account gets 403; otherwise the session.
   */
  function Login(st: Store, req: LoginRequest, now: int): (r: Response)
    ensures !Filled(req.username) || !Filled(req.password) ==> r == Fail(400, "Username and password are required")
    ensures Filled(req.username) && Filled(req.password) ==>
      var i := Named(st, req);
      && (r.status == 401 <==> i.None? || st.users[i.value].password != Some(Hash(req.password.value)))
      && (r.status == 401 ==> r == Fail(401, InvalidCredentials))
      && (r.status == 403 <==> i.Some? && st.users[i.value].password == Some(Hash(req.password.value)) && !st.users[i.value].isEmailVerified)
      && (r.status == 403 ==> r == NeedsVerification())
      && (r.status == 200 <==> i.Some? && st.users[i.value].password == Some(Hash(req.password.value)) && st.users[i.value].isEmailVerified)
      && (r.status == 200 ==> r == Session(st.users[i.value], now))
  {
    if !Filled(req.username) || !Filled(req.password) then Fail(400, "Username and password are required")
    else
      match Named(st, req)
      case None => Fail(401, InvalidCredentials)
      case Some(i) =>
        var u := st.users[i];
        if Compare(req.password.value, u.password) != Ok(true) then Fail(401, InvalidCredentials)
        else if !u.isEmailVerified then NeedsVerification()
        else Session(u, now)
  }

  /** An account created through Google sign-in and completed with a username, but holding no password. */
  function SsoOnlyUser(): User {
    User("u1", Some("sam"), "sam@example.com", None, true, None, None, None, None,
         Some(DefaultOrganization), Some("g-1"), None, true, 0)
  }

  /**
   * The discrepancy: for that account the handler answers 400 with the hashing library's
   * message, where an unknown username gets 401, so the reply tells the two apart.
   */
  lemma SsoUserLoginThrows()
    ensures var st := Store([SsoOnlyUser()], [], []);
      && LoginAsWritten(st, LoginRequest(Some("sam"), Some("guess1")), 0) == Fail(400, "Illegal arguments: string, undefined")
      && LoginAsWritten(st, LoginRequest(Some("kim"), Some("guess1")), 0) == Fail(401, InvalidCredentials)
      && Login(st, LoginRequest(Some("sam"), Some("guess1")), 0) == Fail(401, InvalidCredentials)
  {
    var st := Store([SsoOnlyUser()], [], []);
    assert ToLower("sam") == "sam";
    assert ToLower("kim") == "kim";
    assert ByUsername("sam")(st.users[0]);
    assert !ByUsername("kim")(st.users[0]);
  }

  /** No user, wrong password, or no password: one reply, so the response does not reveal which. */
  lemma LoginDoesNotRevealAccounts(st: Store, name: string, guess: string, now: int)
    requires name != "" && guess != ""
    requires var i := FindUser(st, ByUsername(ToLower(name)));
      i.None? || st.users[i.value].password != Some(Hash(guess))
    ensures Login(st, LoginRequest(Some(name), Some(guess)), now) == Fail(401, InvalidCredentials)
  {
  }

  /**
   * The handler as written gives the same 401 for an unknown username and for a wrong
   * password, as long as the named account has a stored password.
   */
  lemma AsWrittenDoesNotRevealAccounts(st: Store, name: string, guess: string, now: int)
    requires name != "" && guess != ""
    requires var i := FindUser(st, ByUsername(ToLower(name)));
      i.None? || (st.users[i.value].password.Some? && st.users[i.value].password != Some(Hash(guess)))
    ensures LoginAsWritten(st, LoginRequest(Some(name), Some(guess)), now) == Fail(401, InvalidCredentials)
  {
  }
}
