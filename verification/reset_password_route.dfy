/**
 * `POST /api/auth/reset-password`: field checks, then the account whose (lower-cased)
 * email holds the given unexpired reset token gets the new password (hashed on save)
 * and loses the token, so a reset link works once.
 */
module ResetPasswordRoute {
  import opened Wrappers
  import opened JsStrings
  import opened UserModel
  import opened Database
  import opened Http
  import opened Accounts
  import opened Handler

  datatype ResetRequest = ResetRequest(
    email: Option<string>, token: Option<string>, password: Option<string>, confirmPassword: Option<string>)

  const InvalidToken := "Invalid or expired reset token"
  const ResetDone := "Password reset successful! You can now log in with your new password."

  const Required := "All fields are required"

  /** The checks on the two passwords once every field is given: equal first, then long enough. */
  function PasswordChecks(password: string, confirmPassword: string): (r: Option<string>)
    ensures r.None? <==> password == confirmPassword && Utf16Length(password) >= MinPassword
    ensures password != confirmPassword ==> r == Some("Passwords do not match")
    ensures password == confirmPassword && Utf16Length(password) < MinPassword
            ==> r == Some("Password must be at least 6 characters")
  {
    if password != confirmPassword then Some("Passwords do not match")
    else if Utf16Length(password) < MinPassword then Some("Password must be at least 6 characters")
    else None
  }

  /** The checks before any store access, in order; the first failure is the reply. */
  function Precheck(req: ResetRequest): (r: Option<string>)
    ensures r.None? <==>
      && Filled(req.email) && Filled(req.token) && Filled(req.password) && Filled(req.confirmPassword)
      && req.password == req.confirmPassword && Utf16Length(req.password.value) >= MinPassword
    ensures !(Filled(req.email) && Filled(req.token) && Filled(req.password) && Filled(req.confirmPassword))
            ==> r == Some(Required)
    ensures Filled(req.email) && Filled(req.token) && Filled(req.password) && Filled(req.confirmPassword)
            && req.password != req.confirmPassword
            ==> r == Some("Passwords do not match")
    ensures Filled(req.email) && Filled(req.token) && Filled(req.password) && Filled(req.confirmPassword)
            && req.password == req.confirmPassword && Utf16Length(req.password.value) < MinPassword
            ==> r == Some("Password must be at least 6 characters")
  {
    if !Filled(req.email) || !Filled(req.token) || !Filled(req.password) || !Filled(req.confirmPassword) then
      Some(Required)
    else PasswordChecks(req.password.value, req.confirmPassword.value)
  }

  /** The account the request's email and token select at `now`, if any. */
  function Holder(st: Store, req: ResetRequest, now: int): Option<nat>
    requires Filled(req.email) && Filled(req.token)
  {
    FindUser(st, ByResetToken(ToLower(req.email.value), req.token.value, now))
  }

  /** The account as the handler leaves it before saving: new plain password, no reset token. */
  function WithNewPassword(u: User, password: string): (v: User)
    ensures SameKeys(u, v) && v.password == Some(Plain(password))
    ensures v.passwordResetToken.None? && v.passwordResetTokenExpires.None?
  {
    u.(password := Some(Plain(password)), passwordResetToken := None, passwordResetTokenExpires := None)
  }

  function ResetPassword(st: Store, req: ResetRequest, now: int): (r: Reply)
    ensures r.mail.None?
    ensures Precheck(req).Some? ==> r == Answer(st, Fail(400, Precheck(req).value))
    ensures Precheck(req).None? && Holder(st, req, now).None? ==> r == Answer(st, Fail(400, InvalidToken))
    ensures !Succeeded(r.response) ==> r.store == st && r.response.status == 400
    ensures Succeeded(r.response) ==>
      && Precheck(req).None? && Holder(st, req, now).Some?
      && var i := Holder(st, req, now).value;
      && st.users[i].email == ToLower(req.email.value)
      && st.users[i].passwordResetToken == req.token
      && st.users[i].passwordResetTokenExpires.value > now
      && r.store == st.(users := st.users[i := st.users[i].(password := Some(Hash(req.password.value)),
                                                            passwordResetToken := None, passwordResetTokenExpires := None)])
      && r.response == Success(200, Some(ResetDone), None)
    ensures Precheck(req).None? && Holder(st, req, now).Some? && UniqueUsers(st.users)
            && ValidUser(st.users[Holder(st, req, now).value])
            ==> Succeeded(r.response)
    ensures UniqueUsers(st.users) ==> UniqueUsers(r.store.users)
  {
    match Precheck(req)
    case Some(e) => Answer(st, Fail(400, e))
    case None =>
      match Holder(st, req, now)
      case None => Answer(st, Fail(400, InvalidToken))
      case Some(i) => ResetAt(st, i, req.password.value)
  }

  /** The account at `i` given `password` and saved; a failed save is 400 with its message. */
  function ResetAt(st: Store, i: nat, password: string): (r: Reply)
    requires i < |st.users|
    ensures r.mail.None?
    ensures !Succeeded(r.response) ==> r.store == st && r.response.status == 400
    ensures Succeeded(r.response) ==>
      && r.store == st.(users := st.users[i := st.users[i].(password := Some(Hash(password)),
                                                            passwordResetToken := None, passwordResetTokenExpires := None)])
      && r.response == Success(200, Some(ResetDone), None)
    ensures UniqueUsers(st.users) && ValidUser(st.users[i]) && Utf16Length(password) >= MinPassword ==> Succeeded(r.response)
    ensures UniqueUsers(st.users) ==> UniqueUsers(r.store.users)
  {
    match SaveUser(st, i, WithNewPassword(st.users[i], password), true)
    case Err(e) => Answer(st, Fail(400, e))
    case Ok(st2) => Answer(st2, Success(200, Some(ResetDone), None))
  }

  /** Once a reset token has been used, the same request never succeeds again. */
  lemma {:induction false} ResetIsOneShot(st: Store, req: ResetRequest, now: int, again: ResetRequest, later: int)
    requires UniqueUsers(st.users)
    requires Succeeded(ResetPassword(st, req, now).response)
    requires again.email == req.email && again.token == req.token
    ensures !Succeeded(ResetPassword(ResetPassword(st, req, now).store, again, later).response)
  {
    var i := Holder(st, req, now).value;
    var st2 := ResetPassword(st, req, now).store;
    var f := ByResetToken(ToLower(req.email.value), req.token.value, later);
    forall k | 0 <= k < |st2.users| ensures !f(st2.users[k]) {
      if k != i {
        if k < i { assert !Clash(st.users[k], st.users[i]); } else { assert !Clash(st.users[i], st.users[k]); }
      }
    }
  }

  /** The body as parsed: `token` is a string or `{ "$ne": null }`, handed to the query as it is. */
  datatype JsonResetRequest = JsonResetRequest(
    email: Option<string>, token: Option<TokenQuery>, password: Option<string>, confirmPassword: Option<string>)

  /** The request with a string token, as the checked handler passes it on. */
  function WithToken(req: JsonResetRequest, token: Option<string>): ResetRequest {
    ResetRequest(req.email, token, req.password, req.confirmPassword)
  }

  /**
   * The handler as written: `token` goes into `findOne` unchecked, so the operator object
   * `{ "$ne": null }` selects the account by its email alone, whatever reset token it holds.
   */
  function ResetPasswordAsWritten(st: Store, req: JsonResetRequest, now: int): (r: Reply)
    ensures r.mail.None?
    ensures req.token.None? ==> r == ResetPassword(st, WithToken(req, None), now)
    ensures req.token.Some? && req.token.value.Text? ==> r == ResetPassword(st, WithToken(req, Some(req.token.value.s)), now)
    ensures !Succeeded(r.response) ==> r.store == st && r.response.status == 400
    ensures Succeeded(r.response) ==>
      && req.email.Some? && req.token.Some? && req.password.Some?
      && exists i :: (0 <= i < |st.users| && st.users[i].email == ToLower(req.email.value)
                      && TokenMatches(st.users[i].passwordResetToken, req.token.value)
                      && r.store.users == st.users[i := st.users[i].(password := Some(Hash(req.password.value)),
                                                                      passwordResetToken := None, passwordResetTokenExpires := None)])
    ensures (&& Filled(req.email) && Present(req.token) && Filled(req.password) && Filled(req.confirmPassword)
             && PasswordChecks(req.password.value, req.confirmPassword.value).None?
             && FindUser(st, ByResetQuery(ToLower(req.email.value), req.token.value, now)).Some?
             && UniqueUsers(st.users)
             && ValidUser(st.users[FindUser(st, ByResetQuery(ToLower(req.email.value), req.token.value, now)).value]))
            ==> Succeeded(r.response)
  {
    if !Filled(req.email) || !Present(req.token) || !Filled(req.password) || !Filled(req.confirmPassword) then
      Answer(st, Fail(400, Required))
    else
      match PasswordChecks(req.password.value, req.confirmPassword.value)
      case Some(e) => Answer(st, Fail(400, e))
      case None =>
        match FindUser(st, ByResetQuery(ToLower(req.email.value), req.token.value, now))
        case None => Answer(st, Fail(400, InvalidToken))
        case Some(i) => ResetAt(st, i, req.password.value)
  }

  /** The handler with a token that is not a string refused: only the holder of the token can reset. */
  function ResetPasswordChecked(st: Store, req: JsonResetRequest, now: int): (r: Reply)
    ensures req.token == Some(NotNull) ==> r == Answer(st, Fail(400, InvalidToken))
    ensures !Succeeded(r.response) ==> r.store == st && r.response.status == 400
    ensures Succeeded(r.response) ==>
      && req.email.Some? && req.token.Some? && req.token.value.Text? && req.password.Some?
      && exists i :: (0 <= i < |st.users| && st.users[i].email == ToLower(req.email.value)
                      && st.users[i].passwordResetToken == Some(req.token.value.s)
                      && r.store.users == st.users[i := st.users[i].(password := Some(Hash(req.password.value)),
                                                                      passwordResetToken := None, passwordResetTokenExpires := None)])
  {
    match req.token
    case None => ResetPassword(st, WithToken(req, None), now)
    case Some(Text(t)) => ResetPassword(st, WithToken(req, Some(t)), now)
    case Some(NotNull) => Answer(st, Fail(400, InvalidToken))
  }

  /** A request carrying the operator object `{ "$ne": null }` in place of the token. */
  function Forged(email: string, password: string): JsonResetRequest {
    JsonResetRequest(Some(email), Some(NotNull), Some(password), Some(password))
  }

  /** The operator object selects the account by its email alone, whichever token it holds. */
  lemma ForgedSelects(st: Store, i: nat, email: string, now: int)
    requires UniqueUsers(st.users) && i < |st.users|
    requires ToLower(email) == st.users[i].email
    requires st.users[i].passwordResetToken.Some?
    requires st.users[i].passwordResetTokenExpires.Some? && st.users[i].passwordResetTokenExpires.value > now
    ensures FindUser(st, ByResetQuery(ToLower(email), NotNull, now)) == Some(i)
  {
    var f := ByResetQuery(ToLower(email), NotNull, now);
    assert f(st.users[i]);
    var j := FindUser(st, f);
    if j.value < i {
      assert Clash(st.users[j.value], st.users[i]);
    }
  }

  /**
   * Whoever knows the email of an account with a pending reset sets its password with the
   * operator object as the token, without knowing the token itself.
   */
  lemma ForgedResetSucceeds(st: Store, i: nat, email: string, password: string, now: int)
    requires UniqueUsers(st.users) && i < |st.users| && ValidUser(st.users[i])
    requires ToLower(email) == st.users[i].email
    requires st.users[i].passwordResetToken.Some?
    requires st.users[i].passwordResetTokenExpires.Some? && st.users[i].passwordResetTokenExpires.value > now
    requires Utf16Length(password) >= MinPassword
    ensures var r := ResetPasswordAsWritten(st, Forged(email, password), now);
      && Succeeded(r.response)
      && r.store.users == st.users[i := st.users[i].(password := Some(Hash(password)),
                                                      passwordResetToken := None, passwordResetTokenExpires := None)]
  {
    ForgedSelects(st, i, email, now);
    assert email != "" by {
      assert EmailPattern(st.users[i].email);
    }
    assert PasswordChecks(password, password).None?;
    assert ResetPasswordAsWritten(st, Forged(email, password), now) == ResetAt(st, i, password);
  }

  /** A string token other than the one the account holds is refused, whatever the password. */
  lemma GuessedResetFails(st: Store, i: nat, email: string, guess: string, password: string, now: int)
    requires UniqueUsers(st.users) && i < |st.users|
    requires ToLower(email) == st.users[i].email
    requires st.users[i].passwordResetToken != Some(guess)
    ensures !Succeeded(ResetPassword(st, ResetRequest(Some(email), Some(guess), Some(password), Some(password)), now).response)
  {
    var req := ResetRequest(Some(email), Some(guess), Some(password), Some(password));
    var r := ResetPassword(st, req, now);
    if Succeeded(r.response) {
      var k := Holder(st, req, now).value;
      if k < i {
        assert Clash(st.users[k], st.users[i]);
      } else if k > i {
        assert Clash(st.users[i], st.users[k]);
      }
    }
  }

  /**
   * The discrepancy: with `{ "$ne": null }` as the token, the handler as written sets a new
   * password on any account with a pending reset, knowing only its email, while every string
   * other than the stored token is refused; the checked handler refuses the operator object.
   */
  lemma ResetWithoutToken(st: Store, i: nat, email: string, guess: string, password: string, now: int)
    requires UniqueUsers(st.users) && i < |st.users| && ValidUser(st.users[i])
    requires ToLower(email) == st.users[i].email
    requires st.users[i].passwordResetToken.Some? && st.users[i].passwordResetToken != Some(guess)
    requires st.users[i].passwordResetTokenExpires.Some? && st.users[i].passwordResetTokenExpires.value > now
    requires Utf16Length(password) >= MinPassword
    ensures && Succeeded(ResetPasswordAsWritten(st, Forged(email, password), now).response)
            && ResetPasswordAsWritten(st, Forged(email, password), now).store.users[i].password == Some(Hash(password))
            && !Succeeded(ResetPassword(st, ResetRequest(Some(email), Some(guess), Some(password), Some(password)), now).response)
            && ResetPasswordChecked(st, Forged(email, password), now) == Answer(st, Fail(400, InvalidToken))
  {
    ForgedResetSucceeds(st, i, email, password, now);
    GuessedResetFails(st, i, email, guess, password, now);
  }
}
