/**
 * `POST /api/auth/verify-email`: the account whose (lower-cased) email holds the given
 * token, unexpired, is marked verified and the token is cleared, so it works once.
 */
module VerifyEmailRoute {
  import opened Wrappers
  import opened JsStrings
  import opened UserModel
  import opened Database
  import opened Http
  import opened Accounts
  import opened Handler

  datatype VerifyRequest = VerifyRequest(email: Option<string>, token: Option<string>)

  const Required := "Email and token are required"
  const InvalidToken := "Invalid or expired verification token"
  const Verified := "Email verified successfully! You can now log in."

  /** The account after verification: verified, with no token left. */
  function MarkVerified(u: User): (v: User)
    ensures SameKeys(u, v) && v.isEmailVerified
    ensures v.emailVerificationToken.None? && v.emailVerificationTokenExpires.None?
    ensures v.password == u.password && v.passwordResetToken == u.passwordResetToken
  {
    u.(isEmailVerified := true, emailVerificationToken := None, emailVerificationTokenExpires := None)
  }

  /** The account the request's email and token select at `now`, if any. */
  function Holder(st: Store, req: VerifyRequest, now: int): Option<nat>
    requires Filled(req.email) && Filled(req.token)
  {
    FindUser(st, ByVerificationToken(ToLower(req.email.value), req.token.value, now))
  }

  function VerifyEmail(st: Store, req: VerifyRequest, now: int): (r: Reply)
    ensures r.mail.None?
    ensures !Filled(req.email) || !Filled(req.token) ==> r == Answer(st, Fail(400, Required))
    ensures Filled(req.email) && Filled(req.token) && Holder(st, req, now).None? ==> r == Answer(st, Fail(400, InvalidToken))
    ensures !Succeeded(r.response) ==> r.store == st && r.response.status == 400
    ensures Succeeded(r.response) ==>
      && Filled(req.email) && Filled(req.token) && Holder(st, req, now).Some?
      && var i := Holder(st, req, now).value;
      && st.users[i].email == ToLower(req.email.value)
      && st.users[i].emailVerificationToken == req.token
      && st.users[i].emailVerificationTokenExpires.value > now
      && r.store == st.(users := st.users[i := MarkVerified(st.users[i])])
      && r.response == Success(200, Some(Verified), None)
    ensures Filled(req.email) && Filled(req.token) && Holder(st, req, now).Some? && UniqueUsers(st.users)
            && ValidUser(st.users[Holder(st, req, now).value])
            ==> Succeeded(r.response)
    ensures UniqueUsers(st.users) ==> UniqueUsers(r.store.users)
  {
    if !Filled(req.email) || !Filled(req.token) then Answer(st, Fail(400, Required))
    else
      match Holder(st, req, now)
      case None => Answer(st, Fail(400, InvalidToken))
      case Some(i) => VerifyAt(st, i)
  }

  /** The account at `i` marked verified and saved; a failed save is 400 with its message. */
  function VerifyAt(st: Store, i: nat): Reply
    requires i < |st.users|
  {
    match SaveUser(st, i, MarkVerified(st.users[i]), false)
    case Err(e) => Answer(st, Fail(400, e))
    case Ok(st2) => Answer(st2, Success(200, Some(Verified), None))
  }

  /** Once a token has verified an account, the same request never succeeds again. */
  lemma {:induction false} VerifyIsOneShot(st: Store, req: VerifyRequest, now: int, later: int)
    requires UniqueUsers(st.users)
    requires Succeeded(VerifyEmail(st, req, now).response)
    ensures !Succeeded(VerifyEmail(VerifyEmail(st, req, now).store, req, later).response)
  {
    var i := Holder(st, req, now).value;
    var st2 := VerifyEmail(st, req, now).store;
    var f := ByVerificationToken(ToLower(req.email.value), req.token.value, later);
    forall k | 0 <= k < |st2.users| ensures !f(st2.users[k]) {
      if k != i {
        if k < i { assert !Clash(st.users[k], st.users[i]); } else { assert !Clash(st.users[i], st.users[k]); }
      }
    }
  }

  /** The body as parsed: `token` is a string or `{ "$ne": null }`, handed to the query as it is. */
  datatype JsonVerifyRequest = JsonVerifyRequest(email: Option<string>, token: Option<TokenQuery>)

  /**
   * The handler as written: `token` goes into `findOne` unchecked, so the operator object
   * `{ "$ne": null }` selects the account by its email alone, whatever token it holds.
   */
  function VerifyEmailAsWritten(st: Store, req: JsonVerifyRequest, now: int): (r: Reply)
    ensures r.mail.None?
    ensures req.token.None? ==> r == VerifyEmail(st, VerifyRequest(req.email, None), now)
    ensures req.token.Some? && req.token.value.Text? ==> r == VerifyEmail(st, VerifyRequest(req.email, Some(req.token.value.s)), now)
    ensures !Succeeded(r.response) ==> r.store == st && r.response.status == 400
    ensures Succeeded(r.response) ==>
      && req.email.Some? && req.token.Some?
      && exists i :: (0 <= i < |st.users| && st.users[i].email == ToLower(req.email.value)
                      && TokenMatches(st.users[i].emailVerificationToken, req.token.value)
                      && r.store.users == st.users[i := MarkVerified(st.users[i])])
    ensures (&& Filled(req.email) && Present(req.token)
             && FindUser(st, ByVerificationQuery(ToLower(req.email.value), req.token.value, now)).Some?
             && UniqueUsers(st.users)
             && ValidUser(st.users[FindUser(st, ByVerificationQuery(ToLower(req.email.value), req.token.value, now)).value]))
            ==> Succeeded(r.response)
  {
    if !Filled(req.email) || !Present(req.token) then Answer(st, Fail(400, Required))
    else
      match FindUser(st, ByVerificationQuery(ToLower(req.email.value), req.token.value, now))
      case None => Answer(st, Fail(400, InvalidToken))
      case Some(i) => VerifyAt(st, i)
  }

  /** The handler with a token that is not a string refused: only the holder of the token can verify. */
  function VerifyEmailChecked(st: Store, req: JsonVerifyRequest, now: int): (r: Reply)
    ensures req.token == Some(NotNull) ==> r == Answer(st, Fail(400, InvalidToken))
    ensures !Succeeded(r.response) ==> r.store == st && r.response.status == 400
    ensures Succeeded(r.response) ==>
      && req.email.Some? && req.token.Some? && req.token.value.Text?
      && exists i :: (0 <= i < |st.users| && st.users[i].email == ToLower(req.email.value)
                      && st.users[i].emailVerificationToken == Some(req.token.value.s)
                      && r.store.users == st.users[i := MarkVerified(st.users[i])])
  {
    match req.token
    case None => VerifyEmail(st, VerifyRequest(req.email, None), now)
    case Some(Text(t)) => VerifyEmail(st, VerifyRequest(req.email, Some(t)), now)
    case Some(NotNull) => Answer(st, Fail(400, InvalidToken))
  }

  /** A request carrying the operator object `{ "$ne": null }` in place of the token. */
  function Forged(email: string): JsonVerifyRequest {
    JsonVerifyRequest(Some(email), Some(NotNull))
  }

  /** The operator object selects the account by its email alone, whichever token it holds. */
  lemma ForgedSelects(st: Store, i: nat, email: string, now: int)
    requires UniqueUsers(st.users) && i < |st.users|
    requires ToLower(email) == st.users[i].email
    requires st.users[i].emailVerificationToken.Some?
    requires st.users[i].emailVerificationTokenExpires.Some? && st.users[i].emailVerificationTokenExpires.value > now
    ensures FindUser(st, ByVerificationQuery(ToLower(email), NotNull, now)) == Some(i)
  {
    var f := ByVerificationQuery(ToLower(email), NotNull, now);
    assert f(st.users[i]);
    var j := FindUser(st, f);
    if j.value < i {
      assert Clash(st.users[j.value], st.users[i]);
    }
  }

  /** A string token other than the one the account holds is refused. */
  lemma GuessedVerifyFails(st: Store, i: nat, email: string, guess: string, now: int)
    requires UniqueUsers(st.users) && i < |st.users|
    requires ToLower(email) == st.users[i].email
    requires st.users[i].emailVerificationToken != Some(guess)
    ensures !Succeeded(VerifyEmail(st, VerifyRequest(Some(email), Some(guess)), now).response)
  {
    var req := VerifyRequest(Some(email), Some(guess));
    if Succeeded(VerifyEmail(st, req, now).response) {
      var k := Holder(st, req, now).value;
      if k < i {
        assert Clash(st.users[k], st.users[i]);
      } else if k > i {
        assert Clash(st.users[i], st.users[k]);
      }
    }
  }

  /**
   * The discrepancy: with `{ "$ne": null }` as the token, the handler as written verifies any
   * account with a pending token, knowing only its email, while every string other than the
   * stored token is refused; the checked handler refuses the operator object.
   */
  lemma VerifyWithoutToken(st: Store, i: nat, email: string, guess: string, now: int)
    requires UniqueUsers(st.users) && i < |st.users| && ValidUser(st.users[i])
    requires ToLower(email) == st.users[i].email
    requires st.users[i].emailVerificationToken.Some? && st.users[i].emailVerificationToken != Some(guess)
    requires st.users[i].emailVerificationTokenExpires.Some? && st.users[i].emailVerificationTokenExpires.value > now
    ensures && Succeeded(VerifyEmailAsWritten(st, Forged(email), now).response)
            && VerifyEmailAsWritten(st, Forged(email), now).store.users == st.users[i := MarkVerified(st.users[i])]
            && !Succeeded(VerifyEmail(st, VerifyRequest(Some(email), Some(guess)), now).response)
            && VerifyEmailChecked(st, Forged(email), now) == Answer(st, Fail(400, InvalidToken))
  {
    ForgedSelects(st, i, email, now);
    assert email != "" by {
      assert EmailPattern(st.users[i].email);
    }
    GuessedVerifyFails(st, i, email, guess, now);
  }
}
