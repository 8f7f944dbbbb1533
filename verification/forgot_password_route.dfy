/**
 * `POST /api/auth/forgot-password`: a known email gets a fresh one-hour reset token and a
 * mail with the reset link; an unknown email gets the same reply with nothing done. When
 * the mail cannot be sent the token is cleared again and the failure is reported.
 */
module ForgotPasswordRoute {
  import opened Wrappers
  import opened JsStrings
  import opened UserModel
  import opened Database
  import opened Http
  import opened Email
  import opened Accounts
  import opened Handler

  datatype ForgotRequest = ForgotRequest(email: Option<string>)

  const ResetSent := "If an account with this email exists, a password reset link has been sent."

  /** The account holding a new reset token, replacing any earlier one. */
  function WithResetToken(u: User, token: string, expires: int): (v: User)
    ensures SameKeys(u, v) && v.passwordResetToken == Some(token) && v.passwordResetTokenExpires == Some(expires)
    ensures v.password == u.password && v.isEmailVerified == u.isEmailVerified
  {
    u.(passwordResetToken := Some(token), passwordResetTokenExpires := Some(expires))
  }

  /** The account with no reset token. */
  function WithoutResetToken(u: User): (v: User)
    ensures SameKeys(u, v) && v.passwordResetToken.None? && v.passwordResetTokenExpires.None?
    ensures v.password == u.password && v.isEmailVerified == u.isEmailVerified
  {
    u.(passwordResetToken := None, passwordResetTokenExpires := None)
  }

  /** The reply to a failed delivery: the transport's message, or a fallback when it has none. */
  function DeliveryFailure(message: string): (r: Response)
    ensures r.status == 400 && r.body.Envelope? && !r.body.success && r.body.error.Some? && r.body.error.value != ""
    ensures message != "" ==> r.body.error == Some(message)
  {
    Fail(400, if message != "" then message else "Password reset request failed")
  }

  /** `token` is the random reset token; `delivery` the mail transport's outcome. */
  function ForgotPassword(st: Store, req: ForgotRequest, token: string, now: int,
                          env: Option<string>, delivery: Delivery): (r: Reply)
    ensures !Filled(req.email) ==> r == Answer(st, Fail(400, "Email is required"))
    ensures Filled(req.email) && FindUser(st, ByEmail(ToLower(req.email.value))).None?
            ==> r == Answer(st, Success(200, Some(ResetSent), None))
    ensures Filled(req.email) && FindUser(st, ByEmail(ToLower(req.email.value))).Some? && UniqueUsers(st.users)
            && ValidUser(st.users[FindUser(st, ByEmail(ToLower(req.email.value))).value])
            ==>
            var i := FindUser(st, ByEmail(ToLower(req.email.value))).value;
            if delivery.Delivered? then
              && r.store == st.(users := st.users[i := WithResetToken(st.users[i], token, now + ResetWindow)])
              && r.response == Success(200, Some(ResetSent), None)
              && r.mail.Some? && r.mail.value.to == req.email.value
              && r.mail.value.link == ResetUrl(env, token, req.email.value)
            else
              && r.store == st.(users := st.users[i := WithoutResetToken(st.users[i])])
              && r.response == DeliveryFailure(delivery.message) && r.mail.None?
    ensures r.mail.Some? ==> delivery.Delivered?
    ensures UniqueUsers(st.users) ==> UniqueUsers(r.store.users)
  {
    if !Filled(req.email) then Answer(st, Fail(400, "Email is required"))
    else
      match FindUser(st, ByEmail(ToLower(req.email.value)))
      case None => Answer(st, Success(200, Some(ResetSent), None))
      case Some(i) =>
        match SaveUser(st, i, WithResetToken(st.users[i], token, now + ResetWindow), false)
        case Err(e) => Answer(st, Fail(400, e))
        case Ok(st1) =>
          match SendPasswordResetEmail(env, req.email.value, token, delivery)
          case Ok(m) => Reply(st1, Success(200, Some(ResetSent), None), Some(m))
          case Err(message) =>
            match SaveUser(st1, i, WithoutResetToken(st1.users[i]), false)
            case Err(e) => Answer(st1, Fail(400, e))
            case Ok(st2) => Answer(st2, DeliveryFailure(message))
  }

  /** An unknown email and a known one whose mail went out get the very same reply. */
  lemma ForgotDoesNotRevealAccounts(st: Store, known: string, unknown: string, token: string, now: int, env: Option<string>)
    requires UniqueUsers(st.users) && known != "" && unknown != ""
    requires FindUser(st, ByEmail(ToLower(known))).Some? && ValidUser(st.users[FindUser(st, ByEmail(ToLower(known))).value])
    requires FindUser(st, ByEmail(ToLower(unknown))).None?
    ensures ForgotPassword(st, ForgotRequest(Some(known)), token, now, env, Delivered).response
         == ForgotPassword(st, ForgotRequest(Some(unknown)), token, now, env, Delivered).response
  {
  }
}
