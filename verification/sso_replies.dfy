/** The replies shared by the handlers behind a Google sign-in session. */
module SsoReplies {
  import opened Wrappers
  import opened JsStrings
  import opened UserModel
  import opened Database
  import opened Http
  import opened Accounts

  /** A reply with body `{ error }`. */
  function Refuse(status: nat, reason: string): (r: Response)
    ensures r.status == status && r.body == ErrorOnly(reason)
  {
    Response(status, ErrorOnly(reason))
  }

  /** The 200 reply of a completed or recognised Google account. */
  function SsoReply(u: User, message: Option<string>, now: int): (r: Response)
    ensures r.status == 200 && Succeeded(r) && r.body.message == message
    ensures r.body.data == Some(SsoSession(u.id, u.username, u.email, u.organization, Sign(Claims(u.id, u.username), now)))
  {
    Success(200, message, Some(SsoSession(u.id, u.username, u.email, u.organization, Sign(Claims(u.id, u.username), now))))
  }

  /** The account of the signed-in Google user: the first with the session's email, lower-cased by the setter. */
  function SessionUser(st: Store, sessionEmail: string): (r: Option<nat>)
    ensures r.Some? ==> r.value < |st.users| && st.users[r.value].email == ToLower(sessionEmail)
    ensures r.None? ==> forall k :: 0 <= k < |st.users| ==> st.users[k].email != ToLower(sessionEmail)
  {
    FindUser(st, ByEmail(ToLower(sessionEmail)))
  }
}
