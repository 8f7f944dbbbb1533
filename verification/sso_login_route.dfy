/**
 * `POST /api/auth/sso-login`: exchanges a Google sign-in session for the app's own
 * token, once the account's profile is complete. It only reads the store.
 */
module SsoLoginRoute {
  import opened Wrappers
  import opened JsStrings
  import opened UserModel
  import opened Database
  import opened Http
  import opened SsoReplies

  function SsoLogin(st: Store, sessionEmail: Option<string>, now: int): (r: Response)
    ensures !Filled(sessionEmail) ==> r == Refuse(401, "Unauthorized")
    ensures Filled(sessionEmail) && SessionUser(st, sessionEmail.value).None? ==> r == Refuse(404, "User not found")
    ensures Filled(sessionEmail) && SessionUser(st, sessionEmail.value).Some? ==>
      var u := st.users[SessionUser(st, sessionEmail.value).value];
      && (!u.profileComplete ==> r == Response(200, NeedsProfileCompletion))
      && (u.profileComplete ==> r == SsoReply(u, None, now))
    ensures Succeeded(r) <==> Filled(sessionEmail) && SessionUser(st, sessionEmail.value).Some?
                              && st.users[SessionUser(st, sessionEmail.value).value].profileComplete
  {
    if !Filled(sessionEmail) then Refuse(401, "Unauthorized")
    else
      match SessionUser(st, sessionEmail.value)
      case None => Refuse(404, "User not found")
      case Some(i) =>
        var u := st.users[i];
        if !u.profileComplete then Response(200, NeedsProfileCompletion)
        else SsoReply(u, None, now)
  }
}
