/** `GET /api/auth/profile-status`: whether the signed-in Google account has completed its profile. Read-only. */
module ProfileStatusRoute {
  import opened Wrappers
  import opened JsStrings
  import opened UserModel
  import opened Database
  import opened Http
  import opened SsoReplies

  function GetProfileStatus(st: Store, sessionEmail: Option<string>): (r: Response)
    ensures !Filled(sessionEmail) ==> r == Refuse(401, "Unauthorized")
    ensures Filled(sessionEmail) && SessionUser(st, sessionEmail.value).None? ==> r == Refuse(404, "User not found")
    ensures Filled(sessionEmail) && SessionUser(st, sessionEmail.value).Some? ==>
      var u := st.users[SessionUser(st, sessionEmail.value).value];
      && r.status == 200 && r.body.ProfileStatus?
      && r.body.isComplete == u.profileComplete
      && r.body.username == u.username && r.body.organization == u.organization
  {
    if !Filled(sessionEmail) then Refuse(401, "Unauthorized")
    else
      match SessionUser(st, sessionEmail.value)
      case None => Refuse(404, "User not found")
      case Some(i) =>
        var u := st.users[i];
        Response(200, ProfileStatus(u.profileComplete, u.username, u.organization))
  }
}
