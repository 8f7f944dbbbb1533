/**
 * `POST /api/auth/complete-profile`: a user who signed in with Google picks a username
 * and organization. The checks run in order, the first three before any store access;
 * the account is then completed and a 7-day token handed out.
 */
module CompleteProfileRoute {
  import opened Wrappers
  import opened JsStrings
  import opened UserModel
  import opened Database
  import opened Http
  import opened Accounts
  import opened Handler
  import opened SsoReplies

  datatype ProfileRequest = ProfileRequest(username: Option<string>, organization: Option<string>)

  const PatternMessage := "Username can only contain lowercase letters, numbers, hyphens and underscores"

  /** The checks of the request body, in order; the first failure is the reply. */
  function Precheck(req: ProfileRequest): (r: Option<string>)
    ensures r.None? <==>
      && Filled(req.username) && Filled(req.organization)
      && MinUsername <= Utf16Length(req.username.value) <= MaxUsername
      && UsernamePattern(req.username.value)
    ensures !Filled(req.username) || !Filled(req.organization) ==> r == Some("Username and organization are required")
    ensures Filled(req.username) && Filled(req.organization)
            && !(MinUsername <= Utf16Length(req.username.value) <= MaxUsername)
            ==> r == Some("Username must be between 3 and 30 characters")
    ensures Filled(req.username) && Filled(req.organization)
            && MinUsername <= Utf16Length(req.username.value) <= MaxUsername && !UsernamePattern(req.username.value)
            ==> r == Some(PatternMessage)
  {
    if !Filled(req.username) || !Filled(req.organization) then Some("Username and organization are required")
    else if Utf16Length(req.username.value) < MinUsername || Utf16Length(req.username.value) > MaxUsername then
      Some("Username must be between 3 and 30 characters")
    else if !UsernamePattern(req.username.value) then Some(PatternMessage)
    else None
  }

  /** The completed account: the chosen username and organization, and the profile marked complete. */
  function Completed(u: User, username: string, organization: string): (v: User)
    ensures v.username == Some(username) && v.organization == Some(organization) && v.profileComplete
    ensures v.id == u.id && v.email == u.email && v.googleId == u.googleId && v.password == u.password
  {
    u.(username := Some(username), organization := Some(organization), profileComplete := true)
  }

  /** `sessionEmail` is the signed-in Google account's email, missing when there is no session. */
  function CompleteProfile(st: Store, sessionEmail: Option<string>, req: ProfileRequest, now: int): (r: Reply)
    ensures r.mail.None?
    ensures !Filled(sessionEmail) ==> r == Answer(st, Refuse(401, "Unauthorized"))
    ensures Filled(sessionEmail) && Precheck(req).Some? ==> r == Answer(st, Refuse(400, Precheck(req).value))
    ensures Filled(sessionEmail) && Precheck(req).None? && FindUser(st, ByUsername(req.username.value)).Some?
            ==> r == Answer(st, Refuse(400, "Username is already taken"))
    ensures Filled(sessionEmail) && Precheck(req).None? && FindUser(st, ByUsername(req.username.value)).None?
            && SessionUser(st, sessionEmail.value).None?
            ==> r == Answer(st, Refuse(404, "User not found"))
    ensures r.response.status != 200 ==> r.store == st && !Succeeded(r.response)
    ensures r.response.status == 200 ==>
      && Filled(sessionEmail) && Precheck(req).None? && FindUser(st, ByUsername(req.username.value)).None?
      && SessionUser(st, sessionEmail.value).Some?
      && var i := SessionUser(st, sessionEmail.value).value;
      && var v := Completed(st.users[i], req.username.value, req.organization.value);
      && r.store == st.(users := st.users[i := v])
      && r.response == SsoReply(v, Some("Profile completed successfully"), now)
    ensures Filled(sessionEmail) && Precheck(req).None? && FindUser(st, ByUsername(req.username.value)).None?
            && SessionUser(st, sessionEmail.value).Some? && UniqueUsers(st.users)
            ==> var u := st.users[SessionUser(st, sessionEmail.value).value];
                (r.response.status == 200 <==> ValidUser(u.(username := req.username, organization := req.organization)))
    ensures UniqueUsers(st.users) ==> UniqueUsers(r.store.users)
  {
    if !Filled(sessionEmail) then Answer(st, Refuse(401, "Unauthorized"))
    else
      match Precheck(req)
      case Some(e) => Answer(st, Refuse(400, e))
      case None =>
        if FindUser(st, ByUsername(req.username.value)).Some? then Answer(st, Refuse(400, "Username is already taken"))
        else
          match SessionUser(st, sessionEmail.value)
          case None => Answer(st, Refuse(404, "User not found"))
          case Some(i) =>
            var v := Completed(st.users[i], req.username.value, req.organization.value);
            FreeUsernameNoClash(st, i, v);
            match SaveUser(st, i, v, false)
            case Err(_) => Answer(st, Refuse(500, "Internal server error"))
            case Ok(st2) => Answer(st2, SsoReply(v, Some("Profile completed successfully"), now))
  }

  /** A new username nobody holds cannot make the account clash with another. */
  lemma FreeUsernameNoClash(st: Store, i: nat, v: User)
    requires i < |st.users| && v.username.Some?
    requires FindUser(st, ByUsername(v.username.value)).None?
    requires v.id == st.users[i].id && v.email == st.users[i].email && v.googleId == st.users[i].googleId
    ensures UniqueUsers(st.users) ==> forall k :: 0 <= k < |st.users| && k != i ==> !Clash(st.users[k], v)
  {
    if UniqueUsers(st.users) {
      forall k | 0 <= k < |st.users| && k != i ensures !Clash(st.users[k], v) {
        assert !ByUsername(v.username.value)(st.users[k]);
        if k < i { assert !Clash(st.users[k], st.users[i]); } else { assert !Clash(st.users[i], st.users[k]); }
      }
    }
  }
}
