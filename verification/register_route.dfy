/**
 * `POST /api/auth/register`: field checks in a fixed order, a lookup for an existing
 * email or username, creation of an unverified user holding a 24-hour verification
 * token, and the verification mail, whose failure does not fail the registration.
 */
module RegisterRoute {
  import opened Wrappers
  import opened JsStrings
  import opened Schema
  import opened UserModel
  import opened Database
  import opened Http
  import opened Email
  import opened Accounts
  import opened Handler

  datatype RegisterRequest = RegisterRequest(
    username: Option<string>, email: Option<string>, password: Option<string>,
    confirmPassword: Option<string>, organization: Option<string>)

  /** Every field of the body is a non-empty string. */
  predicate AllGiven(req: RegisterRequest) {
    Filled(req.username) && Filled(req.email) && Filled(req.password) && Filled(req.confirmPassword) && Filled(req.organization)
  }

  /** The checks before any store access, in order; the first failure is the reply. */
  function Precheck(req: RegisterRequest): (r: Option<string>)
    ensures r.None? <==>
      && AllGiven(req)
      && req.organization.value in Organizations
      && req.password == req.confirmPassword
      && Utf16Length(req.password.value) >= MinPassword
    ensures !AllGiven(req) ==> r == Some("All fields are required")
    ensures AllGiven(req) && req.organization.value !in Organizations ==> r == Some("Invalid organization")
    ensures AllGiven(req) && req.organization.value in Organizations && req.password != req.confirmPassword
            ==> r == Some("Passwords do not match")
    ensures AllGiven(req) && req.organization.value in Organizations && req.password == req.confirmPassword
            && Utf16Length(req.password.value) < MinPassword
            ==> r == Some("Password must be at least 6 characters")
  {
    if !Filled(req.username) || !Filled(req.email) || !Filled(req.password)
       || !Filled(req.confirmPassword) || !Filled(req.organization) then Some("All fields are required")
    else if req.organization.value !in Organizations then Some("Invalid organization")
    else if req.password != req.confirmPassword then Some("Passwords do not match")
    else if Utf16Length(req.password.value) < MinPassword then Some("Password must be at least 6 characters")
    else None
  }

  /** Some user already holds the (lower-cased) email or username. */
  predicate Taken(st: Store, req: RegisterRequest)
    requires Filled(req.username) && Filled(req.email)
  {
    FindUser(st, ByEmailOrUsername(ToLower(req.email.value), ToLower(req.username.value))).Some?
  }

  /** The fields handed to `create`. */
  function DraftOf(req: RegisterRequest, token: string, now: int): UserDraft {
    UserDraft(req.username, req.email, req.password, req.organization, Some(token), Some(now + VerificationWindow))
  }

  const Registered := "Registration successful! Please check your email to verify your account."

  /**
   * The handler. `id` is the new document's id, `token` the random verification token,
   * `env` the configured application URL and `delivery` the mail transport's outcome.
   */
  function Register(st: Store, req: RegisterRequest, id: Id, token: string, now: int,
                    env: Option<string>, delivery: Delivery): (r: Reply)
    ensures Precheck(req).Some? ==> r == Answer(st, Fail(400, Precheck(req).value))
    ensures Precheck(req).None? && Taken(st, req) ==> r == Answer(st, Fail(400, "Username or email already exists"))
    ensures Precheck(req).None? && !Taken(st, req) ==> r == Create(st, req, id, token, now, env, delivery)
    ensures r.response.status != 201 ==> r.store == st && r.mail.None? && r.response.status == 400 && !Succeeded(r.response)
    ensures UniqueUsers(st.users) ==> UniqueUsers(r.store.users)
  {
    match Precheck(req)
    case Some(e) => Answer(st, Fail(400, e))
    case None =>
      if Taken(st, req) then Answer(st, Fail(400, "Username or email already exists"))
      else Create(st, req, id, token, now, env, delivery)
  }

  /** The account a registration creates, as the request describes it. */
  predicate Describes(u: User, req: RegisterRequest, id: Id, token: string, now: int)
    requires Precheck(req).None?
  {
    && u.id == id && u.createdAt == now
    && u.username == Some(ToLower(req.username.value)) && u.email == ToLower(req.email.value)
    && u.password == Some(Hash(req.password.value)) && u.organization == req.organization
    && !u.isEmailVerified && !u.profileComplete
    && u.emailVerificationToken == Some(token) && u.emailVerificationTokenExpires == Some(now + VerificationWindow)
    && u.passwordResetToken.None? && u.googleId.None?
    && ValidUser(u)
  }

  /** `User.create` on the request's fields: accepted exactly when the lower-cased username and email are well formed. */
  function Account(req: RegisterRequest, id: Id, token: string, now: int): (r: Result<User>)
    requires Precheck(req).None?
    ensures r.Ok? <==> ValidUsername(ToLower(req.username.value)) && EmailPattern(ToLower(req.email.value))
    ensures r.Ok? ==> Describes(r.value, req, id, token, now)
  {
    NewUser(DraftOf(req, token, now), id, now)
  }

  /**
   * Creation once the checks passed: the user is appended unverified, with the hashed
   * password and a token valid for 24 hours; the mail goes to the email as typed.
   * A rejected document or a clashing id is 400 with the store's message.
   */
  function Create(st: Store, req: RegisterRequest, id: Id, token: string, now: int,
                  env: Option<string>, delivery: Delivery): (r: Reply)
    requires Precheck(req).None? && !Taken(st, req)
    ensures r.response.status != 201 ==> r.store == st && r.mail.None? && r.response.status == 400 && !Succeeded(r.response)
    ensures r.response.status == 201 <==>
      Account(req, id, token, now).Ok? && forall k :: 0 <= k < |st.users| ==> st.users[k].id != id
    ensures r.response.status == 201 ==> var u := Account(req, id, token, now).value;
      && r.store == st.(users := st.users + [u])
      && r.response == Success(201, Some(Registered), Some(NewAccount(id, u.username, u.email)))
      && (r.mail.Some? <==> delivery.Delivered?)
      && (r.mail.Some? ==> r.mail.value.to == req.email.value && r.mail.value.link == VerificationUrl(env, token, req.email.value))
    ensures UniqueUsers(st.users) ==> UniqueUsers(r.store.users)
  {
    match Account(req, id, token, now)
    case Err(e) => Answer(st, Fail(400, e))
    case Ok(u) =>
      NotTakenNoClash(st, req, u, id);
      match InsertUser(st, u)
      case Err(e) =>
        assert !forall k :: 0 <= k < |st.users| ==> st.users[k].id != id;
        Answer(st, Fail(400, e))
      case Ok(st2) =>
        assert forall k :: 0 <= k < |st.users| ==> st.users[k].id != id by {
          assert forall k :: 0 <= k < |st.users| ==> !Clash(st.users[k], u);
        }
        var mail := SendVerificationEmail(env, req.email.value, token, delivery);
        Reply(st2, Success(201, Some(Registered), Some(NewAccount(u.id, u.username, u.email))),
              if mail.Ok? then Some(mail.value) else None)
  }

  /** In a consistent store, a new user whose email and username are free only clashes on its id. */
  lemma NotTakenNoClash(st: Store, req: RegisterRequest, u: User, id: Id)
    requires Filled(req.username) && Filled(req.email) && !Taken(st, req)
    requires u.id == id && u.email == ToLower(req.email.value) && u.username == Some(ToLower(req.username.value)) && u.googleId.None?
    ensures (forall k :: 0 <= k < |st.users| ==> st.users[k].id != id) ==> forall k :: 0 <= k < |st.users| ==> !Clash(st.users[k], u)
  {
    var f := ByEmailOrUsername(ToLower(req.email.value), ToLower(req.username.value));
    assert forall k :: 0 <= k < |st.users| ==> !f(st.users[k]);
  }
}
