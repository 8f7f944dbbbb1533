/**
 * Account lifecycles across several requests: registration, verification and sign-in;
 * a password reset followed by sign-in; and the completion of a Google account.
 */
module Lifecycle {
  import opened Wrappers
  import opened JsStrings
  import opened Schema
  import opened UserModel
  import opened Database
  import opened Http
  import opened Email
  import opened Accounts
  import opened Handler
  import opened SsoReplies
  import RegisterRoute
  import VerifyEmailRoute
  import LoginRoute
  import ForgotPasswordRoute
  import ResetPasswordRoute
  import CompleteProfileRoute
  import SsoLoginRoute
  import ProfileStatusRoute

  /** When only index `n` satisfies `f`, `findOne` finds `n`. */
  lemma OnlyMatch(st: Store, f: User -> bool, n: nat)
    requires n < |st.users| && f(st.users[n])
    requires forall k :: 0 <= k < |st.users| && k != n ==> !f(st.users[k])
    ensures FindUser(st, f) == Some(n)
  {
  }

  /** A successful registration appends one account, described by the request, to a consistent store. */
  lemma RegisterAppends(st: Store, req: RegisterRoute.RegisterRequest, id: Id, token: string,
                        now: int, env: Option<string>, delivery: Delivery)
    requires UniqueUsers(st.users)
    requires RegisterRoute.Register(st, req, id, token, now, env, delivery).response.status == 201
    ensures RegisterRoute.Precheck(req).None?
    ensures var s1 := RegisterRoute.Register(st, req, id, token, now, env, delivery).store;
      && |s1.users| == |st.users| + 1 && UniqueUsers(s1.users)
      && RegisterRoute.Describes(s1.users[|st.users|], req, id, token, now)
  {
  }

  /** The account holding an unexpired verification token becomes verified. */
  lemma VerifyWithToken(st: Store, i: nat, email: string, token: string, now: int)
    requires UniqueUsers(st.users) && i < |st.users| && email != "" && token != "" && st.users[i].email == ToLower(email)
    requires st.users[i].emailVerificationToken == Some(token) && st.users[i].emailVerificationTokenExpires.Some?
    requires st.users[i].emailVerificationTokenExpires.value > now
    requires ValidUser(st.users[i])
    ensures var r := VerifyEmailRoute.VerifyEmail(st, VerifyEmailRoute.VerifyRequest(Some(email), Some(token)), now);
      && Succeeded(r.response)
      && r.store.users == st.users[i := VerifyEmailRoute.MarkVerified(st.users[i])]
      && UniqueUsers(r.store.users)
  {
    UniqueEmail(st, i);
    OnlyMatch(st, ByVerificationToken(ToLower(email), token, now), i);
    assert VerifyEmailRoute.Holder(st, VerifyEmailRoute.VerifyRequest(Some(email), Some(token)), now) == Some(i);
  }

  /**
   * A new account cannot sign in before its email is verified (403); after following
   * the link within 24 hours, the same credentials sign in.
   */
  lemma {:induction false} RegisterVerifyLogin(st: Store, req: RegisterRoute.RegisterRequest, id: Id, token: string,
                                               now: int, env: Option<string>, delivery: Delivery, t2: int, t3: int)
    requires UniqueUsers(st.users)
    requires RegisterRoute.Register(st, req, id, token, now, env, delivery).response.status == 201
    requires token != "" && t2 < now + VerificationWindow
    ensures var s1 := RegisterRoute.Register(st, req, id, token, now, env, delivery).store;
      var login := LoginRoute.LoginRequest(req.username, req.password);
      && LoginRoute.Login(s1, login, t2).status == 403
      && var s2 := VerifyEmailRoute.VerifyEmail(s1, VerifyEmailRoute.VerifyRequest(req.email, Some(token)), t2);
      && Succeeded(s2.response)
      && LoginRoute.Login(s2.store, login, t3).status == 200
  {
    var n := |st.users|;
    RegisterAppends(st, req, id, token, now, env, delivery);
    var s1 := RegisterRoute.Register(st, req, id, token, now, env, delivery).store;
    LoginWithPassword(s1, n, req.username.value, req.password.value, req.password.value + "!", t2);
    VerifyWithToken(s1, n, req.email.value, token, t2);
    var s2 := VerifyEmailRoute.VerifyEmail(s1, VerifyEmailRoute.VerifyRequest(req.email, Some(token)), t2).store;
    LoginWithPassword(s2, n, req.username.value, req.password.value, req.password.value + "!", t3);
  }

  /** In a consistent store, the user at `i` is the only one with its email. */
  lemma UniqueEmail(st: Store, i: nat)
    requires UniqueUsers(st.users) && i < |st.users|
    ensures forall k :: 0 <= k < |st.users| && k != i ==> st.users[k].email != st.users[i].email
  {
    forall k | 0 <= k < |st.users| && k != i ensures st.users[k].email != st.users[i].email {
      if k < i { assert !Clash(st.users[k], st.users[i]); } else { assert !Clash(st.users[i], st.users[k]); }
    }
  }

  /** In a consistent store, the user at `i` is the only one with its username. */
  lemma UniqueUsername(st: Store, i: nat)
    requires UniqueUsers(st.users) && i < |st.users| && st.users[i].username.Some?
    ensures forall k :: 0 <= k < |st.users| && k != i ==> st.users[k].username != st.users[i].username
  {
    forall k | 0 <= k < |st.users| && k != i ensures st.users[k].username != st.users[i].username {
      if k < i { assert !Clash(st.users[k], st.users[i]); } else { assert !Clash(st.users[i], st.users[k]); }
    }
  }

  /** A reset request for a known account stores the token and mails the link when delivery succeeds. */
  lemma ForgotStoresToken(st: Store, i: nat, email: string, token: string, now: int, env: Option<string>)
    requires UniqueUsers(st.users) && i < |st.users| && email != "" && st.users[i].email == ToLower(email)
    requires ValidUser(st.users[i])
    ensures var f := ForgotPasswordRoute.ForgotPassword(st, ForgotPasswordRoute.ForgotRequest(Some(email)), token, now, env, Delivered);
      && f.store.users == st.users[i := ForgotPasswordRoute.WithResetToken(st.users[i], token, now + ResetWindow)]
      && f.mail.Some? && f.mail.value.link == ResetUrl(env, token, email)
      && UniqueUsers(f.store.users)
  {
    UniqueEmail(st, i);
    OnlyMatch(st, ByEmail(ToLower(email)), i);
  }

  /** The account holding an unexpired reset token gets the new password, hashed, and loses the token. */
  lemma ResetWithToken(st: Store, i: nat, email: string, token: string, now: int, password: string)
    requires UniqueUsers(st.users) && i < |st.users| && email != "" && token != "" && st.users[i].email == ToLower(email)
    requires st.users[i].passwordResetToken == Some(token) && st.users[i].passwordResetTokenExpires.Some?
    requires st.users[i].passwordResetTokenExpires.value > now
    requires ValidUser(st.users[i]) && Utf16Length(password) >= MinPassword
    ensures var r := ResetPasswordRoute.ResetPassword(st, ResetPasswordRoute.ResetRequest(Some(email), Some(token), Some(password), Some(password)), now);
      && Succeeded(r.response)
      && r.store.users == st.users[i := st.users[i].(password := Some(Hash(password)), passwordResetToken := None,
                                                      passwordResetTokenExpires := None)]
      && UniqueUsers(r.store.users)
  {
    var rreq := ResetPasswordRoute.ResetRequest(Some(email), Some(token), Some(password), Some(password));
    UniqueEmail(st, i);
    OnlyMatch(st, ByResetToken(ToLower(email), token, now), i);
    assert ResetPasswordRoute.Holder(st, rreq, now) == Some(i);
  }

  /**
   * An account with a valid username, looked up by any spelling that lower-cases to it, is
   * let in (or held at 403 while unverified) with the password its digest was made from,
   * and refused with any other.
   */
  lemma LoginWithPassword(st: Store, i: nat, typed: string, password: string, other: string, now: int)
    requires UniqueUsers(st.users) && i < |st.users|
    requires st.users[i].username == Some(ToLower(typed)) && ValidUsername(ToLower(typed))
    requires st.users[i].password == Some(Hash(password)) && password != "" && other != password
    ensures var status := LoginRoute.Login(st, LoginRoute.LoginRequest(Some(typed), Some(password)), now).status;
      status == if st.users[i].isEmailVerified then 200 else 403
    ensures other != "" ==> LoginRoute.Login(st, LoginRoute.LoginRequest(Some(typed), Some(other)), now).status == 401
  {
    var name := ToLower(typed);
    UniqueUsername(st, i);
    OnlyMatch(st, ByUsername(name), i);
    ComparePasswordOfHash(other, password);
  }

  /**
   * A verified account that asks for a reset, and uses the mailed token within the hour,
   * signs in with the new password and no longer with a different old one.
   */
  lemma {:induction false} ForgotResetLogin(st: Store, i: nat, email: string, token: string, now: int,
                                            env: Option<string>, t2: int, newPassword: string, oldPassword: string, t3: int)
    requires UniqueUsers(st.users) && i < |st.users| && email != "" && st.users[i].email == ToLower(email)
    requires ValidUser(st.users[i]) && st.users[i].isEmailVerified && st.users[i].username.Some?
    requires token != "" && t2 < now + ResetWindow && Utf16Length(newPassword) >= MinPassword
    requires oldPassword != "" && oldPassword != newPassword
    ensures var f := ForgotPasswordRoute.ForgotPassword(st, ForgotPasswordRoute.ForgotRequest(Some(email)), token, now, env, Delivered);
      && f.mail.Some? && f.mail.value.link == ResetUrl(env, token, email)
      && var r := ResetPasswordRoute.ResetPassword(f.store, ResetPasswordRoute.ResetRequest(Some(email), Some(token), Some(newPassword), Some(newPassword)), t2);
      && Succeeded(r.response)
      && LoginRoute.Login(r.store, LoginRoute.LoginRequest(st.users[i].username, Some(newPassword)), t3).status == 200
      && LoginRoute.Login(r.store, LoginRoute.LoginRequest(st.users[i].username, Some(oldPassword)), t3).status == 401
  {
    var f := ForgotPasswordRoute.ForgotPassword(st, ForgotPasswordRoute.ForgotRequest(Some(email)), token, now, env, Delivered);
    ForgotStoresToken(st, i, email, token, now, env);
    ResetWithToken(f.store, i, email, token, t2, newPassword);
    var r := ResetPasswordRoute.ResetPassword(f.store, ResetPasswordRoute.ResetRequest(Some(email), Some(token), Some(newPassword), Some(newPassword)), t2);
    assert Utf16Length(newPassword) > 0;
    ToLowerKeepsUsername(st.users[i].username.value);
    LoginWithPassword(r.store, i, st.users[i].username.value, newPassword, oldPassword, t3);
  }

  /**
   * After a Google account completes its profile, its session sign-in yields the token
   * and its status reads complete with the chosen username and organization.
   */
  lemma {:induction false} CompleteThenSsoLogin(st: Store, sessionEmail: string, req: CompleteProfileRoute.ProfileRequest,
                                                now: int, t2: int)
    requires UniqueUsers(st.users)
    requires CompleteProfileRoute.CompleteProfile(st, Some(sessionEmail), req, now).response.status == 200
    ensures var s := CompleteProfileRoute.CompleteProfile(st, Some(sessionEmail), req, now).store;
      && Succeeded(SsoLoginRoute.SsoLogin(s, Some(sessionEmail), t2))
      && var status := ProfileStatusRoute.GetProfileStatus(s, Some(sessionEmail));
      && status.status == 200 && status.body.ProfileStatus? && status.body.isComplete
      && status.body.username == req.username && status.body.organization == req.organization
  {
    var i := SessionUser(st, sessionEmail).value;
    var s := CompleteProfileRoute.CompleteProfile(st, Some(sessionEmail), req, now).store;
    assert s.users[i].email == st.users[i].email;
    UniqueEmail(s, i);
    OnlyMatch(s, ByEmail(ToLower(sessionEmail)), i);
    assert SessionUser(s, sessionEmail) == Some(i);
  }
}
