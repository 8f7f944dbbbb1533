/**
 * The user document: its schema validators, defaults and the password hook.
 * bcrypt is modelled as an ideal one-way function: a digest is a term `Digest(s)`
 * that matches exactly the plain text it was computed from.
 */
module UserModel {
  import opened Wrappers
  import opened JsStrings
  import opened Schema

  /** A stored password: plain text (before the save hook ran) or a bcrypt digest. */
  datatype Secret = Plain(text: string) | Digest(of: Secret)

  /** `bcrypt.hash` of a plain password, with the salt left out. */
  function Hash(p: string): Secret { Digest(Plain(p)) }

  /**
   * `bcrypt.compare(plain, stored)`: whether `stored` is the digest of `plain`.
   * bcrypt throws when the stored hash is missing.
   */
  function Compare(plain: string, stored: Option<Secret>): (r: Result<bool>)
    ensures r.Err? <==> stored.None?
    ensures r.Ok? ==> (r.value <==> stored == Some(Hash(plain)))
  {
    match stored
    case None => Err("Illegal arguments: string, undefined")
    case Some(s) => Ok(s == Hash(plain))
  }

  /** A stored user. `None` is a path that is unset (or was set to `undefined`). */
  datatype User = User(
    id: Id,
    username: Option<string>,
    email: string,
    password: Option<Secret>,
    isEmailVerified: bool,
    emailVerificationToken: Option<string>,
    emailVerificationTokenExpires: Option<int>,
    passwordResetToken: Option<string>,
    passwordResetTokenExpires: Option<int>,
    organization: Option<string>,
    googleId: Option<string>,
    image: Option<string>,
    profileComplete: bool,
    createdAt: int)

  /** The fields the registration handler passes to `create`. */
  datatype UserDraft = UserDraft(
    username: Option<string>,
    email: Option<string>,
    password: Option<string>,
    organization: Option<string>,
    emailVerificationToken: Option<string>,
    emailVerificationTokenExpires: Option<int>)

  const MinUsername := 3
  const MaxUsername := 30
  const MinPassword := 6
  const DefaultOrganization := "BGL IT"
  /** The values the `organization` enum admits. */
  const Organizations: seq<string> := [DefaultOrganization]

  /** A character of `[a-z0-9_-]`. */
  predicate UsernameChar(c: char) {
    IsAsciiLower(c) || IsDigit(c) || c == '_' || c == '-'
  }

  /** `^[a-z0-9_-]+$`. */
  predicate UsernamePattern(s: string) {
    |s| > 0 && forall k :: 0 <= k < |s| ==> UsernameChar(s[k])
  }

  /** A username the schema accepts: 3 to 30 characters, all of `[a-z0-9_-]`. */
  predicate ValidUsername(s: string) {
    MinUsername <= Utf16Length(s) <= MaxUsername && UsernamePattern(s)
  }

  /** A character of `[^\s@]`. */
  predicate EmailChar(c: char) {
    !IsWhitespace(c) && c != '@'
  }

  /**
   * `^[^\s@]+@[^\s@]+\.[^\s@]+$`: one `@` with text before it, and after it a `.`
   * with text on both sides; no whitespace anywhere.
   */
  predicate EmailPattern(s: string) {
    exists at, dot :: 0 < at && at + 1 < dot < |s| - 1 && s[at] == '@' && s[dot] == '.'
      && forall k :: 0 <= k < |s| && k != at ==> EmailChar(s[k])
  }

  /** `username`: optional; `minlength`, then `maxlength`, then `match`; first failure reported. */
  function UsernameErrors(u: Option<string>): (r: seq<FieldError>)
    ensures |r| <= 1
    ensures r == [] <==> u.None? || ValidUsername(u.value)
  {
    match u
    case None => []
    case Some(s) =>
      if Utf16Length(s) < MinUsername then [FieldError("username", "Username must be at least 3 characters")]
      else if Utf16Length(s) > MaxUsername then [FieldError("username", "Username cannot be more than 30 characters")]
      else if !UsernamePattern(s) then
        [FieldError("username", "Username can only contain lowercase letters, numbers, hyphens and underscores")]
      else []
  }

  /** `email`: required (present and non-empty), then `match`. */
  function EmailErrors(e: Option<string>): (r: seq<FieldError>)
    ensures |r| <= 1
    ensures r == [] <==> e.Some? && EmailPattern(e.value)
  {
    if !Filled(e) then [FieldError("email", "Please provide an email")]
    else if !EmailPattern(e.value) then [FieldError("email", "Please provide a valid email")]
    else []
  }

  /** Whether a stored password satisfies `minlength`; a bcrypt digest has 60 characters. */
  predicate LongEnough(p: Secret) {
    p.Digest? || Utf16Length(p.text) >= MinPassword
  }

  /** `password`: optional, `minlength` 6. */
  function PasswordErrors(p: Option<Secret>): (r: seq<FieldError>)
    ensures |r| <= 1
    ensures r == [] <==> p.None? || LongEnough(p.value)
  {
    if p.Some? && !LongEnough(p.value) then [FieldError("password", "Password must be at least 6 characters")]
    else []
  }

  /** `organization`: optional, one of the enum values. */
  function OrganizationErrors(o: Option<string>): (r: seq<FieldError>)
    ensures |r| <= 1
    ensures r == [] <==> o.None? || o.value in Organizations
  {
    if o.Some? && o.value !in Organizations then
      [FieldError("organization", "`" + o.value + "` is not a valid enum value for path `organization`.")]
    else []
  }

  /** The validators of the schema, in path order. */
  function UserErrors(u: User): (r: seq<FieldError>)
    ensures r == [] <==> ValidUser(u)
  {
    var a := UsernameErrors(u.username);
    var b := EmailErrors(Some(u.email));
    var c := PasswordErrors(u.password);
    var d := OrganizationErrors(u.organization);
    assert |a + b + c + d| == |a| + |b| + |c| + |d|;
    a + b + c + d
  }

  /** A user every validator of the schema accepts. */
  predicate ValidUser(u: User) {
    && (u.username.None? || ValidUsername(u.username.value))
    && EmailPattern(u.email)
    && (u.password.None? || LongEnough(u.password.value))
    && (u.organization.None? || u.organization.value in Organizations)
  }

  /** The `lowercase` setter: a non-empty string is lower-cased. */
  function Lowercased(o: Option<string>): (r: Option<string>)
    ensures r.None? <==> o.None?
    ensures o.Some? ==> r.value == ToLower(o.value)
  {
    match o
    case None => None
    case Some(s) => Some(ToLower(s))
  }

  /**
   * The pre-save hook: when the password path was modified its value is replaced by its
   * digest; otherwise the document is left alone. Hashing an unset password throws.
   */
  function PreSave(u: User, passwordModified: bool): (r: Result<User>)
    ensures !passwordModified ==> r == Ok(u)
    ensures passwordModified ==> (r.Ok? <==> u.password.Some?)
    ensures passwordModified && r.Ok? ==> r.value == u.(password := Some(Digest(u.password.value)))
  {
    if !passwordModified then Ok(u)
    else match u.password
      case None => Err("Illegal arguments: undefined, string")
      case Some(p) => Ok(u.(password := Some(Digest(p))))
  }

  /** `save`: validation of every path, then the pre-save hook. */
  function Save(u: User, passwordModified: bool): (r: Result<User>)
    ensures r.Ok? <==> ValidUser(u) && (passwordModified ==> u.password.Some?)
    ensures r.Ok? ==> ValidUser(r.value)
    ensures r.Ok? ==> r.value == if passwordModified then u.(password := Some(Digest(u.password.value))) else u
    ensures r.Err? && !ValidUser(u) ==> StartsWith(r.error, FailureHead("User"))
  {
    match Validated("User", UserErrors(u), u)
    case Err(e) => Err(e)
    case Ok(v) => PreSave(v, passwordModified)
  }

  /**
   * `User.create` from a draft: the setters lower-case `username` and `email`, the
   * defaults fill `isEmailVerified`, `organization` and `profileComplete`, the document is
   * validated, and a given password is stored as its digest.
   */
  function NewUser(d: UserDraft, id: Id, now: int): (r: Result<User>)
    ensures r.Ok? <==>
      && (d.username.None? || ValidUsername(ToLower(d.username.value)))
      && d.email.Some? && EmailPattern(ToLower(d.email.value))
      && (d.password.None? || Utf16Length(d.password.value) >= MinPassword)
      && (d.organization.None? || d.organization.value in Organizations)
    ensures r.Ok? ==> var u := r.value;
      && u.id == id && u.createdAt == now
      && u.username == Lowercased(d.username) && u.email == ToLower(d.email.value)
      && (d.password.None? ==> u.password.None?)
      && (d.password.Some? ==> u.password == Some(Hash(d.password.value)))
      && !u.isEmailVerified && !u.profileComplete
      && u.organization == Some(d.organization.GetOr(DefaultOrganization))
      && u.emailVerificationToken == d.emailVerificationToken
      && u.emailVerificationTokenExpires == d.emailVerificationTokenExpires
      && u.passwordResetToken.None? && u.passwordResetTokenExpires.None?
      && u.googleId.None? && u.image.None?
    ensures r.Ok? ==> ValidUser(r.value)
    ensures r.Err? ==> StartsWith(r.error, FailureHead("User"))
  {
    var password := match d.password case None => None case Some(p) => Some(Plain(p));
    var u := User(id, Lowercased(d.username), ToLower(d.email.GetOr("")), password, false,
                  d.emailVerificationToken, d.emailVerificationTokenExpires, None, None,
                  Some(d.organization.GetOr(DefaultOrganization)), None, None, false, now);
    assert d.email.None? ==> !EmailPattern(u.email);
    Save(u, d.password.Some?)
  }

  /** `comparePassword`: the stored digest matches exactly the password it was made from. */
  lemma ComparePasswordOfHash(p: string, q: string)
    ensures Compare(p, Some(Hash(q))) == Ok(p == q)
  {
  }

  /** Lower-casing keeps every character of `[a-z0-9_-]` and does not change the length. */
  lemma ToLowerKeepsUsername(s: string)
    requires UsernamePattern(s)
    ensures ToLower(s) == s
  {
  }

  /** Two strings that agree on where `@`, `.` and the other e-mail characters sit. */
  predicate SameEmailShape(s: string, t: string) {
    |s| == |t| && forall k :: 0 <= k < |s| ==>
      (s[k] == '@' <==> t[k] == '@') && (s[k] == '.' <==> t[k] == '.') && (EmailChar(s[k]) <==> EmailChar(t[k]))
  }

  lemma EmailPatternTransfer(s: string, t: string)
    requires SameEmailShape(s, t)
    requires EmailPattern(s)
    ensures EmailPattern(t)
  {
    var at, dot :| 0 < at && at + 1 < dot < |s| - 1 && s[at] == '@' && s[dot] == '.'
      && forall k :: 0 <= k < |s| && k != at ==> EmailChar(s[k]);
    assert t[at] == '@' && t[dot] == '.';
  }

  /** Lower-casing touches only ASCII letters, so it neither makes nor breaks an e-mail address. */
  lemma EmailPatternToLower(s: string)
    ensures EmailPattern(ToLower(s)) <==> EmailPattern(s)
  {
    var t := ToLower(s);
    assert SameEmailShape(s, t);
    assert SameEmailShape(t, s);
    if EmailPattern(s) { EmailPatternTransfer(s, t); }
    if EmailPattern(t) { EmailPatternTransfer(t, s); }
  }
}
