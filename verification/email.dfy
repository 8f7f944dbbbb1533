/**
 * The two mails the lunch app sends: the address-verification link and the
 * password-reset link. The transport is a parameter: it delivers, or fails with a
 * message, and a failure is passed on to the caller.
 */
module Email {
  import opened Wrappers
  import opened JsStrings
  import opened UriEncoding

  /** The base URL when `NEXT_PUBLIC_APP_URL` is unset or empty. */
  const DefaultAppUrl := "http://localhost:3000"

  /** `process.env.NEXT_PUBLIC_APP_URL || 'http://localhost:3000'`. */
  function AppBase(env: Option<string>): (r: string)
    ensures Filled(env) ==> r == env.value
    ensures !Filled(env) ==> r == DefaultAppUrl
  {
    if Filled(env) then env.value else DefaultAppUrl
  }

  /** A link to `page` carrying the token verbatim and the percent-encoded address. */
  function Link(env: Option<string>, page: string, token: string, email: string): string {
    AppBase(env) + page + "?token=" + token + "&email=" + EncodeURIComponent(email)
  }

  function VerificationUrl(env: Option<string>, token: string, email: string): string {
    Link(env, "/verify-email", token, email)
  }

  function ResetUrl(env: Option<string>, token: string, email: string): string {
    Link(env, "/reset-password", token, email)
  }

  /** A mail handed to the transport: recipient, subject and the link it carries. */
  datatype Mail = Mail(to: string, subject: string, link: string)

  /** What the transport did with a mail. */
  datatype Delivery = Delivered | Failed(message: string)

  /** Sends a mail: the mail when delivered, the transport's error otherwise. */
  function Send(m: Mail, delivery: Delivery): (r: Result<Mail>)
    ensures r.Ok? <==> delivery.Delivered?
    ensures r.Ok? ==> r.value == m
    ensures r.Err? ==> r.error == delivery.message
  {
    match delivery
    case Delivered => Ok(m)
    case Failed(msg) => Err(msg)
  }

  /** `sendVerificationEmail(email, token, username)`; the greeting and layout are left out. */
  function SendVerificationEmail(env: Option<string>, email: string, token: string, delivery: Delivery): (r: Result<Mail>)
    ensures r.Ok? <==> delivery.Delivered?
    ensures r.Ok? ==> r.value.to == email && r.value.link == VerificationUrl(env, token, email)
    ensures r.Err? ==> r.error == delivery.message
  {
    Send(Mail(email, "Verify your Lunch App email", VerificationUrl(env, token, email)), delivery)
  }

  /** `sendPasswordResetEmail(email, token, username)`; the greeting and layout are left out. */
  function SendPasswordResetEmail(env: Option<string>, email: string, token: string, delivery: Delivery): (r: Result<Mail>)
    ensures r.Ok? <==> delivery.Delivered?
    ensures r.Ok? ==> r.value.to == email && r.value.link == ResetUrl(env, token, email)
    ensures r.Err? ==> r.error == delivery.message
  {
    Send(Mail(email, "Reset your Lunch App password", ResetUrl(env, token, email)), delivery)
  }

  /** The text after the last `c`, or all of `s`. */
  function AfterLast(s: string, c: char): string {
    match LastIndex(s, c)
    case None => s
    case Some(i) => s[i + 1..]
  }

  /** The text before the last `c`, or all of `s`. */
  function BeforeLast(s: string, c: char): string {
    match LastIndex(s, c)
    case None => s
    case Some(i) => s[..i]
  }

  /** The last `c` of `a + [c] + b`, when `b` holds none, is the one in the middle. */
  lemma {:induction false} LastIndexAt(a: string, c: char, b: string)
    requires c !in b
    ensures LastIndex(a + [c] + b, c) == Some(|a|)
    decreases |b|
  {
    var s := a + [c] + b;
    if |b| > 0 {
      assert s[|s| - 1] == b[|b| - 1];
      assert s[..|s| - 1] == a + [c] + b[..|b| - 1];
      LastIndexAt(a, c, b[..|b| - 1]);
    }
  }

  /** An encoded component holds neither `&` nor `=`. */
  lemma EncodedHasNoDelimiters(email: string)
    ensures '&' !in EncodeURIComponent(email) && '=' !in EncodeURIComponent(email)
  {
    var e := EncodeURIComponent(email);
    assert forall k :: 0 <= k < |e| ==> Encoded(e[k]);
  }

  /** The text after the last `c` of `a + [c] + b`, when `b` holds none, is `b`; the text before it is `a`. */
  lemma SplitAtLast(a: string, c: char, b: string)
    requires c !in b
    ensures AfterLast(a + [c] + b, c) == b
    ensures BeforeLast(a + [c] + b, c) == a
  {
    LastIndexAt(a, c, b);
    var s := a + [c] + b;
    assert s[|a| + 1..] == b;
    assert s[..|a|] == a;
  }

  /** The value after the last `=` of a mailed link decodes to the address. */
  lemma LinkEmail(env: Option<string>, page: string, token: string, email: string)
    ensures PercentDecode(AfterLast(Link(env, page, token, email), '=')) == Some(email)
  {
    var enc := EncodeURIComponent(email);
    var head := AppBase(env) + page + "?token=" + token + "&email";
    EncodedHasNoDelimiters(email);
    assert "&email=" == "&email" + ['='];
    assert Link(env, page, token, email) == head + ['='] + enc;
    SplitAtLast(head, '=', enc);
    DecodeEncode(email);
  }

  /** Everything before the last `&` of a mailed link is the base, the page and the token. */
  lemma LinkHead(env: Option<string>, page: string, token: string, email: string)
    ensures BeforeLast(Link(env, page, token, email), '&') == AppBase(env) + page + "?token=" + token
  {
    var enc := EncodeURIComponent(email);
    var head := AppBase(env) + page + "?token=" + token;
    var tail := "email=" + enc;
    EncodedHasNoDelimiters(email);
    assert "&email=" == ['&'] + "email=";
    assert Link(env, page, token, email) == head + ['&'] + tail;
    assert '&' !in "email=";
    assert '&' !in tail;
    SplitAtLast(head, '&', tail);
  }

  /**
   * A mailed link can be read back: the value after the last `=` decodes to the address,
   * and, for a token without `=` (a hexadecimal one), the text between the last `&` and
   * the last `=` before it is the token.
   */
  lemma LinkRoundTrip(env: Option<string>, page: string, token: string, email: string)
    ensures PercentDecode(AfterLast(Link(env, page, token, email), '=')) == Some(email)
    ensures '=' !in token ==> AfterLast(BeforeLast(Link(env, page, token, email), '&'), '=') == token
  {
    LinkEmail(env, page, token, email);
    LinkHead(env, page, token, email);
    if '=' !in token {
      var base := AppBase(env) + page + "?token";
      assert "?token=" == "?token" + ['='];
      assert AppBase(env) + page + "?token=" + token == base + ['='] + token;
      SplitAtLast(base, '=', token);
    }
  }
}
