/**
 * The profile-completion page: the username it suggests from the Google account's
 * email, the lower-casing of what is typed, and the checks made before the request.
 */
module CompleteProfilePage {
  import opened Wrappers
  import opened JsStrings
  import opened UserModel
  import CompleteProfileRoute

  /** `.replace(/[^a-z0-9_-]/g, '')`: every character outside `[a-z0-9_-]` removed. */
  function KeepUsernameChars(s: string): (r: string)
    ensures |r| <= |s|
    ensures forall k :: 0 <= k < |r| ==> UsernameChar(r[k])
    ensures forall c :: c in r <==> c in s && UsernameChar(c)
  {
    if |s| == 0 then ""
    else
      var rest := KeepUsernameChars(s[1..]);
      assert forall c :: c in s <==> c == s[0] || c in s[1..];
      if UsernameChar(s[0]) then [s[0]] + rest else rest
  }

  /** The filter works character by character: filtering a concatenation concatenates the results. */
  lemma {:induction false} KeepUsernameCharsAppend(a: string, b: string)
    ensures KeepUsernameChars(a + b) == KeepUsernameChars(a) + KeepUsernameChars(b)
  {
    if |a| == 0 {
      assert a + b == b;
    } else {
      assert (a + b)[1..] == a[1..] + b;
      KeepUsernameCharsAppend(a[1..], b);
    }
  }

  /** One character is kept exactly when it is in `[a-z0-9_-]`; with the lemma above this fixes the filter. */
  lemma KeepOneChar(s: string)
    requires |s| == 1
    ensures KeepUsernameChars(s) == if UsernameChar(s[0]) then s else ""
  {
    assert s[1..] == "";
  }

  /** Text made only of `[a-z0-9_-]` passes the filter unchanged. */
  lemma {:induction false} KeepAllUsernameChars(s: string)
    requires forall k :: 0 <= k < |s| ==> UsernameChar(s[k])
    ensures KeepUsernameChars(s) == s
  {
    if |s| > 0 {
      KeepAllUsernameChars(s[1..]);
    }
  }

  /** `email.split('@')[0]`: the text before the first `@`. */
  function LocalPart(email: string): (r: string)
    ensures '@' !in r && StartsWith(email, r)
    ensures |r| < |email| ==> email[|r|] == '@'
  {
    SplitFirst(email, '@');
    Split(email, "@")[0]
  }

  /** The suggestion: the part before the first `@`, lower-cased, with other characters dropped. */
  function SuggestUsername(email: string): (r: string)
    ensures r == KeepUsernameChars(ToLower(LocalPart(email)))
    ensures |r| <= |LocalPart(email)|
    ensures forall k :: 0 <= k < |r| ==> UsernameChar(r[k])
    ensures forall c :: c in r <==> c in ToLower(LocalPart(email)) && UsernameChar(c)
  {
    KeepUsernameChars(ToLower(LocalPart(email)))
  }

  /** The part before `@` is what a suggestion is made from, whatever the domain. */
  lemma SuggestionIgnoresDomain(local: string, domain: string)
    requires '@' !in local
    ensures SuggestUsername(local + "@" + domain) == KeepUsernameChars(ToLower(local))
  {
    var e := local + "@" + domain;
    var p := LocalPart(e);
    assert forall k :: 0 <= k < |local| ==> e[k] == local[k] && e[k] != '@';
    assert e[|local|] == '@';
    assert forall k :: 0 <= k < |p| ==> p[k] == e[k];
    assert |p| == |local|;
    assert p == local;
  }

  /** Suggesting again from a suggestion changes nothing. */
  lemma SuggestionIsStable(email: string)
    ensures SuggestUsername(SuggestUsername(email)) == SuggestUsername(email)
  {
    var s := SuggestUsername(email);
    assert '@' !in s by { assert !UsernameChar('@'); }
    var p := LocalPart(s);
    assert forall k :: 0 <= k < |s| ==> s[k] != '@';
    assert |p| == |s|;
    assert p == s;
    assert UsernamePattern(s) ==> ToLower(s) == s by {
      if UsernamePattern(s) { ToLowerKeepsUsername(s); }
    }
    assert |s| == 0 ==> ToLower(s) == s;
    KeepAllUsernameChars(s);
  }

  /** `onChange`: what is typed is lower-cased. */
  function OnUsernameInput(text: string): (r: string)
    ensures |r| == |text|
    ensures forall k :: 0 <= k < |r| ==> !IsAsciiUpper(r[k])
    ensures forall k :: 0 <= k < |r| ==> r[k] == LowerChar(text[k])
  {
    ToLowerIdempotent(text);
    ToLower(text)
  }

  /** The checks of `handleSubmit`, in order: length first, then the pattern. */
  function SubmitCheck(username: string): (r: Option<string>)
    ensures r.None? <==> Utf16Length(username) >= MinUsername && UsernamePattern(username)
    ensures Utf16Length(username) < MinUsername ==> r == Some("Username must be at least 3 characters")
    ensures Utf16Length(username) >= MinUsername && !UsernamePattern(username)
            ==> r == Some(CompleteProfileRoute.PatternMessage)
  {
    if Utf16Length(username) < MinUsername then Some("Username must be at least 3 characters")
    else if !UsernamePattern(username) then Some(CompleteProfileRoute.PatternMessage)
    else None
  }

  /** A username the page lets through is refused by the handler's own checks only for being over 30 long. */
  lemma PageChecksAgreeWithHandler(username: string, organization: string)
    requires SubmitCheck(username).None? && organization != ""
    ensures CompleteProfileRoute.Precheck(CompleteProfileRoute.ProfileRequest(Some(username), Some(organization))).None?
            <==> Utf16Length(username) <= MaxUsername
  {
  }
}
