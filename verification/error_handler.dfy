/**
 * `parseErrorMessage` of the client's alert helper: turns whatever a failed request
 * produced (a string, an error object, nothing) into the text to show. `JSON.parse` is a
 * parameter: the parsed value, or nothing when it throws.
 */
module ErrorHandler {
  import opened Wrappers
  import opened JsStrings

  /** The JavaScript values the helper can be given or can find inside parsed JSON. */
  datatype JsVal =
    | Undef
    | Null
    | Bool(b: bool)
    | Num(n: int)
    | Str(s: string)
    | Obj(fields: map<string, JsVal>)

  /** JavaScript truthiness: `undefined`, `null`, `false`, `0` and `""` are falsy. */
  predicate Truthy(v: JsVal) {
    match v
    case Undef => false
    case Null => false
    case Bool(b) => b
    case Num(n) => n != 0
    case Str(s) => s != ""
    case Obj(_) => true
  }

  /** `v[key]` on a value that is neither `undefined` nor `null`: only objects have own properties. */
  function Get(v: JsVal, key: string): JsVal {
    if v.Obj? && key in v.fields then v.fields[key] else Undef
  }

  /** A character `.` does not match: LF, CR, LINE SEPARATOR, PARAGRAPH SEPARATOR. */
  predicate IsLineTerminator(c: char) {
    c == '\n' || c == '\r' || c == '\U{2028}' || c == '\U{2029}'
  }

  /** The first line terminator at or after `i`, or the end of `s`. */
  function LineEnd(s: string, i: nat): (e: nat)
    requires i <= |s|
    ensures i <= e <= |s|
    ensures forall k :: i <= k < e ==> !IsLineTerminator(s[k])
    ensures e < |s| ==> IsLineTerminator(s[e])
    decreases |s| - i
  {
    if i == |s| || IsLineTerminator(s[i]) then i else LineEnd(s, i + 1)
  }

  const HttpErrorPrefix := "HTTP Error "

  /** `{.*}` from the `{` at `q`: the greedy `.*` runs to the last `}` before the end of the line. */
  function BraceBody(s: string, q: nat): (r: Option<string>)
    requires q < |s| && s[q] == '{'
    ensures r.Some? ==> |r.value| >= 2 && r.value[0] == '{' && r.value[|r.value| - 1] == '}'
  {
    var e := LineEnd(s, q + 1);
    match LastIndex(s[q + 1..e], '}')
    case None => None
    case Some(j) =>
      assert s[q + 1 + j] == s[q + 1..e][j];
      Some(s[q..q + j + 2])
  }

  /**
   * The capture of `/HTTP Error \d+: ({.*})/` tried at index `p`: the prefix, every digit
   * of the run that follows (a shorter run would leave a digit where `:` must be), `: `,
   * then `{.*}`.
   */
  function MatchAt(s: string, p: nat): (r: Option<string>)
    ensures r.Some? ==> |r.value| >= 2 && r.value[0] == '{' && r.value[|r.value| - 1] == '}'
    ensures r.Some? ==> '{' in s
  {
    if !OccursAt(s, HttpErrorPrefix, p) then None
    else
      var d := p + |HttpErrorPrefix|;
      var n := DigitRun(s[d..], 10);
      if n == 0 || !OccursAt(s, ": {", d + n) then None
      else
        assert s[d + n + 2] == "{"[0] by { assert s[d + n..d + n + 3] == ": {"; }
        BraceBody(s, d + n + 2)
  }

  /** `String.prototype.match` with the pattern: the leftmost index from `p` on where it matches. */
  function FindMatch(s: string, p: nat): Option<string>
    decreases |s| + 1 - p
  {
    if p > |s| then None
    else
      match MatchAt(s, p)
      case Some(c) => Some(c)
      case None => FindMatch(s, p + 1)
  }

  /** The `catch` branch: the second `": "`-separated part, or the whole string when it is empty or missing. */
  function AfterFirstColon(s: string): (r: string)
    ensures s != "" ==> r != ""
  {
    var parts := Split(s, ": ");
    if |parts| >= 2 && parts[1] != "" then parts[1] else s
  }

  /**
   * The `HTTP Error` branch: the parsed body's `error`, else its `message`, else the string
   * itself. A body that fails to parse, or parses to `null` (whose properties cannot be read),
   * falls to the `catch` branch; no match leaves the string unchanged.
   */
  function ParseHttpError(s: string, parse: string -> Option<JsVal>): (r: JsVal)
    requires s != ""
    ensures Truthy(r)
  {
    match FindMatch(s, 0)
    case None => Str(s)
    case Some(json) =>
      match parse(json)
      case None => Str(AfterFirstColon(s))
      case Some(v) =>
        if v.Null? || v.Undef? then Str(AfterFirstColon(s))
        else if Truthy(Get(v, "error")) then Get(v, "error")
        else if Truthy(Get(v, "message")) then Get(v, "message")
        else Str(s)
  }

  /** `toString()` of a value that is neither `undefined` nor `null`. */
  function ToStringOf(v: JsVal): (r: string)
    requires !v.Undef? && !v.Null?
    ensures !v.Str? ==> r != ""
  {
    match v
    case Bool(b) => if b then "true" else "false"
    case Num(n) => IntToString(n)
    case Str(s) => s
    case Obj(_) => "[object Object]"
  }

  const UnknownError := "An unknown error occurred"

  /** An object whose own `toString` is `undefined` or `null`: `toString?.()` then yields `undefined`. */
  predicate NoToString(e: JsVal) {
    e.Obj? && "toString" in e.fields && (e.fields["toString"].Undef? || e.fields["toString"].Null?)
  }

  /**
   * `parseErrorMessage`: a string is returned as it is unless it starts with `HTTP Error`;
   * an object yields its `error`, `message` or `data.error`, the first that is truthy;
   * anything else is converted to text, and `undefined`/`null` (or an object whose own
   * `toString` is one of them) become the fallback message.
   */
  function ParseErrorMessage(e: JsVal, parse: string -> Option<JsVal>): (r: JsVal)
    ensures Truthy(r) <==> e != Str("")
    ensures e.Str? && !StartsWith(e.s, "HTTP Error") ==> r == e
    ensures e.Undef? || e.Null? ==> r == Str(UnknownError)
    ensures e.Obj? ==> Truthy(r)
    ensures e.Obj? && Truthy(Get(e, "error")) ==> r == Get(e, "error")
    ensures e.Obj? && !Truthy(Get(e, "error")) && Truthy(Get(e, "message")) ==> r == Get(e, "message")
    ensures e.Obj? && !Truthy(Get(e, "error")) && !Truthy(Get(e, "message")) && Truthy(Get(Get(e, "data"), "error"))
            ==> r == Get(Get(e, "data"), "error")
    ensures e.Obj? && !Truthy(Get(e, "error")) && !Truthy(Get(e, "message")) && !Truthy(Get(Get(e, "data"), "error"))
            ==> r == if NoToString(e) then Str(UnknownError) else Str("[object Object]")
  {
    match e
    case Str(s) =>
      if StartsWith(s, "HTTP Error") then ParseHttpError(s, parse) else e
    case Obj(_) =>
      var data := Get(e, "data");
      if Truthy(Get(e, "error")) then Get(e, "error")
      else if Truthy(Get(e, "message")) then Get(e, "message")
      else if !data.Undef? && !data.Null? && Truthy(Get(data, "error")) then Get(data, "error")
      else if NoToString(e) then Str(UnknownError)
      else Str(ToStringOf(e))
    case Undef => Str(UnknownError)
    case Null => Str(UnknownError)
    case _ =>
      var t := ToStringOf(e);
      if t != "" then Str(t) else Str(UnknownError)
  }

  /** Without a `{` the pattern cannot match anywhere. */
  lemma {:induction false} NoBraceNoMatch(s: string, p: nat)
    requires '{' !in s
    ensures FindMatch(s, p).None?
    decreases |s| + 1 - p
  {
    if p <= |s| {
      NoBraceNoMatch(s, p + 1);
    }
  }

  /** An `HTTP Error` string holding no `{…}` is shown unchanged. */
  lemma HttpErrorWithoutBody(s: string, parse: string -> Option<JsVal>)
    requires StartsWith(s, "HTTP Error") && '{' !in s
    ensures ParseErrorMessage(Str(s), parse) == Str(s)
  {
    NoBraceNoMatch(s, 0);
  }

  /** The digit run of `x + y` is `x` when `x` is all digits and `y` does not start with one. */
  lemma {:induction false} DigitRunStops(x: string, y: string)
    requires forall k :: 0 <= k < |x| ==> IsDigit(x[k])
    requires |y| > 0 && !IsDigit(y[0])
    ensures DigitRun(x + y, 10) == |x|
  {
    if |x| > 0 {
      assert (x + y)[1..] == x[1..] + y;
      DigitRunStops(x[1..], y);
    }
  }

  /** With no line terminator from `i` on, `.` can run to the end of the string. */
  lemma LineEndAtEnd(s: string, i: nat)
    requires i <= |s|
    requires forall k :: 0 <= k < |s[i..]| ==> !IsLineTerminator(s[i..][k])
    ensures LineEnd(s, i) == |s|
  {
    assert forall k :: i <= k < |s| ==> s[k] == s[i..][k - i];
  }

  /** A `{` followed by text without line terminators that ends in `}` is captured whole. */
  lemma BraceBodyToEnd(s: string, q: nat, inner: string)
    requires q < |s| && s[q..] == "{" + inner + "}"
    requires forall k :: 0 <= k < |inner| ==> !IsLineTerminator(inner[k])
    ensures s[q] == '{' && BraceBody(s, q) == Some(s[q..])
  {
    assert s[q] == s[q..][0];
    assert s[q + 1..] == inner + "}";
    LineEndAtEnd(s, q + 1);
    assert s[q + 1..|s|] == inner + "}";
    LastCharIndex(inner, '}');
    assert s[q..q + |inner| + 2] == s[q..];
  }

  /** Where the pieces of `HTTP Error <digits>: {<inner>}` sit in the string. */
  lemma StatusLineSlices(digits: string, inner: string)
    ensures var s := HttpErrorPrefix + digits + ": " + "{" + inner + "}";
      var d := |HttpErrorPrefix|;
      var n := |digits|;
      && OccursAt(s, HttpErrorPrefix, 0)
      && s[d..] == digits + (": {" + inner + "}")
      && OccursAt(s, ": {", d + n)
      && s[d + n + 2..] == "{" + inner + "}"
  {
    var r1 := ": {" + inner + "}";
    var rest := digits + r1;
    var s := HttpErrorPrefix + digits + ": " + "{" + inner + "}";
    assert s == HttpErrorPrefix + rest;
    var d := |HttpErrorPrefix|;
    var n := |digits|;
    assert s[..d] == HttpErrorPrefix;
    assert s[d..] == rest;
    assert s[d + n..d + n + 3] == ": {" by {
      assert s[d + n..d + n + 3] == rest[n..n + 3];
      assert rest[n..n + 3] == r1[..3];
    }
    assert s[d + n + 2..] == "{" + inner + "}";
  }

  /** The pattern matches a status line whose JSON body runs to the end of the line, capturing the body. */
  lemma MatchHttpError(digits: string, inner: string)
    requires |digits| > 0 && forall k :: 0 <= k < |digits| ==> IsDigit(digits[k])
    requires forall k :: 0 <= k < |inner| ==> !IsLineTerminator(inner[k])
    ensures MatchAt(HttpErrorPrefix + digits + ": " + "{" + inner + "}", 0) == Some("{" + inner + "}")
  {
    var s := HttpErrorPrefix + digits + ": " + "{" + inner + "}";
    var d := |HttpErrorPrefix|;
    StatusLineSlices(digits, inner);
    DigitRunStops(digits, ": {" + inner + "}");
    assert DigitRun(s[d..], 10) == |digits|;
    BraceBodyToEnd(s, d + |digits| + 2, inner);
  }

  /** The last character of `x + [c]` is the last `c`. */
  lemma LastCharIndex(x: string, c: char)
    ensures LastIndex(x + [c], c) == Some(|x|)
  {
    assert (x + [c])[|x|] == c;
  }

  /**
   * `HTTP Error <status>: {…}` whose body parses to an object with a truthy `error` shows
   * that `error`; with a falsy `error` and a truthy `message`, the `message`.
   */
  lemma HttpErrorWithBody(code: nat, inner: string, parse: string -> Option<JsVal>)
    requires forall k :: 0 <= k < |inner| ==> !IsLineTerminator(inner[k])
    requires parse("{" + inner + "}").Some? && parse("{" + inner + "}").value.Obj?
    ensures var s := HttpErrorPrefix + NatToString(code) + ": " + "{" + inner + "}";
      var v := parse("{" + inner + "}").value;
      ParseErrorMessage(Str(s), parse) ==
        if Truthy(Get(v, "error")) then Get(v, "error")
        else if Truthy(Get(v, "message")) then Get(v, "message")
        else Str(s)
  {
    var s := HttpErrorPrefix + NatToString(code) + ": " + "{" + inner + "}";
    MatchHttpError(NatToString(code), inner);
    assert s[..10] == "HTTP Error";
  }

  /** A body that does not parse falls back to the text after the first `": "`. */
  lemma HttpErrorUnparsable(code: nat, inner: string, parse: string -> Option<JsVal>)
    requires forall k :: 0 <= k < |inner| ==> !IsLineTerminator(inner[k])
    requires parse("{" + inner + "}").None?
    ensures var s := HttpErrorPrefix + NatToString(code) + ": " + "{" + inner + "}";
      ParseErrorMessage(Str(s), parse) == Str(AfterFirstColon(s))
  {
    var s := HttpErrorPrefix + NatToString(code) + ": " + "{" + inner + "}";
    MatchHttpError(NatToString(code), inner);
    assert s[..10] == "HTTP Error";
  }
}
