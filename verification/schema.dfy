/**
 * What the object-document mapper contributes to every model: document ids, JSON
 * numbers that may be missing or null, and the message of a failed validation
 * (`<Model> validation failed: <path>: <message>, ...`).
 */
module Schema {
  import opened Wrappers
  import opened JsStrings

  /** A document id (an ObjectId in its text form). */
  type Id = string

  /** A JSON number field of a request body: absent, `null`, or a number. */
  datatype JsonNumber = Undefined | Null | Number(value: real)

  /** One failed validator: the schema path and its message. */
  datatype FieldError = FieldError(path: string, message: string)

  function Describe(errs: seq<FieldError>): (r: seq<string>)
    ensures |r| == |errs|
    ensures forall k :: 0 <= k < |errs| ==> r[k] == errs[k].path + ": " + errs[k].message
  {
    if |errs| == 0 then [] else [errs[0].path + ": " + errs[0].message] + Describe(errs[1..])
  }

  /** How the message of a failed validation of `model` begins. */
  function FailureHead(model: string): string {
    model + " validation failed: "
  }

  /** The message of the validation error thrown on create or save. */
  function ValidationMessage(model: string, errs: seq<FieldError>): (r: string)
    ensures StartsWith(r, FailureHead(model))
  {
    var head := FailureHead(model);
    var r := head + Join(Describe(errs), ", ");
    assert r[..|head|] == head;
    r
  }

  /** The default message of a `required` validator without a custom message. */
  function RequiredMessage(path: string): string {
    "Path `" + path + "` is required."
  }

  /** The error of a `required` string path: present and not empty. */
  function RequireString(path: string, value: Option<string>, message: string): (r: seq<FieldError>)
    ensures |r| <= 1
    ensures r == [] <==> Filled(value)
  {
    if Filled(value) then [] else [FieldError(path, message)]
  }

  /** Succeeds with `value` when no validator failed. */
  function Validated<T>(model: string, errs: seq<FieldError>, value: T): (r: Result<T>)
    ensures r.Ok? <==> errs == []
    ensures r.Ok? ==> r.value == value
    ensures r.Err? ==> r.error == ValidationMessage(model, errs)
  {
    if errs == [] then Ok(value) else Err(ValidationMessage(model, errs))
  }
}
