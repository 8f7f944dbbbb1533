/**
 * `POST /api/upload`: the checks made before an image is forwarded to the image host.
 * The forwarding itself is not part of this model.
 */
module UploadRoute {
  import opened Wrappers
  import opened JsStrings
  import opened Http
  import opened Auth

  /** The `file` member of the form: its MIME type and size in bytes. */
  datatype UploadFile = UploadFile(mimeType: string, size: nat)

  /** 5 MiB. */
  const MaxImageSize := 5 * 1024 * 1024

  /** Either the reply that ends the request, or the go-ahead to forward the file. */
  datatype Gate = Refused(response: Response) | Forward(user: Claims, file: UploadFile)

  function CheckUpload(header: Option<string>, verify: string -> Option<Claims>, file: Option<UploadFile>): (r: Gate)
    ensures AuthenticateRequest(header, verify).Rejected? ==> r == Refused(AuthenticateRequest(header, verify).response)
    ensures r.Forward? <==>
      && AuthenticateRequest(header, verify).Authenticated?
      && file.Some? && StartsWith(file.value.mimeType, "image/") && file.value.size <= MaxImageSize
    ensures r.Forward? ==> r.user == AuthenticateRequest(header, verify).user && Some(r.file) == file
    ensures AuthenticateRequest(header, verify).Authenticated? ==>
      && (file.None? ==> r == Refused(Fail(400, "No file provided")))
      && (file.Some? && !StartsWith(file.value.mimeType, "image/") ==> r == Refused(Fail(400, "Please upload a valid image file")))
      && (file.Some? && StartsWith(file.value.mimeType, "image/") && file.value.size > MaxImageSize
          ==> r == Refused(Fail(400, "Image size must be less than 5MB")))
  {
    match AuthenticateRequest(header, verify)
    case Rejected(resp) => Refused(resp)
    case Authenticated(user) =>
      match file
      case None => Refused(Fail(400, "No file provided"))
      case Some(f) =>
        if !StartsWith(f.mimeType, "image/") then Refused(Fail(400, "Please upload a valid image file"))
        else if f.size > MaxImageSize then Refused(Fail(400, "Image size must be less than 5MB"))
        else Forward(user, f)
  }

  /** An image of exactly 5 MiB is accepted. */
  lemma FiveMebibytesAccepted(header: Option<string>, verify: string -> Option<Claims>, mimeType: string)
    requires AuthenticateRequest(header, verify).Authenticated? && StartsWith(mimeType, "image/")
    ensures CheckUpload(header, verify, Some(UploadFile(mimeType, 5242880))).Forward?
  {
  }
}
