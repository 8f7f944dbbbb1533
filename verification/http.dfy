/**
 * What the handlers send back: a status and a JSON body, with the payload shapes the
 * routes return, and the signed session token (`jsonwebtoken`) they hand out.
 */
module Http {
  import opened Wrappers
  import opened JsStrings
  import opened Schema
  import opened LocationModel
  import opened OrderModel

  /** The claims the handlers sign: the user's id and username (absent for an unfinished SSO profile). */
  datatype Claims = Claims(userId: Id, username: Option<string>)

  /** A signed token: its claims, issue time and expiry, both in seconds since the epoch. */
  datatype Token = Token(claims: Claims, issuedAt: int, expiresAt: int)

  /** `expiresIn: '7d'`, in seconds. */
  const SevenDays := 7 * 24 * 60 * 60

  /** `jwt.sign(claims, secret, { expiresIn: '7d' })` at `now` (milliseconds); the secret is left out. */
  function Sign(claims: Claims, now: int): (t: Token)
    ensures t.claims == claims
    ensures t.issuedAt * 1000 <= now < (t.issuedAt + 1) * 1000
    ensures t.expiresAt - t.issuedAt == 604800
  {
    Token(claims, now / 1000, now / 1000 + SevenDays)
  }

  /** A user as `select('username email')` returns it. */
  datatype UserRef = UserRef(id: Id, username: Option<string>, email: string)

  /** A listed location with today's votes in place of the stored ones. */
  datatype LocationView = LocationView(location: Location, votes: nat, voters: seq<UserRef>)

  /** The `data` member of a successful reply. */
  datatype Payload =
    | NewAccount(userId: Id, username: Option<string>, email: string)
    | LoginSession(userId: Id, username: Option<string>, email: string, token: Token)
    | SsoSession(userId: Id, username: Option<string>, email: string, organization: Option<string>, token: Token)
    | LocationList(views: seq<LocationView>)
    | CreatedLocation(location: Location)
    | OrderList(orders: seq<Order>)
    | CreatedOrder(order: Order)

  /** The JSON bodies the handlers produce. */
  datatype Body =
    /** `{ success, message?, error?, data?, needsVerification? }`; `needsVerification` is sent only when true. */
    | Envelope(success: bool, message: Option<string>, error: Option<string>, data: Option<Payload>, needsVerification: bool)
    /** `{ error }`, the failure body of the SSO handlers. */
    | ErrorOnly(reason: string)
    /** `{ needsProfileCompletion: true }`. */
    | NeedsProfileCompletion
    /** `{ isComplete, username?, organization? }`. */
    | ProfileStatus(isComplete: bool, username: Option<string>, organization: Option<string>)

  datatype Response = Response(status: nat, body: Body)

  /** `Response.json({ success: false, error }, { status })`. */
  function Fail(status: nat, error: string): (r: Response)
    ensures r.status == status && r.body.Envelope? && !r.body.success
    ensures r.body.error == Some(error) && r.body.data.None? && r.body.message.None?
  {
    Response(status, Envelope(false, None, Some(error), None, false))
  }

  /** `Response.json({ success: true, message?, data? }, { status })`. */
  function Success(status: nat, message: Option<string>, data: Option<Payload>): (r: Response)
    ensures r.status == status && r.body.Envelope? && r.body.success
    ensures r.body.error.None? && r.body.message == message && r.body.data == data
  {
    Response(status, Envelope(true, message, None, data, false))
  }

  /** A reply that reports success. */
  predicate Succeeded(r: Response) {
    r.body.Envelope? && r.body.success
  }
}
