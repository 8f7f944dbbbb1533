/**
 * The browser-side session of the app's own sign-in: `localStorage` as a string map
 * holding the token, the user (as JSON text) and the time of sign-in, and the state the
 * provider exposes. A session older than 60 minutes is dropped, either when the page
 * loads or by the check that runs every minute while signed in.
 */
module AuthContext {
  import opened Wrappers
  import opened JsStrings

  const SessionTimeout := 60 * 60 * 1000
  const TokenKey := "authToken"
  const UserKey := "user"
  const TimestampKey := "sessionTimestamp"

  type Storage = map<string, string>

  /** The provider's state: `user` is kept as the JSON text it was stored as. */
  datatype Session = Session(storage: Storage, user: Option<string>, token: Option<string>, loading: bool, sessionExpired: bool)

  /** The state before the page has loaded anything. */
  function Initial(storage: Storage): Session {
    Session(storage, None, None, true, false)
  }

  /** `localStorage.getItem(key)`. */
  function Get(storage: Storage, key: string): Option<string> {
    if key in storage then Some(storage[key]) else None
  }

  /** `removeItem` of the three session keys. */
  function Clear(storage: Storage): (r: Storage)
    ensures TokenKey !in r && UserKey !in r && TimestampKey !in r
    ensures forall k :: k in storage && k != TokenKey && k != UserKey && k != TimestampKey ==> k in r && r[k] == storage[k]
    ensures forall k :: k in r ==> k in storage
  {
    storage - {TokenKey, UserKey, TimestampKey}
  }

  /**
   * `Date.now() - parseInt(timestamp) > SESSION_TIMEOUT`. A timestamp that does not
   * parse gives NaN, and NaN is never greater: such a session never expires.
   */
  predicate TooOld(timestamp: string, now: int) {
    match ParseInt(timestamp)
    case None => false
    case Some(t) => now - t > SessionTimeout
  }

  /** The three session keys are all present and non-empty. */
  predicate Stored(storage: Storage) {
    Filled(Get(storage, TokenKey)) && Filled(Get(storage, UserKey)) && Filled(Get(storage, TimestampKey))
  }

  /**
   * A page load: the provider starts from `Initial` and its mount effect restores a fresh
   * session or drops a stale one; loading ends either way.
   */
  function Mount(storage: Storage, now: int): (r: Session)
    ensures !r.loading
    ensures r.user.Some? <==> Stored(storage) && !TooOld(storage[TimestampKey], now)
    ensures r.user.Some? ==> r.user == Get(storage, UserKey) && r.token == Get(storage, TokenKey) && r.storage == storage
    ensures r.user.Some? || r.token.None?
    ensures r.sessionExpired <==> Stored(storage) && TooOld(storage[TimestampKey], now)
    ensures r.sessionExpired ==> r.storage == Clear(storage)
    ensures !Stored(storage) ==> r.storage == storage
  {
    var s := Initial(storage);
    if Stored(storage) then
      if TooOld(storage[TimestampKey], now) then
        s.(storage := Clear(storage), sessionExpired := true, loading := false)
      else
        s.(token := Get(storage, TokenKey), user := Get(storage, UserKey), loading := false)
    else s.(loading := false)
  }

  /** `login(userData, authToken)` at `now`. */
  function Login(s: Session, userJson: string, token: string, now: nat): (r: Session)
    ensures r.user == Some(userJson) && r.token == Some(token) && !r.sessionExpired && r.loading == s.loading
    ensures Get(r.storage, TokenKey) == Some(token) && Get(r.storage, UserKey) == Some(userJson)
    ensures Get(r.storage, TimestampKey) == Some(NatToString(now))
    ensures forall k :: k in s.storage && k != TokenKey && k != UserKey && k != TimestampKey ==> k in r.storage && r.storage[k] == s.storage[k]
  {
    var st := s.storage[TokenKey := token][UserKey := userJson][TimestampKey := NatToString(now)];
    s.(user := Some(userJson), token := Some(token), sessionExpired := false, storage := st)
  }

  /** `logout()`: everything cleared, and not reported as expired. */
  function Logout(s: Session): (r: Session)
    ensures r.user.None? && r.token.None? && !r.sessionExpired && r.storage == Clear(s.storage)
    ensures !Stored(r.storage)
  {
    s.(user := None, token := None, sessionExpired := false, storage := Clear(s.storage))
  }

  /** `logoutDueToTimeout()`: the same, but reported as expired. */
  function LogoutDueToTimeout(s: Session): (r: Session)
    ensures r.user.None? && r.token.None? && r.sessionExpired && r.storage == Clear(s.storage)
    ensures r == Logout(s).(sessionExpired := true)
  {
    s.(user := None, token := None, sessionExpired := true, storage := Clear(s.storage))
  }

  /** The minute-by-minute check: only while signed in, and only with a timestamp stored. */
  function CheckSessionExpiry(s: Session, now: int): (r: Session)
    ensures r != s <==> Filled(s.token) && Filled(s.user) && Filled(Get(s.storage, TimestampKey))
                        && TooOld(s.storage[TimestampKey], now)
    ensures r != s ==> r == LogoutDueToTimeout(s)
  {
    if Filled(s.token) && Filled(s.user) && Filled(Get(s.storage, TimestampKey)) && TooOld(s.storage[TimestampKey], now) then
      LogoutDueToTimeout(s)
    else s
  }

  /** A session signed in at `now` is restored on any page load within the following 60 minutes. */
  lemma LoginThenMountWithinTimeout(s: Session, userJson: string, token: string, now: nat, later: int)
    requires userJson != "" && token != ""
    requires later - now <= SessionTimeout
    ensures var m := Mount(Login(s, userJson, token, now).storage, later);
      m.user == Some(userJson) && m.token == Some(token) && !m.loading
  {
    ParseIntNatToString(now);
  }

  /** A session signed in at `now` is dropped, and reported expired, on a load more than 60 minutes later. */
  lemma LoginThenMountAfterTimeout(s: Session, userJson: string, token: string, now: nat, later: int)
    requires userJson != "" && token != ""
    requires later - now > SessionTimeout
    ensures var m := Mount(Login(s, userJson, token, now).storage, later);
      m.user.None? && m.token.None? && m.sessionExpired && !Stored(m.storage)
  {
    ParseIntNatToString(now);
  }

  /** After logging out nothing is restored on the next load. */
  lemma LogoutThenMount(s: Session, now: int)
    ensures var m := Mount(Logout(s).storage, now); m.user.None? && m.token.None? && !m.sessionExpired && !m.loading
  {
  }

  /** While signed in at `now`, the periodic check logs out exactly when more than 60 minutes have passed. */
  lemma CheckFiresAfterTimeout(s: Session, userJson: string, token: string, now: nat, later: int)
    requires userJson != "" && token != ""
    ensures var l := Login(s, userJson, token, now);
      CheckSessionExpiry(l, later) == if later - now > SessionTimeout then LogoutDueToTimeout(l) else l
  {
    ParseIntNatToString(now);
  }
}
