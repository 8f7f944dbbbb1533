/**
 * The user queries of the account handlers, as filters for `findOne`. The schema's
 * `lowercase` setters also run on query values, so a lookup by email or username
 * compares the lower-cased text.
 */
module Accounts {
  import opened Wrappers
  import opened UserModel

  /** `{ username }`. */
  function ByUsername(name: string): User -> bool {
    (u: User) => u.username == Some(name)
  }

  /** `{ email }`. */
  function ByEmail(email: string): User -> bool {
    (u: User) => u.email == email
  }

  /** `{ $or: [{ email }, { username }] }`. */
  function ByEmailOrUsername(email: string, name: string): User -> bool {
    (u: User) => u.email == email || u.username == Some(name)
  }

  /**
   * The `token` member of a JSON body as the store's query reads it: a string, or the
   * operator object `{ "$ne": null }`, which matches every stored token that is present.
   */
  datatype TokenQuery = Text(s: string) | NotNull

  /** `!token` is false: the member is there and is not the empty string. */
  predicate Present(t: Option<TokenQuery>) {
    t.Some? && t.value != Text("")
  }

  /** A stored token the query value selects. */
  predicate TokenMatches(stored: Option<string>, q: TokenQuery) {
    match q
    case Text(s) => stored == Some(s)
    case NotNull => stored.Some?
  }

  /** The email, a verification token the query value selects, and an expiry strictly after `now`. */
  function ByVerificationQuery(email: string, q: TokenQuery, now: int): User -> bool {
    (u: User) =>
      && u.email == email && TokenMatches(u.emailVerificationToken, q)
      && u.emailVerificationTokenExpires.Some? && u.emailVerificationTokenExpires.value > now
  }

  /** The email, a reset token the query value selects, and an expiry strictly after `now`. */
  function ByResetQuery(email: string, q: TokenQuery, now: int): User -> bool {
    (u: User) =>
      && u.email == email && TokenMatches(u.passwordResetToken, q)
      && u.passwordResetTokenExpires.Some? && u.passwordResetTokenExpires.value > now
  }

  /** The email, an equal verification token, and an expiry strictly after `now`. */
  function ByVerificationToken(email: string, token: string, now: int): User -> bool {
    ByVerificationQuery(email, Text(token), now)
  }

  /** The email, an equal reset token, and an expiry strictly after `now`. */
  function ByResetToken(email: string, token: string, now: int): User -> bool {
    ByResetQuery(email, Text(token), now)
  }

  /** How long a verification link stays valid: 24 hours. */
  const VerificationWindow := 24 * 60 * 60 * 1000
  /** How long a reset link stays valid: 1 hour. */
  const ResetWindow := 60 * 60 * 1000
}
