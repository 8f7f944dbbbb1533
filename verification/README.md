# Lunch app: a Dafny model of its request handlers and session logic

This project models the decision logic of a small lunch-ordering web application (a
Next.js front end over a MongoDB document store). Each route handler is modelled as a
pure function: it takes the store, the request, the current time and any outside
inputs, and returns the new store, the HTTP reply, and the mail it sent. The modelled
parts are:

- **Request authentication:** the bearer-token parser, the authenticate decision, and the reply builder (`Auth`).
- **The Port of Spain "today" window:** integer milliseconds (`DateUtils`).
- **The three collections and their schemas:** users, lunch locations, lunch orders, plus the to-do item schema. Each has its validators, defaults and the password hook (`UserModel`, `LocationModel`, `OrderModel`, `ItemModel`, `Schema`). The store has its unique indexes (`Database`).
- **The location and order routes:** the listing of active locations ranked by today's votes, today's orders, and their creation (`LocationsRoute`, `OrdersRoute`).
- **The account handlers:**
  - register, login, email verification, forgot and reset password (`RegisterRoute`, `LoginRoute`, `VerifyEmailRoute`, `ForgotPasswordRoute`, `ResetPasswordRoute`);
  - the Google sign-in handlers, which cover profile completion, session sign-in and profile status (`CompleteProfileRoute`, `SsoLoginRoute`, `ProfileStatusRoute`);
  - the image upload gate (`UploadRoute`).
- **The mailed links and `encodeURIComponent`:** the links are proved to be readable back. `encodeURIComponent` is ECMA-262 section 19.2.6.4, with percent-encoding as in section 2.1 of RFC 3986 (`Email`, `UriEncoding`).
- **The client's error-message parser** (`ErrorHandler`).
- **The browser session:** `localStorage` with a 60-minute timeout (`AuthContext`).
- **The username suggestion and checks** of the profile-completion page (`CompleteProfilePage`).
- **Whole account lifecycles across several requests** (`Lifecycle`).

Everything the handlers get from outside is a parameter:
- the wall clock (`now`, in milliseconds);
- the Port of Spain wall-clock reading and the server's UTC offset;
- token verification (`jwt.verify`) as a partial function;
- random tokens and new document ids;
- the application URL;
- the mail transport's outcome;
- the Google session's email;
- `JSON.parse` in the error parser.

bcrypt is an ideal one-way function: `Hash(p)` is the term `Digest(Plain(p))`, and
comparing succeeds exactly for the password the digest was made from. A signed token is
its claims together with its issue and expiry times.

## Model

| member | source | states |
|---|---|---|
| Auth.ExtractTokenFromHeader | lib/auth.js:16-28 | a missing or empty header gives no token; a token is returned only when the header is exactly `Bearer ` plus that token, and the token contains no space |
| Auth.BearerHeader | lib/auth.js:22-27 | a header of `Bearer ` plus a space-free token gives back that token, verbatim (the converse of the parser's contract) |
| Auth.CreateAuthResponse | lib/auth.js:30-40 | the reply always carries status, `success` and `message`; it has `data` only when data is given, and `error` only when the error is a non-empty string |
| Auth.AuthenticateRequest | lib/auth.js:42-66 | authenticated exactly when a non-empty token is extracted and verifies, with the verified claims as the user; otherwise 401 with "No token provided" (no token, or an empty one) or "Invalid or expired token" |
| Auth.BearerAuthenticates | lib/auth.js:42-65 | a well-formed bearer header authenticates as the claims its token verifies to, or is refused as invalid or expired |
| Auth.EmptyBearerRejected | lib/auth.js:43-50 | the header `Bearer ` is answered as if no token had been given |
| DateUtils.Midnight | lib/dateUtils.js:10-11 | zeroing the time lands on a server-local midnight no later than the instant and less than a day before it |
| DateUtils.GetTrinidadDateRange | lib/dateUtils.js:20-30 | startOfDay is today's midnight, endOfDay is 23:59:59.999 of the same day (86 399 999 ms later), and start is before end |
| DateUtils.MidnightIdempotent | lib/dateUtils.js:23-24 | zeroing the time of a midnight changes nothing, so re-zeroing today gives today |
| DateUtils.RangeIsDay | lib/dateUtils.js:20-30 | an instant is in the window, both ends included, exactly when it falls on the window's local day |
| DateUtils.MidnightOfSameDay | lib/dateUtils.js:10-11 | every instant within a day after a midnight has that midnight as its own |
| DateUtils.NormalizeDateToTrinidad | lib/dateUtils.js:37-41 | the result is a local midnight on the day the Port of Spain clock shows at the given date; getTrinidadToday is this at the current instant |
| UserModel.Compare | models/User.js:89-92 | comparing throws when no password is stored; otherwise it succeeds exactly for the digest of the given password |
| UserModel.ComparePasswordOfHash | models/User.js:89-92 | a stored digest matches the password it was made from, and no other |
| UserModel.UsernameErrors | models/User.js:6-15 | a username is accepted when it is absent, or has 3 to 30 characters all from `[a-z0-9_-]`; at most one message, checked in the order minlength, maxlength, match |
| UserModel.EmailErrors | models/User.js:16-22 | the email is required and must be one `@` with text before it, a `.` with text on both sides after it, and no whitespace |
| UserModel.PasswordErrors | models/User.js:23-28 | the password is optional; a plain password needs at least 6 characters |
| UserModel.OrganizationErrors | models/User.js:49-54 | the organization is optional and otherwise must be `BGL IT` |
| UserModel.UserErrors | models/User.js:4-71 | a user passes validation exactly when every path validator accepts it |
| UserModel.Lowercased | models/User.js:13 | the lowercase setter keeps an absent value absent and lower-cases a present one |
| UserModel.PreSave | models/User.js:73-87 | the password is hashed only when it was modified; hashing a missing password throws; an unmodified document is untouched |
| UserModel.Save | models/User.js:73-87 | a save succeeds exactly when every validator accepts the user and a modified password is present; the saved user is valid and differs only by the hashed password |
| UserModel.NewUser | models/User.js:4-71 | create succeeds exactly when the lower-cased username (if any) and email, the password length and the organization are valid; the user is unverified and incomplete, gets the default organization, and has the password hashed |
| UserModel.ToLowerKeepsUsername | models/User.js:13-14 | lower-casing leaves a pattern-matching username unchanged |
| LocationModel.NewLocation | models/LunchLocation.js:3-45 | create succeeds exactly when the trimmed name is non-empty and a creator is given; it trims name and description, and defaults to no logo, the plate emoji, 0 votes, no voters and active |
| OrderModel.CostErrors | models/LunchOrder.js:20-24 | a cost is required and must be at least 0 |
| OrderModel.OrderErrors | models/LunchOrder.js:3-35 | an order passes exactly when the location, user, non-blank item, non-negative cost and order date are all present |
| OrderModel.NewOrder | models/LunchOrder.js:3-35 | create succeeds exactly for an acceptable draft; item and notes are trimmed, cost and date are kept |
| OrderModel.NewOrderIgnoresMoneyPaid | models/LunchOrder.js:3-35 | the schema has no `moneyPaid` path, so create gives the same result whatever `moneyPaid` is passed |
| ItemModel.NewItem | models/Item.js:3-21 | create succeeds exactly for a title of 1-100 and a description of 1-500 characters; `completed` defaults to false |
| ItemModel.ItemDefaultsAndBounds | models/Item.js:6-18 | a 100-character title is accepted and a 101-character one refused; a missing `completed` becomes false |
| Schema.Validated | models/User.js:4-71 | a document is accepted exactly when no validator failed; otherwise the error is "<Model> validation failed: …" |
| Database.InsertUser | models/User.js:9-19 | a new user is appended exactly when it breaks no unique index (id, email, and the sparse username and googleId); uniqueness is preserved |
| Database.ReplaceUser | app/api/auth/reset-password/route.js:49 | writing a user back at its index succeeds exactly when it clashes with no other user; uniqueness is preserved |
| Database.SaveUser | app/api/auth/verify-email/route.js:34 | saving a loaded user validates it and hashes a modified password before writing it back; a valid version with unchanged keys always saves |
| Database.ReplaceSameKeys | models/User.js:9-19 | in a consistent store, a version with the same id, email, username and googleId never clashes |
| Database.FindUser | app/api/auth/login/route.js:19 | findOne returns the first user in natural order that matches the filter, or none when nothing matches |
| Database.InsertLocation | app/api/lunch-locations/route.js:79-85 | a location is appended exactly when its id is new |
| Database.InsertOrder | app/api/lunch-orders/route.js:83-91 | an order is appended exactly when its id is new |
| Seqs.SortDesc | app/api/lunch-locations/route.js:43 | the sort is a permutation ordered by the first key descending, with ties broken by the second key descending |
| Seqs.SortDescStable | app/api/lunch-locations/route.js:43 | the sort is stable: elements sharing both keys come out in their input order |
| Seqs.MapPermute | app/api/lunch-locations/route.js:29-40 | mapping a reordering of a sequence gives a reordering of the mapped sequence |
| LocationsRoute.TodayVotes | app/api/lunch-locations/route.js:24-27 | exactly the history entries dated inside the window, both ends included, are counted, each with its multiplicity |
| LocationsRoute.UsersAmong | app/api/lunch-locations/route.js:33 | exactly the stored users whose id is listed, each once, in store order, with their stored username and email: every ref is a listed stored user's, and every listed stored user has one |
| LocationsRoute.View | app/api/lunch-locations/route.js:21-38 | a listed location reports today's vote count, and as voters each stored user who voted today, once, in store order, with the stored username and email |
| LocationsRoute.ListLocations | app/api/lunch-locations/route.js:7-51 | 200 with a permutation of the active locations' views (each once, with today's votes and voters), ordered by today's votes and then creation time, both descending |
| LocationsRoute.ListedAreActive | app/api/lunch-locations/route.js:14-43 | a reordering of the views of a reordering of the active locations is a permutation of the active locations' views, so it holds only active locations, and all of them |
| LocationsRoute.DraftOf | app/api/lunch-locations/route.js:79-85 | an empty logo becomes null, an empty emoji becomes the plate, and the creator is the requester |
| LocationsRoute.CreateLocation | app/api/lunch-locations/route.js:61-103 | a rejected authentication returns its reply; a missing name is 400; 201 exactly when authenticated with a non-blank name and a fresh id, and the new location is appended with the defaults and the requester as creator; otherwise nothing is created |
| OrdersRoute.ListOrders | app/api/lunch-orders/route.js:7-46 | 200 with exactly the orders dated today, filtered by location only when one is given, newest first |
| OrdersRoute.SelectedOrders | app/api/lunch-orders/route.js:17-30 | a permutation of the selected orders holds only matching orders, and all of them |
| OrdersRoute.Precheck | app/api/lunch-orders/route.js:59-78 | the first failing check gives the reply, in order: "Location, item, and cost are required" when a location or item is empty or the cost is absent, then "Cost cannot be negative", then "Money paid cannot be negative" (a null or absent `moneyPaid` skips this check); passing means none of them applies |
| OrdersRoute.CreateOrder | app/api/lunch-orders/route.js:48-107 | 201 exactly when authenticated, the checks pass, the cost is a number and the item is non-blank; the order is appended for the requester, dated today's startOfDay; every failure leaves the store unchanged |
| OrdersRoute.ZeroCostAccepted | app/api/lunch-orders/route.js:59-64 | a cost of exactly 0 passes every check |
| Email.AppBase | lib/email.js:14 | the configured URL is used when set and non-empty; otherwise http://localhost:3000 |
| Email.Send | lib/email.js:32-40 | a delivered mail is returned; a transport failure is passed on with its message |
| Email.SendVerificationEmail | lib/email.js:13-41 | the mail goes to the address as given and carries the verification link; a failure is passed on |
| Email.SendPasswordResetEmail | lib/email.js:43-73 | the mail goes to the address as given and carries the reset link; a failure is passed on |
| Email.LinkRoundTrip | lib/email.js:14 | the value after a link's last `=` decodes back to the email; for a token without `=`, the text before the last `&` ends with the verbatim token |
| UriEncoding.EncodeURIComponent | lib/email.js:14 | the encoding contains only unreserved characters and `%`, so never `&`, `=`, `?` or `#`; text that is all unreserved is unchanged |
| UriEncoding.DecodeEncode | lib/email.js:14 | percent-decoding undoes `encodeURIComponent` on every string |
| ErrorHandler.ParseErrorMessage | lib/errorHandler.js:7-35 | a string not starting with "HTTP Error" is returned unchanged; undefined or null gives the fallback message; an object yields its truthy `error`, else its truthy `message`, else its truthy `data.error`, else its text (the fallback message when its own `toString` is undefined or null); the result is truthy unless the input is the empty string |
| ErrorHandler.ParseHttpError | lib/errorHandler.js:11-23 | an "HTTP Error" string always yields a truthy message |
| ErrorHandler.HttpErrorWithBody | lib/errorHandler.js:13-16 | for "HTTP Error <code>: {…}" whose body parses to an object, the result is its truthy `error`, else its truthy `message`, else the whole string |
| ErrorHandler.HttpErrorUnparsable | lib/errorHandler.js:18-22 | a body that fails to parse gives the second ": "-separated part, or the whole string |
| ErrorHandler.HttpErrorWithoutBody | lib/errorHandler.js:11-24 | an "HTTP Error" string with no `{` is returned unchanged |
| ErrorHandler.MatchHttpError | lib/errorHandler.js:13 | the pattern matches a status line with a one-line JSON body and captures the body |
| ErrorHandler.AfterFirstColon | lib/errorHandler.js:20-21 | a non-empty string yields a non-empty message |
| RegisterRoute.Precheck | app/api/auth/register/route.js:12-40 | the first failing check gives the reply, in order: "All fields are required" unless all five fields are non-empty, then "Invalid organization", then "Passwords do not match", then "Password must be at least 6 characters" (exactly 6 passes); passing means none of them applies |
| RegisterRoute.Register | app/api/auth/register/route.js:6-95 | a failed check, or an existing email or username, is 400 with nothing created; otherwise the account is created; every non-201 reply leaves the store unchanged; uniqueness is preserved |
| RegisterRoute.Account | app/api/auth/register/route.js:55-63 | the created account is unverified, holds the lower-cased name and email, the hashed password, the token, and an expiry 24 hours after now; it exists exactly when the lower-cased username and email are well formed |
| RegisterRoute.Create | app/api/auth/register/route.js:51-87 | 201 exactly when the account validates and its id is new; the account is appended, and the mail goes out with the verification link only when delivery succeeds; a failed delivery still gives 201 |
| RegisterRoute.NotTakenNoClash | app/api/auth/register/route.js:42-49 | when no user holds the email or the username, the new account can clash only on its id |
| LoginRoute.LoginAsWritten | app/api/auth/login/route.js:5-61 | the handler as written: missing fields 400, unknown user 401, a user without a stored password 400 with the hashing library's message, otherwise as in the corrected version |
| LoginRoute.Login | app/api/auth/login/route.js:10-53 | 401 exactly when the lower-cased username is unknown or the password does not match; 403 with `needsVerification` exactly for the right password of an unverified account; 200 with a token for `{userId, username}` exactly otherwise |
| LoginRoute.Session | app/api/auth/login/route.js:35-53 | the success reply carries id, username, email and a token for `{userId, username}` expiring 7 days after issue |
| LoginRoute.LoginDoesNotRevealAccounts | app/api/auth/login/route.js:19-25 | an unknown username and a wrong password get the identical reply |
| LoginRoute.AsWrittenDoesNotRevealAccounts | app/api/auth/login/route.js:19-25 | the handler as written gives an unknown username and a wrong password for an account with a stored password the identical 401 reply |
| LoginRoute.SsoUserLoginThrows | app/api/auth/login/route.js:19-25 | for an account without a password, the handler as written answers 400 where an unknown name gets 401; the corrected version answers 401 |
| VerifyEmailRoute.MarkVerified | app/api/auth/verify-email/route.js:30-33 | verification sets the flag, clears the token and expiry, and keeps every key and the password |
| VerifyEmailRoute.VerifyEmail | app/api/auth/verify-email/route.js:4-49 | for a string token: missing fields 400; otherwise success only for the account whose lower-cased email holds the equal token with an expiry strictly after now, which is marked verified; every failure leaves the store unchanged |
| VerifyEmailRoute.VerifyEmailAsWritten | app/api/auth/verify-email/route.js:7-33 | the token is a string or the operator object `{ "$ne": null }`: a string agrees with `VerifyEmail`; success marks verified an account whose email matches and whose stored token the query value selects |
| VerifyEmailRoute.VerifyEmailChecked | app/api/auth/verify-email/route.js:9-21 | the corrected handler: an operator object is refused with 400, and success means the account holds exactly the string token sent |
| VerifyEmailRoute.ForgedSelects | app/api/auth/verify-email/route.js:17-21 | with `{ "$ne": null }` as the token, the lookup selects the account by its email alone, whatever token it holds |
| VerifyEmailRoute.GuessedVerifyFails | app/api/auth/verify-email/route.js:17-28 | a string other than the account's stored token is refused |
| VerifyEmailRoute.VerifyWithoutToken | app/api/auth/verify-email/route.js:9-33 | any account with a pending token is verified by a request that knows only its email, while every wrong string fails and the corrected handler refuses the request |
| VerifyEmailRoute.VerifyIsOneShot | app/api/auth/verify-email/route.js:17-33 | once a request has verified an account, the same request never succeeds again |
| ForgotPasswordRoute.WithResetToken | app/api/auth/forgot-password/route.js:30-36 | the new token and expiry replace any earlier ones; keys and password are kept |
| ForgotPasswordRoute.ForgotPassword | app/api/auth/forgot-password/route.js:6-63 | a missing email is 400; an unknown email gets the generic success and changes nothing; a known one gets a token expiring in 1 hour and the reset mail; if delivery fails the token is cleared again and the reply is 400 |
| ForgotPasswordRoute.ForgotDoesNotRevealAccounts | app/api/auth/forgot-password/route.js:21-55 | an unknown email and a known one whose mail went out get the identical reply |
| ForgotPasswordRoute.DeliveryFailure | app/api/auth/forgot-password/route.js:56-61 | a failed delivery is 400 with the transport's message, or the fallback when the message is empty |
| ResetPasswordRoute.Precheck | app/api/auth/reset-password/route.js:10-29 | the first failing check gives the reply, before any lookup, in order: "All fields are required" unless all four fields are non-empty, then "Passwords do not match", then "Password must be at least 6 characters"; passing means none of them applies |
| ResetPasswordRoute.PasswordChecks | app/api/auth/reset-password/route.js:17-29 | "Passwords do not match" before "Password must be at least 6 characters"; no message exactly when the two agree and are at least 6 long |
| ResetPasswordRoute.ResetPassword | app/api/auth/reset-password/route.js:4-64 | for a string token: success only for the account whose lower-cased email holds the equal reset token with an expiry strictly after now; it gets the hashed new password and loses the token; every failure leaves the store unchanged |
| ResetPasswordRoute.ResetAt | app/api/auth/reset-password/route.js:45-54 | saving the new password at the selected account hashes it and clears the token and expiry; for a valid account in a consistent store the save succeeds; a failure is 400 and leaves the store unchanged |
| ResetPasswordRoute.ResetPasswordAsWritten | app/api/auth/reset-password/route.js:7-54 | the token is a string or the operator object `{ "$ne": null }`: a string agrees with `ResetPassword`; success sets the hashed password of an account whose email matches and whose stored reset token the query value selects |
| ResetPasswordRoute.ResetPasswordChecked | app/api/auth/reset-password/route.js:10-36 | the corrected handler: an operator object is refused with 400, and success means the account holds exactly the string token sent |
| ResetPasswordRoute.ForgedSelects | app/api/auth/reset-password/route.js:32-36 | with `{ "$ne": null }` as the token, the lookup selects the account by its email alone, whatever reset token it holds |
| ResetPasswordRoute.ForgedResetSucceeds | app/api/auth/reset-password/route.js:32-49 | for any account with a pending reset, the operator-object request sets the new hashed password |
| ResetPasswordRoute.GuessedResetFails | app/api/auth/reset-password/route.js:32-43 | a string other than the account's stored reset token is refused |
| ResetPasswordRoute.ResetWithoutToken | app/api/auth/reset-password/route.js:10-49 | a request that knows only the email resets the password of any account with a pending reset, while every wrong string fails and the corrected handler refuses the request |
| ResetPasswordRoute.ResetIsOneShot | app/api/auth/reset-password/route.js:32-49 | once a reset token has been used, the same email and token never succeed again |
| CompleteProfileRoute.Precheck | app/api/auth/complete-profile/route.js:20-41 | the first failing check gives the reply, before any store access, in order: "Username and organization are required", then "Username must be between 3 and 30 characters", then the message of the `[a-z0-9_-]` pattern; passing means none of them applies |
| CompleteProfileRoute.CompleteProfile | app/api/auth/complete-profile/route.js:7-97 | no session 401; a failed check 400; a taken username 400; no account 404; otherwise the account gets the username and organization, is marked complete, and receives a 7-day token; it succeeds exactly when the completed account validates, and every failure leaves the store unchanged |
| CompleteProfileRoute.FreeUsernameNoClash | app/api/auth/complete-profile/route.js:45-68 | a username nobody holds cannot make the completed account clash with another |
| SsoReplies.SsoReply | app/api/auth/sso-login/route.js:38-56 | the success reply carries id, username, email, organization and a 7-day token for `{userId, username}` |
| SsoReplies.SessionUser | app/api/auth/sso-login/route.js:21 | the session's account is the one holding the lower-cased session email, or none |
| SsoLoginRoute.SsoLogin | app/api/auth/sso-login/route.js:7-64 | no session 401; no account 404; an incomplete profile gets 200 `needsProfileCompletion` with no token; success exactly for a complete profile; read-only |
| ProfileStatusRoute.GetProfileStatus | app/api/auth/profile-status/route.js:6-40 | no session 401; no account 404; otherwise `isComplete` is the stored flag and the username and organization are the stored ones; read-only |
| UploadRoute.CheckUpload | app/api/upload/route.js:3-33 | a rejected authentication returns its reply; then no file, a MIME type not starting with `image/`, and a size over 5 MiB are each 400, in that order; the file is forwarded exactly when all checks pass |
| UploadRoute.FiveMebibytesAccepted | app/api/upload/route.js:26-33 | an image of exactly 5 242 880 bytes is accepted |
| AuthContext.Clear | lib/AuthContext.js:26-28 | the three session keys are removed and every other key is kept |
| AuthContext.Mount | lib/AuthContext.js:15-36 | on load a session is restored exactly when all three keys are present and the age is at most 60 minutes; a stale one is cleared and marked expired; loading ends on every branch |
| AuthContext.Login | lib/AuthContext.js:68-75 | login stores the token, the user and the current time, and clears the expired flag |
| AuthContext.Logout | lib/AuthContext.js:77-84 | logout clears user, token and the three keys, and is not marked expired |
| AuthContext.LogoutDueToTimeout | lib/AuthContext.js:59-66 | the timeout logout is the ordinary logout marked expired |
| AuthContext.CheckSessionExpiry | lib/AuthContext.js:39-57 | the periodic check acts only while signed in with a stored timestamp, and exactly when the age exceeds 60 minutes |
| AuthContext.LoginThenMountWithinTimeout | lib/AuthContext.js:16-36 | a session signed in at t is restored by any page load up to 60 minutes later |
| AuthContext.LoginThenMountAfterTimeout | lib/AuthContext.js:24-29 | a session loaded more than 60 minutes after sign-in is dropped and reported expired |
| AuthContext.LogoutThenMount | lib/AuthContext.js:77-84 | nothing is restored after logout |
| AuthContext.CheckFiresAfterTimeout | lib/AuthContext.js:42-50 | after a sign-in at t, the check logs out exactly when more than 60 minutes have passed |
| CompleteProfilePage.KeepUsernameChars | app/complete-profile/page.js:33 | the result is no longer than the input, holds only `[a-z0-9_-]`, and holds every allowed character of the input |
| CompleteProfilePage.KeepUsernameCharsAppend | app/complete-profile/page.js:33 | filtering a concatenation concatenates the filtered parts, so characters keep their order and multiplicity |
| CompleteProfilePage.KeepOneChar | app/complete-profile/page.js:33 | a single character is kept exactly when it is in `[a-z0-9_-]`; with the previous lemma this fixes the filter |
| CompleteProfilePage.KeepAllUsernameChars | app/complete-profile/page.js:33 | text made only of allowed characters passes the filter unchanged |
| CompleteProfilePage.LocalPart | app/complete-profile/page.js:31 | the part before the first `@` is a prefix of the email containing no `@` |
| CompleteProfilePage.SuggestUsername | app/complete-profile/page.js:29-35 | the suggestion is the part before the first `@`, lower-cased, passed through the filter; it is no longer than that part and contains only `[a-z0-9_-]` |
| CompleteProfilePage.SuggestionIgnoresDomain | app/complete-profile/page.js:30-33 | the suggestion depends only on the part before the first `@` |
| CompleteProfilePage.SuggestionIsStable | app/complete-profile/page.js:30-33 | suggesting again from a suggestion changes nothing |
| CompleteProfilePage.OnUsernameInput | app/complete-profile/page.js:108 | typed input is lower-cased character by character and keeps its length |
| CompleteProfilePage.SubmitCheck | app/complete-profile/page.js:45-56 | a length under 3 is refused first, then a character outside `[a-z0-9_-]`; passing means neither applies |
| CompleteProfilePage.PageChecksAgreeWithHandler | app/complete-profile/page.js:45-56 | a username the page lets through passes the handler's checks exactly when it has at most 30 characters |
| Lifecycle.RegisterAppends | app/api/auth/register/route.js:51-63 | a successful registration appends one account, described by the request, and keeps the store consistent |
| Lifecycle.VerifyWithToken | app/api/auth/verify-email/route.js:16-34 | the account holding an unexpired verification token is verified by its link |
| Lifecycle.LoginWithPassword | app/api/auth/login/route.js:18-33 | an account is found by any spelling that lower-cases to its username; it signs in (403 while unverified) with its password, and gets 401 with any other |
| Lifecycle.RegisterVerifyLogin | app/api/auth/verify-email/route.js:17-34 | a new account gets 403 at login; after its link is followed within 24 hours, the same credentials sign in |
| Lifecycle.ForgotStoresToken | app/api/auth/forgot-password/route.js:29-42 | a reset request for a known account stores the token and mails the link |
| Lifecycle.ResetWithToken | app/api/auth/reset-password/route.js:31-49 | the holder of an unexpired reset token gets the new password |
| Lifecycle.ForgotResetLogin | app/api/auth/reset-password/route.js:32-49 | after a reset within the hour, the new password signs in and a different old one gets 401 |
| Lifecycle.CompleteThenSsoLogin | app/api/auth/complete-profile/route.js:64-75 | after profile completion, session sign-in succeeds and the status reads complete with the chosen username and organization |

## Left out

- Database connection, `populate` of references, and field selection are not modelled. Listings return the stored documents, and voters are given as `{id, username, email}`.
- Mongoose strict mode is modelled only for `moneyPaid`, the one path a handler sends that no schema declares.
- Database failures and other exceptions are left out. This drops the routes' catch-all replies (400 with the error message, or 500 for the Google handlers) for anything but validation, duplicate-key and mail errors.
- Tie order of the store's own `sort({ votes: -1, createdAt: -1 })` is left out. The store does not specify an order among equal keys, so the model uses a stable sort. The final `Array.prototype.sort` by today's votes is stable, as the model's is (`Seqs.SortDescStable`).
- The duplicate-key message is abbreviated to its prefix, collection and index name. The real message also echoes the duplicate key's value.
- A save validates every path of the user. The object mapper's own save validation covers the modified, required, defaulted and loaded paths. Every stored user the model creates is valid, so the outcome is the same.
- `toLocaleString` and the time-zone database are left out. The Port of Spain wall clock and the server's UTC offset are parameters, and the offset is constant, so no daylight-saving shift is modelled.
- `toLowerCase` is modelled for ASCII letters only. Full Unicode case mapping is left out.
- String lengths are in UTF-16 code units. Numbers are `real`, with no NaN or Infinity. A `cost` or `moneyPaid` that is not a number (a string, say) is not modelled.
- The JWT secret, the signature and `jwt.verify` are left out. Verification is a partial function, and a signed token is its claims, issue time and expiry.
- bcrypt salts and the cost factor are left out: the hash is an ideal one-way function.
- The mail's HTML layout, greeting and username are left out. Only the recipient, subject and link are kept.
- The Cloudinary upload is left out: the upload route stops at the checks made before forwarding.
- The Google sign-in callbacks are left out. They create the password-less account the login finding uses, and the session's email is a parameter.
- The vote route and the PUT/DELETE handlers are left out because they are not among the modelled files. So are the logo lookup (a third-party wrapper) and the items and health routes (store pass-through).
- All page UI is left out, as are the alert popups, the charts and the spinner.
- The `setInterval` timer and concurrent requests are left out. Only the check the timer runs is modelled.
- Request bodies that are not valid JSON are left out.
- Request fields are taken to be strings, except the numbers of an order and the tokens of the verify and reset routes. Their handlers as written also take the operator object `{ "$ne": null }`.
- VerifyEmailRoute.VerifyEmailAsWritten: the token is a string or `{ "$ne": null }`. Other JSON values are not modelled. A number or boolean is cast to text, and other operator objects such as `{ "$gt": "" }`, `{ "$regex": "." }` or `{ "$exists": true }` also select without the token. An array and `{}` (a cast failure, answered from the catch) are not modelled either.
- ResetPasswordRoute.ResetPasswordAsWritten: the token is a string or `{ "$ne": null }`. Other JSON values are not modelled. A number or boolean is cast to text, and other operator objects such as `{ "$gt": "" }`, `{ "$regex": "." }` or `{ "$exists": true }` also select without the token. An array and `{}` (a cast failure, answered from the catch) are not modelled either.
- OrdersRoute.CreateOrder: ids are taken to be ObjectId text. A `locationId` that does not cast to an ObjectId makes the source answer 400 (a validation error of `create`), and that case is not modelled.
- OrdersRoute.ListOrders: a `locationId` query parameter that does not cast to an ObjectId makes `find` throw a CastError, which the source answers with 400. That case is not modelled, because ids are taken to be ObjectId text.
- In `AuthContext`, the user is kept as the stored JSON text. `JSON.parse` of it is not modelled, and neither is a stored user that fails to parse.
- AuthContext.TooOld: a stored timestamp that does not parse gives NaN, and NaN is never too old. As in the source, such a session never expires.
- ErrorHandler.ParseErrorMessage: `JSON.parse` is a parameter, and JavaScript values are modelled without arrays, functions or symbols. A number's text is given for integers only.
- ErrorHandler.ParseErrorMessage: an object whose own `toString` is neither a function nor undefined/null makes `toString?.()` throw a TypeError. The model has no function values and no exceptions here, so it answers "[object Object]" for such an object. Objects whose prototype supplies another `toString` (an `Error`'s "Error") are likewise answered "[object Object]".

## Findings

| source | as written | input that shows it | evidently intended | confidence | as-written member | corrected member |
|---|---|---|---|---|---|---|
| app/api/auth/login/route.js:20 | `comparePassword` runs bcrypt on the stored password, and an account created through Google sign-in has none, so bcrypt throws and the catch answers 400 with "Illegal arguments: string, undefined" | a store holding one Google account with username `sam` and no password; login as `sam` with any password gives 400, while an unknown name such as `kim` gives 401 | an account without a password is refused like a wrong password (401 "Invalid username or password"), so the reply does not reveal that the account exists | medium, not executed | LoginRoute.LoginAsWritten, LoginRoute.SsoUserLoginThrows | LoginRoute.Login |
| app/api/auth/reset-password/route.js:32-36 | the body's `token` goes into `findOne` unchecked, so a JSON object is taken as a query operator; `{ "$ne": null }` matches whatever reset token the account holds | after a reset request for `a@b.co`, the body `{"email":"a@b.co","token":{"$ne":null},"password":"hacked1","confirmPassword":"hacked1"}` sets the password to `hacked1` without the mailed token | only the holder of the mailed token can set a new password: a token that is not a string is refused | medium, not executed | ResetPasswordRoute.ResetPasswordAsWritten, ResetPasswordRoute.ResetWithoutToken | ResetPasswordRoute.ResetPasswordChecked |
| app/api/auth/verify-email/route.js:17-21 | the body's `token` goes into `findOne` unchecked, so `{ "$ne": null }` matches whatever verification token the account holds | for an account `a@b.co` still waiting for verification, the body `{"email":"a@b.co","token":{"$ne":null}}` marks it verified without the mailed link | only the holder of the mailed token can verify the email: a token that is not a string is refused | medium, not executed | VerifyEmailRoute.VerifyEmailAsWritten, VerifyEmailRoute.VerifyWithoutToken | VerifyEmailRoute.VerifyEmailChecked |
