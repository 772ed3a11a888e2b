# Passwordless authentication of lumos-backend's `user_management`, in Dafny

This project models the `user_management` Django app of lumos-backend. The
app signs users in without passwords:

- **Magic links.** A client asks for a sign-in or sign-up link. The app stores
  a 64-character random token that is valid for 15 minutes and mails the link
  to the address. Verifying the token consumes it, marks the address verified
  on signup, and records a login session.
- **Google sign-in.** The app finds or creates the user for a Google profile
  and fills in any missing Google id and picture. The first Google id a user
  gets is never replaced.
- **Sessions.** Logout deactivates the caller's session rows for the current
  session key. The session list shows the caller's active rows, most recent
  activity first.
- **Helpers and admin.** The client's IP address and user agent, a user-agent
  parser, a unique-username generator, a redirect-URL sanitiser, and the
  admin's display helpers.

## Modules

| module | file | models |
|---|---|---|
| `Wrappers` | `wrappers.dfy` | `Option` and `Result` |
| `Text` | `text.dfy` | the string operations the modelled code uses: `strip`, `lower`, `split("@")[0]`, slicing, decimal `str(n)` |
| `Models` | `models.dfy` | the three tables' rows: `User`, `MagicLink`, `UserSession`; `full_name`, the token alphabet and `generate_token`, `is_valid`, `mark_as_used` |
| `Serializers` | `serializers.dfy` | the request serializers, including the field parsing they rely on (`CharField` trimming and blank checks, `BooleanField` parsing) |
| `Utils` | `utils.dfy` | `get_client_ip`, `get_user_agent`, `parse_user_agent`, `generate_username_from_email`, `sanitize_redirect_url` |
| `Admin` | `admin.dfy` | the admin's `full_name`, `browser_info` and `has_add_permission` |
| `Store` | `store.dfy` | the database as a value `Db`, plus its integrity invariant `Valid` (the unique constraints and foreign keys of the tables) and the row operations the handlers use |
| `Views` | `views.dfy` | each handler as a pure function from the database and the request to the new database and the reply; `class Service`, whose fields are the tables and whose handler methods update them in place |
| `ViewProperties` | `view_properties.dfy` | what the handlers promise, often over two requests in a row |

### How state is modelled

- **Tables.**
  - `users` is a map keyed by email. Foreign keys hold the owner's email.
  - `links` is a map keyed by token.
  - `sessions` is a sequence in insertion order.
  - `outbox` is a sequence of the mails sent.
  - Two counters stand for the auto-increment ids.
- **The ORM's refusals.** A row operation the database would refuse returns
  `None`:
  - a username or Google id already in use (both are unique on `User`);
  - an existing token;
  - an existing `(user, session_key)` pair;
  - a missing or empty IP address (the field stores an empty address as
    NULL, and the column is not nullable).
- **Handlers.** Each `Service` method ensures two things:
  - its new state and its reply are exactly those of the handler's flow function applied to the old state;
  - it keeps `Valid()`.

  The `*KeepsValid` lemmas prove that the flow functions preserve the
  invariant. `ViewProperties` proves what the flows do.
- **Replies.** The reply datatype has one constructor per kind of response:
  - `Invalid`: 400 with the serializer's errors;
  - `Rejected`: 400 from the view's own checks;
  - `ServerError`: a handled 500;
  - `Crashed`: an uncaught exception, which Django answers with a 500;
  - `Unauthorized`: 401;
  - one constructor for each success body.
- **Inputs in place of effects.**
  - The clock is an integer number of seconds, `now`. The verify handler
    reads it twice: `checkedAt` in the serializer, `now` in the view.
  - The 64 random choices of `generate_token` are a parameter, `draw`.
  - Whether `send_mail` raises is a flag, `deliveryFails`.
  - Google's reply is a `GoogleReply` value.
  - The authenticated caller is an `Option<string>`.
  - The request's headers and session key are a `Client`.

### Behaviour the proofs bring out

These are consequences of the code as written. Each is proved as a lemma.

- **The view's own link checks rarely fire.** The token serializer already
  rejects unknown, expired and used tokens. So the view's "Invalid magic
  link" reply cannot happen. Its "Magic link has expired or been used" reply
  happens only when the link expires between the serializer's reading of
  the clock and the view's (`ViewLinkChecks`). Clients otherwise see the
  serializer's messages, which end with a period.
- **A repeat login fails.** Session rows are unique per `(user,
  session_key)`. API clients without a session share the key `"api_session"`,
  and logout deactivates rows without deleting them. So a second login of
  the same user from such a client fails when it writes the session row.
  In the magic-link view this raises an uncaught error after the link has
  already been consumed (`LinkSpentWhenSessionRefused`,
  `RepeatLoginWithoutSessionKeyCrashes`). In the Google view it is caught and
  answered with a 500 (`RepeatGoogleLoginRefused`).
- **`is_signup` as the text `"false"` never sends a link.** The email
  validator reads the raw request value. That value is truthy, so the
  validator demands an address with no account. The handler reads the parsed
  value, `False`, so it demands an existing account. No address meets both
  (`FalseTextSignupFlagNeverSends`).
- **A failed delivery still leaves a usable link.** A `send_mail` failure
  answers 500, but the user and the stored link remain, because there is no
  transaction (`FailedDeliveryKeepsLink`).
- **A taken username breaks signup.** A signup whose local part is already
  someone's username is refused by the database, and the request gets a 500
  (`SignupCreatesUser`). The same holds for a new Google user. The handlers
  do not call `generate_username_from_email`.
- **The redirect URL is not sanitised.** It is put into the mailed link
  without going through `sanitize_redirect_url`.

## Model

| member | source | states |
|---|---|---|
| `Text.Strip` | user_management/serializers.py:50 | the result loses exactly a leading and a trailing run of whitespace from the input, which it otherwise keeps; it begins and ends with a non-space character; it is empty exactly when the input is all whitespace |
| `Text.Lower` | user_management/serializers.py:30 | the same length as the input, each character lower-cased |
| `Text.Before` | user_management/views.py:60 | the prefix of the text before the first `@`, which contains no `@`; the whole text when there is none |
| `Text.Truncate` | user_management/utils.py:19 | a prefix of the text of length min(length, n) |
| `Text.NatToString` | user_management/utils.py:90 | at least one character, all decimal digits, with no leading zero: the first digit is `0` only for 0, which is written `0` |
| `Text.DecimalRoundTrip` | user_management/utils.py:90 | reading back the decimal text gives the number |
| `Text.NatToStringInjective` | user_management/utils.py:90 | different numbers give different decimal texts |
| `Models.LoginMethodValue` | user_management/models.py:77-84 | the stored value is one of `magic_link`, `google_oauth`, `password` |
| `Models.LoginMethodValueInjective` | user_management/models.py:77-84 | each login method has its own stored value |
| `Models.FullName` | user_management/models.py:31-33 | the username when both names are blank; otherwise the name joined by a space with surrounding whitespace stripped, which is non-empty and starts and ends with a non-space character |
| `Models.JoinedAllSpace` | user_management/models.py:31-33 | the joined name is blank exactly when both parts are blank |
| `Models.GeneratedTokenShape` | user_management/models.py:53-57 | every generated token is 64 characters, each an ASCII letter or digit |
| `Models.AlphabetIsAlnum` | user_management/models.py:56 | the alphabet has 62 characters, all ASCII letters or digits |
| `Models.AlphabetAt` | user_management/models.py:56 | the alphabet is `a`-`z`, then `A`-`Z`, then `0`-`9`, in that order |
| `Models.AlphabetIndexInverse` | user_management/models.py:56 | every ASCII letter or digit sits at a computable place in the alphabet |
| `Models.EveryTokenShapeIsGenerated` | user_management/models.py:53-57 | every 64-character alphanumeric string is the token of some draw |
| `Models.GenerateToken` | user_management/models.py:53-57 | the token of a draw: 64 characters, the k-th being the alphabet character the k-th choice picks (its shape is stated by `GeneratedTokenShape`) |
| `Models.IsValid` | user_management/models.py:59-61 | the validity window, stated as the definition: a link is valid exactly when it is unused and the time is before its expiry |
| `Models.MarkedUsed` | user_management/models.py:63-67 | the saved link is used, stamped with the given time, and otherwise unchanged |
| `Models.UsedLinkNeverValid` | user_management/models.py:59-67 | a used link is never valid again and stays used if marked once more |
| `Serializers.CharField` | user_management/serializers.py:50 | an absent value is "required", null is "not null", and a non-text value is rejected; text is accepted exactly when it is not blank, its stripped form fits the maximum length and holds no NUL character, and the accepted value is the stripped text; a refusal of text names every failed check, the length before the NUL characters |
| `Serializers.CheckText` | user_management/serializers.py:50 | blank text is refused as blank alone; otherwise the stripped form is accepted exactly when it fits the maximum length and holds no NUL character, and the refusal carries "too long" exactly when it does not fit and "null characters" exactly when it holds a NUL |
| `Serializers.Single` | user_management/serializers.py:24-46 | a single validator error as the one-entry error list of its field; values pass unchanged |
| `Serializers.Tagged` | user_management/serializers.py:24-70 | each error of a field, in order, tagged with the field name |
| `Serializers.FieldErrors` | user_management/serializers.py:24-70 | a failed field's errors tagged with the field name; none for an accepted field |
| `Serializers.BooleanField` | user_management/serializers.py:26 | absent is false; the true spellings parse to true and the false spellings parse to false, exactly |
| `Serializers.ParsedTrueIsTruthy` | user_management/serializers.py:26-31 | a value that parses as true is also truthy as a raw value |
| `Serializers.FalseTextIsTruthy` | user_management/serializers.py:26-31 | the text "false" parses as false but is truthy as a raw value |
| `Serializers.ValidateEmail` | user_management/serializers.py:29-46 | the accepted value is the lower-cased address; with a truthy raw `is_signup` it fails exactly when the address has an account, otherwise exactly when it has none, with the matching message |
| `Serializers.ValidateLinkRequest` | user_management/serializers.py:24-46 | an accepted request has a valid email as the validator returned it, the parsed `is_signup`, and an empty redirect when none was given; a refusal carries at least one error |
| `Serializers.SignupForExistingEmailRejected` | user_management/serializers.py:33-38 | a signup for an address that has an account is refused with the "already exists" error |
| `Serializers.LoginForUnknownEmailRejected` | user_management/serializers.py:40-44 | a login for an address without an account is refused with the "no account" error |
| `Serializers.FalseTextKnownAddress` | user_management/serializers.py:26-38 | `is_signup` "false" with a known address is refused as a signup for an existing address |
| `Serializers.FalseTextNewAddress` | user_management/serializers.py:26-46 | `is_signup` "false" with a new address is accepted as a login |
| `Serializers.ValidateToken` | user_management/serializers.py:52-61 | an unknown token is "invalid" and an invalid link is "expired or used"; a token is accepted exactly when its link is valid now |
| `Serializers.ValidateVerifyRequest` | user_management/serializers.py:49-61 | accepted exactly when the field accepts the token and the token check accepts its stripped value at the serializer's reading of the clock; the accepted token is that value, in the table and valid then; a refusal carries the field's own errors or the token check's single error, every one on `token` |
| `Serializers.ValidateAccessToken` | user_management/serializers.py:67-70 | refused exactly when empty, else returned unchanged |
| `Serializers.ValidateGoogleRequest` | user_management/serializers.py:64-70 | accepted exactly when the field accepts the access token, and then with the field's value, which is non-empty; a refusal carries the field's errors, every one on `access_token` |
| `Serializers.EmptyAccessTokenRejected` | user_management/serializers.py:65 | a blank access token is refused by the field as blank |
| `Serializers.AccessTokenRequiredUnreachable` | user_management/serializers.py:67-70 | the validator's own "required" error can never be the answer |
| `Serializers.ValidateUsername` | user_management/serializers.py:78-82 | refused with "taken" exactly when another user (by id) has the name; otherwise the name is returned |
| `Serializers.KeepingOwnUsernameAccepted` | user_management/serializers.py:78-82 | when usernames are unique, a user keeping their own username is accepted |
| `Utils.ClientIp` | user_management/utils.py:7-14 | the text before the first comma of a non-empty X-Forwarded-For header, else REMOTE_ADDR |
| `Utils.UserAgent` | user_management/utils.py:17-19 | a prefix of the header of at most 500 characters, or empty without a header |
| `Utils.FirstMatch` | user_management/utils.py:57-65 | the name of the first table entry whose pattern occurs in the text, or "Unknown" when none does |
| `Utils.IsFirstMatch` | user_management/utils.py:57-65 | the meaning of the loop's answer: the name of an entry whose pattern occurs in the text while no earlier one does, or "Unknown" when none occurs |
| `Utils.ParseUserAgent` | user_management/utils.py:36-67 | browser and operating system are each the first match in their table, in table order |
| `Utils.CandidateInjective` | user_management/utils.py:85-91 | the base and the base followed by different counters are all different names |
| `Utils.CandidatesCount` | user_management/utils.py:85-91 | the first n names tried are n distinct names |
| `Utils.Candidate` | user_management/utils.py:85-91 | the k-th name tried: the base for 0, else the base followed by the decimal counter |
| `Utils.TakenBound` | user_management/utils.py:89 | if the first n names tried are taken there are at least n taken names, so the loop ends |
| `Utils.GenerateUsername` | user_management/utils.py:79-93 | a name not in use, namely the first free one among the local part, then the local part followed by 1, 2, ... |
| `Utils.SanitizeRedirect` | user_management/utils.py:96-114 | the URL is kept exactly when it is non-empty, uses http or https, and its host is on the allow-list when one is given; otherwise the result is nothing |
| `Admin.BrowserInfo` | user_management/admin.py:122-135 | the first of Chrome, Firefox, Safari and Edge named in the user agent, case-insensitively, else "Unknown" |
| `Admin.ChromeTakesPrecedence` | user_management/admin.py:122-135 | a user agent naming Chrome is shown as Chrome even if it also names Safari or Edge |
| `Admin.UnknownToAdminIsUnknownToParser` | user_management/admin.py:122-135 | for ASCII user agents, a browser the admin shows as unknown is unknown to `parse_user_agent` too |
| `Admin.AdminFullName` | user_management/admin.py:54-55 | the full name, or "-" exactly when it is empty; never empty |
| `Admin.AdminShowsDashForNamelessUser` | user_management/admin.py:54-55 | a user with blank names and an empty username is shown as "-" |
| `Admin.MagicLinkAdminHasAddPermission` | user_management/admin.py:88-90 | links can never be added by hand |
| `Admin.UserSessionAdminHasAddPermission` | user_management/admin.py:139-141 | sessions can never be added by hand |
| `Store.EmptyDbValid` | user_management/models.py:8-92 | the empty database meets every unique constraint and foreign key |
| `Store.InsertUser` | user_management/models.py:8-14 | a new user is stored exactly when its username and Google id are free, with the next id and the given fields |
| `Store.InsertUserKeepsValid` | user_management/models.py:8-14 | inserting a user keeps the database's invariant |
| `Store.SaveUser` | user_management/models.py:14 | saving a user fails exactly when another user holds its Google id; otherwise that one row is replaced |
| `Store.SaveUserKeepsValid` | user_management/models.py:8-14 | saving a row with the same id and username keeps the invariant |
| `Store.MarkVerified` | user_management/views.py:142-144 | only the user's verified flag changes, to true |
| `Store.MarkVerifiedKeepsValid` | user_management/views.py:142-144 | marking a user verified keeps the invariant |
| `Store.InsertLink` | user_management/models.py:38 | a link is stored exactly when its token is new |
| `Store.InsertLinkKeepsValid` | user_management/models.py:36-44 | storing a fresh, unused link of a known user with a generated token keeps the invariant |
| `Store.SaveUsedLink` | user_management/models.py:63-67 | only the link's row changes, to its used form |
| `Store.SaveUsedLinkKeepsValid` | user_management/models.py:63-67 | saving a used link keeps the invariant |
| `Store.StorableIp` | user_management/models.py:70-91 | an address the session table can store: present and non-empty |
| `Store.InsertSession` | user_management/models.py:70-91 | a session row is appended exactly when the IP address is present and non-empty and the (user, key) pair is new; it is active, with the next id, the given fields and both timestamps at the given time |
| `Store.InsertSessionKeepsValid` | user_management/models.py:70-91 | inserting a session of a known user keeps the invariant |
| `Store.Deactivate` | user_management/views.py:274-277 | the rows of the given user and key become inactive; every other row and every other field stay as they were |
| `Store.DeactivateKeepsValid` | user_management/views.py:274-277 | deactivating keeps the invariant |
| `Store.DeactivateKeepsKeys` | user_management/views.py:274-277 | deactivating leaves every (user, key) pair as taken as before |
| `Views.SessionKey` | user_management/views.py:152 | the client's session key when it has a non-empty one, else "api_session" |
| `Views.VerificationUrl` | user_management/views.py:77-79 | the link starts with the front-end URL and `/auth/verify?token=`, followed by the token and then, only for a non-empty redirect, `&redirect=` and the redirect |
| `Views.SignupUser` | user_management/views.py:56-63 | an existing user is fetched unchanged; a created one is stored under the address |
| `Views.FetchUser` | user_management/views.py:56-65 | the user exists afterwards and links, sessions and outbox are untouched; a login writes nothing and fails exactly when the address has no account |
| `Views.IssueLink` | user_management/views.py:68-116 | users, sessions and counters are untouched; the reply is either "sent" or the handled 500, and it is "sent" exactly when the token is new and delivery succeeds |
| `Views.RequestLinkFlow` | user_management/views.py:44-116 | the request-link handler as a function of the tables and the request: the specification `Service.RequestLink` is held to, characterised by `RequestLinkShape` and the `ViewProperties` lemmas |
| `Views.RequestLinkShape` | user_management/views.py:44-116 | the handler answers a refused request with the serializer's errors, otherwise it fetches the user and then issues a link with the generated token |
| `Views.FetchUserKeepsValid` | user_management/views.py:56-65 | fetching or creating the user keeps the invariant |
| `Views.IssueLinkKeepsValid` | user_management/views.py:68-102 | storing and mailing the link keeps the invariant |
| `Views.RequestLinkKeepsValid` | user_management/views.py:44-116 | the request-link handler keeps the invariant |
| `Views.VerifyLinkKeepsValid` | user_management/views.py:122-175 | the verify handler keeps the invariant, for any two readings of the clock, including when it crashes part-way |
| `Views.VerifyLinkFlow` | user_management/views.py:122-175 | the verify handler as a function of the tables, the request and the two readings of the clock: the specification `Service.VerifyLink` is held to |
| `Views.Consume` | user_management/views.py:139-170 | the steps after both checks sign in exactly when the owner exists, the client's address can be stored and the owner has no session under the key, and otherwise crash; once the owner exists, the link is marked used either way |
| `Views.ConsumeKeepsValid` | user_management/views.py:139-170 | the steps after both checks keep the invariant |
| `Views.VerifyLinkShape` | user_management/views.py:122-175 | the handler answers the serializer's refusal with its errors, a link invalid at the view's reading with "expired or used" and nothing written, and runs the consuming steps otherwise |
| `Views.Backfilled` | user_management/views.py:230-234 | the row gets the Google id and is verified, and gets the picture only when one is given; the rest is unchanged |
| `Views.GoogleUser` | user_management/views.py:217-234 | only the address's user row changes, to its Google row, and links, sessions and outbox are untouched; a user who already has a Google id is left as is; it succeeds exactly when a new user's username and Google id are free, or an existing user has a Google id already or the profile's id is not another user's |
| `Views.GoogleLogin` | user_management/views.py:217-258 | signs in exactly when the user step succeeds, the client's address can be stored and the user has no session under the key; every other outcome is the handled 500 |
| `Views.GoogleAuthFlow` | user_management/views.py:181-265 | the Google handler as a function of the tables, the request and Google's reply: the specification `Service.GoogleAuth` is held to |
| `Views.GoogleUserKeepsValid` | user_management/views.py:217-234 | the Google find, create and backfill keeps the invariant |
| `Views.GoogleLoginKeepsValid` | user_management/views.py:217-243 | the Google user and session writes keep the invariant |
| `Views.GoogleAuthShape` | user_management/views.py:181-265 | a usable profile leads to the login step, and anything else is refused with nothing written |
| `Views.GoogleAuthKeepsValid` | user_management/views.py:181-265 | the Google handler keeps the invariant |
| `Views.LogoutKeepsValid` | user_management/views.py:271-294 | logout keeps the invariant |
| `Views.LogoutFlow` | user_management/views.py:269-292 | the logout handler as a function of the tables and the request: the specification `Service.Logout` is held to |
| `Views.ActiveOf` | user_management/views.py:301-302 | exactly the active rows of the user, each as often as it occurs in the table |
| `Views.InsertByRecencyPermutes` | user_management/views.py:303 | inserting into the ordering keeps every row exactly once |
| `Views.InsertByRecencySorted` | user_management/views.py:303 | inserting into a list sorted by last activity, most recent first, keeps it sorted |
| `Views.ByRecencyFacts` | user_management/models.py:92 | ordering by last activity, most recent first, is a sorted permutation of its input |
| `Views.SessionViews` | user_management/views.py:305-318 | one entry per row, in the same order, each that row's view |
| `Views.ListedSessions` | user_management/views.py:301-303 | the caller's active rows ordered by last activity, most recent first |
| `Views.ListSessionsFlow` | user_management/views.py:300-320 | the session-list handler as a function of the tables and the request: the reply `Service.ListActiveSessions` is held to |
| `Views.Service.constructor` | user_management/models.py:8-92 | a service starts with empty tables, which meet the invariant |
| `Views.Service.CreateUser` | user_management/models.py:8-14 | the new state is the user insert's result when it succeeds, else unchanged |
| `Views.Service.SaveUser` | user_management/models.py:14 | the new state is the user save's result when it succeeds, else unchanged |
| `Views.Service.MarkVerified` | user_management/views.py:142-144 | the new state is the old one with the user marked verified |
| `Views.Service.CreateLink` | user_management/views.py:68-74 | the new state is the link insert's result when it succeeds, else unchanged |
| `Views.Service.MarkAsUsed` | user_management/models.py:63-67 | the new state is the old one with the link saved as used |
| `Views.Service.CreateSession` | user_management/views.py:150-156 | the new state is the session insert's result when it succeeds, else unchanged |
| `Views.Service.DeactivateSessions` | user_management/views.py:274-277 | the new state has the matching sessions deactivated |
| `Views.Service.SendMail` | user_management/views.py:96-102 | the mail is appended to the outbox; nothing else changes |
| `Views.Service.FetchUserStep` | user_management/views.py:56-65 | the new state and the result are those of fetching or creating the user |
| `Views.Service.IssueLinkStep` | user_management/views.py:68-116 | the new state and the reply are those of issuing the link |
| `Views.Service.RequestLink` | user_management/views.py:44-116 | the new tables and the reply are those of the request-link flow, and the invariant holds |
| `Views.Service.VerifyLink` | user_management/views.py:122-175 | the new tables and the reply are those of the verify flow for the serializer's and the view's readings of the clock, and the invariant holds |
| `Views.Service.GoogleAuth` | user_management/views.py:181-265 | the new tables and the reply are those of the Google flow, and the invariant holds |
| `Views.Service.Logout` | user_management/views.py:271-294 | the new tables and the reply are those of the logout flow, and the invariant holds |
| `Views.Service.ListActiveSessions` | user_management/views.py:300-320 | the reply its loop builds is the session list of the current tables |
| `ViewProperties.RefusedLinkRequestWritesNothing` | user_management/views.py:47-48 | a request the serializer refuses is answered with its errors, and nothing is written |
| `ViewProperties.SignupCreatesUser` | user_management/views.py:56-63 | a validated signup always names a new address; it creates an unverified user named after the local part, or, when that name is taken, gets the handled 500 with nothing written |
| `ViewProperties.LoginKeepsUsers` | user_management/views.py:64-65 | a validated login leaves the users table unchanged |
| `ViewProperties.SentLinkIsStored` | user_management/views.py:56-109 | a "sent" reply means a new unused link is stored under the fresh token, valid from now for exactly the next 900 seconds; a mail with the matching subject and the token in its link went to the address; and the reply carries the address and 900 |
| `ViewProperties.FailedDeliveryKeepsLink` | user_management/views.py:96-116 | when mail delivery fails the reply is the handled 500, yet the user and the link are kept as on success |
| `ViewProperties.RequestLinkSucceedsExactly` | user_management/views.py:44-109 | a link request is answered "sent" exactly when the serializer accepts it, the user step succeeds, the drawn token is new and delivery succeeds |
| `ViewProperties.FalseTextSignupFlagNeverSends` | user_management/serializers.py:26-38 | `is_signup` "false" never sends: a new address gets the handled 500 with nothing written, a known one gets the signup error |
| `ViewProperties.UnknownTokenRefused` | user_management/serializers.py:52-61 | an unknown token is refused as invalid, and nothing is written |
| `ViewProperties.SpentOrExpiredLinkRefused` | user_management/serializers.py:52-59 | a link used or expired at the serializer's reading of the clock is refused, and nothing is written |
| `ViewProperties.ViewLinkChecks` | user_management/views.py:131-137 | the view's "invalid" reply never occurs; its "expired or used" reply occurs exactly when the link was unused and unexpired at the serializer's reading of the clock and expired by the view's, it then writes nothing, and with one reading for both it never occurs |
| `ViewProperties.VerifySucceedsExactly` | user_management/views.py:122-170 | a verify signs in exactly when the serializer accepts the token, the link is still valid at the view's reading, its owner exists, the client's address can be stored and the owner has no session under the client's key |
| `ViewProperties.ConsumeEffects` | user_management/views.py:139-170 | the consuming steps, when they sign in, mark the link used; mark the owner verified when, and only when, the link was a signup and the owner was not already verified; touch no other user; add an active magic-link session under the client's key; and answer with the owner |
| `ViewProperties.VerifiedLinkEffects` | user_management/views.py:131-170 | a successful verify used a link valid at both readings of the clock, and is the consuming steps for it |
| `ViewProperties.LinkSpentWhenSessionRefused` | user_management/views.py:147-156 | when the owner already has a session under the key, or the client's address is missing or empty, verify raises after the link has been marked used |
| `ViewProperties.SecondVerifyRefused` | user_management/views.py:131-147 | once a verify has consumed a link, verifying it again is refused as used, and nothing is written |
| `ViewProperties.RepeatLoginWithoutSessionKeyCrashes` | user_management/views.py:150-156 | a second link login of the same user from clients without a session key, with a link still valid at the view's reading, crashes |
| `ViewProperties.NulTokenRefused` | user_management/serializers.py:50 | a token holding a NUL character is refused by the field, and nothing is written |
| `ViewProperties.GoogleWithoutEmailRefused` | user_management/views.py:210-214 | a profile without an email is refused, and nothing is written |
| `ViewProperties.GoogleRefusalPassedOn` | user_management/views.py:195-199 | a Google reply other than 200 is refused as an invalid token, and nothing is written |
| `ViewProperties.GoogleSucceedsExactly` | user_management/views.py:181-258 | a Google login signs in exactly when the profile is usable, the user step for its address succeeds, the client's address can be stored and that user has no session under the client's key |
| `ViewProperties.GoogleBackfillRules` | user_management/views.py:217-234 | a new Google user gets the local part as username, the profile's names, id and picture, and is verified; an existing user without a Google id gets the id, a picture only when one is given, and is verified; an existing Google id leaves the row as it is |
| `ViewProperties.GoogleLoginStepEffects` | user_management/views.py:217-258 | a Google sign-in writes the Google row of the address and an active Google session under the client's key, and answers with that row |
| `ViewProperties.GoogleLoginEffects` | user_management/views.py:204-258 | a Google sign-in happens only for a usable profile; it reports a new user exactly when the address had no account |
| `ViewProperties.GoogleLoginUsers` | user_management/views.py:217-234 | a Google login writes at most the address's own user row |
| `ViewProperties.GoogleIdNeverOverwritten` | user_management/views.py:230-234 | whatever Google answers, a user who has a Google id keeps it |
| `ViewProperties.RepeatGoogleLoginStep` | user_management/views.py:217-243 | repeating the Google step with the same key leaves the user row as it is and is refused at the session row |
| `ViewProperties.RepeatGoogleLoginRefused` | user_management/views.py:237-265 | repeating a successful Google login with the same session key answers the handled 500 and writes nothing, so it never reports an existing user |
| `ViewProperties.LogoutTouchesOnlyMatchingRows` | user_management/views.py:274-288 | logout deactivates exactly the caller's rows under the client's key; every other row and table stays as it was, and the reply is the logout message |
| `ViewProperties.LogoutKeepsSessionKeysTaken` | user_management/views.py:274-277 | after logout every (user, key) pair is exactly as taken as before |
| `ViewProperties.LogoutNeedsCaller` | user_management/views.py:268-277 | logout is refused exactly for a missing or unknown caller, and then nothing is written |
| `ViewProperties.ListedSessionsAreActiveAndNewestFirst` | user_management/views.py:301-303 | the listed rows are exactly the caller's active rows, each as often as it occurs in the table, most recent activity first |
| `ViewProperties.ViewsShowRows` | user_management/views.py:305-318 | each entry shows its row: the id, the stored login-method value, the address and both timestamps unchanged, the user agent as its first 100 characters, and current exactly when the row's key is the client's |
| `ViewProperties.SessionListEntries` | user_management/views.py:300-320 | the list holds the caller's active rows, each as often as in the table, one entry per row showing it field by field and current exactly on the client's key, most recent activity first |
| `ViewProperties.LoggedOutSessionNotListed` | user_management/views.py:271-303 | after a logout the caller's list has no entry for the current key |

## Left out

- The ORM and the database: rows are values, and queries are map lookups or
  filters. No transactions, locking or concurrency are modelled. In
  particular, two verifications racing on one link are not modelled.
- Mail delivery: `send_mail` becomes an outbox entry (recipient, subject,
  link) plus a flag for its failure. The body text, the sender and the
  connection are not modelled.
- The Google userinfo HTTP call: its reply is an input. A JSON `null` field is
  treated as absent. A network error is the reply `NoReply`, which the view's
  catch-all handler answers with the 500 "Authentication failed. Please try again."
- JWT issuing (`RefreshToken.for_user`) and refresh-token blacklisting: the
  response tokens are not part of the reply. Logout's blacklist step and its
  "Logout failed" 500 branch are out of scope.
- Real time and randomness: the clock is an integer, and the token's random
  choices are a parameter.
- GeoIP lookups and `validate_email_format`, which the handlers do not call.
- Django's own format checks for email and URL fields. A well-formed value is
  assumed, and only the field's trimming and blank checks are modelled.
- `urlparse`: its scheme and host are an input to `SanitizeRedirect`.
- Regular expressions, Unicode case folding and Unicode digits: the
  user-agent patterns are literals with an optional trailing character class,
  matched on the lower-cased text. Character case is ASCII only.
- `UserProfileView`, URL routing, admin list and filter configuration, the
  notes app, and the users' created/updated timestamps.
- Database column widths and the IP-address column format.
- Logging: the `logger.error` calls in the handlers' catch-all branches
  (views.py lines 112, 261 and 291) write nothing the model keeps.
- The clock reads of `mark_as_used` and of the session row's timestamps: they
  share the view's reading `now`, since they follow its check at once.
- `last_activity` auto-updating on save. Sessions are never re-saved in the
  modelled flows.
- `Views.ByRecency`: the database does not define the order of sessions with
  equal `last_activity`. The model keeps table order for such ties, and
  `Views.ByRecencyFacts` states only sortedness and permutation.
- `Serializers.ValidateLinkRequest`: does not check that the email is
  well-formed or that the redirect is a well-formed URL. An accepted request
  is characterised only through the email validator and the parsed flag.
