/** The request handlers of user_management/views.py. Each handler is given
    twice: as a function from the tables before the request to the tables
    after it and the response (the handler's specification), and as a method
    of `Service`, which holds the tables in fields and performs the handler's
    steps in the handler's order. Request metadata, the clock, the random
    draw behind the token, the outcome of the mail delivery and the Google
    user-info reply are parameters. */
module Views {
  import opened Wrappers
  import opened Models
  import opened Store
  import Text
  import S = Serializers
  import Utils

  /** `timedelta(minutes=15)` and the `expires_in` of the reply, in seconds. */
  const LinkLifetime: int := 900
  const DefaultSessionKey: string := "api_session"
  const SendFailed: string := "Failed to send magic link. Please try again."
  const GoogleFailed: string := "Authentication failed. Please try again."

  /** What a handler reads from the request besides its body. */
  datatype Client = Client(
    forwardedFor: Option<string>,
    remoteAddr: Option<string>,
    userAgent: Option<string>,
    sessionKey: Option<string>)

  /** `request.session.session_key or "api_session"`. */
  function SessionKey(c: Client): (key: string)
    ensures c.sessionKey.Some? && c.sessionKey.value != "" ==> key == c.sessionKey.value
    ensures c.sessionKey.None? || c.sessionKey.value == "" ==> key == DefaultSessionKey
  {
    if c.sessionKey.Some? && c.sessionKey.value != "" then c.sessionKey.value else DefaultSessionKey
  }

  /** The fields read from Google's user-info JSON; None is an absent key. */
  datatype Profile = Profile(
    email: Option<string>,
    id: Option<string>,
    givenName: Option<string>,
    familyName: Option<string>,
    picture: Option<string>)

  /** The outcome of the user-info request: no response at all (the request
      raised), or a status code with a body that is JSON or not. */
  datatype GoogleReply = NoReply | Reply(status: int, body: Option<Profile>)

  /** One entry of the session list. */
  datatype SessionView = SessionView(
    id: nat,
    loginMethod: string,
    ipAddress: string,
    userAgent: string,
    createdAt: int,
    lastActivity: int,
    isCurrent: bool)

  /** The responses. `Invalid` is a 400 with the serializer's errors,
      `Rejected` a 400 and `ServerError` a 500 with an `error` message,
      `Crashed` an exception no handler catches, `Unauthorized` the 401 of
      the `IsAuthenticated` permission. The JWT pair of a successful login is
      not modelled. */
  datatype Reply =
    | Invalid(errors: seq<S.FieldError>)
    | Rejected(error: string)
    | ServerError(error: string)
    | Crashed
    | Unauthorized
    | LinkSent(message: string, expiresIn: int)
    | SignedIn(user: User, message: string)
    | GoogleSignedIn(user: User, message: string, isNewUser: bool)
    | LoggedOut(message: string)
    | SessionList(sessions: seq<SessionView>)

  // ---------------------------------------------------------------- request link

  const VerifyPath: string := "/auth/verify?token="

  /** The link mailed to the user: the token after the verify path, and the
      redirect appended only when there is one. */
  function VerificationUrl(frontendUrl: string, token: string, redirectUrl: string): (url: string)
    ensures Text.OccursAt(url, frontendUrl + VerifyPath, 0)
    ensures Text.OccursAt(url, token, |frontendUrl| + |VerifyPath|)
    ensures redirectUrl == "" ==> |url| == |frontendUrl| + |VerifyPath| + |token|
    ensures redirectUrl != "" ==> url[|frontendUrl| + |VerifyPath| + |token|..] == "&redirect=" + redirectUrl
  {
    var base := frontendUrl + VerifyPath + token;
    if redirectUrl != "" then base + "&redirect=" + redirectUrl else base
  }

  function Subject(isSignup: bool): string {
    if isSignup then "Sign up for your account" else "Sign in to your account"
  }

  /** The user a signup link is for: the existing one, or a new unverified
      user named after the local part of the address. */
  function SignupUser(db: Db, email: string): (r: Option<Db>)
    ensures email in db.users ==> r == Some(db)
    ensures r.Some? ==> email in r.value.users
  {
    if email in db.users then Some(db)
    else InsertUser(db, email, Text.Before(email, '@'), "", "", None, None, false)
  }

  /** The user step of the request: get-or-create on signup, get on login
      (None: the database refused the new row, or there is no such user). */
  function FetchUser(db: Db, req: S.LinkRequest): (r: Option<Db>)
    ensures r.Some? ==> req.email in r.value.users
    ensures r.Some? ==> r.value.links == db.links && r.value.sessions == db.sessions && r.value.outbox == db.outbox
    ensures !req.isSignup ==> r == if req.email in db.users then Some(db) else None
  {
    if req.isSignup then SignupUser(db, req.email)
    else if req.email in db.users then Some(db) else None
  }

  /** The link step of the request: store the link, then send the mail. */
  function IssueLink(db: Db, frontendUrl: string, req: S.LinkRequest, token: string, now: int,
                     deliveryFails: bool): (r: (Db, Reply))
    ensures r.0.users == db.users && r.0.sessions == db.sessions
    ensures r.0.nextUserId == db.nextUserId && r.0.nextSessionId == db.nextSessionId
    ensures r.1.ServerError? || r.1.LinkSent?
    ensures r.1.LinkSent? <==> token !in db.links && !deliveryFails
  {
    var link := MagicLink(req.email, token, req.email, req.isSignup, false, now + LinkLifetime, now, None);
    var inserted := InsertLink(db, link);
    if inserted.None? then (db, ServerError(SendFailed))
    else if deliveryFails then (inserted.value, ServerError(SendFailed))
    else
      var db1 := inserted.value;
      var mail := Mail(req.email, Subject(req.isSignup), VerificationUrl(frontendUrl, token, req.redirectUrl));
      (db1.(outbox := db1.outbox + [mail]), LinkSent("Magic link sent to " + req.email, LinkLifetime))
  }

  /** `RequestMagicLinkView.post`. */
  function RequestLinkFlow(db: Db, frontendUrl: string, email: S.Raw, isSignup: S.Raw, redirectUrl: S.Raw,
                           draw: seq<nat>, now: int, deliveryFails: bool): (Db, Reply)
    requires IsDraw(draw)
  {
    match S.ValidateLinkRequest(db.users, email, isSignup, redirectUrl)
    case Failure(errors) => (db, Invalid(errors))
    case Success(req) =>
      var fetched := FetchUser(db, req);
      if fetched.None? then (db, ServerError(SendFailed))
      else IssueLink(fetched.value, frontendUrl, req, GenerateToken(draw), now, deliveryFails)
  }

  /** The request handler is the serializer, then the user step, then the link step. */
  lemma RequestLinkShape(db: Db, frontendUrl: string, email: S.Raw, isSignup: S.Raw, redirectUrl: S.Raw,
                         draw: seq<nat>, now: int, deliveryFails: bool)
    requires IsDraw(draw)
    ensures var v := S.ValidateLinkRequest(db.users, email, isSignup, redirectUrl);
            var res := RequestLinkFlow(db, frontendUrl, email, isSignup, redirectUrl, draw, now, deliveryFails);
            && (v.Failure? ==> res == (db, Invalid(v.error)))
            && (v.Success? && FetchUser(db, v.value).None? ==> res == (db, ServerError(SendFailed)))
            && (v.Success? && FetchUser(db, v.value).Some? ==>
                  res == IssueLink(FetchUser(db, v.value).value, frontendUrl, v.value, GenerateToken(draw), now,
                                   deliveryFails))
  {
  }

  lemma FetchUserKeepsValid(db: Db, req: S.LinkRequest)
    requires Valid(db) && FetchUser(db, req).Some?
    ensures Valid(FetchUser(db, req).value)
  {
    if req.isSignup && req.email !in db.users {
      InsertUserKeepsValid(db, req.email, Text.Before(req.email, '@'), "", "", None, None, false);
    }
  }

  lemma IssueLinkKeepsValid(db: Db, frontendUrl: string, req: S.LinkRequest, token: string, now: int,
                            deliveryFails: bool)
    requires Valid(db) && req.email in db.users && IsTokenShape(token)
    ensures Valid(IssueLink(db, frontendUrl, req, token, now, deliveryFails).0)
  {
    var link := MagicLink(req.email, token, req.email, req.isSignup, false, now + LinkLifetime, now, None);
    if token !in db.links {
      InsertLinkKeepsValid(db, link);
    }
  }

  lemma RequestLinkKeepsValid(db: Db, frontendUrl: string, email: S.Raw, isSignup: S.Raw, redirectUrl: S.Raw,
                              draw: seq<nat>, now: int, deliveryFails: bool)
    requires Valid(db) && IsDraw(draw)
    ensures Valid(RequestLinkFlow(db, frontendUrl, email, isSignup, redirectUrl, draw, now, deliveryFails).0)
  {
    RequestLinkShape(db, frontendUrl, email, isSignup, redirectUrl, draw, now, deliveryFails);
    var v := S.ValidateLinkRequest(db.users, email, isSignup, redirectUrl);
    if v.Success? && FetchUser(db, v.value).Some? {
      FetchUserKeepsValid(db, v.value);
      GeneratedTokenShape(draw);
      IssueLinkKeepsValid(FetchUser(db, v.value).value, frontendUrl, v.value, GenerateToken(draw), now, deliveryFails);
    }
  }

  // ---------------------------------------------------------------- verify link

  /** `VerifyMagicLinkView.post`. The clock is read twice: `checkedAt` by the
      serializer's validity check, `now` by the view's own check, which the
      link's use stamp and the session row share. The view's lookup repeats
      the serializer's; a link whose owner row is missing, or a session row
      the database refuses, raises an exception the view does not catch. */
  function VerifyLinkFlow(db: Db, token: S.Raw, client: Client, checkedAt: int, now: int): (Db, Reply) {
    match S.ValidateVerifyRequest(db.links, token, checkedAt)
    case Failure(errors) => (db, Invalid(errors))
    case Success(t) =>
      if t !in db.links then (db, Rejected("Invalid magic link"))
      else if !IsValid(db.links[t], now) then (db, Rejected("Magic link has expired or been used"))
      else Consume(db, t, client, now)
  }

  /** The steps after both validity checks: verify the owner of a signup
      link, mark the link used, record the session. */
  function Consume(db: Db, t: string, client: Client, now: int): (r: (Db, Reply))
    requires t in db.links
    ensures r.1.SignedIn? || r.1.Crashed?
    ensures r.1.SignedIn? <==> && db.links[t].user in db.users
                               && StorableIp(Utils.ClientIp(client.forwardedFor, client.remoteAddr))
                               && !HasSession(db.sessions, db.links[t].user, SessionKey(client))
    ensures db.links[t].user in db.users ==> r.0.links == db.links[t := MarkedUsed(db.links[t], now)]
  {
    var link := db.links[t];
    var owner := link.user;
    if owner !in db.users then (db, Crashed)
    else
      var db1 := if link.isSignup then MarkVerified(db, owner) else db;
      var db2 := SaveUsedLink(db1, t, now);
      var created := InsertSession(db2, owner, SessionKey(client),
                                   Utils.ClientIp(client.forwardedFor, client.remoteAddr),
                                   Utils.UserAgent(client.userAgent), MagicLinkLogin, now);
      if created.None? then (db2, Crashed)
      else (created.value, SignedIn(created.value.users[owner], "Successfully authenticated"))
  }

  lemma ConsumeKeepsValid(db: Db, t: string, client: Client, now: int)
    requires Valid(db) && t in db.links
    ensures Valid(Consume(db, t, client, now).0)
  {
    var link := db.links[t];
    var owner := link.user;
    if owner in db.users {
      if link.isSignup {
        MarkVerifiedKeepsValid(db, owner);
      }
      var db1 := if link.isSignup then MarkVerified(db, owner) else db;
      SaveUsedLinkKeepsValid(db1, t, now);
      var db2 := SaveUsedLink(db1, t, now);
      var ip := Utils.ClientIp(client.forwardedFor, client.remoteAddr);
      var ua := Utils.UserAgent(client.userAgent);
      if InsertSession(db2, owner, SessionKey(client), ip, ua, MagicLinkLogin, now).Some? {
        InsertSessionKeepsValid(db2, owner, SessionKey(client), ip, ua, MagicLinkLogin, now);
      }
    }
  }

  /** The verify handler is the serializer, the view's two checks, then `Consume`. */
  lemma VerifyLinkShape(db: Db, token: S.Raw, client: Client, checkedAt: int, now: int)
    ensures var v := S.ValidateVerifyRequest(db.links, token, checkedAt);
            var res := VerifyLinkFlow(db, token, client, checkedAt, now);
            && (v.Failure? ==> res == (db, Invalid(v.error)))
            && (v.Success? && !IsValid(db.links[v.value], now)
                ==> res == (db, Rejected("Magic link has expired or been used")))
            && (v.Success? && IsValid(db.links[v.value], now) ==> res == Consume(db, v.value, client, now))
  {
  }

  lemma VerifyLinkKeepsValid(db: Db, token: S.Raw, client: Client, checkedAt: int, now: int)
    requires Valid(db)
    ensures Valid(VerifyLinkFlow(db, token, client, checkedAt, now).0)
  {
    VerifyLinkShape(db, token, client, checkedAt, now);
    var v := S.ValidateVerifyRequest(db.links, token, checkedAt);
    if v.Success? && IsValid(db.links[v.value], now) {
      ConsumeKeepsValid(db, v.value, client, now);
    }
  }

  // ---------------------------------------------------------------- Google

  /** A user who has no Google id yet (null or empty). */
  predicate LacksGoogleId(u: User) {
    u.googleId.None? || u.googleId.value == ""
  }

  /** The existing user after the Google backfill: the Google id is set, the
      new picture replaces the avatar unless it is empty, and the address
      counts as verified. */
  function Backfilled(u: User, googleId: Option<string>, picture: string): (r: User)
    ensures r.id == u.id && r.username == u.username && r.email == u.email
    ensures r.firstName == u.firstName && r.lastName == u.lastName
    ensures r.googleId == googleId && r.isEmailVerified
    ensures r.avatarUrl == if picture != "" then Some(picture) else u.avatarUrl
  {
    u.(googleId := googleId, avatarUrl := if picture != "" then Some(picture) else u.avatarUrl,
       isEmailVerified := true)
  }

  /** The row for `email` after the user-table step of the Google login: a
      new verified user built from the profile, the back-filled user, or the
      user as stored. */
  function GoogleUserRow(db: Db, email: string, p: Profile): User {
    var picture := p.picture.GetOr("");
    if email !in db.users then
      User(db.nextUserId, Text.Before(email, '@'), email, p.givenName.GetOr(""), p.familyName.GetOr(""),
           p.id, Some(picture), true)
    else if LacksGoogleId(db.users[email]) then Backfilled(db.users[email], p.id, picture)
    else db.users[email]
  }

  /** The user-table step of the Google login: get-or-create by email, then
      the backfill of a user without a Google id. Only the row for `email`
      changes. */
  function GoogleUser(db: Db, email: string, p: Profile): (r: Option<Db>)
    ensures r.Some? ==> r.value.users == db.users[email := GoogleUserRow(db, email, p)]
    ensures r.Some? ==> r.value.links == db.links && r.value.sessions == db.sessions
                        && r.value.nextSessionId == db.nextSessionId && r.value.outbox == db.outbox
    ensures email in db.users && !LacksGoogleId(db.users[email]) ==> r == Some(db)
    ensures r.Some? <==> if email !in db.users then !UsernameTaken(db.users, Text.Before(email, '@'))
                                                   && !GoogleIdHeldByOther(db.users, p.id, email)
                         else !LacksGoogleId(db.users[email]) || !GoogleIdHeldByOther(db.users, p.id, email)
  {
    var picture := p.picture.GetOr("");
    if email !in db.users then
      InsertUser(db, email, Text.Before(email, '@'), p.givenName.GetOr(""), p.familyName.GetOr(""),
                 p.id, Some(picture), true)
    else if LacksGoogleId(db.users[email]) then
      SaveUser(db, email, Backfilled(db.users[email], p.id, picture))
    else
      assert db.users[email := db.users[email]] == db.users;
      Some(db)
  }

  /** The steps after a usable profile: the user row, then the session row. */
  function GoogleLogin(db: Db, email: string, p: Profile, client: Client, now: int): (r: (Db, Reply))
    ensures r.1.GoogleSignedIn? || r.1 == ServerError(GoogleFailed)
    ensures r.1.GoogleSignedIn? <==> && GoogleUser(db, email, p).Some?
                                     && StorableIp(Utils.ClientIp(client.forwardedFor, client.remoteAddr))
                                     && !HasSession(db.sessions, email, SessionKey(client))
  {
    var saved := GoogleUser(db, email, p);
    if saved.None? then (db, ServerError(GoogleFailed))
    else
      var db1 := saved.value;
      var created := InsertSession(db1, email, SessionKey(client),
                                   Utils.ClientIp(client.forwardedFor, client.remoteAddr),
                                   Utils.UserAgent(client.userAgent), GoogleOAuth, now);
      if created.None? then (db1, ServerError(GoogleFailed))
      else (created.value, GoogleSignedIn(created.value.users[email], "Successfully authenticated with Google",
                                          email !in db.users))
  }

  /** `GoogleAuthView.post` from the user-info reply onward. */
  function GoogleAuthFlow(db: Db, accessToken: S.Raw, reply: GoogleReply, client: Client, now: int): (Db, Reply) {
    match S.ValidateGoogleRequest(accessToken)
    case Failure(errors) => (db, Invalid(errors))
    case Success(_) =>
      match reply
      case NoReply => (db, ServerError(GoogleFailed))
      case Reply(status, body) =>
        if status != 200 then (db, Rejected("Invalid Google access token"))
        else if body.None? then (db, ServerError(GoogleFailed))
        else if body.value.email.None? || body.value.email.value == "" then
          (db, Rejected("Email not provided by Google"))
        else GoogleLogin(db, body.value.email.value, body.value, client, now)
  }

  lemma GoogleUserKeepsValid(db: Db, email: string, p: Profile)
    requires Valid(db)
    requires GoogleUser(db, email, p).Some?
    ensures Valid(GoogleUser(db, email, p).value)
  {
    var picture := p.picture.GetOr("");
    if email !in db.users {
      InsertUserKeepsValid(db, email, Text.Before(email, '@'), p.givenName.GetOr(""), p.familyName.GetOr(""),
                           p.id, Some(picture), true);
    } else if LacksGoogleId(db.users[email]) {
      SaveUserKeepsValid(db, email, Backfilled(db.users[email], p.id, picture));
    }
  }

  lemma GoogleLoginKeepsValid(db: Db, email: string, p: Profile, client: Client, now: int)
    requires Valid(db)
    ensures Valid(GoogleLogin(db, email, p, client, now).0)
  {
    if GoogleUser(db, email, p).Some? {
      GoogleUserKeepsValid(db, email, p);
      var db1 := GoogleUser(db, email, p).value;
      var ip := Utils.ClientIp(client.forwardedFor, client.remoteAddr);
      var ua := Utils.UserAgent(client.userAgent);
      if InsertSession(db1, email, SessionKey(client), ip, ua, GoogleOAuth, now).Some? {
        InsertSessionKeepsValid(db1, email, SessionKey(client), ip, ua, GoogleOAuth, now);
      }
    }
  }

  /** The request passes the serializer and the reply carries a profile with an email. */
  predicate UsableProfile(accessToken: S.Raw, reply: GoogleReply) {
    && S.ValidateGoogleRequest(accessToken).Success?
    && reply.Reply? && reply.status == 200 && reply.body.Some?
    && reply.body.value.email.Some? && reply.body.value.email.value != ""
  }

  /** The Google handler runs `GoogleLogin` on a usable profile and otherwise
      answers without a write and without signing in. */
  lemma GoogleAuthShape(db: Db, accessToken: S.Raw, reply: GoogleReply, client: Client, now: int)
    ensures UsableProfile(accessToken, reply) ==>
              GoogleAuthFlow(db, accessToken, reply, client, now)
              == GoogleLogin(db, reply.body.value.email.value, reply.body.value, client, now)
    ensures !UsableProfile(accessToken, reply) ==>
              GoogleAuthFlow(db, accessToken, reply, client, now).0 == db
              && !GoogleAuthFlow(db, accessToken, reply, client, now).1.GoogleSignedIn?
  {
    var v := S.ValidateGoogleRequest(accessToken);
    if v.Success? && reply.Reply? {
      assert GoogleAuthFlow(db, accessToken, reply, client, now)
             == if reply.status != 200 then (db, Rejected("Invalid Google access token"))
                else if reply.body.None? then (db, ServerError(GoogleFailed))
                else if reply.body.value.email.None? || reply.body.value.email.value == "" then
                  (db, Rejected("Email not provided by Google"))
                else GoogleLogin(db, reply.body.value.email.value, reply.body.value, client, now);
    }
  }

  lemma GoogleAuthKeepsValid(db: Db, accessToken: S.Raw, reply: GoogleReply, client: Client, now: int)
    requires Valid(db)
    ensures Valid(GoogleAuthFlow(db, accessToken, reply, client, now).0)
  {
    GoogleAuthShape(db, accessToken, reply, client, now);
    if UsableProfile(accessToken, reply) {
      GoogleLoginKeepsValid(db, reply.body.value.email.value, reply.body.value, client, now);
    }
  }

  // ---------------------------------------------------------------- logout

  /** `LogoutView.post`. `caller` is the email of the authenticated user. */
  function LogoutFlow(db: Db, caller: Option<string>, client: Client): (Db, Reply) {
    if caller.None? || caller.value !in db.users then (db, Unauthorized)
    else (db.(sessions := Deactivate(db.sessions, caller.value, SessionKey(client))),
          LoggedOut("Successfully logged out"))
  }

  lemma LogoutKeepsValid(db: Db, caller: Option<string>, client: Client)
    requires Valid(db)
    ensures Valid(LogoutFlow(db, caller, client).0)
  {
    if caller.Some? && caller.value in db.users {
      DeactivateKeepsValid(db, caller.value, SessionKey(client));
    }
  }

  // ---------------------------------------------------------------- session list

  predicate NewestFirst(ss: seq<UserSession>) {
    forall i, j | 0 <= i < j < |ss| :: ss[i].lastActivity >= ss[j].lastActivity
  }

  /** `.filter(user=user, is_active=True)`, in table order. */
  function ActiveOf(ss: seq<UserSession>, user: string): (r: seq<UserSession>)
    ensures forall s | s in r :: s in ss && s.isActive && s.user == user
    ensures forall s | s in ss && s.isActive && s.user == user :: s in r
    ensures forall s :: multiset(r)[s] == if s.isActive && s.user == user then multiset(ss)[s] else 0
  {
    if ss == [] then []
    else
      assert ss == [ss[0]] + ss[1..];
      (if ss[0].isActive && ss[0].user == user then [ss[0]] else []) + ActiveOf(ss[1..], user)
  }

  function InsertByRecency(s: UserSession, ss: seq<UserSession>): seq<UserSession> {
    if ss == [] || s.lastActivity >= ss[0].lastActivity then [s] + ss
    else [ss[0]] + InsertByRecency(s, ss[1..])
  }

  /** `.order_by("-last_activity")`; rows with equal activity keep table order. */
  function ByRecency(ss: seq<UserSession>): seq<UserSession> {
    if ss == [] then [] else InsertByRecency(ss[0], ByRecency(ss[1..]))
  }

  lemma {:induction false} InsertByRecencyPermutes(s: UserSession, ss: seq<UserSession>)
    ensures multiset(InsertByRecency(s, ss)) == multiset{s} + multiset(ss)
  {
    if ss != [] && s.lastActivity < ss[0].lastActivity {
      InsertByRecencyPermutes(s, ss[1..]);
      assert ss == [ss[0]] + ss[1..];
    }
  }

  lemma {:induction false} InsertByRecencySorted(s: UserSession, ss: seq<UserSession>)
    requires NewestFirst(ss)
    ensures |InsertByRecency(s, ss)| == |ss| + 1
    ensures InsertByRecency(s, ss)[0] == s || InsertByRecency(s, ss)[0] == ss[0]
    ensures NewestFirst(InsertByRecency(s, ss))
  {
    var r := InsertByRecency(s, ss);
    if ss != [] && s.lastActivity < ss[0].lastActivity {
      var rest := InsertByRecency(s, ss[1..]);
      InsertByRecencySorted(s, ss[1..]);
      assert rest[0].lastActivity <= ss[0].lastActivity;
      assert r == [ss[0]] + rest;
      forall i, j | 0 <= i < j < |r| ensures r[i].lastActivity >= r[j].lastActivity {
        assert r[j] == rest[j - 1];
        if i > 0 {
          assert r[i] == rest[i - 1];
        } else {
          assert rest[0].lastActivity >= rest[j - 1].lastActivity;
        }
      }
    } else if ss != [] {
      assert r == [s] + ss;
      forall i, j | 0 <= i < j < |r| ensures r[i].lastActivity >= r[j].lastActivity {
        assert r[j] == ss[j - 1];
        if i > 0 {
          assert r[i] == ss[i - 1];
        } else {
          assert ss[0].lastActivity >= ss[j - 1].lastActivity;
        }
      }
    }
  }

  lemma {:induction false} ByRecencyFacts(ss: seq<UserSession>)
    ensures NewestFirst(ByRecency(ss))
    ensures multiset(ByRecency(ss)) == multiset(ss)
  {
    if ss != [] {
      ByRecencyFacts(ss[1..]);
      InsertByRecencySorted(ss[0], ByRecency(ss[1..]));
      InsertByRecencyPermutes(ss[0], ByRecency(ss[1..]));
      assert ss == [ss[0]] + ss[1..];
    }
  }

  function View(s: UserSession, key: string): SessionView {
    SessionView(s.id, LoginMethodValue(s.loginMethod), s.ipAddress, Text.Truncate(s.userAgent, 100), s.createdAt, s.lastActivity,
                s.sessionKey == key)
  }

  /** The list the loop of `UserSessionsView.get` builds, one entry per row. */
  function SessionViews(ss: seq<UserSession>, key: string): (r: seq<SessionView>)
    ensures |r| == |ss|
    ensures forall i | 0 <= i < |ss| :: r[i] == View(ss[i], key)
  {
    if ss == [] then [] else SessionViews(ss[..|ss| - 1], key) + [View(ss[|ss| - 1], key)]
  }

  /** The rows `UserSessionsView.get` lists, in the order it lists them. */
  function ListedSessions(db: Db, user: string): seq<UserSession> {
    ByRecency(ActiveOf(db.sessions, user))
  }

  /** `UserSessionsView.get`. */
  function ListSessionsFlow(db: Db, caller: Option<string>, client: Client): Reply {
    if caller.None? || caller.value !in db.users then Unauthorized
    else SessionList(SessionViews(ListedSessions(db, caller.value), SessionKey(client)))
  }

  // ---------------------------------------------------------------- the service

  /** The tables and the handlers that act on them. */
  class Service {
    var users: map<string, User>
    var links: map<string, MagicLink>
    var sessions: seq<UserSession>
    var outbox: seq<Mail>
    var nextUserId: nat
    var nextSessionId: nat
    /** `settings.FRONTEND_URL`. */
    const frontendUrl: string

    function State(): Db
      reads this
    {
      Db(users, links, sessions, outbox, nextUserId, nextSessionId)
    }

    ghost predicate Valid()
      reads this
    {
      Store.Valid(State())
    }

    constructor(frontendUrl: string)
      ensures State() == EmptyDb && this.frontendUrl == frontendUrl
      ensures Valid()
    {
      users := map[];
      links := map[];
      sessions := [];
      outbox := [];
      nextUserId := 0;
      nextSessionId := 0;
      this.frontendUrl := frontendUrl;
    }

    method CreateUser(email: string, username: string, firstName: string, lastName: string,
                      googleId: Option<string>, avatarUrl: Option<string>, verified: bool) returns (ok: bool)
      requires email !in users
      modifies this
      ensures var r := InsertUser(old(State()), email, username, firstName, lastName, googleId, avatarUrl, verified);
              ok == r.Some? && State() == if ok then r.value else old(State())
    {
      if UsernameTaken(users, username) || GoogleIdHeldByOther(users, googleId, email) {
        return false;
      }
      users := users[email := User(nextUserId, username, email, firstName, lastName, googleId, avatarUrl, verified)];
      nextUserId := nextUserId + 1;
      ok := true;
    }

    method SaveUser(email: string, u: User) returns (ok: bool)
      requires email in users
      modifies this
      ensures var r := Store.SaveUser(old(State()), email, u);
              ok == r.Some? && State() == if ok then r.value else old(State())
    {
      if GoogleIdHeldByOther(users, u.googleId, email) {
        return false;
      }
      users := users[email := u];
      ok := true;
    }

    method MarkVerified(email: string)
      requires email in users
      modifies this
      ensures State() == Store.MarkVerified(old(State()), email)
    {
      var u := users[email];
      u := u.(isEmailVerified := true);
      users := users[email := u];
    }

    method CreateLink(link: MagicLink) returns (ok: bool)
      modifies this
      ensures var r := InsertLink(old(State()), link);
              ok == r.Some? && State() == if ok then r.value else old(State())
    {
      if link.token in links {
        return false;
      }
      links := links[link.token := link];
      ok := true;
    }

    /** `MagicLink.mark_as_used` with its save. */
    method MarkAsUsed(token: string, now: int)
      requires token in links
      modifies this
      ensures State() == SaveUsedLink(old(State()), token, now)
    {
      var link := links[token];
      link := link.(isUsed := true, usedAt := Some(now));
      links := links[token := link];
    }

    method CreateSession(user: string, key: string, ip: Option<string>, userAgent: string,
                         loginMethod: LoginMethod, now: int) returns (ok: bool)
      modifies this
      ensures var r := InsertSession(old(State()), user, key, ip, userAgent, loginMethod, now);
              ok == r.Some? && State() == if ok then r.value else old(State())
    {
      if ip.None? || ip.value == "" || HasSession(sessions, user, key) {
        return false;
      }
      sessions := sessions + [UserSession(nextSessionId, user, key, ip.value, userAgent, loginMethod, now, now, true)];
      nextSessionId := nextSessionId + 1;
      ok := true;
    }

    method DeactivateSessions(user: string, key: string)
      modifies this
      ensures State() == old(State()).(sessions := Deactivate(old(sessions), user, key))
    {
      sessions := Deactivate(sessions, user, key);
    }

    method SendMail(mail: Mail)
      modifies this
      ensures State() == old(State()).(outbox := old(outbox) + [mail])
    {
      outbox := outbox + [mail];
    }

    /** The user step of the request: get-or-create on signup, get on login. */
    method FetchUserStep(req: S.LinkRequest) returns (ok: bool)
      modifies this
      ensures var r := FetchUser(old(State()), req);
              ok == r.Some? && State() == if ok then r.value else old(State())
    {
      if req.isSignup {
        if req.email !in users {
          ok := CreateUser(req.email, Text.Before(req.email, '@'), "", "", None, None, false);
          return;
        }
      } else if req.email !in users {
        return false;
      }
      ok := true;
    }

    /** The link step of the request: store the link, build the URL, send the mail. */
    method IssueLinkStep(req: S.LinkRequest, token: string, now: int, deliveryFails: bool) returns (r: Reply)
      modifies this
      ensures (State(), r) == IssueLink(old(State()), frontendUrl, req, token, now, deliveryFails)
    {
      var stored := CreateLink(MagicLink(req.email, token, req.email, req.isSignup, false, now + LinkLifetime,
                                         now, None));
      if !stored {
        return ServerError(SendFailed);
      }
      var url := VerificationUrl(frontendUrl, token, req.redirectUrl);
      if deliveryFails {
        return ServerError(SendFailed);
      }
      SendMail(Mail(req.email, Subject(req.isSignup), url));
      r := LinkSent("Magic link sent to " + req.email, LinkLifetime);
    }

    /** `RequestMagicLinkView.post`. */
    method RequestLink(email: S.Raw, isSignup: S.Raw, redirectUrl: S.Raw, draw: seq<nat>, now: int,
                       deliveryFails: bool) returns (r: Reply)
      requires Valid() && IsDraw(draw)
      modifies this
      ensures Valid()
      ensures (State(), r) == RequestLinkFlow(old(State()), frontendUrl, email, isSignup, redirectUrl,
                                              draw, now, deliveryFails)
    {
      RequestLinkKeepsValid(State(), frontendUrl, email, isSignup, redirectUrl, draw, now, deliveryFails);
      RequestLinkShape(State(), frontendUrl, email, isSignup, redirectUrl, draw, now, deliveryFails);
      var validated := S.ValidateLinkRequest(users, email, isSignup, redirectUrl);
      if validated.Failure? {
        return Invalid(validated.error);
      }
      var fetched := FetchUserStep(validated.value);
      if !fetched {
        return ServerError(SendFailed);
      }
      r := IssueLinkStep(validated.value, GenerateToken(draw), now, deliveryFails);
    }

    /** `VerifyMagicLinkView.post`; `checkedAt` is the serializer's clock reading, `now` the view's. */
    method VerifyLink(token: S.Raw, client: Client, checkedAt: int, now: int) returns (r: Reply)
      requires Valid()
      modifies this
      ensures Valid()
      ensures (State(), r) == VerifyLinkFlow(old(State()), token, client, checkedAt, now)
    {
      VerifyLinkKeepsValid(State(), token, client, checkedAt, now);
      var validated := S.ValidateVerifyRequest(links, token, checkedAt);
      if validated.Failure? {
        return Invalid(validated.error);
      }
      var t := validated.value;
      if t !in links {
        return Rejected("Invalid magic link");
      }
      var link := links[t];
      if !IsValid(link, now) {
        return Rejected("Magic link has expired or been used");
      }
      var owner := link.user;
      if owner !in users {
        return Crashed;
      }
      if link.isSignup {
        MarkVerified(owner);
      }
      MarkAsUsed(t, now);
      var recorded := CreateSession(owner, SessionKey(client), Utils.ClientIp(client.forwardedFor, client.remoteAddr),
                                    Utils.UserAgent(client.userAgent), MagicLinkLogin, now);
      if !recorded {
        return Crashed;
      }
      r := SignedIn(users[owner], "Successfully authenticated");
    }

    /** `GoogleAuthView.post`, given the user-info reply. */
    method GoogleAuth(accessToken: S.Raw, reply: GoogleReply, client: Client, now: int) returns (r: Reply)
      requires Valid()
      modifies this
      ensures Valid()
      ensures (State(), r) == GoogleAuthFlow(old(State()), accessToken, reply, client, now)
    {
      GoogleAuthKeepsValid(State(), accessToken, reply, client, now);
      var validated := S.ValidateGoogleRequest(accessToken);
      if validated.Failure? {
        return Invalid(validated.error);
      }
      if reply.NoReply? {
        return ServerError(GoogleFailed);
      }
      if reply.status != 200 {
        return Rejected("Invalid Google access token");
      }
      if reply.body.None? {
        return ServerError(GoogleFailed);
      }
      var profile := reply.body.value;
      if profile.email.None? || profile.email.value == "" {
        return Rejected("Email not provided by Google");
      }
      var email := profile.email.value;
      var picture := profile.picture.GetOr("");
      var created := email !in users;
      if created {
        var ok := CreateUser(email, Text.Before(email, '@'), profile.givenName.GetOr(""),
                             profile.familyName.GetOr(""), profile.id, Some(picture), true);
        if !ok {
          return ServerError(GoogleFailed);
        }
      } else if LacksGoogleId(users[email]) {
        var ok := SaveUser(email, Backfilled(users[email], profile.id, picture));
        if !ok {
          return ServerError(GoogleFailed);
        }
      }
      var recorded := CreateSession(email, SessionKey(client), Utils.ClientIp(client.forwardedFor, client.remoteAddr),
                                    Utils.UserAgent(client.userAgent), GoogleOAuth, now);
      if !recorded {
        return ServerError(GoogleFailed);
      }
      r := GoogleSignedIn(users[email], "Successfully authenticated with Google", created);
    }

    /** `LogoutView.post`; the refresh-token blacklist is not modelled. */
    method Logout(caller: Option<string>, client: Client) returns (r: Reply)
      requires Valid()
      modifies this
      ensures Valid()
      ensures (State(), r) == LogoutFlow(old(State()), caller, client)
    {
      LogoutKeepsValid(State(), caller, client);
      if caller.None? || caller.value !in users {
        return Unauthorized;
      }
      DeactivateSessions(caller.value, SessionKey(client));
      r := LoggedOut("Successfully logged out");
    }

    /** `UserSessionsView.get`: the query, then the loop that builds the list. */
    method ListActiveSessions(caller: Option<string>, client: Client) returns (r: Reply)
      ensures r == ListSessionsFlow(State(), caller, client)
    {
      if caller.None? || caller.value !in users {
        return Unauthorized;
      }
      var rows := ListedSessions(State(), caller.value);
      var key := SessionKey(client);
      var data: seq<SessionView> := [];
      var i := 0;
      while i < |rows|
        invariant 0 <= i <= |rows|
        invariant data == SessionViews(rows[..i], key)
      {
        assert rows[..i + 1][..i] == rows[..i];
        data := data + [View(rows[i], key)];
        i := i + 1;
      }
      assert rows[..|rows|] == rows;
      r := SessionList(data);
    }
  }
}
