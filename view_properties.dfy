/** What the handlers of user_management/views.py promise, stated over the
    handler functions of `Views`: single use and expiry of magic links, the
    signup and login rules, the Google backfill in which the first Google id
    wins, logout touching only matching rows, and the session list. Several
    lemmas follow one request with another. */
module ViewProperties {
  import opened Wrappers
  import opened Models
  import opened Store
  import opened Views
  import Text
  import S = Serializers
  import Utils

  // ---------------------------------------------------------------- request link

  /** A request the serializer refuses is answered with its errors and writes nothing. */
  lemma RefusedLinkRequestWritesNothing(db: Db, frontendUrl: string, email: S.Raw, isSignup: S.Raw,
                                        redirectUrl: S.Raw, draw: seq<nat>, now: int, deliveryFails: bool)
    requires IsDraw(draw)
    ensures var res := RequestLinkFlow(db, frontendUrl, email, isSignup, redirectUrl, draw, now, deliveryFails);
            var v := S.ValidateLinkRequest(db.users, email, isSignup, redirectUrl);
            (res.1.Invalid? <==> v.Failure?) && (v.Failure? ==> res == (db, Invalid(v.error)))
  {
    RequestLinkShape(db, frontendUrl, email, isSignup, redirectUrl, draw, now, deliveryFails);
  }

  /** A validated signup always names an address without an account (the
      parsed flag implies the raw one the validator reads), so it creates the
      user: unverified, named after the local part. When that username is
      taken the database refuses the row and the request fails with nothing
      written. */
  lemma SignupCreatesUser(db: Db, frontendUrl: string, email: S.Raw, isSignup: S.Raw, redirectUrl: S.Raw,
                          draw: seq<nat>, now: int, deliveryFails: bool)
    requires IsDraw(draw)
    requires S.ValidateLinkRequest(db.users, email, isSignup, redirectUrl).Success?
    requires S.ValidateLinkRequest(db.users, email, isSignup, redirectUrl).value.isSignup
    ensures var req := S.ValidateLinkRequest(db.users, email, isSignup, redirectUrl).value;
            var res := RequestLinkFlow(db, frontendUrl, email, isSignup, redirectUrl, draw, now, deliveryFails);
            && req.email !in db.users
            && (UsernameTaken(db.users, Text.Before(req.email, '@')) ==> res == (db, ServerError(SendFailed)))
            && (!UsernameTaken(db.users, Text.Before(req.email, '@')) ==>
                  res.0.users == db.users[req.email := User(db.nextUserId, Text.Before(req.email, '@'), req.email,
                                                            "", "", None, None, false)])
  {
    RequestLinkShape(db, frontendUrl, email, isSignup, redirectUrl, draw, now, deliveryFails);
    var v := S.ValidateLinkRequest(db.users, email, isSignup, redirectUrl);
    var req := v.value;
    S.ParsedTrueIsTruthy(isSignup);
    assert req.email !in db.users;
    var fetched := FetchUser(db, req);
    assert fetched == InsertUser(db, req.email, Text.Before(req.email, '@'), "", "", None, None, false);
  }

  /** A validated login leaves the user table as it is. */
  lemma LoginKeepsUsers(db: Db, frontendUrl: string, email: S.Raw, isSignup: S.Raw, redirectUrl: S.Raw,
                        draw: seq<nat>, now: int, deliveryFails: bool)
    requires IsDraw(draw)
    requires S.ValidateLinkRequest(db.users, email, isSignup, redirectUrl).Success?
    requires !S.ValidateLinkRequest(db.users, email, isSignup, redirectUrl).value.isSignup
    ensures RequestLinkFlow(db, frontendUrl, email, isSignup, redirectUrl, draw, now, deliveryFails).0.users
            == db.users
  {
  }

  /** A request answered "sent" has stored one new, unused link under the
      drawn token, owned by the validated address, valid now and for exactly
      the next 900 seconds, and has mailed the link that carries the token to
      that address; the reply itself carries only a message and the lifetime. */
  lemma SentLinkIsStored(db: Db, frontendUrl: string, email: S.Raw, isSignup: S.Raw, redirectUrl: S.Raw,
                         draw: seq<nat>, now: int, deliveryFails: bool)
    requires IsDraw(draw)
    requires RequestLinkFlow(db, frontendUrl, email, isSignup, redirectUrl, draw, now, deliveryFails).1.LinkSent?
    ensures S.ValidateLinkRequest(db.users, email, isSignup, redirectUrl).Success?
    ensures var req := S.ValidateLinkRequest(db.users, email, isSignup, redirectUrl).value;
            var res := RequestLinkFlow(db, frontendUrl, email, isSignup, redirectUrl, draw, now, deliveryFails);
            var token := GenerateToken(draw);
            var link := MagicLink(req.email, token, req.email, req.isSignup, false, now + 900, now, None);
            var url := VerificationUrl(frontendUrl, token, req.redirectUrl);
            && token !in db.links
            && res.0.links == db.links[token := link]
            && IsValid(link, now) && IsValid(link, now + 899) && !IsValid(link, now + 900)
            && res.0.outbox == db.outbox + [Mail(req.email, Subject(req.isSignup), url)]
            && Text.OccursAt(url, token, |frontendUrl| + |VerifyPath|)
            && res.1 == LinkSent("Magic link sent to " + req.email, 900)
            && req.email in res.0.users
  {
  }

  /** Delivery failing after the link is stored answers 500 yet keeps the
      user and the link: there is no transaction around the handler. */
  lemma FailedDeliveryKeepsLink(db: Db, frontendUrl: string, email: S.Raw, isSignup: S.Raw, redirectUrl: S.Raw,
                                draw: seq<nat>, now: int)
    requires IsDraw(draw)
    requires S.ValidateLinkRequest(db.users, email, isSignup, redirectUrl).Success?
    requires RequestLinkFlow(db, frontendUrl, email, isSignup, redirectUrl, draw, now, false).1.LinkSent?
    ensures var sent := RequestLinkFlow(db, frontendUrl, email, isSignup, redirectUrl, draw, now, false);
            var failed := RequestLinkFlow(db, frontendUrl, email, isSignup, redirectUrl, draw, now, true);
            failed == (sent.0.(outbox := db.outbox), ServerError(SendFailed))
  {
  }

  /** A link request is answered "sent" exactly when the serializer accepts
      it, the user step finds or creates the user, the drawn token is not in
      use yet, and delivery succeeds. */
  lemma RequestLinkSucceedsExactly(db: Db, frontendUrl: string, email: S.Raw, isSignup: S.Raw, redirectUrl: S.Raw,
                                   draw: seq<nat>, now: int, deliveryFails: bool)
    requires IsDraw(draw)
    ensures var v := S.ValidateLinkRequest(db.users, email, isSignup, redirectUrl);
            RequestLinkFlow(db, frontendUrl, email, isSignup, redirectUrl, draw, now, deliveryFails).1.LinkSent?
            <==> && v.Success? && FetchUser(db, v.value).Some?
                 && GenerateToken(draw) !in db.links && !deliveryFails
  {
    RequestLinkShape(db, frontendUrl, email, isSignup, redirectUrl, draw, now, deliveryFails);
  }

  /** The text "false" as `is_signup`: the validator reads it as a signup (it
      is truthy) and so requires an unknown address, while the handler reads
      it as a login (the field parses it as false) and so requires a known
      one. No address satisfies both: a new address gets a 500 and nothing is
      written, a known one gets the signup error. */
  lemma FalseTextSignupFlagNeverSends(db: Db, frontendUrl: string, email: string, redirectUrl: S.Raw,
                                      draw: seq<nat>, now: int, deliveryFails: bool)
    requires IsDraw(draw)
    requires S.CharField(S.Str(email), None).Success?
    requires !redirectUrl.Missing? ==> S.CharField(redirectUrl, None).Success?
    ensures var res := RequestLinkFlow(db, frontendUrl, S.Str(email), S.Str("false"), redirectUrl, draw, now,
                                       deliveryFails);
            var address := Text.Lower(S.CharField(S.Str(email), None).value);
            && (address !in db.users ==> res == (db, ServerError(SendFailed)))
            && (address in db.users ==> res == (db, Invalid([S.FieldError("email", S.EmailTaken)])))
  {
    if Text.Lower(S.CharField(S.Str(email), None).value) in db.users {
      S.FalseTextKnownAddress(db.users, email, redirectUrl);
    } else {
      S.FalseTextNewAddress(db.users, email, redirectUrl);
    }
  }

  // ---------------------------------------------------------------- verify link

  /** An unknown token is refused by the serializer ("Invalid magic link.")
      and nothing is written. */
  lemma UnknownTokenRefused(db: Db, token: S.Raw, client: Client, checkedAt: int, now: int)
    requires S.CharField(token, Some(255)).Success?
    requires S.CharField(token, Some(255)).value !in db.links
    ensures VerifyLinkFlow(db, token, client, checkedAt, now) == (db, Invalid([S.FieldError("token", S.InvalidLink)]))
  {
  }

  /** A link that is used or expired when the serializer reads the clock is
      refused and nothing is written. */
  lemma SpentOrExpiredLinkRefused(db: Db, token: S.Raw, client: Client, checkedAt: int, now: int)
    requires S.CharField(token, Some(255)).Success?
    requires S.CharField(token, Some(255)).value in db.links
    requires !IsValid(db.links[S.CharField(token, Some(255)).value], checkedAt)
    ensures VerifyLinkFlow(db, token, client, checkedAt, now) == (db, Invalid([S.FieldError("token", S.ExpiredOrUsed)]))
  {
  }

  /** The view's own lookup ("Invalid magic link") is never answered: the
      serializer has looked the token up already. Its expiry check answers
      exactly when the link was unused and unexpired at the serializer's
      reading of the clock and has expired by the view's; it writes nothing,
      and with one reading for both checks it is never answered. */
  lemma ViewLinkChecks(db: Db, token: S.Raw, client: Client, checkedAt: int, now: int)
    ensures VerifyLinkFlow(db, token, client, checkedAt, now).1 != Rejected("Invalid magic link")
    ensures var v := S.ValidateVerifyRequest(db.links, token, checkedAt);
            var res := VerifyLinkFlow(db, token, client, checkedAt, now);
            (res.1 == Rejected("Magic link has expired or been used")) <==>
              && v.Success? && !db.links[v.value].isUsed
              && checkedAt < db.links[v.value].expiresAt <= now
    ensures var res := VerifyLinkFlow(db, token, client, checkedAt, now);
            res.1 == Rejected("Magic link has expired or been used") ==> res.0 == db
    ensures checkedAt == now ==>
              VerifyLinkFlow(db, token, client, checkedAt, now).1 != Rejected("Magic link has expired or been used")
  {
    VerifyLinkShape(db, token, client, checkedAt, now);
  }

  /** A verify signs in exactly when the serializer accepts the token, the
      link is still valid at the view's reading of the clock, its owner
      exists, the client's address can be stored, and the owner has no
      session row under the client's session key yet. */
  lemma VerifySucceedsExactly(db: Db, token: S.Raw, client: Client, checkedAt: int, now: int)
    ensures var v := S.ValidateVerifyRequest(db.links, token, checkedAt);
            VerifyLinkFlow(db, token, client, checkedAt, now).1.SignedIn? <==>
              && v.Success? && IsValid(db.links[v.value], now)
              && db.links[v.value].user in db.users
              && StorableIp(Utils.ClientIp(client.forwardedFor, client.remoteAddr))
              && !HasSession(db.sessions, db.links[v.value].user, SessionKey(client))
  {
    VerifyLinkShape(db, token, client, checkedAt, now);
  }

  /** What a successful `Consume` writes: the link is used, the owner of a
      signup link is verified and no other user row changes, and one active
      magic-link session row is appended. */
  lemma ConsumeEffects(db: Db, t: string, client: Client, now: int)
    requires t in db.links
    requires Consume(db, t, client, now).1.SignedIn?
    ensures var link := db.links[t];
            var res := Consume(db, t, client, now);
            && link.user in db.users
            && res.0.links == db.links[t := MarkedUsed(link, now)]
            && res.0.users.Keys == db.users.Keys
            && (forall e | e in db.users && e != link.user :: res.0.users[e] == db.users[e])
            && res.0.users[link.user].isEmailVerified == (link.isSignup || db.users[link.user].isEmailVerified)
            && res.0.users[link.user] == db.users[link.user].(isEmailVerified := res.0.users[link.user].isEmailVerified)
            && res.0.sessions == db.sessions + [UserSession(db.nextSessionId, link.user, SessionKey(client),
                                   Utils.ClientIp(client.forwardedFor, client.remoteAddr).value,
                                   Utils.UserAgent(client.userAgent), MagicLinkLogin, now, now, true)]
            && res.1 == SignedIn(res.0.users[link.user], "Successfully authenticated")
  {
  }

  /** A successful verify consumed a link that was valid at both readings of
      the clock, marked the owner verified when the link was a signup link
      (and changed nothing else in the user table), and recorded one active
      magic-link session under the client's session key or "api_session". */
  lemma VerifiedLinkEffects(db: Db, token: S.Raw, client: Client, checkedAt: int, now: int)
    requires VerifyLinkFlow(db, token, client, checkedAt, now).1.SignedIn?
    ensures S.ValidateVerifyRequest(db.links, token, checkedAt).Success?
    ensures var t := S.ValidateVerifyRequest(db.links, token, checkedAt).value;
            && IsValid(db.links[t], checkedAt) && IsValid(db.links[t], now)
            && VerifyLinkFlow(db, token, client, checkedAt, now) == Consume(db, t, client, now)
  {
    VerifyLinkShape(db, token, client, checkedAt, now);
  }

  /** The link is consumed before the session row is written, and only a
      missing link is caught: when the owner already has a session under the
      same key, or the client's address is missing or empty, the handler
      raises, and the link stays used. */
  lemma LinkSpentWhenSessionRefused(db: Db, token: S.Raw, client: Client, checkedAt: int, now: int)
    requires Valid(db)
    requires S.ValidateVerifyRequest(db.links, token, checkedAt).Success?
    requires IsValid(db.links[S.ValidateVerifyRequest(db.links, token, checkedAt).value], now)
    requires || HasSession(db.sessions, db.links[S.ValidateVerifyRequest(db.links, token, checkedAt).value].user,
                           SessionKey(client))
             || !StorableIp(Utils.ClientIp(client.forwardedFor, client.remoteAddr))
    ensures var t := S.ValidateVerifyRequest(db.links, token, checkedAt).value;
            var res := VerifyLinkFlow(db, token, client, checkedAt, now);
            res.1 == Crashed && res.0.links == db.links[t := MarkedUsed(db.links[t], now)]
  {
    VerifyLinkShape(db, token, client, checkedAt, now);
  }

  /** Single use: after a verify that consumed the link, whether it then
      signed the user in or raised at the session row, verifying the same
      token again, by any client at any time, is refused and writes nothing. */
  lemma SecondVerifyRefused(db: Db, token: S.Raw, client: Client, checkedAt: int, now: int,
                            client2: Client, checkedAt2: int, later: int)
    requires Valid(db)
    requires || VerifyLinkFlow(db, token, client, checkedAt, now).1.SignedIn?
             || VerifyLinkFlow(db, token, client, checkedAt, now).1.Crashed?
    ensures var db1 := VerifyLinkFlow(db, token, client, checkedAt, now).0;
            VerifyLinkFlow(db1, token, client2, checkedAt2, later)
            == (db1, Invalid([S.FieldError("token", S.ExpiredOrUsed)]))
  {
    VerifyLinkShape(db, token, client, checkedAt, now);
    var t := S.ValidateVerifyRequest(db.links, token, checkedAt).value;
    var db1 := VerifyLinkFlow(db, token, client, checkedAt, now).0;
    assert db1.links[t] == MarkedUsed(db.links[t], now);
    UsedLinkNeverValid(db.links[t], now, checkedAt2);
  }

  /** Two magic-link logins of one user from clients without a session key
      share the key "api_session"; the second one's session row is refused,
      so it raises after consuming its link. */
  lemma RepeatLoginWithoutSessionKeyCrashes(db: Db, token: S.Raw, client: Client, checkedAt: int, now: int,
                                            token2: S.Raw, client2: Client, checkedAt2: int, later: int)
    requires Valid(db)
    requires client.sessionKey.None? && client2.sessionKey.None?
    requires VerifyLinkFlow(db, token, client, checkedAt, now).1.SignedIn?
    requires var db1 := VerifyLinkFlow(db, token, client, checkedAt, now).0;
             var v2 := S.ValidateVerifyRequest(db1.links, token2, checkedAt2);
             && v2.Success? && IsValid(db1.links[v2.value], later)
             && db1.links[v2.value].user == db.links[S.ValidateVerifyRequest(db.links, token, checkedAt).value].user
    ensures VerifyLinkFlow(VerifyLinkFlow(db, token, client, checkedAt, now).0, token2, client2, checkedAt2, later).1
            == Crashed
  {
    VerifiedLinkEffects(db, token, client, checkedAt, now);
    ConsumeEffects(db, S.ValidateVerifyRequest(db.links, token, checkedAt).value, client, now);
    var db1 := VerifyLinkFlow(db, token, client, checkedAt, now).0;
    VerifyLinkKeepsValid(db, token, client, checkedAt, now);
    var n := |db.sessions|;
    assert db1.sessions[n].user == db.links[S.ValidateVerifyRequest(db.links, token, checkedAt).value].user;
    assert db1.sessions[n].sessionKey == DefaultSessionKey;
    LinkSpentWhenSessionRefused(db1, token2, client2, checkedAt2, later);
  }

  /** A token carrying a NUL character is refused by the field and nothing
      is written. */
  lemma NulTokenRefused(db: Db, token: string, client: Client, checkedAt: int, now: int)
    requires '\0' in Text.Strip(token)
    ensures var res := VerifyLinkFlow(db, S.Str(token), client, checkedAt, now);
            res.0 == db && res.1.Invalid?
  {
  }

  // ---------------------------------------------------------------- Google

  /** A Google login signs in exactly when the profile is usable, the user
      step for its address succeeds, the client's address can be stored, and
      that user has no session row under the client's session key yet. */
  lemma GoogleSucceedsExactly(db: Db, accessToken: S.Raw, reply: GoogleReply, client: Client, now: int)
    ensures GoogleAuthFlow(db, accessToken, reply, client, now).1.GoogleSignedIn? <==>
              && UsableProfile(accessToken, reply)
              && GoogleUser(db, reply.body.value.email.value, reply.body.value).Some?
              && StorableIp(Utils.ClientIp(client.forwardedFor, client.remoteAddr))
              && !HasSession(db.sessions, reply.body.value.email.value, SessionKey(client))
  {
    GoogleAuthShape(db, accessToken, reply, client, now);
  }

  /** A profile without an email is refused and nothing is written. */
  lemma GoogleWithoutEmailRefused(db: Db, accessToken: S.Raw, profile: Profile, client: Client, now: int)
    requires S.ValidateGoogleRequest(accessToken).Success?
    requires profile.email.None? || profile.email.value == ""
    ensures GoogleAuthFlow(db, accessToken, Reply(200, Some(profile)), client, now)
            == (db, Rejected("Email not provided by Google"))
  {
  }

  /** A reply other than 200 is refused and nothing is written. */
  lemma GoogleRefusalPassedOn(db: Db, accessToken: S.Raw, status: int, body: Option<Profile>, client: Client, now: int)
    requires S.ValidateGoogleRequest(accessToken).Success? && status != 200
    ensures GoogleAuthFlow(db, accessToken, Reply(status, body), client, now)
            == (db, Rejected("Invalid Google access token"))
  {
  }

  /** The row the Google step leaves: a new user is named after the local
      part, carries the profile's Google id and picture and is verified; an
      existing user without a Google id gets the profile's id, the new picture
      unless it is empty, and is verified, keeping its id, names and
      username; an existing Google id leaves the row as it is. */
  lemma GoogleBackfillRules(db: Db, email: string, p: Profile)
    ensures var u := GoogleUserRow(db, email, p);
            var picture := p.picture.GetOr("");
            && (email !in db.users ==>
                  && u.id == db.nextUserId && u.email == email && u.username == Text.Before(email, '@')
                  && u.firstName == p.givenName.GetOr("") && u.lastName == p.familyName.GetOr("")
                  && u.googleId == p.id && u.avatarUrl == Some(picture) && u.isEmailVerified)
            && (email in db.users && LacksGoogleId(db.users[email]) ==>
                  var before := db.users[email];
                  && u.id == before.id && u.email == before.email && u.username == before.username
                  && u.firstName == before.firstName && u.lastName == before.lastName
                  && u.googleId == p.id && u.isEmailVerified
                  && u.avatarUrl == if picture != "" then Some(picture) else before.avatarUrl)
            && (email in db.users && !LacksGoogleId(db.users[email]) ==> u == db.users[email])
  {
  }

  /** What a successful `GoogleLogin` step writes. */
  lemma GoogleLoginStepEffects(db: Db, email: string, p: Profile, client: Client, now: int)
    requires GoogleLogin(db, email, p, client, now).1.GoogleSignedIn?
    ensures var res := GoogleLogin(db, email, p, client, now);
            && res.0.users == db.users[email := GoogleUserRow(db, email, p)]
            && res.0.links == db.links
            && res.0.sessions == db.sessions + [UserSession(db.nextSessionId, email, SessionKey(client),
                                   Utils.ClientIp(client.forwardedFor, client.remoteAddr).value,
                                   Utils.UserAgent(client.userAgent), GoogleOAuth, now, now, true)]
            && res.1 == GoogleSignedIn(GoogleUserRow(db, email, p), "Successfully authenticated with Google",
                                       email !in db.users)
  {
  }

  /** A Google login signs in only on a usable profile, and then is the
      `GoogleLogin` step for the profile's address; it reports a new user
      exactly when the address had no account. */
  lemma GoogleLoginEffects(db: Db, accessToken: S.Raw, reply: GoogleReply, client: Client, now: int)
    requires GoogleAuthFlow(db, accessToken, reply, client, now).1.GoogleSignedIn?
    ensures UsableProfile(accessToken, reply)
    ensures var p := reply.body.value;
            var res := GoogleAuthFlow(db, accessToken, reply, client, now);
            && res == GoogleLogin(db, p.email.value, p, client, now)
            && (res.1.isNewUser <==> p.email.value !in db.users)
  {
    GoogleAuthShape(db, accessToken, reply, client, now);
    var p := reply.body.value;
    assert GoogleAuthFlow(db, accessToken, reply, client, now) == GoogleLogin(db, p.email.value, p, client, now);
  }

  /** The `GoogleLogin` step writes at most the row of its own address. */
  lemma GoogleLoginUsers(db: Db, email: string, p: Profile, client: Client, now: int)
    ensures var users' := GoogleLogin(db, email, p, client, now).0.users;
            users' == db.users || users' == db.users[email := GoogleUserRow(db, email, p)]
  {
  }

  /** The first Google id wins: whatever the reply, a user who has a Google
      id keeps it. */
  lemma GoogleIdNeverOverwritten(db: Db, accessToken: S.Raw, reply: GoogleReply, client: Client, now: int, e: string)
    requires e in db.users && !LacksGoogleId(db.users[e])
    ensures var db' := GoogleAuthFlow(db, accessToken, reply, client, now).0;
            e in db'.users && db'.users[e].googleId == db.users[e].googleId
  {
    GoogleAuthShape(db, accessToken, reply, client, now);
    if UsableProfile(accessToken, reply) {
      GoogleLoginUsers(db, reply.body.value.email.value, reply.body.value, client, now);
    }
  }

  /** Running the `GoogleLogin` step again for the same profile and session
      key leaves the user row as it is and is refused at the session row. */
  lemma RepeatGoogleLoginStep(db: Db, email: string, p: Profile, client: Client, now: int,
                              client2: Client, later: int)
    requires GoogleLogin(db, email, p, client, now).1.GoogleSignedIn?
    requires SessionKey(client2) == SessionKey(client)
    ensures var db1 := GoogleLogin(db, email, p, client, now).0;
            GoogleLogin(db1, email, p, client2, later) == (db1, ServerError(GoogleFailed))
  {
    GoogleLoginStepEffects(db, email, p, client, now);
    var picture := p.picture.GetOr("");
    var db1 := GoogleLogin(db, email, p, client, now).0;
    var u := db1.users[email];
    var n := |db.sessions|;
    assert db1.sessions[n].user == email && db1.sessions[n].sessionKey == SessionKey(client);
    assert HasSession(db1.sessions, email, SessionKey(client2));
    if LacksGoogleId(u) {
      assert Backfilled(u, p.id, picture) == u;
      assert !GoogleIdHeldByOther(db.users, p.id, email);
      assert !GoogleIdHeldByOther(db1.users, p.id, email);
      assert db1.users[email := u] == db1.users;
    }
    assert GoogleUser(db1, email, p) == Some(db1);
  }

  /** Repeating a successful Google login from the same session key finds
      the same user, whose row the backfill leaves as it is, and is refused
      at the session row: a 500, and nothing is written. So the second login
      never reports an existing user. */
  lemma RepeatGoogleLoginRefused(db: Db, accessToken: S.Raw, reply: GoogleReply, client: Client, now: int,
                                 client2: Client, later: int)
    requires GoogleAuthFlow(db, accessToken, reply, client, now).1.GoogleSignedIn?
    requires SessionKey(client2) == SessionKey(client)
    ensures var db1 := GoogleAuthFlow(db, accessToken, reply, client, now).0;
            GoogleAuthFlow(db1, accessToken, reply, client2, later) == (db1, ServerError(GoogleFailed))
  {
    GoogleAuthShape(db, accessToken, reply, client, now);
    var db1 := GoogleAuthFlow(db, accessToken, reply, client, now).0;
    GoogleAuthShape(db1, accessToken, reply, client2, later);
    RepeatGoogleLoginStep(db, reply.body.value.email.value, reply.body.value, client, now, client2, later);
  }

  // ---------------------------------------------------------------- logout

  /** Logout deactivates exactly the caller's rows under the client's session
      key; every other row, and every other table, is left as it was. */
  lemma LogoutTouchesOnlyMatchingRows(db: Db, caller: string, client: Client)
    requires caller in db.users
    ensures var res := LogoutFlow(db, Some(caller), client);
            var s := res.0.sessions;
            && res.1 == LoggedOut("Successfully logged out")
            && res.0.users == db.users && res.0.links == db.links
            && |s| == |db.sessions|
            && (forall i | 0 <= i < |s| ::
                  (s[i].isActive <==> db.sessions[i].isActive
                                      && !(db.sessions[i].user == caller && db.sessions[i].sessionKey == SessionKey(client)))
                  && s[i] == db.sessions[i].(isActive := s[i].isActive))
  {
  }

  /** Logout keeps the rows, so the (user, key) pair stays taken and a new
      login under the same key is still refused. */
  lemma LogoutKeepsSessionKeysTaken(db: Db, caller: Option<string>, client: Client, u: string, k: string)
    ensures HasSession(LogoutFlow(db, caller, client).0.sessions, u, k) <==> HasSession(db.sessions, u, k)
  {
    if caller.Some? && caller.value in db.users {
      DeactivateKeepsKeys(db.sessions, caller.value, SessionKey(client), u, k);
    }
  }

  /** An unauthenticated caller, or one whose user no longer exists, is sent
      away and nothing is written. */
  lemma LogoutNeedsCaller(db: Db, caller: Option<string>, client: Client)
    ensures (LogoutFlow(db, caller, client).1 == Unauthorized) <==> (caller.None? || caller.value !in db.users)
    ensures LogoutFlow(db, caller, client).1 == Unauthorized ==> LogoutFlow(db, caller, client).0 == db
  {
  }

  // ---------------------------------------------------------------- session list

  /** The listed rows are exactly the caller's active rows, each as often
      as in the table, newest activity first. */
  lemma ListedSessionsAreActiveAndNewestFirst(db: Db, user: string)
    ensures NewestFirst(ListedSessions(db, user))
    ensures multiset(ListedSessions(db, user)) == multiset(ActiveOf(db.sessions, user))
    ensures forall s :: multiset(ListedSessions(db, user))[s]
                        == if s.isActive && s.user == user then multiset(db.sessions)[s] else 0
    ensures forall s | s in ListedSessions(db, user) :: s in db.sessions && s.isActive && s.user == user
    ensures forall s | s in db.sessions && s.isActive && s.user == user :: s in ListedSessions(db, user)
  {
    var active := ActiveOf(db.sessions, user);
    ByRecencyFacts(active);
    forall s | s in ListedSessions(db, user) ensures s in active {
      assert s in multiset(ListedSessions(db, user));
    }
    forall s | s in active ensures s in ListedSessions(db, user) {
      assert s in multiset(active);
    }
  }

  /** Each entry shows its row: id, stored login method, address and both
      timestamps as they are, the user agent as its first 100 characters,
      and `is_current` set exactly when the row's key is the given one. */
  lemma ViewsShowRows(ss: seq<UserSession>, key: string)
    ensures var views := SessionViews(ss, key);
            && |views| == |ss|
            && forall i | 0 <= i < |ss| :: ShowsRow(views[i], ss[i], key)
  {
  }

  /** The list entry `v` shows the row `s` to a client holding `key`. */
  predicate ShowsRow(v: SessionView, s: UserSession, key: string) {
    && v.id == s.id
    && v.loginMethod == LoginMethodValue(s.loginMethod)
    && v.ipAddress == s.ipAddress
    && v.userAgent == s.userAgent[..if |s.userAgent| <= 100 then |s.userAgent| else 100]
    && v.createdAt == s.createdAt && v.lastActivity == s.lastActivity
    && (v.isCurrent <==> s.sessionKey == key)
  }

  /** The list shows the caller's active rows, each as often as in the table
      and newest activity first, one entry per row showing that row, with
      `is_current` set exactly on the client's own key. */
  lemma SessionListEntries(db: Db, caller: string, client: Client)
    requires caller in db.users
    ensures ListSessionsFlow(db, Some(caller), client).SessionList?
    ensures var views := ListSessionsFlow(db, Some(caller), client).sessions;
            var rows := ListedSessions(db, caller);
            && |views| == |rows|
            && (forall i | 0 <= i < |views| ::
                  && rows[i] in db.sessions && rows[i].isActive && rows[i].user == caller
                  && ShowsRow(views[i], rows[i], SessionKey(client)))
            && (forall s :: multiset(rows)[s] == if s.isActive && s.user == caller then multiset(db.sessions)[s] else 0)
            && (forall i, j | 0 <= i < j < |views| :: views[i].lastActivity >= views[j].lastActivity)
  {
    var rows := ListedSessions(db, caller);
    ListedSessionsAreActiveAndNewestFirst(db, caller);
    ViewsShowRows(rows, SessionKey(client));
    var views := SessionViews(rows, SessionKey(client));
    assert ListSessionsFlow(db, Some(caller), client) == SessionList(views);
    forall i | 0 <= i < |views| ensures rows[i] in db.sessions && rows[i].isActive && rows[i].user == caller {
      assert rows[i] in rows;
    }
  }

  /** After a logout the caller's list has no entry for the current key. */
  lemma LoggedOutSessionNotListed(db: Db, caller: string, client: Client)
    requires caller in db.users
    ensures var db1 := LogoutFlow(db, Some(caller), client).0;
            var views := ListSessionsFlow(db1, Some(caller), client).sessions;
            forall i | 0 <= i < |views| :: !views[i].isCurrent
  {
    var db1 := LogoutFlow(db, Some(caller), client).0;
    SessionListEntries(db1, caller, client);
    forall s | s in db1.sessions && s.isActive && s.user == caller ensures s.sessionKey != SessionKey(client) {
      var i :| 0 <= i < |db1.sessions| && db1.sessions[i] == s;
    }
  }
}
