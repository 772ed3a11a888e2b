/** The three tables the handlers of user_management/views.py read and write,
    as one value, with the constraints the database enforces on them and the
    row operations the handlers issue (create, save, bulk update). A create
    that would break a unique constraint fails and changes nothing. */
module Store {
  import opened Wrappers
  import opened Models

  /** A message handed to the mail service. */
  datatype Mail = Mail(recipient: string, subject: string, url: string)

  /** The tables, the mail log and the next primary keys. */
  datatype Db = Db(
    users: map<string, User>,
    links: map<string, MagicLink>,
    sessions: seq<UserSession>,
    outbox: seq<Mail>,
    nextUserId: nat,
    nextSessionId: nat)

  const EmptyDb: Db := Db(map[], map[], [], [], 0, 0)

  /** Users are keyed by their email; ids, usernames and non-null Google ids are unique. */
  ghost predicate UsersValid(users: map<string, User>, nextUserId: nat) {
    && (forall e | e in users :: users[e].email == e && users[e].id < nextUserId)
    && (forall e1, e2 | e1 in users && e2 in users && users[e1].id == users[e2].id :: e1 == e2)
    && (forall e1, e2 | e1 in users && e2 in users && users[e1].username == users[e2].username :: e1 == e2)
    && (forall e1, e2 | e1 in users && e2 in users && users[e1].googleId.Some?
          && users[e1].googleId == users[e2].googleId :: e1 == e2)
  }

  /** Links are keyed by their token, which has the generated shape; each
      belongs to a user; `used_at` is set exactly when the link is used. */
  ghost predicate LinksValid(links: map<string, MagicLink>, users: map<string, User>) {
    forall t | t in links ::
      && links[t].token == t
      && IsTokenShape(t)
      && links[t].user in users
      && (links[t].isUsed <==> links[t].usedAt.Some?)
  }

  /** Sessions are in creation order with increasing ids; each belongs to a
      user; at most one exists per (user, session key). */
  ghost predicate SessionsValid(sessions: seq<UserSession>, users: map<string, User>, nextSessionId: nat) {
    && (forall i | 0 <= i < |sessions| :: sessions[i].user in users && sessions[i].id < nextSessionId)
    && (forall i, j | 0 <= i < j < |sessions| :: sessions[i].id < sessions[j].id)
    && (forall i, j | 0 <= i < j < |sessions| ::
          sessions[i].user != sessions[j].user || sessions[i].sessionKey != sessions[j].sessionKey)
  }

  ghost predicate Valid(db: Db) {
    && UsersValid(db.users, db.nextUserId)
    && LinksValid(db.links, db.users)
    && SessionsValid(db.sessions, db.users, db.nextSessionId)
  }

  lemma EmptyDbValid()
    ensures Valid(EmptyDb)
  {
  }

  predicate UsernameTaken(users: map<string, User>, name: string) {
    exists e | e in users :: users[e].username == name
  }

  /** A user other than the one with `email` already has this non-null Google id. */
  predicate GoogleIdHeldByOther(users: map<string, User>, googleId: Option<string>, email: string) {
    googleId.Some? && exists e | e in users && e != email :: users[e].googleId == googleId
  }

  predicate HasSession(sessions: seq<UserSession>, user: string, key: string) {
    exists i | 0 <= i < |sessions| :: sessions[i].user == user && sessions[i].sessionKey == key
  }

  /** `User.objects.create` for an email that has no user yet: the next id is
      assigned; a username or Google id in use makes it fail. */
  function InsertUser(db: Db, email: string, username: string, firstName: string, lastName: string,
                      googleId: Option<string>, avatarUrl: Option<string>, verified: bool): (r: Option<Db>)
    requires email !in db.users
    ensures r.Some? <==> !UsernameTaken(db.users, username) && !GoogleIdHeldByOther(db.users, googleId, email)
    ensures r.Some? ==> r.value == db.(users := db.users[email := User(db.nextUserId, username, email,
                                         firstName, lastName, googleId, avatarUrl, verified)],
                                       nextUserId := db.nextUserId + 1)
  {
    if UsernameTaken(db.users, username) || GoogleIdHeldByOther(db.users, googleId, email) then None
    else Some(db.(users := db.users[email := User(db.nextUserId, username, email, firstName, lastName,
                                                  googleId, avatarUrl, verified)],
                  nextUserId := db.nextUserId + 1))
  }

  lemma InsertUserKeepsValid(db: Db, email: string, username: string, firstName: string, lastName: string,
                             googleId: Option<string>, avatarUrl: Option<string>, verified: bool)
    requires Valid(db) && email !in db.users
    requires InsertUser(db, email, username, firstName, lastName, googleId, avatarUrl, verified).Some?
    ensures Valid(InsertUser(db, email, username, firstName, lastName, googleId, avatarUrl, verified).value)
  {
  }

  /** `user.save()` for the existing user stored under `email`, keeping its
      email and username: a Google id held by another user makes it fail. */
  function SaveUser(db: Db, email: string, u: User): (r: Option<Db>)
    requires email in db.users
    ensures r.Some? <==> !GoogleIdHeldByOther(db.users, u.googleId, email)
    ensures r.Some? ==> r.value == db.(users := db.users[email := u])
  {
    if GoogleIdHeldByOther(db.users, u.googleId, email) then None
    else Some(db.(users := db.users[email := u]))
  }

  lemma SaveUserKeepsValid(db: Db, email: string, u: User)
    requires Valid(db) && email in db.users && u.email == email
    requires u.id == db.users[email].id && u.username == db.users[email].username
    requires SaveUser(db, email, u).Some?
    ensures Valid(SaveUser(db, email, u).value)
  {
  }

  /** The save that marks a user's email verified; it touches no unique column. */
  function MarkVerified(db: Db, email: string): (r: Db)
    requires email in db.users
    ensures r.users == db.users[email := db.users[email].(isEmailVerified := true)]
    ensures r.links == db.links && r.sessions == db.sessions && r.outbox == db.outbox
    ensures r.nextUserId == db.nextUserId && r.nextSessionId == db.nextSessionId
  {
    db.(users := db.users[email := db.users[email].(isEmailVerified := true)])
  }

  lemma MarkVerifiedKeepsValid(db: Db, email: string)
    requires Valid(db) && email in db.users
    ensures Valid(MarkVerified(db, email))
  {
  }

  /** `MagicLink.objects.create`: a token already stored makes it fail. */
  function InsertLink(db: Db, link: MagicLink): (r: Option<Db>)
    ensures r.Some? <==> link.token !in db.links
    ensures r.Some? ==> r.value == db.(links := db.links[link.token := link])
  {
    if link.token in db.links then None else Some(db.(links := db.links[link.token := link]))
  }

  lemma InsertLinkKeepsValid(db: Db, link: MagicLink)
    requires Valid(db) && link.token !in db.links
    requires IsTokenShape(link.token) && link.user in db.users
    requires !link.isUsed && link.usedAt.None?
    ensures Valid(InsertLink(db, link).value)
  {
  }

  /** The save in `mark_as_used`. */
  function SaveUsedLink(db: Db, token: string, now: int): (r: Db)
    requires token in db.links
    ensures r.links == db.links[token := MarkedUsed(db.links[token], now)]
    ensures r.users == db.users && r.sessions == db.sessions && r.outbox == db.outbox
    ensures r.nextUserId == db.nextUserId && r.nextSessionId == db.nextSessionId
  {
    db.(links := db.links[token := MarkedUsed(db.links[token], now)])
  }

  lemma SaveUsedLinkKeepsValid(db: Db, token: string, now: int)
    requires Valid(db) && token in db.links
    ensures Valid(SaveUsedLink(db, token, now))
  {
  }

  /** A client address the `ip_address` column accepts: the field saves an
      empty address as NULL, and the column is not nullable. */
  predicate StorableIp(ip: Option<string>) {
    ip.Some? && ip.value != ""
  }

  /** `UserSession.objects.create`: the row is active with both timestamps at
      `now`; an existing row for the same (user, key), or a missing or empty
      client address, makes it fail. */
  function InsertSession(db: Db, user: string, key: string, ip: Option<string>, userAgent: string,
                         loginMethod: LoginMethod, now: int): (r: Option<Db>)
    ensures r.Some? <==> StorableIp(ip) && !HasSession(db.sessions, user, key)
    ensures r.Some? ==> r.value == db.(sessions := db.sessions + [UserSession(db.nextSessionId, user, key,
                                         ip.value, userAgent, loginMethod, now, now, true)],
                                       nextSessionId := db.nextSessionId + 1)
  {
    if ip.None? || ip.value == "" || HasSession(db.sessions, user, key) then None
    else Some(db.(sessions := db.sessions + [UserSession(db.nextSessionId, user, key, ip.value, userAgent,
                                                         loginMethod, now, now, true)],
                  nextSessionId := db.nextSessionId + 1))
  }

  lemma InsertSessionKeepsValid(db: Db, user: string, key: string, ip: Option<string>, userAgent: string,
                                loginMethod: LoginMethod, now: int)
    requires Valid(db) && user in db.users
    requires InsertSession(db, user, key, ip, userAgent, loginMethod, now).Some?
    ensures Valid(InsertSession(db, user, key, ip, userAgent, loginMethod, now).value)
  {
    var db' := InsertSession(db, user, key, ip, userAgent, loginMethod, now).value;
    var s := db'.sessions;
    var n := |db.sessions|;
    assert SessionsValid(s, db'.users, db'.nextSessionId) by {
      forall i, j | 0 <= i < j < |s| ensures s[i].user != s[j].user || s[i].sessionKey != s[j].sessionKey {
        if j == n {
          assert s[i] == db.sessions[i];
        }
      }
    }
  }

  /** `.filter(user=..., session_key=...).update(is_active=False)`: every row
      of that user with that key becomes inactive; no other row, and no other
      column, changes. */
  function Deactivate(sessions: seq<UserSession>, user: string, key: string): (r: seq<UserSession>)
    ensures |r| == |sessions|
    ensures forall i | 0 <= i < |r| ::
              r[i] == if sessions[i].user == user && sessions[i].sessionKey == key
                      then sessions[i].(isActive := false) else sessions[i]
  {
    if sessions == [] then []
    else
      var s := sessions[0];
      [if s.user == user && s.sessionKey == key then s.(isActive := false) else s]
      + Deactivate(sessions[1..], user, key)
  }

  lemma DeactivateKeepsValid(db: Db, user: string, key: string)
    requires Valid(db)
    ensures Valid(db.(sessions := Deactivate(db.sessions, user, key)))
  {
    var r := Deactivate(db.sessions, user, key);
    assert forall i | 0 <= i < |r| ::
             r[i].id == db.sessions[i].id && r[i].user == db.sessions[i].user
             && r[i].sessionKey == db.sessions[i].sessionKey;
  }

  /** Deactivating keeps every (user, key) pair of the table, so a key that was
      in use stays unavailable for a new session. */
  lemma DeactivateKeepsKeys(sessions: seq<UserSession>, user: string, key: string, u: string, k: string)
    ensures HasSession(Deactivate(sessions, user, key), u, k) <==> HasSession(sessions, u, k)
  {
    var r := Deactivate(sessions, user, key);
    if HasSession(sessions, u, k) {
      var i :| 0 <= i < |sessions| && sessions[i].user == u && sessions[i].sessionKey == k;
      assert r[i].user == u && r[i].sessionKey == k;
    }
    if HasSession(r, u, k) {
      var i :| 0 <= i < |r| && r[i].user == u && r[i].sessionKey == k;
      assert sessions[i].user == u && sessions[i].sessionKey == k;
    }
  }
}
