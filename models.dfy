/** The three tables of user_management/models.py as row values: User,
    MagicLink (with its validity predicate and single-use transition) and
    UserSession. Time is an integer number of seconds. */
module Models {
  import opened Wrappers
  import Text

  /** The `choices` of UserSession.login_method. */
  datatype LoginMethod = MagicLinkLogin | GoogleOAuth | PasswordLogin

  /** The stored value of each choice. */
  function LoginMethodValue(m: LoginMethod): (v: string)
    ensures v == "magic_link" || v == "google_oauth" || v == "password"
  {
    match m
    case MagicLinkLogin => "magic_link"
    case GoogleOAuth => "google_oauth"
    case PasswordLogin => "password"
  }

  lemma LoginMethodValueInjective(a: LoginMethod, b: LoginMethod)
    requires LoginMethodValue(a) == LoginMethodValue(b)
    ensures a == b
  {
  }

  /** A row of `users`; `email` is the identity (USERNAME_FIELD) and unique,
      `username` is unique (inherited from AbstractUser), `googleId` is unique
      when not null. */
  datatype User = User(
    id: nat,
    username: string,
    email: string,
    firstName: string,
    lastName: string,
    googleId: Option<string>,
    avatarUrl: Option<string>,
    isEmailVerified: bool)

  /** `User.full_name`: first and last name joined by a space with the
      surrounding whitespace stripped, or the username when that leaves nothing. */
  function FullName(u: User): (r: string)
    ensures Text.AllSpace(u.firstName) && Text.AllSpace(u.lastName) ==> r == u.username
    ensures !(Text.AllSpace(u.firstName) && Text.AllSpace(u.lastName)) ==>
              r != [] && !Text.IsSpace(r[0]) && !Text.IsSpace(r[|r| - 1])
              && Text.StripsTo(u.firstName + " " + u.lastName, r,
                               |u.firstName + " " + u.lastName| - |Text.TrimStart(u.firstName + " " + u.lastName)|)
  {
    var joined := u.firstName + " " + u.lastName;
    var stripped := Text.Strip(joined);
    JoinedAllSpace(u.firstName, u.lastName);
    if stripped == "" then u.username else stripped
  }

  lemma {:induction false} JoinedAllSpace(a: string, b: string)
    ensures Text.AllSpace(a + " " + b) <==> Text.AllSpace(a) && Text.AllSpace(b)
  {
    var j := a + " " + b;
    assert forall k | 0 <= k < |a| :: j[k] == a[k];
    assert forall k | 0 <= k < |b| :: j[|a| + 1 + k] == b[k];
    assert j[|a|] == ' ';
    if Text.AllSpace(a) && Text.AllSpace(b) {
      forall k | 0 <= k < |j| ensures Text.IsSpace(j[k]) {
        if k > |a| {
          assert j[k] == b[k - |a| - 1];
        }
      }
    }
  }

  /** `string.ascii_lowercase`, `string.ascii_uppercase` and `string.digits`. */
  const AsciiLowercase: string := seq(26, i requires 0 <= i < 26 => ('a' as int + i) as char)
  const AsciiUppercase: string := seq(26, i requires 0 <= i < 26 => ('A' as int + i) as char)
  const Digits: string := seq(10, i requires 0 <= i < 10 => ('0' as int + i) as char)

  /** `string.ascii_letters + string.digits`, the alphabet of generate_token. */
  const Alphabet: string := AsciiLowercase + AsciiUppercase + Digits

  const TokenLength: nat := 64

  predicate IsAsciiAlnum(c: char) {
    ('a' <= c <= 'z') || ('A' <= c <= 'Z') || ('0' <= c <= '9')
  }

  /** The shape every generated token has: 64 ASCII letters or digits. */
  predicate IsTokenShape(t: string) {
    |t| == TokenLength && forall k | 0 <= k < |t| :: IsAsciiAlnum(t[k])
  }

  /** The outcome of calling `secrets.choice(alphabet)` 64 times, as the indices chosen. */
  predicate IsDraw(draw: seq<nat>) {
    |draw| == TokenLength && forall k | 0 <= k < |draw| :: draw[k] < 62
  }

  /** `MagicLink.generate_token`, with the random choices passed in: the
      k-th character is the alphabet letter drawn k-th. */
  function GenerateToken(draw: seq<nat>): (t: string)
    requires IsDraw(draw)
  {
    seq(TokenLength, k requires 0 <= k < TokenLength => Alphabet[draw[k]])
  }

  /** A generated token has exactly 64 characters, each an ASCII letter or digit. */
  lemma GeneratedTokenShape(draw: seq<nat>)
    requires IsDraw(draw)
    ensures IsTokenShape(GenerateToken(draw))
  {
    AlphabetIsAlnum();
    var t := GenerateToken(draw);
    forall k | 0 <= k < |t| ensures IsAsciiAlnum(t[k]) {
      assert t[k] == Alphabet[draw[k]];
    }
  }

  lemma AlphabetIsAlnum()
    ensures |Alphabet| == 62
    ensures forall i | 0 <= i < |Alphabet| :: IsAsciiAlnum(Alphabet[i])
  {
    forall i | 0 <= i < |Alphabet| ensures IsAsciiAlnum(Alphabet[i]) {
      AlphabetAt(i);
    }
  }

  lemma AlphabetAt(i: nat)
    requires i < |Alphabet|
    ensures i < 26 ==> Alphabet[i] == ('a' as int + i) as char
    ensures 26 <= i < 52 ==> Alphabet[i] == ('A' as int + i - 26) as char
    ensures 52 <= i ==> Alphabet[i] == ('0' as int + i - 52) as char
  {
    assert Alphabet == AsciiLowercase + AsciiUppercase + Digits;
    if i < 26 {
      assert Alphabet[i] == AsciiLowercase[i];
    } else if i < 52 {
      assert Alphabet[i] == AsciiUppercase[i - 26];
    } else {
      assert Alphabet[i] == Digits[i - 52];
    }
  }

  /** Position of an alphanumeric character in the alphabet. */
  function AlphabetIndex(c: char): nat {
    if 'a' <= c <= 'z' then c as int - 'a' as int
    else if 'A' <= c <= 'Z' then 26 + (c as int - 'A' as int)
    else 52 + (c as int - '0' as int)
  }

  lemma AlphabetIndexInverse(c: char)
    requires IsAsciiAlnum(c)
    ensures AlphabetIndex(c) < |Alphabet| && Alphabet[AlphabetIndex(c)] == c
  {
    AlphabetAt(AlphabetIndex(c));
  }

  /** Every string of the token shape is the outcome of some draw, so the
      generator can produce each of them. */
  lemma EveryTokenShapeIsGenerated(t: string)
    requires IsTokenShape(t)
    ensures exists draw :: IsDraw(draw) && GenerateToken(draw) == t
  {
    var draw := seq(TokenLength, k requires 0 <= k < TokenLength => AlphabetIndex(t[k]));
    forall k | 0 <= k < TokenLength ensures draw[k] < 62 && Alphabet[draw[k]] == t[k] {
      AlphabetIndexInverse(t[k]);
    }
    assert IsDraw(draw);
    assert GenerateToken(draw) == t;
  }

  /** A row of `magic_links`; `user` refers to the owning user by its email. */
  datatype MagicLink = MagicLink(
    user: string,
    token: string,
    email: string,
    isSignup: bool,
    isUsed: bool,
    expiresAt: int,
    createdAt: int,
    usedAt: Option<int>)

  /** `MagicLink.is_valid` at time `now`. */
  predicate IsValid(link: MagicLink, now: int) {
    !link.isUsed && now < link.expiresAt
  }

  /** The row `mark_as_used` saves: used, stamped with `now`, otherwise unchanged. */
  function MarkedUsed(link: MagicLink, now: int): (r: MagicLink)
    ensures r.isUsed && r.usedAt == Some(now)
    ensures r.user == link.user && r.token == link.token && r.email == link.email
    ensures r.isSignup == link.isSignup && r.expiresAt == link.expiresAt
    ensures r.createdAt == link.createdAt
  {
    link.(isUsed := true, usedAt := Some(now))
  }

  /** Once used, a link is never valid again, at any time, and stays used
      however often it is marked again. */
  lemma UsedLinkNeverValid(link: MagicLink, now: int, later: int)
    ensures !IsValid(MarkedUsed(link, now), later)
    ensures MarkedUsed(MarkedUsed(link, now), later).isUsed
  {
  }

  /** A row of `user_sessions`; `user` refers to the owning user by its email. */
  datatype UserSession = UserSession(
    id: nat,
    user: string,
    sessionKey: string,
    ipAddress: string,
    userAgent: string,
    loginMethod: LoginMethod,
    createdAt: int,
    lastActivity: int,
    isActive: bool)
}
