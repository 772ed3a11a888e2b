/** The request helpers of user_management/utils.py. The request is reduced to
    the header values the helpers read; `urlparse` is reduced to the scheme and
    network location it reports. */
module Utils {
  import opened Wrappers
  import Text

  /** `get_client_ip`: with a non-empty X-Forwarded-For header, the text before
      its first comma; otherwise REMOTE_ADDR, which may be absent. */
  function ClientIp(forwardedFor: Option<string>, remoteAddr: Option<string>): (ip: Option<string>)
    ensures forwardedFor.Some? && forwardedFor.value != "" ==>
              ip.Some? && ip.value <= forwardedFor.value && ',' !in ip.value
              && (|ip.value| < |forwardedFor.value| ==> forwardedFor.value[|ip.value|] == ',')
    ensures !(forwardedFor.Some? && forwardedFor.value != "") ==> ip == remoteAddr
  {
    if forwardedFor.Some? && forwardedFor.value != "" then Some(Text.Before(forwardedFor.value, ','))
    else remoteAddr
  }

  const MaxUserAgentLength: nat := 500

  /** `get_user_agent`: a prefix of the User-Agent header of at most 500
      characters, "" when the header is absent. */
  function UserAgent(header: Option<string>): (ua: string)
    ensures header.None? ==> ua == ""
    ensures header.Some? ==> ua <= header.value
    ensures header.Some? ==> |ua| == if |header.value| <= MaxUserAgentLength then |header.value| else MaxUserAgentLength
  {
    Text.Truncate(header.GetOr(""), MaxUserAgentLength)
  }

  /** What a pattern demands of the character after its literal part:
      nothing, or a character of `[\d.]`, `[\d._]` or `[\d_]`. */
  datatype Follow = Nothing | DigitOrDot | DigitDotOrUnderscore | DigitOrUnderscore

  predicate Allows(f: Follow, c: char) {
    match f
    case Nothing => true
    case DigitOrDot => Text.IsDigit(c) || c == '.'
    case DigitDotOrUnderscore => Text.IsDigit(c) || c == '.' || c == '_'
    case DigitOrUnderscore => Text.IsDigit(c) || c == '_'
  }

  /** A pattern of the form `literal` or `literal[class]+`, literal in lower case. */
  datatype Pattern = Pattern(literal: string, follow: Follow)

  predicate MatchesAt(s: string, p: Pattern, i: int) {
    Text.OccursAt(s, p.literal, i)
    && (p.follow.Nothing? || (i + |p.literal| < |s| && Allows(p.follow, s[i + |p.literal|])))
  }

  /** `re.search(pattern, text, re.I)` for such a pattern, on the lower-cased text. */
  predicate Occurs(lowered: string, p: Pattern) {
    exists i | 0 <= i <= |lowered| :: MatchesAt(lowered, p, i)
  }

  predicate Matches(text: string, p: Pattern) {
    Occurs(Text.Lower(text), p)
  }

  datatype Entry = Entry(name: string, pattern: Pattern)

  /** The browser table, in its iteration order. */
  const Browsers: seq<Entry> := [
    Entry("Chrome", Pattern("chrome/", DigitOrDot)),
    Entry("Firefox", Pattern("firefox/", DigitOrDot)),
    Entry("Safari", Pattern("safari/", DigitOrDot)),
    Entry("Edge", Pattern("edge/", DigitOrDot))
  ]

  /** The operating-system table, in its iteration order. */
  const OperatingSystems: seq<Entry> := [
    Entry("Windows", Pattern("windows nt ", DigitOrDot)),
    Entry("macOS", Pattern("mac os x ", DigitDotOrUnderscore)),
    Entry("Linux", Pattern("linux", Nothing)),
    Entry("Android", Pattern("android ", DigitOrDot)),
    Entry("iOS", Pattern("os ", DigitOrUnderscore))
  ]

  const Unknown: string := "Unknown"

  /** `name` is the first entry of `table` whose pattern occurs in `text`,
      or "Unknown" when none does. */
  ghost predicate IsFirstMatch(table: seq<Entry>, text: string, name: string) {
    (name == Unknown && forall j | 0 <= j < |table| :: !Matches(text, table[j].pattern))
    || exists i | 0 <= i < |table| ::
         name == table[i].name && Matches(text, table[i].pattern)
         && forall j | 0 <= j < i :: !Matches(text, table[j].pattern)
  }

  /** One of the two loops of parse_user_agent: scan the table, stop at the
      first pattern that occurs. */
  method FirstMatch(table: seq<Entry>, text: string) returns (name: string)
    ensures IsFirstMatch(table, text, name)
  {
    var lowered := Text.Lower(text);
    name := Unknown;
    var i := 0;
    while i < |table|
      invariant 0 <= i <= |table|
      invariant name == Unknown
      invariant forall j | 0 <= j < i :: !Matches(text, table[j].pattern)
    {
      if Occurs(lowered, table[i].pattern) {
        name := table[i].name;
        break;
      }
      i := i + 1;
    }
  }

  /** `parse_user_agent`: the first browser and the first operating system
      whose pattern occurs, each "Unknown" when none does. */
  method ParseUserAgent(userAgent: string) returns (browser: string, os: string)
    ensures IsFirstMatch(Browsers, userAgent, browser)
    ensures IsFirstMatch(OperatingSystems, userAgent, os)
  {
    browser := FirstMatch(Browsers, userAgent);
    os := FirstMatch(OperatingSystems, userAgent);
  }

  /** The k-th name generate_username_from_email tries: the base, then the
      base followed by 1, 2, ... */
  function Candidate(base: string, k: nat): string {
    if k == 0 then base else base + Text.NatToString(k)
  }

  lemma CandidateInjective(base: string, j: nat, k: nat)
    requires Candidate(base, j) == Candidate(base, k)
    ensures j == k
  {
    if j != 0 && k != 0 {
      assert Text.NatToString(j) == Candidate(base, j)[|base|..];
      assert Text.NatToString(k) == Candidate(base, k)[|base|..];
      Text.NatToStringInjective(j, k);
    }
  }

  lemma {:induction false} CandidatesCount(base: string, n: nat)
    ensures |set k | 0 <= k < n :: Candidate(base, k)| == n
  {
    if n > 0 {
      var prev := set k | 0 <= k < n - 1 :: Candidate(base, k);
      var all := set k | 0 <= k < n :: Candidate(base, k);
      assert all == prev + {Candidate(base, n - 1)};
      if Candidate(base, n - 1) in prev {
        var k :| 0 <= k < n - 1 && Candidate(base, k) == Candidate(base, n - 1);
        CandidateInjective(base, k, n - 1);
      }
      CandidatesCount(base, n - 1);
    }
  }

  /** If the first n candidates are all taken, there are at least n taken names. */
  lemma TakenBound(base: string, n: nat, taken: set<string>)
    requires forall j | 0 <= j < n :: Candidate(base, j) in taken
    ensures n <= |taken|
  {
    var tried := set k | 0 <= k < n :: Candidate(base, k);
    CandidatesCount(base, n);
    assert tried <= taken;
    assert |tried| <= |taken| by {
      SubsetCardinality(tried, taken);
    }
  }

  lemma SubsetCardinality<T>(a: set<T>, b: set<T>)
    requires a <= b
    ensures |a| <= |b|
  {
    assert b == a + (b - a);
  }

  /** `generate_username_from_email`: the local part of the address if it is
      free, else the local part followed by the smallest k >= 1 for which
      that name is free. `taken` is the set of usernames in use. */
  method GenerateUsername(email: string, taken: set<string>) returns (username: string)
    ensures username !in taken
    ensures exists k: nat :: username == Candidate(Text.Before(email, '@'), k)
              && forall j | 0 <= j < k :: Candidate(Text.Before(email, '@'), j) in taken
  {
    var base := Text.Before(email, '@');
    username := base;
    var counter: nat := 1;
    while username in taken
      invariant username == Candidate(base, counter - 1)
      invariant forall j | 0 <= j < counter - 1 :: Candidate(base, j) in taken
      decreases |taken| - (counter - 1)
    {
      TakenBound(base, counter, taken);
      username := base + Text.NatToString(counter);
      counter := counter + 1;
    }
  }

  /** A pair of what `urlparse` reports. */
  datatype UrlParts = UrlParts(scheme: string, netloc: string)

  /** `sanitize_redirect_url`: the URL itself when it is non-empty, uses http
      or https and, if an allow-list is given, its host is on it; otherwise
      None. An absent allow-list and an empty one both mean "any host". */
  function SanitizeRedirect(url: string, parsed: UrlParts, allowedDomains: seq<string>): (r: Option<string>)
    ensures r.Some? <==> url != "" && (parsed.scheme == "http" || parsed.scheme == "https")
                         && (allowedDomains == [] || parsed.netloc in allowedDomains)
    ensures r.Some? ==> r.value == url
  {
    if url == "" then None
    else if parsed.scheme != "http" && parsed.scheme != "https" then None
    else if allowedDomains != [] && parsed.netloc !in allowedDomains then None
    else Some(url)
  }
}
