/** The computed columns and permission overrides of user_management/admin.py. */
module Admin {
  import Text
  import Models
  import Utils

  /** `name in user_agent.lower()`. */
  predicate Named(userAgent: string, name: string) {
    Text.Contains(Text.Lower(userAgent), name)
  }

  /** `UserSessionAdmin.browser_info`: the first of chrome, firefox, safari and
      edge that occurs in the lower-cased user agent, else "Unknown". */
  function BrowserInfo(userAgent: string): (browser: string)
    ensures Named(userAgent, "chrome") ==> browser == "Chrome"
    ensures !Named(userAgent, "chrome") && Named(userAgent, "firefox") ==> browser == "Firefox"
    ensures !Named(userAgent, "chrome") && !Named(userAgent, "firefox") && Named(userAgent, "safari")
            ==> browser == "Safari"
    ensures !Named(userAgent, "chrome") && !Named(userAgent, "firefox") && !Named(userAgent, "safari")
            && Named(userAgent, "edge")
            ==> browser == "Edge"
    ensures browser == "Unknown" <==>
              !Named(userAgent, "chrome") && !Named(userAgent, "firefox")
              && !Named(userAgent, "safari") && !Named(userAgent, "edge")
  {
    var ua := Text.Lower(userAgent);
    if Text.Contains(ua, "chrome") then "Chrome"
    else if Text.Contains(ua, "firefox") then "Firefox"
    else if Text.Contains(ua, "safari") then "Safari"
    else if Text.Contains(ua, "edge") then "Edge"
    else "Unknown"
  }

  /** A user agent naming Chrome together with Safari or Edge is listed as
      Chrome, whatever the order of the names and their case. */
  lemma ChromeTakesPrecedence(userAgent: string)
    requires Named(userAgent, "chrome")
    requires Named(userAgent, "safari") || Named(userAgent, "edge")
    ensures BrowserInfo(userAgent) == "Chrome"
  {
  }

  /** For an ASCII user agent, when the admin lists a session's browser as
      "Unknown", parse_user_agent finds no browser either: each of its
      patterns begins with one of the four names followed by "/". The
      restriction to ASCII is there because the model folds case on ASCII
      letters only, while Python's `lower()` and `re.IGNORECASE` fold other
      letters as well, and not always alike. */
  lemma UnknownToAdminIsUnknownToParser(userAgent: string)
    requires forall k | 0 <= k < |userAgent| :: userAgent[k] < 128 as char
    requires BrowserInfo(userAgent) == "Unknown"
    ensures Utils.IsFirstMatch(Utils.Browsers, userAgent, Utils.Unknown)
  {
    var names := ["chrome", "firefox", "safari", "edge"];
    forall j | 0 <= j < |Utils.Browsers|
      ensures !Utils.Matches(userAgent, Utils.Browsers[j].pattern)
    {
      var p := Utils.Browsers[j].pattern;
      assert names[j] <= p.literal && !Named(userAgent, names[j]) by {
        if j == 0 { } else if j == 1 { } else if j == 2 { } else { }
      }
      if Utils.Matches(userAgent, p) {
        var ua := Text.Lower(userAgent);
        var i :| 0 <= i <= |ua| && Utils.MatchesAt(ua, p, i);
        PrefixOccurs(ua, p.literal, names[j], i);
      }
    }
  }

  lemma PrefixOccurs(s: string, literal: string, prefix: string, i: int)
    requires prefix <= literal && Text.OccursAt(s, literal, i)
    ensures Text.Contains(s, prefix)
  {
    assert s[i..i + |prefix|] == literal[..|prefix|];
    assert Text.OccursAt(s, prefix, i);
  }

  /** `UserAdmin.full_name`: the user's full name, or "-" when it is empty. */
  function AdminFullName(u: Models.User): (shown: string)
    ensures shown != ""
    ensures shown == "-" <==> Models.FullName(u) == "" || Models.FullName(u) == "-"
    ensures shown != "-" ==> shown == Models.FullName(u)
  {
    var name := Models.FullName(u);
    if name == "" then "-" else name
  }

  /** The admin shows "-" exactly for users whose names are blank and whose
      username is empty (or is "-" itself). */
  lemma AdminShowsDashForNamelessUser(u: Models.User)
    requires Text.AllSpace(u.firstName) && Text.AllSpace(u.lastName) && u.username == ""
    ensures AdminFullName(u) == "-"
  {
  }

  /** `MagicLinkAdmin.has_add_permission`: links are never created by hand. */
  function MagicLinkAdminHasAddPermission(): (allowed: bool)
    ensures !allowed
  {
    false
  }

  /** `UserSessionAdmin.has_add_permission`: sessions are never created by hand. */
  function UserSessionAdminHasAddPermission(): (allowed: bool)
    ensures !allowed
  {
    false
  }
}
