/** The request validators of user_management/serializers.py, together with the
    parts of the framework's field classes that decide what reaches them
    (CharField trimming and blank check, BooleanField parsing). Validators are
    pure: they read the tables and return a value or an error. */
module Serializers {
  import opened Wrappers
  import opened Models
  import Text

  /** A value as it arrives in the request body. */
  datatype Raw = Missing | Null | Bool(b: bool) | Int(i: int) | Str(s: string)

  datatype ValidationError =
    | Required
    | NotNull
    | Blank
    | NotAString
    | TooLong(limit: nat)
    | NullCharacters
    | NotABoolean
    | EmailTaken
    | NoAccount
    | InvalidLink
    | ExpiredOrUsed
    | AccessTokenRequired
    | UsernameTaken

  /** The text the API returns for each error. */
  function Message(e: ValidationError): string {
    match e
    case Required => "This field is required."
    case NotNull => "This field may not be null."
    case Blank => "This field may not be blank."
    case NotAString => "Not a valid string."
    case TooLong(n) => "Ensure this field has no more than " + Text.NatToString(n) + " characters."
    case NullCharacters => "Null characters are not allowed."
    case NotABoolean => "Must be a valid boolean."
    case EmailTaken => "An account with this email already exists. Try logging in instead."
    case NoAccount => "No account found with this email. Try signing up instead."
    case InvalidLink => "Invalid magic link."
    case ExpiredOrUsed => "This magic link has expired or been used."
    case AccessTokenRequired => "Access token is required."
    case UsernameTaken => "This username is already taken."
  }

  datatype FieldError = FieldError(field: string, error: ValidationError)

  /** Python truthiness of a body value, as `initial_data.get(name, False)` sees it. */
  predicate Truthy(v: Raw) {
    match v
    case Missing => false
    case Null => false
    case Bool(b) => b
    case Int(i) => i != 0
    case Str(s) => s != ""
  }

  /** A CharField with trimming on and blanks refused: the stripped text,
      which is never blank, within the length limit and free of NUL
      characters. A refused value carries every message the field reports:
      a missing, null, non-text or blank value its one message; otherwise
      the failing validators' messages, the length before the NUL check. */
  function CharField(v: Raw, maxLength: Option<nat>): (r: Result<string, seq<ValidationError>>)
    ensures v.Missing? ==> r == Failure([Required])
    ensures v.Null? ==> r == Failure([NotNull])
    ensures v.Bool? ==> r == Failure([NotAString])
    ensures v.Str? ==> r == CheckText(v.s, maxLength)
    ensures v.Str? ==> (r.Success? <==> !Text.AllSpace(v.s) && (maxLength.Some? ==> |Text.Strip(v.s)| <= maxLength.value)
                                        && '\0' !in Text.Strip(v.s))
    ensures v.Str? && r.Success? ==> r.value == Text.Strip(v.s)
    ensures r.Success? ==> r.value != "" && !Text.IsSpace(r.value[0]) && !Text.IsSpace(r.value[|r.value| - 1])
    ensures r.Success? ==> '\0' !in r.value
    ensures r.Success? && maxLength.Some? ==> |r.value| <= maxLength.value
    ensures r.Failure? ==> r.error != []
  {
    match v
    case Missing => Failure([Required])
    case Null => Failure([NotNull])
    case Bool(_) => Failure([NotAString])
    case Int(i) => CheckText(Text.IntToString(i), maxLength)
    case Str(s) => CheckText(s, maxLength)
  }

  /** The field's checks on text: the blank check on the stripped text, then
      the length and NUL-character validators, each adding its message. */
  function CheckText(s: string, maxLength: Option<nat>): (r: Result<string, seq<ValidationError>>)
    ensures Text.AllSpace(s) ==> r == Failure([Blank])
    ensures r.Success? <==> !Text.AllSpace(s) && (maxLength.Some? ==> |Text.Strip(s)| <= maxLength.value)
                            && '\0' !in Text.Strip(s)
    ensures r.Success? ==> r.value == Text.Strip(s)
    ensures r.Success? ==> r.value != "" && !Text.IsSpace(r.value[0]) && !Text.IsSpace(r.value[|r.value| - 1])
    ensures r.Success? ==> '\0' !in r.value
    ensures r.Success? && maxLength.Some? ==> |r.value| <= maxLength.value
    ensures r.Failure? ==> r.error != []
    ensures maxLength.Some? ==>
              (r.Failure? && TooLong(maxLength.value) in r.error
               <==> !Text.AllSpace(s) && |Text.Strip(s)| > maxLength.value)
    ensures r.Failure? && NullCharacters in r.error <==> !Text.AllSpace(s) && '\0' in Text.Strip(s)
  {
    var value := Text.Strip(s);
    if value == "" then Failure([Blank])
    else
      var errors := (if maxLength.Some? && |value| > maxLength.value then [TooLong(maxLength.value)] else [])
                    + (if '\0' in value then [NullCharacters] else []);
      if errors == [] then Success(value) else Failure(errors)
  }

  /** A validator's single error as the list of messages of its field. */
  function Single<T>(r: Result<T, ValidationError>): (r': Result<T, seq<ValidationError>>)
    ensures r.Success? <==> r'.Success?
    ensures r.Success? ==> r'.value == r.value
    ensures r.Failure? ==> r'.error == [r.error]
  {
    match r
    case Success(v) => Success(v)
    case Failure(e) => Failure([e])
  }

  /** The strings a BooleanField reads as true and as false. */
  const TrueStrings: set<string> := {"t", "T", "y", "Y", "yes", "Yes", "YES", "true", "True", "TRUE", "on", "On", "ON", "1"}
  const FalseStrings: set<string> := {"f", "F", "n", "N", "no", "No", "NO", "false", "False", "FALSE", "off", "Off", "OFF", "0"}

  /** `BooleanField(default=False)`: an absent value is false. */
  function BooleanField(v: Raw): (r: Result<bool, ValidationError>)
    ensures v.Missing? ==> r == Success(false)
    ensures r == Success(true) <==> v == Bool(true) || v == Int(1) || (v.Str? && v.s in TrueStrings)
    ensures r == Success(false) <==> v.Missing? || v == Bool(false) || v == Int(0) || (v.Str? && v.s in FalseStrings)
  {
    match v
    case Missing => Success(false)
    case Null => Failure(NotNull)
    case Bool(b) => Success(b)
    case Int(i) => if i == 1 then Success(true) else if i == 0 then Success(false) else Failure(NotABoolean)
    case Str(s) =>
      if s in TrueStrings then Success(true)
      else if s in FalseStrings then Success(false)
      else Failure(NotABoolean)
  }

  /** Every value the field reads as true is also truthy, so the signup rule
      is applied to every request the handler treats as a signup. */
  lemma ParsedTrueIsTruthy(v: Raw)
    requires BooleanField(v) == Success(true)
    ensures Truthy(v)
  {
    if v.Str? {
      assert v.s != "" by { assert "" !in TrueStrings; }
    }
  }

  /** The converse fails: the text "false" is parsed as false but is truthy,
      so the validator applies the signup rule to what the handler treats as
      a login. */
  lemma FalseTextIsTruthy()
    ensures BooleanField(Str("false")) == Success(false) && Truthy(Str("false"))
  {
  }

  /** `MagicLinkRequestSerializer.validate_email`: lower-cases the address; a
      signup must not match an account, a login must match one. Whether the
      request is a signup is read from the raw body value. */
  function ValidateEmail(users: map<string, User>, value: string, isSignup: Raw): (r: Result<string, ValidationError>)
    ensures r.Success? ==> r.value == Text.Lower(value)
    ensures Truthy(isSignup) ==> (r.Failure? <==> Text.Lower(value) in users)
    ensures !Truthy(isSignup) ==> (r.Failure? <==> Text.Lower(value) !in users)
    ensures r.Failure? ==> r.error == (if Truthy(isSignup) then EmailTaken else NoAccount)
  {
    var email := Text.Lower(value);
    if Truthy(isSignup) then
      if email in users then Failure(EmailTaken) else Success(email)
    else
      if email !in users then Failure(NoAccount) else Success(email)
  }

  /** The validated body of a link request; an absent redirect is "". */
  datatype LinkRequest = LinkRequest(email: string, isSignup: bool, redirectUrl: string)

  /** The messages of one field as entries of the serializer's errors, in order. */
  function Tagged(field: string, errors: seq<ValidationError>): (fe: seq<FieldError>)
    ensures |fe| == |errors|
    ensures forall k | 0 <= k < |fe| :: fe[k] == FieldError(field, errors[k])
  {
    if errors == [] then [] else [FieldError(field, errors[0])] + Tagged(field, errors[1..])
  }

  /** The entries a field contributes to the serializer's errors: one per message. */
  function FieldErrors<T>(field: string, r: Result<T, seq<ValidationError>>): seq<FieldError> {
    if r.Failure? then Tagged(field, r.error) else []
  }

  /** `MagicLinkRequestSerializer(data=...).is_valid()`: every field is checked,
      each failing field contributes its error. */
  function ValidateLinkRequest(users: map<string, User>, email: Raw, isSignup: Raw, redirectUrl: Raw)
    : (r: Result<LinkRequest, seq<FieldError>>)
    ensures r.Success? ==> CharField(email, None).Success?
                           && r.value.email == Text.Lower(CharField(email, None).value)
    ensures r.Success? ==> CharField(email, None).Success?
                           && ValidateEmail(users, CharField(email, None).value, isSignup) == Success(r.value.email)
    ensures r.Success? ==> BooleanField(isSignup) == Success(r.value.isSignup)
    ensures r.Success? && redirectUrl.Missing? ==> r.value.redirectUrl == ""
    ensures r.Failure? ==> r.error != []
  {
    var e := match CharField(email, None)
      case Failure(errs) => Failure(errs)
      case Success(v) => Single(ValidateEmail(users, v, isSignup));
    var b := Single(BooleanField(isSignup));
    var u := if redirectUrl.Missing? then Success("") else CharField(redirectUrl, None);
    var errors := FieldErrors("email", e) + FieldErrors("is_signup", b) + FieldErrors("redirect_url", u);
    if errors == [] then Success(LinkRequest(e.value, b.value, u.value)) else Failure(errors)
  }

  /** A signup for an address that already has an account is refused. */
  lemma SignupForExistingEmailRejected(users: map<string, User>, email: Raw, isSignup: Raw, redirectUrl: Raw)
    requires Truthy(isSignup)
    requires CharField(email, None).Success? && Text.Lower(CharField(email, None).value) in users
    ensures FieldError("email", EmailTaken) in ValidateLinkRequest(users, email, isSignup, redirectUrl).error
  {
  }

  /** A login for an address without an account is refused. */
  lemma LoginForUnknownEmailRejected(users: map<string, User>, email: Raw, isSignup: Raw, redirectUrl: Raw)
    requires !Truthy(isSignup)
    requires CharField(email, None).Success? && Text.Lower(CharField(email, None).value) !in users
    ensures FieldError("email", NoAccount) in ValidateLinkRequest(users, email, isSignup, redirectUrl).error
  {
  }

  /** The text "false" as `is_signup` for an address with an account: the
      text is truthy, so the signup rule refuses it. */
  lemma FalseTextKnownAddress(users: map<string, User>, email: string, redirectUrl: Raw)
    requires CharField(Str(email), None).Success?
    requires !redirectUrl.Missing? ==> CharField(redirectUrl, None).Success?
    requires Text.Lower(CharField(Str(email), None).value) in users
    ensures ValidateLinkRequest(users, Str(email), Str("false"), redirectUrl)
            == Failure([FieldError("email", EmailTaken)])
  {
    FalseTextIsTruthy();
    var cleaned := CharField(Str(email), None).value;
    var e := Single(ValidateEmail(users, cleaned, Str("false")));
    assert e == Failure([EmailTaken]);
    var u := if redirectUrl.Missing? then Success("") else CharField(redirectUrl, None);
    var errors := [FieldError("email", EmailTaken)];
    assert FieldErrors("email", e) == errors;
    assert FieldErrors("is_signup", Single(BooleanField(Str("false")))) == [];
    assert FieldErrors("redirect_url", u) == [];
    assert errors + [] + [] == errors;
  }

  /** The text "false" as `is_signup` for an address without an account: the
      signup rule lets it through, and the request is then a login. */
  lemma FalseTextNewAddress(users: map<string, User>, email: string, redirectUrl: Raw)
    requires CharField(Str(email), None).Success?
    requires !redirectUrl.Missing? ==> CharField(redirectUrl, None).Success?
    requires Text.Lower(CharField(Str(email), None).value) !in users
    ensures var v := ValidateLinkRequest(users, Str(email), Str("false"), redirectUrl);
            v.Success? && v.value.email == Text.Lower(CharField(Str(email), None).value) && !v.value.isSignup
  {
    FalseTextIsTruthy();
  }

  /** `MagicLinkVerifySerializer.validate_token`: an unknown token and a link
      that is no longer valid are refused; a valid token is returned as is. */
  function ValidateToken(links: map<string, MagicLink>, value: string, now: int): (r: Result<string, ValidationError>)
    ensures value !in links ==> r == Failure(InvalidLink)
    ensures value in links && !IsValid(links[value], now) ==> r == Failure(ExpiredOrUsed)
    ensures r.Success? <==> value in links && IsValid(links[value], now)
    ensures r.Success? ==> r.value == value
  {
    if value !in links then Failure(InvalidLink)
    else if !IsValid(links[value], now) then Failure(ExpiredOrUsed)
    else Success(value)
  }

  /** `MagicLinkVerifySerializer(data=...).is_valid()`: `token` is a CharField of
      at most 255 characters, then `validate_token` runs on the stripped text. */
  function ValidateVerifyRequest(links: map<string, MagicLink>, token: Raw, now: int)
    : (r: Result<string, seq<FieldError>>)
    ensures r.Success? <==> CharField(token, Some(255)).Success?
                            && ValidateToken(links, CharField(token, Some(255)).value, now).Success?
    ensures r.Success? ==> r.value == CharField(token, Some(255)).value
                           && r.value in links && IsValid(links[r.value], now)
    ensures CharField(token, Some(255)).Failure? ==> r == Failure(FieldErrors("token", CharField(token, Some(255))))
    ensures CharField(token, Some(255)).Success? && ValidateToken(links, CharField(token, Some(255)).value, now).Failure?
            ==> r == Failure([FieldError("token", ValidateToken(links, CharField(token, Some(255)).value, now).error)])
    ensures r.Failure? ==> r.error != [] && forall k | 0 <= k < |r.error| :: r.error[k].field == "token"
  {
    var c := CharField(token, Some(255));
    if c.Failure? then Failure(FieldErrors("token", c))
    else
      var t := ValidateToken(links, c.value, now);
      if t.Failure? then Failure([FieldError("token", t.error)]) else Success(t.value)
  }

  /** `GoogleAuthSerializer.validate_access_token`: an empty token is refused. */
  function ValidateAccessToken(value: string): (r: Result<string, ValidationError>)
    ensures r.Failure? <==> value == ""
    ensures r.Success? ==> r.value == value
  {
    if value == "" then Failure(AccessTokenRequired) else Success(value)
  }

  /** `GoogleAuthSerializer(data=...).is_valid()`: `access_token` is a CharField,
      then `validate_access_token` runs on the stripped text. */
  function ValidateGoogleRequest(accessToken: Raw): (r: Result<string, seq<FieldError>>)
    ensures r.Success? <==> CharField(accessToken, None).Success?
    ensures r.Success? ==> r.value == CharField(accessToken, None).value && r.value != ""
    ensures r.Failure? ==> r == Failure(FieldErrors("access_token", CharField(accessToken, None)))
    ensures r.Failure? ==> r.error != [] && forall k | 0 <= k < |r.error| :: r.error[k].field == "access_token"
  {
    var c := CharField(accessToken, None);
    if c.Failure? then Failure(FieldErrors("access_token", c))
    else
      match ValidateAccessToken(c.value)
      case Failure(e) => Failure([FieldError("access_token", e)])
      case Success(v) => Success(v)
  }

  /** An empty or all-blank access token is refused, by the field's blank
      check before `validate_access_token` is reached, so the validator's own
      message is never produced. */
  lemma EmptyAccessTokenRejected(s: string)
    requires Text.AllSpace(s)
    ensures ValidateGoogleRequest(Str(s)) == Failure([FieldError("access_token", Blank)])
  {
    assert Tagged("access_token", [Blank]) == [FieldError("access_token", Blank)];
  }

  lemma AccessTokenRequiredUnreachable(accessToken: Raw)
    ensures ValidateGoogleRequest(accessToken) != Failure([FieldError("access_token", AccessTokenRequired)])
  {
  }

  /** `UserProfileUpdateSerializer.validate_username`: refused exactly when a
      user with another id already has the name. */
  function ValidateUsername(users: map<string, User>, instance: User, value: string): (r: Result<string, ValidationError>)
    ensures r.Failure? <==> exists e | e in users :: users[e].username == value && users[e].id != instance.id
    ensures r.Failure? ==> r.error == UsernameTaken
    ensures r.Success? ==> r.value == value
  {
    if exists e | e in users :: users[e].username == value && users[e].id != instance.id
    then Failure(UsernameTaken)
    else Success(value)
  }

  /** Keeping one's own username is accepted when usernames are unique. */
  lemma KeepingOwnUsernameAccepted(users: map<string, User>, instance: User)
    requires instance.email in users && users[instance.email] == instance
    requires forall e1, e2 | e1 in users && e2 in users && users[e1].username == users[e2].username :: e1 == e2
    ensures ValidateUsername(users, instance, instance.username) == Success(instance.username)
  {
    forall e | e in users && users[e].username == instance.username
      ensures users[e].id == instance.id
    {
      assert users[e].username == users[instance.email].username;
    }
  }
}
