/** The backend's request and response schemas: register, login, refresh,
    API-key name, OAuth redirect, daily-summary response and notification
    settings, each as the chain of zod checks the source declares, together
    with an independent statement of what each schema accepts and produces. */
module AuthSchemas {
  import opened Common
  import opened Text
  import opened Zod

  datatype RegisterInput = RegisterInput(name: string, email: string, password: string)
  datatype LoginInput = LoginInput(email: string, password: string)
  datatype RefreshTokenInput = RefreshTokenInput(refreshToken: string)
  datatype CreateApiKeyInput = CreateApiKeyInput(name: string)
  datatype EhLoginRedirectInput = EhLoginRedirectInput(redirectUri: string)
  datatype NotificationSettings = NotificationSettings(hour: int, minute: int)
  datatype FocusTask = FocusTask(id: string, title: string, reason: string)
  datatype DailySummary = DailySummary(summary: string, focusTasks: seq<FocusTask>, encouragement: string)

  const PASSWORD_RULE_MESSAGE: string :=
    "Password must contain at least one uppercase letter, one lowercase letter, and one number"

  const NAME_CHECKS: seq<StringCheck> := BoundsThenTrim(2, "Name must be at least 2 characters", 50, "Name must be at most 50 characters")

  const PASSWORD_MIN: StringCheck := MinLength(8, "Password must be at least 8 characters")
  const PASSWORD_MAX: StringCheck := MaxLength(128, "Password must be at most 128 characters")
  const PASSWORD_RULE: StringCheck := Matches(PasswordPattern, PASSWORD_RULE_MESSAGE)
  const PASSWORD_CHECKS: seq<StringCheck> := [PASSWORD_MIN, PASSWORD_MAX, PASSWORD_RULE]

  const LOGIN_PASSWORD_CHECKS: seq<StringCheck> := [MinLength(1, "Password is required")]

  const REFRESH_TOKEN_CHECKS: seq<StringCheck> := [MinLength(1, "Refresh token is required")]

  const API_KEY_NAME_CHECKS: seq<StringCheck> := BoundsThenTrim(1, "Name is required", 50, "Name must be at most 50 characters")

  const HOUR_CHECKS: seq<NumberCheck> := [
    IsInteger,
    AtLeast(0.0, "Number must be greater than or equal to 0"),
    AtMost(23.0, "Number must be less than or equal to 23")
  ]

  const MINUTE_CHECKS: seq<NumberCheck> := [
    IsInteger,
    AtLeast(0.0, "Number must be greater than or equal to 0"),
    AtMost(59.0, "Number must be less than or equal to 59")
  ]

  function EmailChecks(formats: Formats): seq<StringCheck>
  {
    [Matches(formats.isEmail, "Invalid email address"), TrimStep, LowerStep]
  }

  // ---------------------------------------------------------------------------
  // The password pattern /^(?=.*[a-z])(?=.*[A-Z])(?=.*\d)/

  predicate IsAsciiLower(c: char) { 'a' <= c <= 'z' }
  predicate IsAsciiUpper(c: char) { 'A' <= c <= 'Z' }

  /** The characters `.` does not match in a JavaScript regular expression. */
  predicate IsLineTerminator(c: char)
  {
    c == '\n' || c == '\r' || c == '\U{2028}' || c == '\U{2029}'
  }

  /** `(?=.*[class])` at the start of `s`: scanning forward over characters
      that `.` matches, a character of the class is found. */
  predicate LookaheadFinds(s: string, inClass: char -> bool)
    decreases |s|
  {
    if |s| == 0 then false
    else if inClass(s[0]) then true
    else if IsLineTerminator(s[0]) then false
    else LookaheadFinds(s[1..], inClass)
  }

  predicate PasswordPattern(s: string)
  {
    LookaheadFinds(s, IsAsciiLower) && LookaheadFinds(s, IsAsciiUpper) && LookaheadFinds(s, IsDigit)
  }

  /** The text before the first line terminator. */
  function FirstLine(s: string): (r: string)
    ensures |r| <= |s| && r == s[..|r|]
    ensures forall i :: 0 <= i < |r| ==> !IsLineTerminator(r[i])
    ensures |r| < |s| ==> IsLineTerminator(s[|r|])
  {
    if |s| == 0 || IsLineTerminator(s[0]) then "" else [s[0]] + FirstLine(s[1..])
  }

  /** Text without a line terminator is its own first line. */
  lemma FirstLineOfOneLine(s: string)
    requires forall i :: 0 <= i < |s| ==> !IsLineTerminator(s[i])
    ensures FirstLine(s) == s
  {
    assert s[..|s|] == s;
  }

  predicate HasClassChar(s: string, inClass: char -> bool)
  {
    exists i :: 0 <= i < |s| && inClass(s[i])
  }

  /** The lookahead succeeds exactly when the first line holds a character
      of the class. */
  lemma {:induction false} LookaheadMeaning(s: string, inClass: char -> bool)
    requires forall c :: inClass(c) ==> !IsLineTerminator(c)
    ensures LookaheadFinds(s, inClass) <==> HasClassChar(FirstLine(s), inClass)
    decreases |s|
  {
    if |s| > 0 && !inClass(s[0]) && !IsLineTerminator(s[0]) {
      LookaheadMeaning(s[1..], inClass);
      var line := FirstLine(s);
      assert line == [s[0]] + FirstLine(s[1..]);
      if HasClassChar(line, inClass) {
        var i :| 0 <= i < |line| && inClass(line[i]);
        assert i > 0 && FirstLine(s[1..])[i - 1] == line[i];
      }
      if HasClassChar(FirstLine(s[1..]), inClass) {
        var i :| 0 <= i < |FirstLine(s[1..])| && inClass(FirstLine(s[1..])[i]);
        assert line[i + 1] == FirstLine(s[1..])[i];
      }
    } else if |s| > 0 && inClass(s[0]) {
      assert FirstLine(s)[0] == s[0];
    }
  }

  /** What a register password must satisfy: 8 to 128 characters and, on
      its first line, an ASCII lower-case letter, an upper-case letter and a
      digit. */
  predicate PasswordAcceptable(p: string)
  {
    && 8 <= |p| <= 128
    && HasClassChar(FirstLine(p), IsAsciiLower)
    && HasClassChar(FirstLine(p), IsAsciiUpper)
    && HasClassChar(FirstLine(p), IsDigit)
  }

  lemma PasswordPatternMeaning(p: string)
    ensures PasswordPattern(p) <==>
              && HasClassChar(FirstLine(p), IsAsciiLower)
              && HasClassChar(FirstLine(p), IsAsciiUpper)
              && HasClassChar(FirstLine(p), IsDigit)
  {
    LookaheadMeaning(p, IsAsciiLower);
    LookaheadMeaning(p, IsAsciiUpper);
    LookaheadMeaning(p, IsDigit);
  }

  /** For a single-line password the pattern is the usual rule: some
      lower-case letter, some upper-case letter, some digit. */
  lemma SingleLinePassword(p: string)
    requires forall i :: 0 <= i < |p| ==> !IsLineTerminator(p[i])
    ensures PasswordPattern(p) <==>
              HasClassChar(p, IsAsciiLower) && HasClassChar(p, IsAsciiUpper) && HasClassChar(p, IsDigit)
  {
    PasswordPatternMeaning(p);
    assert FirstLine(p) == p;
  }

  function UrlChecks(formats: Formats): seq<StringCheck>
  {
    [Matches(formats.isUrl, "Invalid redirect URI")]
  }

  // ---------------------------------------------------------------------------
  // Schemas

  function RegisterSchema(body: Value, formats: Formats): (p: Parsed<RegisterInput>)
  {
    if !body.Obj? then Invalid([TypeIssue("object", body)])
    else
      var name := ParseString(Field(body, "name"), NAME_CHECKS);
      var email := ParseString(Field(body, "email"), EmailChecks(formats));
      var password := ParseString(Field(body, "password"), PASSWORD_CHECKS);
      if name.Valid? && email.Valid? && password.Valid? then
        Valid(RegisterInput(name.value, email.value, password.value))
      else
        Invalid(Under(Key("name"), name) + Under(Key("email"), email) + Under(Key("password"), password))
  }

  function LoginSchema(body: Value, formats: Formats): (p: Parsed<LoginInput>)
  {
    if !body.Obj? then Invalid([TypeIssue("object", body)])
    else
      var email := ParseString(Field(body, "email"), EmailChecks(formats));
      var password := ParseString(Field(body, "password"), LOGIN_PASSWORD_CHECKS);
      if email.Valid? && password.Valid? then Valid(LoginInput(email.value, password.value))
      else Invalid(Under(Key("email"), email) + Under(Key("password"), password))
  }

  function RefreshTokenSchema(body: Value): (p: Parsed<RefreshTokenInput>)
  {
    if !body.Obj? then Invalid([TypeIssue("object", body)])
    else
      var token := ParseString(Field(body, "refreshToken"), REFRESH_TOKEN_CHECKS);
      if token.Valid? then Valid(RefreshTokenInput(token.value)) else Invalid(Under(Key("refreshToken"), token))
  }

  function CreateApiKeySchema(body: Value): (p: Parsed<CreateApiKeyInput>)
  {
    if !body.Obj? then Invalid([TypeIssue("object", body)])
    else
      var name := ParseString(Field(body, "name"), API_KEY_NAME_CHECKS);
      if name.Valid? then Valid(CreateApiKeyInput(name.value)) else Invalid(Under(Key("name"), name))
  }

  function EhLoginRedirectSchema(body: Value, formats: Formats): (p: Parsed<EhLoginRedirectInput>)
  {
    if !body.Obj? then Invalid([TypeIssue("object", body)])
    else
      var uri := ParseString(Field(body, "redirect_uri"), UrlChecks(formats));
      if uri.Valid? then Valid(EhLoginRedirectInput(uri.value)) else Invalid(Under(Key("redirect_uri"), uri))
  }

  function NotificationSettingsSchema(body: Value): (p: Parsed<NotificationSettings>)
  {
    if !body.Obj? then Invalid([TypeIssue("object", body)])
    else
      var hour := ParseNumber(Field(body, "hour"), HOUR_CHECKS);
      var minute := ParseNumber(Field(body, "minute"), MINUTE_CHECKS);
      if hour.Valid? && minute.Valid? then Valid(NotificationSettings(hour.value.Floor, minute.value.Floor))
      else Invalid(Under(Key("hour"), hour) + Under(Key("minute"), minute))
  }

  function FocusTaskSchema(v: Value): (p: Parsed<FocusTask>)
  {
    if !v.Obj? then Invalid([TypeIssue("object", v)])
    else
      var id := ParseString(Field(v, "id"), []);
      var title := ParseString(Field(v, "title"), []);
      var reason := ParseString(Field(v, "reason"), []);
      if id.Valid? && title.Valid? && reason.Valid? then Valid(FocusTask(id.value, title.value, reason.value))
      else Invalid(Under(Key("id"), id) + Under(Key("title"), title) + Under(Key("reason"), reason))
  }

  function DailySummarySchema(v: Value): (p: Parsed<DailySummary>)
  {
    if !v.Obj? then Invalid([TypeIssue("object", v)])
    else
      var summary := ParseString(Field(v, "summary"), []);
      var focus := ParseArray(Field(v, "focusTasks"), FocusTaskSchema, 1, 5);
      var encouragement := ParseString(Field(v, "encouragement"), []);
      if summary.Valid? && focus.Valid? && encouragement.Valid? then
        Valid(DailySummary(summary.value, focus.value, encouragement.value))
      else
        Invalid(Under(Key("summary"), summary) + Under(Key("focusTasks"), focus)
                + Under(Key("encouragement"), encouragement))
  }

  // ---------------------------------------------------------------------------
  // The check chains, evaluated

  lemma NameChecksRun(s: string)
    ensures RunChecks(s, NAME_CHECKS).out == Trim(s)
    ensures RunChecks(s, NAME_CHECKS).failures == [] <==> 2 <= |s| <= 50
  {
    BoundsThenTrimRun(s, 2, "Name must be at least 2 characters", 50, "Name must be at most 50 characters");
  }

  lemma EmailChecksRun(s: string, formats: Formats)
    ensures RunChecks(s, EmailChecks(formats)).out == Lower(Trim(s))
    ensures RunChecks(s, EmailChecks(formats)).failures == [] <==> formats.isEmail(s)
  {
    var format := Matches(formats.isEmail, "Invalid email address");
    RunChecksCons(Trim(s), LowerStep, []);
    RunChecksCons(s, TrimStep, [LowerStep]);
    RunChecksCons(s, format, [TrimStep, LowerStep]);
    assert [LowerStep] + [] == [LowerStep];
    assert [TrimStep] + [LowerStep] == [TrimStep, LowerStep];
    assert EmailChecks(formats) == [format] + [TrimStep, LowerStep];
  }

  lemma PasswordChecksRun(s: string)
    ensures RunChecks(s, PASSWORD_CHECKS).out == s
    ensures RunChecks(s, PASSWORD_CHECKS).failures == [] <==> 8 <= |s| <= 128 && PasswordPattern(s)
  {
    BoundsThenMatchRun(s, 8, "Password must be at least 8 characters", 128, "Password must be at most 128 characters",
                       PasswordPattern, PASSWORD_RULE_MESSAGE);
  }

  lemma ApiKeyNameChecksRun(s: string)
    ensures RunChecks(s, API_KEY_NAME_CHECKS).out == Trim(s)
    ensures RunChecks(s, API_KEY_NAME_CHECKS).failures == [] <==> 1 <= |s| <= 50
  {
    BoundsThenTrimRun(s, 1, "Name is required", 50, "Name must be at most 50 characters");
  }

  lemma RequiredChecksRun(s: string, checks: seq<StringCheck>, message: string)
    requires checks == [MinLength(1, message)]
    ensures RunChecks(s, checks).out == s
    ensures RunChecks(s, checks).failures == [] <==> |s| >= 1
  {
    assert checks[1..] == [];
  }

  // ---------------------------------------------------------------------------
  // What each schema accepts

  predicate IsStr(v: Value) { v.Str? }

  /** Register accepts a name of 2 to 50 characters (counted before
      trimming), an e-mail the format check accepts (before trimming) and an
      acceptable password; it trims the name and trims then lower-cases the
      e-mail. */
  lemma RegisterSchemaMeaning(body: Value, formats: Formats)
    ensures var p := RegisterSchema(body, formats);
            var name := Field(body, "name");
            var email := Field(body, "email");
            var password := Field(body, "password");
            && (p.Valid? <==>
                  && body.Obj?
                  && name.Str? && 2 <= |name.s| <= 50
                  && email.Str? && formats.isEmail(email.s)
                  && password.Str? && PasswordAcceptable(password.s))
            && (p.Valid? ==> p.value == RegisterInput(Trim(name.s), Lower(Trim(email.s)), password.s))
  {
    NameFieldMeaning(Field(body, "name"));
    EmailFieldMeaning(Field(body, "email"), formats);
    PasswordFieldMeaning(Field(body, "password"));
  }

  /** A name field: text of 2 to 50 characters, trimmed. */
  lemma NameFieldMeaning(v: Value)
    ensures var p := ParseString(v, NAME_CHECKS);
            && (p.Valid? <==> v.Str? && 2 <= |v.s| <= 50)
            && (p.Valid? ==> p.value == Trim(v.s))
  {
    if v.Str? { NameChecksRun(v.s); }
  }

  /** An e-mail field: text the format check accepts, trimmed and
      lower-cased. */
  lemma EmailFieldMeaning(v: Value, formats: Formats)
    ensures var p := ParseString(v, EmailChecks(formats));
            && (p.Valid? <==> v.Str? && formats.isEmail(v.s))
            && (p.Valid? ==> p.value == Lower(Trim(v.s)))
  {
    if v.Str? { EmailChecksRun(v.s, formats); }
  }

  /** A new password field: an acceptable password, unchanged. */
  lemma PasswordFieldMeaning(v: Value)
    ensures var p := ParseString(v, PASSWORD_CHECKS);
            && (p.Valid? <==> v.Str? && PasswordAcceptable(v.s))
            && (p.Valid? ==> p.value == v.s)
  {
    if v.Str? {
      PasswordChecksRun(v.s);
      PasswordPatternMeaning(v.s);
    }
  }

  /** Login trims and lower-cases the e-mail and only requires a non-empty
      password. */
  lemma LoginSchemaMeaning(body: Value, formats: Formats)
    ensures var p := LoginSchema(body, formats);
            var email := Field(body, "email");
            var password := Field(body, "password");
            && (p.Valid? <==>
                  body.Obj? && email.Str? && formats.isEmail(email.s) && password.Str? && |password.s| >= 1)
            && (p.Valid? ==> p.value == LoginInput(Lower(Trim(email.s)), password.s))
  {
    var password := Field(body, "password");
    EmailFieldMeaning(Field(body, "email"), formats);
    if password.Str? { RequiredChecksRun(password.s, LOGIN_PASSWORD_CHECKS, "Password is required"); }
  }

  lemma RefreshTokenSchemaMeaning(body: Value)
    ensures var p := RefreshTokenSchema(body);
            var t := Field(body, "refreshToken");
            && (p.Valid? <==> body.Obj? && t.Str? && |t.s| >= 1)
            && (p.Valid? ==> p.value.refreshToken == t.s)
  {
    var t := Field(body, "refreshToken");
    if t.Str? { RequiredChecksRun(t.s, REFRESH_TOKEN_CHECKS, "Refresh token is required"); }
  }

  lemma CreateApiKeySchemaMeaning(body: Value)
    ensures var p := CreateApiKeySchema(body);
            var name := Field(body, "name");
            && (p.Valid? <==> body.Obj? && name.Str? && 1 <= |name.s| <= 50)
            && (p.Valid? ==> p.value.name == Trim(name.s))
  {
    var name := Field(body, "name");
    if name.Str? { ApiKeyNameChecksRun(name.s); }
  }

  /** The OAuth redirect accepts exactly a `redirect_uri` the URL check
      accepts, unchanged; a string it rejects gives the one issue "Invalid
      redirect URI" under that key. */
  lemma EhLoginRedirectSchemaMeaning(body: Value, formats: Formats)
    ensures var p := EhLoginRedirectSchema(body, formats);
            var u := Field(body, "redirect_uri");
            && (p.Valid? <==> body.Obj? && u.Str? && formats.isUrl(u.s))
            && (p.Valid? ==> p.value.redirectUri == u.s)
            && (body.Obj? && u.Str? && !formats.isUrl(u.s) ==>
                  p == Invalid([Issue([Key("redirect_uri")], "Invalid redirect URI")]))
  {
    var u := Field(body, "redirect_uri");
    if u.Str? {
      var c := UrlChecks(formats);
      assert c[1..] == [];
      assert c[0].test(u.s) == formats.isUrl(u.s);
      assert RunChecks(u.s, []) == Checked(u.s, []);
      assert RunChecks(u.s, c) == Checked(u.s, if formats.isUrl(u.s) then [] else ["Invalid redirect URI"]);
      if body.Obj? && !formats.isUrl(u.s) {
        var parsed := ParseString(u, c);
        assert parsed == Invalid([Issue([], "Invalid redirect URI")]);
        assert [Key("redirect_uri")] + [] == [Key("redirect_uri")];
      }
    }
  }

  lemma NotificationSettingsMeaning(body: Value)
    ensures var p := NotificationSettingsSchema(body);
            var h := Field(body, "hour");
            var m := Field(body, "minute");
            && (p.Valid? <==>
                  body.Obj? && h.Num? && IsWhole(h.n) && 0.0 <= h.n <= 23.0
                  && m.Num? && IsWhole(m.n) && 0.0 <= m.n <= 59.0)
            && (p.Valid? ==> 0 <= p.value.hour <= 23 && 0 <= p.value.minute <= 59
                             && p.value.hour as real == h.n && p.value.minute as real == m.n)
  {
    ClockFieldMeaning(Field(body, "hour"), HOUR_CHECKS, 23.0);
    ClockFieldMeaning(Field(body, "minute"), MINUTE_CHECKS, 59.0);
  }

  /** An hour or minute field: a whole number from 0 to the bound. */
  lemma ClockFieldMeaning(v: Value, checks: seq<NumberCheck>, hi: real)
    requires |checks| == 3 && checks[0] == IsInteger
    requires checks[1].AtLeast? && checks[1].bound == 0.0 && checks[2].AtMost? && checks[2].bound == hi
    ensures var p := ParseNumber(v, checks);
            && (p.Valid? <==> v.Num? && IsWhole(v.n) && 0.0 <= v.n <= hi)
            && (p.Valid? ==> p.value == v.n)
  {
    if v.Num? {
      var n := v.n;
      var rest := checks[1..];
      assert rest[1..][1..] == [];
      assert NumberFailures(n, rest[1..]) == [] <==> n <= hi;
      assert NumberFailures(n, rest) == [] <==> 0.0 <= n <= hi;
    }
  }

  /** A daily summary carries between one and five focus tasks. */
  lemma DailySummaryBounds(v: Value)
    ensures var p := DailySummarySchema(v);
            p.Valid? ==> 1 <= |p.value.focusTasks| <= 5
    ensures var f := Field(v, "focusTasks");
            f.Arr? && (|f.items| == 0 || |f.items| > 5) ==> DailySummarySchema(v).Invalid?
  {
  }

  lemma ExamplePasswordAcceptable()
    ensures PasswordAcceptable("Passw0rd")
  {
    var p := "Passw0rd";
    assert forall i :: 0 <= i < |p| ==> !IsLineTerminator(p[i]);
    OneLineAcceptable(p, 1, 0, 5);
  }

  /** A password of acceptable length on one line is acceptable once it has
      a lower-case letter, an upper-case letter and a digit. */
  lemma OneLineAcceptable(p: string, lower: nat, upper: nat, digit: nat)
    requires 8 <= |p| <= 128 && forall i :: 0 <= i < |p| ==> !IsLineTerminator(p[i])
    requires lower < |p| && upper < |p| && digit < |p|
    requires IsAsciiLower(p[lower]) && IsAsciiUpper(p[upper]) && IsDigit(p[digit])
    ensures PasswordAcceptable(p)
  {
    FirstLineOfOneLine(p);
  }

  lemma ExampleNameTrimmed()
    ensures Trim(" a ") == "a"
  {
    assert IsWhitespace(' ') && !IsWhitespace('a');
    assert " a "[1..] == "a ";
    TrimStartFixed("a ");
    assert TrimStart(" a ") == "a ";
    assert "a "[..1] == "a";
    TrimEndFixed("a");
    assert TrimEnd("a ") == "a";
  }

  /** The name length is checked before trimming: a name of two blanks
      around one letter passes and is stored as that one letter. */
  lemma RegisterNameCheckedBeforeTrim(formats: Formats, email: string)
    requires formats.isEmail(email)
    ensures var body := Obj(map["name" := Str(" a "), "email" := Str(email), "password" := Str("Passw0rd")]);
            var p := RegisterSchema(body, formats);
            p.Valid? && p.value.name == "a"
  {
    var body := Obj(map["name" := Str(" a "), "email" := Str(email), "password" := Str("Passw0rd")]);
    assert Field(body, "name") == Str(" a ");
    assert Field(body, "email") == Str(email);
    assert Field(body, "password") == Str("Passw0rd");
    ExamplePasswordAcceptable();
    ExampleNameTrimmed();
    RegisterSchemaMeaning(body, formats);
  }
}
