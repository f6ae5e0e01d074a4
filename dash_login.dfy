/**
 * Decisions of the Dash login page: which message the page shows for the `error=`
 * code in its URL, where the login form sends the browser for each answer of the token
 * endpoint, and the copyright notice.
 */
module DashLogin {
  import opened Wrappers
  import opened Strings
  import opened Encoding
  import opened Http
  import Auth

  // ---------------------------------------------------------------- copyright

  const CopyrightYear: nat := 2025
  const NDash: char := '–'

  /** The year range of the notice: the first year, and "–<year>" once the year is later. */
  function CopyrightYears(year: nat): string {
    NatToString(CopyrightYear) + (if year > CopyrightYear then [NDash] + NatToString(year) else "")
  }

  /** The authors and institution named after the years (the same on both login pages). */
  const Authors := "Anandarup Mukherjee & Yin-Chi Chan, " + "Institute for Manufacturing, " + "University of Cambridge"

  /** What follows the copyright sign: the years, then the authors. */
  function NoticeTail(year: nat): string {
    " " + CopyrightYears(year) + " " + Authors
  }

  /** The notice both login pages evidently intend: "©", the years, then the authors. */
  function Copyright(year: nat): string {
    "©" + NoticeTail(year)
  }

  /**
   * `copyright()` as written for the current year `year`: its literal starts with the
   * two characters U+00C2 U+00A9, the UTF-8 bytes of "©" read as Latin-1.
   */
  function CopyrightAsWritten(year: nat): string {
    "\U{C2}\U{A9}" + NoticeTail(year)
  }

  /** The notice as written carries one stray character before the intended one. */
  lemma CopyrightAsWrittenHasStrayCharacter(year: nat)
    ensures CopyrightAsWritten(year) == "\U{C2}" + Copyright(year)
  {
    StrayBeforeSign(NoticeTail(year));
  }

  lemma StrayBeforeSign(tail: string)
    ensures "\U{C2}\U{A9}" + tail == "\U{C2}" + ("©" + tail)
  {
    var stray, sign := "\U{C2}", "©";
    assert stray + sign == "\U{C2}\U{A9}";
    assert (stray + sign) + tail == stray + (sign + tail);
  }

  lemma CopyrightYearText()
    ensures NatToString(CopyrightYear) == "2025"
  {
    assert NatToString(2) == "2";
    assert NatToString(20) == "20";
    assert NatToString(202) == "202";
  }

  /**
   * The year part is "2025" up to 2025 and "2025–<year>" afterwards, where the digits
   * after the dash read back as the year.
   */
  lemma CopyrightYearRange(year: nat)
    ensures year <= 2025 ==> CopyrightYears(year) == "2025"
    ensures year > 2025 ==> CopyrightYears(year) == "2025–" + NatToString(year)
    ensures year > 2025 ==> DigitsValue(CopyrightYears(year)[5..]) == year
  {
    CopyrightYearText();
    if year > 2025 {
      assert CopyrightYears(year)[5..] == NatToString(year);
      NatToStringRoundTrip(year);
    }
  }

  /** After 2025 the notice shows an en dash followed by the digits of the year. */
  lemma CopyrightShowsYear(year: nat)
    requires year > 2025
    ensures var notice, digits := Copyright(year), NatToString(year);
      |notice| >= 7 + |digits| && notice[6] == NDash && DigitsValue(notice[7..7 + |digits|]) == year
  {
    YearDigitsInNotice(year);
    NatToStringRoundTrip(year);
  }

  /** The digits after the dash are the year's decimal text. */
  lemma YearDigitsInNotice(year: nat)
    requires year > 2025
    ensures |Copyright(year)| >= 7 + |NatToString(year)|
    ensures Copyright(year)[6] == NDash
    ensures Copyright(year)[7..7 + |NatToString(year)|] == NatToString(year)
  {
    YearsShape(year);
    DigitsAfterDash(Copyright(year), "©", CopyrightYears(year), Authors, NatToString(year));
  }

  /** Where the digits after the dash stand in a notice made of a sign, the years and the authors. */
  lemma DigitsAfterDash(notice: string, sign: string, years: string, authors: string, digits: string)
    requires notice == sign + (" " + years + " " + authors) && |sign| == 1
    requires |years| == 5 + |digits| && years[4] == NDash
    requires forall i :: 0 <= i < |digits| ==> years[5 + i] == digits[i]
    ensures |notice| >= 7 + |digits| && notice[6] == NDash && notice[7..7 + |digits|] == digits
  {
    YearsInNotice(sign, years, authors);
    forall i | 0 <= i < |digits| ensures notice[7..7 + |digits|][i] == digits[i] {
      assert notice[7 + i] == years[5 + i];
    }
  }

  /** After 2025 the year part is four digits, the dash, then the year's digits. */
  lemma YearsShape(year: nat)
    requires year > 2025
    ensures |CopyrightYears(year)| == 5 + |NatToString(year)| && CopyrightYears(year)[4] == NDash
    ensures forall i :: 0 <= i < |NatToString(year)| ==> CopyrightYears(year)[5 + i] == NatToString(year)[i]
  {
    CopyrightYearText();
  }

  /** Where the years stand in a notice made of a sign, the years and the authors. */
  lemma YearsInNotice(sign: string, years: string, authors: string)
    ensures var notice := sign + (" " + years + " " + authors);
      && |notice| == |sign| + |years| + |authors| + 2
      && forall i :: 0 <= i < |years| ==> notice[|sign| + 1 + i] == years[i]
  {
  }

  // ---------------------------------------------------------------- error messages

  /** The codes the page knows and the message it shows for each. */
  const KnownErrors: map<string, string> := map[
    "missing_token" := "User is not authenticated",
    "expired_token" := "User access token is expired",
    "empty_fields" := "Username and password cannot be empty",
    "credentials" := "Invalid username or password",
    "jwt_error" := "User access token is invalid",
    "unexpected_error" := "An unexpected error occurred"
  ]

  /** `parse_error_fragment`: the message and the CSS display value for an error code. */
  function ParseErrorFragment(fragment: Option<string>): (string, string) {
    if fragment.None? || fragment.value == "" then ("OK", "none")
    else var code := fragment.value;
    if code == "missing_token" then ("User is not authenticated", "block")
    else if code == "expired_token" then ("User access token is expired", "block")
    else if code == "empty_fields" then ("Username and password cannot be empty", "block")
    else if code == "credentials" then ("Invalid username or password", "block")
    else if code == "jwt_error" then ("User access token is invalid", "block")
    else if code == "unexpected_error" then ("An unexpected error occurred", "block")
    else ("Unknown error: " + code, "block")
  }

  /**
   * The if-chain agrees with the table: no code hides the message; a known code shows
   * its message, any other code "Unknown error: <code>", and both are visible.
   */
  lemma ParseErrorFragmentMatchesTable(fragment: Option<string>)
    ensures fragment.None? || fragment.value == "" ==> ParseErrorFragment(fragment) == ("OK", "none")
    ensures fragment.Some? && fragment.value in KnownErrors ==>
      ParseErrorFragment(fragment) == (KnownErrors[fragment.value], "block")
    ensures fragment.Some? && fragment.value != "" && fragment.value !in KnownErrors ==>
      ParseErrorFragment(fragment) == ("Unknown error: " + fragment.value, "block")
  {
  }

  /** The known codes have pairwise different messages. */
  lemma KnownMessagesDistinct(a: string, b: string)
    requires a in KnownErrors && b in KnownErrors && a != b
    ensures KnownErrors[a] != KnownErrors[b]
  {
  }

  /** No known message starts like "Unknown error". */
  lemma KnownMessageNotUnknown(k: string)
    requires k in KnownErrors
    ensures |KnownErrors[k]| >= 2 && (KnownErrors[k][0] != 'U' || KnownErrors[k][1] != 'n')
  {
    var m := KnownErrors[k];
    if k == "missing_token" {
      assert m == "User is not authenticated";
    } else if k == "expired_token" {
      assert m == "User access token is expired";
    } else if k == "empty_fields" {
      assert m == "Username and password cannot be empty";
    } else if k == "credentials" {
      assert m == "Invalid username or password";
    } else if k == "jwt_error" {
      assert m == "User access token is invalid";
    } else {
      assert m == "An unexpected error occurred";
    }
  }

  /** Different codes give different messages, known or not. */
  lemma ErrorMessagesDistinct(a: string, b: string)
    requires a != "" && b != "" && a != b
    ensures ParseErrorFragment(Some(a)).0 != ParseErrorFragment(Some(b)).0
  {
    ParseErrorFragmentMatchesTable(Some(a));
    ParseErrorFragmentMatchesTable(Some(b));
    var prefix := "Unknown error: ";
    if a in KnownErrors && b in KnownErrors {
      KnownMessagesDistinct(a, b);
    } else if a !in KnownErrors && b !in KnownErrors {
      assert (prefix + a)[|prefix|..] == a;
      assert (prefix + b)[|prefix|..] == b;
    } else if a !in KnownErrors {
      KnownMessageNotUnknown(b);
      assert (prefix + a)[0] == 'U' && (prefix + a)[1] == 'n';
    } else {
      KnownMessageNotUnknown(a);
      assert (prefix + b)[0] == 'U' && (prefix + b)[1] == 'n';
    }
  }

  const ErrorMarker := "error="

  /**
   * The fragment split out in `update_error_message`: the text after the last "error="
   * of the URL's search string, or `None` when there is no "error=".
   */
  function ErrorFragment(search: string): Option<string> {
    if Contains(search, ErrorMarker) then Some(Last(Split(search, ErrorMarker))) else None
  }

  /** `update_error_message`. */
  function UpdateErrorMessage(search: string): (string, string) {
    ParseErrorFragment(ErrorFragment(search))
  }

  lemma ErrorMarkerLastCharUnique()
    ensures LastCharUnique(ErrorMarker)
  {
    assert ErrorMarker[..5] == "error";
  }

  /**
   * The fragment is exactly the text after the last "error=": there is such an
   * occurrence whenever the marker appears, and then the fragment follows it.
   */
  lemma ErrorFragmentFollowsLastMarker(search: string)
    ensures !Contains(search, ErrorMarker) ==> ErrorFragment(search) == None
    ensures Contains(search, ErrorMarker) ==>
      exists i :: IsLastOccurrence(ErrorMarker, search, i) && ErrorFragment(search) == Some(search[i + 6..])
  {
    if Contains(search, ErrorMarker) {
      ErrorMarkerLastCharUnique();
      var i := LastPieceFollowsLastOccurrence(search, ErrorMarker);
    }
  }

  /** A URL ending in "error=<code>", the code free of '=', yields that code. */
  lemma ErrorFragmentOfRedirect(prefix: string, code: string)
    requires '=' !in code
    ensures ErrorFragment(prefix + ErrorMarker + code) == Some(code)
  {
    var s := prefix + ErrorMarker + code;
    var i := |prefix|;
    assert s[i..i + 6] == ErrorMarker;
    forall j | i < j ensures !OccursAt(ErrorMarker, s, j) {
      if OccursAt(ErrorMarker, s, j) {
        CharAt(ErrorMarker, s, j, 5);
      }
    }
    assert IsLastOccurrence(ErrorMarker, s, i);
    ContainsIff(s, ErrorMarker);
    ErrorFragmentFollowsLastMarker(s);
    assert s[i + 6..] == code;
  }

  // ---------------------------------------------------------------- login

  /** The form fields posted to the token endpoint. */
  type Form = map<string, string>

  /** The JSON body of the token endpoint's answer, when it parses. */
  datatype Body = NotJson | JsonObject(fields: map<string, string>)

  /** What `requests.post` gives back: a response, or the `RequestException` it raised. */
  datatype PostResult = Response(status: int, body: Body) | RequestFailed(message: string)

  /** The cookie `response.set_cookie` adds. */
  datatype Cookie = Cookie(key: string, value: string, maxAge: int, httpOnly: bool, sameSite: string)

  /**
   * The outcome of the `login` callback: the new location and refresh flag (with the
   * cookie set on the response, if any), or the `HTTPException` it raises.
   */
  datatype LoginOutcome = Navigate(href: string, refresh: bool, cookie: Option<Cookie>) | Raise(error: HttpError)

  /** Python truthiness of an optional form value. */
  predicate Blank(v: Option<string>) {
    v.None? || v.value == ""
  }

  function LoginForm(username: string, password: string): Form {
    map["grant_type" := "password", "username" := username, "password" := password]
  }

  /** The pages `login` sends the browser back to, each naming its code after "error=". */
  const EmptyFieldsPage := "/login?" + ErrorMarker + "empty_fields"
  const CredentialsPage := "/login/?" + ErrorMarker + "credentials"
  const UnexpectedErrorPage := "/login/?" + ErrorMarker + "unexpected_error"

  /** `login`: `post` stands for the HTTP POST of the form to the token endpoint. */
  function Login(username: Option<string>, password: Option<string>, post: Form -> PostResult): LoginOutcome {
    if Blank(username) || Blank(password) then Navigate(EmptyFieldsPage, true, None)
    else
      match post(LoginForm(username.value, password.value))
      case RequestFailed(message) => Raise(HttpError(StatusInternalServerError, message))
      case Response(status, body) =>
        if status == StatusOk then
          match body
          case NotJson => Raise(HttpError(StatusInternalServerError, "Invalid JSON response"))
          case JsonObject(fields) =>
            if "access_token" !in fields then
              Raise(HttpError(StatusInternalServerError, "Missing 'access_token' in response"))
            else
              Navigate("/validate", true, Some(Cookie("access_token", fields["access_token"], 24 * 60 * 60, true, "Lax")))
        else if status == StatusUnauthorized then Navigate(CredentialsPage, true, None)
        else if status >= StatusInternalServerError then Navigate(UnexpectedErrorPage, true, None)
        else Navigate(UnexpectedErrorPage, true, None)
  }

  /** A blank username or password redirects with `empty_fields` without using the endpoint. */
  lemma EmptyFieldsSkipEndpoint(username: Option<string>, password: Option<string>,
                                post: Form -> PostResult, post': Form -> PostResult)
    requires Blank(username) || Blank(password)
    ensures Login(username, password, post) == Login(username, password, post')
         == Navigate(EmptyFieldsPage, true, None)
  {
  }

  /**
   * With both fields filled in, the endpoint receives the password grant form with
   * those credentials, and only its answer to that form matters.
   */
  lemma FilledFormIsPosted(username: string, password: string,
                           post: Form -> PostResult, post': Form -> PostResult)
    requires username != "" && password != ""
    requires post(LoginForm(username, password)) == post'(LoginForm(username, password))
    ensures Login(Some(username), Some(password), post) == Login(Some(username), Some(password), post')
    ensures LoginForm(username, password).Keys == {"grant_type", "username", "password"}
  {
  }

  /**
   * A 200 answer carrying a token leads to "/validate" with the token in an HTTP-only,
   * SameSite=Lax cookie that lives one day; no other answer sets a cookie.
   */
  lemma LoginCookieOnlyOnSuccess(username: string, password: string, post: Form -> PostResult)
    requires username != "" && password != ""
    ensures var answer := post(LoginForm(username, password));
      var outcome := Login(Some(username), Some(password), post);
      (outcome.Navigate? && outcome.cookie.Some?) <==>
        (answer.Response? && answer.status == 200 && answer.body.JsonObject? && "access_token" in answer.body.fields)
    ensures var answer := post(LoginForm(username, password));
      answer.Response? && answer.status == 200 && answer.body.JsonObject? && "access_token" in answer.body.fields ==>
      Login(Some(username), Some(password), post)
        == Navigate("/validate", true, Some(Cookie("access_token", answer.body.fields["access_token"], 86400, true, "Lax")))
  {
  }

  /** 401 sends the user back with `credentials`; every other non-200 status with `unexpected_error`. */
  lemma LoginStatusRedirects(username: string, password: string, post: Form -> PostResult)
    requires username != "" && password != ""
    requires post(LoginForm(username, password)).Response?
    ensures var status := post(LoginForm(username, password)).status;
      && (status == 401 ==> Login(Some(username), Some(password), post) == Navigate(CredentialsPage, true, None))
      && (status != 200 && status != 401 ==>
            Login(Some(username), Some(password), post) == Navigate(UnexpectedErrorPage, true, None))
  {
  }

  /** The login only ever navigates to "/validate" or to one of three error pages. */
  lemma LoginTargets(username: Option<string>, password: Option<string>, post: Form -> PostResult)
    requires Login(username, password, post).Navigate?
    ensures Login(username, password, post).href in
      {"/validate", EmptyFieldsPage, CredentialsPage, UnexpectedErrorPage}
  {
  }

  /**
   * Every page the login sends the user back to names a code this page knows, so it
   * shows that code's message, visibly.
   */
  lemma LoginRedirectShowsKnownMessage(username: Option<string>, password: Option<string>, post: Form -> PostResult)
    requires Login(username, password, post).Navigate?
    requires Login(username, password, post).href != "/validate"
    ensures var code := ErrorFragment(Login(username, password, post).href);
      code.Some? && code.value in KnownErrors
      && UpdateErrorMessage(Login(username, password, post).href) == (KnownErrors[code.value], "block")
  {
    LoginTargets(username, password, post);
    ErrorPagesShowKnownMessage(Login(username, password, post).href);
  }

  /** The three error pages of the login name known codes. */
  lemma ErrorPagesShowKnownMessage(href: string)
    requires href in {EmptyFieldsPage, CredentialsPage, UnexpectedErrorPage}
    ensures var code := ErrorFragment(href);
      code.Some? && code.value in KnownErrors && UpdateErrorMessage(href) == (KnownErrors[code.value], "block")
  {
    if href == EmptyFieldsPage {
      EmptyFieldsPageParts();
      RedirectShowsKnownMessage("/login?", "empty_fields", href);
    } else if href == CredentialsPage {
      CredentialsPageParts();
      RedirectShowsKnownMessage("/login/?", "credentials", href);
    } else {
      UnexpectedErrorPageParts();
      RedirectShowsKnownMessage("/login/?", "unexpected_error", href);
    }
  }

  lemma EmptyFieldsPageParts()
    ensures EmptyFieldsPage == "/login?" + ErrorMarker + "empty_fields"
    ensures "empty_fields" in KnownErrors && '=' !in "empty_fields"
  {
  }

  lemma CredentialsPageParts()
    ensures CredentialsPage == "/login/?" + ErrorMarker + "credentials"
    ensures "credentials" in KnownErrors && '=' !in "credentials"
  {
  }

  lemma UnexpectedErrorPageParts()
    ensures UnexpectedErrorPage == "/login/?" + ErrorMarker + "unexpected_error"
    ensures "unexpected_error" in KnownErrors && '=' !in "unexpected_error"
  {
  }

  lemma RedirectShowsKnownMessage(prefix: string, code: string, href: string)
    requires code in KnownErrors && '=' !in code && href == prefix + ErrorMarker + code
    ensures ErrorFragment(href) == Some(code)
    ensures UpdateErrorMessage(href) == (KnownErrors[code], "block")
  {
    ErrorFragmentOfRedirect(prefix, code);
  }

  /**
   * When the token endpoint refuses the credentials with its 401, whatever the body (the
   * service's carries the JSON `detail`), the page shows the same text as that detail.
   */
  lemma RefusedCredentialsMessage(username: string, password: string, post: Form -> PostResult)
    requires username != "" && password != ""
    requires post(LoginForm(username, password)).Response?
    requires post(LoginForm(username, password)).status == Auth.InvalidCredentials.status
    ensures UpdateErrorMessage(Login(Some(username), Some(password), post).href)
         == (Auth.InvalidCredentials.detail, "block")
  {
    CredentialsPageParts();
    RedirectShowsKnownMessage("/login/?", "credentials", CredentialsPage);
  }

  /**
   * Each failure code of token decoding, placed after "error=" in a redirect, is known
   * to this page and shows its own message.
   */
  lemma DecodeErrorCodesShown(prefix: string, e: Auth.DecodeError)
    ensures e.Code() in KnownErrors
    ensures UpdateErrorMessage(prefix + ErrorMarker + e.Code()) == (KnownErrors[e.Code()], "block")
  {
    ErrorFragmentOfRedirect(prefix, e.Code());
  }
}
