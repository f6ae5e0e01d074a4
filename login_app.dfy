/**
 * The React login page: the message it shows for the `error` query parameter, the
 * validation of its form, the call to the token endpoint, the access-token cookie it
 * writes and reads back, and the redirect of a user who already holds a valid token.
 */
module LoginApp {
  import opened Wrappers
  import opened Strings
  import opened Encoding
  import Auth
  import DashLogin

  const TokenUrl := "https://yc.ngrok.dev/token"
  const RedirectUrl := "https://yc.ngrok.dev/validate"

  /** One day, in milliseconds: the lifetime of the access-token cookie. */
  const OneDayMs := 24 * 60 * 60 * 1000

  // ---------------------------------------------------------------- token endpoint

  /**
   * A parsed JSON object with string fields; the TypeScript cast to `SuccessPayload`
   * or `ErrorPayload` checks nothing, so a missing field reads as `undefined`.
   */
  type JsonObject = map<string, string>

  datatype ApiResult = ApiResult(statusCode: int, payload: JsonObject)

  /** The form fields of the token request, in the order `URLSearchParams` serialises them. */
  function TokenForm(username: string, password: string): seq<(string, string)> {
    [("grant_type", "password"), ("username", username), ("password", password)]
  }

  /** What `fetch` and `response.json()` give: a status and a body (or `None` when the body is not JSON), or a thrown error. */
  datatype FetchOutcome = Fetched(status: int, json: Option<JsonObject>) | FetchThrew

  /** `callTokenApi`: the answer of the endpoint, or 500 "Internal Server Error" when anything throws. */
  function CallTokenApi(outcome: FetchOutcome): ApiResult {
    match outcome
    case Fetched(status, Some(body)) => ApiResult(status, body)
    case _ => ApiResult(500, map["detail" := "Internal Server Error"])
  }

  /** When the call fails, the page gets a 500 result whose detail it will show. */
  lemma CallTokenApiFailure(outcome: FetchOutcome)
    ensures outcome.FetchThrew? || outcome.json.None? ==>
      CallTokenApi(outcome).statusCode == 500 && DetailText(CallTokenApi(outcome).payload) == "Internal Server Error"
    ensures outcome.Fetched? && outcome.json.Some? ==>
      CallTokenApi(outcome) == ApiResult(outcome.status, outcome.json.value)
  {
  }

  /** The cookie value written on success: the `access_token` field, or the text "undefined". */
  function TokenText(payload: JsonObject): string {
    if "access_token" in payload then payload["access_token"] else "undefined"
  }

  /** The text shown on failure; React renders an `undefined` detail as nothing. */
  function DetailText(payload: JsonObject): string {
    if "detail" in payload then payload["detail"] else ""
  }

  // ---------------------------------------------------------------- form validation

  /** The Mantine form's errors: one message per empty field. */
  function FormErrors(username: string, password: string): (errors: map<string, string>)
  {
    (if username == "" then map["username" := "Username is required"] else map[])
    + (if password == "" then map["password" := "Password is required"] else map[])
  }

  /**
   * The form submits exactly when both fields are filled in; each empty field, and only
   * an empty one, gets its "… is required" message.
   */
  lemma FormErrorsIff(username: string, password: string)
    ensures FormErrors(username, password) == map[] <==> username != "" && password != ""
    ensures "username" in FormErrors(username, password) <==> username == ""
    ensures "password" in FormErrors(username, password) <==> password == ""
    ensures username == "" ==> FormErrors(username, password)["username"] == "Username is required"
    ensures password == "" ==> FormErrors(username, password)["password"] == "Password is required"
  {
    if username == "" {
      assert "username" in FormErrors(username, password);
    } else if password == "" {
      assert "password" in FormErrors(username, password);
    }
  }

  // ---------------------------------------------------------------- error parameter

  /** The codes this page knows and the message it shows for each. */
  const KnownErrors: map<string, string> := map[
    "expired_token" := "User access token expired",
    "missing_token" := "User is not authenticated",
    "jwt_error" := "User access token malformed"
  ]

  /** The message for a non-empty `error` parameter. */
  function ErrorMessage(error: string): string {
    if error == "expired_token" then "User access token expired"
    else if error == "missing_token" then "User is not authenticated"
    else if error == "jwt_error" then "User access token malformed"
    else "Unknown error: " + error
  }

  /** The conditional chain agrees with the table. */
  lemma ErrorMessageMatchesTable(error: string)
    ensures error in KnownErrors ==> ErrorMessage(error) == KnownErrors[error]
    ensures error !in KnownErrors ==> ErrorMessage(error) == "Unknown error: " + error
  {
  }

  /** Different codes give different messages, known or not. */
  lemma ErrorMessagesDistinct(error: string, other: string)
    requires error != other
    ensures ErrorMessage(error) != ErrorMessage(other)
  {
    MessageSecondChar(error);
    MessageSecondChar(other);
    var prefix := "Unknown error: ";
    if error !in KnownErrors && other !in KnownErrors {
      assert ErrorMessage(error)[|prefix|..] == error;
      assert ErrorMessage(other)[|prefix|..] == other;
    } else if error in KnownErrors && other in KnownErrors {
      KnownMessagesDistinct(error, other);
      ErrorMessageMatchesTable(error);
      ErrorMessageMatchesTable(other);
    }
  }

  /** Known messages start with "Us", unknown ones with "Un". */
  lemma MessageSecondChar(error: string)
    ensures |ErrorMessage(error)| >= 2
    ensures ErrorMessage(error)[1] == if error in KnownErrors then 's' else 'n'
  {
    if error !in KnownErrors {
      assert ("Unknown error: " + error)[1] == 'n';
    }
  }

  /** The three known messages are pairwise different. */
  lemma KnownMessagesDistinct(a: string, b: string)
    requires a in KnownErrors && b in KnownErrors && a != b
    ensures KnownErrors[a] != KnownErrors[b]
  {
    assert KnownErrors["expired_token"][5] != KnownErrors["missing_token"][5];
  }

  /**
   * Of the codes token decoding can produce, this page knows `expired_token` and
   * `jwt_error` but shows `unexpected_error` as an unknown error, unlike the Dash page.
   */
  lemma DecodeErrorCodesOnThisPage(e: Auth.DecodeError)
    ensures e.ExpiredToken? || e.JwtError? ==> e.Code() in KnownErrors
    ensures e.UnexpectedError? ==>
      && e.Code() !in KnownErrors && e.Code() in DashLogin.KnownErrors
      && ErrorMessage(e.Code()) == "Unknown error: " + e.Code()
  {
    match e
    case ExpiredToken =>
    case JwtError =>
    case UnexpectedError => UnexpectedErrorUnknown();
  }

  /** `unexpected_error` is a Dash page code that this page does not know. */
  lemma UnexpectedErrorUnknown()
    ensures "unexpected_error" !in KnownErrors && "unexpected_error" in DashLogin.KnownErrors
    ensures ErrorMessage("unexpected_error") == "Unknown error: " + "unexpected_error"
  {
    DashLogin.UnexpectedErrorPageParts();
  }

  /**
   * Of the Dash page's codes, this page knows only the three token codes: the codes
   * the Dash login produces, `credentials` and `empty_fields`, show as unknown errors.
   */
  lemma DashCodesOnThisPage(code: string)
    requires code in DashLogin.KnownErrors
    ensures code in KnownErrors <==> code in {"missing_token", "expired_token", "jwt_error"}
    ensures code !in KnownErrors ==> ErrorMessage(code) == "Unknown error: " + code
  {
  }

  /** `String.prototype.substring(1)`. */
  function DropFirst(s: string): string {
    if |s| >= 1 then s[1..] else ""
  }

  /** The `URLSearchParams` constructor drops one leading '?'. */
  function StripQuestionMark(query: string): string {
    if |query| >= 1 && query[0] == '?' then query[1..] else query
  }

  /** The name of a `name=value` pair: the text before its first '=' (all of it without one). */
  function PairName(pair: string): string {
    match FindFrom(pair, "=", 0)
    case None => pair
    case Some(i) => pair[..i]
  }

  /** The value of a `name=value` pair: the text after its first '=' (empty without one). */
  function PairValue(pair: string): string {
    match FindFrom(pair, "=", 0)
    case None => ""
    case Some(i) => pair[i + 1..]
  }

  predicate Names(pair: string, name: string) {
    pair != "" && PairName(pair) == name
  }

  /** The value of the first non-empty pair with the given name. */
  function FirstValue(pairs: seq<string>, name: string): (r: Option<string>)
    ensures r.None? <==> forall k :: 0 <= k < |pairs| ==> !Names(pairs[k], name)
    ensures r.Some? ==> exists k ::
      && 0 <= k < |pairs| && Names(pairs[k], name) && r.value == PairValue(pairs[k])
      && forall j :: 0 <= j < k ==> !Names(pairs[j], name)
  {
    if |pairs| == 0 then None
    else if Names(pairs[0], name) then Some(PairValue(pairs[0]))
    else
      var r := FirstValue(pairs[1..], name);
      assert forall k :: 1 <= k < |pairs| ==> pairs[k] == pairs[1..][k - 1];
      r
  }

  /** `new URLSearchParams(query).get(name)` (without percent-decoding). */
  function QueryGet(query: string, name: string): Option<string> {
    FirstValue(Split(StripQuestionMark(query), "&"), name)
  }

  /** The `error` parameter the page reads from `window.location.search`. */
  function SearchError(search: string): Option<string> {
    QueryGet(DropFirst(search), "error")
  }

  /** A search string "?error=<code>" yields the code, provided it holds no '&'. */
  lemma SearchErrorOfRedirect(code: string)
    requires '&' !in code
    ensures SearchError("?error=" + code) == Some(code)
  {
    var pair := "error=" + code;
    assert DropFirst("?error=" + code) == pair;
    assert pair[0] != '?';
    NotContainsChar(pair, "&");
    SplitWithout(pair, "&");
    assert pair[5..6] == "=";
    forall j | 0 <= j < 5 ensures !OccursAt("=", pair, j) {
      assert pair[j..j + 1] == ["error"[j]];
    }
    FindFromFirst(pair, "=", 5);
    assert PairName(pair) == "error";
    assert pair[6..] == code;
  }

  // ---------------------------------------------------------------- the access-token cookie

  const CookieSeparator := "; "
  const TokenCookiePrefix := "access_token="

  /** `Array.prototype.find` with `startsWith`: the first row with the prefix. */
  function FindRow(rows: seq<string>, prefix: string): (r: Option<string>)
    ensures r.None? <==> forall k :: 0 <= k < |rows| ==> !StartsWith(rows[k], prefix)
    ensures r.Some? ==> exists k ::
      && 0 <= k < |rows| && rows[k] == r.value && StartsWith(rows[k], prefix)
      && forall j :: 0 <= j < k ==> !StartsWith(rows[j], prefix)
  {
    if |rows| == 0 then None
    else if StartsWith(rows[0], prefix) then Some(rows[0])
    else
      var r := FindRow(rows[1..], prefix);
      assert forall k :: 1 <= k < |rows| ==> rows[k] == rows[1..][k - 1];
      r
  }

  /** A row starting with "access_token=" splits at the '=' after the name. */
  lemma TokenRowSplit(row: string)
    requires StartsWith(row, TokenCookiePrefix)
    ensures |Split(row, "=")| >= 2 && Split(row, "=")[1] == Split(row[13..], "=")[0]
  {
    assert row[..13] == TokenCookiePrefix;
    assert row[12..13] == "=";
    forall j | 0 <= j < 12 ensures !OccursAt("=", row, j) {
      assert row[j..j + 1] == [TokenCookiePrefix[j]];
    }
    FindFromFirst(row, "=", 12);
    SplitFirstPiece(row, "=");
    assert Split(row, "=")[1] == Split(row, "=")[1..][0];
  }

  /** The token read from `document.cookie`: the text after "access_token=" up to the next '='. */
  function CookieToken(cookie: string): Option<string> {
    match FindRow(Split(cookie, CookieSeparator), TokenCookiePrefix)
    case None => None
    case Some(row) =>
      TokenRowSplit(row);
      Some(Split(row, "=")[1])
  }

  /** The token is found exactly when some cookie row starts with "access_token=". */
  lemma CookieTokenFound(cookie: string)
    ensures CookieToken(cookie).None? <==>
      forall k :: 0 <= k < |Split(cookie, CookieSeparator)| ==> !StartsWith(Split(cookie, CookieSeparator)[k], TokenCookiePrefix)
  {
  }

  /** The token of one row is the longest '='-free prefix of its value. */
  lemma RowTokenIsValuePrefix(row: string)
    requires StartsWith(row, TokenCookiePrefix)
    ensures |Split(row, "=")| >= 2
    ensures var value := row[13..]; var t := Split(row, "=")[1];
      StartsWith(value, t) && !Contains(t, "=") && (|t| == |value| || value[|t|] == '=')
  {
    var value := row[13..];
    TokenRowSplit(row);
    assert Split(row, "=")[1] == Split(value, "=")[0];
    FirstPieceStopsAtSeparator(value, "=");
  }

  /** The token is the longest '='-free prefix of the value of the first row starting with "access_token=". */
  lemma CookieTokenIsValuePrefix(cookie: string)
    requires CookieToken(cookie).Some?
    ensures exists k ::
      && 0 <= k < |Split(cookie, CookieSeparator)| && StartsWith(Split(cookie, CookieSeparator)[k], TokenCookiePrefix)
      && (forall j :: 0 <= j < k ==> !StartsWith(Split(cookie, CookieSeparator)[j], TokenCookiePrefix))
      && var value := Split(cookie, CookieSeparator)[k][13..];
         var t := CookieToken(cookie).value;
         StartsWith(value, t) && !Contains(t, "=") && (|t| == |value| || value[|t|] == '=')
  {
    var rows := Split(cookie, CookieSeparator);
    var row := FindRow(rows, TokenCookiePrefix).value;
    var k :| 0 <= k < |rows| && rows[k] == row && StartsWith(rows[k], TokenCookiePrefix)
      && forall j :: 0 <= j < k ==> !StartsWith(rows[j], TokenCookiePrefix);
    RowTokenIsValuePrefix(row);
  }

  /**
   * A cookie jar whose first cookie is the access token, followed by nothing or by
   * further cookies, yields that token when it holds no '=' and no ';' (as a JWS in
   * compact form does not).
   */
  lemma CookieTokenReadsBack(token: string, rest: string)
    requires '=' !in token && ';' !in token
    requires rest == "" || StartsWith(rest, CookieSeparator)
    ensures CookieToken(TokenCookiePrefix + token + rest) == Some(token)
  {
    var first := TokenCookiePrefix + token;
    var cookie := first + rest;
    var p := |first|;
    assert ';' !in first by {
      assert forall i :: 0 <= i < 13 ==> first[i] == TokenCookiePrefix[i];
      assert forall i :: 13 <= i < p ==> first[i] == token[i - 13];
    }
    forall j | 0 <= j < p ensures !OccursAt(CookieSeparator, cookie, j) {
      if OccursAt(CookieSeparator, cookie, j) {
        CharAt(CookieSeparator, cookie, j, 0);
      }
    }
    if rest == "" {
      assert cookie == first;
      NotContainsChar(first, CookieSeparator);
      SplitWithout(first, CookieSeparator);
    } else {
      assert cookie[p..p + 2] == rest[..2];
      FindFromFirst(cookie, CookieSeparator, p);
      SplitFirstPiece(cookie, CookieSeparator);
      assert cookie[..p] == first;
    }
    assert Split(cookie, CookieSeparator)[0] == first;
    assert first[..13] == TokenCookiePrefix;
    assert first[13..] == token;
    TokenRowSplit(first);
    NotContainsChar(token, "=");
    SplitWithout(token, "=");
  }

  /** One assignment to `document.cookie`. */
  datatype CookieAssignment = CookieAssignment(name: string, value: string, path: string, sameSite: string, expiresMs: int)

  // ---------------------------------------------------------------- copyright

  /**
   * The footer text as the page renders it: the en dash is written as the HTML entity
   * inside a JavaScript string, so it appears literally, and JSX joins the expression
   * and the following text line without a space.
   */
  function CopyrightAsWritten(year: nat): string {
    "© " + NatToString(2025) + (if year > 2025 then "&ndash;" + NatToString(year) else "") + DashLogin.Authors
  }

  lemma AuthorsStart()
    ensures DashLogin.Authors[0] == 'A'
  {
  }

  /** The rendered text differs from the intended notice in every year. */
  lemma CopyrightAsWrittenDiffers(year: nat)
    ensures CopyrightAsWritten(year) != DashLogin.Copyright(year)
    ensures year > 2025 ==> CopyrightAsWritten(year)[6..13] == "&ndash;"
  {
    DashLogin.CopyrightYearText();
    DashLogin.CopyrightYearRange(year);
    if year > 2025 {
      assert CopyrightAsWritten(year)[6] == '&';
      assert DashLogin.Copyright(year)[6] == DashLogin.NDash;
    } else {
      assert CopyrightAsWritten(year) == "© 2025" + DashLogin.Authors;
      AuthorsStart();
      assert CopyrightAsWritten(year)[6] == 'A';
      assert DashLogin.Copyright(year)[6] == ' ';
    }
  }

  // ---------------------------------------------------------------- the page

  /** The state of the login page: its error message, the message's display, the location and the cookies written. */
  class LoginPage {
    var errMsg: string
    var errMsgDisplay: string
    var location: string
    var cookieWrites: seq<CookieAssignment>

    /** The page as first rendered at `location`. */
    constructor(location: string)
      ensures errMsg == "" && errMsgDisplay == "none"
      ensures this.location == location && cookieWrites == []
    {
      errMsg := "";
      errMsgDisplay := "none";
      this.location := location;
      cookieWrites := [];
    }

    /** The first half of the mount effect: show the message for a non-empty `error` parameter. */
    method ShowUrlError(search: string)
      modifies this`errMsg, this`errMsgDisplay
      ensures var error := SearchError(search);
        if error.Some? && error.value != "" then errMsg == ErrorMessage(error.value) && errMsgDisplay == "block"
        else errMsg == old(errMsg) && errMsgDisplay == old(errMsgDisplay)
    {
      var error := SearchError(search);
      if error.Some? && error.value != "" {
        errMsg := ErrorMessage(error.value);
        errMsgDisplay := "block";
      }
    }

    /**
     * The second half of the mount effect: with a non-empty token in the cookie, ask
     * the validation endpoint and go there on a 200 answer. `probe` stands for that
     * request: it is given the Cookie header the code sets, and gives the status, or
     * `None` when the request throws. A browser drops a `Cookie` header set on `fetch`
     * and sends its cookie jar instead, so `probe` is the answer to what is actually sent.
     */
    method RedirectIfTokenValid(cookie: string, probe: string -> Option<int>)
      modifies this`location
      ensures var token := CookieToken(cookie);
        if token.Some? && token.value != "" && probe(TokenCookiePrefix + token.value) == Some(200)
        then location == RedirectUrl
        else location == old(location)
    {
      var token := CookieToken(cookie);
      if token.Some? && token.value != "" {
        var status := probe(TokenCookiePrefix + token.value);
        if status == Some(200) {
          location := RedirectUrl;
        }
      }
    }

    /**
     * `login`: on 200 write the token cookie, valid one day from `nowMs`, and go to the
     * validation URL; otherwise show the answer's detail.
     */
    method Login(result: ApiResult, nowMs: int)
      modifies this
      ensures result.statusCode == 200 ==>
        && cookieWrites == old(cookieWrites) + [CookieAssignment("access_token", TokenText(result.payload), "/", "Lax", nowMs + OneDayMs)]
        && location == RedirectUrl
        && errMsg == old(errMsg) && errMsgDisplay == old(errMsgDisplay)
      ensures result.statusCode != 200 ==>
        && errMsg == DetailText(result.payload) && errMsgDisplay == "block"
        && cookieWrites == old(cookieWrites) && location == old(location)
    {
      if result.statusCode == 200 {
        cookieWrites := cookieWrites + [CookieAssignment("access_token", TokenText(result.payload), "/", "Lax", nowMs + OneDayMs)];
        location := RedirectUrl;
      } else {
        errMsg := DetailText(result.payload);
        errMsgDisplay := "block";
      }
    }

    /**
     * Submitting the form: validation first; only a valid form calls the token endpoint
     * (`fetch`, given the request's form fields) and logs in with its result.
     */
    method Submit(username: string, password: string, fetch: seq<(string, string)> -> FetchOutcome, nowMs: int)
      returns (errors: map<string, string>)
      modifies this
      ensures errors == FormErrors(username, password)
      ensures errors != map[] ==>
        errMsg == old(errMsg) && errMsgDisplay == old(errMsgDisplay) && location == old(location) && cookieWrites == old(cookieWrites)
      ensures errors == map[] ==> var result := CallTokenApi(fetch(TokenForm(username, password)));
        && (result.statusCode == 200 ==>
              cookieWrites == old(cookieWrites) + [CookieAssignment("access_token", TokenText(result.payload), "/", "Lax", nowMs + OneDayMs)]
              && location == RedirectUrl && errMsg == old(errMsg) && errMsgDisplay == old(errMsgDisplay))
        && (result.statusCode != 200 ==>
              errMsg == DetailText(result.payload) && errMsgDisplay == "block"
              && cookieWrites == old(cookieWrites) && location == old(location))
    {
      errors := FormErrors(username, password);
      if errors == map[] {
        Login(CallTokenApi(fetch(TokenForm(username, password))), nowMs);
      }
    }
  }
}
