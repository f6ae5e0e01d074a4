# Authentication core of the hospital digital-twin demo, in Dafny

This project models the authentication service of the `dt-demo-gcp` repository and the small decision functions around it, and proves properties of the model:

- `auth.py`: checking credentials, minting a signed JWT (HS256) with `iss`, `sub`, `iat` and `exp`, and sorting every decoding failure into one of `expired_token`, `jwt_error` or `unexpected_error`.
- `models.py`: the username and password length constraints, their optional copies, and the shapes of `User`, `UserCreate` and `UserUpdate`.
- `dash_login.py`: the Dash login page. It maps the `error=` code in the URL to a message. It maps the form input and the token endpoint's status to a redirect and a cookie. It also builds the copyright notice.
- `App.tsx`: the React login page. It has its own, smaller error-code table, validates the form and calls the token endpoint. It writes and reads the `access_token` cookie and redirects a user who already holds a valid token. The page's state (message, display, location and cookie writes) is a class.
- `git_stamp.py`: the https URL of the `origin` remote, the `±HHMM` form of a UTC offset, and the short commit hash with its dirty flag.

Modules and files:

| file | module | contents |
|---|---|---|
| `wrappers.dfy` | `Wrappers` | `Option`, `Result` |
| `strings.dfy` | `Strings` | substring search, `split` with a non-empty separator, `join`, prefix and suffix |
| `encoding.dfy` | `Encoding` | decimal and hexadecimal text, the canonical 8-4-4-4-12 form of a UUID |
| `http.dfy` | `Http` | status codes and `HTTPException` |
| `models.py` → `models.dfy` | `Models` | field constraints, user records, the users table as a map |
| `jose.dfy` | `Jose` | a symbolic JWS/JWT library: signing, verification, claim checks, the exception classes |
| `auth.py` → `auth.dfy` | `Auth` | `authenticate_user`, `decode_jwt_token` |
| `dash_login.py` → `dash_login.dfy` | `DashLogin` | error messages, fragment extraction, `login`, `copyright` |
| `App.tsx` → `login_app.dfy` | `LoginApp` | error messages, query and cookie parsing, the `LoginPage` class |
| `git_stamp.py` → `git_stamp.dfy` | `GitStamp` | remote URL, UTC offset, short hash |

The cryptography is symbolic. A token carries its header, its claims and a tag `Hmac(key, header, claims)`. It verifies under a key exactly when the tag was made with that key over that header and those claims, so HMAC-SHA256 is treated as a perfect MAC. bcrypt is the parameter `checkPw`. The clock is the parameter `now`, and the users table is a `map` from username to `User`. The HTTP calls of the two login pages are function parameters (`post`, `fetch`, `probe`) whose answers the model branches on.

Where a description and the code could differ, the model follows the code. For example, the React page does not know the `credentials`, `empty_fields` or `unexpected_error` codes, and shows them as "Unknown error: <code>". `LoginApp.DashCodesOnThisPage` and `LoginApp.DecodeErrorCodesOnThisPage` state this.

## Model

| member | source | states |
|---|---|---|
| Strings.FindFrom | dt-demo-gcp-auth/src/dt_demo_gcp/auth/dash_login.py:131 | the search finds the leftmost occurrence of the separator at or after the start index, and finds none exactly when there is none |
| Strings.ContainsIff | dt-demo-gcp-auth/src/dt_demo_gcp/auth/dash_login.py:131 | `"error=" in search` holds exactly when the marker occurs at some index |
| Strings.Split | dt-demo-gcp-auth/src/dt_demo_gcp/auth/dash_login.py:131 | `str.split` with a non-empty separator gives at least one piece, so `[-1]` always exists |
| Strings.JoinSplit | dt-demo-gcp-auth/src/dt_demo_gcp/auth/dash_login.py:131 | joining the pieces with the separator gives back the string |
| Strings.SplitPiecesFree | dt-demo-gcp-auth/src/dt_demo_gcp/auth/dash_login.py:131 | no piece of a split contains the separator |
| Strings.JoinLast | dt-demo-gcp-auth/src/dt_demo_gcp/auth/dash_login.py:131 | joining the pieces puts the separator right before the last piece |
| Strings.FirstPieceStopsAtSeparator | dt-demo-gcp-login/src/App.tsx:210 | the first piece of a split on one character is a prefix free of it, ended by that character or by the end of the string |
| Strings.LastPieceFollowsLastOccurrence | dt-demo-gcp-auth/src/dt_demo_gcp/auth/dash_login.py:131 | for a separator whose occurrences cannot overlap, the last piece is exactly the text after the last occurrence |
| Encoding.NatToString | dt-demo-gcp-auth/src/dt_demo_gcp/auth/dash_login.py:31 | `str(n)` is a non-empty digit string without a leading zero |
| Encoding.NatToStringRoundTrip | dt-demo-gcp-auth/src/dt_demo_gcp/auth/dash_login.py:31 | reading `str(n)` back as decimal gives `n` |
| Encoding.NatToStringInjective | dt-demo-gcp-auth/src/dt_demo_gcp/auth/dash_login.py:31 | different years give different texts |
| Encoding.ZeroPad2 | templates/ipynb/git_stamp.py:40 | `f"{n:02}"` has at least two digits, exactly two below 100, and reads back as `n` |
| Encoding.IntText | dt-demo-gcp-auth/src/dt_demo_gcp/auth/auth.py:80 | Python's `int()` on text: surrounding whitespace, an optional sign and decimal digits; Encoding.IntTextOfString and Encoding.IntTextRoundTrip read `str(n)` back through it, and Encoding.IntTextRejects names what it refuses |
| Encoding.IntTextOfString | dt-demo-gcp-auth/src/dt_demo_gcp/auth/auth.py:80 | `int(str(n)) == n` for every integer |
| Encoding.IntTextRoundTrip | dt-demo-gcp-auth/src/dt_demo_gcp/auth/auth.py:80 | `int()` reads `str(n)` with any whitespace around it back as `n` |
| Encoding.IntTextRejects | dt-demo-gcp-auth/src/dt_demo_gcp/auth/auth.py:80 | text holding a character that is neither whitespace, a sign nor a digit is not a number |
| Encoding.Hex | dt-demo-gcp-auth/src/dt_demo_gcp/auth/auth.py:66 | the hex text of bytes has two lower-case hex digits per byte |
| Encoding.HexRoundTrip | dt-demo-gcp-auth/src/dt_demo_gcp/auth/auth.py:66 | parsing the hex text gives back the bytes |
| Encoding.UuidString | dt-demo-gcp-auth/src/dt_demo_gcp/auth/auth.py:66 | `str(user.id)` has 36 characters |
| Encoding.UuidRoundTrip | dt-demo-gcp-auth/src/dt_demo_gcp/auth/auth.py:66 | parsing `str(id)` gives back the id, so the `sub` claim names the user |
| Encoding.UuidStringInjective | dt-demo-gcp-auth/src/dt_demo_gcp/auth/auth.py:66 | different users have different `sub` claims |
| Models.UserNameBounds | dt-demo-gcp-auth/src/dt_demo_gcp/auth/models.py:17-19 | a username is accepted exactly when its length is 1 to 40; a missing one is refused |
| Models.Accepts | dt-demo-gcp-auth/src/dt_demo_gcp/auth/models.py:17-32 | a field accepts a value within its length bounds, and `None` only when it has a default; Models.UserNameBounds, Models.PlaintextPasswordBounds and Models.OptionalCopyKeepsBounds state this for each field |
| Models.PlaintextPasswordBounds | dt-demo-gcp-auth/src/dt_demo_gcp/auth/models.py:28-30 | a plaintext password is accepted exactly when its length is 8 to 40; a missing one is refused |
| Models.OptionalCopyKeepsBounds | dt-demo-gcp-auth/src/dt_demo_gcp/auth/models.py:20-32 | the optional copy accepts a value exactly when the original does and also accepts `None`, while the original still refuses `None` |
| Models.UpdateWithoutChangesValid | dt-demo-gcp-auth/src/dt_demo_gcp/auth/models.py:75-78 | an update with no new values is valid exactly when the mandatory current password is 8 to 40 long |
| Models.ApplyUpdate | dt-demo-gcp-auth/src/dt_demo_gcp/auth/models.py:63-78 | the update is refused exactly when the current password does not match the stored hash; otherwise `None` for a new username or password keeps the stored value, a given one replaces it (the password by its hash), and the id never changes |
| Models.ApplyUpdateKeepsValid | dt-demo-gcp-auth/src/dt_demo_gcp/auth/models.py:70-78 | a valid update whose current password matches is applied, and turns a valid user into a valid user |
| Models.FindByUsernameExact | dt-demo-gcp-auth/src/dt_demo_gcp/auth/auth.py:44-46 | in a table whose usernames are the keys of their rows, the lookup returns exactly the user with that username, whatever its length, and none when there is none |
| Models.FindByUsername | dt-demo-gcp-auth/src/dt_demo_gcp/auth/auth.py:44-46 | the `select … where username ==` lookup; Models.FindByUsernameExact states what it finds |
| Jose.Sign | dt-demo-gcp-auth/src/dt_demo_gcp/auth/auth.py:65-69 | the token carries the given claims under a header naming the algorithm |
| Jose.SignatureValidIff | dt-demo-gcp-auth/src/dt_demo_gcp/auth/auth.py:80 | a signed token verifies under the signing key and under no other key |
| Jose.PyInt | dt-demo-gcp-auth/src/dt_demo_gcp/auth/auth.py:80 | `int()` on a decoded claim value, as the library's time checks apply it; Jose.PyIntAccepts states what it converts and what it raises |
| Jose.PyIntAccepts | dt-demo-gcp-auth/src/dt_demo_gcp/auth/auth.py:80 | integers, floats (to their integer part) and booleans convert, the text of any integer with whitespace around it converts to that integer, and `TypeError` is raised exactly for null, an array or an object |
| Jose.ClaimChecks | dt-demo-gcp-auth/src/dt_demo_gcp/auth/auth.py:80 | the library's claim checks in its order: `iat`, `nbf`, `exp`, `aud`, `sub`, `jti`, `at_hash`; Jose.ValidateClaims, Jose.ExpiredSignatureIff and Jose.TypeErrorIff state their combined effect |
| Jose.FirstFailure | dt-demo-gcp-auth/src/dt_demo_gcp/auth/auth.py:80 | the error is the first failing check's, and there is none exactly when every check passes |
| Jose.ValidateClaims | dt-demo-gcp-auth/src/dt_demo_gcp/auth/auth.py:80 | the claims pass exactly when `iat` converts with `int()`, `nbf` converts to a time not after `now`, `exp` converts to a time not before `now`, there is no `aud` and no `at_hash`, and `sub` and `jti` are strings where present; passing claims are unchanged, and a failure is only a claims error, an expired signature or a `TypeError` |
| Jose.ExpiredSignatureIff | dt-demo-gcp-auth/src/dt_demo_gcp/auth/auth.py:80-82 | an expired signature is raised exactly when `iat` and `nbf` pass and `exp` converts to a time before `now` |
| Jose.TypeErrorIff | dt-demo-gcp-auth/src/dt_demo_gcp/auth/auth.py:80 | a `TypeError` escapes exactly when the first time claim that does not pass is null, an array or an object |
| Jose.Decode | dt-demo-gcp-auth/src/dt_demo_gcp/auth/auth.py:80 | decoding succeeds only with a key under which the token verifies, and returns the token's claims |
| Jose.DecodeSigned | dt-demo-gcp-auth/src/dt_demo_gcp/auth/auth.py:80 | decoding an HS256 token with its own key only performs the claim checks |
| Jose.DecodeWrongKey | dt-demo-gcp-auth/src/dt_demo_gcp/auth/auth.py:80 | decoding with another key fails with `JWTError` whatever the claims |
| Auth.ClaimsRoundTrip | dt-demo-gcp-auth/src/dt_demo_gcp/auth/auth.py:20-26 | validating the claims written from a `JWTUser` gives back that `JWTUser` |
| Auth.FromClaims | dt-demo-gcp-auth/src/dt_demo_gcp/auth/auth.py:20-26 | pydantic validation into `JWTUser`; Auth.ClaimsRoundTrip and Auth.TextClaimsReadBack read back what was written, Auth.UnexpectedOnlyForClaimShape says when it fails |
| Auth.LaxInt | dt-demo-gcp-auth/src/dt_demo_gcp/auth/auth.py:25-26 | pydantic's lax `int` for `iat` and `exp`; Auth.LaxIntAgreesWithInt relates it to the library's `int()` |
| Auth.LaxIntAgreesWithInt | dt-demo-gcp-auth/src/dt_demo_gcp/auth/auth.py:25-26 | a value pydantic reads as a number `int()` reads as the same number, and the only value `int()` converts that pydantic refuses is a float with a fractional part |
| Auth.TextClaimsReadBack | dt-demo-gcp-auth/src/dt_demo_gcp/auth/auth.py:20-26 | claims whose `iat` and `exp` are the text `str(n)` of the times validate into the `JWTUser` with those times |
| Auth.TextClaimsPassChecks | dt-demo-gcp-auth/src/dt_demo_gcp/auth/auth.py:80 | the library accepts such claims while `exp` has not passed |
| Auth.AuthenticateUser | dt-demo-gcp-auth/src/dt_demo_gcp/auth/auth.py:36-70 | a failure is either the 500 missing-key error or the 401 invalid-credentials error; a success has a key, token type "bearer" and a token that verifies under that key |
| Auth.SecretKeyCheckedFirst | dt-demo-gcp-auth/src/dt_demo_gcp/auth/auth.py:38-41 | without a key the result is 500 "JWT secret key is not set.", whatever the users and credentials |
| Auth.UnknownUserRejected | dt-demo-gcp-auth/src/dt_demo_gcp/auth/auth.py:47-51 | an unknown username gets 401 "Invalid username or password" |
| Auth.NoUsernameEnumeration | dt-demo-gcp-auth/src/dt_demo_gcp/auth/auth.py:54-60 | an unknown user and a known user with a wrong password get the identical error |
| Auth.AuthenticateSucceedsIff | dt-demo-gcp-auth/src/dt_demo_gcp/auth/auth.py:36-70 | login succeeds exactly when a key is set, the user exists and the password matches the stored hash |
| Auth.IssuedTokenClaims | dt-demo-gcp-auth/src/dt_demo_gcp/auth/auth.py:62-70 | a successful login returns a bearer response whose HS256 token carries `iss = "dt-demo-gcp"`, `sub = str(user.id)`, `iat = now` and `exp = now + 86400`, with `iat < exp` |
| Auth.IssuedTokenRoundTrip | dt-demo-gcp-auth/src/dt_demo_gcp/auth/auth.py:65-80 | decoding a minted token with the same key no later than `exp` returns the minted claims, and its `sub` parses back to the user's id |
| Auth.IssuedTokenExpires | dt-demo-gcp-auth/src/dt_demo_gcp/auth/auth.py:81-82 | the same token decoded after `exp` fails with `expired_token` |
| Auth.IssuedTokenOtherKey | dt-demo-gcp-auth/src/dt_demo_gcp/auth/auth.py:83-84 | the same token decoded with any other key fails with `jwt_error` |
| Auth.ClassifyOrder | dt-demo-gcp-auth/src/dt_demo_gcp/auth/auth.py:81-86 | an expired signature is a JOSE error yet is classified `expired_token`; `jwt_error` exactly for the other JOSE errors; `unexpected_error` exactly for the rest |
| Auth.DecodeErrorCodesDistinct | dt-demo-gcp-auth/src/dt_demo_gcp/auth/auth.py:81-86 | the three error codes are pairwise different |
| Auth.DecodeSucceedsIff | dt-demo-gcp-auth/src/dt_demo_gcp/auth/auth.py:79-80 | decoding succeeds exactly for an HS256 token verified by the configured key whose claims pass the library's checks and have the `JWTUser` shape; it returns those claims, whose `exp` is not before `now` |
| Auth.DecodeWithoutKey | dt-demo-gcp-auth/src/dt_demo_gcp/auth/auth.py:79-84 | with no key configured every token is refused as `jwt_error` |
| Auth.ExpiredOnlyWhenGenuine | dt-demo-gcp-auth/src/dt_demo_gcp/auth/auth.py:81-82 | `expired_token` is reported exactly for a genuine token whose `iat` and `nbf` pass and whose `exp`, integer, float, boolean or the text of an integer, converts to a time in the past |
| Auth.UnexpectedOnlyForClaimShape | dt-demo-gcp-auth/src/dt_demo_gcp/auth/auth.py:85-86 | `unexpected_error` is reported exactly for a genuine token whose time claims make `int()` raise `TypeError`, or whose claims pass the checks but lack the `JWTUser` shape |
| Auth.ParseJwtUser | dt-demo-gcp-auth/src/dt_demo_gcp/auth/auth.py:80 | `JWTUser(token, key=key)`: decode, then validate the claims; Auth.DecodeSucceedsIff states when it succeeds |
| Auth.Classify | dt-demo-gcp-auth/src/dt_demo_gcp/auth/auth.py:81-86 | the `except` chain; Auth.ClassifyOrder states which error gives which code |
| Auth.DecodeJwtToken | dt-demo-gcp-auth/src/dt_demo_gcp/auth/auth.py:73-86 | `decode_jwt_token`; Auth.DecodeSucceedsIff, Auth.ExpiredOnlyWhenGenuine and Auth.UnexpectedOnlyForClaimShape give, for each outcome, exactly the tokens that produce it |
| Auth.TextualTimesAccepted | dt-demo-gcp-auth/src/dt_demo_gcp/auth/auth.py:79-80 | a genuine token whose `iat` and `exp` are written as text is accepted while unexpired, and the times read back as numbers |
| Auth.ExpiredTextualExpiry | dt-demo-gcp-auth/src/dt_demo_gcp/auth/auth.py:81-82 | a genuine token whose expiry is the text of a past time gives `expired_token` |
| Auth.NonStringSubjectIsJwtError | dt-demo-gcp-auth/src/dt_demo_gcp/auth/auth.py:83-84 | a genuine token whose `sub` is not a string gives `jwt_error`, from the library's subject check, once its time claims pass and it has no `aud` |
| DashLogin.CopyrightYearRange | dt-demo-gcp-auth/src/dt_demo_gcp/auth/dash_login.py:29-34 | the year part is "2025" up to 2025 and "2025–<year>" afterwards, the digits reading back as the year |
| DashLogin.CopyrightShowsYear | dt-demo-gcp-auth/src/dt_demo_gcp/auth/dash_login.py:29-34 | after 2025 the notice shows an en dash followed by the digits of the year |
| DashLogin.CopyrightAsWrittenHasStrayCharacter | dt-demo-gcp-auth/src/dt_demo_gcp/auth/dash_login.py:31 | the notice as written is the intended notice with "Â" in front |
| DashLogin.Copyright | dt-demo-gcp-auth/src/dt_demo_gcp/auth/dash_login.py:26-34 | the intended notice; DashLogin.CopyrightYearRange and DashLogin.CopyrightShowsYear state its year part |
| DashLogin.CopyrightAsWritten | dt-demo-gcp-auth/src/dt_demo_gcp/auth/dash_login.py:26-34 | `copyright()` as written; DashLogin.CopyrightAsWrittenHasStrayCharacter relates it to the intended notice |
| DashLogin.ParseErrorFragmentMatchesTable | dt-demo-gcp-auth/src/dt_demo_gcp/auth/dash_login.py:37-53 | `None` or "" gives ("OK", "none"); each of the six known codes gives its fixed message with "block"; any other code gives "Unknown error: <code>" with "block" |
| DashLogin.KnownMessagesDistinct | dt-demo-gcp-auth/src/dt_demo_gcp/auth/dash_login.py:41-52 | the six known codes have pairwise different messages |
| DashLogin.KnownMessageNotUnknown | dt-demo-gcp-auth/src/dt_demo_gcp/auth/dash_login.py:41-53 | no known message can be mistaken for an "Unknown error" one |
| DashLogin.ErrorMessagesDistinct | dt-demo-gcp-auth/src/dt_demo_gcp/auth/dash_login.py:37-53 | different non-empty codes, known or not, give different messages |
| DashLogin.ParseErrorFragment | dt-demo-gcp-auth/src/dt_demo_gcp/auth/dash_login.py:37-53 | `parse_error_fragment`; DashLogin.ParseErrorFragmentMatchesTable and DashLogin.ErrorMessagesDistinct state its table and that it is one-to-one |
| DashLogin.ErrorFragment | dt-demo-gcp-auth/src/dt_demo_gcp/auth/dash_login.py:131 | the fragment after "error="; DashLogin.ErrorFragmentFollowsLastMarker and DashLogin.ErrorFragmentOfRedirect state which text it takes |
| DashLogin.UpdateErrorMessage | dt-demo-gcp-auth/src/dt_demo_gcp/auth/dash_login.py:125-135 | `update_error_message`; DashLogin.ErrorPagesShowKnownMessage and DashLogin.LoginRedirectShowsKnownMessage state what the login redirects show |
| DashLogin.ErrorFragmentFollowsLastMarker | dt-demo-gcp-auth/src/dt_demo_gcp/auth/dash_login.py:131 | the fragment is `None` without "error=", and otherwise the text after the last "error=" |
| DashLogin.ErrorFragmentOfRedirect | dt-demo-gcp-auth/src/dt_demo_gcp/auth/dash_login.py:131 | a URL ending in "error=<code>" with an '='-free code yields that code |
| DashLogin.EmptyFieldsSkipEndpoint | dt-demo-gcp-auth/src/dt_demo_gcp/auth/dash_login.py:153-154 | an empty username or password gives ("/login?error=empty_fields", True) whatever the endpoint would answer |
| DashLogin.FilledFormIsPosted | dt-demo-gcp-auth/src/dt_demo_gcp/auth/dash_login.py:159-167 | with both fields filled in, only the endpoint's answer to the password-grant form of those credentials matters |
| DashLogin.LoginCookieOnlyOnSuccess | dt-demo-gcp-auth/src/dt_demo_gcp/auth/dash_login.py:173-201 | a cookie is set exactly on a 200 answer carrying `access_token`; it then holds the token with max age 86400, HTTP-only, SameSite Lax, and the page goes to "/validate" |
| DashLogin.LoginStatusRedirects | dt-demo-gcp-auth/src/dt_demo_gcp/auth/dash_login.py:203-207 | 401 goes to "/login/?error=credentials"; any other non-200 status to "/login/?error=unexpected_error" |
| DashLogin.LoginTargets | dt-demo-gcp-auth/src/dt_demo_gcp/auth/dash_login.py:149-207 | the login only navigates to "/validate" or one of the three error pages |
| DashLogin.Login | dt-demo-gcp-auth/src/dt_demo_gcp/auth/dash_login.py:149-207 | `login`; DashLogin.EmptyFieldsSkipEndpoint, DashLogin.FilledFormIsPosted, DashLogin.LoginCookieOnlyOnSuccess, DashLogin.LoginStatusRedirects and DashLogin.LoginTargets state its outcomes |
| DashLogin.LoginRedirectShowsKnownMessage | dt-demo-gcp-auth/src/dt_demo_gcp/auth/dash_login.py:153-207 | every error page the login redirects to names a known code, so the page shows its message visibly |
| DashLogin.ErrorPagesShowKnownMessage | dt-demo-gcp-auth/src/dt_demo_gcp/auth/dash_login.py:131-133 | each of the three error pages yields its known code and message |
| DashLogin.RefusedCredentialsMessage | dt-demo-gcp-auth/src/dt_demo_gcp/auth/dash_login.py:203-204 | when the endpoint answers 401, whatever the body, the page shows the same text as the service's 401 detail |
| DashLogin.DecodeErrorCodesShown | dt-demo-gcp-auth/src/dt_demo_gcp/auth/dash_login.py:37-53 | every code of token decoding is known to the Dash page and shows its own message |
| LoginApp.CallTokenApiFailure | dt-demo-gcp-login/src/App.tsx:54-101 | a thrown request or unparsable body gives status 500 with detail "Internal Server Error"; otherwise the answer's status and body |
| LoginApp.CallTokenApi | dt-demo-gcp-login/src/App.tsx:54-101 | `callTokenApi`; LoginApp.CallTokenApiFailure states its result |
| LoginApp.DetailText | dt-demo-gcp-login/src/App.tsx:129-131 | the error text shown after a failed login; LoginApp.LoginPage.Login states where it goes |
| LoginApp.FormErrorsIff | dt-demo-gcp-login/src/App.tsx:180-181 | the form has no errors exactly when both fields are non-empty; an empty username gets "Username is required" and an empty password "Password is required", and only an empty field gets a message |
| LoginApp.FormErrors | dt-demo-gcp-login/src/App.tsx:173-184 | the form's validation; LoginApp.FormErrorsIff states its messages |
| LoginApp.ErrorMessageMatchesTable | dt-demo-gcp-login/src/App.tsx:193-200 | the three known codes give their messages and any other code "Unknown error: <code>" |
| LoginApp.ErrorMessagesDistinct | dt-demo-gcp-login/src/App.tsx:193-200 | different codes give different messages, known or not |
| LoginApp.ErrorMessage | dt-demo-gcp-login/src/App.tsx:193-200 | the message for an `error` parameter; LoginApp.ErrorMessageMatchesTable and LoginApp.ErrorMessagesDistinct state its table and that it is one-to-one |
| LoginApp.DecodeErrorCodesOnThisPage | dt-demo-gcp-login/src/App.tsx:193-200 | `expired_token` and `jwt_error` are known here; `unexpected_error` shows as an unknown error |
| LoginApp.DashCodesOnThisPage | dt-demo-gcp-login/src/App.tsx:193-200 | of the Dash page's codes only the three token codes are known here; `credentials` and `empty_fields` show as unknown errors |
| LoginApp.FirstValue | dt-demo-gcp-login/src/App.tsx:189-190 | `get` returns the value of the first non-empty pair with the name, and `null` exactly when there is none |
| LoginApp.SearchErrorOfRedirect | dt-demo-gcp-login/src/App.tsx:189-190 | the search string "?error=<code>" yields the code when it holds no '&' |
| LoginApp.QueryGet | dt-demo-gcp-login/src/App.tsx:189-190 | `URLSearchParams.get`; LoginApp.FirstValue states which value it returns |
| LoginApp.SearchError | dt-demo-gcp-login/src/App.tsx:189-190 | the `error` parameter of the page's search string; LoginApp.SearchErrorOfRedirect states what it reads |
| LoginApp.FindRow | dt-demo-gcp-login/src/App.tsx:207-209 | `find` returns the first row with the prefix, and nothing exactly when no row has it |
| LoginApp.TokenRowSplit | dt-demo-gcp-login/src/App.tsx:210 | a row starting with "access_token=" splits into at least two pieces at '=' |
| LoginApp.CookieTokenFound | dt-demo-gcp-login/src/App.tsx:207-210 | a token is found exactly when some "; "-separated row starts with "access_token=" |
| LoginApp.RowTokenIsValuePrefix | dt-demo-gcp-login/src/App.tsx:210 | the token of a row is the longest '='-free prefix of its value |
| LoginApp.CookieTokenIsValuePrefix | dt-demo-gcp-login/src/App.tsx:207-210 | the token is the longest '='-free prefix of the value of the first "access_token=" row |
| LoginApp.CookieTokenReadsBack | dt-demo-gcp-login/src/App.tsx:207-210 | a jar whose first cookie is `access_token=<t>`, t free of '=' and ';', yields t |
| LoginApp.CookieToken | dt-demo-gcp-login/src/App.tsx:207-210 | the `access_token` cookie; LoginApp.CookieTokenFound, LoginApp.CookieTokenIsValuePrefix and LoginApp.CookieTokenReadsBack state what it finds |
| LoginApp.CopyrightAsWrittenDiffers | dt-demo-gcp-login/src/App.tsx:40-52 | the footer as rendered differs from the intended notice in every year, showing "&ndash;" literally after 2025 |
| LoginApp.CopyrightAsWritten | dt-demo-gcp-login/src/App.tsx:40-52 | `copyright()` as rendered; LoginApp.CopyrightAsWrittenDiffers relates it to the intended notice |
| LoginApp.LoginPage.constructor | dt-demo-gcp-login/src/App.tsx:169-170 | the page starts with an empty message, hidden, and no cookie written |
| LoginApp.LoginPage.ShowUrlError | dt-demo-gcp-login/src/App.tsx:186-203 | a non-empty `error` parameter sets its message and "block"; an absent or empty one leaves both unchanged |
| LoginApp.LoginPage.RedirectIfTokenValid | dt-demo-gcp-login/src/App.tsx:206-236 | the page moves to the validation URL exactly when the cookie holds a non-empty token that the validation endpoint answers with 200 |
| LoginApp.LoginPage.Login | dt-demo-gcp-login/src/App.tsx:103-133 | on 200, one `access_token` cookie (Path /, SameSite Lax, expiring 86,400,000 ms after now) is appended and the page moves to the validation URL; otherwise the detail is shown with "block" and nothing else changes |
| LoginApp.LoginPage.Submit | dt-demo-gcp-login/src/App.tsx:252-254 | the form errors are returned; with errors nothing changes, without them the page logs in with the endpoint's result |
| GitStamp.SshRemoteIsShortestMatch | templates/ipynb/git_stamp.py:20-22 | the SSH rewrite answers with groups the pattern matches, the host fixed by the first colon and the path the shortest that fits, and answers nothing only when no groups match |
| GitStamp.SshRemoteRoundTrip | templates/ipynb/git_stamp.py:19-22 | `git@host:path` with or without ".git" becomes `https://host/path` |
| GitStamp.SshRemote | templates/ipynb/git_stamp.py:19-22 | the SSH pattern's rewrite; GitStamp.SshRemoteIsShortestMatch and GitStamp.SshRemoteRoundTrip state its answers |
| GitStamp.RemoveSuffix | templates/ipynb/git_stamp.py:26 | `removesuffix` removes one trailing suffix when present and otherwise returns the string |
| GitStamp.HttpRemote | templates/ipynb/git_stamp.py:25-26 | a URL starting with "http" is returned with a single trailing ".git" removed |
| GitStamp.RemoteHttpsUrlNoneIff | templates/ipynb/git_stamp.py:13-29 | there is no URL exactly when the remote is missing, or it neither matches the SSH pattern nor starts with "http"; any URL starts with "http" |
| GitStamp.RemoteHttpsUrl | templates/ipynb/git_stamp.py:13-29 | `remote_https_url`; GitStamp.RemoteHttpsUrlNoneIff, GitStamp.HttpRemote and GitStamp.SshRemoteRoundTrip state its result |
| GitStamp.CommitLinkShownIff | templates/ipynb/git_stamp.py:75-77 | the commit link is shown exactly when a URL was found |
| GitStamp.CommitLink | templates/ipynb/git_stamp.py:75-77 | the commit link; GitStamp.CommitLinkShownIff states when it is shown |
| GitStamp.OffsetStrReadsBack | templates/ipynb/git_stamp.py:31-41 | a naive time or a `None` offset gives "+0000"; otherwise five characters, "+" exactly for a non-negative offset, reading back as the offset truncated toward zero to whole minutes |
| GitStamp.OffsetStr | templates/ipynb/git_stamp.py:31-41 | `offset_str`; GitStamp.OffsetStrReadsBack states its form and value |
| GitStamp.ShortHash | templates/ipynb/git_stamp.py:62 | the short hash is the first twelve characters of the SHA, or all of a shorter one |
| GitStamp.HashTextOfCommit | templates/ipynb/git_stamp.py:62-64 | for a 40-character SHA the displayed text is its first twelve characters followed by "*" exactly when the tree is dirty |
| GitStamp.DirtyFlag | templates/ipynb/git_stamp.py:63 | the dirty flag; GitStamp.HashTextOfCommit states where it appears |

## Left out

- bcrypt: `checkpw` is the parameter `checkPw`; hashing a new password is the parameter `hashPw`.
- The JWS compact serialisation (base64url, JSON) and HMAC-SHA256 itself: tokens are symbolic, and a string that does not parse is `Garbled`.
- python-jose's claim checks are modelled with the default options of `jwt.decode`: no leeway, no expected audience, issuer or subject, no access token, and no required claims. The `iss` check does nothing without an expected issuer.
- Encoding.IntText: Python's `int()` also accepts underscores between digits, non-ASCII digits and non-ASCII whitespace. These are read as not a number. The limit of 4300 digits is not modelled.
- Auth.LaxInt: pydantic's reading of text as `int` is modelled as Python's `int()`. Its other spellings, such as "1.0", are read as not a number.
- Jose.ClaimValue: JSON's non-standard `NaN` and `Infinity`, which Python's `json` reads as floats, are not modelled. The payload of a token that is not a JSON object counts as `Garbled`.
- Jose.Decode: the header's algorithm is checked before the key, and a `None` key raises `JWKError`. The library's exact order among its header, key and signature checks is not modelled, because `decode_jwt_token` turns each of them into the same `jwt_error`.
- The SQLAlchemy session and query: the users table is a `map` keyed by username.
- Configuration (`config.py`, environment, `.env`) and migrations: the signing key is an `Option<string>` parameter.
- The FastAPI app, its endpoints and the development server.
- The Dash and React layouts and components: only the values the callbacks compute are modelled.
- Network calls (`requests.post`, `fetch`): they become function parameters returning the response or the error.
- `print` and `console` logging.
- DashLogin.Login: the cookie is returned in the outcome rather than set on Flask's response object.
- LoginApp.QueryGet: percent-decoding and '+' to space in `URLSearchParams` are not modelled; names and values are compared as raw text.
- LoginApp.LoginPage.Login: the `Expires` date is kept as milliseconds since the epoch. Its `toUTCString` text, which has one-second resolution, is not modelled.
- LoginApp.DetailText: a missing `detail` would be `undefined`, which React renders as nothing. It is modelled as the empty string.
- JSON values other than strings in the token endpoint's body are not modelled.
- The browser's cookie jar: `LoginPage` records the cookies written, and the cookie string read is a parameter.
- In `git_stamp.py`: GitPython repository access, branch names, `strftime` / `astimezone` formatting of times, and Jupyter `display`.
- GitStamp.OffsetStr: `total_seconds()` is a float. The offset is modelled as whole microseconds, and `int()` truncates toward zero.
- `scripts/uv_scripts.py`, `templates/react-mantine/src/App.tsx` and the database migrations are not part of this model.

## Findings

| source | as written | input that shows it | evidently intended | confidence | as-written member | corrected member |
|---|---|---|---|---|---|---|
| dt-demo-gcp-login/src/App.tsx:44-49 | the en dash is written as the HTML entity `&ndash;` inside a JavaScript string, which React renders as text, and JSX joins the expression to the authors' line without a space | year 2026: the footer reads "© 2025&ndash;2026Anandarup Mukherjee …" | "© 2025–2026 Anandarup Mukherjee …", as on the Dash page | high for the entity, medium for the space; not executed | LoginApp.CopyrightAsWritten (LoginApp.CopyrightAsWrittenDiffers) | DashLogin.Copyright (DashLogin.CopyrightYearRange, DashLogin.CopyrightShowsYear) |
| dt-demo-gcp-auth/src/dt_demo_gcp/auth/dash_login.py:31 | the notice starts with "Â©", the UTF-8 bytes of "©" read as Latin-1 | any year: the Dash footer reads "Â© 2025 …" | "© 2025 …" | medium; not executed | DashLogin.CopyrightAsWritten (DashLogin.CopyrightAsWrittenHasStrayCharacter) | DashLogin.Copyright (DashLogin.CopyrightYearRange, DashLogin.CopyrightShowsYear) |
