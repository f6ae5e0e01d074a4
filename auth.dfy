/**
 * Credential check, token minting and token-decode classification of the
 * authentication service. The password hash check (bcrypt), the clock and the user
 * table are inputs: `checkPw`, `now` and `users`.
 */
module Auth {
  import opened Wrappers
  import opened Encoding
  import opened Models
  import opened Jose
  import opened Http

  /** The `iss` claim of every token this service mints. */
  const Issuer := "dt-demo-gcp"

  /** Token lifetime in seconds: 24 hours. */
  const TokenLifetime := 60 * 60 * 24

  const SecretKeyNotSet := HttpError(StatusInternalServerError, "JWT secret key is not set.")
  const InvalidCredentials := HttpError(StatusUnauthorized, "Invalid username or password")

  /**
   * The claims of an access token (section 4.1 of RFC 7519): issuer, subject (the
   * user id as text), issued-at and expiry, both UNIX timestamps in seconds.
   */
  datatype JwtUser = JwtUser(iss: string, sub: string, iat: int, exp: int)

  function ToClaims(u: JwtUser): ClaimSet {
    map["iss" := Str(u.iss), "sub" := Str(u.sub), "iat" := Int(u.iat), "exp" := Int(u.exp)]
  }

  /**
   * Pydantic's lax `int` field: integers and booleans, floats without a fractional part,
   * and the text of an integer; `None` is a validation error.
   */
  function LaxInt(v: ClaimValue): Option<int> {
    match v
    case Int(n) => Some(n)
    case Float(whole, integral) => if integral then Some(whole) else None
    case Bool(b) => Some(if b then 1 else 0)
    case Str(s) => IntText(s)
    case Null => None
    case Container => None
  }

  /**
   * Where pydantic and the library's `int()` part ways: whatever pydantic reads as a
   * number `int()` reads as the same number, and the only value `int()` converts that
   * pydantic refuses is a float with a fractional part.
   */
  lemma LaxIntAgreesWithInt(v: ClaimValue)
    ensures LaxInt(v).Some? ==> PyInt(v) == Converted(LaxInt(v).value)
    ensures LaxInt(v).None? && PyInt(v).Converted? <==> v.Float? && !v.integral
  {
  }

  /**
   * Pydantic validation of decoded claims into a `JWTUser`: all four fields present,
   * `iss` and `sub` strings, `iat` and `exp` read by the lax `int`; other claims are ignored.
   */
  function FromClaims(c: ClaimSet): Result<JwtUser, Raised> {
    if && "iss" in c && c["iss"].Str? && "sub" in c && c["sub"].Str?
       && "iat" in c && LaxInt(c["iat"]).Some? && "exp" in c && LaxInt(c["exp"]).Some?
    then Success(JwtUser(c["iss"].s, c["sub"].s, LaxInt(c["iat"]).value, LaxInt(c["exp"]).value))
    else Failure(ValidationError)
  }

  /** Validation reads back exactly the claims a `JWTUser` was written as. */
  lemma ClaimsRoundTrip(u: JwtUser)
    ensures FromClaims(ToClaims(u)) == Success(u)
  {
  }

  /** `JWTUser(token, key=key)`: decode and verify the token, then validate its claims. */
  function ParseJwtUser(token: Token, key: Option<string>, now: int): Result<JwtUser, Raised> {
    match Decode(token, key, now)
    case Failure(e) => Failure(e)
    case Success(claims) => FromClaims(claims)
  }

  /** The bearer-token response of section 5.1 of RFC 6749. */
  datatype LoginResponse = LoginResponse(accessToken: Token, tokenType: string)

  /** The claims minted for `user` at time `now`. */
  function IssuedClaims(user: User, now: int): JwtUser {
    JwtUser(Issuer, UuidString(user.id), now, now + TokenLifetime)
  }

  /**
   * `authenticate_user`: fail with 500 when no signing key is configured, then with the
   * same 401 for an unknown user and for a wrong password, else mint an HS256 token.
   */
  function AuthenticateUser(secretKey: Option<string>, users: UserStore, checkPw: (string, Hash) -> bool,
                            username: string, password: string, now: int): (r: Result<LoginResponse, HttpError>)
    ensures r.Failure? ==> r.error in {SecretKeyNotSet, InvalidCredentials}
    ensures r.Success? ==> secretKey.Some? && r.value.tokenType == "bearer" && SignatureValid(r.value.accessToken, secretKey.value)
  {
    if secretKey.None? then Failure(SecretKeyNotSet)
    else match FindByUsername(users, username)
      case None => Failure(InvalidCredentials)
      case Some(user) =>
        if !checkPw(password, user.hashedPassword) then Failure(InvalidCredentials)
        else
          var token := Sign(ToClaims(IssuedClaims(user, now)), secretKey.value, HS256);
          Success(LoginResponse(token, "bearer"))
  }

  /** The three ways decoding a token can fail, each with its error code. */
  datatype DecodeError = ExpiredToken | JwtError | UnexpectedError {
    function Code(): string {
      match this
      case ExpiredToken => "expired_token"
      case JwtError => "jwt_error"
      case UnexpectedError => "unexpected_error"
    }
  }

  /** The `except` chain of `decode_jwt_token`, first matching clause wins. */
  function Classify(e: Raised): DecodeError {
    if IsExpiredSignatureError(e) then ExpiredToken
    else if IsJOSEError(e) then JwtError
    else UnexpectedError
  }

  /** `decode_jwt_token`: the token's claims, or the classified reason it was refused. */
  function DecodeJwtToken(secretKey: Option<string>, token: Token, now: int): Result<JwtUser, DecodeError> {
    match ParseJwtUser(token, secretKey, now)
    case Success(u) => Success(u)
    case Failure(e) => Failure(Classify(e))
  }

  // ---------------------------------------------------------------- authentication

  /** Without a signing key the call fails with 500 whatever the users and credentials. */
  lemma SecretKeyCheckedFirst(users: UserStore, checkPw: (string, Hash) -> bool,
                              username: string, password: string, now: int)
    ensures AuthenticateUser(None, users, checkPw, username, password, now) == Failure(SecretKeyNotSet)
  {
  }

  /** An unknown username gets 401 "Invalid username or password". */
  lemma UnknownUserRejected(secretKey: string, users: UserStore, checkPw: (string, Hash) -> bool,
                            username: string, password: string, now: int)
    requires username !in users
    ensures AuthenticateUser(Some(secretKey), users, checkPw, username, password, now) == Failure(InvalidCredentials)
  {
  }

  /**
   * An unknown username and a known username with a wrong password get the identical
   * error, so the response does not reveal which usernames exist.
   */
  lemma NoUsernameEnumeration(secretKey: string, users: UserStore, checkPw: (string, Hash) -> bool,
                              unknown: string, password: string, known: string, wrong: string, now: int, now': int)
    requires unknown !in users
    requires known in users && !checkPw(wrong, users[known].hashedPassword)
    ensures AuthenticateUser(Some(secretKey), users, checkPw, unknown, password, now)
         == AuthenticateUser(Some(secretKey), users, checkPw, known, wrong, now')
         == Failure(InvalidCredentials)
  {
  }

  /** Login succeeds exactly when a key is set, the user exists and the password matches its hash. */
  lemma AuthenticateSucceedsIff(secretKey: Option<string>, users: UserStore, checkPw: (string, Hash) -> bool,
                                username: string, password: string, now: int)
    ensures AuthenticateUser(secretKey, users, checkPw, username, password, now).Success?
        <==> secretKey.Some? && username in users && checkPw(password, users[username].hashedPassword)
  {
  }

  /**
   * A successful login returns a bearer response whose token carries `iss`, `sub`
   * (the user's id as text), `iat == now` and `exp == now + 86400`, signed HS256 with the key.
   */
  lemma IssuedTokenClaims(secretKey: Option<string>, users: UserStore, checkPw: (string, Hash) -> bool,
                          username: string, password: string, now: int)
    requires AuthenticateUser(secretKey, users, checkPw, username, password, now).Success?
    ensures var resp := AuthenticateUser(secretKey, users, checkPw, username, password, now).value;
      && resp.tokenType == "bearer"
      && resp.accessToken.Compact? && resp.accessToken.header.alg == HS256
      && SignatureValid(resp.accessToken, secretKey.value)
      && resp.accessToken.claims == ToClaims(JwtUser(Issuer, UuidString(users[username].id), now, now + 86400))
      && now < now + TokenLifetime
  {
  }

  /**
   * Round trip: a token minted at `now` and decoded with the same key no later than its
   * expiry gives back the minted claims, and its subject names the authenticated user.
   */
  lemma IssuedTokenRoundTrip(secretKey: Option<string>, users: UserStore, checkPw: (string, Hash) -> bool,
                             username: string, password: string, now: int, later: int)
    requires AuthenticateUser(secretKey, users, checkPw, username, password, now).Success?
    requires later <= now + TokenLifetime
    ensures var token := AuthenticateUser(secretKey, users, checkPw, username, password, now).value.accessToken;
      var decoded := DecodeJwtToken(secretKey, token, later);
      && decoded == Success(IssuedClaims(users[username], now))
      && decoded.value.iss == Issuer
      && UuidFromString(decoded.value.sub) == Some(users[username].id)
      && decoded.value.iat < decoded.value.exp
  {
    var user := users[username];
    var claims := IssuedClaims(user, now);
    assert ClaimsAccepted(ToClaims(claims), later);
    DecodeSigned(ToClaims(claims), secretKey.value, later);
    ClaimsRoundTrip(claims);
    UuidRoundTrip(user.id);
  }

  /** The same token decoded after its expiry is refused as `expired_token`. */
  lemma IssuedTokenExpires(secretKey: Option<string>, users: UserStore, checkPw: (string, Hash) -> bool,
                           username: string, password: string, now: int, later: int)
    requires AuthenticateUser(secretKey, users, checkPw, username, password, now).Success?
    requires later > now + TokenLifetime
    ensures var token := AuthenticateUser(secretKey, users, checkPw, username, password, now).value.accessToken;
      DecodeJwtToken(secretKey, token, later) == Failure(ExpiredToken)
  {
    var claims := ToClaims(IssuedClaims(users[username], now));
    ExpiredSignatureIff(claims, later);
    DecodeSigned(claims, secretKey.value, later);
  }

  /** The same token decoded with any other key is refused as `jwt_error`, even after expiry. */
  lemma IssuedTokenOtherKey(secretKey: Option<string>, users: UserStore, checkPw: (string, Hash) -> bool,
                            username: string, password: string, now: int, other: string, later: int)
    requires AuthenticateUser(secretKey, users, checkPw, username, password, now).Success?
    requires secretKey != Some(other)
    ensures var token := AuthenticateUser(secretKey, users, checkPw, username, password, now).value.accessToken;
      DecodeJwtToken(Some(other), token, later) == Failure(JwtError)
  {
    var claims := ToClaims(IssuedClaims(users[username], now));
    DecodeWrongKey(claims, secretKey.value, other, later);
  }

  // ---------------------------------------------------------------- decoding

  /**
   * The expired case is a JOSE error too, and is still reported as `expired_token`
   * because its clause comes first; every other JOSE error is `jwt_error` and anything
   * else `unexpected_error`.
   */
  lemma ClassifyOrder(e: Raised)
    ensures IsJOSEError(ExpiredSignatureError) && Classify(ExpiredSignatureError) == ExpiredToken
    ensures Classify(e) == JwtError <==> IsJOSEError(e) && !IsExpiredSignatureError(e)
    ensures Classify(e) == UnexpectedError <==> !IsJOSEError(e)
  {
  }

  /** The three codes are distinct, so a caller can tell the failures apart by code alone. */
  lemma DecodeErrorCodesDistinct(a: DecodeError, b: DecodeError)
    ensures a.Code() == b.Code() <==> a == b
  {
  }

  /**
   * Decoding succeeds exactly for an HS256 token whose tag was made with the configured
   * key, whose claims pass the library's checks and have the `JWTUser` shape; it then
   * returns those claims, and their expiry has not passed.
   */
  lemma DecodeSucceedsIff(secretKey: Option<string>, token: Token, now: int)
    ensures DecodeJwtToken(secretKey, token, now).Success? <==>
      && secretKey.Some? && token.Compact? && token.header.alg == HS256
      && SignatureValid(token, secretKey.value)
      && ClaimsAccepted(token.claims, now)
      && FromClaims(token.claims).Success?
    ensures DecodeJwtToken(secretKey, token, now).Success? ==>
      && DecodeJwtToken(secretKey, token, now).value == FromClaims(token.claims).value
      && DecodeJwtToken(secretKey, token, now).value.exp >= now
  {
    if DecodeJwtToken(secretKey, token, now).Success? {
      LaxIntAgreesWithInt(token.claims["exp"]);
    }
  }

  /** Without a configured key no token is accepted, and the failure is a `jwt_error`. */
  lemma DecodeWithoutKey(token: Token, now: int)
    ensures DecodeJwtToken(None, token, now) == Failure(JwtError)
  {
  }

  /**
   * `expired_token` is reported exactly for a genuine token (right key and algorithm)
   * whose `iat` and `nbf` pass and whose `exp` converts with `int()` (an integer, a
   * float, a boolean or the text of an integer) to a time in the past.
   */
  lemma ExpiredOnlyWhenGenuine(secretKey: Option<string>, token: Token, now: int)
    ensures DecodeJwtToken(secretKey, token, now) == Failure(ExpiredToken) <==>
      && secretKey.Some? && token.Compact? && token.header.alg == HS256 && SignatureValid(token, secretKey.value)
      && CheckIat(token.claims).None? && CheckNbf(token.claims, now).None?
      && "exp" in token.claims && PyInt(token.claims["exp"]).Converted? && PyInt(token.claims["exp"]).n < now
  {
    if token.Compact? {
      ExpiredSignatureIff(token.claims, now);
    }
  }

  /**
   * A genuine token whose expiry is written as the text of a past time is refused as
   * `expired_token`, as one written as an integer is.
   */
  lemma ExpiredTextualExpiry(secretKey: string, claims: ClaimSet, now: int, exp: int)
    requires exp < now && "iat" !in claims && "nbf" !in claims
    ensures var token := Sign(claims["exp" := Str(IntToString(exp))], secretKey, HS256);
      DecodeJwtToken(Some(secretKey), token, now) == Failure(ExpiredToken)
  {
    IntTextOfString(exp);
    ExpiredOnlyWhenGenuine(Some(secretKey), Sign(claims["exp" := Str(IntToString(exp))], secretKey, HS256), now);
  }

  /** The claims of a `JWTUser` with its two times written as text, `str(iat)` and `str(exp)`. */
  function TextClaims(u: JwtUser): ClaimSet {
    map["iss" := Str(u.iss), "sub" := Str(u.sub), "iat" := Str(IntToString(u.iat)), "exp" := Str(IntToString(u.exp))]
  }

  /**
   * A genuine token with the `JWTUser` claims whose times are written as text is
   * accepted while unexpired, and the times read back as numbers.
   */
  lemma TextualTimesAccepted(secretKey: string, u: JwtUser, now: int)
    requires u.exp >= now
    ensures DecodeJwtToken(Some(secretKey), Sign(TextClaims(u), secretKey, HS256), now) == Success(u)
  {
    DecodeSigned(TextClaims(u), secretKey, now);
    TextClaimsPassChecks(u, now);
    TextClaimsReadBack(u);
  }

  lemma TextClaimsPassChecks(u: JwtUser, now: int)
    requires u.exp >= now
    ensures ClaimsAccepted(TextClaims(u), now)
  {
    var c := TextClaims(u);
    IntTextOfString(u.iat);
    IntTextOfString(u.exp);
  }

  lemma TextClaimsReadBack(u: JwtUser)
    ensures FromClaims(TextClaims(u)) == Success(u)
  {
    IntTextOfString(u.iat);
    IntTextOfString(u.exp);
  }

  /**
   * `unexpected_error` is reported exactly for a genuine token whose time claims make
   * `int()` raise `TypeError` (null, an array or an object), or whose claims pass the
   * library's checks but do not have the `JWTUser` shape.
   */
  lemma UnexpectedOnlyForClaimShape(secretKey: Option<string>, token: Token, now: int)
    ensures DecodeJwtToken(secretKey, token, now) == Failure(UnexpectedError) <==>
      && secretKey.Some? && token.Compact? && token.header.alg == HS256 && SignatureValid(token, secretKey.value)
      && (|| ValidateClaims(token.claims, now) == Failure(TypeError)
          || (ClaimsAccepted(token.claims, now) && FromClaims(token.claims).Failure?))
  {
  }

  /**
   * A genuine token whose `sub` is not a string is refused as `jwt_error` by the
   * library's subject check, once its time claims pass and it has no `aud`.
   */
  lemma NonStringSubjectIsJwtError(secretKey: string, claims: ClaimSet, now: int)
    requires "sub" in claims && !claims["sub"].Str?
    requires CheckIat(claims).None? && CheckNbf(claims, now).None? && CheckExp(claims, now).None? && "aud" !in claims
    ensures DecodeJwtToken(Some(secretKey), Sign(claims, secretKey, HS256), now) == Failure(JwtError)
  {
    var checks := ClaimChecks(claims, now);
    assert checks[4] == Some(JWTClaimsError);
    assert forall j :: 0 <= j < 4 ==> checks[j].None?;
  }
}
