/**
 * The JSON Web Token library the service relies on (python-jose, reached through
 * jwt_pydantic), as a symbolic model: a token carries its header, its claims and an
 * HMAC tag that only the holder of the key can produce (section 3.2 of RFC 7518, HS256,
 * treated as a perfect MAC). The compact base64url serialisation is not modelled;
 * a string that does not parse as a JWS is `Garbled`.
 */
module Jose {
  import opened Wrappers
  import opened Encoding

  /**
   * The decoded JSON value of a claim, distinguished as far as the claim checks and
   * pydantic look at it. `Float` is a finite JSON number written with a fraction or an
   * exponent: `whole` is its integer part, truncated toward zero, and `integral` says
   * that it has no fractional part. `Container` is an array or an object.
   */
  datatype ClaimValue = Str(s: string) | Int(n: int) | Float(whole: int, integral: bool) | Bool(b: bool) | Null | Container

  /** The JSON object of claims carried by a token. */
  type ClaimSet = map<string, ClaimValue>

  /** The JOSE header. */
  datatype Header = Header(alg: string, typ: string)

  const HS256 := "HS256"

  /** An HMAC tag: two tags are equal only when key, header and claims all are. */
  datatype Tag = Hmac(key: string, header: Header, claims: ClaimSet)

  datatype Token = Compact(header: Header, claims: ClaimSet, tag: Tag) | Garbled(text: string)

  /** `jose.jwt.encode(claims, key, algorithm)`. */
  function Sign(claims: ClaimSet, key: string, alg: string): (t: Token)
    ensures t.Compact? && t.header.alg == alg && t.claims == claims
  {
    var header := Header(alg, "JWT");
    Compact(header, claims, Hmac(key, header, claims))
  }

  /** The tag of a token was produced with `key` over its header and claims. */
  predicate SignatureValid(t: Token, key: string) {
    t.Compact? && t.tag == Hmac(key, t.header, t.claims)
  }

  /** A token verifies under the key that signed it, and under no other key. */
  lemma SignatureValidIff(claims: ClaimSet, key: string, alg: string, other: string)
    ensures SignatureValid(Sign(claims, key, alg), other) <==> other == key
  {
  }

  /**
   * The exceptions decoding can raise. The first five belong to `jose.exceptions`: each
   * is a `JOSEError`, and `ExpiredSignatureError` is a `JWTError`, so an `except
   * JOSEError` clause also catches an expired signature. `TypeError` is Python's, raised
   * by `int()` on null, an array or an object; `ValidationError` is pydantic's.
   */
  datatype Raised = JWSError | JWKError | JWTError | JWTClaimsError | ExpiredSignatureError | TypeError | ValidationError

  /** `isinstance(e, jose.JOSEError)`. */
  predicate IsJOSEError(e: Raised) {
    !e.ValidationError? && !e.TypeError?
  }

  /** `isinstance(e, jose.ExpiredSignatureError)`. */
  predicate IsExpiredSignatureError(e: Raised) {
    e.ExpiredSignatureError?
  }

  /** What Python's `int()` gives for a claim value: a number, or the error it raises. */
  datatype IntConversion = Converted(n: int) | ValueErr | TypeErr

  /** `int(value)`: booleans are 0 and 1, floats are truncated, strings are parsed. */
  function PyInt(v: ClaimValue): IntConversion {
    match v
    case Int(n) => Converted(n)
    case Float(whole, _) => Converted(whole)
    case Bool(b) => Converted(if b then 1 else 0)
    case Str(s) => if IntText(s).Some? then Converted(IntText(s).value) else ValueErr
    case Null => TypeErr
    case Container => TypeErr
  }

  /** `int()` accepts every number and the text of every integer, and refuses only by raising. */
  lemma PyIntAccepts(v: ClaimValue, pre: string, n: int, post: string)
    requires forall k :: 0 <= k < |pre| ==> IsSpace(pre[k])
    requires forall k :: 0 <= k < |post| ==> IsSpace(post[k])
    ensures v.Int? || v.Float? || v.Bool? ==> PyInt(v).Converted?
    ensures v.Float? ==> PyInt(v) == Converted(v.whole)
    ensures PyInt(Str(pre + IntToString(n) + post)) == Converted(n)
    ensures PyInt(v).TypeErr? <==> v.Null? || v.Container?
  {
    IntTextRoundTrip(pre, n, post);
  }

  /**
   * A numeric time claim (`iat`, `nbf`, `exp`) whose `int()` raises: `ValueError` is
   * re-raised as a claims error, while `TypeError` escapes the library's `except ValueError`.
   */
  function ConversionFailure(c: IntConversion): Option<Raised> {
    match c
    case Converted(_) => None
    case ValueErr => Some(JWTClaimsError)
    case TypeErr => Some(TypeError)
  }

  /** `_validate_iat`: the issued-at claim, when present, must convert with `int()`. */
  function CheckIat(claims: ClaimSet): Option<Raised> {
    if "iat" !in claims then None else ConversionFailure(PyInt(claims["iat"]))
  }

  /** `_validate_nbf` without leeway: the not-before time, when present, must not be later than `now`. */
  function CheckNbf(claims: ClaimSet, now: int): Option<Raised> {
    if "nbf" !in claims then None
    else match PyInt(claims["nbf"])
      case Converted(n) => if n > now then Some(JWTClaimsError) else None
      case c => ConversionFailure(c)
  }

  /** `_validate_exp` without leeway: the expiry, when present, must not be earlier than `now`. */
  function CheckExp(claims: ClaimSet, now: int): Option<Raised> {
    if "exp" !in claims then None
    else match PyInt(claims["exp"])
      case Converted(n) => if n < now then Some(ExpiredSignatureError) else None
      case c => ConversionFailure(c)
  }

  /** `_validate_aud` with no expected audience: every `aud` claim is refused. */
  function CheckAud(claims: ClaimSet): Option<Raised> {
    if "aud" in claims then Some(JWTClaimsError) else None
  }

  /** `_validate_sub` and `_validate_jti`: the claim, when present, must be a string. */
  function CheckStringClaim(claims: ClaimSet, name: string): Option<Raised> {
    if name in claims && !claims[name].Str? then Some(JWTClaimsError) else None
  }

  /** `_validate_at_hash` with no access token to compare: every `at_hash` claim is refused. */
  function CheckAtHash(claims: ClaimSet): Option<Raised> {
    if "at_hash" in claims then Some(JWTClaimsError) else None
  }

  /** The checks of `_validate_claims` with default options, in the library's order. */
  function ClaimChecks(claims: ClaimSet, now: int): seq<Option<Raised>> {
    [CheckIat(claims), CheckNbf(claims, now), CheckExp(claims, now), CheckAud(claims),
     CheckStringClaim(claims, "sub"), CheckStringClaim(claims, "jti"), CheckAtHash(claims)]
  }

  /** The error of the first check that raises, if any. */
  function FirstFailure(checks: seq<Option<Raised>>): (r: Option<Raised>)
    ensures r.None? <==> forall i :: 0 <= i < |checks| ==> checks[i].None?
    ensures r.Some? ==> exists i :: 0 <= i < |checks| && checks[i] == r && forall j :: 0 <= j < i ==> checks[j].None?
  {
    if |checks| == 0 then None
    else if checks[0].Some? then checks[0]
    else
      var rest := FirstFailure(checks[1..]);
      assert forall i :: 1 <= i < |checks| ==> checks[i] == checks[1..][i - 1];
      rest
  }

  /** The claims the library accepts at time `now`, stated claim by claim. */
  predicate ClaimsAccepted(claims: ClaimSet, now: int) {
    && ("iat" in claims ==> PyInt(claims["iat"]).Converted?)
    && ("nbf" in claims ==> PyInt(claims["nbf"]).Converted? && PyInt(claims["nbf"]).n <= now)
    && ("exp" in claims ==> PyInt(claims["exp"]).Converted? && PyInt(claims["exp"]).n >= now)
    && "aud" !in claims && "at_hash" !in claims
    && ("sub" in claims ==> claims["sub"].Str?)
    && ("jti" in claims ==> claims["jti"].Str?)
  }

  /**
   * The claim checks of `jwt.decode` with default options and no leeway: the first
   * failing check raises its error; otherwise the claims pass unchanged.
   */
  function ValidateClaims(claims: ClaimSet, now: int): (r: Result<ClaimSet, Raised>)
    ensures r.Success? ==> r.value == claims
    ensures r.Success? <==> ClaimsAccepted(claims, now)
    ensures r.Failure? ==> r.error == JWTClaimsError || r.error == ExpiredSignatureError || r.error == TypeError
  {
    var checks := ClaimChecks(claims, now);
    match FirstFailure(checks)
    case Some(e) =>
      assert exists i :: 0 <= i < |checks| && checks[i] == Some(e);
      Failure(e)
    case None =>
      assert forall i :: 0 <= i < |checks| ==> checks[i].None?;
      assert checks[0].None? && checks[1].None? && checks[2].None? && checks[3].None?;
      assert checks[4].None? && checks[5].None? && checks[6].None?;
      Success(claims)
  }

  /**
   * An expired signature is reported exactly when `iat` and `nbf` pass and `exp`
   * converts to a time earlier than `now`, whatever follows.
   */
  lemma ExpiredSignatureIff(claims: ClaimSet, now: int)
    ensures ValidateClaims(claims, now) == Failure(ExpiredSignatureError) <==>
      && CheckIat(claims).None? && CheckNbf(claims, now).None?
      && "exp" in claims && PyInt(claims["exp"]).Converted? && PyInt(claims["exp"]).n < now
  {
    var checks := ClaimChecks(claims, now);
    assert checks[0] == CheckIat(claims) && checks[1] == CheckNbf(claims, now) && checks[2] == CheckExp(claims, now);
  }

  /**
   * A `TypeError` escapes exactly when the first time claim that does not pass is null,
   * an array or an object.
   */
  lemma TypeErrorIff(claims: ClaimSet, now: int)
    ensures ValidateClaims(claims, now) == Failure(TypeError) <==>
      || ("iat" in claims && PyInt(claims["iat"]).TypeErr?)
      || (CheckIat(claims).None? && "nbf" in claims && PyInt(claims["nbf"]).TypeErr?)
      || (CheckIat(claims).None? && CheckNbf(claims, now).None? && "exp" in claims && PyInt(claims["exp"]).TypeErr?)
  {
    var checks := ClaimChecks(claims, now);
    assert checks[0] == CheckIat(claims) && checks[1] == CheckNbf(claims, now) && checks[2] == CheckExp(claims, now);
    assert checks[3] != Some(TypeError) && checks[4] != Some(TypeError) && checks[5] != Some(TypeError) && checks[6] != Some(TypeError);
  }

  /**
   * `jose.jwt.decode(token, key, algorithms=[HS256])` at time `now`: a token that does
   * not parse, names another algorithm or fails verification raises `JWTError` (the
   * library re-raises its `JWSError` as one); a missing key raises `JWKError`.
   */
  function Decode(token: Token, key: Option<string>, now: int): (r: Result<ClaimSet, Raised>)
    ensures r.Success? ==> key.Some? && SignatureValid(token, key.value) && r.value == token.claims
  {
    match token
    case Garbled(_) => Failure(JWTError)
    case Compact(header, claims, _) =>
      if header.alg != HS256 then Failure(JWTError)
      else if key.None? then Failure(JWKError)
      else if !SignatureValid(token, key.value) then Failure(JWTError)
      else ValidateClaims(claims, now)
  }

  /** Decoding what was signed with the same key performs only the claim checks. */
  lemma DecodeSigned(claims: ClaimSet, key: string, now: int)
    ensures Decode(Sign(claims, key, HS256), Some(key), now) == ValidateClaims(claims, now)
  {
  }

  /** Decoding with any other key fails with a JOSE error, whatever the claims say. */
  lemma DecodeWrongKey(claims: ClaimSet, key: string, other: string, now: int)
    requires other != key
    ensures Decode(Sign(claims, key, HS256), Some(other), now) == Failure(JWTError)
  {
  }
}
