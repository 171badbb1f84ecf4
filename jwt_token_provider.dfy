/**
 * `JwtTokenProvider`: the claims a generated token carries, the expiry
 * test, `validateToken` and the classification of parse failures in
 * `validateTokenFormat`. Signing and compact serialisation are the jjwt
 * library's: a token string is opaque here, and parsing it with the
 * configured secret is a parameter `parse` that yields the claims or the
 * kind of failure the library raises.
 */
module JwtTokenProvider {
  import opened Wrappers
  import opened Errors

  /** The registered claims the provider reads or writes (times in milliseconds). */
  datatype Claims = Claims(
    subject: Option<string>,
    issuedAt: Option<int>,
    expiration: Option<int>,
    custom: map<string, string>)

  /** The exception classes `parseClaimsJws` throws, as far as `validateTokenFormat` tells them apart. */
  datatype ParseFailure =
    | BadSignature
    | Malformed
    | Expired
    | Unsupported
    | EmptyClaims
    /** any other `JwtException` (a premature token, a missing claim, ...) */
    | OtherJwt

  /** What `Jwts.parser().setSigningKey(jwtSecret).parseClaimsJws(token)` does with one token. */
  datatype ParseOutcome =
    | Parsed(claims: Claims)
    | ParseFailed(failure: ParseFailure, message: string)

  /** The exception the parser throws before anything is caught: jjwt's own. */
  function ParserException(failure: ParseFailure, message: string): Exception {
    if failure == EmptyClaims then IllegalArgument(message) else JwtParse(message)
  }

  /** `getAllClaimsFromToken`: the body of the parsed token, or the parser's exception. */
  function GetAllClaimsFromToken(parse: string -> ParseOutcome, token: string): (r: Result<Claims, Exception>)
    ensures r.Success? <==> parse(token).Parsed?
    ensures r.Success? ==> r.value == parse(token).claims
  {
    match parse(token)
    case Parsed(c) => Success(c)
    case ParseFailed(f, m) => Failure(ParserException(f, m))
  }

  /** `getUsernameFromToken`: `Claims::getSubject`, which is null for a token without a subject. */
  function GetUsernameFromToken(parse: string -> ParseOutcome, token: string): (r: Result<Option<string>, Exception>)
    ensures r.Success? <==> parse(token).Parsed?
    ensures r.Success? ==> r.value == parse(token).claims.subject
  {
    var claims :- GetAllClaimsFromToken(parse, token);
    Success(claims.subject)
  }

  /** The JDK's message for `expiration.before(new Date())` in `isTokenExpired` while the expiration claim is null. */
  const ExpirationNullMessage := "Cannot invoke \"java.util.Date.before(java.util.Date)\" because \"expiration\" is null"
  /** The JDK's message for `username.equals(...)` in `validateToken` while the subject is null. */
  const UsernameNullMessage := "Cannot invoke \"String.equals(Object)\" because \"username\" is null"

  /** `isTokenExpired`: `expiration.before(new Date())`, strictly earlier than now. */
  function IsTokenExpired(parse: string -> ParseOutcome, token: string, now: int): (r: Result<bool, Exception>)
    ensures parse(token).Parsed? && parse(token).claims.expiration.Some? ==>
      r == Success(parse(token).claims.expiration.value < now)
    ensures parse(token).Parsed? && parse(token).claims.expiration.None? ==>
      r == Failure(NullPointer(ExpirationNullMessage))
    ensures parse(token).ParseFailed? ==> r.Failure?
  {
    var claims :- GetAllClaimsFromToken(parse, token);
    match claims.expiration
    case None => Failure(NullPointer(ExpirationNullMessage))
    case Some(expiration) => Success(expiration < now)
  }

  /**
   * `doGenerateToken(claims, subject)` for the empty claim map that
   * `generateToken` passes: the subject, issued now, expiring
   * `jwtExpiration` milliseconds later.
   */
  function DoGenerateToken(custom: map<string, string>, subject: string, now: int, jwtExpiration: int): (c: Claims)
    ensures c.subject == Some(subject) && c.issuedAt == Some(now)
    ensures c.expiration.Some? && c.expiration.value - c.issuedAt.value == jwtExpiration
    ensures c.custom == custom
  {
    Claims(Some(subject), Some(now), Some(now + jwtExpiration), custom)
  }

  /** `generateToken(authentication)`: the principal's username and no custom claim. */
  function GenerateToken(principalUsername: string, now: int, jwtExpiration: int): (c: Claims)
    ensures c.subject == Some(principalUsername) && c.custom == map[]
    ensures c.issuedAt == Some(now) && c.expiration == Some(now + jwtExpiration)
  {
    DoGenerateToken(map[], principalUsername, now, jwtExpiration)
  }

  /**
   * `validateToken(token, userDetails)`: the subject equals the user's
   * name and the token has not expired. `&&` short-circuits, so expiry is
   * not consulted for another user's token; a null subject throws.
   */
  function ValidateToken(parse: string -> ParseOutcome, token: string, username: string, now: int): (r: Result<bool, Exception>)
    ensures r == Success(true) <==>
      && parse(token).Parsed?
      && parse(token).claims.subject == Some(username)
      && parse(token).claims.expiration.Some?
      && now <= parse(token).claims.expiration.value
    ensures r.Failure? <==>
      || parse(token).ParseFailed?
      || parse(token).claims.subject.None?
      || (parse(token).claims.subject == Some(username) && parse(token).claims.expiration.None?)
  {
    var subject :- GetUsernameFromToken(parse, token);
    if subject.None? then Failure(NullPointer(UsernameNullMessage))
    else if subject.value != username then Success(false)
    else
      var expired :- IsTokenExpired(parse, token, now);
      Success(!expired)
  }

  /**
   * A token the provider generated for `username` at `issued` is accepted
   * for that user until `issued + jwtExpiration` inclusive, and never
   * accepted for anyone else.
   */
  lemma GeneratedTokenValid(parse: string -> ParseOutcome, token: string, username: string, other: string,
                            issued: int, jwtExpiration: int, now: int)
    requires parse(token) == Parsed(GenerateToken(username, issued, jwtExpiration))
    ensures ValidateToken(parse, token, username, now) == Success(now <= issued + jwtExpiration)
    ensures other != username ==> ValidateToken(parse, token, other, now) == Success(false)
  {
  }

  /** The messages of `validateTokenFormat`, one per caught exception class. */
  function FormatMessage(failure: ParseFailure): Option<string> {
    match failure
    case BadSignature => Some("无效的JWT签名")
    case Malformed => Some("无效的JWT令牌")
    case Expired => Some("JWT令牌已过期")
    case Unsupported => Some("不支持的JWT令牌")
    case EmptyClaims => Some("JWT声明字符串为空")
    case OtherJwt => None
  }

  /** The five caught classes are reported with five different messages. */
  lemma FormatMessagesDistinct(a: ParseFailure, b: ParseFailure)
    requires FormatMessage(a).Some? && FormatMessage(b).Some?
    ensures FormatMessage(a) == FormatMessage(b) <==> a == b
  {
    var s := FormatMessage(a).value;
    var t := FormatMessage(b).value;
    if a != b {
      assert |s| != |t| || s[0] != t[0] || s[6] != t[6];
    }
  }

  /**
   * `validateTokenFormat`: true when the token parses; a caught failure
   * becomes a `JwtAuthenticationException` with its message; any other
   * `JwtException` escapes unchanged.
   */
  function ValidateTokenFormat(parse: string -> ParseOutcome, token: string): (r: Result<bool, Exception>)
    ensures r != Success(false)
    ensures r == Success(true) <==> parse(token).Parsed?
    ensures parse(token).ParseFailed? && FormatMessage(parse(token).failure).Some? ==>
      r == Failure(JwtAuthentication(FormatMessage(parse(token).failure).value))
    ensures parse(token).ParseFailed? && FormatMessage(parse(token).failure).None? ==>
      r == Failure(JwtParse(parse(token).message))
  {
    match parse(token)
    case Parsed(_) => Success(true)
    case ParseFailed(f, m) =>
      match FormatMessage(f)
      case Some(message) => Failure(JwtAuthentication(message))
      case None => Failure(JwtParse(m))
  }
}
