/**
 * `JwtAuthenticationFilter`: the bearer token is taken from the
 * `Authorization` header; when it has text, parses, and validates against
 * the user it names, the request's security context is given that user's
 * authentication. Every exception on the way is caught and logged, and the
 * request always continues down the filter chain.
 */
module JwtFilter {
  import opened Wrappers
  import opened Text
  import opened Errors
  import opened JwtTokenProvider

  const BearerPrefix := "Bearer "

  /** `getJwtFromRequest`: what follows `"Bearer "` in a header with text; case-sensitive. */
  function GetJwtFromRequest(header: Option<string>): (r: Option<string>)
    ensures r.Some? <==> HasText(header) && StartsWith(header.value, BearerPrefix)
    ensures r.Some? ==> header.value == BearerPrefix + r.value
  {
    if HasText(header) && StartsWith(header.value, BearerPrefix) then
      assert header.value == header.value[..7] + header.value[7..];
      Some(header.value[7..])
    else None
  }

  /** The header `"Bearer " + t` always yields `t` back, whatever `t` is. */
  lemma BearerRoundTrip(t: string)
    ensures GetJwtFromRequest(Some(BearerPrefix + t)) == Some(t)
  {
    var h := BearerPrefix + t;
    assert !IsJavaWhitespace(h[0]);
    assert h[..7] == BearerPrefix;
    assert h[7..] == t;
  }

  /** `UserDetails` as the filter uses it. */
  datatype UserDetails = UserDetails(username: string, authorities: seq<string>)

  /** `UsernamePasswordAuthenticationToken(userDetails, null, authorities)` with its request details. */
  datatype Authentication = Authentication(
    principal: UserDetails,
    credentials: Option<string>,
    authorities: seq<string>,
    details: string)

  /** `SecurityContextHolder.getContext()` of the current request. */
  class SecurityContext {
    var authentication: Option<Authentication>

    constructor ()
      ensures authentication.None?
    {
      authentication := None;
    }
  }

  /** The remaining filters, seen only through how often they are invoked. */
  class FilterChain {
    var calls: nat

    constructor ()
      ensures calls == 0
    {
      calls := 0;
    }

    method DoFilter()
      modifies this
      ensures calls == old(calls) + 1
    {
      calls := calls + 1;
    }
  }

  /**
   * When the filter authenticates the request: the token has text, passes
   * the format check, names a user the user service can load, and
   * validates against that user. The loaded user then becomes the principal.
   */
  predicate Authenticates(header: Option<string>, parse: string -> ParseOutcome,
                          loadUser: Option<string> -> Result<UserDetails, Exception>, now: int)
  {
    TokenAuthenticates(GetJwtFromRequest(header), parse, loadUser, now)
  }

  predicate TokenAuthenticates(jwt: Option<string>, parse: string -> ParseOutcome,
                               loadUser: Option<string> -> Result<UserDetails, Exception>, now: int)
  {
    && HasText(jwt)
    && ValidateTokenFormat(parse, jwt.value) == Success(true)
    && GetUsernameFromToken(parse, jwt.value).Success?
    && loadUser(GetUsernameFromToken(parse, jwt.value).value).Success?
    && ValidateToken(parse, jwt.value, loadUser(GetUsernameFromToken(parse, jwt.value).value).value.username, now) == Success(true)
  }

  /** The user an authenticating request is attributed to. */
  function AuthenticatedUser(header: Option<string>, parse: string -> ParseOutcome,
                             loadUser: Option<string> -> Result<UserDetails, Exception>, now: int): (u: UserDetails)
    requires Authenticates(header, parse, loadUser, now)
    ensures parse(GetJwtFromRequest(header).value).Parsed?
    ensures parse(GetJwtFromRequest(header).value).claims.subject == Some(u.username)
  {
    var jwt := GetJwtFromRequest(header).value;
    loadUser(GetUsernameFromToken(parse, jwt).value).value
  }

  /**
   * An authenticated request carries a bearer token whose subject is the
   * principal's name and whose expiry is not before now.
   */
  lemma AuthenticatedMeansValid(header: Option<string>, parse: string -> ParseOutcome,
                                loadUser: Option<string> -> Result<UserDetails, Exception>, now: int)
    requires Authenticates(header, parse, loadUser, now)
    ensures header.Some? && StartsWith(header.value, BearerPrefix)
    ensures var claims := parse(header.value[7..]).claims;
      && parse(header.value[7..]).Parsed?
      && claims.subject == Some(AuthenticatedUser(header, parse, loadUser, now).username)
      && claims.expiration.Some? && now <= claims.expiration.value
  {
    var jwt := GetJwtFromRequest(header).value;
    assert jwt == header.value[7..];
  }

  /** Without a `"Bearer "` header, or with nothing but blanks after it, the request stays anonymous. */
  lemma AnonymousWithoutToken(header: Option<string>, parse: string -> ParseOutcome,
                              loadUser: Option<string> -> Result<UserDetails, Exception>, now: int)
    requires header.None? || !StartsWith(header.value, BearerPrefix) || !HasText(Some(header.value[7..]))
    ensures !Authenticates(header, parse, loadUser, now)
  {
    if header.Some? && StartsWith(header.value, BearerPrefix) && HasText(header) {
      assert GetJwtFromRequest(header) == Some(header.value[7..]);
    }
  }

  /**
   * `doFilterInternal`: every step that can throw is tried in the order
   * of the source; the first exception abandons the rest of the `try`
   * block. The context is set in a single step at the end, so it is left
   * either untouched or fully set; the chain is invoked exactly once.
   */
  method DoFilterInternal(ctx: SecurityContext, chain: FilterChain, header: Option<string>,
                          parse: string -> ParseOutcome, loadUser: Option<string> -> Result<UserDetails, Exception>,
                          now: int, requestDetails: string)
    modifies ctx, chain
    ensures chain.calls == old(chain.calls) + 1
    ensures Authenticates(header, parse, loadUser, now) ==>
      var u := AuthenticatedUser(header, parse, loadUser, now);
      ctx.authentication == Some(Authentication(u, None, u.authorities, requestDetails))
    ensures !Authenticates(header, parse, loadUser, now) ==> ctx.authentication == old(ctx.authentication)
  {
    var jwt := GetJwtFromRequest(header);
    var outcome := TryAuthenticate(jwt, parse, loadUser, now);
    if outcome.Success? && outcome.value.Some? {
      var u := outcome.value.value;
      ctx.authentication := Some(Authentication(u, None, u.authorities, requestDetails));
    }
    chain.DoFilter();
  }

  /**
   * The body of the `try`: the user to authenticate, none when a check
   * answers no, or the exception that ends the block.
   */
  function TryAuthenticate(jwt: Option<string>, parse: string -> ParseOutcome,
                           loadUser: Option<string> -> Result<UserDetails, Exception>, now: int)
    : (r: Result<Option<UserDetails>, Exception>)
    ensures r.Success? && r.value.Some? <==> TokenAuthenticates(jwt, parse, loadUser, now)
    ensures r.Success? && r.value.Some? ==>
      r.value.value == loadUser(GetUsernameFromToken(parse, jwt.value).value).value
    ensures !HasText(jwt) ==> r == Success(None)
  {
    if !HasText(jwt) then Success(None)
    else
      match parse(jwt.value)
      case ParseFailed(_, _) => Failure(ValidateTokenFormat(parse, jwt.value).error)
      case Parsed(claims) =>
        // the format check answered true; getUsernameFromToken parses the same token again
        var userDetails :- loadUser(claims.subject);
        var valid :- ValidateToken(parse, jwt.value, userDetails.username, now);
        if valid then Success(Some(userDetails)) else Success(None)
  }
}
