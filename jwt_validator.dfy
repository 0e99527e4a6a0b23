/**
 * The request filter that authenticates a request from the JSON Web Token in
 * its `Authorization` header (package `com.chattingo.config`).
 *
 * The filter drops the first seven characters of the header, hands the rest
 * to the JWS parser together with the signing key, maps the verified claims
 * to an authentication, stores it in the security context and forwards the
 * request. Any failure on the way is turned into a bad-credentials rejection
 * and the request is not forwarded. Without the header the request is
 * forwarded untouched.
 */
module Config {
  import opened Wrappers
  import opened AuthorityUtils
  import opened Security
  import opened Servlet

  /** The HMAC-SHA signing key, derived from the bytes of the configured secret. */
  datatype SigningKey = HmacShaKey(secretBytes: string)

  /** The claims of a verified token: claim name to the string form of its value. */
  type Claims = map<string, string>

  /**
   * The JWS parser of the token library with the signing key set: `Some` of
   * the token's claims when its compact form parses, its signature verifies
   * under the key and its time claims are valid, `None` when it throws.
   */
  type JwsParser = (SigningKey, string) -> Option<Claims>

  const AuthorizationHeader: string := "Authorization"
  /** The length of the scheme prefix the filter cuts off, whatever it says. */
  const PrefixLength: nat := 7
  const EmailClaim: string := "email"
  const AuthoritiesClaim: string := "authorities"
  /** What `String.valueOf` gives for a `null` claim value. */
  const NullString: string := "null"
  const InvalidTokenMessage: string := "Invalid token recieved..."

  /** How a request leaves the filter: handed on, or rejected with `BadCredentialsException`. */
  datatype Outcome = Forward | Reject(message: string)

  /** `Keys.hmacShaKeyFor` applied to the secret's bytes. */
  function HmacShaKeyFor(secret: string): SigningKey {
    HmacShaKey(secret)
  }

  /** `String.substring(begin)`: `None` stands for `StringIndexOutOfBoundsException`. */
  function Substring(s: string, begin: nat): (r: Option<string>)
    ensures r.Some? <==> begin <= |s|
    ensures r.Some? ==> s == s[..begin] + r.value
  {
    if begin <= |s| then Some(s[begin..]) else None
  }

  /** The parser with the token library's own guard: an empty token is refused before parsing. */
  function ParseClaimsJws(parser: JwsParser, key: SigningKey, token: string): (r: Option<Claims>)
    ensures token == "" ==> r == None
    ensures r.Some? ==> r == parser(key, token)
  {
    if token == "" then None else parser(key, token)
  }

  /** `String.valueOf(claims.get(name))`: a missing claim reads as the string "null". */
  function ValueOf(claims: Claims, name: string): string {
    if name in claims then claims[name] else NullString
  }

  /**
   * The claims of a verified token as the authentication published for it:
   * it never carries credentials, and every authority is a non-empty role
   * name without a comma.
   */
  function ToAuthentication(claims: Claims): (a: Authentication)
    ensures a.credentials == None
    ensures forall k :: 0 <= k < |a.authorities| ==> IsRole(a.authorities[k].role)
  {
    var username := ValueOf(claims, EmailClaim);
    var authorities := ValueOf(claims, AuthoritiesClaim);
    UsernamePasswordAuthenticationToken(username, None, CommaSeparatedStringToAuthorityList(authorities))
  }

  /**
   * The work of the filter's `try` block on a present header: the
   * authentication to publish, or `None` when any step threw. An
   * authentication only ever comes from claims the parser accepted for the
   * header without its prefix.
   */
  function Authenticate(parser: JwsParser, key: SigningKey, header: string): (r: Option<Authentication>)
    ensures r.Some? ==>
      && |header| > PrefixLength
      && parser(key, header[PrefixLength..]).Some?
      && r.value == ToAuthentication(parser(key, header[PrefixLength..]).value)
  {
    match Substring(header, PrefixLength)
    case None => None
    case Some(jwt) =>
      match ParseClaimsJws(parser, key, jwt)
      case None => None
      case Some(claims) => Some(ToAuthentication(claims))
  }

  /**
   * A header yields an authentication exactly when it is longer than the
   * prefix and the parser accepts what follows the prefix.
   */
  lemma AuthenticateSucceedsIff(parser: JwsParser, key: SigningKey, header: string)
    ensures Authenticate(parser, key, header).Some?
        <==> |header| > PrefixLength && parser(key, header[PrefixLength..]).Some?
  {
    if |header| == PrefixLength {
      assert header[PrefixLength..] == "";
    }
  }

  /** A header of at most seven characters never authenticates, whatever the parser. */
  lemma ShortHeaderRejected(parser: JwsParser, key: SigningKey, header: string)
    requires |header| <= PrefixLength
    ensures Authenticate(parser, key, header) == None
  {
    AuthenticateSucceedsIff(parser, key, header);
  }

  /** A token the parser refuses (bad signature, malformed, expired) never authenticates. */
  lemma ParserRejectionRejected(parser: JwsParser, key: SigningKey, header: string)
    requires |header| >= PrefixLength && parser(key, header[PrefixLength..]) == None
    ensures Authenticate(parser, key, header) == None
  {
    AuthenticateSucceedsIff(parser, key, header);
  }

  /**
   * The seven characters before the token are never looked at: any prefix of
   * that length hands exactly the rest of the header to the parser.
   */
  lemma AnyPrefixAccepted(parser: JwsParser, key: SigningKey, prefix: string, token: string, claims: Claims)
    requires |prefix| == PrefixLength && token != ""
    requires parser(key, token) == Some(claims)
    ensures Authenticate(parser, key, prefix + token) == Some(ToAuthentication(claims))
  {
    assert (prefix + token)[PrefixLength..] == token;
  }

  /**
   * What a verified token publishes: its `email` claim as principal, no
   * credentials, and one authority per role name of its `authorities` claim.
   */
  lemma PublishedAuthentication(parser: JwsParser, key: SigningKey, header: string, claims: Claims)
    requires |header| > PrefixLength && parser(key, header[PrefixLength..]) == Some(claims)
    ensures Authenticate(parser, key, header).Some?
    ensures var a := Authenticate(parser, key, header).value;
      && a.principal == ValueOf(claims, EmailClaim)
      && a.credentials == None
      && |a.authorities| == |Tokens(ValueOf(claims, AuthoritiesClaim))|
      && forall k :: 0 <= k < |a.authorities| ==> a.authorities[k].role == Tokens(ValueOf(claims, AuthoritiesClaim))[k]
  {
  }

  /**
   * Claims that are missing are not an error: a token the parser accepts
   * still authenticates, with principal "null" when it has no `email` claim
   * and the single authority "null" when it has no `authorities` claim.
   */
  lemma MissingClaimsReadAsNull(parser: JwsParser, key: SigningKey, header: string, claims: Claims)
    requires |header| > PrefixLength && parser(key, header[PrefixLength..]) == Some(claims)
    ensures Authenticate(parser, key, header).Some?
    ensures EmailClaim !in claims ==> Authenticate(parser, key, header).value.principal == NullString
    ensures AuthoritiesClaim !in claims ==>
      Authenticate(parser, key, header).value.authorities == [SimpleGrantedAuthority(NullString)]
  {
    if AuthoritiesClaim !in claims {
      TokensOfJoin([NullString]);
    }
  }

  /**
   * Round trip from issue to authentication: a verified token whose claims
   * hold an email and a comma-joined list of role names, whatever other
   * claims it carries, publishes that email and exactly those roles.
   */
  lemma IssuedClaimsRoundTrip(parser: JwsParser, key: SigningKey, header: string, claims: Claims,
                              email: string, roles: seq<string>)
    requires forall k :: 0 <= k < |roles| ==> IsRole(roles[k])
    requires EmailClaim in claims && claims[EmailClaim] == email
    requires AuthoritiesClaim in claims && claims[AuthoritiesClaim] == Join(roles)
    requires |header| > PrefixLength && parser(key, header[PrefixLength..]) == Some(claims)
    ensures Authenticate(parser, key, header)
         == Some(UsernamePasswordAuthenticationToken(email, None, AuthorityList(roles)))
  {
    TokensOfJoin(roles);
  }

  /** An authorities claim "ADMIN,USER" gives the two authorities ADMIN and USER; an empty one gives none. */
  lemma AdminUserAuthorities()
    ensures CommaSeparatedStringToAuthorityList("ADMIN,USER")
         == [SimpleGrantedAuthority("ADMIN"), SimpleGrantedAuthority("USER")]
    ensures CommaSeparatedStringToAuthorityList("") == []
  {
    TwoRoles("ADMIN", "USER");
    assert "ADMIN" + [Comma] + "USER" == "ADMIN,USER";
  }

  /** The filter, holding the signing key derived once at construction. */
  class JwtValidator {
    const key: SigningKey

    constructor (jwtSecret: string)
      ensures key == HmacShaKeyFor(jwtSecret)
    {
      key := HmacShaKeyFor(jwtSecret);
    }

    /**
     * `doFilterInternal`. Without an `Authorization` header the request is
     * forwarded and the context left alone. With one, the authentication
     * `Authenticate` describes is stored once and the request is then
     * forwarded once, carrying it; if there is none, the request is rejected
     * and neither the context nor the chain is touched.
     */
    method DoFilterInternal(parser: JwsParser, request: Request, ctx: SecurityContext, chain: FilterChain)
      returns (outcome: Outcome)
      modifies ctx, chain
      ensures request.GetHeader(AuthorizationHeader) == None ==>
        && outcome == Forward
        && ctx.authentication == old(ctx.authentication) && ctx.writes == old(ctx.writes)
        && chain.forwarded == old(chain.forwarded) + [Forwarded(request, old(ctx.authentication))]
      ensures request.GetHeader(AuthorizationHeader).Some? ==>
        match Authenticate(parser, key, request.GetHeader(AuthorizationHeader).value)
        case Some(a) =>
          && outcome == Forward
          && ctx.authentication == Some(a) && ctx.writes == old(ctx.writes) + 1
          && chain.forwarded == old(chain.forwarded) + [Forwarded(request, Some(a))]
        case None =>
          && outcome == Reject(InvalidTokenMessage)
          && ctx.authentication == old(ctx.authentication) && ctx.writes == old(ctx.writes)
          && chain.forwarded == old(chain.forwarded)
    {
      var jwt := request.GetHeader(AuthorizationHeader);
      if jwt.Some? {
        var token := Substring(jwt.value, PrefixLength);
        if token.None? {
          return Reject(InvalidTokenMessage);
        }
        var claim := ParseClaimsJws(parser, key, token.value);
        if claim.None? {
          return Reject(InvalidTokenMessage);
        }
        var authentication := ToAuthentication(claim.value);
        ctx.SetAuthentication(authentication);
      }
      chain.DoFilter(request, ctx);
      outcome := Forward;
    }
  }
}
