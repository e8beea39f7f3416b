/**
 * The `requireAuth(roles?)` middleware: it reads an `Authorization: Bearer
 * <token>` header (the header field of section 2.1 of RFC 6750, matched on the
 * literal, case-sensitive prefix "Bearer "), verifies the token, records the
 * decoded claims on the request, and answers 401 or 403 or hands over to the
 * next handler. Token verification (`jwt.verify` with the access secret) is
 * the parameter `verify`: `None` stands for a thrown error.
 */
module AuthMiddleware {
  import opened Values
  import opened Entities

  const BearerPrefix: string := "Bearer "

  /**
   * The token of a header: what follows the first seven characters exactly
   * when the header (a missing one reads as '') starts with "Bearer ".
   */
  function BearerToken(header: Option<string>): (token: Option<string>)
    ensures token.Some? <==> header.Some? && BearerPrefix <= header.value
    ensures token.Some? ==> header.value == BearerPrefix + token.value
  {
    var h := if header.Some? then header.value else "";
    if BearerPrefix <= h then Some(h[|BearerPrefix|..]) else None
  }

  /** Prefixing a token with "Bearer " and extracting it gives the token back. */
  lemma BearerTokenRoundTrip(token: string)
    ensures BearerToken(Some(BearerPrefix + token)) == Some(token)
  {
    assert (BearerPrefix + token)[|BearerPrefix|..] == token;
  }

  /** The claims of a request whose header carries a non-empty token that verifies. */
  function Verified(header: Option<string>, verify: string -> Option<AuthPayload>): Option<AuthPayload> {
    var token := BearerToken(header);
    if token.None? || token.value == "" then None else verify(token.value)
  }

  /** What the middleware does: reject with 401, reject with 403 having set `req.user`, or pass with `req.user` set. */
  datatype Gate = Unauthorized | Forbidden(user: AuthPayload) | Pass(user: AuthPayload)

  /** The response status a gate writes; a passed request writes none here. */
  function StatusCode(g: Gate): (code: Option<int>)
    ensures code.None? <==> g.Pass?
    ensures code == Some(401) <==> g.Unauthorized?
    ensures code == Some(403) <==> g.Forbidden?
  {
    match g
    case Unauthorized => Some(401)
    case Forbidden(_) => Some(403)
    case Pass(_) => None
  }

  /**
   * The decision: 401 unless a non-empty bearer token verifies; then 403 when
   * a role list is given and the token's role is not in it; otherwise pass.
   * Whenever the token verified, the decoded claims are the request's user.
   */
  function Decide(roles: Option<seq<Role>>, header: Option<string>, verify: string -> Option<AuthPayload>)
    : (g: Gate)
    ensures g.Unauthorized? <==> Verified(header, verify).None?
    ensures g.Forbidden? <==> Verified(header, verify).Some? && roles.Some? && Verified(header, verify).value.role !in roles.value
    ensures !g.Unauthorized? ==> Some(g.user) == Verified(header, verify)
  {
    match Verified(header, verify)
    case None => Unauthorized
    case Some(p) => if roles.Some? && p.role !in roles.value then Forbidden(p) else Pass(p)
  }

  /** A missing header, one without the "Bearer " prefix, or "Bearer " alone is rejected with 401 whatever the oracle says. */
  lemma NoTokenUnauthorized(roles: Option<seq<Role>>, header: Option<string>, verify: string -> Option<AuthPayload>)
    requires header.None? || !(BearerPrefix <= header.value) || header.value == BearerPrefix
    ensures Decide(roles, header, verify) == Unauthorized
  {
    if header.Some? && header.value == BearerPrefix {
      assert BearerToken(header) == Some("");
    }
  }

  /** Without a role list every verified token passes, whatever its role. */
  lemma NoRolesAnyRolePasses(header: Option<string>, verify: string -> Option<AuthPayload>)
    requires Verified(header, verify).Some?
    ensures Decide(None, header, verify) == Pass(Verified(header, verify).value)
  {
  }

  /** The request and response objects the middleware touches. */
  class Exchange {
    /** `req.headers.authorization`. */
    const authorization: Option<string>
    /** `req.user`. */
    var user: Option<AuthPayload>
    /** The status of the response written so far, if any. */
    var status: Option<int>
    /** How many times `next` has been called. */
    var nextCalls: nat

    constructor (authorization: Option<string>)
      ensures this.authorization == authorization
      ensures user.None? && status.None? && nextCalls == 0
    {
      this.authorization := authorization;
      user, status, nextCalls := None, None, 0;
    }
  }

  /**
   * The middleware run on one request. `req.user` is assigned as soon as the
   * token verifies, so it is also set on a 403; `next` is called exactly once
   * when the request passes and not at all otherwise.
   */
  method RequireAuth(roles: Option<seq<Role>>, verify: string -> Option<AuthPayload>, ex: Exchange)
    returns (g: Gate)
    modifies ex
    ensures g == Decide(roles, ex.authorization, verify)
    ensures ex.user == if g.Unauthorized? then old(ex.user) else Some(g.user)
    ensures ex.status == if g.Pass? then old(ex.status) else StatusCode(g)
    ensures ex.nextCalls == old(ex.nextCalls) + if g.Pass? then 1 else 0
  {
    var token := BearerToken(ex.authorization);
    if token.None? || token.value == "" {
      ex.status := Some(401);
      return Unauthorized;
    }
    var decoded := verify(token.value);
    if decoded.None? {
      ex.status := Some(401);
      return Unauthorized;
    }
    ex.user := decoded;
    if roles.Some? && decoded.value.role !in roles.value {
      ex.status := Some(403);
      return Forbidden(decoded.value);
    }
    ex.nextCalls := ex.nextCalls + 1;
    g := Pass(decoded.value);
  }
}
