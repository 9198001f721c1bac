/** Request gating (middlewares/auth.js): `verifyToken` authenticates a request
    from its `Authorization` header, `authorizeRole(roles)` admits only callers
    whose `role` claim is one of `roles`. */
module Auth {

  import opened Wrappers
  import opened JsText

  /** The decoded token payload that becomes `req.user`. A claim the payload
      does not carry (or a payload that is not an object) reads as `None`. */
  datatype Claims = Claims(id: Option<string>, role: Option<string>)

  /** The JWT check (`jwt.verify` with the server's secret): the payload when
      the token verifies, `None` when it throws. */
  type Verifier = string -> Option<Claims>

  /** What the gate decides for one request. */
  datatype GateOutcome =
    | Unauthenticated          // no token: 401
    | InvalidCredential        // a token that does not verify: 403
    | Forbidden                // a verified caller whose role is not admitted: 403
    | Allowed(claims: Claims)  // `next()` runs with `req.user == claims`

  /** The HTTP status sent by `res.sendStatus`, or `None` when control passes
      on to the next handler. */
  function StatusOf(o: GateOutcome): (code: Option<int>)
    ensures code.None? <==> o.Allowed?
    ensures code == Some(401) <==> o == Unauthenticated
    ensures code == Some(403) <==> o in {InvalidCredential, Forbidden}
  {
    match o
    case Unauthenticated => Some(401)
    case InvalidCredential => Some(403)
    case Forbidden => Some(403)
    case Allowed(_) => None
  }

  // ---------------------------------------------------------------------------
  // verifyToken
  // ---------------------------------------------------------------------------

  /** `req.headers.authorization?.split(' ')[1]`, kept only when truthy. */
  function ExtractToken(header: Option<string>): (token: Option<string>)
    ensures token.Some? ==> token.value != "" && ' ' !in token.value
  {
    match header
    case None => None
    case Some(h) =>
      var parts := Split(h, ' ');
      if |parts| >= 2 && parts[1] != "" then Some(parts[1]) else None
  }

  /** Independent reading of the same rule: the text strictly between the first
      space of the header and the next space (or the end). */
  function TokenBetweenSpaces(h: string): Option<string>
  {
    var i := FirstIndex(h, ' ');
    if i == |h| then None
    else
      var rest := h[i + 1..];
      var t := rest[..FirstIndex(rest, ' ')];
      if t == "" then None else Some(t)
  }

  /** The token is the second space-separated segment of the header; the scheme
      word before it is not inspected and later segments are ignored. */
  lemma ExtractTokenBetweenSpaces(h: string)
    ensures ExtractToken(Some(h)) == TokenBetweenSpaces(h)
  {
    var i := FirstIndex(h, ' ');
    SplitAtFirst(h, ' ');
    if i < |h| {
      SplitAtFirst(h[i + 1..], ' ');
    }
  }

  /** `"<scheme> <token>"` yields the token, whatever the scheme word. */
  lemma TokenOfWellFormedHeader(scheme: string, token: string)
    requires ' ' !in scheme && ' ' !in token && token != ""
    ensures ExtractToken(Some(scheme + " " + token)) == Some(token)
  {
    JoinSplit([scheme, token], ' ');
    assert Join([scheme, token], ' ') == scheme + " " + token;
  }

  /** Segments after the token are ignored. */
  lemma TokenIgnoresExtraSegments(scheme: string, token: string, extra: string)
    requires ' ' !in scheme && ' ' !in token && token != ""
    ensures ExtractToken(Some(scheme + " " + token + " " + extra)) == Some(token)
  {
    var h := scheme + " " + token + " " + extra;
    assert h == scheme + (" " + token + " " + extra);
    SplitPrefix(scheme, " " + token + " " + extra, ' ');
    var t := " " + token + " " + extra;
    assert t[0] == ' ' && t[1..] == token + (" " + extra);
    SplitPrefix(token, " " + extra, ' ');
    var u := " " + extra;
    assert u[0] == ' ' && Split(u, ' ')[0] == "";
    assert token + "" == token;
    assert Split(t[1..], ' ')[0] == token;
    assert Split(t, ' ') == [""] + Split(t[1..], ' ');
    assert Split(h, ' ')[1] == token;
  }

  /** `"<scheme> "` (nothing after the space) has an empty token. */
  lemma EmptyTokenAfterSpace(scheme: string)
    requires ' ' !in scheme
    ensures ExtractToken(Some(scheme + " ")) == None
  {
    JoinSplit([scheme, ""], ' ');
    assert Join([scheme, ""], ' ') == scheme + " ";
  }

  /** `"<scheme>  x"` (two spaces) also has an empty token. */
  lemma EmptyTokenAfterDoubleSpace(scheme: string, x: string)
    requires ' ' !in scheme
    ensures ExtractToken(Some(scheme + "  " + x)) == None
  {
    var t := "  " + x;
    assert scheme + "  " + x == scheme + t;
    SplitPrefix(scheme, t, ' ');
    assert t[0] == ' ' && t[1..] == " " + x;
  }

  /** A header without any space has no token. */
  lemma NoTokenWithoutSpace(h: string)
    requires ' ' !in h
    ensures ExtractToken(Some(h)) == None
  {
    JoinSplit([h], ' ');
  }

  /** `verifyToken` as a decision: 401 when there is no token, 403 when the
      verifier rejects it, otherwise the verifier's claims. */
  function Authenticate(header: Option<string>, verify: Verifier): GateOutcome
  {
    match ExtractToken(header)
    case None => Unauthenticated
    case Some(t) =>
      match verify(t)
      case None => InvalidCredential
      case Some(c) => Allowed(c)
  }

  /** The three ways `verifyToken` ends, each stated both ways. It never
      answers `Forbidden`. */
  lemma AuthenticateCases(header: Option<string>, verify: Verifier)
    ensures Authenticate(header, verify) == Unauthenticated <==> ExtractToken(header).None?
    ensures Authenticate(header, verify) == InvalidCredential <==>
      ExtractToken(header).Some? && verify(ExtractToken(header).value).None?
    ensures forall c :: Authenticate(header, verify) == Allowed(c) <==>
      ExtractToken(header).Some? && verify(ExtractToken(header).value) == Some(c)
    ensures Authenticate(header, verify) != Forbidden
  {
  }

  /** Without a token the verifier is never consulted: every verifier gives the
      same 401. */
  lemma UnauthenticatedIgnoresVerifier(header: Option<string>, v1: Verifier, v2: Verifier)
    requires ExtractToken(header).None?
    ensures Authenticate(header, v1) == Authenticate(header, v2) == Unauthenticated
  {
  }

  /** The verifier is consulted on the extracted token and nothing else. */
  lemma AuthenticateDependsOnTokenOnly(header: Option<string>, v1: Verifier, v2: Verifier)
    requires ExtractToken(header).Some?
    requires v1(ExtractToken(header).value) == v2(ExtractToken(header).value)
    ensures Authenticate(header, v1) == Authenticate(header, v2)
  {
  }

  /** `verifyToken(req, res, next)`: returns the gate's outcome and the value of
      `req.user` afterwards, which is assigned only when the token verifies. */
  method VerifyToken(header: Option<string>, verify: Verifier, user: Option<Claims>)
    returns (outcome: GateOutcome, userAfter: Option<Claims>)
    ensures outcome == Authenticate(header, verify)
    ensures outcome != Forbidden
    ensures userAfter == if outcome.Allowed? then Some(outcome.claims) else user
  {
    var token := ExtractToken(header);
    if token.None? {
      return Unauthenticated, user;
    }
    var decoded := verify(token.value);
    if decoded.None? {
      outcome, userAfter := InvalidCredential, user;
    } else {
      userAfter := decoded;
      outcome := Allowed(decoded.value);
    }
  }

  // ---------------------------------------------------------------------------
  // authorizeRole
  // ---------------------------------------------------------------------------

  /** `roles.includes(req.user.role)`: true lets the request through, false
      answers 403. A missing role is never included. */
  predicate AuthorizeRole(roles: seq<string>, user: Claims)
  {
    user.role.Some? && user.role.value in roles
  }

  /** The gate depends on `roles` and on the caller's role and on nothing else
      in the claims. */
  lemma AuthorizeRoleDependsOnRoleOnly(roles: seq<string>, u1: Claims, u2: Claims)
    requires u1.role == u2.role
    ensures AuthorizeRole(roles, u1) == AuthorizeRole(roles, u2)
  {
  }

  /** A role is admitted exactly when it occurs at some position of the list. */
  lemma AuthorizeRoleIndex(roles: seq<string>, user: Claims)
    ensures AuthorizeRole(roles, user) <==>
      exists i :: 0 <= i < |roles| && user.role == Some(roles[i])
  {
    if AuthorizeRole(roles, user) {
      var i :| 0 <= i < |roles| && roles[i] == user.role.value;
    }
  }

  /** Authentication followed by one role check, as a route that lists
      `verifyToken, authorizeRole(roles)` runs them. */
  function AuthenticateThenAuthorize(header: Option<string>, verify: Verifier, roles: seq<string>): GateOutcome
  {
    var a := Authenticate(header, verify);
    if a.Allowed? && !AuthorizeRole(roles, a.claims) then Forbidden else a
  }

  /** The role check runs only after a successful authentication: a 401 or 403
      from `verifyToken` is passed on unchanged, `Forbidden` means the token
      verified and the role is not in the list, and the request proceeds
      exactly when the token verifies to claims whose role is in the list. */
  lemma AuthorizeAfterAuthenticate(header: Option<string>, verify: Verifier, roles: seq<string>)
    ensures !Authenticate(header, verify).Allowed? ==>
      AuthenticateThenAuthorize(header, verify, roles) == Authenticate(header, verify)
    ensures AuthenticateThenAuthorize(header, verify, roles) == Forbidden <==>
      Authenticate(header, verify).Allowed? && !AuthorizeRole(roles, Authenticate(header, verify).claims)
    ensures forall c :: AuthenticateThenAuthorize(header, verify, roles) == Allowed(c) <==>
      Authenticate(header, verify) == Allowed(c) && AuthorizeRole(roles, c)
  {
  }
}
