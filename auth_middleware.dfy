/** The JWT middleware (backend/middleware/authMiddleware.js): it takes the
    token from the `Authorization` header, verifies it and exposes the id
    and role it carries as `req.user`. Signature checking is the parameter
    `verify`; it returns the claims of a token that is valid for the secret. */
module AuthMiddleware {
  import opened Common
  import opened Text
  import opened UserModel

  /** The token payload written at login: the user's id and role. */
  datatype Claims = Claims(id: string, role: Option<Role>)

  /** `req.user`, which the protected routes read. */
  datatype ReqUser = ReqUser(id: string, role: Option<Role>)

  datatype AuthOutcome = Authenticated(user: ReqUser) | Denied(status: nat, message: string)

  /** `process.env.JWT_SECRET || "secretkey"`; the empty string stands for an
      unset variable. */
  function JwtSecret(env: string): (s: string)
    ensures s != ""
    ensures env != "" ==> s == env
    ensures env == "" ==> s == "secretkey"
  {
    if env != "" then env else "secretkey"
  }

  /** `authHeader && authHeader.split(' ')[1]`: the second space-separated
      piece of the header, which runs from just after the first space to the
      next space or the end; a missing header, a missing piece and an empty
      piece all count as no token. */
  function ExtractToken(header: Option<string>): (t: Option<string>)
    ensures t.Some? ==> header.Some? && t.value != "" && ' ' !in t.value
    ensures t.Some? <==>
      header.Some? && IndexOf(header.value, ' ') + 1 < |header.value|
      && header.value[IndexOf(header.value, ' ') + 1] != ' '
    ensures t.Some? ==>
      var rest := header.value[IndexOf(header.value, ' ') + 1..];
      t.value == rest[..IndexOf(rest, ' ')]
  {
    if header.None? then None
    else
      var parts := Split(header.value, ' ');
      SplitSecond(header.value);
      if |parts| < 2 || parts[1] == "" then None
      else Some(parts[1])
  }

  /** A split on spaces has a second piece exactly when there is a space, and
      that piece runs from just after the first space to the next one. */
  lemma SplitSecond(s: string)
    ensures var i := IndexOf(s, ' ');
      && (|Split(s, ' ')| >= 2 <==> i < |s|)
      && (i < |s| ==> var rest := s[i + 1..]; Split(s, ' ')[1] == rest[..IndexOf(rest, ' ')])
  {
    var i := IndexOf(s, ' ');
    if i < |s| {
      var rest := s[i + 1..];
      var j := IndexOf(rest, ' ');
      assert Split(s, ' ')[1] == Split(rest, ' ')[0];
      assert Split(rest, ' ')[0] == rest[..j];
    }
  }

  /** The middleware: 401 without a token, 401 when the token does not
      verify against the secret, otherwise `req.user` is the id and role the
      token carries. */
  function Authenticate(header: Option<string>, verify: (string, string) -> Option<Claims>, secretEnv: string)
    : (r: AuthOutcome)
    ensures ExtractToken(header).None? ==> r == Denied(401, "No token, authorization denied")
    ensures r.Authenticated? <==>
      ExtractToken(header).Some? && verify(ExtractToken(header).value, JwtSecret(secretEnv)).Some?
    ensures ExtractToken(header).Some? && !r.Authenticated? ==> r == Denied(401, "Token is not valid")
    ensures r.Authenticated? ==>
      var c := verify(ExtractToken(header).value, JwtSecret(secretEnv)).value;
      r.user.id == c.id && r.user.role == c.role
  {
    match ExtractToken(header)
    case None => Denied(401, "No token, authorization denied")
    case Some(token) =>
      match verify(token, JwtSecret(secretEnv))
      case None => Denied(401, "Token is not valid")
      case Some(c) => Authenticated(ReqUser(c.id, c.role))
  }

  /** A header `<scheme> <token>` yields the token, for any space-free scheme
      and any non-empty space-free token. */
  lemma BearerTokenRoundTrip(scheme: string, token: string)
    requires ' ' !in scheme && ' ' !in token && token != ""
    ensures ExtractToken(Some(scheme + " " + token)) == Some(token)
  {
    var parts := [scheme, token];
    assert Join(parts, ' ') == scheme + " " + token by {
      assert Join(parts[1..], ' ') == token;
    }
    SplitJoin(parts, ' ');
  }

  /** A header with no space in it carries no token. */
  lemma NoSpaceNoToken(header: string)
    requires ' ' !in header
    ensures ExtractToken(Some(header)) == None
  {
    IndexOfAt(header, ' ', |header|);
  }
}
