/**
 * backend/middleware/auth.js: the bearer-token gate every protected route
 * runs first, and the two role gates.
 */
module AuthMiddleware {
  import opened Wrappers
  import opened JsStrings
  import opened Http

  /** The payload of a token signed at login: { id, email, role }. */
  datatype Claims = Claims(id: int, email: string, role: string)

  /** jwt.verify under the server's secret, as an oracle: the decoded payload,
      or None when the signature or the expiry check fails. */
  type Verifier = string -> Option<Claims>

  /** A middleware either calls next() with the request's user or answers. */
  datatype Gate = Next(user: Claims) | Deny(reply: Reply)

  /** The token of the Authorization header, kept only when non-empty: the
      second space-separated field of the Authorization header. The first
      field is not looked at. */
  function BearerToken(header: Option<string>): (t: Option<string>)
    ensures t.Some? ==> t.value != [] && ' ' !in t.value
    ensures t.Some? ==> header.Some? && ' ' in header.value
  {
    if header.None? || header.value == [] then None
    else
      var fields := Split(header.value, ' ');
      if |fields| >= 2 && fields[1] != [] then
        assert ' ' in header.value by {
          if ' ' !in header.value { SplitWithoutSeparator(header.value, ' '); }
        }
        Some(fields[1])
      else None
  }

  /** Whatever the first field says, the token is the second field. */
  lemma BearerTokenIsSecondField(scheme: string, token: string, rest: string)
    requires ' ' !in scheme && ' ' !in token && token != []
    ensures BearerToken(Some(scheme + " " + token)) == Some(token)
    ensures BearerToken(Some(scheme + " " + token + " " + rest)) == Some(token)
  {
    SplitAtFirst(scheme, ' ', token);
    SplitWithoutSeparator(token, ' ');
    assert scheme + " " + token == scheme + [' '] + token;
    SplitAtFirst(scheme, ' ', token + " " + rest);
    SplitAtFirst(token, ' ', rest);
    assert scheme + " " + token + " " + rest == scheme + [' '] + (token + [' '] + rest);
  }

  /** A header with no space, or with nothing between its first and second
      space, carries no token. */
  lemma NoSecondFieldNoToken(header: string, scheme: string, rest: string)
    requires ' ' !in header && ' ' !in scheme
    ensures BearerToken(Some(header)) == None
    ensures BearerToken(Some(scheme + " ")) == None
    ensures BearerToken(Some(scheme + "  " + rest)) == None
  {
    SplitWithoutSeparator(header, ' ');
    SplitAtFirst(scheme, ' ', "");
    assert scheme + " " == scheme + [' '] + "";
    SplitAtFirst(scheme, ' ', " " + rest);
    SplitAtFirst("", ' ', rest);
    assert scheme + "  " + rest == scheme + [' '] + (" " + rest);
    assert " " + rest == "" + [' '] + rest;
  }

  /** authenticateToken: 401 without a token, 403 when verification fails,
      otherwise next() with the decoded payload as req.user. */
  function AuthenticateToken(header: Option<string>, verify: Verifier): (g: Gate)
    ensures BearerToken(header).None? ==> g == Deny(Json(401, false, "Access token required"))
    ensures BearerToken(header).Some? && verify(BearerToken(header).value).None?
            ==> g == Deny(Json(403, false, "Invalid or expired token"))
    ensures g.Next? <==> BearerToken(header).Some? && verify(BearerToken(header).value).Some?
    ensures g.Next? ==> g.user == verify(BearerToken(header).value).value
  {
    match BearerToken(header)
    case None => Deny(Json(401, false, "Access token required"))
    case Some(t) =>
      match verify(t)
      case None => Deny(Json(403, false, "Invalid or expired token"))
      case Some(user) => Next(user)
  }

  /** Without a token the verifier is never consulted. */
  lemma NoTokenNoVerification(header: Option<string>, v1: Verifier, v2: Verifier)
    requires BearerToken(header).None?
    ensures AuthenticateToken(header, v1) == AuthenticateToken(header, v2)
  {
  }

  /** isTeacher: next() iff the role is exactly 'teacher'. */
  function IsTeacher(user: Claims): (g: Gate)
    ensures g.Next? <==> user.role == "teacher"
    ensures g.Next? ==> g.user == user
    ensures g.Deny? ==> g.reply == Json(403, false, "Access denied. Teachers only.")
  {
    if user.role != "teacher" then Deny(Json(403, false, "Access denied. Teachers only.")) else Next(user)
  }

  /** isStudent: next() iff the role is exactly 'student'. */
  function IsStudent(user: Claims): (g: Gate)
    ensures g.Next? <==> user.role == "student"
    ensures g.Next? ==> g.user == user
    ensures g.Deny? ==> g.reply == Json(403, false, "Access denied. Students only.")
  {
    if user.role != "student" then Deny(Json(403, false, "Access denied. Students only.")) else Next(user)
  }

  /** No user passes both role gates. */
  lemma RoleGatesExclusive(user: Claims)
    ensures !(IsTeacher(user).Next? && IsStudent(user).Next?)
  {
  }

  /** authenticateToken followed by a role gate, as the routes chain them. */
  function Authorize(header: Option<string>, verify: Verifier, role: string): (g: Gate)
    requires role == "teacher" || role == "student"
    ensures g.Next? <==> AuthenticateToken(header, verify).Next? && AuthenticateToken(header, verify).user.role == role
    ensures g.Next? ==> g.user == AuthenticateToken(header, verify).user
  {
    match AuthenticateToken(header, verify)
    case Deny(reply) => Deny(reply)
    case Next(user) => if role == "teacher" then IsTeacher(user) else IsStudent(user)
  }
}
