/**
 * backend/routes/qr.js: GET /mark-attendance, a second redemption path driven
 * by the query string of a link. It sends a visitor without a bearer token
 * to the login page with a return target, uses whatever identity the token
 * carries as the student, and answers the same chain of checks as
 * POST /scan-qr with status 200 JSON instead of 403/400.
 */
module QrRoutes {
  import opened Wrappers
  import opened JsStrings
  import opened Http
  import opened Ledger
  import AuthMiddleware
  import Uri
  import StudentRoutes

  // ---------------------------------------------------------------------------
  // The query string and the login redirect
  // ---------------------------------------------------------------------------

  /** A query value spliced into a string with `+`: undefined becomes the
      text "undefined". */
  function JsText(v: Option<string>): string {
    match v
    case Some(s) => s
    case None => "undefined"
  }

  const MarkPagePrefix: string := "/mark-attendance.html?token="

  /** The page the login should come back to. */
  function ReturnTarget(token: Option<string>, classId: Option<string>): (target: string)
    ensures MarkPagePrefix <= target
  {
    MarkPagePrefix + JsText(token) + "&classId=" + JsText(classId)
  }

  const LoginPage: string := "/login.html"
  const RedirectPrefix: string := "/login.html?redirect="

  /** The login page with the percent-encoded return target as its
      redirect parameter. */
  function LoginRedirect(token: Option<string>, classId: Option<string>): (location: string)
    ensures RedirectPrefix <= location
    ensures forall k | |RedirectPrefix| <= k < |location| :: location[k] == '%' || Uri.Unreserved(location[k])
  {
    RedirectPrefix + Uri.EncodeUriComponent(ReturnTarget(token, classId))
  }

  /** The redirect parameter is a single query value (no '&', '#' or '=' of
      its own) that decodes back to the exact return target. */
  lemma LoginRedirectRoundTrip(token: Option<string>, classId: Option<string>)
    ensures var location := LoginRedirect(token, classId);
      && (forall k | |RedirectPrefix| <= k < |location| :: location[k] != '&' && location[k] != '#' && location[k] != '=')
      && Uri.DecodeUriComponent(location[|RedirectPrefix|..]) == Some(ReturnTarget(token, classId))
  {
    var location := LoginRedirect(token, classId);
    RedirectDecodes(location, ReturnTarget(token, classId));
    RedirectIsOneValue(location);
  }

  lemma RedirectDecodes(location: string, target: string)
    requires location == RedirectPrefix + Uri.EncodeUriComponent(target)
    ensures Uri.DecodeUriComponent(location[|RedirectPrefix|..]) == Some(target)
  {
    assert location[|RedirectPrefix|..] == Uri.EncodeUriComponent(target);
    Uri.DecodeEncode(target);
  }

  lemma RedirectIsOneValue(location: string)
    requires RedirectPrefix <= location
    requires forall k | |RedirectPrefix| <= k < |location| :: location[k] == '%' || Uri.Unreserved(location[k])
    ensures forall k | |RedirectPrefix| <= k < |location| :: location[k] != '&' && location[k] != '#' && location[k] != '='
  {
  }

  // ---------------------------------------------------------------------------
  // The class id as PostgreSQL reads it
  // ---------------------------------------------------------------------------

  /** The whitespace PostgreSQL's integer input skips around the digits. */
  predicate IsPgSpace(c: char) {
    c == ' ' || c == '\t' || c == '\n' || c == '\r' || c == '\U{000B}' || c == '\U{000C}'
  }

  function StripLeading(s: string): (r: string)
    ensures |r| <= |s| && r == s[|s| - |r|..]
    ensures r == [] || !IsPgSpace(r[0])
  {
    if s != [] && IsPgSpace(s[0]) then StripLeading(s[1..]) else s
  }

  function StripTrailing(s: string): (r: string)
    ensures |r| <= |s| && r == s[..|r|]
    ensures r == [] || !IsPgSpace(r[|r| - 1])
  {
    if s != [] && IsPgSpace(s[|s| - 1]) then StripTrailing(s[..|s| - 1]) else s
  }

  const Int4Min: int := -0x8000_0000
  const Int4Max: int := 0x7FFF_FFFF

  /** The text parameter bound where an integer column is compared: optional
      surrounding whitespace, an optional sign, decimal digits, within the
      32-bit range. None is the input error that makes the query throw. */
  function PgInteger(s: string): (r: Option<int>)
    ensures r.Some? ==> Int4Min <= r.value <= Int4Max
  {
    var t := StripTrailing(StripLeading(s));
    var negative := t != [] && t[0] == '-';
    var digits := if t != [] && (t[0] == '-' || t[0] == '+') then t[1..] else t;
    if digits == [] || !AllDigits(digits) then None
    else
      var d: int := DecimalValue(digits);
      var v := if negative then -d else d;
      if Int4Min <= v <= Int4Max then Some(v) else None
  }

  lemma NoEdgeSpace(s: string)
    requires s != [] && !IsPgSpace(s[0]) && !IsPgSpace(s[|s| - 1])
    ensures StripTrailing(StripLeading(s)) == s
  {
  }

  /** The decimal form of any 32-bit integer is read back as that integer. */
  lemma PgIntegerOfIntToString(i: int)
    requires Int4Min <= i <= Int4Max
    ensures PgInteger(IntToString(i)) == Some(i)
  {
    var t := IntToString(i);
    if i < 0 {
      var d := NatToString(-i);
      NatToStringValue(-i);
      assert t == ['-'] + d;
      PgIntegerOfNegative(t, d);
    } else {
      NatToStringValue(i);
      PgIntegerOfDigits(t);
    }
  }

  /** Plain decimal digits within range read as their value. */
  lemma PgIntegerOfDigits(d: string)
    requires d != [] && AllDigits(d) && DecimalValue(d) <= Int4Max
    ensures PgInteger(d) == Some(DecimalValue(d))
  {
    assert IsDigit(d[0]) && IsDigit(d[|d| - 1]);
    NoEdgeSpace(d);
  }

  /** A minus sign and decimal digits within range read as the negated value. */
  lemma PgIntegerOfNegative(t: string, d: string)
    requires d != [] && AllDigits(d) && DecimalValue(d) <= -Int4Min
    requires t == ['-'] + d
    ensures PgInteger(t) == Some(-(DecimalValue(d) as int))
  {
    assert IsDigit(t[|t| - 1]);
    NoEdgeSpace(t);
    assert t[1..] == d;
  }

  /** Text that is not an integer is refused. */
  lemma TrailingTextRefused()
    ensures PgInteger("7abc") == None
  {
    assert StripLeading("7abc") == "7abc";
    assert StripTrailing("7abc") == "7abc";
    assert !IsDigit("7abc"[1]);
  }

  // ---------------------------------------------------------------------------
  // GET /mark-attendance
  // ---------------------------------------------------------------------------

  /** How a link redemption ends, in the order the branches are reached. */
  datatype LinkOutcome =
    | ToLogin(location: string)   // no bearer token
    | ToPlainLogin                // the token does not verify
    | ServePage                   // token or classId missing or empty
    | QueryError                  // classId is not an integer: the first query throws
    | LinkNotEnrolled
    | LinkInvalidOrExpired
    | LinkAlreadyMarked           // found by the pre-check
    | LinkMarked
    | LinkDuplicate               // the insert hit the unique key (23505)

  /** The page file the route sends: one directory up from backend/routes and
      then into frontend, relative to the repository root. */
  const MarkPageFile: string := "backend/frontend/mark-attendance.html"

  /** The row a link redemption inserts: the same as a scan's. */
  function LinkMark(classId: ClassId, studentId: UserId, today: Date, now: Time): AttendanceRow {
    StudentRoutes.QrMark(classId, studentId, today, now)
  }

  /** The handler on given tables: its outcome and the attendance table after. */
  function Link(sessions: seq<QrSession>, rows: seq<AttendanceRow>, enrollments: set<(ClassId, UserId)>,
                authorization: Option<string>, verify: AuthMiddleware.Verifier,
                token: Option<string>, classId: Option<string>, now: Time, today: Date)
    : (r: (LinkOutcome, seq<AttendanceRow>))
    ensures r.0 != LinkMarked ==> r.1 == rows
    ensures r.0 == LinkMarked ==>
      && classId.Some? && PgInteger(classId.value).Some?
      && AuthMiddleware.BearerToken(authorization).Some?
      && verify(AuthMiddleware.BearerToken(authorization).value).Some?
      && r.1 == rows + [LinkMark(PgInteger(classId.value).value,
                                 verify(AuthMiddleware.BearerToken(authorization).value).value.id, today, now)]
    ensures UniqueKeys(rows) ==> UniqueKeys(r.1)
  {
    match AuthMiddleware.BearerToken(authorization)
    case None => (ToLogin(LoginRedirect(token, classId)), rows)
    case Some(authToken) =>
      match verify(authToken)
      case None => (ToPlainLogin, rows)
      case Some(claims) =>
        var studentId := claims.id;
        if !TruthyString(token) || !TruthyString(classId) then (ServePage, rows)
        else match PgInteger(classId.value)
          case None => (QueryError, rows)
          case Some(c) =>
            if (c, studentId) !in enrollments then (LinkNotEnrolled, rows)
            else if !HasValidSession(sessions, token.value, c, now) then (LinkInvalidOrExpired, rows)
            else if HasKey(rows, (c, studentId, today)) then (LinkAlreadyMarked, rows)
            else
              var (code, after) := InsertRow(rows, LinkMark(c, studentId, today, now));
              if code == UniqueViolation then (LinkDuplicate, rows) else (LinkMarked, after)
  }

  /** The response each outcome produces. Only the unique-key violation and
      the query error set a status; the checks answer with the default 200. */
  function LinkReply(o: LinkOutcome): (reply: Reply)
    ensures o.ToLogin? ==> reply == Redirect(o.location)
    ensures o == ToPlainLogin ==> reply == Redirect(LoginPage)
    ensures o == ServePage ==> reply == SendFile(MarkPageFile)
    ensures reply.Json? ==> (reply.success <==> o == LinkMarked)
    ensures reply.Json? && reply.status != 200 ==> o == LinkDuplicate || o == QueryError
  {
    match o
    case ToLogin(location) => Redirect(location)
    case ToPlainLogin => Redirect(LoginPage)
    case ServePage => SendFile(MarkPageFile)
    case QueryError => Json(500, false, "Error marking attendance")
    case LinkNotEnrolled => Json(200, false, "You are not enrolled in this class")
    case LinkInvalidOrExpired => Json(200, false, "Invalid or expired QR code")
    case LinkAlreadyMarked => Json(200, false, "Attendance already marked for today")
    case LinkMarked => Json(200, true, "Attendance marked successfully!")
    case LinkDuplicate => Json(400, false, "Attendance already marked for today")
  }

  /** The handler over the database, branch by branch. */
  method MarkAttendance(db: Database, authorization: Option<string>, verify: AuthMiddleware.Verifier,
                        token: Option<string>, classId: Option<string>, now: Time, today: Date)
    returns (reply: Reply)
    requires db.Valid()
    modifies db`attendance
    ensures db.Valid()
    ensures var r := Link(db.qrSessions, old(db.attendance), db.enrollments, authorization, verify, token, classId, now, today);
      reply == LinkReply(r.0) && db.attendance == r.1
  {
    var authToken := AuthMiddleware.BearerToken(authorization);
    if authToken.None? {
      return Redirect(LoginRedirect(token, classId));
    }
    var decoded := verify(authToken.value);
    if decoded.None? {
      return Redirect(LoginPage);
    }
    var studentId := decoded.value.id;
    if !TruthyString(token) || !TruthyString(classId) {
      return SendFile(MarkPageFile);
    }
    var parsed := PgInteger(classId.value);
    if parsed.None? {
      return LinkReply(QueryError);
    }
    var c := parsed.value;
    if (c, studentId) !in db.enrollments {
      return LinkReply(LinkNotEnrolled);
    }
    if !HasValidSession(db.qrSessions, token.value, c, now) {
      return LinkReply(LinkInvalidOrExpired);
    }
    if HasKey(db.attendance, (c, studentId, today)) {
      return LinkReply(LinkAlreadyMarked);
    }
    var code := db.InsertAttendance(LinkMark(c, studentId, today, now));
    reply := if code == UniqueViolation then LinkReply(LinkDuplicate) else LinkReply(LinkMarked);
  }

  // ---------------------------------------------------------------------------
  // Properties
  // ---------------------------------------------------------------------------

  /** Without a bearer token the visitor is sent to log in with the link as
      return target, whatever the tables hold and without verifying anything. */
  lemma NoTokenRedirectsToLogin(sessions: seq<QrSession>, rows: seq<AttendanceRow>, enrollments: set<(ClassId, UserId)>,
                                authorization: Option<string>, verify: AuthMiddleware.Verifier,
                                token: Option<string>, classId: Option<string>, now: Time, today: Date)
    requires AuthMiddleware.BearerToken(authorization).None?
    ensures Link(sessions, rows, enrollments, authorization, verify, token, classId, now, today)
      == (ToLogin(LoginRedirect(token, classId)), rows)
  {
  }

  /** A token that fails verification leads to the plain login page, with no
      return target. */
  lemma BadTokenPlainLogin(sessions: seq<QrSession>, rows: seq<AttendanceRow>, enrollments: set<(ClassId, UserId)>,
                           authorization: Option<string>, verify: AuthMiddleware.Verifier,
                           token: Option<string>, classId: Option<string>, now: Time, today: Date)
    requires AuthMiddleware.BearerToken(authorization).Some?
    requires verify(AuthMiddleware.BearerToken(authorization).value).None?
    ensures Link(sessions, rows, enrollments, authorization, verify, token, classId, now, today) == (ToPlainLogin, rows)
    ensures LinkReply(ToPlainLogin) == Redirect("/login.html")
  {
  }

  /** After authentication, a missing or empty token or classId serves the
      page without any lookup. */
  lemma MissingFieldsServePage(sessions: seq<QrSession>, rows: seq<AttendanceRow>, enrollments: set<(ClassId, UserId)>,
                               authorization: Option<string>, verify: AuthMiddleware.Verifier,
                               token: Option<string>, classId: Option<string>, now: Time, today: Date)
    requires AuthMiddleware.AuthenticateToken(authorization, verify).Next?
    requires !TruthyString(token) || !TruthyString(classId)
    ensures Link(sessions, rows, enrollments, authorization, verify, token, classId, now, today) == (ServePage, rows)
  {
  }

  /** The role is never looked at: two identities with the same id are
      treated alike, a teacher's included. */
  lemma RoleNotChecked(sessions: seq<QrSession>, rows: seq<AttendanceRow>, enrollments: set<(ClassId, UserId)>,
                       authorization: Option<string>, v1: AuthMiddleware.Verifier, v2: AuthMiddleware.Verifier,
                       token: Option<string>, classId: Option<string>, now: Time, today: Date)
    requires AuthMiddleware.BearerToken(authorization).Some?
    requires var t := AuthMiddleware.BearerToken(authorization).value;
      v1(t).Some? && v2(t).Some? && v1(t).value.id == v2(t).value.id
    ensures Link(sessions, rows, enrollments, authorization, v1, token, classId, now, today)
         == Link(sessions, rows, enrollments, authorization, v2, token, classId, now, today)
  {
  }

  /** The outcome a scan-qr redemption corresponds to. */
  function AsRedemption(o: LinkOutcome): Option<StudentRoutes.Redemption> {
    match o
    case LinkNotEnrolled => Some(StudentRoutes.NotEnrolled)
    case LinkInvalidOrExpired => Some(StudentRoutes.InvalidOrExpired)
    case LinkAlreadyMarked => Some(StudentRoutes.AlreadyMarked)
    case LinkDuplicate => Some(StudentRoutes.AlreadyMarked)
    case LinkMarked => Some(StudentRoutes.Marked)
    case _ => None
  }

  /** For an authenticated visitor with a token and a non-zero integer class
      id, the link runs the same checks in the same order as scan-qr and
      leaves the same attendance table; only the responses differ. */
  lemma SameChecksAsScan(sessions: seq<QrSession>, rows: seq<AttendanceRow>, enrollments: set<(ClassId, UserId)>,
                         authorization: Option<string>, verify: AuthMiddleware.Verifier,
                         token: string, classId: string, now: Time, today: Date)
    requires AuthMiddleware.AuthenticateToken(authorization, verify).Next?
    requires token != "" && classId != "" && PgInteger(classId).Some? && PgInteger(classId).value != 0
    ensures var user := AuthMiddleware.AuthenticateToken(authorization, verify).user;
      var l := Link(sessions, rows, enrollments, authorization, verify, Some(token), Some(classId), now, today);
      var s := StudentRoutes.Scan(sessions, rows, enrollments, user.id,
                                  StudentRoutes.ScanRequest(Some(token), PgInteger(classId)), now, today);
      AsRedemption(l.0) == Some(s.0) && l.1 == s.1
  {
    var user := AuthMiddleware.AuthenticateToken(authorization, verify).user;
    var c := PgInteger(classId).value;
    if (c, user.id) !in enrollments || !HasValidSession(sessions, token, c, now) || HasKey(rows, (c, user.id, today)) {
      SameRefusals(sessions, rows, enrollments, authorization, verify, token, classId, now, today);
    } else {
      SameInsert(sessions, rows, enrollments, authorization, verify, token, classId, now, today);
    }
  }

  /** The three refusals of SameChecksAsScan, one check at a time. */
  lemma SameRefusals(sessions: seq<QrSession>, rows: seq<AttendanceRow>, enrollments: set<(ClassId, UserId)>,
                     authorization: Option<string>, verify: AuthMiddleware.Verifier,
                     token: string, classId: string, now: Time, today: Date)
    requires AuthMiddleware.AuthenticateToken(authorization, verify).Next?
    requires token != "" && classId != "" && PgInteger(classId).Some? && PgInteger(classId).value != 0
    requires var user := AuthMiddleware.AuthenticateToken(authorization, verify).user;
      var c := PgInteger(classId).value;
      (c, user.id) !in enrollments || !HasValidSession(sessions, token, c, now) || HasKey(rows, (c, user.id, today))
    ensures var user := AuthMiddleware.AuthenticateToken(authorization, verify).user;
      var l := Link(sessions, rows, enrollments, authorization, verify, Some(token), Some(classId), now, today);
      var s := StudentRoutes.Scan(sessions, rows, enrollments, user.id,
                                  StudentRoutes.ScanRequest(Some(token), PgInteger(classId)), now, today);
      AsRedemption(l.0) == Some(s.0) && l.1 == s.1
  {
    var user := AuthMiddleware.AuthenticateToken(authorization, verify).user;
    var authToken := AuthMiddleware.BearerToken(authorization).value;
    assert verify(authToken) == Some(user);
    var c := PgInteger(classId).value;
    assert TruthyString(Some(token)) && TruthyString(Some(classId)) && TruthyNumber(Some(c));
    var l := Link(sessions, rows, enrollments, authorization, verify, Some(token), Some(classId), now, today);
    var s := StudentRoutes.Scan(sessions, rows, enrollments, user.id,
                                StudentRoutes.ScanRequest(Some(token), Some(c)), now, today);
    if (c, user.id) !in enrollments {
      assert l == (LinkNotEnrolled, rows) && s == (StudentRoutes.NotEnrolled, rows);
    } else if !HasValidSession(sessions, token, c, now) {
      assert l == (LinkInvalidOrExpired, rows) && s == (StudentRoutes.InvalidOrExpired, rows);
    } else {
      assert l == (LinkAlreadyMarked, rows) && s == (StudentRoutes.AlreadyMarked, rows);
    }
  }

  /** The insert of SameChecksAsScan: both routes insert the same row. */
  lemma SameInsert(sessions: seq<QrSession>, rows: seq<AttendanceRow>, enrollments: set<(ClassId, UserId)>,
                   authorization: Option<string>, verify: AuthMiddleware.Verifier,
                   token: string, classId: string, now: Time, today: Date)
    requires AuthMiddleware.AuthenticateToken(authorization, verify).Next?
    requires token != "" && classId != "" && PgInteger(classId).Some? && PgInteger(classId).value != 0
    requires var user := AuthMiddleware.AuthenticateToken(authorization, verify).user;
      var c := PgInteger(classId).value;
      (c, user.id) in enrollments && HasValidSession(sessions, token, c, now) && !HasKey(rows, (c, user.id, today))
    ensures var user := AuthMiddleware.AuthenticateToken(authorization, verify).user;
      var l := Link(sessions, rows, enrollments, authorization, verify, Some(token), Some(classId), now, today);
      var s := StudentRoutes.Scan(sessions, rows, enrollments, user.id,
                                  StudentRoutes.ScanRequest(Some(token), PgInteger(classId)), now, today);
      AsRedemption(l.0) == Some(s.0) && l.1 == s.1
  {
    var user := AuthMiddleware.AuthenticateToken(authorization, verify).user;
    var authToken := AuthMiddleware.BearerToken(authorization).value;
    assert verify(authToken) == Some(user);
    var c := PgInteger(classId).value;
    assert TruthyString(Some(token)) && TruthyString(Some(classId)) && TruthyNumber(Some(c));
    var l := Link(sessions, rows, enrollments, authorization, verify, Some(token), Some(classId), now, today);
    var s := StudentRoutes.Scan(sessions, rows, enrollments, user.id,
                                StudentRoutes.ScanRequest(Some(token), Some(c)), now, today);
    var (code, after) := InsertRow(rows, StudentRoutes.QrMark(c, user.id, today, now));
    assert l == if code == UniqueViolation then (LinkDuplicate, rows) else (LinkMarked, after);
    assert s == if code == UniqueViolation then (StudentRoutes.AlreadyMarked, rows) else (StudentRoutes.Marked, after);
  }

  /** The check failures answer 200 with success false where scan-qr answers
      403 or 400. */
  lemma FailuresAnswer200()
    ensures LinkReply(LinkNotEnrolled).status == 200 && StudentRoutes.ScanReply(StudentRoutes.NotEnrolled).status == 403
    ensures LinkReply(LinkInvalidOrExpired).status == 200 && StudentRoutes.ScanReply(StudentRoutes.InvalidOrExpired).status == 400
    ensures LinkReply(LinkAlreadyMarked).status == 200 && StudentRoutes.ScanReply(StudentRoutes.AlreadyMarked).status == 400
    ensures LinkReply(LinkDuplicate).status == 400
  {
  }

  /** A class id PostgreSQL cannot read as an integer ends in the 500 answer
      with nothing inserted. */
  lemma NonIntegerClassIdFails(sessions: seq<QrSession>, rows: seq<AttendanceRow>, enrollments: set<(ClassId, UserId)>,
                               authorization: Option<string>, verify: AuthMiddleware.Verifier,
                               token: string, now: Time, today: Date)
    requires AuthMiddleware.AuthenticateToken(authorization, verify).Next?
    requires token != ""
    ensures Link(sessions, rows, enrollments, authorization, verify, Some(token), Some("7abc"), now, today) == (QueryError, rows)
    ensures LinkReply(QueryError).status == 500
  {
    TrailingTextRefused();
    var authToken := AuthMiddleware.BearerToken(authorization).value;
    assert verify(authToken).Some?;
    assert TruthyString(Some(token)) && TruthyString(Some("7abc"));
  }
}
