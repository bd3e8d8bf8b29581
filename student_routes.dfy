/**
 * The student routes: POST /scan-qr, which redeems a QR token through a fixed
 * chain of checks and inserts one attendance row, and GET /attendance, which
 * builds a parametrised history query.
 */
module StudentRoutes {
  import opened Wrappers
  import opened JsStrings
  import opened Http
  import opened Ledger
  import AuthMiddleware

  // ---------------------------------------------------------------------------
  // POST /scan-qr
  // ---------------------------------------------------------------------------

  /** The JSON body { token, classId }; a missing or null field is None. */
  datatype ScanRequest = ScanRequest(token: Option<string>, classId: Option<ClassId>)

  /** How a redemption ends, in the order the checks run. */
  datatype Redemption = MissingFields | NotEnrolled | InvalidOrExpired | AlreadyMarked | Marked

  /** The row a successful scan inserts: class, student, today, 'present', 'qr'. */
  function QrMark(classId: ClassId, studentId: UserId, today: Date, now: Time): AttendanceRow {
    AttendanceRow(classId, studentId, today, "present", Qr, now)
  }

  /** The redemption chain on given tables: its outcome and the attendance
      table after it. */
  function Scan(sessions: seq<QrSession>, rows: seq<AttendanceRow>, enrollments: set<(ClassId, UserId)>,
                studentId: UserId, req: ScanRequest, now: Time, today: Date): (r: (Redemption, seq<AttendanceRow>))
    ensures r.0 != Marked ==> r.1 == rows
    ensures r.0 == Marked ==> req.classId.Some? && r.1 == rows + [QrMark(req.classId.value, studentId, today, now)]
    ensures UniqueKeys(rows) ==> UniqueKeys(r.1)
  {
    if !TruthyString(req.token) || !TruthyNumber(req.classId) then (MissingFields, rows)
    else if (req.classId.value, studentId) !in enrollments then (NotEnrolled, rows)
    else if !HasValidSession(sessions, req.token.value, req.classId.value, now) then (InvalidOrExpired, rows)
    else if HasKey(rows, (req.classId.value, studentId, today)) then (AlreadyMarked, rows)
    else
      var (code, after) := InsertRow(rows, QrMark(req.classId.value, studentId, today, now));
      // a duplicate key on insert is answered like the pre-check (SQLSTATE 23505)
      if code == UniqueViolation then (AlreadyMarked, rows) else (Marked, after)
  }

  /** The response each outcome produces. */
  function ScanReply(o: Redemption): (reply: Reply)
    ensures reply.Json?
    ensures reply.status == 200 <==> o == Marked
    ensures reply.success <==> o == Marked
    ensures o == NotEnrolled <==> reply.status == 403
  {
    match o
    case MissingFields => Json(400, false, "Token and classId required")
    case NotEnrolled => Json(403, false, "You are not enrolled in this class")
    case InvalidOrExpired => Json(400, false, "Invalid or expired QR code")
    case AlreadyMarked => Json(400, false, "Attendance already marked for today")
    case Marked => Json(200, true, "Attendance marked successfully")
  }

  /** The scan passes every check that precedes the burst count. */
  predicate PassesChecks(sessions: seq<QrSession>, rows: seq<AttendanceRow>, enrollments: set<(ClassId, UserId)>,
                         studentId: UserId, req: ScanRequest, now: Time, today: Date)
  {
    TruthyString(req.token) && TruthyNumber(req.classId)
    && (req.classId.value, studentId) in enrollments
    && HasValidSession(sessions, req.token.value, req.classId.value, now)
    && !HasKey(rows, (req.classId.value, studentId, today))
  }

  /** The burst limit when the environment sets none (or sets 0 or a
      non-number). */
  const DefaultMaxScansPerSecond: int := 3

  /** The handler after the middleware: the redemption, and whether the burst
      warning is logged. The warning is only logged; the outcome and the
      table do not depend on the environment value. */
  method ScanQr(db: Database, studentId: UserId, req: ScanRequest, maxScansEnv: Option<string>, now: Time, today: Date)
    returns (outcome: Redemption, flagged: bool)
    requires db.Valid()
    modifies db`attendance
    ensures db.Valid()
    ensures (outcome, db.attendance) == Scan(db.qrSessions, old(db.attendance), db.enrollments, studentId, req, now, today)
    ensures flagged <==>
      PassesChecks(db.qrSessions, old(db.attendance), db.enrollments, studentId, req, now, today)
      && RecentScanCount(old(db.attendance), req.classId.value, today, now) >= ParseIntOr(maxScansEnv, DefaultMaxScansPerSecond)
  {
    flagged := false;
    if !TruthyString(req.token) || !TruthyNumber(req.classId) {
      return MissingFields, false;
    }
    var token, classId := req.token.value, req.classId.value;
    if (classId, studentId) !in db.enrollments {
      return NotEnrolled, false;
    }
    if !HasValidSession(db.qrSessions, token, classId, now) {
      return InvalidOrExpired, false;
    }
    if HasKey(db.attendance, (classId, studentId, today)) {
      return AlreadyMarked, false;
    }
    var maxScans := ParseIntOr(maxScansEnv, DefaultMaxScansPerSecond);
    flagged := RecentScanCount(db.attendance, classId, today, now) >= maxScans;
    var code := db.InsertAttendance(QrMark(classId, studentId, today, now));
    outcome := if code == UniqueViolation then AlreadyMarked else Marked;
  }

  /** POST /api/student/scan-qr behind authenticateToken and isStudent. */
  method PostScanQr(db: Database, authorization: Option<string>, verify: AuthMiddleware.Verifier,
                    req: ScanRequest, maxScansEnv: Option<string>, now: Time, today: Date)
    returns (reply: Reply)
    requires db.Valid()
    modifies db`attendance
    ensures db.Valid()
    ensures var gate := AuthMiddleware.Authorize(authorization, verify, "student");
      if gate.Deny? then reply == gate.reply && db.attendance == old(db.attendance)
      else
        var r := Scan(db.qrSessions, old(db.attendance), db.enrollments, gate.user.id, req, now, today);
        reply == ScanReply(r.0) && db.attendance == r.1
  {
    var gate := AuthMiddleware.Authorize(authorization, verify, "student");
    if gate.Deny? {
      return gate.reply;
    }
    var outcome, _ := ScanQr(db, gate.user.id, req, maxScansEnv, now, today);
    reply := ScanReply(outcome);
  }

  /** Without a truthy token and classId the answer is 400 whatever the
      tables hold, and nothing is written. */
  lemma MissingFieldsIgnoreTables(sessions: seq<QrSession>, rows: seq<AttendanceRow>, enrollments: set<(ClassId, UserId)>,
                                  studentId: UserId, req: ScanRequest, now: Time, today: Date)
    requires !TruthyString(req.token) || !TruthyNumber(req.classId)
    ensures Scan(sessions, rows, enrollments, studentId, req, now, today) == (MissingFields, rows)
    ensures ScanReply(MissingFields).status == 400
  {
  }

  /** The checks run in order and each outcome has exactly its condition;
      every failure leaves the table as it was. */
  lemma CheckOrder(sessions: seq<QrSession>, rows: seq<AttendanceRow>, enrollments: set<(ClassId, UserId)>,
                   studentId: UserId, req: ScanRequest, now: Time, today: Date)
    requires TruthyString(req.token) && TruthyNumber(req.classId)
    ensures var r := Scan(sessions, rows, enrollments, studentId, req, now, today);
      var (token, classId) := (req.token.value, req.classId.value);
      && (r.0 == NotEnrolled <==> (classId, studentId) !in enrollments)
      && (r.0 == InvalidOrExpired <==>
            (classId, studentId) in enrollments && !HasValidSession(sessions, token, classId, now))
      && (r.0 == AlreadyMarked <==>
            (classId, studentId) in enrollments && HasValidSession(sessions, token, classId, now)
            && HasKey(rows, (classId, studentId, today)))
      && (r.0 == Marked <==> PassesChecks(sessions, rows, enrollments, studentId, req, now, today))
  {
  }

  /** A session expiring exactly at the scan instant is not accepted, one
      expiring a millisecond later is. */
  lemma ExpiryIsStrict(classId: ClassId, studentId: UserId, token: string, rows: seq<AttendanceRow>,
                       enrollments: set<(ClassId, UserId)>, now: Time, today: Date, sessionDate: Date, createdAt: Time)
    requires token != "" && classId != 0 && (classId, studentId) in enrollments
    requires !HasKey(rows, (classId, studentId, today))
    ensures var req := ScanRequest(Some(token), Some(classId));
      Scan([QrSession(classId, token, sessionDate, createdAt, now, true)], rows, enrollments, studentId, req, now, today).0
        == InvalidOrExpired
    ensures var req := ScanRequest(Some(token), Some(classId));
      Scan([QrSession(classId, token, sessionDate, createdAt, now + 1, true)], rows, enrollments, studentId, req, now, today).0
        == Marked
  {
    var s := QrSession(classId, token, sessionDate, createdAt, now + 1, true);
    assert Redeemable([s][0], token, classId, now);
  }

  /** Any existing row for (class, student, today) blocks a scan, whatever its
      status or how it was marked: a manual 'absent' included. */
  lemma AnyExistingRowBlocks(sessions: seq<QrSession>, rows: seq<AttendanceRow>, enrollments: set<(ClassId, UserId)>,
                             studentId: UserId, req: ScanRequest, now: Time, today: Date, i: nat)
    requires TruthyString(req.token) && TruthyNumber(req.classId)
    requires (req.classId.value, studentId) in enrollments
    requires HasValidSession(sessions, req.token.value, req.classId.value, now)
    requires i < |rows| && rows[i].classId == req.classId.value && rows[i].studentId == studentId
    requires rows[i].sessionDate == today
    ensures Scan(sessions, rows, enrollments, studentId, req, now, today) == (AlreadyMarked, rows)
  {
    assert KeyOf(rows[i]) == (req.classId.value, studentId, today);
  }

  /** A successful scan adds exactly one row, the student's key was absent
      before and present after, and no other row changes. */
  lemma SuccessAddsOneRow(sessions: seq<QrSession>, rows: seq<AttendanceRow>, enrollments: set<(ClassId, UserId)>,
                          studentId: UserId, req: ScanRequest, now: Time, today: Date)
    requires Scan(sessions, rows, enrollments, studentId, req, now, today).0 == Marked
    ensures var after := Scan(sessions, rows, enrollments, studentId, req, now, today).1;
      && |after| == |rows| + 1 && after[..|rows|] == rows
      && after[|rows|] == AttendanceRow(req.classId.value, studentId, today, "present", Qr, now)
      && !HasKey(rows, (req.classId.value, studentId, today))
      && HasKey(after, (req.classId.value, studentId, today))
  {
    var after := Scan(sessions, rows, enrollments, studentId, req, now, today).1;
    assert KeyOf(after[|rows|]) == (req.classId.value, studentId, today);
  }

  /** Redeeming twice on the same day marks once: the second scan, with any
      token, is answered "already marked". */
  lemma SecondScanAlreadyMarked(sessions: seq<QrSession>, rows: seq<AttendanceRow>, enrollments: set<(ClassId, UserId)>,
                                studentId: UserId, req: ScanRequest, req2: ScanRequest, now: Time, now2: Time, today: Date)
    requires Scan(sessions, rows, enrollments, studentId, req, now, today).0 == Marked
    requires req2.classId == req.classId && TruthyString(req2.token)
    requires HasValidSession(sessions, req2.token.value, req2.classId.value, now2)
    ensures var after := Scan(sessions, rows, enrollments, studentId, req, now, today).1;
      Scan(sessions, after, enrollments, studentId, req2, now2, today) == (AlreadyMarked, after)
  {
    SuccessAddsOneRow(sessions, rows, enrollments, studentId, req, now, today);
  }

  // ---------------------------------------------------------------------------
  // GET /attendance: the history query builder
  // ---------------------------------------------------------------------------

  /** The query string { classId, startDate, endDate }. */
  datatype HistoryFilter = HistoryFilter(classId: Option<string>, startDate: Option<string>, endDate: Option<string>)

  /** A bound parameter of the query. */
  datatype SqlParam = IdParam(id: int) | TextParam(text: string)

  /** The numbers n of the placeholders $n in q, from left to right. */
  function Placeholders(q: string): seq<nat>
    decreases |q|
  {
    if q == [] then []
    else
      var digits := LeadingDigits(q[1..]);
      if q[0] == '$' && digits != [] then [DecimalValue(digits)] + Placeholders(q[1 + |digits|..])
      else Placeholders(q[1..])
  }

  /** $1, ..., $n. */
  function Consecutive(n: nat): (r: seq<nat>)
    ensures |r| == n && forall i :: 0 <= i < n ==> r[i] == i + 1
  {
    seq(n, i => i + 1)
  }

  lemma {:induction false} PlainTextHasNoPlaceholders(t: string)
    requires '$' !in t
    ensures Placeholders(t) == []
    decreases |t|
  {
    if t != [] {
      assert t[0] != '$';
      PlainTextHasNoPlaceholders(t[1..]);
    }
  }

  /** Digits that follow text not starting with a digit stop where they are. */
  lemma {:induction false} LeadingDigitsConcat(x: string, b: string)
    requires b == [] || !IsDigit(b[0])
    ensures LeadingDigits(x + b) == LeadingDigits(x)
  {
    if x == [] {
      assert x + b == b;
    } else {
      assert (x + b)[1..] == x[1..] + b;
      LeadingDigitsConcat(x[1..], b);
    }
  }

  /** Placeholders of a concatenation, when the second part does not start
      with a digit that could extend a trailing $n of the first. */
  lemma {:induction false} PlaceholdersConcat(a: string, b: string)
    requires b == [] || !IsDigit(b[0])
    ensures Placeholders(a + b) == Placeholders(a) + Placeholders(b)
    decreases |a|, 1
  {
    if a == [] {
      assert a + b == b;
    } else if a[0] == '$' && LeadingDigits(a[1..]) != [] {
      PlaceholdersConcatAtDollar(a, b);
    } else {
      PlaceholdersConcatAtOther(a, b);
    }
  }

  /** One step of Placeholders at a '$' followed by digits. */
  lemma PlaceholdersAtDollar(q: string)
    requires q != [] && q[0] == '$' && LeadingDigits(q[1..]) != []
    ensures Placeholders(q) == [DecimalValue(LeadingDigits(q[1..]))] + Placeholders(q[1 + |LeadingDigits(q[1..])|..])
  {
  }

  /** The case of PlaceholdersConcat where a starts with a placeholder. */
  lemma {:induction false} PlaceholdersConcatAtDollar(a: string, b: string)
    requires b == [] || !IsDigit(b[0])
    requires a != [] && a[0] == '$' && LeadingDigits(a[1..]) != []
    ensures Placeholders(a + b) == Placeholders(a) + Placeholders(b)
    decreases |a|, 0
  {
    var ab := a + b;
    var digits := LeadingDigits(a[1..]);
    var k := 1 + |digits|;
    assert ab[0] == '$' && LeadingDigits(ab[1..]) == digits by {
      assert ab[1..] == a[1..] + b;
      LeadingDigitsConcat(a[1..], b);
    }
    assert ab[k..] == a[k..] + b;
    PlaceholdersConcat(a[k..], b);
    PlaceholdersAtDollar(a);
    PlaceholdersAtDollar(ab);
    ConcatAssociates([DecimalValue(digits)], Placeholders(a[k..]), Placeholders(b));
  }

  /** The case of PlaceholdersConcat where a does not start with one. */
  lemma {:induction false} PlaceholdersConcatAtOther(a: string, b: string)
    requires b == [] || !IsDigit(b[0])
    requires a != [] && !(a[0] == '$' && LeadingDigits(a[1..]) != [])
    ensures Placeholders(a + b) == Placeholders(a) + Placeholders(b)
    decreases |a|, 0
  {
    var ab := a + b;
    assert ab[1..] == a[1..] + b;
    LeadingDigitsConcat(a[1..], b);
    PlaceholdersConcat(a[1..], b);
    assert Placeholders(ab) == Placeholders(ab[1..]);
  }

  /** '$' followed by the decimal form of n holds exactly the placeholder n. */
  lemma PlaceholderOfNumber(n: nat)
    ensures Placeholders("$" + NatToString(n)) == [n]
  {
    var d := NatToString(n);
    var t := "$" + d;
    assert t[1..] == d;
    LeadingDigitsOfDigits(d, []);
    assert d + [] == d;
    NatToStringValue(n);
    assert t[1 + |d|..] == [];
  }

  /** Plain text followed by the placeholder n holds exactly that placeholder. */
  lemma PlaceholderText(p: string, n: nat)
    requires '$' !in p
    ensures Placeholders(p + "$" + NatToString(n)) == [n]
  {
    PlainTextHasNoPlaceholders(p);
    PlaceholderOfNumber(n);
    PlaceholdersConcat(p, "$" + NatToString(n));
    assert p + "$" + NatToString(n) == p + ("$" + NatToString(n));
  }

  /** Appending a condition that ends in the placeholder n appends n to the
      placeholders. */
  lemma AppendPlaceholder(q: string, text: string, n: nat)
    requires '$' !in text && text != [] && !IsDigit(text[0])
    ensures Placeholders(q + (text + "$" + NatToString(n))) == Placeholders(q) + [n]
  {
    PlaceholderText(text, n);
    PlaceholdersConcat(q, text + "$" + NatToString(n));
  }

  /** Appending text without '$' that does not start with a digit adds no
      placeholder. */
  lemma AppendPlainText(q: string, text: string)
    requires '$' !in text && text != [] && !IsDigit(text[0])
    ensures Placeholders(q + text) == Placeholders(q)
  {
    PlainTextHasNoPlaceholders(text);
    PlaceholdersConcat(q, text);
  }

  lemma ConsecutiveNext(n: nat)
    ensures Consecutive(n) + [n + 1] == Consecutive(n + 1)
  {
  }

  /** The fixed text of the query up to the student placeholder, written in
      short pieces so that each is seen to contain no '$'. */
  const SelectColumns: string := "\n            SELECT a.*, " + "c.class_name, c.subject, " + "c.class_code\n"
  const SelectFrom: string := "            FROM " + "attendance a\n"
  const SelectJoin: string := "            INNER JOIN " + "classes c ON a.class_id " + "= c.id\n"
  const SelectWhere: string := "            WHERE " + "a.student_id = "
  const HistorySelect: string := SelectColumns + SelectFrom + SelectJoin + SelectWhere
  const HistoryIndent: string := "\n        "
  const HistoryOrder: string := " ORDER BY a.session_date" + " DESC, c.class_name"

  lemma PlainConcat(a: string, b: string)
    requires '$' !in a && '$' !in b
    ensures '$' !in a + b
  {
  }

  lemma ColumnsArePlain()
    ensures '$' !in SelectColumns
  {
    assert '$' !in "\n            SELECT a.*, " && '$' !in "c.class_name, c.subject, " && '$' !in "c.class_code\n";
  }

  lemma FromIsPlain()
    ensures '$' !in SelectFrom
  {
    assert '$' !in "            FROM " && '$' !in "attendance a\n";
  }

  lemma JoinIsPlain()
    ensures '$' !in SelectJoin
  {
    assert '$' !in "            INNER JOIN " && '$' !in "classes c ON a.class_id " && '$' !in "= c.id\n";
  }

  lemma WhereIsPlain()
    ensures '$' !in SelectWhere
  {
    assert '$' !in "            WHERE " && '$' !in "a.student_id = ";
  }

  lemma SelectIsPlain()
    ensures '$' !in HistorySelect
  {
    ColumnsArePlain();
    FromIsPlain();
    JoinIsPlain();
    WhereIsPlain();
    PlainConcat(SelectColumns, SelectFrom);
    PlainConcat(SelectColumns + SelectFrom, SelectJoin);
    PlainConcat(SelectColumns + SelectFrom + SelectJoin, SelectWhere);
  }

  lemma OrderIsPlain()
    ensures '$' !in HistoryOrder && HistoryOrder != [] && !IsDigit(HistoryOrder[0])
  {
    assert '$' !in " ORDER BY a.session_date" && '$' !in " DESC, c.class_name";
  }

  /** The text before the optional filters holds the one placeholder $1. */
  lemma HeadPlaceholders()
    ensures Placeholders(HistorySelect + "$" + NatToString(1) + HistoryIndent) == Consecutive(1)
  {
    SelectIsPlain();
    PlaceholderText(HistorySelect, 1);
    AppendPlainText(HistorySelect + "$" + NatToString(1), HistoryIndent);
  }

  const ClassFilter: string := " AND a.class_id = "
  const RangeFrom: string := " AND a.session_date BETWEEN "
  const RangeTo: string := " AND "

  lemma FiltersArePlain()
    ensures '$' !in ClassFilter && ClassFilter[0] == ' '
    ensures '$' !in RangeFrom && RangeFrom[0] == ' '
    ensures '$' !in RangeTo && RangeTo[0] == ' '
  {
  }

  /** One filter step: the counter goes up, the query gains a condition with
      the next placeholder, and the value joins the parameters. */
  method PushParam(query: string, params: seq<SqlParam>, paramCount: nat, text: string, value: SqlParam)
    returns (nextQuery: string, nextParams: seq<SqlParam>, nextCount: nat)
    requires '$' !in text && text != [] && !IsDigit(text[0])
    requires paramCount == |params| && Placeholders(query) == Consecutive(paramCount)
    ensures nextCount == paramCount + 1 == |nextParams|
    ensures nextQuery == query + (text + "$" + NatToString(nextCount))
    ensures nextParams == params + [value]
    ensures Placeholders(nextQuery) == Consecutive(nextCount)
  {
    nextCount := paramCount + 1;
    AppendPlaceholder(query, text, nextCount);
    ConsecutiveNext(paramCount);
    nextQuery := query + (text + "$" + NatToString(nextCount));
    nextParams := params + [value];
  }

  /** The two optional filters of the handler, appended to a query whose
      placeholders are $1..$paramCount. */
  method AppendFilters(query: string, params: seq<SqlParam>, paramCount: nat, filter: HistoryFilter)
    returns (nextQuery: string, nextParams: seq<SqlParam>, nextCount: nat)
    requires paramCount == |params| && Placeholders(query) == Consecutive(paramCount)
    ensures nextCount == |nextParams|
      == |params| + (if TruthyString(filter.classId) then 1 else 0)
                  + (if TruthyString(filter.startDate) && TruthyString(filter.endDate) then 2 else 0)
    ensures nextParams[..|params|] == params
    ensures TruthyString(filter.classId) ==> nextParams[|params|] == TextParam(filter.classId.value)
    ensures TruthyString(filter.startDate) && TruthyString(filter.endDate) ==>
      nextParams[nextCount - 2] == TextParam(filter.startDate.value) && nextParams[nextCount - 1] == TextParam(filter.endDate.value)
    ensures Placeholders(nextQuery) == Consecutive(nextCount)
  {
    FiltersArePlain();
    nextQuery, nextParams, nextCount := query, params, paramCount;
    if TruthyString(filter.classId) {
      nextQuery, nextParams, nextCount := PushParam(nextQuery, nextParams, nextCount, ClassFilter, TextParam(filter.classId.value));
    }
    if TruthyString(filter.startDate) && TruthyString(filter.endDate) {
      nextQuery, nextParams, nextCount := PushParam(nextQuery, nextParams, nextCount, RangeFrom, TextParam(filter.startDate.value));
      nextQuery, nextParams, nextCount := PushParam(nextQuery, nextParams, nextCount, RangeTo, TextParam(filter.endDate.value));
    }
  }

  /** The query text and its parameters, built as the handler builds them:
      $1 is the student, a truthy classId adds one placeholder, and a date
      range adds two, only when both ends are truthy. The placeholders are
      exactly $1..$n for the n parameters. */
  method BuildHistoryQuery(studentId: UserId, filter: HistoryFilter) returns (query: string, params: seq<SqlParam>)
    ensures |params| == 1 + (if TruthyString(filter.classId) then 1 else 0)
                           + (if TruthyString(filter.startDate) && TruthyString(filter.endDate) then 2 else 0)
    ensures params[0] == IdParam(studentId)
    ensures TruthyString(filter.classId) ==> params[1] == TextParam(filter.classId.value)
    ensures TruthyString(filter.startDate) && TruthyString(filter.endDate) ==>
      params[|params| - 2] == TextParam(filter.startDate.value) && params[|params| - 1] == TextParam(filter.endDate.value)
    ensures Placeholders(query) == Consecutive(|params|)
  {
    query := HistorySelect + "$" + NatToString(1) + HistoryIndent;
    HeadPlaceholders();
    params := [IdParam(studentId)];
    var paramCount: nat := 1;
    query, params, paramCount := AppendFilters(query, params, paramCount, filter);
    OrderIsPlain();
    AppendPlainText(query, HistoryOrder);
    query := query + HistoryOrder;
  }
}
