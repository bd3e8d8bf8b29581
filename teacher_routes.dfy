/**
 * The teacher routes of the attendance core: POST /generate-qr issues a fresh
 * session for a class, GET /attendance/:classId merges the roster with the
 * day's records, and POST /mark-manual upserts one attendance row.
 */
module TeacherRoutes {
  import opened Wrappers
  import opened JsStrings
  import opened Http
  import opened Ledger

  /** SELECT * FROM classes WHERE id = $1 AND teacher_id = $2 finds a row; a
      missing classId finds none. */
  predicate Owns(owners: set<(ClassId, UserId)>, classId: Option<ClassId>, teacherId: UserId) {
    classId.Some? && (classId.value, teacherId) in owners
  }

  const UnauthorizedClass: Reply := Json(403, false, "Unauthorized access to class")

  // ---------------------------------------------------------------------------
  // POST /generate-qr
  // ---------------------------------------------------------------------------

  const DefaultValiditySeconds: int := 5

  /** The validity period in seconds: the environment setting read by
      parseInt without a radix (so "0x1E" is hexadecimal), falling back to 5
      when unset, unparseable or zero. */
  function ValiditySeconds(env: Option<string>): (seconds: int)
    ensures seconds != 0
    ensures env.Some? && ParseInt(env.value).Some? && ParseInt(env.value).value != 0 ==>
      seconds == ParseInt(env.value).value
    ensures env.None? || ParseInt(env.value).None? || ParseInt(env.value) == Some(0) ==>
      seconds == DefaultValiditySeconds
  {
    ParseIntOr(env, DefaultValiditySeconds)
  }

  /** Any non-zero integer written in decimal is taken as it is. */
  lemma ValidityFromDecimal(n: int)
    requires n != 0
    ensures ValiditySeconds(Some(IntToString(n))) == n
  {
    ParseIntOfIntToString(n, "");
    assert IntToString(n) + "" == IntToString(n);
  }

  /** A hexadecimal setting is read in radix 16: "0x1E" gives 30 seconds. */
  lemma ValidityFromHex(setting: string)
    requires setting == "0x1E"
    ensures ValiditySeconds(Some(setting)) == 30
  {
    HexThirty(setting);
  }

  /** Unset, empty, zero and unparseable values all give the default. */
  lemma ValidityDefaults()
    ensures ValiditySeconds(None) == 5
    ensures ValiditySeconds(Some("")) == 5
    ensures ValiditySeconds(Some("0")) == 5
    ensures ValiditySeconds(Some("soon")) == 5
  {
    EmptyIsNaN();
    ZeroIsZero();
    WordIsNaN();
  }

  lemma EmptyIsNaN()
    ensures ParseInt("") == None
  {
    assert TrimStart("") == "";
  }

  lemma ZeroIsZero()
    ensures ParseInt("0") == Some(0)
  {
    assert TrimStart("0") == "0";
    assert LeadingDigits("0") == "0";
    assert DecimalValue("0") == 0;
  }

  lemma WordIsNaN()
    ensures ParseInt("soon") == None
  {
    var t := "soon";
    assert t[0] == 's' && !IsJsWhitespace(t[0]) && !IsDigit(t[0]);
    assert TrimStart(t) == t;
    assert LeadingDigits(t) == "";
  }

  /** The row the issuance inserts: active, dated today by the column
      default, expiring validity seconds after now. */
  function NewSession(classId: ClassId, token: string, now: Time, today: Date, validity: int): QrSession {
    QrSession(classId, token, today, now, now + validity * 1000, true)
  }

  /** The qr_sessions table after an issuance: today's sessions of the class
      switched off, then the new one appended. */
  function Issue(sessions: seq<QrSession>, classId: ClassId, token: string, now: Time, today: Date, validity: int)
    : (r: seq<QrSession>)
    ensures |r| == |sessions| + 1 && r[|sessions|] == NewSession(classId, token, now, today, validity)
    ensures forall i | 0 <= i < |sessions| :: r[i] == sessions[i].(isActive := r[i].isActive)
    ensures forall i | 0 <= i < |sessions| :: r[i].isActive <==>
      sessions[i].isActive && !(sessions[i].classId == classId && sessions[i].sessionDate == today)
  {
    Deactivate(sessions, classId, today) + [NewSession(classId, token, now, today, validity)]
  }

  /** After an issuance the new session is the single active one of the class
      for today. */
  lemma IssueLeavesSingleActive(sessions: seq<QrSession>, classId: ClassId, token: string, now: Time, today: Date, validity: int)
    ensures var r := Issue(sessions, classId, token, now, today, validity);
      forall i | 0 <= i < |r| && r[i].isActive && r[i].classId == classId && r[i].sessionDate == today :: i == |sessions|
  {
  }

  /** Issuance keeps at most one active session per class and day. */
  lemma {:induction false} IssuePreservesAtMostOneActive(sessions: seq<QrSession>, classId: ClassId, token: string,
                                                         now: Time, today: Date, validity: int)
    requires AtMostOneActive(sessions)
    ensures AtMostOneActive(Issue(sessions, classId, token, now, today, validity))
  {
    var r := Issue(sessions, classId, token, now, today, validity);
    forall i, j | 0 <= i < j < |r| && r[i].isActive && r[j].isActive
      ensures (r[i].classId, r[i].sessionDate) != (r[j].classId, r[j].sessionDate)
    {
      if j < |sessions| {
        assert sessions[i].isActive && sessions[j].isActive;
        assert r[i].classId == sessions[i].classId && r[i].sessionDate == sessions[i].sessionDate;
        assert r[j].classId == sessions[j].classId && r[j].sessionDate == sessions[j].sessionDate;
      } else {
        assert j == |sessions|;
        assert !(sessions[i].classId == classId && sessions[i].sessionDate == today);
      }
    }
  }

  /** A new session is accepted strictly before now + validity seconds. */
  lemma NewSessionWindow(sessions: seq<QrSession>, classId: ClassId, token: string, now: Time, today: Date,
                         validity: int, at: Time)
    ensures var r := Issue(sessions, classId, token, now, today, validity);
      Redeemable(r[|sessions|], token, classId, at) <==> at < now + validity * 1000
  {
  }

  /** Reissuing on the same day makes the earlier token useless at any time,
      when the tokens differ and the earlier one was not in use before. */
  lemma {:induction false} ReissueInvalidatesEarlierToken(sessions: seq<QrSession>, classId: ClassId, tokenA: string, tokenB: string,
                                                          now1: Time, now2: Time, today: Date, validity: int, at: Time)
    requires tokenA != tokenB
    requires forall i | 0 <= i < |sessions| :: sessions[i].token != tokenA
    ensures var r1 := Issue(sessions, classId, tokenA, now1, today, validity);
      !HasValidSession(Issue(r1, classId, tokenB, now2, today, validity), tokenA, classId, at)
  {
    var r1 := Issue(sessions, classId, tokenA, now1, today, validity);
    var r2 := Issue(r1, classId, tokenB, now2, today, validity);
    forall i | 0 <= i < |r2| ensures !Redeemable(r2[i], tokenA, classId, at) {
      if i < |sessions| {
        assert r2[i].token == r1[i].token == sessions[i].token;
      } else if i == |sessions| {
        assert r1[i].classId == classId && r1[i].sessionDate == today;
        assert !r2[i].isActive;
      } else {
        assert r2[i].token == tokenB;
      }
    }
  }

  /** The configured base URL when it is set and non-empty, else the
      request's protocol and host. */
  function BaseUrl(env: Option<string>, protocol: string, host: string): (url: string)
    ensures TruthyString(env) ==> url == env.value
    ensures !TruthyString(env) ==> protocol + "://" <= url && url[|protocol| + 3..] == host
  {
    if TruthyString(env) then env.value else protocol + "://" + host
  }

  const MarkPage: string := "/mark-attendance.html"

  /** The attendance page on the base URL, with the session token and the
      class id as its two query parameters. */
  function QrUrl(baseUrl: string, token: string, classId: ClassId): (url: string)
    ensures baseUrl + MarkPage + "?token=" <= url
    ensures |url| == |baseUrl| + |MarkPage| + 16 + |token| + |IntToString(classId)|
  {
    baseUrl + MarkPage + "?" + ("token=" + token + "&" + "classId=" + IntToString(classId))
  }

  /** The text after the first '?', or "" when there is none. */
  function QueryString(url: string): string {
    var parts := Split(url, '?');
    if |parts| < 2 then "" else Join(parts[1..], '?')
  }

  /** The value of the first `name=value` field of a query string. */
  function QueryValue(query: string, name: string): (v: Option<string>) {
    FirstValue(Split(query, '&'), name)
  }

  function FirstValue(fields: seq<string>, name: string): (v: Option<string>)
    ensures v.Some? ==> exists i | 0 <= i < |fields| :: fields[i] == name + "=" + v.value
  {
    if fields == [] then None
    else if name + "=" <= fields[0] then
      assert fields[0] == name + "=" + fields[0][|name| + 1..];
      Some(fields[0][|name| + 1..])
    else FirstValue(fields[1..], name)
  }

  lemma IntToStringPlain(i: int)
    ensures '?' !in IntToString(i) && '&' !in IntToString(i)
  {
    var d := NatToString(if i < 0 then -i else i);
    assert forall k | 0 <= k < |d| :: IsDigit(d[k]);
  }

  /** The query string of the QR link is the token field, '&', and the class
      field. */
  lemma QueryStringOfQrUrl(baseUrl: string, token: string, classId: ClassId)
    requires '?' !in baseUrl && '?' !in token
    ensures QueryString(QrUrl(baseUrl, token, classId)) == "token=" + token + "&" + "classId=" + IntToString(classId)
  {
    var query := "token=" + token + "&" + "classId=" + IntToString(classId);
    IntToStringPlain(classId);
    assert '?' !in MarkPage;
    assert '?' !in "token=" && '?' !in "&" && '?' !in "classId=";
    assert '?' !in query;
    SplitAtFirst(baseUrl + MarkPage, '?', query);
    assert QrUrl(baseUrl, token, classId) == baseUrl + MarkPage + ['?'] + query;
    SplitWithoutSeparator(query, '?');
  }

  /** The two fields of the QR link's query string. */
  lemma QrQueryFields(token: string, n: string)
    requires '&' !in token && '&' !in n
    ensures Split("token=" + token + "&" + "classId=" + n, '&') == ["token=" + token, "classId=" + n]
  {
    var tokenField := "token=" + token;
    var classField := "classId=" + n;
    assert '&' !in tokenField;
    assert '&' !in classField;
    SplitAtFirst(tokenField, '&', classField);
    SplitWithoutSeparator(classField, '&');
    var s := tokenField + ['&'] + classField;
    assert s == "token=" + token + "&" + "classId=" + n;
    assert Split(s, '&') == [tokenField] + [classField];
  }

  lemma TokenFieldValue(token: string, n: string)
    ensures FirstValue(["token=" + token, "classId=" + n], "token") == Some(token)
  {
    var field := "token=" + token;
    assert "token=" <= field;
    assert field[|"token"| + 1..] == token;
  }

  lemma ClassFieldValue(token: string, n: string)
    ensures FirstValue(["token=" + token, "classId=" + n], "classId") == Some(n)
  {
    var fields := ["token=" + token, "classId=" + n];
    assert fields[0][0] == 't';
    assert !("classId=" <= fields[0]);
    var rest := fields[1..];
    assert rest == ["classId=" + n];
    assert "classId=" <= rest[0];
    assert rest[0][|"classId"| + 1..] == n;
  }

  /** The QR link carries exactly the session token and the class id, which
      parseInt reads back, when the base URL has no '?' and the token no '?'
      or '&' (a UUID has neither). */
  lemma QrUrlCarriesTokenAndClass(baseUrl: string, token: string, classId: ClassId)
    requires '?' !in baseUrl && '?' !in token && '&' !in token
    ensures QueryValue(QueryString(QrUrl(baseUrl, token, classId)), "token") == Some(token)
    ensures QueryValue(QueryString(QrUrl(baseUrl, token, classId)), "classId") == Some(IntToString(classId))
    ensures ParseInt(IntToString(classId)) == Some(classId)
  {
    var n := IntToString(classId);
    IntToStringPlain(classId);
    QueryStringOfQrUrl(baseUrl, token, classId);
    QrQueryFields(token, n);
    TokenFieldValue(token, n);
    ClassFieldValue(token, n);
    ParseIntOfIntToString(classId, "");
    assert n + "" == n;
  }

  /** What /generate-qr answers. */
  datatype IssueResponse =
    | IssueDenied(reply: Reply)
    | QrIssued(token: string, expiresAt: Time, validitySeconds: int, qrUrl: string)

  /** POST /generate-qr for a teacher: ownership is checked first; an owner's
      call replaces today's sessions of the class by one new session and
      answers with what was stored. */
  method GenerateQr(db: Database, teacherId: UserId, classId: Option<ClassId>, freshToken: string,
                    validityEnv: Option<string>, baseUrlEnv: Option<string>, protocol: string, host: string,
                    now: Time, today: Date)
    returns (response: IssueResponse)
    modifies db`qrSessions
    ensures !Owns(db.classOwners, classId, teacherId) ==>
      response == IssueDenied(UnauthorizedClass) && db.qrSessions == old(db.qrSessions)
    ensures Owns(db.classOwners, classId, teacherId) ==>
      var validity := ValiditySeconds(validityEnv);
      && db.qrSessions == Issue(old(db.qrSessions), classId.value, freshToken, now, today, validity)
      && response == QrIssued(freshToken, now + validity * 1000, validity,
                              QrUrl(BaseUrl(baseUrlEnv, protocol, host), freshToken, classId.value))
    ensures Owns(db.classOwners, classId, teacherId) && AtMostOneActive(old(db.qrSessions)) ==>
      AtMostOneActive(db.qrSessions)
  {
    if !Owns(db.classOwners, classId, teacherId) {
      return IssueDenied(UnauthorizedClass);
    }
    var id := classId.value;
    db.DeactivateSessions(id, today);
    var validity := ValiditySeconds(validityEnv);
    var expiresAt := now + validity * 1000;
    db.InsertSession(QrSession(id, freshToken, today, now, expiresAt, true));
    var qrUrl := QrUrl(BaseUrl(baseUrlEnv, protocol, host), freshToken, id);
    response := QrIssued(freshToken, expiresAt, validity, qrUrl);
    if AtMostOneActive(old(db.qrSessions)) {
      IssuePreservesAtMostOneActive(old(db.qrSessions), id, freshToken, now, today, validity);
    }
  }

  // ---------------------------------------------------------------------------
  // GET /attendance/:classId
  // ---------------------------------------------------------------------------

  /** A row of the enrolled-students query. */
  datatype Student = Student(id: UserId, fullName: string, studentNumber: Option<string>, email: string)

  /** One entry of the listing: the student with the day's status and, when
      a record exists, when and how it was marked. */
  datatype ListingEntry = ListingEntry(student: Student, status: string, markedAt: Option<Time>, markedBy: Option<MarkMethod>)

  /** SELECT ... FROM attendance WHERE class_id = $1 AND session_date = $2,
      in table order. */
  function DayRecords(rows: seq<AttendanceRow>, classId: ClassId, date: Date): (r: seq<AttendanceRow>)
    ensures forall i | 0 <= i < |r| :: r[i] in rows && r[i].classId == classId && r[i].sessionDate == date
    ensures forall x | x in rows && x.classId == classId && x.sessionDate == date :: x in r
  {
    if rows == [] then []
    else
      var prefix := DayRecords(rows[..|rows| - 1], classId, date);
      var last := rows[|rows| - 1];
      assert forall x | x in rows[..|rows| - 1] :: x in rows;
      assert forall x | x in rows :: x in rows[..|rows| - 1] || x == last;
      if last.classId == classId && last.sessionDate == date then prefix + [last] else prefix
  }

  /** The object the forEach fills: for each student id, the last record
      holding it. */
  function LastWriteMap(records: seq<AttendanceRow>): (m: map<UserId, AttendanceRow>)
  {
    if records == [] then map[]
    else LastWriteMap(records[..|records| - 1])[records[|records| - 1].studentId := records[|records| - 1]]
  }

  /** A student id is a key iff some record holds it, and its value is the last
      such record. */
  lemma {:induction false} LastWriteWins(records: seq<AttendanceRow>, id: UserId)
    ensures id in LastWriteMap(records) <==> exists i | 0 <= i < |records| :: records[i].studentId == id
    ensures id in LastWriteMap(records) ==>
      exists i | 0 <= i < |records| ::
        LastWriteMap(records)[id] == records[i] && records[i].studentId == id
        && forall j | i < j < |records| :: records[j].studentId != id
  {
    if records != [] {
      var n := |records| - 1;
      var prefix := records[..n];
      LastWriteWins(prefix, id);
      if records[n].studentId != id {
        if id in LastWriteMap(records) {
          var i :| 0 <= i < |prefix| && LastWriteMap(prefix)[id] == prefix[i] && prefix[i].studentId == id
                   && forall j | i < j < |prefix| :: prefix[j].studentId != id;
          assert records[i] == prefix[i];
          assert forall j | i < j < |records| :: records[j].studentId != id by {
            forall j | i < j < |records| ensures records[j].studentId != id {
              if j < n { assert records[j] == prefix[j]; }
            }
          }
        }
        assert (exists i | 0 <= i < |records| :: records[i].studentId == id) ==>
               (exists i | 0 <= i < |prefix| :: prefix[i].studentId == id) by {
          if i :| 0 <= i < |records| && records[i].studentId == id {
            assert i < n && prefix[i] == records[i];
          }
        }
      } else {
        assert LastWriteMap(records)[id] == records[n];
      }
    }
  }

  /** The forEach over the day's records: later records overwrite earlier ones. */
  method BuildAttendanceMap(records: seq<AttendanceRow>) returns (m: map<UserId, AttendanceRow>)
    ensures m == LastWriteMap(records)
  {
    m := map[];
    var k := 0;
    while k < |records|
      invariant 0 <= k <= |records|
      invariant m == LastWriteMap(records[..k])
    {
      assert records[..k + 1][..k] == records[..k];
      m := m[records[k].studentId := records[k]];
      k := k + 1;
    }
    assert records[..|records|] == records;
  }

  /** attendanceMap[student.id]?.status || 'absent', and the two `|| null`
      fields. */
  function Entry(student: Student, m: map<UserId, AttendanceRow>): (e: ListingEntry)
    ensures e.student == student
    ensures e.status == if student.id in m && m[student.id].status != "" then m[student.id].status else "absent"
    ensures e.markedAt.Some? <==> student.id in m
    ensures e.markedBy.Some? <==> student.id in m
  {
    if student.id in m then
      var r := m[student.id];
      ListingEntry(student, if r.status != "" then r.status else "absent", Some(r.markedAt), Some(r.markedBy))
    else ListingEntry(student, "absent", None, None)
  }

  /** enrolledStudents.rows.map(...): one entry per enrolled student, in
      roster order. */
  function MergeListing(roster: seq<Student>, m: map<UserId, AttendanceRow>): (r: seq<ListingEntry>)
    ensures |r| == |roster|
    ensures forall i | 0 <= i < |r| :: r[i] == Entry(roster[i], m)
  {
    seq(|roster|, i requires 0 <= i < |roster| => Entry(roster[i], m))
  }

  /** The date the listing and manual marking use: the given one, else the
      server's UTC day. */
  function TargetDate(date: Option<Date>, utcToday: Date): (d: Date)
    ensures date.Some? ==> d == date.value
    ensures date.None? ==> d == utcToday
  {
    date.GetOr(utcToday)
  }

  /** Under the unique key, each roster entry shows the student's one row of
      the class for that day, or 'absent' with no marking data when there is
      none; records of other students never appear. */
  lemma {:induction false} ListingReflectsLedger(rows: seq<AttendanceRow>, classId: ClassId, date: Date,
                                                 roster: seq<Student>, i: nat)
    requires UniqueKeys(rows)
    requires i < |roster|
    ensures var e := MergeListing(roster, LastWriteMap(DayRecords(rows, classId, date)))[i];
      && e.student == roster[i]
      && (!HasKey(rows, (classId, roster[i].id, date)) ==> e == ListingEntry(roster[i], "absent", None, None))
      && (forall k | 0 <= k < |rows| && KeyOf(rows[k]) == (classId, roster[i].id, date) ::
            e == ListingEntry(roster[i], if rows[k].status != "" then rows[k].status else "absent",
                              Some(rows[k].markedAt), Some(rows[k].markedBy)))
  {
    var day := DayRecords(rows, classId, date);
    var m := LastWriteMap(day);
    var id := roster[i].id;
    LastWriteWins(day, id);
    if id in m {
      var j :| 0 <= j < |day| && m[id] == day[j] && day[j].studentId == id;
      assert day[j] in rows;
      var k' :| 0 <= k' < |rows| && rows[k'] == day[j];
      assert KeyOf(rows[k']) == (classId, id, date);
      forall k | 0 <= k < |rows| && KeyOf(rows[k]) == (classId, id, date)
        ensures rows[k] == m[id]
      {
        assert k == k';
      }
    }
  }

  /** What the enrolled-students query returns for a class: each enrolled
      student once (class_enrollments joined with the users it references),
      and no one else. */
  predicate IsRosterOf(roster: seq<Student>, enrollments: set<(ClassId, UserId)>, classId: ClassId) {
    && (forall i, j | 0 <= i < j < |roster| :: roster[i].id != roster[j].id)
    && (forall i | 0 <= i < |roster| :: (classId, roster[i].id) in enrollments)
    && (forall p | p in enrollments && p.0 == classId :: exists i | 0 <= i < |roster| :: roster[i].id == p.1)
  }

  /** The listing has exactly one entry per enrolled student of the class,
      and none for anybody else, whatever records the day holds. */
  lemma ListingOnePerEnrolled(roster: seq<Student>, m: map<UserId, AttendanceRow>,
                              enrollments: set<(ClassId, UserId)>, classId: ClassId)
    requires IsRosterOf(roster, enrollments, classId)
    ensures var entries := MergeListing(roster, m);
      && (forall i, j | 0 <= i < j < |entries| :: entries[i].student.id != entries[j].student.id)
      && (forall i | 0 <= i < |entries| :: (classId, entries[i].student.id) in enrollments)
      && (forall p | p in enrollments && p.0 == classId :: exists i | 0 <= i < |entries| :: entries[i].student.id == p.1)
  {
    var entries := MergeListing(roster, m);
    forall p | p in enrollments && p.0 == classId
      ensures exists i | 0 <= i < |entries| :: entries[i].student.id == p.1
    {
      var i :| 0 <= i < |roster| && roster[i].id == p.1;
      assert entries[i].student == roster[i];
    }
  }

  /** What /attendance/:classId answers. */
  datatype ListingResponse = ListingDenied(reply: Reply) | Listing(date: Date, entries: seq<ListingEntry>)

  /** GET /attendance/:classId for a teacher; roster is the enrolled-students
      query result, in its order. */
  method GetAttendance(db: Database, teacherId: UserId, classId: ClassId, date: Option<Date>, utcToday: Date,
                       roster: seq<Student>)
    returns (response: ListingResponse)
    requires IsRosterOf(roster, db.enrollments, classId)
    ensures (classId, teacherId) !in db.classOwners ==> response == ListingDenied(UnauthorizedClass)
    ensures (classId, teacherId) in db.classOwners ==>
      var target := TargetDate(date, utcToday);
      response == Listing(target, MergeListing(roster, LastWriteMap(DayRecords(db.attendance, classId, target))))
    ensures response.Listing? ==>
      && (forall i, j | 0 <= i < j < |response.entries| :: response.entries[i].student.id != response.entries[j].student.id)
      && (forall i | 0 <= i < |response.entries| :: (classId, response.entries[i].student.id) in db.enrollments)
      && (forall s | (classId, s) in db.enrollments :: exists i | 0 <= i < |response.entries| :: response.entries[i].student.id == s)
  {
    if (classId, teacherId) !in db.classOwners {
      return ListingDenied(UnauthorizedClass);
    }
    var target := TargetDate(date, utcToday);
    var m := BuildAttendanceMap(DayRecords(db.attendance, classId, target));
    ListingOnePerEnrolled(roster, m, db.enrollments, classId);
    response := Listing(target, MergeListing(roster, m));
    forall s | (classId, s) in db.enrollments
      ensures exists i | 0 <= i < |response.entries| :: response.entries[i].student.id == s
    {
      assert (classId, s).0 == classId;
    }
  }

  // ---------------------------------------------------------------------------
  // POST /mark-manual
  // ---------------------------------------------------------------------------

  /** The JSON body { classId, studentId, status, date }. */
  datatype ManualRequest = ManualRequest(classId: Option<ClassId>, studentId: Option<UserId>, status: string, date: Option<Date>)

  predicate EnrolledStudent(enrollments: set<(ClassId, UserId)>, classId: ClassId, studentId: Option<UserId>) {
    studentId.Some? && (classId, studentId.value) in enrollments
  }

  /** POST /mark-manual for a teacher: ownership (403), then enrollment (400),
      both before any write; then the upsert for the target date. */
  method MarkManual(db: Database, teacherId: UserId, req: ManualRequest, utcToday: Date, now: Time)
    returns (reply: Reply)
    requires db.Valid()
    modifies db`attendance
    ensures db.Valid()
    ensures !Owns(db.classOwners, req.classId, teacherId) ==>
      reply == UnauthorizedClass && db.attendance == old(db.attendance)
    ensures Owns(db.classOwners, req.classId, teacherId) && !EnrolledStudent(db.enrollments, req.classId.value, req.studentId) ==>
      reply == Json(400, false, "Student not enrolled in this class") && db.attendance == old(db.attendance)
    ensures Owns(db.classOwners, req.classId, teacherId) && EnrolledStudent(db.enrollments, req.classId.value, req.studentId) ==>
      reply == Json(200, true, "Attendance marked successfully")
      && db.attendance == Upsert(old(db.attendance), (req.classId.value, req.studentId.value, TargetDate(req.date, utcToday)), req.status, now)
  {
    if !Owns(db.classOwners, req.classId, teacherId) {
      return UnauthorizedClass;
    }
    if !EnrolledStudent(db.enrollments, req.classId.value, req.studentId) {
      return Json(400, false, "Student not enrolled in this class");
    }
    var target := TargetDate(req.date, utcToday);
    db.UpsertAttendance((req.classId.value, req.studentId.value, target), req.status, now);
    reply := Json(200, true, "Attendance marked successfully");
  }

  /** After a manual mark exactly one row holds the key: it has the given
      status and 'manual', and every row with another key is kept. */
  lemma ManualMarkLeavesOneRow(rows: seq<AttendanceRow>, key: Key, status: string, now: Time)
    requires UniqueKeys(rows)
    ensures var r := Upsert(rows, key, status, now);
      && (exists i | 0 <= i < |r| :: r[i] == ManualRow(key, status, now))
      && (forall i, j | 0 <= i < |r| && 0 <= j < |r| && KeyOf(r[i]) == key && KeyOf(r[j]) == key :: i == j)
      && (forall x | x in rows && KeyOf(x) != key :: x in r)
  {
    var r := Upsert(rows, key, status, now);
    forall x | x in rows && KeyOf(x) != key ensures x in r {
      var i :| 0 <= i < |rows| && rows[i] == x;
      assert r[i] == x;
    }
  }

  /** Marking the same key twice with the same status and time is the same as
      marking it once. */
  lemma {:induction false} ManualMarkIdempotent(rows: seq<AttendanceRow>, key: Key, status: string, now: Time)
    ensures Upsert(Upsert(rows, key, status, now), key, status, now) == Upsert(rows, key, status, now)
  {
    var once := Upsert(rows, key, status, now);
    var twice := Upsert(once, key, status, now);
    assert |twice| == |once|;
    forall i | 0 <= i < |once| ensures twice[i] == once[i] {
      if KeyOf(once[i]) == key {
        assert twice[i] == ManualRow(key, status, now) == once[i];
      }
    }
  }
}
