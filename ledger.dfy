/**
 * The two tables the attendance core writes, qr_sessions and attendance, and
 * the two it only reads, class_enrollments and the ownership column of
 * classes, held in memory. The attendance table carries the unique key
 * (class_id, student_id, session_date): an INSERT that would repeat a key
 * fails with SQLSTATE 23505 and changes nothing.
 */
module Ledger {
  import opened Wrappers

  type ClassId = int
  type UserId = int
  /** A calendar day, as a day number. */
  type Date = int
  /** An instant, in milliseconds since the Unix epoch. */
  type Time = int

  /** A row of qr_sessions. session_date is the column default, the database's
      CURRENT_DATE at insertion, since the INSERT does not set it. */
  datatype QrSession = QrSession(
    classId: ClassId, token: string, sessionDate: Date,
    createdAt: Time, expiresAt: Time, isActive: bool)

  /** attendance.marked_by: 'qr' or 'manual'. */
  datatype MarkMethod = Qr | Manual

  /** A row of attendance. */
  datatype AttendanceRow = AttendanceRow(
    classId: ClassId, studentId: UserId, sessionDate: Date,
    status: string, markedBy: MarkMethod, markedAt: Time)

  /** What an INSERT into attendance reports. */
  datatype InsertResult = Inserted | UniqueViolation

  type Key = (ClassId, UserId, Date)

  function KeyOf(r: AttendanceRow): Key {
    (r.classId, r.studentId, r.sessionDate)
  }

  /** The unique constraint: no two rows share (class, student, date). */
  predicate UniqueKeys(rows: seq<AttendanceRow>) {
    forall i, j | 0 <= i < j < |rows| :: KeyOf(rows[i]) != KeyOf(rows[j])
  }

  predicate HasKey(rows: seq<AttendanceRow>, key: Key) {
    exists i | 0 <= i < |rows| :: KeyOf(rows[i]) == key
  }

  /** INSERT INTO attendance under the unique key: the result code and the
      table afterwards. */
  function InsertRow(rows: seq<AttendanceRow>, row: AttendanceRow): (r: (InsertResult, seq<AttendanceRow>))
    ensures r.0 == UniqueViolation <==> HasKey(rows, KeyOf(row))
    ensures r.0 == UniqueViolation ==> r.1 == rows
    ensures r.0 == Inserted ==> r.1 == rows + [row]
    ensures UniqueKeys(rows) ==> UniqueKeys(r.1)
  {
    if HasKey(rows, KeyOf(row)) then (UniqueViolation, rows) else (Inserted, rows + [row])
  }

  /** The row a manual mark leaves for key. */
  function ManualRow(key: Key, status: string, now: Time): AttendanceRow {
    AttendanceRow(key.0, key.1, key.2, status, Manual, now)
  }

  /** The manual upsert: a new row for the key, or the existing row of the key
      with the new status, marked manually at the current time. */
  function Upsert(rows: seq<AttendanceRow>, key: Key, status: string, now: Time): (r: seq<AttendanceRow>)
    ensures HasKey(r, key)
    ensures forall i | 0 <= i < |r| && KeyOf(r[i]) == key :: r[i] == ManualRow(key, status, now)
    ensures |r| == if HasKey(rows, key) then |rows| else |rows| + 1
    ensures forall i | 0 <= i < |rows| && KeyOf(rows[i]) != key :: r[i] == rows[i]
    ensures forall i | |rows| <= i < |r| :: KeyOf(r[i]) == key
    ensures UniqueKeys(rows) ==> UniqueKeys(r)
  {
    if HasKey(rows, key) then
      var r := seq(|rows|, i requires 0 <= i < |rows| =>
        if KeyOf(rows[i]) == key then ManualRow(key, status, now) else rows[i]);
      var k :| 0 <= k < |rows| && KeyOf(rows[k]) == key;
      assert KeyOf(r[k]) == key;
      assert UniqueKeys(rows) ==> UniqueKeys(r) by {
        if UniqueKeys(rows) {
          forall i, j | 0 <= i < j < |r| ensures KeyOf(r[i]) != KeyOf(r[j]) {
            assert KeyOf(r[i]) == KeyOf(rows[i]) && KeyOf(r[j]) == KeyOf(rows[j]);
          }
        }
      }
      r
    else
      var r := rows + [ManualRow(key, status, now)];
      assert KeyOf(r[|rows|]) == key;
      r
  }

  /** A session a scan with token for classId at time now may redeem: token and
      class match, it is active, and it expires strictly after now. */
  predicate Redeemable(s: QrSession, token: string, classId: ClassId, now: Time) {
    s.token == token && s.classId == classId && s.isActive && s.expiresAt > now
  }

  /** Some session row has this token and class, is active and has not yet
      expired. */
  predicate HasValidSession(sessions: seq<QrSession>, token: string, classId: ClassId, now: Time) {
    exists i | 0 <= i < |sessions| :: Redeemable(sessions[i], token, classId, now)
  }

  /** Turning off the sessions of one class for today: the same rows in the
      same order, only is_active changed, and off exactly on the rows of
      classId for today. */
  function Deactivate(sessions: seq<QrSession>, classId: ClassId, today: Date): (r: seq<QrSession>)
    ensures |r| == |sessions|
    ensures forall i | 0 <= i < |r| :: r[i] == sessions[i].(isActive := r[i].isActive)
    ensures forall i | 0 <= i < |r| ::
      r[i].isActive <==> sessions[i].isActive && !(sessions[i].classId == classId && sessions[i].sessionDate == today)
  {
    seq(|sessions|, i requires 0 <= i < |sessions| =>
      if sessions[i].classId == classId && sessions[i].sessionDate == today
      then sessions[i].(isActive := false) else sessions[i])
  }

  /** At most one active session per (class, day). */
  predicate AtMostOneActive(sessions: seq<QrSession>) {
    forall i, j | 0 <= i < j < |sessions| && sessions[i].isActive && sessions[j].isActive ::
      (sessions[i].classId, sessions[i].sessionDate) != (sessions[j].classId, sessions[j].sessionDate)
  }

  /** The trailing window of the burst check: INTERVAL '2 seconds'. */
  const BurstWindowMs: int := 2000

  predicate InBurstWindow(r: AttendanceRow, classId: ClassId, today: Date, now: Time) {
    r.classId == classId && r.sessionDate == today && r.markedAt > now - BurstWindowMs
  }

  /** The rows of this class for today marked less than two seconds ago. */
  function RecentScanCount(rows: seq<AttendanceRow>, classId: ClassId, today: Date, now: Time): (n: nat)
    ensures n <= |rows|
  {
    if rows == [] then 0
    else RecentScanCount(rows[..|rows| - 1], classId, today, now)
         + (if InBurstWindow(rows[|rows| - 1], classId, today, now) then 1 else 0)
  }

  /** The database: two tables written by the core, two only read. */
  class Database {
    var qrSessions: seq<QrSession>
    var attendance: seq<AttendanceRow>
    /** class_enrollments: (class_id, student_id). */
    const enrollments: set<(ClassId, UserId)>
    /** classes: (id, teacher_id). */
    const classOwners: set<(ClassId, UserId)>

    /** The invariant the unique constraint keeps. */
    ghost predicate Valid()
      reads this
    {
      UniqueKeys(attendance)
    }

    constructor (enrollments: set<(ClassId, UserId)>, classOwners: set<(ClassId, UserId)>)
      ensures Valid()
      ensures qrSessions == [] && attendance == []
      ensures this.enrollments == enrollments && this.classOwners == classOwners
    {
      this.enrollments := enrollments;
      this.classOwners := classOwners;
      qrSessions := [];
      attendance := [];
    }

    /** INSERT INTO attendance: a duplicate key reports 23505 and leaves the
        table as it was. */
    method InsertAttendance(row: AttendanceRow) returns (result: InsertResult)
      requires Valid()
      modifies this`attendance
      ensures Valid()
      ensures (result, attendance) == InsertRow(old(attendance), row)
    {
      if HasKey(attendance, KeyOf(row)) {
        result := UniqueViolation;
      } else {
        attendance := attendance + [row];
        result := Inserted;
      }
    }

    /** The manual-marking upsert. */
    method UpsertAttendance(key: Key, status: string, now: Time)
      requires Valid()
      modifies this`attendance
      ensures Valid()
      ensures attendance == Upsert(old(attendance), key, status, now)
    {
      attendance := Upsert(attendance, key, status, now);
    }

    /** Every session of one class for one day is turned off. */
    method DeactivateSessions(classId: ClassId, today: Date)
      modifies this`qrSessions
      ensures qrSessions == Deactivate(old(qrSessions), classId, today)
    {
      qrSessions := Deactivate(qrSessions, classId, today);
    }

    /** INSERT INTO qr_sessions. */
    method InsertSession(session: QrSession)
      modifies this`qrSessions
      ensures qrSessions == old(qrSessions) + [session]
    {
      qrSessions := qrSessions + [session];
    }
  }
}
