/**
 * frontend/js/teacher.js: the teacher's page. Its module-level variables are
 * the fields of one class; each handler is a method, and what the server or
 * a timer answers is a parameter. The QR modal keeps a rotation interval
 * and a countdown interval; the attendance modal keeps the loaded rows, the
 * pending per-student changes and the edit-mode flag.
 */
module TeacherDashboard {
  import opened Wrappers
  import opened JsStrings

  // ---------------------------------------------------------------------------
  // Rows, pending changes and counts
  // ---------------------------------------------------------------------------

  /** One row of the daily listing: the student's user id and the status the
      server reported. */
  datatype Entry = Entry(id: nat, status: string)

  /** The pending changes, keyed by student id. */
  type Changes = map<nat, string>

  /** The status a row shows: its pending change if there is one, else
      'present' iff the stored status is 'present', else 'absent'. */
  function EffectiveStatus(e: Entry, changes: Changes): (s: string)
    ensures e.id in changes ==> s == changes[e.id]
    ensures e.id !in changes ==> (s == "present" <==> e.status == "present")
    ensures e.id !in changes ==> (s == "present" || s == "absent")
  {
    if e.id in changes then changes[e.id]
    else if e.status == "present" then "present" else "absent"
  }

  /** The rows counted as present. */
  function PresentCount(rows: seq<Entry>, changes: Changes): (n: nat)
    ensures n <= |rows|
  {
    if rows == [] then 0
    else PresentCount(rows[..|rows| - 1], changes)
         + (if EffectiveStatus(rows[|rows| - 1], changes) == "present" then 1 else 0)
  }

  /** The absent count is what is left, so the two always add up. */
  function AbsentCount(rows: seq<Entry>, changes: Changes): (n: nat)
    ensures PresentCount(rows, changes) + n == |rows|
  {
    |rows| - PresentCount(rows, changes)
  }

  /** The rows are counted one by one: the count over two lists is the sum
      of their counts. */
  lemma {:induction false} PresentCountAppend(rows: seq<Entry>, more: seq<Entry>, changes: Changes)
    ensures PresentCount(rows + more, changes) == PresentCount(rows, changes) + PresentCount(more, changes)
    decreases |more|
  {
    if more == [] {
      assert rows + more == rows;
    } else {
      var all := rows + more;
      assert all[..|all| - 1] == rows + more[..|more| - 1];
      assert all[|all| - 1] == more[|more| - 1];
      PresentCountAppend(rows, more[..|more| - 1], changes);
    }
  }

  /** A pending change for a student who has no row leaves the count as it
      is: marking one student moves only that student's rows. */
  lemma {:induction false} MarkElsewhereKeepsCount(rows: seq<Entry>, changes: Changes, id: nat, status: string)
    requires forall k | 0 <= k < |rows| :: rows[k].id != id
    ensures PresentCount(rows, changes[id := status]) == PresentCount(rows, changes)
  {
    if rows != [] {
      var last := rows[|rows| - 1];
      assert last.id != id;
      assert EffectiveStatus(last, changes[id := status]) == EffectiveStatus(last, changes);
      MarkElsewhereKeepsCount(rows[..|rows| - 1], changes, id, status);
    }
  }

  // ---------------------------------------------------------------------------
  // Saving
  // ---------------------------------------------------------------------------

  /** The body of one POST /teacher/mark-manual. */
  datatype ManualMark = ManualMark(classId: Option<int>, studentId: nat, status: string, date: string)

  /** How one save request ends: success true, success false, or thrown. */
  datatype SaveAnswer = Saved | NotSaved | Threw(message: string)

  ghost predicate StrictlyIncreasing(order: seq<nat>) {
    forall i, j | 0 <= i < j < |order| :: order[i] < order[j]
  }

  /** The position of the first request that throws, or n. */
  function FirstThrow(answer: nat -> SaveAnswer, n: nat): (k: nat)
    ensures k <= n
    ensures forall i | 0 <= i < k :: !answer(i).Threw?
    ensures k < n ==> answer(k).Threw?
  {
    if n == 0 then 0
    else if FirstThrow(answer, n - 1) < n - 1 then FirstThrow(answer, n - 1)
    else if answer(n - 1).Threw? then n - 1 else n
  }

  /** The number of answers with success true among the first n. */
  function SuccessCount(answer: nat -> SaveAnswer, n: nat): (c: nat)
    ensures c <= n
  {
    if n == 0 then 0 else SuccessCount(answer, n - 1) + (if answer(n - 1) == Saved then 1 else 0)
  }

  /** The requests for the students of order, in that order. */
  function MarksFor(order: seq<nat>, changes: Changes, classId: Option<int>, date: string): (marks: seq<ManualMark>)
    requires forall i | 0 <= i < |order| :: order[i] in changes
    ensures |marks| == |order|
    ensures forall i | 0 <= i < |order| :: marks[i] == ManualMark(classId, order[i], changes[order[i]], date)
  {
    seq(|order|, i requires 0 <= i < |order| => ManualMark(classId, order[i], changes[order[i]], date))
  }

  /** The smallest of a non-empty set of ids, found by one pass over it. */
  method Least(s: set<nat>) returns (m: nat)
    requires s != {}
    ensures m in s && forall j | j in s :: m <= j
  {
    m :| m in s;
    var rest := s - {m};
    while rest != {}
      invariant m in s && rest <= s
      invariant forall j | j in s :: j in rest || m <= j
      decreases |rest|
    {
      var x :| x in rest;
      if x < m {
        m := x;
      }
      rest := rest - {x};
    }
  }

  /** Part way through AscendingKeys: order, ascending, holds the ids taken
      so far, all below those still in rest, and the two split keys. */
  ghost predicate KeysSplit(order: seq<nat>, rest: set<nat>, keys: set<nat>) {
    && rest <= keys
    && StrictlyIncreasing(order)
    && (forall i | 0 <= i < |order| :: order[i] in keys && order[i] !in rest)
    && (forall k | k in keys :: k in order || k in rest)
    && (forall i, k | 0 <= i < |order| && k in rest :: order[i] < k)
    && |order| + |rest| == |keys|
  }

  /** Taking the least remaining id keeps the split. */
  lemma KeysSplitStep(order: seq<nat>, rest: set<nat>, keys: set<nat>, k: nat)
    requires KeysSplit(order, rest, keys)
    requires k in rest && forall j | j in rest :: k <= j
    ensures KeysSplit(order + [k], rest - {k}, keys)
  {
    var next := order + [k];
    forall i, j | 0 <= i < j < |next|
      ensures next[i] < next[j]
    {
      if j == |order| {
        assert next[i] == order[i];
      } else {
        assert next[i] == order[i] && next[j] == order[j];
      }
    }
    assert |rest - {k}| == |rest| - 1;
    forall i | 0 <= i < |next|
      ensures next[i] in keys && next[i] !in rest - {k}
    {
      if i < |order| {
        assert next[i] == order[i];
      }
    }
    forall x | x in keys
      ensures x in next || x in rest - {k}
    {
      if x in order {
        var i :| 0 <= i < |order| && order[i] == x;
        assert next[i] == x;
      } else if x == k {
        assert next[|order|] == x;
      }
    }
    forall i, x | 0 <= i < |next| && x in rest - {k}
      ensures next[i] < x
    {
      if i < |order| {
        assert next[i] == order[i];
      }
    }
  }

  /** With nothing left, the split is the whole ascending key list. */
  lemma KeysSplitDone(order: seq<nat>, keys: set<nat>)
    requires KeysSplit(order, {}, keys)
    ensures StrictlyIncreasing(order)
    ensures forall i | 0 <= i < |order| :: order[i] in keys
    ensures forall k | k in keys :: k in order
    ensures |order| == |keys|
  {
  }

  /** Object.keys on keys that are array indices: ascending numeric order. */
  method AscendingKeys(changes: Changes) returns (order: seq<nat>)
    ensures StrictlyIncreasing(order)
    ensures forall i | 0 <= i < |order| :: order[i] in changes
    ensures forall k | k in changes :: k in order
    ensures |order| == |changes|
  {
    order := [];
    var rest := changes.Keys;
    while rest != {}
      invariant KeysSplit(order, rest, changes.Keys)
      decreases |rest|
    {
      var k := Least(rest);
      KeysSplitStep(order, rest, changes.Keys, k);
      order := order + [k];
      rest := rest - {k};
    }
    KeysSplitDone(order, changes.Keys);
  }

  const NoChangesMessage: string := "No changes to save."

  function SavedMessage(successCount: nat, total: nat): string {
    "Attendance updated successfully! " + NatToString(successCount) + "/" + NatToString(total) + " records saved."
  }

  function SaveErrorMessage(message: string): string {
    "Error saving attendance: " + message
  }

  // ---------------------------------------------------------------------------
  // The QR modal's fetch
  // ---------------------------------------------------------------------------

  /** How one POST /teacher/generate-qr ends. */
  datatype QrFetch = QrIssued(validitySeconds: int) | QrNotIssued | QrFailed(message: string)

  function QrErrorMessage(message: string): string {
    "Failed to generate QR code: " + message
  }

  /** The rotation period of the QR code, in milliseconds. */
  const RotationPeriodMs: int := 5000

  /** The intervals running of one kind are exactly the one the variable
      holds. */
  predicate Holds(held: Option<nat>, running: set<nat>) {
    running == if held.Some? then {held.value} else {}
  }

  /** Every handle given out so far is below the next one. */
  ghost predicate HandlesBelow(handles: set<nat>, next: nat) {
    forall h | h in handles :: h < next
  }

  /** The page state. Running intervals are identified by their handles. */
  class Dashboard {
    var currentClassId: Option<int>
    var qrModalOpen: bool
    var qrInterval: Option<nat>
    var countdownInterval: Option<nat>
    /** The rotation and countdown intervals the browser is running. */
    var rotations: set<nat>
    var countdowns: set<nat>
    /** The handle the next setInterval returns. */
    var nextHandle: nat
    var timeLeft: int
    var countdownText: string
    var alerts: seq<string>
    var rows: seq<Entry>
    var changes: Changes
    var editMode: bool
    var dateField: string

    /** Every running interval is the one its variable holds, so at most one
        rotation and one countdown run. */
    ghost predicate Valid()
      reads this
    {
      && Holds(qrInterval, rotations) && Holds(countdownInterval, countdowns)
      && HandlesBelow(rotations + countdowns, nextHandle)
    }

    constructor ()
      ensures Valid()
      ensures currentClassId == None && !qrModalOpen && qrInterval == None && countdownInterval == None
      ensures rotations == {} && countdowns == {} && alerts == [] && rows == [] && changes == map[] && !editMode
    {
      currentClassId := None;
      qrModalOpen := false;
      qrInterval := None;
      countdownInterval := None;
      rotations := {};
      countdowns := {};
      nextHandle := 1;
      timeLeft := 0;
      countdownText := "";
      alerts := [];
      rows := [];
      changes := map[];
      editMode := false;
      dateField := "";
    }

    // -- attendance modal --------------------------------------------------

    /** displayAttendance: new rows, nothing pending, edit mode off. */
    method DisplayAttendance(attendance: seq<Entry>)
      modifies this`rows, this`changes, this`editMode
      ensures rows == attendance && changes == map[] && !editMode
    {
      rows := attendance;
      changes := map[];
      editMode := false;
    }

    /** toggleEditMode only ever turns edit mode on. */
    method ToggleEditMode()
      modifies this`editMode
      ensures editMode
    {
      editMode := true;
    }

    /** cancelEditMode: edit mode off and every pending change dropped. */
    method CancelEditMode()
      modifies this`changes, this`editMode
      ensures changes == map[] && !editMode
    {
      editMode := false;
      changes := map[];
    }

    /** markAttendanceForStudent: this student's pending entry is overwritten;
        the others stay. */
    method MarkForStudent(studentId: nat, status: string)
      modifies this`changes
      ensures changes == old(changes)[studentId := status]
      ensures forall id | id in old(changes) && id != studentId :: id in changes && changes[id] == old(changes)[id]
    {
      changes := changes[studentId := status];
    }

    /** saveManualAttendance, given what each request returns. With nothing
        pending it only alerts. Otherwise one request per pending student,
        in ascending id order, one after another; the first that throws
        stops the loop, alerts and keeps the pending changes and edit mode.
        If none throws, the success count is alerted and the pending
        changes and edit mode are cleared before the reload. */
    method SaveManualAttendance(answer: nat -> SaveAnswer) returns (order: seq<nat>, sent: seq<ManualMark>, reload: bool)
      modifies this`changes, this`editMode, this`alerts
      ensures old(changes) == map[] ==>
        && order == [] && sent == [] && !reload
        && changes == old(changes) && editMode == old(editMode) && alerts == old(alerts) + [NoChangesMessage]
      ensures old(changes) != map[] ==>
        && StrictlyIncreasing(order) && |order| == |old(changes)|
        && (forall i | 0 <= i < |order| :: order[i] in old(changes))
        && (forall k | k in old(changes) :: k in order)
      ensures old(changes) != map[] && FirstThrow(answer, |order|) < |order| ==>
        && sent == MarksFor(order[..FirstThrow(answer, |order|) + 1], old(changes), currentClassId, dateField)
        && !reload && changes == old(changes) && editMode == old(editMode)
        && alerts == old(alerts) + [SaveErrorMessage(answer(FirstThrow(answer, |order|)).message)]
      ensures old(changes) != map[] && FirstThrow(answer, |order|) == |order| ==>
        && sent == MarksFor(order, old(changes), currentClassId, dateField)
        && reload && changes == map[] && !editMode
        && alerts == old(alerts) + [SavedMessage(SuccessCount(answer, |order|), |order|)]
    {
      if changes == map[] {
        alerts := alerts + [NoChangesMessage];
        return [], [], false;
      }
      order := AscendingKeys(changes);
      var thrown, successCount;
      sent, thrown, successCount := SendAll(order, changes, currentClassId, dateField, answer);
      if thrown.Some? {
        alerts := alerts + [SaveErrorMessage(thrown.value)];
        return order, sent, false;
      }
      alerts := alerts + [SavedMessage(successCount, |order|)];
      editMode := false;
      changes := map[];
      reload := true;
    }

    // -- QR modal ----------------------------------------------------------

    /** clearInterval on the rotation, if any. */
    method StopRotation()
      requires Valid()
      modifies this`qrInterval, this`rotations
      ensures Valid()
      ensures qrInterval == None && rotations == {}
    {
      if qrInterval.Some? {
        rotations := rotations - {qrInterval.value};
        qrInterval := None;
      }
    }

    /** clearInterval on the countdown, if any. */
    method StopCountdown()
      requires Valid()
      modifies this`countdownInterval, this`countdowns
      ensures Valid()
      ensures countdownInterval == None && countdowns == {}
    {
      if countdownInterval.Some? {
        countdowns := countdowns - {countdownInterval.value};
        countdownInterval := None;
      }
    }

    /** closeQRModal: the modal hides and both intervals stop. */
    method CloseQrModal()
      requires Valid()
      modifies this`qrModalOpen, this`qrInterval, this`rotations, this`countdownInterval, this`countdowns
      ensures Valid()
      ensures !qrModalOpen && qrInterval == None && rotations == {} && countdownInterval == None && countdowns == {}
    {
      qrModalOpen := false;
      StopRotation();
      StopCountdown();
    }

    /** startTimer: the previous countdown stops and a new one starts at
        seconds. */
    method StartTimer(seconds: int)
      requires Valid()
      modifies this`countdownInterval, this`countdowns, this`nextHandle, this`timeLeft, this`countdownText
      ensures Valid()
      ensures timeLeft == seconds && countdownText == IntToString(seconds)
      ensures countdownInterval == Some(old(nextHandle)) && countdowns == {old(nextHandle)}
      ensures nextHandle == old(nextHandle) + 1
    {
      StopCountdown();
      timeLeft := seconds;
      countdownText := IntToString(seconds);
      countdownInterval := Some(nextHandle);
      countdowns := {nextHandle};
      nextHandle := nextHandle + 1;
    }

    /** One second of the countdown: one less, and the interval stops itself
        once the count is at or below zero. */
    method CountdownTick()
      requires Valid() && countdownInterval.Some?
      modifies this`countdownInterval, this`countdowns, this`timeLeft, this`countdownText
      ensures Valid()
      ensures timeLeft == old(timeLeft) - 1 && countdownText == IntToString(timeLeft)
      ensures countdownInterval.None? <==> timeLeft <= 0
      ensures countdownInterval.Some? ==> countdownInterval == old(countdownInterval) && countdowns == old(countdowns)
    {
      timeLeft := timeLeft - 1;
      countdownText := IntToString(timeLeft);
      if timeLeft <= 0 {
        StopCountdown();
      }
    }

    /** fetchAndDisplayQR: an issued code restarts the countdown at its
        validity; a failure alerts and closes the modal; an answer without
        success changes nothing. */
    method FetchAndDisplayQr(fetched: QrFetch)
      requires Valid()
      modifies this`qrModalOpen, this`qrInterval, this`rotations, this`countdownInterval, this`countdowns,
               this`nextHandle, this`timeLeft, this`countdownText, this`alerts
      ensures Valid()
      ensures fetched.QrIssued? ==>
        && timeLeft == fetched.validitySeconds && countdownText == IntToString(fetched.validitySeconds)
        && countdownInterval == Some(old(nextHandle)) && countdowns == {old(nextHandle)}
        && nextHandle == old(nextHandle) + 1
        && qrModalOpen == old(qrModalOpen) && qrInterval == old(qrInterval) && rotations == old(rotations)
        && alerts == old(alerts)
      ensures fetched.QrNotIssued? ==>
        && qrModalOpen == old(qrModalOpen) && qrInterval == old(qrInterval) && rotations == old(rotations)
        && countdownInterval == old(countdownInterval) && countdowns == old(countdowns)
        && timeLeft == old(timeLeft) && countdownText == old(countdownText)
        && nextHandle == old(nextHandle) && alerts == old(alerts)
      ensures fetched.QrFailed? ==>
        && !qrModalOpen && qrInterval == None && rotations == {} && countdownInterval == None && countdowns == {}
        && timeLeft == old(timeLeft) && countdownText == old(countdownText)
        && nextHandle == old(nextHandle) && alerts == old(alerts) + [QrErrorMessage(fetched.message)]
    {
      match fetched
      case QrIssued(seconds) =>
        StartTimer(seconds);
      case QrNotIssued =>
      case QrFailed(message) =>
        alerts := alerts + [QrErrorMessage(message)];
        CloseQrModal();
    }

    /** generateQR as written: the modal opens, the first code is fetched,
        then any rotation stops and a new one starts, whether or not the
        fetch closed the modal again. */
    method GenerateQr(classId: int, first: QrFetch)
      requires Valid()
      modifies this`currentClassId, this`qrModalOpen, this`qrInterval, this`rotations, this`countdownInterval,
               this`countdowns, this`nextHandle, this`timeLeft, this`countdownText, this`alerts
      ensures Valid()
      ensures currentClassId == Some(classId)
      ensures qrModalOpen <==> !first.QrFailed?
      ensures qrInterval == Some(nextHandle - 1) && rotations == {nextHandle - 1}
      ensures first.QrIssued? ==>
        && timeLeft == first.validitySeconds && countdownText == IntToString(first.validitySeconds)
        && countdownInterval == Some(old(nextHandle)) && countdowns == {old(nextHandle)}
        && nextHandle == old(nextHandle) + 2 && alerts == old(alerts)
      ensures first.QrNotIssued? ==>
        && countdownInterval == old(countdownInterval) && countdowns == old(countdowns)
        && timeLeft == old(timeLeft) && countdownText == old(countdownText)
        && nextHandle == old(nextHandle) + 1 && alerts == old(alerts)
      ensures first.QrFailed? ==>
        && countdownInterval == None && countdowns == {}
        && timeLeft == old(timeLeft) && countdownText == old(countdownText)
        && nextHandle == old(nextHandle) + 1 && alerts == old(alerts) + [QrErrorMessage(first.message)]
    {
      currentClassId := Some(classId);
      qrModalOpen := true;
      FetchAndDisplayQr(first);
      StopRotation();
      qrInterval := Some(nextHandle);
      rotations := {nextHandle};
      nextHandle := nextHandle + 1;
    }

    /** generateQR that starts the rotation only while the modal is still
        open. */
    method GenerateQrWhileOpen(classId: int, first: QrFetch)
      requires Valid() && (rotations != {} ==> qrModalOpen)
      modifies this`currentClassId, this`qrModalOpen, this`qrInterval, this`rotations, this`countdownInterval,
               this`countdowns, this`nextHandle, this`timeLeft, this`countdownText, this`alerts
      ensures Valid() && (rotations != {} ==> qrModalOpen)
      ensures currentClassId == Some(classId)
      ensures qrModalOpen <==> !first.QrFailed?
      ensures qrModalOpen ==> qrInterval == Some(nextHandle - 1) && rotations == {nextHandle - 1}
      ensures first.QrIssued? ==>
        && timeLeft == first.validitySeconds && countdownText == IntToString(first.validitySeconds)
        && countdownInterval == Some(old(nextHandle)) && countdowns == {old(nextHandle)}
        && nextHandle == old(nextHandle) + 2 && alerts == old(alerts)
      ensures first.QrNotIssued? ==>
        && countdownInterval == old(countdownInterval) && countdowns == old(countdowns)
        && timeLeft == old(timeLeft) && countdownText == old(countdownText)
        && nextHandle == old(nextHandle) + 1 && alerts == old(alerts)
      ensures first.QrFailed? ==>
        && qrInterval == None && rotations == {} && countdownInterval == None && countdowns == {}
        && timeLeft == old(timeLeft) && countdownText == old(countdownText)
        && nextHandle == old(nextHandle) && alerts == old(alerts) + [QrErrorMessage(first.message)]
    {
      currentClassId := Some(classId);
      qrModalOpen := true;
      FetchAndDisplayQr(first);
      StopRotation();
      if qrModalOpen {
        qrInterval := Some(nextHandle);
        rotations := {nextHandle};
        nextHandle := nextHandle + 1;
      }
    }

    /** One tick of the rotation: the next code is fetched, with the effects
        of fetchAndDisplayQR; a failure stops the rotation itself. */
    method RotationTick(fetched: QrFetch)
      requires Valid() && qrInterval.Some?
      modifies this`qrModalOpen, this`qrInterval, this`rotations, this`countdownInterval, this`countdowns,
               this`nextHandle, this`timeLeft, this`countdownText, this`alerts
      ensures Valid()
      ensures fetched.QrFailed? ==>
        && qrInterval == None && rotations == {} && !qrModalOpen && countdownInterval == None && countdowns == {}
        && timeLeft == old(timeLeft) && countdownText == old(countdownText)
        && nextHandle == old(nextHandle) && alerts == old(alerts) + [QrErrorMessage(fetched.message)]
      ensures !fetched.QrFailed? ==>
        qrInterval == old(qrInterval) && rotations == old(rotations) && qrModalOpen == old(qrModalOpen) && alerts == old(alerts)
      ensures fetched.QrIssued? ==>
        && timeLeft == fetched.validitySeconds && countdownText == IntToString(fetched.validitySeconds)
        && countdownInterval == Some(old(nextHandle)) && countdowns == {old(nextHandle)}
        && nextHandle == old(nextHandle) + 1
      ensures fetched.QrNotIssued? ==>
        && countdownInterval == old(countdownInterval) && countdowns == old(countdowns)
        && timeLeft == old(timeLeft) && countdownText == old(countdownText) && nextHandle == old(nextHandle)
    {
      FetchAndDisplayQr(fetched);
    }

    /** viewAttendance: the attendance modal opens on today's date for the
        class; the listing that follows arrives through DisplayAttendance. */
    method ViewAttendance(classId: int, today: string)
      modifies this`currentClassId, this`dateField
      ensures currentClassId == Some(classId) && dateField == today
    {
      currentClassId := Some(classId);
      dateField := today;
    }
  }

  /** generateQR as written, when the first fetch fails: the modal closes,
      yet a rotation is left running behind it. */
  method FailedFirstFetchKeepsRotating() returns (d: Dashboard)
    ensures fresh(d)
    ensures !d.qrModalOpen && d.rotations != {}
  {
    d := new Dashboard();
    d.GenerateQr(1, QrFailed("Network error"));
  }

  /** The same with the corrected generateQR: nothing keeps rotating. */
  method FailedFirstFetchStopsRotating() returns (d: Dashboard)
    ensures fresh(d)
    ensures !d.qrModalOpen && d.rotations == {}
  {
    d := new Dashboard();
    d.GenerateQrWhileOpen(1, QrFailed("Network error"));
  }

  /** The loop of saveManualAttendance: the request for each student of
      order in turn, stopping after the first that throws (its message is
      returned). */
  method SendAll(order: seq<nat>, changes: Changes, classId: Option<int>, date: string, answer: nat -> SaveAnswer)
    returns (sent: seq<ManualMark>, thrown: Option<string>, successCount: nat)
    requires forall i | 0 <= i < |order| :: order[i] in changes
    ensures FirstThrow(answer, |order|) < |order| ==>
      && sent == MarksFor(order[..FirstThrow(answer, |order|) + 1], changes, classId, date)
      && thrown == Some(answer(FirstThrow(answer, |order|)).message)
    ensures FirstThrow(answer, |order|) == |order| ==>
      sent == MarksFor(order, changes, classId, date) && thrown == None && successCount == SuccessCount(answer, |order|)
  {
    sent := [];
    successCount := 0;
    var i := 0;
    while i < |order|
      invariant 0 <= i <= |order|
      invariant sent == MarksFor(order[..i], changes, classId, date)
      invariant forall j | 0 <= j < i :: !answer(j).Threw?
      invariant successCount == SuccessCount(answer, i)
    {
      sent := sent + [ManualMark(classId, order[i], changes[order[i]], date)];
      assert order[..i + 1] == order[..i] + [order[i]];
      if answer(i).Threw? {
        FirstThrowIs(answer, |order|, i);
        return sent, Some(answer(i).message), successCount;
      }
      if answer(i) == Saved {
        successCount := successCount + 1;
      }
      i := i + 1;
    }
    assert order[..i] == order;
    FirstThrowNone(answer, |order|);
    thrown := None;
  }

  lemma {:induction false} FirstThrowIs(answer: nat -> SaveAnswer, n: nat, k: nat)
    requires k < n && answer(k).Threw?
    requires forall j | 0 <= j < k :: !answer(j).Threw?
    ensures FirstThrow(answer, n) == k
  {
    if n - 1 > k {
      FirstThrowIs(answer, n - 1, k);
    } else {
      FirstThrowNone(answer, k);
    }
  }

  lemma {:induction false} FirstThrowNone(answer: nat -> SaveAnswer, n: nat)
    requires forall j | 0 <= j < n :: !answer(j).Threw?
    ensures FirstThrow(answer, n) == n
  {
    if n > 0 {
      FirstThrowNone(answer, n - 1);
    }
  }

  /** Two ascending orders over the same ids are the same order, so the
      sending order is fully determined by the pending changes. */
  lemma {:induction false} AscendingOrderUnique(a: seq<nat>, b: seq<nat>)
    requires StrictlyIncreasing(a) && StrictlyIncreasing(b)
    requires forall x :: x in a <==> x in b
    ensures a == b
    decreases |a|
  {
    if a != [] {
      assert a[0] in a;
    }
    if b != [] {
      assert b[0] in b;
    }
    if a != [] && b != [] {
      assert a[0] == b[0] by {
        assert a[0] in a && b[0] in b;
        HeadIsLeast(b, a[0]);
        HeadIsLeast(a, b[0]);
      }
      forall x
        ensures x in a[1..] <==> x in b[1..]
      {
        if x in a[1..] {
          var i :| 0 <= i < |a| - 1 && a[1..][i] == x;
          assert a[i + 1] == x && x > a[0];
          assert x in b;
          var j :| 0 <= j < |b| && b[j] == x;
          assert j != 0 && b[1..][j - 1] == x;
        }
        if x in b[1..] {
          var i :| 0 <= i < |b| - 1 && b[1..][i] == x;
          assert b[i + 1] == x && x > b[0];
          assert x in a;
          var j :| 0 <= j < |a| && a[j] == x;
          assert j != 0 && a[1..][j - 1] == x;
        }
      }
      AscendingOrderUnique(a[1..], b[1..]);
      assert a == [a[0]] + a[1..] && b == [b[0]] + b[1..];
    }
  }

  /** The first id of an ascending order is its least. */
  lemma HeadIsLeast(s: seq<nat>, x: nat)
    requires StrictlyIncreasing(s) && x in s
    ensures s[0] <= x
  {
    var i :| 0 <= i < |s| && s[i] == x;
    if i > 0 {
      assert s[0] < s[i];
    }
  }
}
