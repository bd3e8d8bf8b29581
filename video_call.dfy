/**
 * frontend/js/video-call.js: the parts of the call overlay that are plain
 * logic. The elapsed-time display, the grid's layout rule, the room names and
 * the call timer with its interval. The media SDK, the signalling socket and
 * the DOM are not modelled; the clock is a parameter.
 */
module VideoCall {
  import opened Wrappers
  import opened JsStrings

  // ---------------------------------------------------------------------------
  // The elapsed-time display
  // ---------------------------------------------------------------------------

  /** toString().padStart(2, '0'). */
  function Pad2(s: string): (r: string)
    ensures |r| >= 2 && |r| >= |s|
  {
    PadStart(s, 2, '0')
  }

  /** The timer text for n elapsed seconds: whole minutes, ':', the seconds
      within the minute, each padded to two digits. */
  function FormatClock(n: nat): (t: string)
    ensures |t| >= 5
  {
    Pad2(NatToString(n / 60)) + ":" + Pad2(NatToString(n % 60))
  }

  /** The minutes field of a timer text: everything before the last three
      characters. */
  function MinutesField(t: string): (m: string)
    requires |t| >= 3
    ensures m + t[|t| - 3..] == t
  {
    t[..|t| - 3]
  }

  /** The seconds field of a timer text: its last two characters. */
  function SecondsField(t: string): (sec: string)
    requires |t| >= 2
    ensures |sec| == 2 && t[..|t| - 2] + sec == t
  {
    t[|t| - 2..]
  }

  /** Padding a decimal string with zeros keeps its digits and its value. */
  lemma Pad2KeepsValue(s: string)
    requires |s| >= 1 && AllDigits(s)
    ensures AllDigits(Pad2(s)) && DecimalValue(Pad2(s)) == DecimalValue(s)
    ensures |s| >= 2 ==> Pad2(s) == s
  {
    if |s| < 2 {
      assert Pad2(s) == "0" + s;
      LeadingZero(s);
    }
  }

  /** The minutes, padded: at least two digits naming n / 60. */
  lemma MinutesPart(n: nat)
    ensures var m := Pad2(NatToString(n / 60));
      |m| >= 2 && AllDigits(m) && DecimalValue(m) == n / 60
  {
    NatToStringValue(n / 60);
    Pad2KeepsValue(NatToString(n / 60));
  }

  /** The seconds, padded: exactly two digits naming n % 60. */
  lemma SecondsPart(n: nat)
    ensures var s := Pad2(NatToString(n % 60));
      |s| == 2 && AllDigits(s) && DecimalValue(s) == n % 60
  {
    NatToStringLength(n % 60);
    NatToStringValue(n % 60);
    Pad2KeepsValue(NatToString(n % 60));
  }

  /** The fields of a text joined at ':' with a two-character tail. */
  lemma FieldsOf(m: string, s: string)
    requires |s| == 2
    ensures var t := m + ":" + s;
      |t| >= 3 && t[|t| - 3] == ':' && MinutesField(t) == m && SecondsField(t) == s
  {
    var t := m + ":" + s;
    assert t[..|t| - 3] == m;
    assert t[|t| - 2..] == s;
  }

  /** The text reads back as the elapsed time: the seconds field is exactly
      two digits naming 0..59, the minutes field at least two digits naming
      the whole minutes, and together they give n back. */
  lemma ClockReadsBack(n: nat)
    ensures var t := FormatClock(n);
      && t[|t| - 3] == ':'
      && |SecondsField(t)| == 2 && AllDigits(SecondsField(t)) && DecimalValue(SecondsField(t)) == n % 60
      && DecimalValue(SecondsField(t)) < 60
      && |MinutesField(t)| >= 2 && AllDigits(MinutesField(t)) && DecimalValue(MinutesField(t)) == n / 60
      && DecimalValue(MinutesField(t)) * 60 + DecimalValue(SecondsField(t)) == n
  {
    MinutesPart(n);
    SecondsPart(n);
    FieldsOf(Pad2(NatToString(n / 60)), Pad2(NatToString(n % 60)));
  }

  /** The minutes are never cut to two digits: from 100 minutes on the field
      is three digits or more. */
  lemma MinutesNotTruncated(n: nat)
    requires n >= 6000
    ensures |MinutesField(FormatClock(n))| >= 3
  {
    NatToStringLength(n / 60);
    var m := Pad2(NatToString(n / 60));
    assert |m| >= 3;
    SecondsPart(n);
    FieldsOf(m, Pad2(NatToString(n % 60)));
  }

  /** The text shown before the first tick and after leaving is the text of
      zero seconds. */
  lemma ResetTextIsZero()
    ensures FormatClock(0) == "00:00"
  {
    assert NatToString(0) == "0";
    assert Pad2("0") == "00";
  }

  // ---------------------------------------------------------------------------
  // The grid
  // ---------------------------------------------------------------------------

  const GridClass: string := "video-container local"
  const PipClass: string := "video-container local pip-view"

  /** What updateGridLayout sets: the tile count, the picture-in-picture flag
      and the class of the local tile. */
  datatype Layout = Layout(dataUsers: nat, pip: bool, localClass: string)

  /** The layout for a grid of tileCount tiles (the local one included):
      picture-in-picture up to two tiles, a grid from three on. */
  function GridLayout(tileCount: nat): (l: Layout)
    ensures l.dataUsers == tileCount
    ensures l.pip <==> tileCount <= 2
    ensures l.localClass == if l.pip then PipClass else GridClass
  {
    if tileCount > 2 then Layout(tileCount, false, GridClass)
    else Layout(tileCount, true, PipClass)
  }

  /** Adding or removing one tile switches the layout exactly between two
      and three tiles. */
  lemma PipSwitchesAtThree(n: nat)
    ensures GridLayout(n).pip != GridLayout(n + 1).pip <==> n == 2
  {
  }

  // ---------------------------------------------------------------------------
  // Room names
  // ---------------------------------------------------------------------------

  const ClassRoomPrefix: string := "class_"
  const PrivateRoomPrefix: string := "private_"

  /** The channel of a class meeting: the class id and the time the teacher
      started it, in milliseconds. */
  function ClassRoomId(classId: string, now: nat): (r: string)
    ensures ClassRoomPrefix <= r
    ensures |r| == |ClassRoomPrefix| + |classId| + 1 + |NatToString(now)|
    ensures r[|r| - |NatToString(now)|..] == NatToString(now)
  {
    ClassRoomPrefix + classId + "_" + NatToString(now)
  }

  /** The channel of a direct call: caller, callee and start time. */
  function PrivateRoomId(caller: string, target: string, now: nat): (r: string)
    ensures PrivateRoomPrefix <= r
    ensures |r| == |PrivateRoomPrefix| + |caller| + 1 + |target| + 1 + |NatToString(now)|
    ensures r[|r| - |NatToString(now)|..] == NatToString(now)
  {
    PrivateRoomPrefix + caller + "_" + target + "_" + NatToString(now)
  }

  /** A class meeting and a direct call never share a channel. */
  lemma RoomKindsDiffer(classId: string, caller: string, target: string, t1: nat, t2: nat)
    ensures ClassRoomId(classId, t1) != PrivateRoomId(caller, target, t2)
  {
    assert ClassRoomId(classId, t1)[0] == 'c';
    assert PrivateRoomId(caller, target, t2)[0] == 'p';
  }

  /** Two meetings of one class started at different milliseconds have
      different channels. */
  lemma ClassRoomsDifferInTime(classId: string, t1: nat, t2: nat)
    requires t1 != t2
    ensures ClassRoomId(classId, t1) != ClassRoomId(classId, t2)
  {
    var k := |ClassRoomPrefix| + |classId| + 1;
    var r1, r2 := ClassRoomId(classId, t1), ClassRoomId(classId, t2);
    NatToStringValue(t1);
    NatToStringValue(t2);
    assert r1[k..] == NatToString(t1);
    assert r2[k..] == NatToString(t2);
  }

  // ---------------------------------------------------------------------------
  // The call timer and the grid's tiles
  // ---------------------------------------------------------------------------

  /** The call overlay's timer and grid. Running intervals are identified by
      their handles; activeCallTimer keeps the last handle given to it, even
      after that interval is cleared. */
  class CallOverlay {
    var secondsElapsed: nat
    var timerText: string
    var activeCallTimer: Option<nat>
    /** The timer intervals the browser is running. */
    var running: set<nat>
    /** The handle the next setInterval returns. */
    var nextHandle: nat
    /** The remote video tiles; the local tile is always there. */
    var remoteTiles: nat
    var layout: Layout

    /** At most the interval in activeCallTimer runs. */
    ghost predicate OnlyCurrentRuns()
      reads this
    {
      running <= if activeCallTimer.Some? then {activeCallTimer.value} else {}
    }

    constructor ()
      ensures OnlyCurrentRuns()
      ensures secondsElapsed == 0 && activeCallTimer == None && running == {} && remoteTiles == 0
    {
      secondsElapsed := 0;
      timerText := "00:00";
      activeCallTimer := None;
      running := {};
      nextHandle := 1;
      remoteTiles := 0;
      layout := GridLayout(1);
    }

    /** startTimer as written: the count and the text reset and a new
        interval starts; an interval already running is not cleared. */
    method StartTimer()
      modifies this`secondsElapsed, this`timerText, this`activeCallTimer, this`running, this`nextHandle
      ensures secondsElapsed == 0 && timerText == FormatClock(0)
      ensures activeCallTimer == Some(old(nextHandle))
      ensures running == old(running) + {old(nextHandle)}
      ensures nextHandle == old(nextHandle) + 1
    {
      ResetTextIsZero();
      secondsElapsed := 0;
      timerText := "00:00";
      activeCallTimer := Some(nextHandle);
      running := running + {nextHandle};
      nextHandle := nextHandle + 1;
    }

    /** startTimer clearing the previous interval first, so that one timer
        runs at most. */
    method StartTimerClearing()
      requires OnlyCurrentRuns()
      modifies this`secondsElapsed, this`timerText, this`activeCallTimer, this`running, this`nextHandle
      ensures OnlyCurrentRuns()
      ensures secondsElapsed == 0 && timerText == FormatClock(0)
      ensures activeCallTimer == Some(old(nextHandle)) && running == {old(nextHandle)}
      ensures nextHandle == old(nextHandle) + 1
    {
      ResetTextIsZero();
      if activeCallTimer.Some? {
        running := running - {activeCallTimer.value};
      }
      assert running == {};
      secondsElapsed := 0;
      timerText := "00:00";
      activeCallTimer := Some(nextHandle);
      running := {nextHandle};
      nextHandle := nextHandle + 1;
    }

    /** One second of a running timer interval: one more second, shown in
        mm:ss. Every running interval advances the same count. */
    method Tick(handle: nat)
      requires handle in running
      modifies this`secondsElapsed, this`timerText
      ensures secondsElapsed == old(secondsElapsed) + 1
      ensures timerText == FormatClock(secondsElapsed)
    {
      secondsElapsed := secondsElapsed + 1;
      timerText := FormatClock(secondsElapsed);
    }

    /** A remote video tile arrives or goes, and the layout follows. */
    method TileAdded()
      modifies this`remoteTiles, this`layout
      ensures remoteTiles == old(remoteTiles) + 1 && layout == GridLayout(1 + remoteTiles)
    {
      remoteTiles := remoteTiles + 1;
      layout := GridLayout(1 + remoteTiles);
    }

    method TileRemoved()
      requires remoteTiles > 0
      modifies this`remoteTiles, this`layout
      ensures remoteTiles == old(remoteTiles) - 1 && layout == GridLayout(1 + remoteTiles)
    {
      remoteTiles := remoteTiles - 1;
      layout := GridLayout(1 + remoteTiles);
    }

    /** leaveCall: the remote tiles go, the grid returns to
        picture-in-picture, the interval in activeCallTimer is cleared and
        the text reads zero again. The count itself is left as it was. */
    method LeaveCall()
      modifies this`running, this`timerText, this`remoteTiles, this`layout
      ensures running == old(running) - (if activeCallTimer.Some? then {activeCallTimer.value} else {})
      ensures timerText == FormatClock(0)
      ensures remoteTiles == 0 && layout.pip
      ensures OnlyCurrentRuns() ==> running == {}
    {
      ResetTextIsZero();
      remoteTiles := 0;
      layout := GridLayout(1);
      if activeCallTimer.Some? {
        running := running - {activeCallTimer.value};
      }
      timerText := "00:00";
    }
  }

  /** Joining a second call before leaving the first, as written: after
      leaving, one timer interval still runs and the text moves on from
      "00:00" with the next tick. */
  method JoinTwiceThenLeave() returns (overlay: CallOverlay)
    ensures fresh(overlay)
    ensures overlay.running != {}
    ensures overlay.timerText == FormatClock(0)
  {
    overlay := new CallOverlay();
    overlay.StartTimer();
    var first := overlay.activeCallTimer.value;
    overlay.StartTimer();
    overlay.LeaveCall();
    assert first in overlay.running;
  }

  /** The same with the corrected timer: after leaving nothing runs. */
  method JoinTwiceThenLeaveClearing() returns (overlay: CallOverlay)
    ensures fresh(overlay)
    ensures overlay.running == {}
    ensures overlay.timerText == FormatClock(0)
  {
    overlay := new CallOverlay();
    overlay.StartTimerClearing();
    overlay.StartTimerClearing();
    overlay.LeaveCall();
  }
}
