/** frontend/src/pages/Attendance.tsx: the day's attendance board. Each active
    staff member's latest record for the selected day, the shift filter with its
    fallback, the action each row offers, the counts, and the shift picked for
    staff who have not signed in yet. */
module Attendance {
  import opened Backend
  import opened Lists
  import opened DateUtils
  import opened SelectedDate
  import opened StaffManagement

  /** `'all' | 'morning' | 'evening'`. */
  datatype ShiftFilter = All | MorningOnly | EveningOnly

  /** `attendanceMap` as a specification: each staff id mapped to the last
      record that carries it. */
  function LastById(attendance: seq<AttendanceRecord>): map<string, AttendanceRecord> {
    if attendance == [] then map[]
    else
      var last := attendance[|attendance| - 1];
      LastById(attendance[..|attendance| - 1])[last.staffId := last]
  }

  /** The map has a key for every staff id in the records and for nothing else. */
  lemma {:induction false} LastByIdKeys(attendance: seq<AttendanceRecord>, id: string)
    ensures id in LastById(attendance) <==> exists i :: 0 <= i < |attendance| && attendance[i].staffId == id
  {
    if attendance != [] {
      var init := attendance[..|attendance| - 1];
      LastByIdKeys(init, id);
      if exists i :: 0 <= i < |init| && init[i].staffId == id {
        var i :| 0 <= i < |init| && init[i].staffId == id;
        assert attendance[i].staffId == id;
      }
      if exists i :: 0 <= i < |attendance| && attendance[i].staffId == id {
        var i :| 0 <= i < |attendance| && attendance[i].staffId == id;
        if i < |init| {
          assert init[i].staffId == id;
        }
      }
    }
  }

  /** A record that no later record overrides is the one the map holds. */
  lemma {:induction false} LastByIdLastWins(attendance: seq<AttendanceRecord>, i: int)
    requires 0 <= i < |attendance|
    requires forall j :: i < j < |attendance| ==> attendance[j].staffId != attendance[i].staffId
    ensures attendance[i].staffId in LastById(attendance)
    ensures LastById(attendance)[attendance[i].staffId] == attendance[i]
  {
    var init := attendance[..|attendance| - 1];
    if i < |init| {
      assert init[i] == attendance[i];
      LastByIdLastWins(init, i);
    }
  }

  /** `attendance.forEach(a => { map[a.staffId] = a; })`: later records
      overwrite earlier ones. */
  method BuildAttendanceMap(attendance: seq<AttendanceRecord>) returns (m: map<string, AttendanceRecord>)
    ensures m == LastById(attendance)
  {
    m := map[];
    var i := 0;
    while i < |attendance|
      invariant 0 <= i <= |attendance|
      invariant m == LastById(attendance[..i])
    {
      assert attendance[..i + 1][..i] == attendance[..i];
      m := m[attendance[i].staffId := attendance[i]];
      i := i + 1;
    }
    assert attendance[..|attendance|] == attendance;
  }

  /** The record a staff member's row reads (`attendanceMap[s.staffId]`). */
  function RecordOf(m: map<string, AttendanceRecord>, staffId: string): Option<AttendanceRecord> {
    if staffId in m then Some(m[staffId]) else None
  }

  /** The filter test for one staff member: everyone under 'all', otherwise
      those whose record is of the chosen shift. */
  predicate Keep(filter: ShiftFilter, m: map<string, AttendanceRecord>, s: StaffRecord) {
    match filter
    case All => true
    case MorningOnly => s.staffId in m && m[s.staffId].shift == Morning
    case EveningOnly => s.staffId in m && m[s.staffId].shift == Evening
  }

  /** `filteredStaff`. A member of the active staff is kept exactly when the
      filter is 'all' or their record has the filter's shift. */
  function FilteredStaff(active: seq<StaffRecord>, m: map<string, AttendanceRecord>, filter: ShiftFilter): (r: seq<StaffRecord>)
    ensures forall s :: s in r <==>
      (s in active && (filter == All || (RecordOf(m, s.staffId).Some? &&
        RecordOf(m, s.staffId).value.shift == (if filter == MorningOnly then Morning else Evening))))
  {
    Filter(active, s => Keep(filter, m, s))
  }

  /** The filtered list keeps the order of the active staff and is all of them
      under 'all'. */
  lemma FilteredStaffSublist(active: seq<StaffRecord>, m: map<string, AttendanceRecord>, filter: ShiftFilter)
    ensures IsSubsequence(FilteredStaff(active, m, filter), active)
    ensures FilteredStaff(active, m, All) == active
  {
    FilterIsSubsequence(active, s => Keep(filter, m, s));
    FilterKeepsAll(active, s => Keep(All, m, s));
  }

  /** The rows shown: the active staff under 'all', otherwise the filtered
      staff, or all active staff again when nobody matches. */
  function DisplayedStaff(active: seq<StaffRecord>, filtered: seq<StaffRecord>, filter: ShiftFilter): seq<StaffRecord> {
    if filter == All then active else if |filtered| > 0 then filtered else active
  }

  /** The rows shown are an order-preserving sublist of the active staff; there
      are rows exactly when some staff are active; a filter nobody matches
      shows everybody. */
  lemma DisplayedStaffFallback(active: seq<StaffRecord>, m: map<string, AttendanceRecord>, filter: ShiftFilter)
    ensures IsSubsequence(DisplayedStaff(active, FilteredStaff(active, m, filter), filter), active)
    ensures DisplayedStaff(active, FilteredStaff(active, m, filter), filter) == [] <==> active == []
    ensures FilteredStaff(active, m, filter) == [] ==> DisplayedStaff(active, FilteredStaff(active, m, filter), filter) == active
  {
    FilteredStaffSublist(active, m, filter);
    SubsequenceOfSelf(active);
  }

  lemma {:induction false} SubsequenceOfSelf(s: seq<StaffRecord>)
    ensures IsSubsequence(s, s)
  {
    if s != [] {
      SubsequenceOfSelf(s[1..]);
    }
  }

  /** `!!record?.signInTime`. */
  predicate HasSignedIn(record: Option<AttendanceRecord>) {
    record.Some? && SignedIn(record.value)
  }

  /** `!!record?.signOutTime`. */
  predicate HasSignedOut(record: Option<AttendanceRecord>) {
    record.Some? && SignedOut(record.value)
  }

  /** The controls a row can show. */
  datatype RowAction = PickShiftAndSignIn(signInEnabled: bool) | SignOutButton | Completed

  /** The row's actions, from the three independent conditions of the JSX:
      the shift picker with the In button (enabled only once a shift is picked),
      the Sign Out button, and the Completed label. */
  function RowActions(record: Option<AttendanceRecord>, pending: Option<Shift>): seq<RowAction> {
    (if !HasSignedIn(record) then [PickShiftAndSignIn(pending.Some?)] else []) +
    (if HasSignedIn(record) && !HasSignedOut(record) then [SignOutButton] else []) +
    (if HasSignedIn(record) && HasSignedOut(record) then [Completed] else [])
  }

  /** Every row shows exactly one action: sign-in before signing in, sign-out
      while signed in, and Completed after signing out; the In button is
      enabled exactly when a shift has been picked. */
  lemma OneActionPerRow(record: Option<AttendanceRecord>, pending: Option<Shift>)
    ensures |RowActions(record, pending)| == 1
    ensures RowActions(record, pending)[0].PickShiftAndSignIn? <==> !HasSignedIn(record)
    ensures RowActions(record, pending)[0].SignOutButton? <==> HasSignedIn(record) && !HasSignedOut(record)
    ensures RowActions(record, pending)[0].Completed? <==> HasSignedIn(record) && HasSignedOut(record)
    ensures RowActions(record, pending)[0].PickShiftAndSignIn? ==>
      (RowActions(record, pending)[0].signInEnabled <==> pending.Some?)
  {
  }

  predicate IsMorning(a: AttendanceRecord) {
    a.shift == Morning
  }

  predicate IsEvening(a: AttendanceRecord) {
    a.shift == Evening
  }

  /** The counts in the header. */
  datatype Counts = Counts(presentCount: nat, morningCount: nat, eveningCount: nat)

  /** `presentCount`, `morningCount` and `eveningCount`. Every record is of one
      shift or the other, so the two shift counts add up to all records. */
  function CountsOf(attendance: seq<AttendanceRecord>): (c: Counts)
    ensures c.morningCount + c.eveningCount == |attendance|
    ensures c.presentCount <= |attendance|
  {
    FilterSplits(attendance, IsMorning, IsEvening);
    Counts(Count(attendance, SignedIn), Count(attendance, IsMorning), Count(attendance, IsEvening))
  }

  /** The sign-in call. */
  datatype SignInRequest = SignInRequest(staffId: string, date: int, shift: Shift)

  /** The sign-out call. */
  datatype SignOutRequest = SignOutRequest(staffId: string, date: int)

  /** The page's state: the selected day, the shift filter, and the shift
      picked in each row (`null` once used, absent when never picked). */
  class AttendancePage {
    var selectedDate: Date
    var shiftFilter: ShiftFilter
    var signingIn: map<string, Option<Shift>>

    /** The initial state: the start of today, every shift, nothing picked. */
    constructor(now: int, offset: int)
      requires InRange(now)
      ensures selectedDate == LocalStartOfDay(now, offset)
      ensures shiftFilter == All && signingIn == map[]
    {
      selectedDate := LocalStartOfDay(now, offset);
      shiftFilter := All;
      signingIn := map[];
    }

    /** `signingIn[staffId]`: the picked shift, or nothing when it is absent or null. */
    function PendingShift(staffId: string): Option<Shift>
      reads this
    {
      if staffId in signingIn then signingIn[staffId] else None
    }

    /** The date input's `onChange`. */
    method ChooseDate(value: string, offset: int)
      modifies this
      ensures selectedDate == NextSelectedDate(old(selectedDate), value, offset)
      ensures shiftFilter == old(shiftFilter) && signingIn == old(signingIn)
    {
      if value != "" {
        selectedDate := ParseDateInput(value, offset);
      }
    }

    /** Choosing a tab. */
    method SetFilter(filter: ShiftFilter)
      modifies this
      ensures shiftFilter == filter
      ensures selectedDate == old(selectedDate) && signingIn == old(signingIn)
    {
      shiftFilter := filter;
    }

    /** Picking a shift in one row's selector. */
    method SelectShift(staffId: string, shift: Shift)
      modifies this
      ensures signingIn == old(signingIn)[staffId := Some(shift)]
      ensures PendingShift(staffId) == Some(shift)
      ensures selectedDate == old(selectedDate) && shiftFilter == old(shiftFilter)
    {
      signingIn := signingIn[staffId := Some(shift)];
    }

    /** `handleSignIn(staffId)`, with the way the backend call ended as a
        parameter. Without a picked shift nothing is sent and nothing changes.
        Otherwise the picked shift is sent under the day key, and after a
        successful call only this row's pick is cleared. The page renders, and
        so offers the button, only when the selected date has a day key. */
    method HandleSignIn(staffId: string, succeeded: bool) returns (request: Option<SignInRequest>)
      requires DateToBigIntNs(selectedDate).Some?
      modifies this
      ensures selectedDate == old(selectedDate) && shiftFilter == old(shiftFilter)
      ensures request.Some? <==> old(PendingShift(staffId)).Some?
      ensures old(PendingShift(staffId)).Some? ==>
        request == Some(SignInRequest(staffId, DateToBigIntNs(selectedDate).value, old(PendingShift(staffId)).value))
      ensures signingIn == if request.Some? && succeeded then old(signingIn)[staffId := None] else old(signingIn)
      ensures forall other :: other != staffId ==> PendingShift(other) == old(PendingShift(other))
    {
      var shift := PendingShift(staffId);
      if shift.None? {
        return None;
      }
      request := Some(SignInRequest(staffId, DateToBigIntNs(selectedDate).value, shift.value));
      if succeeded {
        signingIn := signingIn[staffId := None];
      }
    }

    /** `handleSignOut(staffId)`: the sign-out call for the row's staff member
        under the day key; the page state is not touched. */
    method HandleSignOut(staffId: string) returns (request: SignOutRequest)
      requires DateToBigIntNs(selectedDate).Some?
      ensures request.staffId == staffId
      ensures request.date == DateToBigIntNs(selectedDate).value && request.date % NsPerDay == 0
    {
      request := SignOutRequest(staffId, DateToBigIntNs(selectedDate).value);
    }
  }
}
