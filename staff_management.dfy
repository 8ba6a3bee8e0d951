/** frontend/src/pages/StaffManagement.tsx: the active and deactivated staff,
    the name search over the active staff, the count lines, and the add-staff
    form (name, role) with its validation, reset and error classification. */
module StaffManagement {
  import opened Backend
  import opened Strings
  import opened Lists

  predicate IsActive(s: StaffRecord) {
    s.isActive
  }

  predicate IsInactive(s: StaffRecord) {
    !s.isActive
  }

  /** `allStaff.filter(s => s.isActive)`. */
  function ActiveStaff(all: seq<StaffRecord>): seq<StaffRecord> {
    Filter(all, IsActive)
  }

  /** `allStaff.filter(s => !s.isActive)`. */
  function InactiveStaff(all: seq<StaffRecord>): seq<StaffRecord> {
    Filter(all, IsInactive)
  }

  /** The active and the deactivated staff split the whole list: together they
      hold every record as often as it occurs, and no record is in both. */
  lemma ActiveInactivePartition(all: seq<StaffRecord>)
    ensures multiset(ActiveStaff(all)) + multiset(InactiveStaff(all)) == multiset(all)
    ensures |ActiveStaff(all)| + |InactiveStaff(all)| == |all|
    ensures forall s :: s in ActiveStaff(all) ==> s !in InactiveStaff(all)
  {
    FilterSplits(all, IsActive, IsInactive);
  }

  /** The search test: the lower-cased name contains the lower-cased query. */
  predicate Matches(s: StaffRecord, search: string) {
    Contains(Lower(s.fullName), Lower(search))
  }

  /** `filtered`: the active staff whose name matches the search, in order. */
  function Search(active: seq<StaffRecord>, search: string): (r: seq<StaffRecord>)
    ensures forall s :: s in r <==> s in active && Matches(s, search)
  {
    Filter(active, s => Matches(s, search))
  }

  /** The search result is an order-preserving sublist of the active staff, and
      the empty search keeps all of them. */
  lemma SearchSublist(active: seq<StaffRecord>, search: string)
    ensures IsSubsequence(Search(active, search), active)
    ensures Search(active, "") == active
  {
    FilterIsSubsequence(active, s => Matches(s, search));
    forall i | 0 <= i < |active|
      ensures Matches(active[i], "")
    {
      ContainsEmpty(Lower(active[i].fullName));
    }
    FilterKeepsAll(active, s => Matches(s, ""));
  }

  /** Lower-casing keeps a string's occurrences. */
  lemma {:induction false} ContainsLower(s: string, q: string)
    requires Contains(s, q)
    ensures Contains(Lower(s), Lower(q))
    decreases |s|
  {
    if StartsWith(s, q) {
      assert Lower(s)[..|q|] == Lower(q);
    } else {
      ContainsLower(s[1..], q);
      assert Lower(s)[1..] == Lower(s[1..]);
    }
  }

  /** The search ignores case: queries that differ only in letter case give the
      same result, and a name holding the query as typed always matches. */
  lemma SearchIgnoresCase(active: seq<StaffRecord>, q1: string, q2: string)
    requires Lower(q1) == Lower(q2)
    ensures Search(active, q1) == Search(active, q2)
    ensures forall s :: s in active && Contains(s.fullName, q1) ==> s in Search(active, q1)
  {
    FilterCongruent(active, s => Matches(s, q1), s => Matches(s, q2));
    forall s | s in active && Contains(s.fullName, q1)
      ensures Matches(s, q1)
    {
      ContainsLower(s.fullName, q1);
    }
  }

  /** `n !== 1 ? 's' : ''`. */
  function Plural(n: int): string {
    if n != 1 then "s" else ""
  }

  /** The line under the title: `{n} active member{s}`. */
  function ActiveLine(n: nat): string {
    IntToString(n) + " active member" + Plural(n)
  }

  /** The line under the list: `{n} deactivated member{s} hidden`, shown only
      when some staff are deactivated. */
  function DeactivatedLine(n: nat): Option<string> {
    if n > 0 then Some(IntToString(n) + " deactivated member" + Plural(n) + " hidden") else None
  }

  /** The counted noun takes the plural ending exactly when the count is not 1,
      including 0. */
  lemma PluralEnding(n: nat)
    ensures ActiveLine(n)[|ActiveLine(n)| - 1] == 's' <==> n != 1
    ensures n > 0 ==> DeactivatedLine(n).Some?
    ensures n > 0 ==> (DeactivatedLine(n).value[|DeactivatedLine(n).value| - 8] == 's' <==> n != 1)
    ensures DeactivatedLine(0).None?
  {
  }

  /** What the empty list says. */
  datatype EmptyNotice = NoMatch | NoActiveStaffYet

  /** The message when `filtered` is empty: about the search when one is typed. */
  function EmptyListNotice(search: string): EmptyNotice {
    if search != "" then NoMatch else NoActiveStaffYet
  }

  /** With no search typed the list is empty only when no staff are active, so
      "no active staff members yet" is only said when it is true. */
  lemma EmptyListTruthful(all: seq<StaffRecord>, search: string)
    requires Search(ActiveStaff(all), search) == []
    ensures EmptyListNotice(search) == NoActiveStaffYet ==> ActiveStaff(all) == []
    ensures EmptyListNotice(search) == NoMatch ==> search != ""
  {
    SearchSublist(ActiveStaff(all), search);
  }

  /** The add request sent to the backend. */
  datatype NewStaff = NewStaff(staffId: string, fullName: string, role: Role)

  /** How the add request ended: added, or failed with an error message. */
  datatype AddOutcome = Added | Failed(message: string)

  /** The toast `handleAdd` shows. */
  datatype AddNotice = MissingName | AddedStaff(fullName: string) | DuplicateId | AddFailed

  /** A failure is reported as a clashing id exactly when its message mentions
      `duplicate` or `already exists`. */
  predicate IsDuplicateError(message: string) {
    Contains(message, "duplicate") || Contains(message, "already exists")
  }

  /** Every message that mentions either phrase, wherever it appears, is
      classified as a duplicate. */
  lemma DuplicateMessages(a: string, b: string)
    ensures IsDuplicateError(a + "duplicate" + b)
    ensures IsDuplicateError(a + "already exists" + b)
  {
    ContainsInfix(a, "duplicate", b);
    ContainsInfix(a, "already exists", b);
  }

  /** A message too short to hold either phrase is a generic failure. */
  lemma {:induction false} ShortMessageNotDuplicate(message: string)
    requires |message| < 9
    ensures !IsDuplicateError(message)
  {
    TooShortToContain(message, "duplicate");
    TooShortToContain(message, "already exists");
  }

  lemma {:induction false} TooShortToContain(s: string, q: string)
    requires |s| < |q|
    ensures !Contains(s, q)
    decreases |s|
  {
    if s != [] {
      TooShortToContain(s[1..], q);
    }
  }

  /** The add-staff form and the search box. */
  class StaffForm {
    var name: string
    var role: Role
    var search: string

    /** The initial state: no name, the staff role, no search. */
    constructor()
      ensures name == "" && role == Staff && search == ""
    {
      name := "";
      role := Staff;
      search := "";
    }

    /** Typing in the name input. */
    method SetName(value: string)
      modifies this
      ensures name == value && role == old(role) && search == old(search)
    {
      name := value;
    }

    /** Choosing a role. */
    method SetRole(value: Role)
      modifies this
      ensures role == value && name == old(name) && search == old(search)
    {
      role := value;
    }

    /** Typing in the search box. */
    method SetSearch(value: string)
      modifies this
      ensures search == value && name == old(name) && role == old(role)
    {
      search := value;
    }

    /** `handleAdd` (the Add button or Enter in the name input), with the id
        `generateStaffId` drew and the way the backend call ended as parameters.
        A name that is empty after trimming sends nothing and changes nothing.
        Otherwise the trimmed name is sent with the chosen role; on success the
        form is reset, on failure it is kept and the error is classified. */
    method HandleAdd(staffId: string, outcome: AddOutcome) returns (request: Option<NewStaff>, notice: AddNotice)
      modifies this
      ensures Trim(old(name)) == "" ==>
        request.None? && notice == MissingName && name == old(name) && role == old(role)
      ensures Trim(old(name)) != "" ==> request == Some(NewStaff(staffId, Trim(old(name)), old(role)))
      ensures Trim(old(name)) != "" && outcome.Added? ==>
        name == "" && role == Staff && notice == AddedStaff(Trim(old(name)))
      ensures Trim(old(name)) != "" && outcome.Failed? ==>
        name == old(name) && role == old(role) &&
        notice == (if IsDuplicateError(outcome.message) then DuplicateId else AddFailed)
      ensures search == old(search)
    {
      var trimmed := Trim(name);
      if trimmed == "" {
        request := None;
        notice := MissingName;
        return;
      }
      request := Some(NewStaff(staffId, trimmed, role));
      match outcome
      case Added =>
        notice := AddedStaff(trimmed);
        name := "";
        role := Staff;
      case Failed(message) =>
        notice := if IsDuplicateError(message)
          then DuplicateId else AddFailed;
    }
  }
}
