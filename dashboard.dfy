/** frontend/src/pages/Dashboard.tsx: today's figures, computed from today's
    attendance records, today's financial records and the staff list. */
module Dashboard {
  import opened Backend
  import opened Lists
  import opened Calendar
  import opened DateUtils
  import opened SelectedDate
  import opened StaffManagement

  /** The day key of today's local start, under which both of today's queries
      run: it exists whenever yesterday is a valid date, and it is the key of
      today's local day at or west of UTC, and of the day before east of UTC. */
  function TodayKey(now: int, offset: int): (r: Option<int>)
    requires InRange(now)
    ensures InRange(now - MsPerDay) ==> r.Some?
    ensures r.Some? && -MsPerDay < offset <= 0 ==> r == Some(DayKey(Day(now + offset)))
    ensures r.Some? && 0 < offset < MsPerDay ==> r == Some(DayKey(PreviousDay(Day(now + offset))))
  {
    StartOfDayKey(now, offset);
    DateToBigIntNs(LocalStartOfDay(now, offset))
  }

  /** `a.shift === shift && a.signInTime && !a.signOutTime`: on that shift now. */
  predicate OnShiftNow(a: AttendanceRecord, shift: Shift) {
    a.shift == shift && SignedIn(a) && !SignedOut(a)
  }

  predicate OnMorningShiftNow(a: AttendanceRecord) {
    OnShiftNow(a, Morning)
  }

  predicate OnEveningShiftNow(a: AttendanceRecord) {
    OnShiftNow(a, Evening)
  }

  /** `rs.reduce((sum, r) => sum + f(r), 0)`: a left fold from 0. */
  function SumOf(rs: seq<FinancialRecord>, f: FinancialRecord -> int): int {
    if rs == [] then 0 else SumOf(rs[..|rs| - 1], f) + f(rs[|rs| - 1])
  }

  function CashSales(r: FinancialRecord): int {
    r.cashSales
  }

  function OnlineSales(r: FinancialRecord): int {
    r.onlineSales
  }

  function Expenses(r: FinancialRecord): int {
    r.expenses
  }

  /** A record's cash and online sales together. */
  function Takings(r: FinancialRecord): int {
    r.cashSales + r.onlineSales
  }

  /** The dashboard's figures. */
  datatype Summary = Summary(
    morningPresent: nat, eveningPresent: nat, totalPresent: nat,
    totalCashSales: int, totalOnlineSales: int, totalCash: int, totalExpenses: int,
    activeStaff: nat)

  /** Lines 21-34: staff on each shift now (signed in, not yet signed out),
      staff who signed in at all today, the three sums and the active count.
      Nobody is on both shifts, and everyone on a shift has signed in. */
  function Summarize(attendance: seq<AttendanceRecord>, financials: seq<FinancialRecord>,
                     allStaff: seq<StaffRecord>): (s: Summary)
    ensures s.morningPresent + s.eveningPresent <= s.totalPresent <= |attendance|
    ensures s.activeStaff <= |allStaff|
    ensures s.totalCash == s.totalCashSales + s.totalOnlineSales
  {
    CountDisjointBelow(attendance, OnMorningShiftNow, OnEveningShiftNow, SignedIn);
    var cash := SumOf(financials, CashSales);
    var online := SumOf(financials, OnlineSales);
    Summary(
      Count(attendance, OnMorningShiftNow), Count(attendance, OnEveningShiftNow),
      Count(attendance, SignedIn),
      cash, online, cash + online, SumOf(financials, Expenses),
      |ActiveStaff(allStaff)|)
  }

  /** The sum over two lists one after the other is the sum of their sums. */
  lemma {:induction false} SumAppend(a: seq<FinancialRecord>, b: seq<FinancialRecord>, f: FinancialRecord -> int)
    ensures SumOf(a + b, f) == SumOf(a, f) + SumOf(b, f)
    decreases |b|
  {
    if b == [] {
      assert a + b == a;
    } else {
      var ab := a + b;
      assert ab[..|ab| - 1] == a + b[..|b| - 1];
      assert ab[|ab| - 1] == b[|b| - 1];
      SumAppend(a, b[..|b| - 1], f);
    }
  }

  /** Taking one record out of a list takes its amount out of the sum. */
  lemma SumRemove(left: seq<FinancialRecord>, x: FinancialRecord, right: seq<FinancialRecord>,
                  f: FinancialRecord -> int)
    ensures SumOf(left + [x] + right, f) == SumOf(left + right, f) + f(x)
  {
    SumAppend(left + [x], right, f);
    SumAppend(left, [x], f);
    SumAppend(left, right, f);
    assert SumOf([x], f) == f(x) by {
      assert [x][..0] == [];
    }
  }

  /** Taking the record at `i` out of a list takes one copy of it out of the
      list's multiset. */
  lemma MultisetRemove(b: seq<FinancialRecord>, i: int)
    requires 0 <= i < |b|
    ensures multiset(b[..i] + b[i + 1..]) == multiset(b) - multiset{b[i]}
  {
    assert b == b[..i] + [b[i]] + b[i + 1..];
  }

  /** The sums do not depend on the order the records arrive in. */
  lemma {:induction false} SumPermutation(a: seq<FinancialRecord>, b: seq<FinancialRecord>, f: FinancialRecord -> int)
    requires multiset(a) == multiset(b)
    ensures SumOf(a, f) == SumOf(b, f)
    decreases |a|
  {
    if a == [] {
      assert |b| == |multiset(b)| == 0;
    } else {
      var x := a[|a| - 1];
      assert x in multiset(b) by {
        assert x in a;
      }
      var i :| 0 <= i < |b| && b[i] == x;
      var init, left, right := a[..|a| - 1], b[..i], b[i + 1..];
      MultisetRemove(a, |a| - 1);
      MultisetRemove(b, i);
      assert init + a[|a|..] == init;
      SumPermutation(init, left + right, f);
      assert SumOf(b, f) == SumOf(left + right, f) + f(x) by {
        assert b == left + [x] + right;
        SumRemove(left, x, right, f);
      }
      assert SumOf(a, f) == SumOf(init, f) + f(x);
    }
  }

  /** Summing two fields separately and adding is summing their per-record total. */
  lemma {:induction false} SumOfSum(rs: seq<FinancialRecord>, f: FinancialRecord -> int,
                                    g: FinancialRecord -> int, h: FinancialRecord -> int)
    requires forall r :: h(r) == f(r) + g(r)
    ensures SumOf(rs, f) + SumOf(rs, g) == SumOf(rs, h)
  {
    if rs != [] {
      SumOfSum(rs[..|rs| - 1], f, g, h);
    }
  }

  /** Without records every sum on the dashboard is 0. */
  lemma SummaryOfNoRecords(attendance: seq<AttendanceRecord>, allStaff: seq<StaffRecord>)
    ensures Summarize(attendance, [], allStaff).totalCashSales == 0
    ensures Summarize(attendance, [], allStaff).totalOnlineSales == 0
    ensures Summarize(attendance, [], allStaff).totalCash == 0
    ensures Summarize(attendance, [], allStaff).totalExpenses == 0
  {
  }

  /** Every sum on the dashboard adds up over a split of the records. */
  lemma SummaryAdditive(attendance: seq<AttendanceRecord>, a: seq<FinancialRecord>,
                        b: seq<FinancialRecord>, allStaff: seq<StaffRecord>)
    ensures Summarize(attendance, a + b, allStaff).totalCashSales ==
      Summarize(attendance, a, allStaff).totalCashSales + Summarize(attendance, b, allStaff).totalCashSales
    ensures Summarize(attendance, a + b, allStaff).totalOnlineSales ==
      Summarize(attendance, a, allStaff).totalOnlineSales + Summarize(attendance, b, allStaff).totalOnlineSales
    ensures Summarize(attendance, a + b, allStaff).totalCash ==
      Summarize(attendance, a, allStaff).totalCash + Summarize(attendance, b, allStaff).totalCash
    ensures Summarize(attendance, a + b, allStaff).totalExpenses ==
      Summarize(attendance, a, allStaff).totalExpenses + Summarize(attendance, b, allStaff).totalExpenses
  {
    SumAppend(a, b, CashSales);
    SumAppend(a, b, OnlineSales);
    SumAppend(a, b, Expenses);
  }

  /** Every sum on the dashboard ignores the order in which the records arrive. */
  lemma SummaryOrderIndependent(attendance: seq<AttendanceRecord>, a: seq<FinancialRecord>,
                                b: seq<FinancialRecord>, allStaff: seq<StaffRecord>)
    requires multiset(a) == multiset(b)
    ensures Summarize(attendance, a, allStaff).totalCashSales == Summarize(attendance, b, allStaff).totalCashSales
    ensures Summarize(attendance, a, allStaff).totalOnlineSales == Summarize(attendance, b, allStaff).totalOnlineSales
    ensures Summarize(attendance, a, allStaff).totalCash == Summarize(attendance, b, allStaff).totalCash
    ensures Summarize(attendance, a, allStaff).totalExpenses == Summarize(attendance, b, allStaff).totalExpenses
  {
    SumPermutation(a, b, CashSales);
    SumPermutation(a, b, OnlineSales);
    SumPermutation(a, b, Expenses);
  }

  /** The cash total is the sum over the records of each record's cash and
      online sales. */
  lemma SummaryCashIsTakings(attendance: seq<AttendanceRecord>, a: seq<FinancialRecord>,
                             allStaff: seq<StaffRecord>)
    ensures Summarize(attendance, a, allStaff).totalCash == SumOf(a, Takings)
  {
    SumOfSum(a, CashSales, OnlineSales, Takings);
  }

  /** The present counts count exactly the matching records: a record counts
      towards a shift's figure iff it is of that shift, signed in and not
      signed out, and towards the total iff it is signed in. */
  lemma PresentCounts(attendance: seq<AttendanceRecord>, a: AttendanceRecord, financials: seq<FinancialRecord>,
                      allStaff: seq<StaffRecord>)
    ensures Summarize([a] + attendance, financials, allStaff).morningPresent ==
      Summarize(attendance, financials, allStaff).morningPresent + (if OnShiftNow(a, Morning) then 1 else 0)
    ensures Summarize([a] + attendance, financials, allStaff).eveningPresent ==
      Summarize(attendance, financials, allStaff).eveningPresent + (if OnShiftNow(a, Evening) then 1 else 0)
    ensures Summarize([a] + attendance, financials, allStaff).totalPresent ==
      Summarize(attendance, financials, allStaff).totalPresent + (if SignedIn(a) then 1 else 0)
  {
    assert ([a] + attendance)[1..] == attendance;
  }

  /** The active count is the number of active staff, never more than the staff
      list, and the deactivated staff make up the rest. */
  lemma ActiveCount(attendance: seq<AttendanceRecord>, financials: seq<FinancialRecord>, allStaff: seq<StaffRecord>)
    ensures Summarize(attendance, financials, allStaff).activeStaff + |InactiveStaff(allStaff)| == |allStaff|
  {
    ActiveInactivePartition(allStaff);
  }
}
