/** frontend/src/pages/SalesExpenses.tsx: the two shift forms (cash sales, online
    sales, expenses) of the selected day, filled from the stored records, saved
    one shift at a time, and the day's totals computed from what the forms hold. */
module SalesExpenses {
  import opened Backend
  import opened Strings
  import opened Numbers
  import opened DateUtils
  import opened SelectedDate

  /** The text held by the three number inputs of one shift. */
  datatype ShiftForm = ShiftForm(cashSales: string, onlineSales: string, expenses: string)

  /** The three inputs of a shift form. */
  datatype Field = CashSales | OnlineSales | Expenses

  /** `emptyForm()`. */
  const EmptyForm := ShiftForm("", "", "")

  /** `recordToForm`: each amount written out by `Number(x).toString()`. */
  function RecordToForm(r: FinancialRecord): ShiftForm {
    ShiftForm(IntToString(r.cashSales), IntToString(r.onlineSales), IntToString(r.expenses))
  }

  /** The form with one input replaced (`setForm({ ...form, field: value })`). */
  function WithField(form: ShiftForm, field: Field, value: string): ShiftForm {
    match field
    case CashSales => form.(cashSales := value)
    case OnlineSales => form.(onlineSales := value)
    case Expenses => form.(expenses := value)
  }

  /** The position `financials.find(r => r.shift === shift)` stops at: the first
      record of that shift, or the length of the list when there is none. */
  function FirstOfShift(financials: seq<FinancialRecord>, shift: Shift): (i: nat)
    ensures i <= |financials|
    ensures i < |financials| ==> financials[i].shift == shift
    ensures forall j :: 0 <= j < i ==> financials[j].shift != shift
  {
    if financials == [] then 0
    else if financials[0].shift == shift then 0
    else 1 + FirstOfShift(financials[1..], shift)
  }

  /** `financials.find(r => r.shift === shift)`: the first record of the shift. */
  function FindShift(financials: seq<FinancialRecord>, shift: Shift): (r: Option<FinancialRecord>)
    ensures r.None? <==> forall j :: 0 <= j < |financials| ==> financials[j].shift != shift
    ensures r.Some? ==> r.value in financials && r.value.shift == shift
  {
    var i := FirstOfShift(financials, shift);
    if i < |financials| then Some(financials[i]) else None
  }

  /** The form the populate effect sets for a shift: the first stored record
      of that shift written out, or the empty form. The form is empty exactly
      when no record is of that shift, since a written amount is never blank. */
  function FormFor(financials: seq<FinancialRecord>, shift: Shift): (r: ShiftForm)
    ensures r == EmptyForm <==> forall j :: 0 <= j < |financials| ==> financials[j].shift != shift
  {
    match FindShift(financials, shift)
    case Some(r) => RecordToForm(r)
    case None => EmptyForm
  }

  /** `parseVal`: the number `parseFloat` reads, rounded to the nearest whole
      number; NaN and negative numbers become 0. Never negative. */
  function ParseVal(v: string): (n: int)
    ensures n >= 0
    ensures ParseFloat(v).Some? && ParseFloat(v).value >= 0.0 ==>
      n as real - 0.5 <= ParseFloat(v).value < n as real + 0.5
    ensures ParseFloat(v).None? || ParseFloat(v).value < 0.0 ==> n == 0
  {
    match ParseFloat(v)
    case None => 0
    case Some(x) => if x < 0.0 then 0 else Round(x)
  }

  /** `parseFloat(v) || 0`: NaN (and 0) become 0; negative and fractional
      numbers are kept as read. */
  function NumOrZero(v: string): real {
    match ParseFloat(v)
    case None => 0.0
    case Some(x) => x
  }

  /** The record `handleSave` submits for one shift's form under the day key. */
  function SavePayload(form: ShiftForm, dateNs: int, shift: Shift): FinancialRecord {
    FinancialRecord(dateNs, shift, ParseVal(form.cashSales), ParseVal(form.onlineSales), ParseVal(form.expenses))
  }

  /** `calcTotal`: the shift's cash and online sales as shown. */
  function CalcTotal(form: ShiftForm): real {
    NumOrZero(form.cashSales) + NumOrZero(form.onlineSales)
  }

  /** The daily summary under the forms. */
  datatype DailyTotals = DailyTotals(
    totalCashSales: real, totalOnlineSales: real, totalRevenue: real,
    totalExpenses: real, netProfit: real)

  /** The day's totals, from what the two forms hold: revenue is the sum of the
      two shift totals, and the profit is revenue less expenses. */
  function Totals(morning: ShiftForm, evening: ShiftForm): (t: DailyTotals)
    ensures t.totalRevenue == CalcTotal(morning) + CalcTotal(evening)
    ensures t.netProfit == t.totalRevenue - t.totalExpenses
  {
    var cash := NumOrZero(morning.cashSales) + NumOrZero(evening.cashSales);
    var online := NumOrZero(morning.onlineSales) + NumOrZero(evening.onlineSales);
    var expenses := NumOrZero(morning.expenses) + NumOrZero(evening.expenses);
    DailyTotals(cash, online, cash + online, expenses, cash + online - expenses)
  }

  /** `parseVal` reads back what `toString` wrote, with negatives clamped to 0. */
  lemma ParseValOfIntString(n: int)
    ensures ParseVal(IntToString(n)) == (if n < 0 then 0 else n)
  {
    ParseFloatOfIntString(n);
    RoundInteger(n);
  }

  /** A record's amounts written into a form and saved again are the amounts
      it held, when none is negative. */
  lemma SaveRecordForm(r: FinancialRecord, dateNs: int)
    requires r.cashSales >= 0 && r.onlineSales >= 0 && r.expenses >= 0
    ensures SavePayload(RecordToForm(r), dateNs, r.shift) == r.(date := dateNs)
  {
    ParseValOfIntString(r.cashSales);
    ParseValOfIntString(r.onlineSales);
    ParseValOfIntString(r.expenses);
  }

  /** Saving a shift right after the forms were populated stores the first
      record of that shift unchanged (under the page's day key), or zeros for a
      shift with no record. */
  lemma SaveAfterPopulate(financials: seq<FinancialRecord>, shift: Shift, dateNs: int)
    requires forall r :: r in financials ==> r.cashSales >= 0 && r.onlineSales >= 0 && r.expenses >= 0
    ensures FindShift(financials, shift).Some? ==>
      SavePayload(FormFor(financials, shift), dateNs, shift) == FindShift(financials, shift).value.(date := dateNs)
    ensures FindShift(financials, shift).None? ==>
      SavePayload(FormFor(financials, shift), dateNs, shift) == FinancialRecord(dateNs, shift, 0, 0, 0)
  {
    match FindShift(financials, shift)
    case Some(r) => SaveRecordForm(r, dateNs);
    case None =>
  }

  /** `parseFloat(v) || 0` reads back what `toString` wrote. */
  lemma NumOrZeroOfIntString(n: int)
    ensures NumOrZero(IntToString(n)) == n as real
  {
    ParseFloatOfIntString(n);
  }

  /** For forms filled from records, the totals shown are the sums of the
      stored amounts of the two shifts. */
  lemma TotalsOfRecordForms(m: FinancialRecord, e: FinancialRecord)
    ensures Totals(RecordToForm(m), RecordToForm(e)) == DailyTotals(
      (m.cashSales + e.cashSales) as real,
      (m.onlineSales + e.onlineSales) as real,
      (m.cashSales + e.cashSales + m.onlineSales + e.onlineSales) as real,
      (m.expenses + e.expenses) as real,
      (m.cashSales + e.cashSales + m.onlineSales + e.onlineSales - m.expenses - e.expenses) as real)
  {
    NumOrZeroOfIntString(m.cashSales);
    NumOrZeroOfIntString(e.cashSales);
    NumOrZeroOfIntString(m.onlineSales);
    NumOrZeroOfIntString(e.onlineSales);
    NumOrZeroOfIntString(m.expenses);
    NumOrZeroOfIntString(e.expenses);
    TotalsOfReadForms(RecordToForm(m), RecordToForm(e), m, e);
  }

  /** For a field holding only digits (blank included, and leading zeros
      such as "05" allowed), the amount the totals count is the amount a save
      submits: the digits' value, or 0 when blank. */
  lemma DigitsAgree(s: string)
    requires AllDigits(s)
    ensures ParseVal(s) == DigitsValue(s)
    ensures NumOrZero(s) == ParseVal(s) as real
  {
    if s != [] {
      assert IsDigit(s[0]);
      assert LeadingWhiteSpace(s) == 0;
      assert s[0..] == s;
      DecimalPrefixOfDigits(s);
      RoundInteger(DigitsValue(s));
    }
  }

  /** For two forms whose six fields hold only digits, the totals shown are
      the sums of the amounts that saving the two shifts would submit. */
  lemma TotalsOfDigitForms(morning: ShiftForm, evening: ShiftForm, dateNs: int)
    requires AllDigits(morning.cashSales) && AllDigits(morning.onlineSales) && AllDigits(morning.expenses)
    requires AllDigits(evening.cashSales) && AllDigits(evening.onlineSales) && AllDigits(evening.expenses)
    ensures Totals(morning, evening) == DailyTotals(
      (SavePayload(morning, dateNs, Morning).cashSales + SavePayload(evening, dateNs, Evening).cashSales) as real,
      (SavePayload(morning, dateNs, Morning).onlineSales + SavePayload(evening, dateNs, Evening).onlineSales) as real,
      (SavePayload(morning, dateNs, Morning).cashSales + SavePayload(evening, dateNs, Evening).cashSales +
       SavePayload(morning, dateNs, Morning).onlineSales + SavePayload(evening, dateNs, Evening).onlineSales) as real,
      (SavePayload(morning, dateNs, Morning).expenses + SavePayload(evening, dateNs, Evening).expenses) as real,
      (SavePayload(morning, dateNs, Morning).cashSales + SavePayload(evening, dateNs, Evening).cashSales +
       SavePayload(morning, dateNs, Morning).onlineSales + SavePayload(evening, dateNs, Evening).onlineSales -
       SavePayload(morning, dateNs, Morning).expenses - SavePayload(evening, dateNs, Evening).expenses) as real)
  {
    var m, e := SavePayload(morning, dateNs, Morning), SavePayload(evening, dateNs, Evening);
    DigitFormAgrees(morning, dateNs, Morning);
    DigitFormAgrees(evening, dateNs, Evening);
    TotalsOfReadForms(morning, evening, m, e);
  }

  /** Each field of a form of digits counts in the totals as the amount its
      save submits. */
  lemma DigitFormAgrees(form: ShiftForm, dateNs: int, shift: Shift)
    requires AllDigits(form.cashSales) && AllDigits(form.onlineSales) && AllDigits(form.expenses)
    ensures NumOrZero(form.cashSales) == SavePayload(form, dateNs, shift).cashSales as real
    ensures NumOrZero(form.onlineSales) == SavePayload(form, dateNs, shift).onlineSales as real
    ensures NumOrZero(form.expenses) == SavePayload(form, dateNs, shift).expenses as real
  {
    DigitsAgree(form.cashSales);
    DigitsAgree(form.onlineSales);
    DigitsAgree(form.expenses);
  }

  /** A typed "05" next to blank fields is counted and saved as 5. */
  lemma LeadingZeroTyped()
    ensures Totals(ShiftForm("05", "", ""), EmptyForm).totalCashSales == 5.0
    ensures SavePayload(ShiftForm("05", "", ""), 0, Morning) == FinancialRecord(0, Morning, 5, 0, 0)
  {
    DigitsOfFive();
    DigitsAgree("05");
    DigitsAgree("");
  }

  lemma DigitsOfFive()
    ensures AllDigits("05") && DigitsValue("05") == 5
  {
    assert "05"[..1] == "0" && "0"[..0] == [];
  }

  lemma TotalsOfReadForms(morning: ShiftForm, evening: ShiftForm, m: FinancialRecord, e: FinancialRecord)
    requires NumOrZero(morning.cashSales) == m.cashSales as real
    requires NumOrZero(evening.cashSales) == e.cashSales as real
    requires NumOrZero(morning.onlineSales) == m.onlineSales as real
    requires NumOrZero(evening.onlineSales) == e.onlineSales as real
    requires NumOrZero(morning.expenses) == m.expenses as real
    requires NumOrZero(evening.expenses) == e.expenses as real
    ensures Totals(morning, evening) == DailyTotals(
      (m.cashSales + e.cashSales) as real,
      (m.onlineSales + e.onlineSales) as real,
      (m.cashSales + e.cashSales + m.onlineSales + e.onlineSales) as real,
      (m.expenses + e.expenses) as real,
      (m.cashSales + e.cashSales + m.onlineSales + e.onlineSales - m.expenses - e.expenses) as real)
  {
  }

  lemma ParseMinusFive()
    ensures ParseFloat("-5") == Some(-5.0)
  {
    assert LeadingWhiteSpace("-5") == 0;
    assert "-5"[0..][1..] == "5";
    assert DigitRun("5") == 1 by { assert DigitRun("5"[1..]) == 0; }
    assert "5"[..1] == "5" && "5"[1..] == [];
    assert DigitsValue("5") == 5 by { assert "5"[..0] == []; }
    assert "5" + [] == "5";
  }

  lemma ParseTwoPointFour()
    ensures ParseFloat("2.4") == Some(2.4)
  {
    ParseFloatOfDecimal("2", "4");
    assert "2" + "." + "4" == "2.4";
    MantissaTwoFour();
    ScaleOneDigit();
  }

  lemma MantissaTwoFour()
    ensures Mantissa("2", "4") == 24.0
  {
    assert "2" + "4" == "24" && "24"[..1] == "2" && "2"[..0] == [];
  }

  lemma ScaleOneDigit()
    ensures Scale(-1) == 0.1
  {
    assert Pow10(1) == 10;
  }

  /** The totals show what is typed, while a save stores `parseVal` of it: a
      negative amount counts in the totals but is saved as 0, and a fractional
      one is saved rounded. */
  lemma TotalsShowUnsavedValues()
    ensures Totals(ShiftForm("-5", "", ""), EmptyForm).totalCashSales == -5.0
    ensures ParseVal("-5") == 0
    ensures Totals(ShiftForm("2.4", "", ""), EmptyForm).totalCashSales == 2.4
    ensures ParseVal("2.4") == 2
  {
    ParseMinusFive();
    ParseTwoPointFour();
  }

  /** The page's state: the selected day and the text of the two shift forms. */
  class SalesPage {
    var selectedDate: Date
    var morningForm: ShiftForm
    var eveningForm: ShiftForm

    /** The initial state: the start of today, both forms empty. */
    constructor(now: int, offset: int)
      requires InRange(now)
      ensures selectedDate == LocalStartOfDay(now, offset)
      ensures morningForm == EmptyForm && eveningForm == EmptyForm
    {
      selectedDate := LocalStartOfDay(now, offset);
      morningForm := EmptyForm;
      eveningForm := EmptyForm;
    }

    /** The form of a shift (`shift === Shift.morning ? morningForm : eveningForm`). */
    function FormOf(shift: Shift): ShiftForm
      reads this
    {
      if shift == Morning then morningForm else eveningForm
    }

    /** The date input's `onChange`, followed by the populate effect when the
        day key changes: `financials` are the records the query holds for the
        new key, `[]` until they have loaded. A pick that keeps the key (a
        cleared input, or another value on the same day) leaves the forms as
        they were; one that moves it refills both forms from the new day's
        records, so a form typed into and not saved is lost. */
    method ChooseDate(value: string, offset: int, financials: seq<FinancialRecord>)
      modifies this
      ensures selectedDate == NextSelectedDate(old(selectedDate), value, offset)
      ensures DateToBigIntNs(selectedDate) != DateToBigIntNs(old(selectedDate)) ==>
        morningForm == FormFor(financials, Morning) && eveningForm == FormFor(financials, Evening)
      ensures DateToBigIntNs(selectedDate) == DateToBigIntNs(old(selectedDate)) ==>
        morningForm == old(morningForm) && eveningForm == old(eveningForm)
    {
      var before := DateToBigIntNs(selectedDate);
      if value != "" {
        selectedDate := ParseDateInput(value, offset);
      }
      if DateToBigIntNs(selectedDate) != before {
        Populate(financials);
      }
    }

    /** The populate effect, run whenever the day key or the records of the
        selected day change: each form is replaced by the first record of its
        shift, or emptied. While the records load the query yields `[]`, and
        both forms are emptied. */
    method Populate(financials: seq<FinancialRecord>)
      modifies this
      ensures morningForm == FormFor(financials, Morning)
      ensures eveningForm == FormFor(financials, Evening)
      ensures selectedDate == old(selectedDate)
    {
      var morning := FindShift(financials, Morning);
      var evening := FindShift(financials, Evening);
      morningForm := if morning.Some? then RecordToForm(morning.value) else EmptyForm;
      eveningForm := if evening.Some? then RecordToForm(evening.value) else EmptyForm;
    }

    /** Typing into one input of one shift's form; the other form and the date
        stay as they were. */
    method Edit(shift: Shift, field: Field, value: string)
      modifies this
      ensures FormOf(shift) == WithField(old(FormOf(shift)), field, value)
      ensures shift == Morning ==> eveningForm == old(eveningForm)
      ensures shift == Evening ==> morningForm == old(morningForm)
      ensures selectedDate == old(selectedDate)
    {
      if shift == Morning {
        morningForm := WithField(morningForm, field, value);
      } else {
        eveningForm := WithField(eveningForm, field, value);
      }
    }

    /** `handleSave(shift)`: the record submitted for one shift, under the day
        key of the selected date, with the amounts of that shift's form only.
        The page renders, and so offers Save, only when the selected date has
        a day key. The forms are not changed. */
    method HandleSave(shift: Shift) returns (payload: FinancialRecord)
      requires DateToBigIntNs(selectedDate).Some?
      ensures payload == SavePayload(FormOf(shift), DateToBigIntNs(selectedDate).value, shift)
      ensures payload.cashSales >= 0 && payload.onlineSales >= 0 && payload.expenses >= 0
    {
      var form := if shift == Morning then morningForm else eveningForm;
      payload := FinancialRecord(DateToBigIntNs(selectedDate).value, shift,
        ParseVal(form.cashSales), ParseVal(form.onlineSales), ParseVal(form.expenses));
    }

    /** The summary shown under the forms. */
    function DayTotals(): DailyTotals
      reads this
    {
      Totals(morningForm, eveningForm)
    }
  }
}
