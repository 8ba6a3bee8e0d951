/** The records exchanged with the remote backend service (frontend/src/backend.d.ts).
    `Time` and the `bigint` money fields are unbounded integers; a `Time` is
    nanoseconds since the Unix epoch. */
module Backend {

  /** An optional value: an optional field (`signOutTime?`) that may be absent. */
  datatype Option<+T> = None | Some(value: T)

  datatype Role = Manager | Staff

  datatype Shift = Morning | Evening

  datatype StaffRecord = StaffRecord(staffId: string, role: Role, fullName: string, isActive: bool)

  /** `signOutTime` is optional: absent until the staff member signs out. */
  datatype AttendanceRecord = AttendanceRecord(
    staffId: string,
    date: int,
    shift: Shift,
    signInTime: int,
    signOutTime: Option<int>)

  datatype FinancialRecord = FinancialRecord(
    date: int,
    shift: Shift,
    cashSales: int,
    onlineSales: int,
    expenses: int)

  /** A `bigint` is falsy exactly when it is `0n`, so a record counts as signed in
      when its sign-in time is non-zero. */
  predicate SignedIn(a: AttendanceRecord) {
    a.signInTime != 0
  }

  /** Signed out: the optional sign-out time is present and non-zero. */
  predicate SignedOut(a: AttendanceRecord) {
    a.signOutTime.Some? && a.signOutTime.value != 0
  }
}
