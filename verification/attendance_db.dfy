/** The tables the attendance pipeline reads and writes: users (read only),
    employee settings, the detailed attendance rows and the daily summary, with
    the keys their `updateOrCreate` calls and unique indexes use. */
module AttendanceDb {
  import opened Common
  import opened Tables
  import opened EmployeeSettings
  import opened AttendanceSummary

  /** The columns of a user the core reads. */
  datatype User = User(id: int, username: string, firstName: string, lastName: string)

  /** One row of the detailed attendance table, as far as the import writes it.
      `clockIn` and `clockOut` are instants (DATETIME columns). */
  datatype DetailRow = DetailRow(
    id: int,
    userId: int,
    businessId: int,
    clockIn: int,
    clockOut: Option<int>,
    status: string,
    lateMinutes: int,
    earlyLeaveMinutes: int,
    workHours: real,
    isWeekend: bool,
    isHoliday: bool)

  /** The unique key (user_id, business_id) of the settings table. */
  function SettingsKey(r: SettingsRow): (int, int) { (r.userId, r.businessId) }

  /** The lookup key (employee_code, business_id) of the resolver. */
  function CodeKey(r: SettingsRow): (Option<string>, int) { (r.employeeCode, r.businessId) }

  /** The `updateOrCreate` key (user_id, business_id, clock_in_time) of the detail table. */
  function DetailKey(r: DetailRow): (int, int, int) { (r.userId, r.businessId, r.clockIn) }

  /** The unique key (user_id, business_id, date) of the summary table. */
  function SummaryKey(r: SummaryRow): (int, int, int) { (r.userId, r.businessId, r.date) }

  /** The attendance tables of the database. */
  class Store {
    var settings: Table<SettingsRow>
    var details: Table<DetailRow>
    var summaries: Table<SummaryRow>

    /** The two unique indexes hold. */
    predicate Valid()
      reads this
    {
      UniqueKeys(settings.rows, SettingsKey) && UniqueKeys(summaries.rows, SummaryKey)
    }
  }
}
