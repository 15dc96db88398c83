/** `exportAttendanceToCSV` and `generateAttendanceSummaryForPayroll` of
    Modules/Essentials/Services/AttendanceProcessingService.php. */
module Reports {
  import opened Common
  import opened Calendar
  import opened Tables
  import opened AttendanceSummary
  import opened AttendanceDb

  // ---------------------------------------------------------------------------
  // CSV export

  /** One field of the exported array. A date is kept as its day number (its
      `Y-m-d` rendering is not modelled); clocks are rendered as `H:i:s` text. */
  datatype CsvCell = Text(text: string) | Day(date: int) | Decimal(value: real) | Whole(count: int)

  const ExportHeader: seq<CsvCell> := [
    Text("Employee Name"), Text("Employee Code"), Text("Date"), Text("Clock In"), Text("Clock Out"),
    Text("Total Hours"), Text("Status"), Text("Late Minutes"), Text("Early Leave Minutes")]

  /** A number below 100 as two decimal digits. */
  function TwoDigits(n: int): (r: string)
    requires 0 <= n < 100
    ensures |r| == 2 && IsDigitChar(r[0]) && IsDigitChar(r[1])
    ensures DigitValue(r[0]) * 10 + DigitValue(r[1]) == n
  {
    [('0' as int + n / 10) as char, ('0' as int + n % 10) as char]
  }

  predicate IsDigitChar(c: char) { '0' <= c <= '9' }

  function DigitValue(c: char): int { c as int - '0' as int }

  /** `->format('H:i:s')` of a TIME column holding `t` (its time of day). */
  function FormatClock(t: int): (r: string)
    ensures |r| == 8 && r[2] == ':' && r[5] == ':'
    ensures forall i :: 0 <= i < 8 && i != 2 && i != 5 ==> IsDigitChar(r[i])
  {
    var s := TimeOfDay(t);
    TwoDigits(s / 3600) + ":" + TwoDigits(s % 3600 / 60) + ":" + TwoDigits(s % 60)
  }

  /** Reading an `H:i:s` text back as seconds after midnight. */
  function ParseClock(r: string): int
    requires |r| == 8
  {
    (DigitValue(r[0]) * 10 + DigitValue(r[1])) * 3600
    + (DigitValue(r[3]) * 10 + DigitValue(r[4])) * 60
    + DigitValue(r[6]) * 10 + DigitValue(r[7])
  }

  /** The rendered clock reads back as the time of day it came from, so no two
      times of day share a rendering. */
  lemma ClockRoundTrip(t: int)
    ensures ParseClock(FormatClock(t)) == TimeOfDay(t)
  {
    var s := TimeOfDay(t);
    var r := FormatClock(t);
    var h, m, x := TwoDigits(s / 3600), TwoDigits(s % 3600 / 60), TwoDigits(s % 60);
    assert r == h + ":" + m + ":" + x;
    assert r[0] == h[0] && r[1] == h[1] && r[3] == m[0] && r[4] == m[1] && r[6] == x[0] && r[7] == x[1];
    ClockParts(s);
  }

  /** Hours, minutes and seconds make up the time of day. */
  lemma ClockParts(s: int)
    requires 0 <= s
    ensures s == (s / 3600) * 3600 + (s % 3600 / 60) * 60 + s % 60
  {
    var q, r := s / 3600, s % 3600;
    assert s == q * 3600 + r;
    var mm, x := r / 60, r % 60;
    assert r == mm * 60 + x;
    assert s == (q * 60 + mm) * 60 + x;
    assert s % 60 == x;
  }

  /** A clock column, or the empty string when it is null. */
  function ClockCell(t: Option<int>): CsvCell
  {
    match t
    case Some(v) => Text(FormatClock(v))
    case None => Text("")
  }

  function UserId(u: User): int { u.id }

  /** The `employee` relation: the user with the row's user id. */
  function Employee(users: seq<User>, userId: int): (r: Option<User>)
    ensures r.Some? ==> r.value in users && r.value.id == userId
    ensures r.None? <==> forall i :: 0 <= i < |users| ==> users[i].id != userId
  {
    Lookup(users, UserId, userId)
  }

  /** One exported row; `code` is what the employee's settings relation yields. */
  function ExportRow(r: SummaryRow, employee: User, code: Option<string>): (row: seq<CsvCell>)
    ensures |row| == |ExportHeader| == 9
    ensures row[2] == Day(r.date) && row[6] == Text(StatusText(r.status))
    ensures row[3] == ClockCell(r.clockIn) && row[4] == ClockCell(r.clockOut)
    ensures code.None? ==> row[1] == Text("")
  {
    [Text(employee.firstName + " " + employee.lastName),
     Text(match code case Some(c) => c case None => ""),
     Day(r.date),
     ClockCell(r.clockIn),
     ClockCell(r.clockOut),
     Decimal(r.totalHours),
     Text(StatusText(r.status)),
     Whole(r.lateMinutes),
     Whole(r.earlyLeaveMinutes)]
  }

  /** The row for one summary; reading the name of a missing employee raises
      an error, which fails the export. */
  function RenderRow(users: seq<User>, codeOf: int -> Option<string>): SummaryRow -> Option<seq<CsvCell>>
  {
    (r: SummaryRow) =>
      match Employee(users, r.userId)
      case None => None
      case Some(u) => Some(ExportRow(r, u, codeOf(r.userId)))
  }

  /** `forBusiness($businessId)->dateRange($startDate, $endDate)->get()`. */
  function ExportSelection(summaries: seq<SummaryRow>, businessId: int, startDate: int, endDate: int): seq<SummaryRow>
  {
    DateRangeScope(ForBusiness(summaries, businessId), startDate, endDate)
  }

  /** The whole exported array for the selected summaries: the header, then
      one row per summary. */
  function ExportCsv(selection: seq<SummaryRow>, users: seq<User>, codeOf: int -> Option<string>): Option<seq<seq<CsvCell>>>
  {
    match MapAll(selection, RenderRow(users, codeOf))
    case None => None
    case Some(body) => Some([ExportHeader] + body)
  }

  /** The export holds 1 + n rows of 9 fields, the fixed header first, and row
      k + 1 renders the k-th selected summary; it fails exactly when a selected
      row has no employee. */
  lemma ExportShape(selection: seq<SummaryRow>, users: seq<User>, codeOf: int -> Option<string>)
    ensures var csv := ExportCsv(selection, users, codeOf);
      && (csv.Some? <==> forall k :: 0 <= k < |selection| ==> Employee(users, selection[k].userId).Some?)
      && (csv.Some? ==>
            && |csv.value| == 1 + |selection|
            && csv.value[0] == ExportHeader
            && forall k :: 0 <= k < |selection| ==>
                 csv.value[k + 1] == ExportRow(selection[k], Employee(users, selection[k].userId).value, codeOf(selection[k].userId)))
  {
    var render := RenderRow(users, codeOf);
    MapAllShape(selection, render);
    assert forall k :: 0 <= k < |selection| ==> (render(selection[k]).Some? <==> Employee(users, selection[k].userId).Some?);
    var body := MapAll(selection, render);
    if body.Some? {
      var csv := [ExportHeader] + body.value;
      assert forall k :: 0 <= k < |selection| ==> csv[k + 1] == body.value[k];
    }
  }

  /** `exportAttendanceToCSV($businessId, $startDate, $endDate)`. */
  method ExportAttendanceToCsv(summaries: seq<SummaryRow>, users: seq<User>, codeOf: int -> Option<string>,
                               businessId: int, startDate: int, endDate: int)
    returns (csvData: Option<seq<seq<CsvCell>>>)
    ensures csvData == ExportCsv(ExportSelection(summaries, businessId, startDate, endDate), users, codeOf)
  {
    var attendanceData := ExportSelection(summaries, businessId, startDate, endDate);
    var body := CollectRows(attendanceData, RenderRow(users, codeOf));
    if body.None? {
      return None;
    }
    return Some([ExportHeader] + body.value);
  }

  /** The `foreach` that appends one rendered row per record, stopping at the
      first record that fails to render. */
  method CollectRows(records: seq<SummaryRow>, render: SummaryRow -> Option<seq<CsvCell>>)
    returns (rows: Option<seq<seq<CsvCell>>>)
    ensures rows == MapAll(records, render)
  {
    var csvData: seq<seq<CsvCell>> := [];
    var i := 0;
    assert records[..0] == [];
    while i < |records|
      invariant 0 <= i <= |records|
      invariant MapAll(records[..i], render) == Some(csvData)
    {
      assert records[..i + 1][..i] == records[..i];
      var row := render(records[i]);
      if row.None? {
        MapAllFailed(records, render, i + 1);
        return None;
      }
      csvData := csvData + [row.value];
      i := i + 1;
    }
    assert records[..i] == records;
    return Some(csvData);
  }

  // ---------------------------------------------------------------------------
  // Payroll summary

  /** The array `generateAttendanceSummaryForPayroll` returns. */
  datatype PayrollSummary = PayrollSummary(
    totalDays: nat,
    presentDays: nat,
    absentDays: nat,
    lateDays: nat,
    totalHours: real,
    totalLateMinutes: int,
    attendancePercentage: real,
    punctualityPercentage: real)

  /** The rows fetched: the user's rows in the business within the inclusive range. */
  function PayrollRows(summaries: seq<SummaryRow>, userId: int, businessId: int, startDate: int, endDate: int): seq<SummaryRow>
  {
    DateRangeScope(Filter(summaries, OfUserInBusiness(userId, businessId)), startDate, endDate)
  }

  function SumHours(rows: seq<SummaryRow>): real
  {
    if rows == [] then 0.0 else SumHours(rows[..|rows| - 1]) + rows[|rows| - 1].totalHours
  }

  function SumLateMinutes(rows: seq<SummaryRow>): int
  {
    if rows == [] then 0 else SumLateMinutes(rows[..|rows| - 1]) + rows[|rows| - 1].lateMinutes
  }

  /** The method as written: after `get()` the rows are a collection, and the
      collection has no `present()` method, so the call throws whatever the rows. */
  function PayrollAsWritten(summaries: seq<SummaryRow>, userId: int, businessId: int, startDate: int, endDate: int): (r: Option<PayrollSummary>)
  {
    None
  }

  /** The as-written summary never returns. */
  lemma PayrollAsWrittenFails(summaries: seq<SummaryRow>, userId: int, businessId: int, startDate: int, endDate: int)
    ensures PayrollAsWritten(summaries, userId, businessId, startDate, endDate).None?
  {
  }

  predicate ZeroLate(x: SummaryRow) { x.lateMinutes == 0 }

  /** The counting rules the method evidently means, with each scope applied as
      a query to the fetched rows: attendance is present days over working
      days, punctuality is zero-late rows over present days. */
  function PayrollIntended(rows: seq<SummaryRow>): (s: PayrollSummary)
    ensures s.totalDays == |rows|
    ensures s.presentDays + s.absentDays <= s.totalDays && s.lateDays <= s.totalDays
  {
    var present := Count(rows, IsAttended);
    var absent := Count(rows, IsAbsent);
    var working := Count(rows, IsWorkingDayRow);
    var punctual := Count(rows, ZeroLate);
    AttendedAbsentDisjoint(rows);
    CountMonotone(rows, HasLateMinutes, (x: SummaryRow) => true);
    CountAll(rows);
    PayrollSummary(
      |rows|, present, absent, Count(rows, HasLateMinutes), SumHours(rows), SumLateMinutes(rows),
      if working > 0 then Round2((present as real / working as real) * 100.0) else 0.0,
      if present > 0 then Round2((punctual as real / present as real) * 100.0) else 0.0)
  }

  /** Every element is counted by the always-true predicate. */
  lemma {:induction false} CountAll<T>(s: seq<T>)
    ensures Count(s, (x: T) => true) == |s|
  {
    if s != [] {
      CountAll(s[..|s| - 1]);
    }
  }

  /** An attended row is never absent, so the two counts add up to at most the rows. */
  lemma AttendedAbsentDisjoint(rows: seq<SummaryRow>)
    ensures Count(rows, IsAttended) + Count(rows, IsAbsent) <= |rows|
  {
    var either := (x: SummaryRow) => IsAttended(x) || IsAbsent(x);
    CountSplit(rows, either, IsAttended, IsAttended, IsAbsent);
    CountMonotone(rows, either, (x: SummaryRow) => true);
    CountAll(rows);
  }

  function Row(id: int, status: string, lateMinutes: int, isWeekend: bool): SummaryRow
  {
    SummaryRow(id, 1, 1, id, status, None, None, 0.0, lateMinutes, 0, false, isWeekend)
  }

  /** The intended ratios still exceed 100: a present weekend row counts as
      present but not as a working day, and an absent row has zero late minutes
      and so counts as punctual. */
  lemma PayrollIntendedExceeds()
    ensures PayrollIntended([Row(1, "present", 0, false), Row(2, "present", 0, true)]).attendancePercentage == 200.0
    ensures PayrollIntended([Row(1, "present", 0, false), Row(2, "absent", 0, false)]).punctualityPercentage == 200.0
  {
    var a := [Row(1, "present", 0, false), Row(2, "present", 0, true)];
    assert a == [a[0]] + [a[1]];
    assert Count(a, IsAttended) == 2 by { assert Filter(a, IsAttended) == a; }
    assert Count(a, IsWorkingDayRow) == 1 by { assert Filter(a, IsWorkingDayRow) == [a[0]]; }
    Round2Whole(200);
    var b := [Row(1, "present", 0, false), Row(2, "absent", 0, false)];
    assert Count(b, IsAttended) == 1 by { assert Filter(b, IsAttended) == [b[0]]; }
    assert Count(b, ZeroLate) == 2 by { assert Filter(b, ZeroLate) == b; }
  }

  predicate AttendedWorkingDay(x: SummaryRow) { IsAttended(x) && IsWorkingDayRow(x) }

  predicate AttendedOnTime(x: SummaryRow) { IsAttended(x) && x.lateMinutes == 0 }

  /** The corrected summary: attendance counts attended working days over
      working days, and punctuality counts on-time attended days over attended
      days, so both ratios lie in [0, 100]. */
  function PayrollCorrected(rows: seq<SummaryRow>): (s: PayrollSummary)
    ensures s.totalDays == |rows|
    ensures s.presentDays + s.absentDays <= s.totalDays && s.lateDays <= s.totalDays
    ensures 0.0 <= s.attendancePercentage <= 100.0 && 0.0 <= s.punctualityPercentage <= 100.0
    ensures Count(rows, IsWorkingDayRow) == 0 ==> s.attendancePercentage == 0.0
    ensures s.presentDays == 0 ==> s.punctualityPercentage == 0.0
  {
    var present := Count(rows, IsAttended);
    var working := Count(rows, IsWorkingDayRow);
    AttendedAbsentDisjoint(rows);
    CountMonotone(rows, HasLateMinutes, (x: SummaryRow) => true);
    CountAll(rows);
    CountMonotone(rows, AttendedWorkingDay, IsWorkingDayRow);
    CountMonotone(rows, AttendedOnTime, IsAttended);
    PayrollSummary(
      |rows|, present, Count(rows, IsAbsent), Count(rows, HasLateMinutes), SumHours(rows), SumLateMinutes(rows),
      RoundedPercentage(Count(rows, AttendedWorkingDay), working),
      RoundedPercentage(Count(rows, AttendedOnTime), present))
  }

  /** The corrected summary agrees with the intended one on every count and
      sum, and on the ratios whenever every attended row is an on-time working
      day and every working-day row is attended or absent. */
  lemma PayrollCorrectedAgrees(rows: seq<SummaryRow>)
    ensures var c := PayrollCorrected(rows);
            var i := PayrollIntended(rows);
            c.(attendancePercentage := 0.0, punctualityPercentage := 0.0)
            == i.(attendancePercentage := 0.0, punctualityPercentage := 0.0)
    ensures (forall k :: 0 <= k < |rows| ==> IsAttended(rows[k]) == IsWorkingDayRow(rows[k]))
            ==> PayrollCorrected(rows).attendancePercentage == PayrollIntended(rows).attendancePercentage
  {
    if forall k :: 0 <= k < |rows| ==> IsAttended(rows[k]) == IsWorkingDayRow(rows[k]) {
      CountCongruent(rows, AttendedWorkingDay, IsWorkingDayRow);
      CountCongruent(rows, IsAttended, IsWorkingDayRow);
    }
  }

  /** `generateAttendanceSummaryForPayroll($userId, $businessId, $startDate, $endDate)`
      with the counting rules corrected. */
  function PayrollSummaryFor(summaries: seq<SummaryRow>, userId: int, businessId: int, startDate: int, endDate: int): (s: PayrollSummary)
    ensures s.totalDays == |PayrollRows(summaries, userId, businessId, startDate, endDate)|
    ensures 0.0 <= s.attendancePercentage <= 100.0 && 0.0 <= s.punctualityPercentage <= 100.0
  {
    PayrollCorrected(PayrollRows(summaries, userId, businessId, startDate, endDate))
  }
}
