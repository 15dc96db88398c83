/** The analytics of Modules/Essentials/Http/Controllers/EnhancedAttendanceController.php:
    the working-day counter, the 21-day inactivity list, the dashboard's fixed
    thresholds, the monthly average attendance, and the 21-day calendar and
    statistics of one employee. The clock (`Carbon::today()`) and the month
    boundaries are parameters. */
module Dashboard {
  import opened Common
  import opened Calendar
  import opened Tables
  import opened EmployeeSettings
  import opened AttendanceSummary
  import opened AttendanceDb
  import opened AttendanceDay

  // ---------------------------------------------------------------------------
  // Working days

  /** The days of [startDate, endDate] that are neither Saturday nor Sunday. */
  function WorkingDaysBetween(startDate: int, endDate: int): (n: nat)
    ensures startDate > endDate ==> n == 0
    ensures startDate <= endDate ==> n <= endDate - startDate + 1
    decreases endDate - startDate
  {
    if startDate > endDate then 0
    else WorkingDaysBetween(startDate, endDate - 1) + (if IsWeekend(endDate) then 0 else 1)
  }

  /** `getWorkingDaysBetween($startDate, $endDate)`. */
  method GetWorkingDaysBetween(startDate: int, endDate: int) returns (count: nat)
    ensures count == WorkingDaysBetween(startDate, endDate)
  {
    count := 0;
    var currentDate := startDate;
    while currentDate <= endDate
      invariant startDate <= currentDate && (currentDate <= endDate + 1 || currentDate == startDate)
      invariant count == WorkingDaysBetween(startDate, currentDate - 1)
      decreases endDate - currentDate
    {
      if !IsWeekend(currentDate) {
        count := count + 1;
      }
      currentDate := currentDate + 1;
    }
  }

  /** A range cut in two counts as its two parts. */
  lemma {:induction false} WorkingDaysSplit(startDate: int, middle: int, endDate: int)
    requires startDate - 1 <= middle <= endDate
    ensures WorkingDaysBetween(startDate, endDate)
         == WorkingDaysBetween(startDate, middle) + WorkingDaysBetween(middle + 1, endDate)
    decreases endDate - middle
  {
    if middle < endDate {
      WorkingDaysSplit(startDate, middle, endDate - 1);
    }
  }

  /** Any seven consecutive days hold exactly five working days. */
  lemma WeekHasFiveWorkingDays(day: int)
    ensures WorkingDaysBetween(day, day + 6) == 5
  {
    WeekdayStep(day);
    WeekdayStep(day + 1);
    WeekdayStep(day + 2);
    WeekdayStep(day + 3);
    WeekdayStep(day + 4);
    WeekdayStep(day + 5);
    assert WorkingDaysBetween(day, day + 6) == WorkingDaysBetween(day, day + 5) + (if IsWeekend(day + 6) then 0 else 1);
    assert WorkingDaysBetween(day, day + 5) == WorkingDaysBetween(day, day + 4) + (if IsWeekend(day + 5) then 0 else 1);
    assert WorkingDaysBetween(day, day + 4) == WorkingDaysBetween(day, day + 3) + (if IsWeekend(day + 4) then 0 else 1);
    assert WorkingDaysBetween(day, day + 3) == WorkingDaysBetween(day, day + 2) + (if IsWeekend(day + 3) then 0 else 1);
    assert WorkingDaysBetween(day, day + 2) == WorkingDaysBetween(day, day + 1) + (if IsWeekend(day + 2) then 0 else 1);
    assert WorkingDaysBetween(day, day + 1) == WorkingDaysBetween(day, day) + (if IsWeekend(day + 1) then 0 else 1);
    assert WorkingDaysBetween(day, day) == if IsWeekend(day) then 0 else 1;
  }

  /** Every full week of a range contributes exactly five working days. */
  lemma {:induction false} FullWeeks(day: int, weeks: nat)
    ensures WorkingDaysBetween(day, day + 7 * weeks - 1) == 5 * weeks
  {
    if weeks > 0 {
      FullWeeks(day, weeks - 1);
      WorkingDaysSplit(day, day + 7 * (weeks - 1) - 1, day + 7 * weeks - 1);
      WeekHasFiveWorkingDays(day + 7 * (weeks - 1));
    }
  }

  /** The 22 days from `today - 21` to `today` hold at most 16 working days. */
  lemma InactivityWindowWorkingDays(today: int)
    ensures WorkingDaysBetween(today - 21, today) <= 16
  {
    FullWeeks(today - 21, 3);
    WorkingDaysSplit(today - 21, today - 1, today);
  }

  /** The working days of a range, as a set of day numbers. */
  function WorkingDaySet(startDate: int, endDate: int): set<int>
  {
    set d | startDate <= d <= endDate && !IsWeekend(d)
  }

  lemma {:induction false} WorkingDaySetSize(startDate: int, endDate: int)
    ensures |WorkingDaySet(startDate, endDate)| == WorkingDaysBetween(startDate, endDate)
    decreases endDate - startDate
  {
    if startDate <= endDate {
      WorkingDaySetSize(startDate, endDate - 1);
      assert WorkingDaySet(startDate, endDate)
          == WorkingDaySet(startDate, endDate - 1) + (if IsWeekend(endDate) then {} else {endDate});
    } else {
      assert WorkingDaySet(startDate, endDate) == {};
    }
  }

  // ---------------------------------------------------------------------------
  // Inactive employees

  /** The rows counted for one employee: absent, on a working day, dated on or
      after `startDate`, with no upper bound on the date. */
  function AbsentSince(userId: int, businessId: int, startDate: int): SummaryRow -> bool
  {
    (x: SummaryRow) => x.userId == userId && x.businessId == businessId && x.date >= startDate
      && x.status == "absent" && IsWorkingDayRow(x)
  }

  const InactivityThreshold: int := 21

  /** One entry of the inactivity list (the employee is named by user id). */
  datatype InactiveEmployee = InactiveEmployee(userId: int, absentDays: nat)

  /** The entry an active settings row contributes, if any. */
  function InactiveEntry(summaries: seq<SummaryRow>, businessId: int, startDate: int): SettingsRow -> Option<InactiveEmployee>
  {
    (s: SettingsRow) =>
      var absentDays := Count(summaries, AbsentSince(s.userId, businessId, startDate));
      if absentDays >= InactivityThreshold then Some(InactiveEmployee(s.userId, absentDays)) else None
  }

  /** The active employees of the business, in settings order. */
  function ActiveEmployees(settings: seq<SettingsRow>, businessId: int): seq<SettingsRow>
  {
    ActiveScope(EmployeeSettings.ForBusiness(settings, businessId))
  }

  function InactiveEmployees(settings: seq<SettingsRow>, summaries: seq<SummaryRow>, businessId: int, startDate: int): seq<InactiveEmployee>
  {
    FilterMap(ActiveEmployees(settings, businessId), InactiveEntry(summaries, businessId, startDate))
  }

  /** `getInactiveEmployees($businessId, $startDate)`. */
  method GetInactiveEmployees(settings: seq<SettingsRow>, summaries: seq<SummaryRow>, businessId: int, startDate: int)
    returns (inactiveEmployees: seq<InactiveEmployee>)
    ensures inactiveEmployees == InactiveEmployees(settings, summaries, businessId, startDate)
  {
    var employees := ActiveEmployees(settings, businessId);
    inactiveEmployees := CollectInactive(employees, summaries, businessId, startDate);
  }

  /** The loop of `getInactiveEmployees` over the active employees. */
  method CollectInactive(employees: seq<SettingsRow>, summaries: seq<SummaryRow>, businessId: int, startDate: int)
    returns (inactiveEmployees: seq<InactiveEmployee>)
    ensures inactiveEmployees == FilterMap(employees, InactiveEntry(summaries, businessId, startDate))
  {
    ghost var entry := InactiveEntry(summaries, businessId, startDate);
    inactiveEmployees := [];
    for i := 0 to |employees|
      invariant inactiveEmployees == FilterMap(employees[..i], entry)
    {
      var employeeSetting := employees[i];
      var absentDays := Count(summaries, AbsentSince(employeeSetting.userId, businessId, startDate));
      assert entry(employeeSetting) == if absentDays >= InactivityThreshold
        then Some(InactiveEmployee(employeeSetting.userId, absentDays)) else None;
      FilterMapSnoc(employees[..i], employeeSetting, entry);
      assert employees[..i + 1] == employees[..i] + [employeeSetting];
      if absentDays >= InactivityThreshold {
        inactiveEmployees := inactiveEmployees + [InactiveEmployee(employeeSetting.userId, absentDays)];
      }
    }
    assert employees[..|employees|] == employees;
  }

  /** `e` is what an active settings row `s` of the business contributes. */
  predicate Qualifies(summaries: seq<SummaryRow>, businessId: int, startDate: int, s: SettingsRow, e: InactiveEmployee)
  {
    && s.businessId == businessId && s.status == "active" && e.userId == s.userId
    && e.absentDays == Count(summaries, AbsentSince(s.userId, businessId, startDate))
    && e.absentDays >= 21
  }

  /** An employee is listed exactly when an active settings row of the business
      has at least 21 counted rows (21 qualifies, 20 does not), and is listed
      with that count. */
  lemma InactiveListing(settings: seq<SettingsRow>, summaries: seq<SummaryRow>, businessId: int, startDate: int)
    ensures forall e :: e in InactiveEmployees(settings, summaries, businessId, startDate) <==>
      exists s :: s in settings && Qualifies(summaries, businessId, startDate, s, e)
  {
    var employees := ActiveEmployees(settings, businessId);
    var entry := InactiveEntry(summaries, businessId, startDate);
    FilterMapMembers(employees, entry);
    forall e | e in InactiveEmployees(settings, summaries, businessId, startDate)
      ensures exists s :: s in settings && Qualifies(summaries, businessId, startDate, s, e)
    {
      var i :| 0 <= i < |employees| && entry(employees[i]) == Some(e);
      assert employees[i] in employees;
      assert Qualifies(summaries, businessId, startDate, employees[i], e);
    }
    forall e, s | s in settings && Qualifies(summaries, businessId, startDate, s, e)
      ensures e in InactiveEmployees(settings, summaries, businessId, startDate)
    {
      assert s in employees;
      var i :| 0 <= i < |employees| && employees[i] == s;
      assert entry(employees[i]) == Some(e);
    }
  }

  /** With one summary row per (user, business, date), weekend flags that agree
      with the calendar and no row dated after today, an employee has at most
      16 counted rows in the window that starts at `today - 21`: the window spans
      22 days, of which at most 16 are working days. */
  lemma AbsentDaysAtMost16(summaries: seq<SummaryRow>, userId: int, businessId: int, today: int)
    requires UniqueKeys(summaries, SummaryKey)
    requires forall i :: 0 <= i < |summaries| ==> summaries[i].date <= today
    requires forall i :: 0 <= i < |summaries| ==> summaries[i].isWeekend == IsWeekend(summaries[i].date)
    ensures Count(summaries, AbsentSince(userId, businessId, today - 21)) <= 16
  {
    var p := AbsentSince(userId, businessId, today - 21);
    var f := Filter(summaries, p);
    FilterKeepsUnique(summaries, SummaryKey, p);
    FilterMembers(summaries, p);
    forall i, j | 0 <= i < j < |f|
      ensures DateKey(f[i]) != DateKey(f[j])
    {
      assert f[i] in f && f[j] in f;
      assert SummaryKey(f[i]) != SummaryKey(f[j]);
    }
    DistinctImage(f, DateKey);
    forall d | d in Image(f, DateKey)
      ensures d in WorkingDaySet(today - 21, today)
    {
      var i :| 0 <= i < |f| && DateKey(f[i]) == d;
      assert f[i] in f;
      assert f[i] in summaries && p(f[i]);
      var j :| 0 <= j < |summaries| && summaries[j] == f[i];
    }
    SubsetSize(Image(f, DateKey), WorkingDaySet(today - 21, today));
    WorkingDaySetSize(today - 21, today);
    InactivityWindowWorkingDays(today);
  }

  /** The date of a summary row, its key within one employee's rows. */
  function DateKey(r: SummaryRow): int { r.date }

  /** Under those same conditions the dashboard's inactivity list is always
      empty: a threshold of 21 absent working days cannot be met in a window
      of 22 days. */
  lemma InactivityUnreachable(settings: seq<SettingsRow>, summaries: seq<SummaryRow>, businessId: int, today: int)
    requires UniqueKeys(summaries, SummaryKey)
    requires forall i :: 0 <= i < |summaries| ==> summaries[i].date <= today
    requires forall i :: 0 <= i < |summaries| ==> summaries[i].isWeekend == IsWeekend(summaries[i].date)
    ensures InactiveEmployees(settings, summaries, businessId, today - 21) == []
  {
    var employees := ActiveEmployees(settings, businessId);
    var entry := InactiveEntry(summaries, businessId, today - 21);
    forall i | 0 <= i < |employees|
      ensures entry(employees[i]).None?
    {
      AbsentDaysAtMost16(summaries, employees[i].userId, businessId, today);
    }
    FilterMapNone(employees, entry);
  }

  // ---------------------------------------------------------------------------
  // Dashboard figures

  /** "Punctual today": clocked in at or before 08:00:00 with status present or
      late. A NULL clock-in never compares, so it does not count. */
  function PunctualToday(businessId: int, today: int): SummaryRow -> bool
  {
    (x: SummaryRow) => x.businessId == businessId && x.date == today
      && x.clockIn.Some? && x.clockIn.value <= 8 * SecondsPerHour && x.status in {"present", "late"}
  }

  /** "Late today": more than 15 late minutes, whatever the employee's own grace. */
  function LateToday(businessId: int, today: int): SummaryRow -> bool
  {
    (x: SummaryRow) => x.businessId == businessId && x.date == today && x.lateMinutes > 15
  }

  /** The thresholds against the import's grace rule, for an employee on the
      default schedule (08:00, 15 minutes of grace): a punctual arrival is
      present and not late today; "late today" starts at 08:16:00, whereas the
      status `late` starts just after 08:15:00, so an arrival within the minute
      after 08:15:00 is late but not counted as late today. */
  lemma DefaultScheduleThresholds(userId: int, businessId: int, date: int, punches: seq<int>, id: int)
    requires |punches| > 0
    requires forall i :: 0 <= i < |punches| ==> DateOf(punches[i]) == date
    ensures var r := SummaryWrite(userId, businessId, date, EvaluateDay(8 * 3600, 15, businessId, date, punches)).create(id);
      var arrival := TimeOfDay(SeqMin(punches));
      && (PunctualToday(businessId, date)(r) ==> r.status == "present" && !LateToday(businessId, date)(r))
      && (r.status == "late" <==> arrival > 8 * 3600 + 15 * 60)
      && (LateToday(businessId, date)(r) <==> arrival >= 8 * 3600 + 16 * 60)
  {
    DayClocks(8 * 3600, 15, businessId, date, punches);
    DayStatus(8 * 3600, 15, businessId, date, punches);
    var clockIn := SeqMin(punches);
    var i :| 0 <= i < |punches| && punches[i] == clockIn;
    assert DateOf(clockIn) == date;
    assert TimeOfDay(clockIn) == clockIn - date * 86400;
  }

  /** `getMonthlyStats()`. */
  datatype MonthlyStats = MonthlyStats(
    totalWorkingDays: nat,
    averageAttendance: real,
    totalLateArrivals: nat,
    totalEarlyLeaves: nat)

  /** `getDashboardStats()`. */
  datatype DashboardStats = DashboardStats(
    totalEmployees: nat,
    punctualToday: nat,
    lateToday: nat,
    inactiveEmployees: nat,
    monthlyStats: MonthlyStats,
    inactiveEmployeeList: seq<InactiveEmployee>)

  /** The attended working-day rows of the business within the range. */
  function AttendedInRange(businessId: int, startDate: int, endDate: int): SummaryRow -> bool
  {
    (x: SummaryRow) => x.businessId == businessId && startDate <= x.date <= endDate
      && IsAttended(x) && IsWorkingDayRow(x)
  }

  /** `getAverageAttendance()`: attended working-day rows over (active employees ×
      working days), as a percentage rounded to two decimals, or 0 when there is
      nothing to divide by. */
  function AverageAttendance(settings: seq<SettingsRow>, summaries: seq<SummaryRow>, businessId: int,
                             startDate: int, endDate: int): (p: real)
    ensures var possible := |ActiveEmployees(settings, businessId)| * WorkingDaysBetween(startDate, endDate);
            var actual := Count(summaries, AttendedInRange(businessId, startDate, endDate));
            && (possible == 0 ==> p == 0.0)
            && p >= 0.0
            && (possible > 0 ==> -0.005 <= p - (actual as real / possible as real) * 100.0 <= 0.005)
  {
    var possible := |ActiveEmployees(settings, businessId)| * WorkingDaysBetween(startDate, endDate);
    if possible == 0 then 0.0
    else Round2((Count(summaries, AttendedInRange(businessId, startDate, endDate)) as real / possible as real) * 100.0)
  }

  /** The average is not bounded by 100: attended rows of employees who are not
      active still count. One active and one inactive employee both present on
      one Monday give 200. */
  lemma AverageAttendanceCanExceed100()
    ensures var active := DefaultRow(1, 1, 1);
            var inactive := DefaultRow(2, 2, 1).(status := "inactive");
            var row := SummaryRow(1, 1, 1, 4, "present", Some(8 * 3600), None, 0.0, 0, 0, false, false);
            AverageAttendance([active, inactive], [row, row.(id := 2, userId := 2)], 1, 4, 4) == 200.0
  {
    var active := DefaultRow(1, 1, 1);
    var inactive := DefaultRow(2, 2, 1).(status := "inactive");
    var row := SummaryRow(1, 1, 1, 4, "present", Some(8 * 3600), None, 0.0, 0, 0, false, false);
    var row2 := row.(id := 2, userId := 2);
    var settings := [active, inactive];
    var summaries := [row, row2];
    assert Weekday(4) == 1;
    assert WorkingDaysBetween(4, 4) == 1;
    var byBusiness := EmployeeSettings.ForBusiness(settings, 1);
    assert settings[..1] == [active];
    assert byBusiness == settings;
    assert ActiveScope(byBusiness) == [active] by {
      assert byBusiness[..1] == [active];
    }
    FilterSnoc([], row, AttendedInRange(1, 4, 4));
    FilterSnoc([row], row2, AttendedInRange(1, 4, 4));
    assert [row] + [row2] == summaries;
    Round2Whole(200);
  }

  /** `getMonthlyStats($businessId, $startOfMonth, $endOfMonth)`. */
  function GetMonthlyStats(settings: seq<SettingsRow>, summaries: seq<SummaryRow>, businessId: int,
                           startDate: int, endDate: int): MonthlyStats
  {
    var inRange := DateRangeScope(AttendanceSummary.ForBusiness(summaries, businessId), startDate, endDate);
    MonthlyStats(
      WorkingDaysBetween(startDate, endDate),
      AverageAttendance(settings, summaries, businessId, startDate, endDate),
      |LateScope(inRange)|,
      Count(inRange, HasEarlyLeave))
  }

  /** `getDashboardStats($businessId)`, with today and the bounds of its month given. */
  function GetDashboardStats(settings: seq<SettingsRow>, summaries: seq<SummaryRow>, businessId: int,
                             today: int, startOfMonth: int, endOfMonth: int): (stats: DashboardStats)
    ensures stats.inactiveEmployees == |stats.inactiveEmployeeList|
  {
    var inactive := InactiveEmployees(settings, summaries, businessId, today - 21);
    DashboardStats(
      |ActiveEmployees(settings, businessId)|,
      Count(summaries, PunctualToday(businessId, today)),
      Count(summaries, LateToday(businessId, today)),
      |inactive|,
      GetMonthlyStats(settings, summaries, businessId, startOfMonth, endOfMonth),
      inactive)
  }

  /** The monthly counts stay within the month's rows of the business, and on
      rows written by the import (which never records an early leave) the early
      leaves are 0. */
  lemma MonthlyStatsBounds(settings: seq<SettingsRow>, summaries: seq<SummaryRow>, businessId: int,
                           startDate: int, endDate: int)
    ensures var m := GetMonthlyStats(settings, summaries, businessId, startDate, endDate);
            var inRange := DateRangeScope(AttendanceSummary.ForBusiness(summaries, businessId), startDate, endDate);
            && m.totalLateArrivals <= |inRange| && m.totalEarlyLeaves <= |inRange|
            && m.totalWorkingDays <= (if startDate <= endDate then endDate - startDate + 1 else 0)
            && ((forall i :: 0 <= i < |summaries| ==> summaries[i].earlyLeaveMinutes == 0) ==> m.totalEarlyLeaves == 0)
  {
    var inRange := DateRangeScope(AttendanceSummary.ForBusiness(summaries, businessId), startDate, endDate);
    if forall i :: 0 <= i < |summaries| ==> summaries[i].earlyLeaveMinutes == 0 {
      forall i | 0 <= i < |inRange|
        ensures !HasEarlyLeave(inRange[i])
      {
        assert inRange[i] in inRange;
        assert inRange[i] in summaries;
      }
      CountNone(inRange, HasEarlyLeave);
    }
  }

  // ---------------------------------------------------------------------------
  // One employee's 21 days

  /** The last row with the given date, if any. */
  function LastOn(rows: seq<SummaryRow>, date: int): (r: Option<SummaryRow>)
    ensures r.Some? ==> r.value in rows && r.value.date == date
    ensures r.None? <==> forall i :: 0 <= i < |rows| ==> rows[i].date != date
  {
    if rows == [] then None
    else if rows[|rows| - 1].date == date then Some(rows[|rows| - 1])
    else LastOn(rows[..|rows| - 1], date)
  }

  /** The keyed row of a date is overwritten by the row read. */
  function Replace(row: SummaryRow): SummaryRow -> SummaryRow
  {
    (x: SummaryRow) => if x.date == row.date then row else x
  }

  /** `->keyBy('date')`: one row per date, at the position the date first
      appeared, holding the last row read with that date. */
  function KeyByDate(rows: seq<SummaryRow>): seq<SummaryRow>
  {
    if rows == [] then []
    else
      var last := rows[|rows| - 1];
      Upsert(KeyByDate(rows[..|rows| - 1]), DateKey, last.date, Replace(last), last)
  }

  /** Keyed rows have distinct dates, and looking a date up finds the last row
      read with that date. */
  lemma {:induction false} KeyByDateLookup(rows: seq<SummaryRow>)
    ensures UniqueKeys(KeyByDate(rows), DateKey)
    ensures forall d :: Lookup(KeyByDate(rows), DateKey, d) == LastOn(rows, d)
  {
    if rows != [] {
      var init := rows[..|rows| - 1];
      var last := rows[|rows| - 1];
      var before := KeyByDate(init);
      KeyByDateLookup(init);
      UpsertKeepsUnique(before, DateKey, last.date, Replace(last), last);
      UpsertLookup(before, DateKey, last.date, Replace(last), last);
      forall d | d != last.date
        ensures Lookup(KeyByDate(rows), DateKey, d) == LastOn(rows, d)
      {
        UpsertOtherKey(before, DateKey, last.date, Replace(last), last, d);
      }
    }
  }

  /** Every keyed row is one of the rows read. */
  lemma {:induction false} KeyByDateMembers(rows: seq<SummaryRow>)
    ensures forall x :: x in KeyByDate(rows) ==> x in rows
  {
    if rows != [] {
      var init := rows[..|rows| - 1];
      var last := rows[|rows| - 1];
      KeyByDateMembers(init);
      var before := KeyByDate(init);
      var after := KeyByDate(rows);
      forall x | x in after
        ensures x in rows
      {
        var k :| 0 <= k < |after| && after[k] == x;
        if k < |before| && after[k] == before[k] {
          assert before[k] in before;
        }
      }
    }
  }

  /** The employee's rows within the range, in table order. */
  function Window(summaries: seq<SummaryRow>, userId: int, businessId: int, startDate: int, endDate: int): seq<SummaryRow>
  {
    DateRangeScope(Filter(summaries, OfUserInBusiness(userId, businessId)), startDate, endDate)
  }

  /** The employee's rows within the range, keyed by date. */
  function AttendanceData(summaries: seq<SummaryRow>, userId: int, businessId: int, startDate: int, endDate: int): seq<SummaryRow>
  {
    KeyByDate(Window(summaries, userId, businessId, startDate, endDate))
  }

  /** One day of the calendar. */
  datatype CalendarDay = CalendarDay(date: int, attendance: Option<SummaryRow>, isWeekend: bool, isToday: bool)

  /** The key `keyBy('date')` files a row under: its `date` attribute, cast to a
      date at midnight, turned into a string; `render` is `toDateString()`. */
  function CastDateKey(render: int -> string): SummaryRow -> string
  {
    (r: SummaryRow) => MidnightString(render, r.date)
  }

  /** One entry of the calendar loop: `$attendanceData->get($dateStr)` with
      `$dateStr` the day's `toDateString()`. */
  function CalendarEntry(render: int -> string, data: seq<SummaryRow>, date: int, today: int): CalendarDay
  {
    CalendarDay(date, Lookup(data, CastDateKey(render), render(date)), IsWeekend(date), date == today)
  }

  /** The calendar loop of `userAttendanceSummary`, from `today - 20` to `today`. */
  method BuildCalendar(render: int -> string, data: seq<SummaryRow>, today: int) returns (calendar: seq<CalendarDay>)
    ensures |calendar| == 21
    ensures forall k :: 0 <= k < 21 ==> calendar[k] == CalendarEntry(render, data, today - 20 + k, today)
  {
    var startDate := today - 20;
    var endDate := today;
    calendar := [];
    var currentDate := startDate;
    while currentDate <= endDate
      invariant startDate <= currentDate <= endDate + 1
      invariant |calendar| == currentDate - startDate
      invariant forall k :: 0 <= k < |calendar| ==> calendar[k] == CalendarEntry(render, data, today - 20 + k, today)
      decreases endDate - currentDate
    {
      var dateStr := render(currentDate);
      var attendance := Lookup(data, CastDateKey(render), dateStr);
      calendar := calendar + [CalendarDay(currentDate, attendance, IsWeekend(currentDate), currentDate == today)];
      currentDate := currentDate + 1;
    }
  }

  /** No key of the keyed rows is a `toDateString()`, so every lookup misses. */
  lemma CalendarLookupMisses(render: int -> string, data: seq<SummaryRow>, date: int)
    requires DateRendering(render)
    ensures Lookup(data, CastDateKey(render), render(date)) == None
  {
    forall i | 0 <= i < |data|
      ensures CastDateKey(render)(data[i]) != render(date)
    {
      MidnightNeverDateString(render, data[i].date, date);
    }
  }

  /** The calendar as written lists 21 consecutive ascending dates ending today;
      only the last entry is today; each entry's weekend flag is the calendar's;
      and no entry carries an attendance row, whatever rows were read. */
  lemma CalendarShape(render: int -> string, data: seq<SummaryRow>, today: int, calendar: seq<CalendarDay>)
    requires DateRendering(render)
    requires |calendar| == 21
    requires forall k :: 0 <= k < 21 ==> calendar[k] == CalendarEntry(render, data, today - 20 + k, today)
    ensures calendar[0].date == today - 20 && calendar[20].date == today
    ensures forall k :: 0 <= k < 20 ==> calendar[k + 1].date == calendar[k].date + 1
    ensures forall k :: 0 <= k < 21 ==> (calendar[k].isToday <==> k == 20)
    ensures forall k :: 0 <= k < 21 ==> calendar[k].isWeekend == IsWeekend(calendar[k].date)
    ensures forall k :: 0 <= k < 21 ==> calendar[k].attendance == None
  {
    forall k | 0 <= k < 21
      ensures calendar[k].date == today - 20 + k && (calendar[k].isToday <==> k == 20)
      ensures calendar[k].isWeekend == IsWeekend(calendar[k].date)
    {
      assert calendar[k] == CalendarEntry(render, data, today - 20 + k, today);
    }
    NoAttendanceShown(render, data, today, calendar);
  }

  /** No entry of the calendar as written carries an attendance row. */
  lemma NoAttendanceShown(render: int -> string, data: seq<SummaryRow>, today: int, calendar: seq<CalendarDay>)
    requires DateRendering(render)
    requires |calendar| == 21
    requires forall k :: 0 <= k < 21 ==> calendar[k] == CalendarEntry(render, data, today - 20 + k, today)
    ensures forall k :: 0 <= k < 21 ==> calendar[k].attendance == None
  {
    forall k | 0 <= k < 21
      ensures calendar[k].attendance == None
    {
      assert calendar[k].attendance == Lookup(data, CastDateKey(render), render(today - 20 + k));
      CalendarLookupMisses(render, data, today - 20 + k);
    }
  }

  /** The discrepancy: an employee with a row on a day of the window still gets
      no attendance on that day's calendar entry, with the dates rendered as
      `toDateString()` renders them. */
  lemma CalendarMissesRows(summaries: seq<SummaryRow>, userId: int, businessId: int, today: int, date: int, row: SummaryRow)
    requires today - 20 <= date <= today
    requires row in summaries && row.userId == userId && row.businessId == businessId && row.date == date
    ensures LastOn(Window(summaries, userId, businessId, today - 20, today), date).Some?
    ensures CalendarEntry(DateString, AttendanceData(summaries, userId, businessId, today - 20, today), date, today).attendance == None
  {
    WindowHasRow(summaries, userId, businessId, today, row);
    DateStringIsDateRendering();
    CalendarLookupMisses(DateString, AttendanceData(summaries, userId, businessId, today - 20, today), date);
  }

  /** A row of the employee dated within the window is read into the window. */
  lemma WindowHasRow(summaries: seq<SummaryRow>, userId: int, businessId: int, today: int, row: SummaryRow)
    requires row in summaries && row.userId == userId && row.businessId == businessId
    requires today - 20 <= row.date <= today
    ensures LastOn(Window(summaries, userId, businessId, today - 20, today), row.date).Some?
  {
    var window := Window(summaries, userId, businessId, today - 20, today);
    FilterMembers(summaries, OfUserInBusiness(userId, businessId));
    assert row in window;
    var i :| 0 <= i < |window| && window[i] == row;
  }

  /** The calendar entry the view evidently expects: the day looked up by its
      own date (`keyBy` on `toDateString()`), so a day with a row shows it. */
  function CorrectedEntry(data: seq<SummaryRow>, date: int, today: int): CalendarDay
  {
    CalendarDay(date, Lookup(data, DateKey, date), IsWeekend(date), date == today)
  }

  /** In the corrected calendar the attendance shown for a day of the window is
      the employee's last row read for that date in the business, and there is
      none exactly when the employee has no row that day. */
  lemma CalendarAttendance(summaries: seq<SummaryRow>, userId: int, businessId: int, today: int, date: int)
    requires today - 20 <= date <= today
    ensures var found := CorrectedEntry(AttendanceData(summaries, userId, businessId, today - 20, today), date, today).attendance;
      && found == LastOn(Window(summaries, userId, businessId, today - 20, today), date)
      && (found.Some? ==> found.value in summaries && found.value.userId == userId
                          && found.value.businessId == businessId && found.value.date == date)
      && (found.None? <==> forall x :: x in summaries && x.userId == userId && x.businessId == businessId ==> x.date != date)
  {
    var window := Window(summaries, userId, businessId, today - 20, today);
    KeyByDateLookup(window);
    FilterMembers(summaries, OfUserInBusiness(userId, businessId));
    forall x | x in summaries && x.userId == userId && x.businessId == businessId && x.date == date
      ensures LastOn(window, date).Some?
    {
      WindowHasRow(summaries, userId, businessId, today, x);
    }
  }

  /** The statistics of `userAttendanceSummary`. */
  datatype UserStats = UserStats(
    totalPresent: nat,
    totalAbsent: nat,
    totalLate: nat,
    averageHours: real,
    attendancePercentage: real,
    punctualityPercentage: real)

  function NotAbsent(r: SummaryRow): bool { r.status != "absent" }

  function SumTotalHours(rows: seq<SummaryRow>): real
  {
    if rows == [] then 0.0 else SumTotalHours(rows[..|rows| - 1]) + rows[|rows| - 1].totalHours
  }

  /** `round($attendanceData->avg('total_hours'), 2)`: an empty collection's
      average is null, which rounds to 0. */
  function AverageHours(rows: seq<SummaryRow>): (a: real)
    ensures rows == [] ==> a == 0.0
    ensures rows != [] ==> -0.005 <= a - SumTotalHours(rows) / |rows| as real <= 0.005
  {
    if rows == [] then 0.0 else Round2(SumTotalHours(rows) / |rows| as real)
  }

  function GetUserStats(summaries: seq<SummaryRow>, userId: int, businessId: int, today: int): UserStats
  {
    var data := AttendanceData(summaries, userId, businessId, today - 20, today);
    UserStats(
      Count(data, NotAbsent),
      Count(data, IsAbsent),
      Count(data, HasLateMinutes),
      AverageHours(data),
      AttendancePercentage(summaries, userId, businessId, Some(today - 20), Some(today)),
      PunctualityPercentage(summaries, userId, businessId, Some(today - 20), Some(today)))
  }

  /** Present and absent split the keyed rows, so together they count one row
      per date of the window, at most 21; late rows are those with late minutes. */
  lemma UserStatsShape(summaries: seq<SummaryRow>, userId: int, businessId: int, today: int)
    ensures var s := GetUserStats(summaries, userId, businessId, today);
            var data := AttendanceData(summaries, userId, businessId, today - 20, today);
            && s.totalPresent + s.totalAbsent == |data|
            && |data| <= 21
            && s.totalLate == Count(data, HasLateMinutes)
            && 0.0 <= s.attendancePercentage <= 100.0
            && 0.0 <= s.punctualityPercentage <= 100.0
  {
    var window := Window(summaries, userId, businessId, today - 20, today);
    PresentAbsentSplit(KeyByDate(window));
    KeyedWindowSize(summaries, userId, businessId, today);
  }

  /** Every row is either not absent or absent. */
  lemma PresentAbsentSplit(data: seq<SummaryRow>)
    ensures Count(data, NotAbsent) + Count(data, IsAbsent) == |data|
  {
    CountSplit(data, (x: SummaryRow) => true, NotAbsent, NotAbsent, IsAbsent);
    FilterAll(data, (x: SummaryRow) => true);
  }

  /** Keyed by date, the window holds at most one row per day of the window. */
  lemma KeyedWindowSize(summaries: seq<SummaryRow>, userId: int, businessId: int, today: int)
    ensures |AttendanceData(summaries, userId, businessId, today - 20, today)| <= 21
  {
    var window := Window(summaries, userId, businessId, today - 20, today);
    var data := KeyByDate(window);
    KeyByDateLookup(window);
    KeyByDateMembers(window);
    DistinctImage(data, DateKey);
    WindowDaysSize(today);
    forall d | d in Image(data, DateKey)
      ensures d in WindowDays(today)
    {
      var i :| 0 <= i < |data| && DateKey(data[i]) == d;
      assert data[i] in data;
      assert data[i] in window;
    }
    SubsetSize(Image(data, DateKey), WindowDays(today));
  }

  /** The day numbers of the window that ends today. */
  function WindowDays(today: int): set<int>
  {
    Image(seq(21, (i: int) => today - 20 + i), (d: int) => d)
  }

  lemma WindowDaysSize(today: int)
    ensures |WindowDays(today)| == 21
    ensures forall d :: today - 20 <= d <= today ==> d in WindowDays(today)
  {
    var days := seq(21, (i: int) => today - 20 + i);
    DistinctImage(days, (d: int) => d);
    forall d | today - 20 <= d <= today
      ensures d in WindowDays(today)
    {
      assert days[d - today + 20] == d;
    }
  }

}
