/** `processDayAttendance` of
    Modules/Essentials/Services/AttendanceProcessingService.php: the punches of
    one employee on one date give a clock-in, a clock-out, a status, late
    minutes and worked hours, written to the detail row and the summary row. */
module AttendanceDay {
  import opened Common
  import opened Calendar
  import opened Tables
  import opened EmployeeSettings
  import opened AttendanceSummary
  import opened AttendanceDb

  /** The punches (instants) of one employee collected for one date. */
  datatype DayGroup = DayGroup(date: int, punches: seq<int>)

  /** A day group together with its employee. */
  datatype UserDay = UserDay(userId: int, day: DayGroup)

  function SeqMin(s: seq<int>): (m: int)
    requires |s| > 0
    ensures m in s && forall i :: 0 <= i < |s| ==> m <= s[i]
  {
    if |s| == 1 then s[0]
    else
      var rest := SeqMin(s[1..]);
      if s[0] <= rest then s[0] else rest
  }

  function SeqMax(s: seq<int>): (m: int)
    requires |s| > 0
    ensures m in s && forall i :: 0 <= i < |s| ==> s[i] <= m
  {
    if |s| == 1 then s[0]
    else
      var rest := SeqMax(s[1..]);
      if s[0] >= rest then s[0] else rest
  }

  predicate Sorted(s: seq<int>)
  {
    forall i, j :: 0 <= i < j < |s| ==> s[i] <= s[j]
  }

  /** `sort($records)`: ascending, in place, a permutation of the punches. */
  method SortPunches(a: array<int>)
    modifies a
    ensures Sorted(a[..])
    ensures multiset(a[..]) == multiset(old(a[..]))
  {
    var i := 0;
    while i < a.Length
      invariant 0 <= i <= a.Length
      invariant Sorted(a[..i])
      invariant multiset(a[..]) == multiset(old(a[..]))
    {
      SortedPrefix(a[..], i);
      var j := i;
      while j > 0 && a[j - 1] > a[j]
        invariant 0 <= j <= i
        invariant SortedExcept(a[..], i + 1, j)
        invariant multiset(a[..]) == multiset(old(a[..]))
      {
        SwapStep(a[..], i + 1, j);
        SwapAdjacent(a, j);
        j := j - 1;
      }
      SortedExit(a[..], i + 1, j);
      i := i + 1;
    }
    assert a[..a.Length] == a[..];
  }

  /** Exchanges the element at `j` with its left neighbour. */
  method SwapAdjacent(a: array<int>, j: int)
    requires 0 < j < a.Length
    modifies a
    ensures a[..] == old(a[..])[j - 1 := old(a[j])][j := old(a[j - 1])]
    ensures multiset(a[..]) == multiset(old(a[..]))
  {
    a[j - 1], a[j] := a[j], a[j - 1];
  }

  /** Every pair of the first `n` elements is in order, except pairs ending at `j`. */
  predicate SortedExcept(s: seq<int>, n: int, j: int)
    requires 0 <= n <= |s|
  {
    forall p, q :: 0 <= p < q < n && q != j ==> s[p] <= s[q]
  }

  /** A sorted prefix of length `i` leaves only the element at `i` out of place. */
  lemma SortedPrefix(s: seq<int>, i: int)
    requires 0 <= i < |s| && Sorted(s[..i])
    ensures SortedExcept(s, i + 1, i)
  {
    forall p, q | 0 <= p < q < i + 1 && q != i
      ensures s[p] <= s[q]
    {
      assert s[..i][p] <= s[..i][q];
    }
  }

  /** Swapping the out-of-place element with its greater left neighbour moves the gap left. */
  lemma SwapStep(s: seq<int>, n: int, j: int)
    requires 0 < j < n <= |s| && SortedExcept(s, n, j) && s[j - 1] > s[j]
    ensures SortedExcept(s[j - 1 := s[j]][j := s[j - 1]], n, j - 1)
  {
  }

  /** Once the element at `j` is not smaller than its left neighbour, the prefix is sorted. */
  lemma SortedExit(s: seq<int>, n: int, j: int)
    requires 0 <= j < n <= |s| && SortedExcept(s, n, j) && (j == 0 || s[j - 1] <= s[j])
    ensures Sorted(s[..n])
  {
    forall p, q | 0 <= p < q < n
      ensures s[p] <= s[q]
    {
      if q == j && p < j - 1 {
        assert s[p] <= s[j - 1];
      }
    }
  }

  /** The first and last of the sorted punches are the earliest and the latest punch. */
  lemma SortedEnds(sorted: seq<int>, s: seq<int>)
    requires Sorted(sorted) && multiset(sorted) == multiset(s) && |s| > 0
    ensures |sorted| == |s|
    ensures sorted[0] == SeqMin(s) && sorted[|sorted| - 1] == SeqMax(s)
  {
    assert |sorted| == |multiset(sorted)| == |multiset(s)| == |s|;
    var lo, hi := SeqMin(s), SeqMax(s);
    assert lo in multiset(sorted) && hi in multiset(sorted);
    var k :| 0 <= k < |sorted| && sorted[k] == lo;
    var m :| 0 <= m < |sorted| && sorted[m] == hi;
    assert sorted[0] <= sorted[k] && sorted[m] <= sorted[|sorted| - 1];
    assert sorted[0] in multiset(s) && sorted[|sorted| - 1] in multiset(s);
    assert sorted[0] in s && sorted[|sorted| - 1] in s;
  }

  /** The service's `isHoliday`: no date is a holiday. */
  function IsHoliday(date: int, businessId: int): bool { false }

  /** The expected start (seconds after midnight) and grace minutes of an
      employee: from the first settings row of (user, business), else 08:00 and 15. */
  function Schedule(settings: seq<SettingsRow>, userId: int, businessId: int): (int, int)
  {
    match Lookup(settings, SettingsKey, (userId, businessId))
    case Some(r) => (r.startTime, r.graceMinutes)
    case None => (DefaultStartTime, DefaultGraceMinutes)
  }

  /** Without a settings row the schedule is 08:00 with 15 minutes of grace. */
  lemma ScheduleDefault(settings: seq<SettingsRow>, userId: int, businessId: int)
    requires forall i :: 0 <= i < |settings| ==> settings[i].userId != userId || settings[i].businessId != businessId
    ensures Schedule(settings, userId, businessId) == (8 * 3600, 15)
  {
  }

  /** Carbon 2 `diffInMinutes`: the absolute difference in whole minutes, truncated. */
  function DiffInMinutes(a: int, b: int): (m: int)
    ensures m >= 0
    ensures m * SecondsPerMinute <= (if a >= b then a - b else b - a) < (m + 1) * SecondsPerMinute
  {
    (if a >= b then a - b else b - a) / SecondsPerMinute
  }

  /** What the import derives for one non-empty day. */
  datatype DayOutcome = DayOutcome(
    clockIn: int,
    clockOut: Option<int>,
    status: string,
    lateMinutes: int,
    earlyLeaveMinutes: int,
    workHours: int,
    isWeekend: bool,
    isHoliday: bool)

  /** The instant the employee is expected on `date`. */
  function ExpectedStart(date: int, startTime: int): int
  {
    date * SecondsPerDay + startTime
  }

  /** The outcome of a day, stated on the punches themselves rather than on
      their sorted copy: clock-in is the earliest punch, clock-out the latest
      one when there are at least two. */
  function EvaluateDay(startTime: int, graceMinutes: int, businessId: int, date: int, punches: seq<int>): DayOutcome
    requires |punches| > 0
  {
    var clockIn := SeqMin(punches);
    var clockOut := if |punches| > 1 then Some(SeqMax(punches)) else None;
    var expectedStart := ExpectedStart(date, startTime);
    var late := clockIn > expectedStart + graceMinutes * SecondsPerMinute;
    DayOutcome(
      clockIn,
      clockOut,
      if late then "late" else "present",
      if late then DiffInMinutes(clockIn, expectedStart) else 0,
      0,
      if clockOut.Some? then TruncDiv(clockOut.value - clockIn, SecondsPerHour) else 0,
      IsWeekend(date),
      IsHoliday(date, businessId))
  }

  /** Clock-in is the earliest punch; clock-out is absent for a single punch and
      otherwise the latest punch; worked hours are the whole hours between them,
      never negative, and 0 without a clock-out. */
  lemma DayClocks(startTime: int, graceMinutes: int, businessId: int, date: int, punches: seq<int>)
    requires |punches| > 0
    ensures var o := EvaluateDay(startTime, graceMinutes, businessId, date, punches);
      && o.clockIn in punches && (forall i :: 0 <= i < |punches| ==> o.clockIn <= punches[i])
      && (o.clockOut.None? <==> |punches| == 1)
      && (o.clockOut.Some? ==> o.clockOut.value in punches && forall i :: 0 <= i < |punches| ==> punches[i] <= o.clockOut.value)
      && o.workHours >= 0
      && (o.clockOut.None? ==> o.workHours == 0)
      && (o.clockOut.Some? ==>
            o.workHours * 3600 <= o.clockOut.value - o.clockIn < (o.workHours + 1) * 3600)
  {
  }

  /** The grace rule: the day is late exactly when clock-in is strictly after the
      expected start plus the grace minutes; late minutes are then counted from
      the expected start (not from the end of the grace), so they are at least
      the grace; a present day has no late minutes. Nothing leaves early, the
      weekend flag is the calendar's, and no day is a holiday. */
  lemma DayStatus(startTime: int, graceMinutes: int, businessId: int, date: int, punches: seq<int>)
    requires |punches| > 0
    ensures var o := EvaluateDay(startTime, graceMinutes, businessId, date, punches);
      var start := date * 86400 + startTime;
      && (o.status == "late" <==> o.clockIn > start + graceMinutes * 60)
      && (o.status == "late" || o.status == "present")
      && (o.status == "present" ==> o.lateMinutes == 0)
      && (o.status == "late" && start <= o.clockIn ==> o.lateMinutes * 60 <= o.clockIn - start < (o.lateMinutes + 1) * 60)
      && (o.status == "late" ==> o.lateMinutes >= graceMinutes)
      && o.earlyLeaveMinutes == 0
      && o.isWeekend == IsWeekend(date) && !o.isHoliday
  {
    var o := EvaluateDay(startTime, graceMinutes, businessId, date, punches);
    var start := date * 86400 + startTime;
    if o.status == "late" {
      assert o.lateMinutes * 60 > (o.clockIn - start) - 60 || start > o.clockIn;
    }
  }

  /** Arriving exactly at the end of the grace is on time. */
  lemma ArrivalAtDeadline(startTime: int, graceMinutes: int, businessId: int, date: int, punches: seq<int>)
    requires |punches| > 0
    requires SeqMin(punches) == date * 86400 + startTime + graceMinutes * 60
    ensures EvaluateDay(startTime, graceMinutes, businessId, date, punches).status == "present"
    ensures EvaluateDay(startTime, graceMinutes, businessId, date, punches).lateMinutes == 0
  {
  }

  /** The outcome of a day under the settings in force. */
  function Outcome(settings: seq<SettingsRow>, businessId: int, ud: UserDay): DayOutcome
    requires |ud.day.punches| > 0
  {
    var (startTime, grace) := Schedule(settings, ud.userId, businessId);
    EvaluateDay(startTime, grace, businessId, ud.day.date, ud.day.punches)
  }

  /** The detail row's `updateOrCreate`. */
  function DetailWrite(userId: int, businessId: int, o: DayOutcome): Write<DetailRow, (int, int, int)>
  {
    Write((userId, businessId, o.clockIn),
      (r: DetailRow) => r.(clockOut := o.clockOut, status := o.status, lateMinutes := o.lateMinutes,
                           earlyLeaveMinutes := o.earlyLeaveMinutes, workHours := o.workHours as real,
                           isWeekend := o.isWeekend, isHoliday := o.isHoliday),
      (id: int) => DetailRow(id, userId, businessId, o.clockIn, o.clockOut, o.status, o.lateMinutes,
                             o.earlyLeaveMinutes, o.workHours as real, o.isWeekend, o.isHoliday))
  }

  /** A clock stored in a TIME column keeps its time of day. */
  function TimeColumn(t: Option<int>): Option<int>
  {
    match t
    case Some(v) => Some(TimeOfDay(v))
    case None => None
  }

  /** The summary row's `updateOrCreate`. */
  function SummaryWrite(userId: int, businessId: int, date: int, o: DayOutcome): Write<SummaryRow, (int, int, int)>
  {
    Write((userId, businessId, date),
      (r: SummaryRow) => r.(status := o.status, clockIn := TimeColumn(Some(o.clockIn)),
                            clockOut := TimeColumn(o.clockOut), totalHours := o.workHours as real,
                            lateMinutes := o.lateMinutes, earlyLeaveMinutes := o.earlyLeaveMinutes,
                            isWeekend := o.isWeekend, isHoliday := o.isHoliday),
      (id: int) => SummaryRow(id, userId, businessId, date, o.status, TimeColumn(Some(o.clockIn)),
                              TimeColumn(o.clockOut), o.workHours as real, o.lateMinutes,
                              o.earlyLeaveMinutes, o.isHoliday, o.isWeekend))
  }

  /** The detail write of a day, none for a day without punches. */
  function DetailWriteOf(settings: seq<SettingsRow>, businessId: int): UserDay -> Option<Write<DetailRow, (int, int, int)>>
  {
    (ud: UserDay) =>
      if |ud.day.punches| == 0 then None
      else Some(DetailWrite(ud.userId, businessId, Outcome(settings, businessId, ud)))
  }

  /** The summary write of a day, none for a day without punches. */
  function SummaryWriteOf(settings: seq<SettingsRow>, businessId: int): UserDay -> Option<Write<SummaryRow, (int, int, int)>>
  {
    (ud: UserDay) =>
      if |ud.day.punches| == 0 then None
      else Some(SummaryWrite(ud.userId, businessId, ud.day.date, Outcome(settings, businessId, ud)))
  }

  /** The two rows of a day carry the same derived values. */
  predicate Agree(d: DetailRow, s: SummaryRow)
  {
    && d.userId == s.userId && d.businessId == s.businessId
    && d.status == s.status && d.lateMinutes == s.lateMinutes
    && d.earlyLeaveMinutes == s.earlyLeaveMinutes && d.workHours == s.totalHours
    && d.isWeekend == s.isWeekend && d.isHoliday == s.isHoliday
    && s.clockIn == Some(TimeOfDay(d.clockIn)) && s.clockOut == TimeColumn(d.clockOut)
  }

  /** After a day is written, the detail row under (user, business, clock-in) and
      the summary row under (user, business, date) agree, whatever rows were
      there before. */
  lemma DayRowsAgree(details: Table<DetailRow>, summaries: Table<SummaryRow>, userId: int, businessId: int, date: int, o: DayOutcome)
    ensures var dw := DetailWrite(userId, businessId, o);
            var sw := SummaryWrite(userId, businessId, date, o);
            var d := Lookup(Save(details, DetailKey, dw).rows, DetailKey, dw.k);
            var s := Lookup(Save(summaries, SummaryKey, sw).rows, SummaryKey, sw.k);
            d.Some? && s.Some? && Agree(d.value, s.value) && d.value.clockIn == o.clockIn && s.value.date == date
  {
    var dw := DetailWrite(userId, businessId, o);
    var sw := SummaryWrite(userId, businessId, date, o);
    UpsertLookup(details.rows, DetailKey, dw.k, dw.update, dw.create(details.nextId));
    UpsertLookup(summaries.rows, SummaryKey, sw.k, sw.update, sw.create(summaries.nextId));
  }

  /** The writes of a day are settled, so writing the same day again changes nothing. */
  lemma DayWritesSettled(userId: int, businessId: int, date: int, o: DayOutcome)
    ensures Settled(DetailKey, DetailWrite(userId, businessId, o))
    ensures Settled(SummaryKey, SummaryWrite(userId, businessId, date, o))
  {
  }

  /** The day computation of `processDayAttendance`: sort the punches, take the
      first as clock-in and the last (of two or more) as clock-out, apply the
      grace rule and count the whole hours. */
  method EvaluatePunches(startTime: int, graceMinutes: int, businessId: int, date: int, punches: seq<int>)
    returns (o: DayOutcome)
    requires |punches| > 0
    ensures o == EvaluateDay(startTime, graceMinutes, businessId, date, punches)
  {
    var records := new int[|punches|](i requires 0 <= i < |punches| => punches[i]);
    assert records[..] == punches;
    SortPunches(records);
    ghost var sorted := records[..];
    SortedEnds(sorted, punches);
    var clockIn := records[0];
    var clockOut := if records.Length > 1 then Some(records[records.Length - 1]) else None;
    assert clockIn == sorted[0] == SeqMin(punches);
    assert clockOut == if |punches| > 1 then Some(SeqMax(punches)) else None;

    var status := "present";
    var lateMinutes := 0;
    var expectedStart := ExpectedStart(date, startTime);
    var graceTime := expectedStart + graceMinutes * SecondsPerMinute;
    if clockIn > graceTime {
      status := "late";
      lateMinutes := DiffInMinutes(clockIn, expectedStart);
    }
    var workHours := 0;
    if clockOut.Some? {
      workHours := TruncDiv(clockOut.value - clockIn, SecondsPerHour);
    }
    o := DayOutcome(clockIn, clockOut, status, lateMinutes, 0, workHours,
                    IsWeekend(date), IsHoliday(date, businessId));
  }

  /** `processDayAttendance($dayData, $businessId)`: a day without punches is
      skipped; otherwise the detail row and the summary row of the day are
      written. */
  method ProcessDayAttendance(store: Store, ud: UserDay, businessId: int)
    modifies store
    ensures store.settings == old(store.settings)
    ensures store.details == SaveAll(old(store.details), DetailKey, FilterMap([ud], DetailWriteOf(store.settings.rows, businessId)))
    ensures store.summaries == SaveAll(old(store.summaries), SummaryKey, FilterMap([ud], SummaryWriteOf(store.settings.rows, businessId)))
  {
    FilterMapSingle(ud, DetailWriteOf(store.settings.rows, businessId));
    FilterMapSingle(ud, SummaryWriteOf(store.settings.rows, businessId));
    if |ud.day.punches| == 0 {
      return;
    }
    var (startTime, graceMinutes) := Schedule(store.settings.rows, ud.userId, businessId);
    var o := EvaluatePunches(startTime, graceMinutes, businessId, ud.day.date, ud.day.punches);
    store.details := Save(store.details, DetailKey, DetailWrite(ud.userId, businessId, o));
    store.summaries := Save(store.summaries, SummaryKey, SummaryWrite(ud.userId, businessId, ud.day.date, o));
  }
}
