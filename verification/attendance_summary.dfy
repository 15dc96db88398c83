/** Modules/Essentials/Entities/EssentialsAttendanceSummary.php: one row per
    employee and day, its status predicates, its colour and text, the query
    scopes, and the two ratios computed over a user's rows. */
module AttendanceSummary {
  import opened Common
  import opened Text

  /** One row of the daily summary table. `date` is a day number; the clock
      columns are TIME columns, so they hold seconds after midnight. */
  datatype SummaryRow = SummaryRow(
    id: int,
    userId: int,
    businessId: int,
    date: int,
    status: string,
    clockIn: Option<int>,
    clockOut: Option<int>,
    totalHours: real,
    lateMinutes: int,
    earlyLeaveMinutes: int,
    isHoliday: bool,
    isWeekend: bool)

  /** `isPresent()`: only the status `present` (a late arrival is not "present" here). */
  predicate IsPresent(r: SummaryRow) { r.status == "present" }

  /** `isLate()`. */
  predicate IsLate(r: SummaryRow) { r.status == "late" || r.lateMinutes > 0 }

  /** `isAbsent()`. */
  predicate IsAbsent(r: SummaryRow) { r.status == "absent" }

  /** `hasEarlyLeave()`. */
  predicate HasEarlyLeave(r: SummaryRow) { r.earlyLeaveMinutes > 0 }

  /** A row is never both present and absent; a row with status `present` can
      still be late, through its late minutes alone. */
  lemma PresentAbsentExclusive(r: SummaryRow)
    ensures !(IsPresent(r) && IsAbsent(r))
    ensures IsPresent(r) ==> (IsLate(r) <==> r.lateMinutes > 0)
    ensures IsAbsent(r) ==> (IsLate(r) <==> r.lateMinutes > 0)
  {
  }

  /** `getStatusColorAttribute()`: total over all statuses, with the four known
      statuses told apart and everything else (including `holiday`) secondary. */
  function StatusColor(status: string): (c: string)
    ensures c in {"success", "warning", "danger", "info", "secondary"}
    ensures c == "success" <==> status == "present"
    ensures c == "warning" <==> status == "late"
    ensures c == "danger" <==> status == "absent"
    ensures c == "info" <==> status == "partial_day"
    ensures c == "secondary" <==> status !in {"present", "late", "absent", "partial_day"}
  {
    match status
    case "present" => "success"
    case "late" => "warning"
    case "absent" => "danger"
    case "partial_day" => "info"
    case "holiday" => "secondary"
    case _ => "secondary"
  }

  /** `getStatusTextAttribute()`: `ucwords(str_replace('_', ' ', status))`. */
  function StatusText(status: string): (t: string)
    ensures |t| == |status|
  {
    Ucwords(ReplaceChar(status, '_', ' '))
  }

  /** The status text keeps every character but `_`, which becomes a space, and
      upper-cases exactly the first character and those after a `_` or a
      delimiter; no `_` survives. */
  lemma StatusTextChars(status: string)
    ensures forall i :: 0 <= i < |status| ==> StatusText(status)[i] == StatusTextAt(status, i)
    ensures forall i :: 0 <= i < |status| ==> StatusText(status)[i] != '_'
  {
    var spaced := ReplaceChar(status, '_', ' ');
    var t := StatusText(status);
    forall i | 0 <= i < |status|
      ensures t[i] == StatusTextAt(status, i) && t[i] != '_'
    {
      assert t[i] == UcwordsAt(spaced, i);
      if i > 0 {
        assert IsWordDelimiter(spaced[i - 1]) <==> status[i - 1] == '_' || IsWordDelimiter(status[i - 1]);
      }
    }
  }

  /** The expected `i`-th character of the status text: `_` read as a space,
      upper-cased at the start of the status and after a `_` or a delimiter. */
  function StatusTextAt(status: string, i: nat): char
    requires i < |status|
  {
    var c := if status[i] == '_' then ' ' else status[i];
    if i == 0 || status[i - 1] == '_' || IsWordDelimiter(status[i - 1]) then UpperChar(c) else c
  }

  /** The one multi-word status reads "Partial Day". */
  lemma PartialDayText()
    ensures StatusText("partial_day") == "Partial Day"
  {
    var t := StatusText("partial_day");
    StatusTextChars("partial_day");
    assert t[0] == 'P' && t[1] == 'a' && t[2] == 'r' && t[3] == 't' && t[4] == 'i' && t[5] == 'a';
    assert t[6] == 'l' && t[7] == ' ' && t[8] == 'D' && t[9] == 'a' && t[10] == 'y';
  }

  /** `scopePresent`: the statuses counted as attendance. */
  predicate IsAttended(r: SummaryRow) { r.status in {"present", "late", "partial_day"} }

  /** `scopeWorkingDays`: neither a weekend nor a holiday. */
  predicate IsWorkingDayRow(r: SummaryRow) { !r.isWeekend && !r.isHoliday }

  /** `scopeLate`: late minutes only, whatever the status. */
  predicate HasLateMinutes(r: SummaryRow) { r.lateMinutes > 0 }

  function PresentScope(rows: seq<SummaryRow>): (r: seq<SummaryRow>)
    ensures forall x :: x in r <==> x in rows && x.status in {"present", "late", "partial_day"}
  {
    FilterMembers(rows, IsAttended);
    Filter(rows, IsAttended)
  }

  function AbsentScope(rows: seq<SummaryRow>): (r: seq<SummaryRow>)
    ensures forall x :: x in r <==> x in rows && x.status == "absent"
  {
    FilterMembers(rows, IsAbsent);
    Filter(rows, IsAbsent)
  }

  function LateScope(rows: seq<SummaryRow>): (r: seq<SummaryRow>)
    ensures forall x :: x in r <==> x in rows && x.lateMinutes > 0
  {
    FilterMembers(rows, HasLateMinutes);
    Filter(rows, HasLateMinutes)
  }

  function WorkingDaysScope(rows: seq<SummaryRow>): (r: seq<SummaryRow>)
    ensures forall x :: x in r <==> x in rows && !x.isWeekend && !x.isHoliday
  {
    FilterMembers(rows, IsWorkingDayRow);
    Filter(rows, IsWorkingDayRow)
  }

  function ForBusiness(rows: seq<SummaryRow>, businessId: int): (r: seq<SummaryRow>)
    ensures forall x :: x in r <==> x in rows && x.businessId == businessId
  {
    FilterMembers(rows, (x: SummaryRow) => x.businessId == businessId);
    Filter(rows, (x: SummaryRow) => x.businessId == businessId)
  }

  /** `where('user_id', u)->where('business_id', b)`. */
  function OfUserInBusiness(userId: int, businessId: int): SummaryRow -> bool
  {
    (x: SummaryRow) => x.userId == userId && x.businessId == businessId
  }

  /** `scopeDateRange` (`whereBetween`): inclusive at both ends. */
  function DateRangeScope(rows: seq<SummaryRow>, startDate: int, endDate: int): (r: seq<SummaryRow>)
    ensures forall x :: x in r <==> x in rows && startDate <= x.date <= endDate
  {
    FilterMembers(rows, DatedBetween(startDate, endDate));
    Filter(rows, DatedBetween(startDate, endDate))
  }

  function DatedBetween(startDate: int, endDate: int): SummaryRow -> bool
  {
    (x: SummaryRow) => startDate <= x.date <= endDate
  }

  /** Every row in the late scope is late by `isLate()`; the two differ only on a
      row whose status says `late` but carries no late minutes. */
  lemma LateScopeVersusIsLate(rows: seq<SummaryRow>)
    ensures forall x :: x in LateScope(rows) ==> IsLate(x)
    ensures forall x :: x in rows && IsLate(x) && x !in LateScope(rows) ==> x.status == "late" && x.lateMinutes <= 0
  {
  }

  /** A one-day range holds exactly that day's rows; a reversed range holds none. */
  lemma DateRangeEdges(rows: seq<SummaryRow>, day: int, startDate: int, endDate: int)
    ensures forall x :: x in DateRangeScope(rows, day, day) <==> x in rows && x.date == day
    ensures startDate > endDate ==> DateRangeScope(rows, startDate, endDate) == []
  {
    if startDate > endDate {
      CountNone(rows, DatedBetween(startDate, endDate));
    }
  }

  /** The optional bounds of the two ratios: a missing bound leaves that side open. */
  predicate InOptionalRange(date: int, startDate: Option<int>, endDate: Option<int>)
  {
    (startDate.None? || date >= startDate.value) && (endDate.None? || date <= endDate.value)
  }

  /** The rows the attendance ratio is taken over: this user in this business, on
      a working day, within the optional bounds. */
  function AttendanceBase(userId: int, businessId: int, startDate: Option<int>, endDate: Option<int>): SummaryRow -> bool
  {
    (x: SummaryRow) => x.userId == userId && x.businessId == businessId && IsWorkingDayRow(x)
      && InOptionalRange(x.date, startDate, endDate)
  }

  /** The numerator of the attendance ratio: the same rows, further narrowed to the attended statuses. */
  function AttendanceHits(userId: int, businessId: int, startDate: Option<int>, endDate: Option<int>): SummaryRow -> bool
  {
    (x: SummaryRow) => AttendanceBase(userId, businessId, startDate, endDate)(x) && IsAttended(x)
  }

  /** `hits / total * 100`, rounded to two decimals, or 0 without any total. */
  function RoundedPercentage(hits: nat, total: nat): (p: real)
    requires hits <= total
    ensures total == 0 ==> p == 0.0
    ensures 0.0 <= p <= 100.0
    ensures total > 0 ==> -0.005 <= p - (hits as real / total as real) * 100.0 <= 0.005
  {
    if total > 0 then
      RatioAtMostOne(hits, total);
      Round2((hits as real / total as real) * 100.0)
    else 0.0
  }

  lemma RatioAtMostOne(hits: nat, total: nat)
    requires hits <= total && total > 0
    ensures 0.0 <= (hits as real / total as real) * 100.0 <= 100.0
  {
    assert hits as real / total as real <= 1.0 by {
      assert hits as real <= total as real;
    }
  }

  /** `getAttendancePercentage()`: the share of the user's working-day rows in
      range whose status is present, late or partial_day. */
  function AttendancePercentage(rows: seq<SummaryRow>, userId: int, businessId: int,
                                startDate: Option<int>, endDate: Option<int>): (p: real)
    ensures var total := Count(rows, AttendanceBase(userId, businessId, startDate, endDate));
            var hits := Count(rows, AttendanceHits(userId, businessId, startDate, endDate));
            hits <= total && 0.0 <= p <= 100.0 && (total == 0 ==> p == 0.0)
            && (total > 0 ==> -0.005 <= p - (hits as real / total as real) * 100.0 <= 0.005)
  {
    var base := AttendanceBase(userId, businessId, startDate, endDate);
    var hits := AttendanceHits(userId, businessId, startDate, endDate);
    CountMonotone(rows, hits, base);
    RoundedPercentage(Count(rows, hits), Count(rows, base))
  }

  /** The rows the punctuality ratio is taken over: as for attendance, but only
      the statuses present and late. */
  function PunctualityBase(userId: int, businessId: int, startDate: Option<int>, endDate: Option<int>): SummaryRow -> bool
  {
    (x: SummaryRow) => x.userId == userId && x.businessId == businessId && x.status in {"present", "late"}
      && IsWorkingDayRow(x) && InOptionalRange(x.date, startDate, endDate)
  }

  /** The numerator of the punctuality ratio: those rows with no late minutes. */
  function PunctualityHits(userId: int, businessId: int, startDate: Option<int>, endDate: Option<int>): SummaryRow -> bool
  {
    (x: SummaryRow) => PunctualityBase(userId, businessId, startDate, endDate)(x) && x.lateMinutes == 0
  }

  /** `getPunctualityPercentage()`: the share of the user's present or late
      working-day rows in range that have zero late minutes. */
  function PunctualityPercentage(rows: seq<SummaryRow>, userId: int, businessId: int,
                                 startDate: Option<int>, endDate: Option<int>): (p: real)
    ensures var total := Count(rows, PunctualityBase(userId, businessId, startDate, endDate));
            var hits := Count(rows, PunctualityHits(userId, businessId, startDate, endDate));
            hits <= total && 0.0 <= p <= 100.0 && (total == 0 ==> p == 0.0)
            && (total > 0 ==> -0.005 <= p - (hits as real / total as real) * 100.0 <= 0.005)
  {
    var base := PunctualityBase(userId, businessId, startDate, endDate);
    var hits := PunctualityHits(userId, businessId, startDate, endDate);
    CountMonotone(rows, hits, base);
    RoundedPercentage(Count(rows, hits), Count(rows, base))
  }

  /** When every counted row was attended the ratio is exactly 100, and when
      none was it is exactly 0. */
  lemma AttendanceExtremes(rows: seq<SummaryRow>, userId: int, businessId: int,
                           startDate: Option<int>, endDate: Option<int>)
    ensures (forall i :: 0 <= i < |rows| && AttendanceBase(userId, businessId, startDate, endDate)(rows[i]) ==> IsAttended(rows[i]))
            && Count(rows, AttendanceBase(userId, businessId, startDate, endDate)) > 0
            ==> AttendancePercentage(rows, userId, businessId, startDate, endDate) == 100.0
    ensures (forall i :: 0 <= i < |rows| ==> !IsAttended(rows[i]))
            ==> AttendancePercentage(rows, userId, businessId, startDate, endDate) == 0.0
  {
    var base := AttendanceBase(userId, businessId, startDate, endDate);
    var hits := AttendanceHits(userId, businessId, startDate, endDate);
    if forall i :: 0 <= i < |rows| && base(rows[i]) ==> IsAttended(rows[i]) {
      CountCongruent(rows, hits, base);
      if Count(rows, base) > 0 {
        RoundedFull(Count(rows, base));
      }
    }
    if forall i :: 0 <= i < |rows| ==> !IsAttended(rows[i]) {
      CountCongruent(rows, hits, (x: SummaryRow) => false);
      CountNone(rows, (x: SummaryRow) => false);
      RoundedNone(Count(rows, base));
    }
  }

  /** All of a positive total is exactly 100 percent. */
  lemma RoundedFull(n: nat)
    requires n > 0
    ensures RoundedPercentage(n, n) == 100.0
  {
    assert (n as real / n as real) * 100.0 == 100.0;
    Round2Whole(100);
  }

  /** None of a total is exactly 0 percent. */
  lemma RoundedNone(total: nat)
    ensures RoundedPercentage(0, total) == 0.0
  {
    Round2Whole(0);
  }

  lemma Round2Whole(n: int)
    requires n >= 0
    ensures Round2(n as real) == n as real
  {
    assert (n as real * 100.0 + 0.5).Floor == n * 100;
  }
}
