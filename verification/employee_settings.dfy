/** Modules/Essentials/Entities/EssentialsEmployeeSettings.php: the per-employee
    schedule configuration of one business, with its status predicates, the
    working-day default, the readable list of working days, the expected daily
    hours and the query scopes. */
module EmployeeSettings {
  import opened Common
  import opened Text
  import opened Calendar

  /** One row of the employee settings table. Times of day are seconds after
      midnight; `workingDays` is the stored JSON list, with a NULL list read as []. */
  datatype SettingsRow = SettingsRow(
    id: int,
    userId: int,
    businessId: int,
    employeeCode: Option<string>,
    status: string,
    startTime: int,
    endTime: int,
    graceMinutes: int,
    baseSalary: real,
    overtimeEligible: bool,
    overtimeRate: real,
    workingDays: seq<int>)

  const DefaultStartTime: int := 8 * SecondsPerHour
  const DefaultEndTime: int := 17 * SecondsPerHour
  const DefaultGraceMinutes: int := 15
  const DefaultWorkingDays: seq<int> := [1, 2, 3, 4, 5]

  /** A row created with only its key given takes the table's column defaults. */
  function DefaultRow(id: int, userId: int, businessId: int): (r: SettingsRow)
    ensures r.id == id && r.userId == userId && r.businessId == businessId
    ensures r.employeeCode == None && r.status == "active"
    ensures r.startTime == 8 * 3600 && r.endTime == 17 * 3600 && r.graceMinutes == 15
    ensures r.workingDays == [1, 2, 3, 4, 5]
  {
    SettingsRow(id, userId, businessId, None, "active", DefaultStartTime, DefaultEndTime,
                DefaultGraceMinutes, 0.0, false, 1.5, DefaultWorkingDays)
  }

  predicate IsActive(s: SettingsRow) { s.status == "active" }

  predicate IsInactive(s: SettingsRow) { s.status == "inactive" }

  /** No status is both active and inactive, and a suspended employee is neither. */
  lemma ActiveInactiveExclusive(s: SettingsRow)
    ensures !(IsActive(s) && IsInactive(s))
    ensures s.status == "suspended" ==> !IsActive(s) && !IsInactive(s)
  {
  }

  /** The working days in force: the stored list, or Monday to Friday when it is NULL or empty. */
  function EffectiveWorkingDays(s: SettingsRow): (days: seq<int>)
    ensures |days| > 0
    ensures s.workingDays != [] ==> days == s.workingDays
    ensures s.workingDays == [] ==> days == [1, 2, 3, 4, 5]
  {
    if s.workingDays == [] then DefaultWorkingDays else s.workingDays
  }

  /** `isWorkingDay($dayOfWeek)`. */
  predicate IsWorkingDay(s: SettingsRow, dayOfWeek: int)
  {
    dayOfWeek in EffectiveWorkingDays(s)
  }

  /** Without a stored list, exactly the weekdays Monday (1) to Friday (5) are working days. */
  lemma DefaultWorkingDaysAreWeekdays(s: SettingsRow, dayOfWeek: int)
    requires s.workingDays == []
    ensures IsWorkingDay(s, dayOfWeek) <==> 1 <= dayOfWeek <= 5
  {
    if 1 <= dayOfWeek <= 5 {
      assert DefaultWorkingDays[dayOfWeek - 1] == dayOfWeek;
    }
  }

  const DayNames: seq<string> := ["Sunday", "Monday", "Tuesday", "Wednesday", "Thursday", "Friday", "Saturday"]

  predicate IsDayNumber(d: int) { 0 <= d < 7 }

  /** The name of a stored day number, none for a number outside 0..6. */
  function DayName(d: int): Option<string>
  {
    if IsDayNumber(d) then Some(DayNames[d]) else None
  }

  /** `$days[$day] ?? ''`: the name of a day number, '' outside 0..6. */
  function NameOrEmpty(d: int): string
  {
    if IsDayNumber(d) then DayNames[d] else ""
  }

  predicate NonEmpty(name: string) { name != "" }

  /** `collect($workingDays)->map(...)->filter()`: each stored number mapped to
      its name, the empty names dropped. Each stored number in 0..6 yields its
      own name, in stored order; every other number yields nothing. */
  function WorkingDayNames(days: seq<int>): (names: seq<string>)
    ensures names == FilterMap(days, DayName)
    ensures |names| == Count(days, IsDayNumber)
    ensures forall k :: 0 <= k < |names| ==> names[k] in DayNames
  {
    NamesFiltered(days);
    Filter(seq(|days|, i requires 0 <= i < |days| => NameOrEmpty(days[i])), NonEmpty)
  }

  lemma {:induction false} NamesFiltered(days: seq<int>)
    ensures Filter(seq(|days|, i requires 0 <= i < |days| => NameOrEmpty(days[i])), NonEmpty) == FilterMap(days, DayName)
    ensures |FilterMap(days, DayName)| == Count(days, IsDayNumber)
    ensures forall k :: 0 <= k < |FilterMap(days, DayName)| ==> FilterMap(days, DayName)[k] in DayNames
  {
    if days != [] {
      var init := days[..|days| - 1];
      var d := days[|days| - 1];
      NamesFiltered(init);
      var mapped := seq(|days|, i requires 0 <= i < |days| => NameOrEmpty(days[i]));
      var mappedInit := seq(|init|, i requires 0 <= i < |init| => NameOrEmpty(init[i]));
      assert mapped == mappedInit + [NameOrEmpty(d)];
      assert days == init + [d];
      FilterSnoc(mappedInit, NameOrEmpty(d), NonEmpty);
      FilterMapSnoc(init, d, DayName);
      FilterSnoc(init, d, IsDayNumber);
      assert IsDayNumber(d) ==> DayNames[d] in DayNames && DayNames[d] != "";
    }
  }

  /** Stored order is kept: the stored number at position `i`, when in 0..6,
      gives the name at the position counting the valid numbers before it. */
  lemma {:induction false} WorkingDayNamesInOrder(days: seq<int>)
    ensures forall i :: 0 <= i < |days| && IsDayNumber(days[i]) ==>
      Count(days[..i], IsDayNumber) < |WorkingDayNames(days)|
      && WorkingDayNames(days)[Count(days[..i], IsDayNumber)] == DayNames[days[i]]
  {
    if days != [] {
      var init := days[..|days| - 1];
      var d := days[|days| - 1];
      WorkingDayNamesInOrder(init);
      assert days == init + [d];
      FilterMapSnoc(init, d, DayName);
      forall i | 0 <= i < |days| && IsDayNumber(days[i])
        ensures Count(days[..i], IsDayNumber) < |WorkingDayNames(days)|
             && WorkingDayNames(days)[Count(days[..i], IsDayNumber)] == DayNames[days[i]]
      {
        if i < |init| {
          assert days[..i] == init[..i];
          assert days[i] == init[i];
        } else {
          assert days[..i] == init;
        }
      }
    }
  }

  /** `getWorkingDaysTextAttribute()`: the day names joined with ", ". */
  function WorkingDaysText(s: SettingsRow): string
  {
    Join(WorkingDayNames(s.workingDays), ", ")
  }

  /** The text is the ", "-join of the names of the stored numbers in 0..6, in
      stored order; it is empty exactly when there is no such number, and
      otherwise has one comma fewer than there are such numbers. */
  lemma WorkingDaysTextShape(s: SettingsRow)
    ensures WorkingDaysText(s) == Join(FilterMap(s.workingDays, DayName), ", ")
    ensures Count(s.workingDays, IsDayNumber) == 0 ==> WorkingDaysText(s) == ""
    ensures Count(s.workingDays, IsDayNumber) > 0 ==>
      Occurrences(WorkingDaysText(s), ',') == Count(s.workingDays, IsDayNumber) - 1
  {
    var names := WorkingDayNames(s.workingDays);
    forall k | 0 <= k < |names| ensures Occurrences(names[k], ',') == 0 {
      DayNamesHaveNoComma(names[k]);
    }
    assert Occurrences(", ", ',') == 1 by {
      assert ", "[1..] == " ";
      assert " "[1..] == "";
    }
    JoinOccurrences(names, ", ");
  }

  /** The stored default list reads "Monday, Tuesday, Wednesday, Thursday, Friday". */
  lemma DefaultWorkingDaysText(id: int, userId: int, businessId: int)
    ensures WorkingDaysText(DefaultRow(id, userId, businessId)) == "Monday, Tuesday, Wednesday, Thursday, Friday"
  {
    DefaultDayNames();
    WeekdayNamesJoined();
  }

  lemma DefaultDayNames()
    ensures WorkingDayNames(DefaultWorkingDays) == ["Monday", "Tuesday", "Wednesday", "Thursday", "Friday"]
  {
    assert [1] == [] + [1];
    FilterMapSnoc([], 1, DayName);
    assert [1, 2] == [1] + [2];
    FilterMapSnoc([1], 2, DayName);
    assert [1, 2, 3] == [1, 2] + [3];
    FilterMapSnoc([1, 2], 3, DayName);
    assert [1, 2, 3, 4] == [1, 2, 3] + [4];
    FilterMapSnoc([1, 2, 3], 4, DayName);
    assert DefaultWorkingDays == [1, 2, 3, 4] + [5];
    FilterMapSnoc([1, 2, 3, 4], 5, DayName);
  }

  lemma WeekdayNamesJoined()
    ensures Join(["Monday", "Tuesday", "Wednesday", "Thursday", "Friday"], ", ") == "Monday, Tuesday, Wednesday, Thursday, Friday"
  {
    var names := ["Monday", "Tuesday", "Wednesday", "Thursday", "Friday"];
    assert names[1..] == ["Tuesday", "Wednesday", "Thursday", "Friday"];
    assert names[1..][1..] == ["Wednesday", "Thursday", "Friday"];
    assert names[1..][1..][1..] == ["Thursday", "Friday"];
    assert names[1..][1..][1..][1..] == ["Friday"];
  }

  lemma DayNamesHaveNoComma(name: string)
    requires name in DayNames
    ensures Occurrences(name, ',') == 0
  {
    NoCommaFromChars(name);
  }

  lemma {:induction false} NoCommaFromChars(s: string)
    requires forall i :: 0 <= i < |s| ==> IsLetter(s[i])
    ensures Occurrences(s, ',') == 0
  {
    if s != [] {
      NoCommaFromChars(s[1..]);
    }
  }

  /** `getExpectedWorkHours()`: whole hours between the start and end times (Carbon 2 `diffInHours`, absolute). */
  function ExpectedWorkHours(s: SettingsRow): (h: int)
    ensures h >= 0
    ensures h * SecondsPerHour <= s.endTime - s.startTime || h * SecondsPerHour <= s.startTime - s.endTime
    ensures (h + 1) * SecondsPerHour > s.endTime - s.startTime && (h + 1) * SecondsPerHour > s.startTime - s.endTime
  {
    var d := s.endTime - s.startTime;
    (if d >= 0 then d else -d) / SecondsPerHour
  }

  /** Swapping start and end gives the same expected hours. */
  lemma ExpectedWorkHoursSymmetric(s: SettingsRow)
    ensures ExpectedWorkHours(s) == ExpectedWorkHours(s.(startTime := s.endTime, endTime := s.startTime))
  {
  }

  /** `scopeActive`. */
  function ActiveScope(rows: seq<SettingsRow>): (r: seq<SettingsRow>)
    ensures forall x :: x in r <==> x in rows && x.status == "active"
  {
    FilterMembers(rows, IsActive);
    Filter(rows, IsActive)
  }

  /** `scopeInactive`. */
  function InactiveScope(rows: seq<SettingsRow>): (r: seq<SettingsRow>)
    ensures forall x :: x in r <==> x in rows && x.status == "inactive"
  {
    FilterMembers(rows, IsInactive);
    Filter(rows, IsInactive)
  }

  /** `scopeForBusiness`. */
  function ForBusiness(rows: seq<SettingsRow>, businessId: int): (r: seq<SettingsRow>)
    ensures forall x :: x in r <==> x in rows && x.businessId == businessId
  {
    FilterMembers(rows, (x: SettingsRow) => x.businessId == businessId);
    Filter(rows, (x: SettingsRow) => x.businessId == businessId)
  }
}
