/** The settings administration of
    Modules/Essentials/Http/Controllers/EnhancedAttendanceController.php:
    `storeEmployeeSettings` validates its input and upserts the row of
    (user, business); `deleteEmployeeSettings` deletes the row with a given id
    in the business. */
module SettingsAdmin {
  import opened Common
  import opened Text
  import opened Calendar
  import opened Tables
  import opened EmployeeSettings
  import opened AttendanceDb

  // ---------------------------------------------------------------------------
  // The `H:i` format

  function Digit(c: char): int { c as int - '0' as int }

  /** Laravel's `date_format:H:i`: the text must be exactly what formatting the
      parsed time gives back, so two-digit hours 00 to 23, a colon and two-digit
      minutes 00 to 59. The time is returned as seconds after midnight. */
  function ParseHourMinute(s: string): (t: Option<int>)
    ensures t.Some? ==> 0 <= t.value < SecondsPerDay && t.value % SecondsPerMinute == 0
  {
    if |s| == 5 && IsDigit(s[0]) && IsDigit(s[1]) && s[2] == ':' && IsDigit(s[3]) && IsDigit(s[4])
       && Digit(s[0]) * 10 + Digit(s[1]) < 24 && Digit(s[3]) * 10 + Digit(s[4]) < 60
    then Some((Digit(s[0]) * 10 + Digit(s[1])) * SecondsPerHour + (Digit(s[3]) * 10 + Digit(s[4])) * SecondsPerMinute)
    else None
  }

  /** A time of day in whole minutes written as `H:i`. */
  function FormatHourMinute(hour: int, minute: int): (s: string)
    requires 0 <= hour < 24 && 0 <= minute < 60
    ensures |s| == 5 && s[2] == ':'
  {
    [('0' as int + hour / 10) as char, ('0' as int + hour % 10) as char, ':',
     ('0' as int + minute / 10) as char, ('0' as int + minute % 10) as char]
  }

  /** Every hour and minute of the day is accepted in its `H:i` form and read
      back as itself. */
  lemma HourMinuteRoundTrip(hour: int, minute: int)
    requires 0 <= hour < 24 && 0 <= minute < 60
    ensures ParseHourMinute(FormatHourMinute(hour, minute)) == Some(hour * 3600 + minute * 60)
  {
  }

  /** A malformed time is refused: a one-digit hour, an hour of 24 or more, a
      minute of 60 or more. */
  lemma HourMinuteRejects()
    ensures ParseHourMinute("8:00") == None
    ensures ParseHourMinute("24:00") == None
    ensures ParseHourMinute("07:60") == None
    ensures ParseHourMinute("08:00") == Some(8 * 3600)
  {
  }

  // ---------------------------------------------------------------------------
  // Validation

  /** The request fields of `storeEmployeeSettings`. `overtimeEligible` is
      `None` when the field is absent. */
  datatype SettingsInput = SettingsInput(
    userId: int,
    employeeCode: Option<string>,
    status: string,
    startTime: string,
    endTime: string,
    graceMinutes: int,
    baseSalary: real,
    overtimeEligible: Option<bool>,
    overtimeRate: real,
    workingDays: seq<int>)

  /** The attributes written for an accepted input; times are seconds after midnight. */
  datatype SettingsValues = SettingsValues(
    employeeCode: Option<string>,
    status: string,
    startTime: int,
    endTime: int,
    graceMinutes: int,
    baseSalary: real,
    overtimeEligible: bool,
    overtimeRate: real,
    workingDays: seq<int>)

  /** `$request->validate([...])`, given the ids of the users table: the
      attributes to write, or `None` when any rule fails. */
  function ValidateSettings(input: SettingsInput, userIds: set<int>): (r: Option<SettingsValues>)
  {
    var startTime := ParseHourMinute(input.startTime);
    var endTime := ParseHourMinute(input.endTime);
    if && input.userId in userIds
       && (input.employeeCode.None? || |input.employeeCode.value| <= 50)
       && input.status in {"active", "inactive", "suspended"}
       && startTime.Some? && endTime.Some? && endTime.value > startTime.value
       && 0 <= input.graceMinutes <= 120
       && input.baseSalary >= 0.0
       && input.overtimeRate >= 1.0
       && |input.workingDays| >= 1
    then Some(SettingsValues(
      input.employeeCode, input.status, startTime.value, endTime.value, input.graceMinutes,
      input.baseSalary, if input.overtimeEligible.Some? then input.overtimeEligible.value else false,
      input.overtimeRate, input.workingDays))
    else None
  }

  /** Each rule is decisive at its edge: starting from any accepted input, a
      grace of 120 is still accepted while 121 is not, and an end time equal to
      the start, an empty list of working days, an unknown status, an overtime
      rate below 1, a negative salary, an unknown user or a code of 51
      characters are each refused. */
  lemma ValidationEdges(input: SettingsInput, userIds: set<int>, code: string)
    requires ValidateSettings(input, userIds).Some?
    requires |code| == 51
    ensures ValidateSettings(input.(graceMinutes := 120), userIds).Some?
    ensures ValidateSettings(input.(graceMinutes := 121), userIds).None?
    ensures ValidateSettings(input.(endTime := input.startTime), userIds).None?
    ensures ValidateSettings(input.(workingDays := []), userIds).None?
    ensures ValidateSettings(input.(status := "deleted"), userIds).None?
    ensures ValidateSettings(input.(overtimeRate := 0.99), userIds).None?
    ensures ValidateSettings(input.(baseSalary := -0.01), userIds).None?
    ensures ValidateSettings(input, userIds - {input.userId}).None?
    ensures ValidateSettings(input.(employeeCode := Some(code)), userIds).None?
    ensures ValidateSettings(input.(employeeCode := None), userIds).Some?
  {
  }

  /** What every accepted input guarantees about the row it writes. */
  predicate WellConfigured(r: SettingsRow)
  {
    && r.status in {"active", "inactive", "suspended"}
    && 0 <= r.startTime < r.endTime < SecondsPerDay
    && 0 <= r.graceMinutes <= 120
    && r.baseSalary >= 0.0
    && r.overtimeRate >= 1.0
    && |r.workingDays| >= 1
    && (r.employeeCode.None? || |r.employeeCode.value| <= 50)
  }

  /** The upsert of the validated attributes on (user_id, business_id). */
  function SettingsWrite(userId: int, businessId: int, v: SettingsValues): Write<SettingsRow, (int, int)>
  {
    Write((userId, businessId),
      (r: SettingsRow) => r.(employeeCode := v.employeeCode, status := v.status, startTime := v.startTime,
                             endTime := v.endTime, graceMinutes := v.graceMinutes, baseSalary := v.baseSalary,
                             overtimeEligible := v.overtimeEligible, overtimeRate := v.overtimeRate,
                             workingDays := v.workingDays),
      (id: int) => SettingsRow(id, userId, businessId, v.employeeCode, v.status, v.startTime, v.endTime,
                               v.graceMinutes, v.baseSalary, v.overtimeEligible, v.overtimeRate, v.workingDays))
  }

  lemma SettingsWriteSettled(userId: int, businessId: int, v: SettingsValues)
    ensures Settled(SettingsKey, SettingsWrite(userId, businessId, v))
  {
  }

  /** The response of `storeEmployeeSettings` (a failed validation is Laravel's
      validation error response). */
  datatype StoreResponse = Rejected | Saved

  /** `storeEmployeeSettings($request)` in business `businessId`. */
  method StoreEmployeeSettings(store: Store, input: SettingsInput, userIds: set<int>, businessId: int)
    returns (response: StoreResponse)
    modifies store
    ensures ValidateSettings(input, userIds).None? ==>
      response == Rejected && store.settings == old(store.settings)
    ensures ValidateSettings(input, userIds).Some? ==>
      response == Saved
      && store.settings == Save(old(store.settings), SettingsKey,
                                SettingsWrite(input.userId, businessId, ValidateSettings(input, userIds).value))
    ensures store.details == old(store.details) && store.summaries == old(store.summaries)
  {
    var values := ValidateSettings(input, userIds);
    if values.None? {
      return Rejected;
    }
    store.settings := Save(store.settings, SettingsKey, SettingsWrite(input.userId, businessId, values.value));
    return Saved;
  }

  /** An accepted input leaves exactly one row for (user, business) when the
      unique index held, and that row carries the input's attributes, with
      `overtime_eligible` false when absent, and satisfies every validation
      rule; the rows of other keys are untouched. */
  lemma StoreSettingsEffect(settings: Table<SettingsRow>, input: SettingsInput, userIds: set<int>, businessId: int)
    requires ValidateSettings(input, userIds).Some?
    ensures var v := ValidateSettings(input, userIds).value;
      var after := Save(settings, SettingsKey, SettingsWrite(input.userId, businessId, v)).rows;
      var row := Lookup(after, SettingsKey, (input.userId, businessId));
      && row.Some?
      && row.value.userId == input.userId && row.value.businessId == businessId
      && row.value.status == input.status && row.value.employeeCode == input.employeeCode
      && row.value.graceMinutes == input.graceMinutes && row.value.workingDays == input.workingDays
      && Some(row.value.startTime) == ParseHourMinute(input.startTime)
      && Some(row.value.endTime) == ParseHourMinute(input.endTime)
      && row.value.overtimeEligible == (input.overtimeEligible == Some(true))
      && WellConfigured(row.value)
      && (UniqueKeys(settings.rows, SettingsKey) ==>
            UniqueKeys(after, SettingsKey) && Count(after, HasKey(SettingsKey, (input.userId, businessId))) == 1)
      && forall k :: k != (input.userId, businessId) ==> Lookup(after, SettingsKey, k) == Lookup(settings.rows, SettingsKey, k)
  {
    var v := ValidateSettings(input, userIds).value;
    var w := SettingsWrite(input.userId, businessId, v);
    var after := Save(settings, SettingsKey, w).rows;
    UpsertLookup(settings.rows, SettingsKey, w.k, w.update, w.create(settings.nextId));
    forall k | k != (input.userId, businessId)
      ensures Lookup(after, SettingsKey, k) == Lookup(settings.rows, SettingsKey, k)
    {
      UpsertOtherKey(settings.rows, SettingsKey, w.k, w.update, w.create(settings.nextId), k);
    }
    if UniqueKeys(settings.rows, SettingsKey) {
      SaveKeepsUnique(settings, SettingsKey, w);
      UniqueKeyCountsOne(after, SettingsKey, w.k);
    }
  }

  /** Saving the same accepted input again changes nothing. */
  lemma StoreSettingsIdempotent(settings: Table<SettingsRow>, userId: int, businessId: int, v: SettingsValues)
    ensures var w := SettingsWrite(userId, businessId, v);
            Save(Save(settings, SettingsKey, w), SettingsKey, w) == Save(settings, SettingsKey, w)
  {
    var w := SettingsWrite(userId, businessId, v);
    SettingsWriteSettled(userId, businessId, v);
    SaveAllIdempotent(settings, SettingsKey, [w]);
    assert SaveAll(settings, SettingsKey, [w]) == Save(settings, SettingsKey, w) by {
      assert [w][..0] == [];
    }
    assert SaveAll(Save(settings, SettingsKey, w), SettingsKey, [w]) == Save(Save(settings, SettingsKey, w), SettingsKey, w) by {
      assert [w][..0] == [];
    }
  }

  /** A key present in a table with unique keys is held by exactly one row. */
  lemma {:induction false} UniqueKeyCountsOne<R, K>(rows: seq<R>, key: R -> K, k: K)
    requires UniqueKeys(rows, key)
    requires exists i :: 0 <= i < |rows| && key(rows[i]) == k
    ensures Count(rows, HasKey(key, k)) == 1
  {
    var init := rows[..|rows| - 1];
    var last := rows[|rows| - 1];
    assert rows == init + [last];
    FilterSnoc(init, last, HasKey(key, k));
    if key(last) == k {
      forall i | 0 <= i < |init|
        ensures !HasKey(key, k)(init[i])
      {
        assert init[i] == rows[i];
      }
      CountNone(init, HasKey(key, k));
    } else {
      var i :| 0 <= i < |rows| && key(rows[i]) == k;
      assert init[i] == rows[i];
      UniqueKeyCountsOne(init, key, k);
    }
  }

  // ---------------------------------------------------------------------------
  // Deletion

  /** The rows `deleteEmployeeSettings($id)` keeps in business `businessId`. */
  function Kept(id: int, businessId: int): SettingsRow -> bool
  {
    (r: SettingsRow) => !(r.id == id && r.businessId == businessId)
  }

  /** `where('id', $id)->where('business_id', $businessId)->delete()`, reporting
      whether any row was deleted. */
  method DeleteEmployeeSettings(store: Store, id: int, businessId: int) returns (deleted: bool)
    modifies store
    ensures store.settings == Table(Filter(old(store.settings.rows), Kept(id, businessId)), old(store.settings.nextId))
    ensures deleted <==> (exists i :: 0 <= i < |old(store.settings.rows)| &&
                           old(store.settings.rows)[i].id == id && old(store.settings.rows)[i].businessId == businessId)
    ensures store.details == old(store.details) && store.summaries == old(store.summaries)
  {
    var before := store.settings.rows;
    var remaining := Filter(before, Kept(id, businessId));
    var count := |before| - |remaining|;
    store.settings := Table(remaining, store.settings.nextId);
    DeletedCount(before, Kept(id, businessId));
    deleted := count > 0;
  }

  /** The number of rows a filter drops is positive exactly when some row fails it. */
  lemma {:induction false} DeletedCount<T>(rows: seq<T>, keep: T -> bool)
    ensures |Filter(rows, keep)| < |rows| <==> exists i :: 0 <= i < |rows| && !keep(rows[i])
  {
    if rows != [] {
      var init := rows[..|rows| - 1];
      DeletedCount(init, keep);
      if exists i :: 0 <= i < |init| && !keep(init[i]) {
        var i :| 0 <= i < |init| && !keep(init[i]);
        assert rows[i] == init[i];
      }
      if exists i :: 0 <= i < |rows| && !keep(rows[i]) {
        var i :| 0 <= i < |rows| && !keep(rows[i]);
        if i < |init| {
          assert init[i] == rows[i];
        }
      }
    }
  }

  /** A delete removes the row with that id in that business and keeps every
      other row: a row of another business with the same id stays, and the
      unique index on (user, business) still holds. */
  lemma DeleteEffect(rows: seq<SettingsRow>, id: int, businessId: int)
    ensures forall x :: x in Filter(rows, Kept(id, businessId)) <==> x in rows && !(x.id == id && x.businessId == businessId)
    ensures UniqueKeys(rows, SettingsKey) ==> UniqueKeys(Filter(rows, Kept(id, businessId)), SettingsKey)
  {
    FilterMembers(rows, Kept(id, businessId));
    if UniqueKeys(rows, SettingsKey) {
      FilterKeepsUnique(rows, SettingsKey, Kept(id, businessId));
    }
  }
}
