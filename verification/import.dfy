/** `processAttendanceFromFiles` of
    Modules/Essentials/Services/AttendanceProcessingService.php: resolve each
    punch record, bucket the resolved punches per (user, date), then write every
    bucket as a day. */
module Import {
  import opened Common
  import opened Calendar
  import opened Tables
  import opened EmployeeSettings
  import opened AttendanceSummary
  import opened AttendanceDb
  import opened AttendanceDay
  import opened DeviceParsing
  import opened Resolver
  import opened Grouping

  /** The state of the first loop: the buckets so far, the settings table (which
      the resolver may write), and whether a datetime failed to parse, which
      aborts the import. */
  datatype Pass = Pass(groups: seq<UserGroup>, settings: Table<SettingsRow>, failed: bool)

  /** One iteration of the first loop. A record whose code resolves to no user,
      or to user id 0, is skipped (the resolver's writes stay). */
  function Step(c: ImportContext, p: Pass, rec: PunchRecord): Pass
  {
    if p.failed then p
    else
      var (userId, settings) := ResolveCode(p.settings, c, rec.userCode);
      if userId.None? || userId.value == 0 then p.(settings := settings)
      else match c.parse(rec.datetime)
        case None => Pass(p.groups, settings, true)
        case Some(t) => Pass(AddPunch(p.groups, userId.value, DateOf(t), t), settings, false)
  }

  /** The first loop over the records, in order. */
  function Run(c: ImportContext, p: Pass, records: seq<PunchRecord>): Pass
  {
    if records == [] then p
    else Step(c, Run(c, p, records[..|records| - 1]), records[|records| - 1])
  }

  /** Once a datetime failed to parse, the rest of the records change nothing. */
  lemma {:induction false} RunFailed(c: ImportContext, p: Pass, records: seq<PunchRecord>, k: nat)
    requires k <= |records| && Run(c, p, records[..k]).failed
    ensures Run(c, p, records) == Run(c, p, records[..k])
    decreases |records|
  {
    if k < |records| {
      var init := records[..|records| - 1];
      assert init[..k] == records[..k];
      RunFailed(c, p, init, k);
    } else {
      assert records[..k] == records;
    }
  }

  /** The buckets stay keyed by user and by date, each punch on its own date. */
  lemma {:induction false} RunWellGrouped(c: ImportContext, p: Pass, records: seq<PunchRecord>)
    requires WellGrouped(p.groups)
    ensures WellGrouped(Run(c, p, records).groups)
    decreases |records|
  {
    if records != [] {
      var init := records[..|records| - 1];
      RunWellGrouped(c, p, init);
      var q := Run(c, p, init);
      var rec := records[|records| - 1];
      if !q.failed {
        var (userId, _) := ResolveCode(q.settings, c, rec.userCode);
        if userId.Some? && userId.value != 0 && c.parse(rec.datetime).Some? {
          var t := c.parse(rec.datetime).value;
          AddPunchWellGrouped(q.groups, userId.value, DateOf(t), t);
        }
      }
    }
  }

  /** The settings table's (user, business) index stays unique. */
  lemma {:induction false} RunKeepsUnique(c: ImportContext, p: Pass, records: seq<PunchRecord>)
    requires UniqueKeys(p.settings.rows, SettingsKey)
    ensures UniqueKeys(Run(c, p, records).settings.rows, SettingsKey)
    decreases |records|
  {
    if records != [] {
      var init := records[..|records| - 1];
      RunKeepsUnique(c, p, init);
      var q := Run(c, p, init);
      if !q.failed {
        ResolveKeepsUnique(q.settings, c, records[|records| - 1].userCode);
      }
    }
  }

  /** The days of one user, tagged with the user. */
  function UserDays(userId: int, days: seq<DayGroup>): (r: seq<UserDay>)
    ensures |r| == |days|
  {
    seq(|days|, k requires 0 <= k < |days| => UserDay(userId, days[k]))
  }

  /** All buckets in the order of the nested `foreach`: users first-seen first,
      and within a user, dates first-seen first. */
  function FlatDays(groups: seq<UserGroup>): seq<UserDay>
  {
    if groups == [] then []
    else FlatDays(groups[..|groups| - 1]) + UserDays(groups[|groups| - 1].userId, groups[|groups| - 1].days)
  }

  /** No two buckets share (user, date). */
  predicate DistinctDays(days: seq<UserDay>)
  {
    forall a, b :: 0 <= a < b < |days| ==> days[a].userId != days[b].userId || days[a].day.date != days[b].day.date
  }

  /** A bucket is non-empty and holds only punches of its date. */
  predicate DayConsistent(d: DayGroup)
  {
    |d.punches| > 0 && forall k :: 0 <= k < |d.punches| ==> DateOf(d.punches[k]) == d.date
  }

  /** Flattening well-grouped buckets gives distinct, consistent days of the grouped users. */
  lemma {:induction false} FlatDaysShape(groups: seq<UserGroup>)
    requires WellGrouped(groups)
    ensures DistinctDays(FlatDays(groups))
    ensures forall k :: 0 <= k < |FlatDays(groups)| ==>
      FlatDays(groups)[k].userId in Users(groups) && DayConsistent(FlatDays(groups)[k].day)
  {
    if groups != [] {
      var n := |groups|;
      var init := groups[..n - 1];
      var last := groups[n - 1];
      FlatDaysShape(init);
      var f0 := FlatDays(init);
      var u := UserDays(last.userId, last.days);
      var f := FlatDays(groups);
      assert f == f0 + u;
      assert last.userId !in Users(init);
      assert DaysWellFormed(last.days);
      forall k | 0 <= k < |f|
        ensures f[k].userId in Users(groups) && DayConsistent(f[k].day)
      {
        if k >= |f0| {
          assert f[k] == UserDay(last.userId, last.days[k - |f0|]);
        } else {
          assert f[k] == f0[k];
          assert Users(init) <= Users(groups);
        }
      }
    }
  }

  /** The ids of some days. */
  function DayIds(days: seq<UserDay>): set<(int, int)>
  {
    set i | 0 <= i < |days| :: (days[i].userId, days[i].day.date)
  }

  /** Writes whose keys determine their day's (user, date) have distinct keys
      when the days are distinct. */
  lemma {:induction false} WritesDistinct<R, K>(days: seq<UserDay>, f: UserDay -> Option<Write<R, K>>, back: K -> (int, int))
    requires DistinctDays(days)
    requires forall i :: 0 <= i < |days| && f(days[i]).Some? ==>
      back(f(days[i]).value.k) == (days[i].userId, days[i].day.date)
    ensures DistinctKeys(FilterMap(days, f))
    ensures forall a :: 0 <= a < |FilterMap(days, f)| ==> back(FilterMap(days, f)[a].k) in DayIds(days)
    decreases |days|
  {
    if days != [] {
      var n := |days|;
      var init := days[..n - 1];
      var x := days[n - 1];
      WritesDistinct(init, f, back);
      var w0 := FilterMap(init, f);
      var ws := FilterMap(days, f);
      assert DayIds(days) == DayIds(init) + {(x.userId, x.day.date)};
      assert (x.userId, x.day.date) !in DayIds(init);
      forall a | 0 <= a < |ws|
        ensures back(ws[a].k) in DayIds(days)
      {
        if a < |w0| {
          assert ws[a] == w0[a];
        }
      }
    }
  }

  /** Every write of a batch built by `FilterMap` satisfies what every write of `f` satisfies. */
  lemma {:induction false} FilterMapAll<A, B>(s: seq<A>, f: A -> Option<B>, good: B -> bool)
    requires forall i :: 0 <= i < |s| && f(s[i]).Some? ==> good(f(s[i]).value)
    ensures forall j :: 0 <= j < |FilterMap(s, f)| ==> good(FilterMap(s, f)[j])
    decreases |s|
  {
    if s != [] {
      FilterMapAll(s[..|s| - 1], f, good);
    }
  }

  /** The detail key of a day is (user, business, clock-in), and clock-in falls on the day's date. */
  lemma DetailKeyOfDay(settings: seq<SettingsRow>, businessId: int, ud: UserDay)
    requires DayConsistent(ud.day)
    ensures DetailWriteOf(settings, businessId)(ud).Some?
    ensures var k := DetailWriteOf(settings, businessId)(ud).value.k;
            k.0 == ud.userId && k.1 == businessId && DateOf(k.2) == ud.day.date
  {
    var (startTime, grace) := Schedule(settings, ud.userId, businessId);
    DayClocks(startTime, grace, businessId, ud.day.date, ud.day.punches);
  }

  /** The detail writes and the summary writes of the import. */
  function DetailWrites(groups: seq<UserGroup>, settings: seq<SettingsRow>, businessId: int): seq<Write<DetailRow, (int, int, int)>>
  {
    FilterMap(FlatDays(groups), DetailWriteOf(settings, businessId))
  }

  function SummaryWrites(groups: seq<UserGroup>, settings: seq<SettingsRow>, businessId: int): seq<Write<SummaryRow, (int, int, int)>>
  {
    FilterMap(FlatDays(groups), SummaryWriteOf(settings, businessId))
  }

  function DetailBack(k: (int, int, int)): (int, int) { (k.0, DateOf(k.2)) }

  function SummaryBack(k: (int, int, int)): (int, int) { (k.0, k.2) }

  /** The writes of well-grouped buckets have distinct keys and are settled. */
  lemma WritesWellFormed(groups: seq<UserGroup>, settings: seq<SettingsRow>, businessId: int)
    requires WellGrouped(groups)
    ensures DistinctKeys(DetailWrites(groups, settings, businessId))
    ensures DistinctKeys(SummaryWrites(groups, settings, businessId))
    ensures forall j :: 0 <= j < |DetailWrites(groups, settings, businessId)| ==>
      Settled(DetailKey, DetailWrites(groups, settings, businessId)[j])
    ensures forall j :: 0 <= j < |SummaryWrites(groups, settings, businessId)| ==>
      Settled(SummaryKey, SummaryWrites(groups, settings, businessId)[j])
  {
    var days := FlatDays(groups);
    FlatDaysShape(groups);
    var df := DetailWriteOf(settings, businessId);
    var sf := SummaryWriteOf(settings, businessId);
    forall i | 0 <= i < |days|
      ensures df(days[i]).Some? && DetailBack(df(days[i]).value.k) == (days[i].userId, days[i].day.date)
      ensures sf(days[i]).Some? && SummaryBack(sf(days[i]).value.k) == (days[i].userId, days[i].day.date)
      ensures Settled(DetailKey, df(days[i]).value) && Settled(SummaryKey, sf(days[i]).value)
    {
      DetailKeyOfDay(settings, businessId, days[i]);
      var o := Outcome(settings, businessId, days[i]);
      DayWritesSettled(days[i].userId, businessId, days[i].day.date, o);
    }
    WritesDistinct(days, df, DetailBack);
    WritesDistinct(days, sf, SummaryBack);
    FilterMapAll(days, df, w => Settled(DetailKey, w));
    FilterMapAll(days, sf, w => Settled(SummaryKey, w));
  }

  /** Writing the same buckets a second time changes neither table: the write
      phase is idempotent. */
  lemma WriteDaysIdempotent(groups: seq<UserGroup>, settings: seq<SettingsRow>, businessId: int,
                            details: Table<DetailRow>, summaries: Table<SummaryRow>)
    requires WellGrouped(groups)
    ensures var dw := DetailWrites(groups, settings, businessId);
            SaveAll(SaveAll(details, DetailKey, dw), DetailKey, dw) == SaveAll(details, DetailKey, dw)
    ensures var sw := SummaryWrites(groups, settings, businessId);
            SaveAll(SaveAll(summaries, SummaryKey, sw), SummaryKey, sw) == SaveAll(summaries, SummaryKey, sw)
  {
    WritesWellFormed(groups, settings, businessId);
    SaveAllIdempotent(details, DetailKey, DetailWrites(groups, settings, businessId));
    SaveAllIdempotent(summaries, SummaryKey, SummaryWrites(groups, settings, businessId));
  }

  /** The write phase keeps the summary table's (user, business, date) index unique. */
  lemma WriteDaysKeepUnique(groups: seq<UserGroup>, settings: seq<SettingsRow>, businessId: int, summaries: Table<SummaryRow>)
    requires WellGrouped(groups)
    requires UniqueKeys(summaries.rows, SummaryKey)
    ensures UniqueKeys(SaveAll(summaries, SummaryKey, SummaryWrites(groups, settings, businessId)).rows, SummaryKey)
  {
    WritesWellFormed(groups, settings, businessId);
    SaveAllKeepsUnique(summaries, SummaryKey, SummaryWrites(groups, settings, businessId));
  }

  /** One batch of days written after another is the concatenated batch. */
  lemma SaveAllDaysAppend<R, K>(t: Table<R>, key: R -> K, done: seq<UserDay>, more: seq<UserDay>, f: UserDay -> Option<Write<R, K>>)
    ensures SaveAll(SaveAll(t, key, FilterMap(done, f)), key, FilterMap(more, f)) == SaveAll(t, key, FilterMap(done + more, f))
  {
    FilterMapAppend(done, more, f);
    SaveAllAppend(t, key, FilterMap(done, f), FilterMap(more, f));
  }

  lemma FlatDaysSnoc(groups: seq<UserGroup>, i: nat)
    requires i < |groups|
    ensures FlatDays(groups[..i + 1]) == FlatDays(groups[..i]) + UserDays(groups[i].userId, groups[i].days)
  {
    assert groups[..i + 1][..i] == groups[..i];
  }

  /** One more date of the user adds its day at the end. Kept apart from the
      loop below, whose proof it keeps small. */
  lemma UserDaysSnoc(userId: int, days: seq<DayGroup>, j: nat)
    requires j < |days|
    ensures UserDays(userId, days[..j + 1]) == UserDays(userId, days[..j]) + [UserDay(userId, days[j])]
  {
  }

  /** The inner loop: `processDayAttendance` for each date of one user. */
  method WriteUserDays(store: Store, userId: int, days: seq<DayGroup>, businessId: int)
    modifies store
    ensures store.settings == old(store.settings)
    ensures store.details == SaveAll(old(store.details), DetailKey, FilterMap(UserDays(userId, days), DetailWriteOf(store.settings.rows, businessId)))
    ensures store.summaries == SaveAll(old(store.summaries), SummaryKey, FilterMap(UserDays(userId, days), SummaryWriteOf(store.settings.rows, businessId)))
  {
    var df := DetailWriteOf(store.settings.rows, businessId);
    var sf := SummaryWriteOf(store.settings.rows, businessId);
    var j := 0;
    while j < |days|
      invariant 0 <= j <= |days|
      invariant store.settings == old(store.settings)
      invariant store.details == SaveAll(old(store.details), DetailKey, FilterMap(UserDays(userId, days[..j]), df))
      invariant store.summaries == SaveAll(old(store.summaries), SummaryKey, FilterMap(UserDays(userId, days[..j]), sf))
    {
      var ud := UserDay(userId, days[j]);
      ProcessDayAttendance(store, ud, businessId);
      SaveAllDaysAppend(old(store.details), DetailKey, UserDays(userId, days[..j]), [ud], df);
      SaveAllDaysAppend(old(store.summaries), SummaryKey, UserDays(userId, days[..j]), [ud], sf);
      UserDaysSnoc(userId, days, j);
      j := j + 1;
    }
    assert days[..j] == days;
  }

  /** The outer loop: every user's dates, users in first-seen order. */
  method WriteDays(store: Store, groups: seq<UserGroup>, businessId: int)
    modifies store
    ensures store.settings == old(store.settings)
    ensures store.details == SaveAll(old(store.details), DetailKey, DetailWrites(groups, store.settings.rows, businessId))
    ensures store.summaries == SaveAll(old(store.summaries), SummaryKey, SummaryWrites(groups, store.settings.rows, businessId))
  {
    var df := DetailWriteOf(store.settings.rows, businessId);
    var sf := SummaryWriteOf(store.settings.rows, businessId);
    var i := 0;
    while i < |groups|
      invariant 0 <= i <= |groups|
      invariant store.settings == old(store.settings)
      invariant store.details == SaveAll(old(store.details), DetailKey, FilterMap(FlatDays(groups[..i]), df))
      invariant store.summaries == SaveAll(old(store.summaries), SummaryKey, FilterMap(FlatDays(groups[..i]), sf))
    {
      var more := UserDays(groups[i].userId, groups[i].days);
      WriteUserDays(store, groups[i].userId, groups[i].days, businessId);
      SaveAllDaysAppend(old(store.details), DetailKey, FlatDays(groups[..i]), more, df);
      SaveAllDaysAppend(old(store.summaries), SummaryKey, FlatDays(groups[..i]), more, sf);
      FlatDaysSnoc(groups, i);
      i := i + 1;
    }
    assert groups[..i] == groups;
  }

  /** One step, by the three outcomes of resolving and parsing the record. */
  lemma StepCases(c: ImportContext, p: Pass, rec: PunchRecord, userId: Option<int>, settings: Table<SettingsRow>)
    requires !p.failed && ResolveCode(p.settings, c, rec.userCode) == (userId, settings)
    ensures userId.None? || userId.value == 0 ==> Step(c, p, rec) == p.(settings := settings)
    ensures userId.Some? && userId.value != 0 && c.parse(rec.datetime).None? ==>
      Step(c, p, rec) == Pass(p.groups, settings, true)
    ensures userId.Some? && userId.value != 0 && c.parse(rec.datetime).Some? ==>
      var t := c.parse(rec.datetime).value;
      Step(c, p, rec) == Pass(AddPunch(p.groups, userId.value, DateOf(t), t), settings, false)
  {
  }

  /** The first loop over one more record takes one more step. */
  lemma RunStep(c: ImportContext, p: Pass, records: seq<PunchRecord>, i: nat)
    requires i < |records|
    ensures Run(c, p, records[..i + 1]) == Step(c, Run(c, p, records[..i]), records[i])
  {
    assert records[..i + 1][..i] == records[..i];
  }

  /** Both loops of `processAttendanceFromFiles` over already parsed input. The
      import aborts, with only the resolver's writes done, at the first
      datetime that does not parse; otherwise every bucket is written and the
      count of buckets, one per distinct resolved user, is returned. */
  method ImportRecords(store: Store, c: ImportContext, records: seq<PunchRecord>) returns (count: Option<int>)
    modifies store
    ensures var p := Run(c, Pass([], old(store.settings), false), records);
      && store.settings == p.settings
      && (p.failed ==> count.None? && store.details == old(store.details) && store.summaries == old(store.summaries))
      && (!p.failed ==>
            && count == Some(|p.groups|)
            && store.details == SaveAll(old(store.details), DetailKey, DetailWrites(p.groups, p.settings.rows, c.businessId))
            && store.summaries == SaveAll(old(store.summaries), SummaryKey, SummaryWrites(p.groups, p.settings.rows, c.businessId)))
  {
    var groups, failed := GroupRecords(store, c, records);
    if failed {
      return None;
    }
    WriteDays(store, groups, c.businessId);
    return Some(|groups|);
  }

  /** The first loop of `processAttendanceFromFiles`: resolve each record and
      bucket its punch, stopping at the first datetime that does not parse. */
  method GroupRecords(store: Store, c: ImportContext, records: seq<PunchRecord>)
    returns (groups: seq<UserGroup>, failed: bool)
    modifies store
    ensures Run(c, Pass([], old(store.settings), false), records) == Pass(groups, store.settings, failed)
    ensures store.details == old(store.details) && store.summaries == old(store.summaries)
  {
    ghost var p0 := Pass([], store.settings, false);
    groups := [];
    var i := 0;
    while i < |records|
      invariant 0 <= i <= |records|
      invariant Run(c, p0, records[..i]) == Pass(groups, store.settings, false)
      invariant store.details == old(store.details) && store.summaries == old(store.summaries)
    {
      var record := records[i];
      ghost var prev := Pass(groups, store.settings, false);
      RunStep(c, p0, records, i);
      var userId := FindUserIdByCode(store, c, record.userCode);
      var time := c.parse(record.datetime);
      StepCases(c, prev, record, userId, store.settings);
      if userId.None? || userId.value == 0 {
        i := i + 1;
        continue;
      }
      if time.None? {
        RunFailed(c, p0, records, i + 1);
        return groups, true;
      }
      groups := AddPunch(groups, userId.value, DateOf(time.value), time.value);
      i := i + 1;
    }
    assert records[..i] == records;
    return groups, false;
  }

  /** `processAttendanceFromFiles($userFileContent, $attendanceFileContent, $businessId)`. */
  method ProcessAttendanceFromFiles(store: Store, users: seq<User>, userFileContent: string,
                                    attendanceFileContent: string, businessId: int, parse: string -> Option<int>)
    returns (count: Option<int>)
    modifies store
    ensures var c := ImportContext(users, Directory(userFileContent), businessId, parse);
      var p := Run(c, Pass([], old(store.settings), false), LogRecords(attendanceFileContent));
      && store.settings == p.settings
      && (p.failed ==> count.None? && store.details == old(store.details) && store.summaries == old(store.summaries))
      && (!p.failed ==>
            && count == Some(|p.groups|)
            && store.details == SaveAll(old(store.details), DetailKey, DetailWrites(p.groups, p.settings.rows, businessId))
            && store.summaries == SaveAll(old(store.summaries), SummaryKey, SummaryWrites(p.groups, p.settings.rows, businessId)))
  {
    var directory := ParseUserData(userFileContent);
    var records := ParseAttendanceData(attendanceFileContent);
    count := ImportRecords(store, ImportContext(users, directory, businessId, parse), records);
  }

  /** The import's result counts distinct users, and it keeps both unique
      indexes of the store. */
  lemma ImportShape(c: ImportContext, settings: Table<SettingsRow>, summaries: Table<SummaryRow>, records: seq<PunchRecord>)
    requires UniqueKeys(settings.rows, SettingsKey) && UniqueKeys(summaries.rows, SummaryKey)
    ensures var p := Run(c, Pass([], settings, false), records);
      && WellGrouped(p.groups)
      && |p.groups| == |Users(p.groups)|
      && UniqueKeys(p.settings.rows, SettingsKey)
      && UniqueKeys(SaveAll(summaries, SummaryKey, SummaryWrites(p.groups, p.settings.rows, c.businessId)).rows, SummaryKey)
  {
    var p := Run(c, Pass([], settings, false), records);
    RunWellGrouped(c, Pass([], settings, false), records);
    RunKeepsUnique(c, Pass([], settings, false), records);
    BucketsAreUsers(p.groups);
    WriteDaysKeepUnique(p.groups, p.settings.rows, c.businessId, summaries);
  }
}
