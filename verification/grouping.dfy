/** The nested `$processedData[$userId][$date]['records']` array of
    `processAttendanceFromFiles`: punches bucketed per user, then per calendar
    date, both levels in first-seen order (PHP arrays keep insertion order). */
module Grouping {
  import opened Common
  import opened Calendar
  import opened Tables
  import opened AttendanceDay

  /** The days of one user. */
  datatype UserGroup = UserGroup(userId: int, days: seq<DayGroup>)

  function OfUser(userId: int): UserGroup -> bool
  {
    (g: UserGroup) => g.userId == userId
  }

  function OnDate(date: int): DayGroup -> bool
  {
    (d: DayGroup) => d.date == date
  }

  /** `$days[$date]['records'][] = $time`, creating the day when absent. */
  function AddToDays(days: seq<DayGroup>, date: int, t: int): seq<DayGroup>
  {
    match FirstIndex(days, OnDate(date))
    case Some(j) => days[j := DayGroup(date, days[j].punches + [t])]
    case None => days + [DayGroup(date, [t])]
  }

  /** `$processedData[$userId][$date]['records'][] = $time`, creating the user
      and the day when absent. */
  function AddPunch(groups: seq<UserGroup>, userId: int, date: int, t: int): seq<UserGroup>
  {
    match FirstIndex(groups, OfUser(userId))
    case Some(i) => groups[i := UserGroup(userId, AddToDays(groups[i].days, date, t))]
    case None => groups + [UserGroup(userId, [DayGroup(date, [t])])]
  }

  /** The punches collected for `date` among one user's days, empty when there are none. */
  function DayPunches(days: seq<DayGroup>, date: int): seq<int>
  {
    match FirstIndex(days, OnDate(date))
    case None => []
    case Some(j) => days[j].punches
  }

  /** The punches collected for (user, date), empty when there are none. */
  function PunchesOf(groups: seq<UserGroup>, userId: int, date: int): seq<int>
  {
    match FirstIndex(groups, OfUser(userId))
    case None => []
    case Some(i) => DayPunches(groups[i].days, date)
  }

  /** The days of one user are keyed by date, non-empty, and hold only punches of their date. */
  predicate DaysWellFormed(days: seq<DayGroup>)
  {
    && (forall i, j :: 0 <= i < j < |days| ==> days[i].date != days[j].date)
    && (forall i :: 0 <= i < |days| ==> |days[i].punches| > 0)
    && (forall i, k :: 0 <= i < |days| && 0 <= k < |days[i].punches| ==> DateOf(days[i].punches[k]) == days[i].date)
  }

  /** The array is keyed by user, and each user's days are well formed. */
  predicate WellGrouped(groups: seq<UserGroup>)
  {
    && (forall i, j :: 0 <= i < j < |groups| ==> groups[i].userId != groups[j].userId)
    && (forall i :: 0 <= i < |groups| ==> DaysWellFormed(groups[i].days))
  }

  /** The users that have a bucket. */
  function Users(groups: seq<UserGroup>): set<int>
  {
    set i | 0 <= i < |groups| :: groups[i].userId
  }

  lemma AddToDaysWellFormed(days: seq<DayGroup>, date: int, t: int)
    requires DaysWellFormed(days) && DateOf(t) == date
    ensures DaysWellFormed(AddToDays(days, date, t))
  {
    var r := AddToDays(days, date, t);
    match FirstIndex(days, OnDate(date))
    case Some(j) =>
      assert forall i :: 0 <= i < |days| && i != j ==> r[i] == days[i];
      assert forall k :: 0 <= k < |r[j].punches| ==> r[j].punches[k] == if k < |days[j].punches| then days[j].punches[k] else t;
    case None =>
      assert forall i :: 0 <= i < |days| ==> r[i] == days[i];
  }

  /** Adding a punch keeps the array well formed, provided the punch falls on its date. */
  lemma AddPunchWellGrouped(groups: seq<UserGroup>, userId: int, date: int, t: int)
    requires WellGrouped(groups) && DateOf(t) == date
    ensures WellGrouped(AddPunch(groups, userId, date, t))
  {
    var r := AddPunch(groups, userId, date, t);
    match FirstIndex(groups, OfUser(userId))
    case Some(i) =>
      AddToDaysWellFormed(groups[i].days, date, t);
      assert forall j :: 0 <= j < |groups| && j != i ==> r[j] == groups[j];
    case None =>
      assert forall j :: 0 <= j < |groups| ==> r[j] == groups[j];
  }

  lemma AddToDaysCollects(days: seq<DayGroup>, date: int, t: int, d: int)
    ensures DayPunches(AddToDays(days, date, t), d) == DayPunches(days, d) + (if d == date then [t] else [])
  {
    var nd := AddToDays(days, date, t);
    assert forall k :: 0 <= k < |days| ==> nd[k].date == days[k].date;
    FirstIndexSame(days, nd, OnDate(d));
    match FirstIndex(days, OnDate(date))
    case Some(j) =>
      assert forall k :: 0 <= k < |days| && k != j ==> nd[k] == days[k];
    case None =>
      assert forall k :: 0 <= k < |days| ==> nd[k] == days[k];
  }

  /** Adding a punch appends it to the bucket of its (user, date) and to no other. */
  lemma AddPunchCollects(groups: seq<UserGroup>, userId: int, date: int, t: int, u: int, d: int)
    ensures PunchesOf(AddPunch(groups, userId, date, t), u, d)
         == PunchesOf(groups, u, d) + (if u == userId && d == date then [t] else [])
  {
    var r := AddPunch(groups, userId, date, t);
    match FirstIndex(groups, OfUser(userId))
    case Some(i) =>
      assert forall j :: 0 <= j < |groups| ==> r[j].userId == groups[j].userId;
      assert forall j :: 0 <= j < |groups| && j != i ==> r[j] == groups[j];
      FirstIndexSame(groups, r, OfUser(u));
      AddToDaysCollects(groups[i].days, date, t, d);
    case None =>
      assert forall j :: 0 <= j < |groups| ==> r[j] == groups[j];
      FirstIndexSame(groups, r, OfUser(u));
      if u == userId && d == date {
        FirstIndexAt(r[|groups|].days, OnDate(d), 0);
      }
  }

  /** A first match in a sequence stays the first match in a sequence that
      agrees with it on the predicate and only extends it. */
  lemma FirstIndexSame<T>(s: seq<T>, r: seq<T>, p: T -> bool)
    requires |s| <= |r|
    requires forall j :: 0 <= j < |s| ==> p(r[j]) == p(s[j])
    ensures FirstIndex(s, p).Some? ==> FirstIndex(r, p) == FirstIndex(s, p)
    ensures FirstIndex(s, p).None? && |s| == |r| ==> FirstIndex(r, p).None?
    ensures FirstIndex(s, p).None? && |s| < |r| && p(r[|s|]) ==> FirstIndex(r, p) == Some(|s|)
  {
    if FirstIndex(s, p).Some? {
      FirstIndexAt(r, p, FirstIndex(s, p).value);
    } else if |s| < |r| && p(r[|s|]) {
      FirstIndexAt(r, p, |s|);
    }
  }

  /** Adding a punch adds its user to the users with a bucket. */
  lemma AddPunchUsers(groups: seq<UserGroup>, userId: int, date: int, t: int)
    ensures Users(AddPunch(groups, userId, date, t)) == Users(groups) + {userId}
  {
    var r := AddPunch(groups, userId, date, t);
    match FirstIndex(groups, OfUser(userId))
    case Some(i) =>
      assert forall j :: 0 <= j < |groups| ==> r[j].userId == groups[j].userId;
      assert userId == groups[i].userId;
    case None =>
      assert forall j :: 0 <= j < |groups| ==> r[j] == groups[j];
      assert r[|groups|].userId == userId;
  }

  /** With one bucket per user, the number of buckets is the number of distinct users. */
  lemma {:induction false} BucketsAreUsers(groups: seq<UserGroup>)
    requires forall i, j :: 0 <= i < j < |groups| ==> groups[i].userId != groups[j].userId
    ensures |Users(groups)| == |groups|
  {
    if groups != [] {
      var n := |groups|;
      var init := groups[..n - 1];
      BucketsAreUsers(init);
      assert Users(groups) == Users(init) + {groups[n - 1].userId};
      assert groups[n - 1].userId !in Users(init);
    }
  }
}
