/** `findUserIdByCode` of
    Modules/Essentials/Services/AttendanceProcessingService.php: a device code
    is resolved through the business's settings rows, or else through the
    parsed directory and a fuzzy name search over all users, which then records
    the code in the user's settings row. */
module Resolver {
  import opened Common
  import opened Text
  import opened Tables
  import opened EmployeeSettings
  import opened AttendanceDb

  /** What one import run resolves against: the users table (in id order), the
      code→name directory, the business, and the datetime parser (Carbon's
      `parse`, where `None` stands for the exception it throws). */
  datatype ImportContext = ImportContext(
    users: seq<User>,
    directory: map<string, string>,
    businessId: int,
    parse: string -> Option<int>)

  /** `username LIKE %name% OR first_name LIKE %name%`, over all businesses. */
  function NameMatch(name: string): User -> bool
  {
    (u: User) => ContainsIgnoringCase(u.username, name) || ContainsIgnoringCase(u.firstName, name)
  }

  /** The first user (in id order) whose username or first name contains `name`. */
  function FindUserByName(users: seq<User>, name: string): (r: Option<User>)
    ensures r.Some? ==> r.value in users && NameMatch(name)(r.value)
    ensures r.Some? ==> exists i :: 0 <= i < |users| && users[i] == r.value
                         && forall j :: 0 <= j < i ==> !NameMatch(name)(users[j])
    ensures r.None? <==> forall i :: 0 <= i < |users| ==> !NameMatch(name)(users[i])
  {
    match FirstIndex(users, NameMatch(name))
    case None => None
    case Some(i) => Some(users[i])
  }

  /** The lazy `updateOrCreate` on (user_id, business_id) with
      `employee_code = code` and `status = active`. */
  function CodeWrite(userId: int, businessId: int, code: string): Write<SettingsRow, (int, int)>
  {
    Write((userId, businessId),
      (r: SettingsRow) => r.(employeeCode := Some(code), status := "active"),
      (id: int) => DefaultRow(id, userId, businessId).(employeeCode := Some(code), status := "active"))
  }

  /** The code write keeps its key, creates under it, and settles after one application. */
  lemma CodeWriteSettled(userId: int, businessId: int, code: string)
    ensures Settled(SettingsKey, CodeWrite(userId, businessId, code))
  {
  }

  /** The resolution of one code: the user found, if any, and the settings table afterwards. */
  function ResolveCode(settings: Table<SettingsRow>, c: ImportContext, code: string): (Option<int>, Table<SettingsRow>)
  {
    match Lookup(settings.rows, CodeKey, (Some(code), c.businessId))
    case Some(r) => (Some(r.userId), settings)
    case None =>
      if code !in c.directory then (None, settings)
      else match FindUserByName(c.users, c.directory[code])
        case None => (None, settings)
        case Some(u) => (Some(u.id), Save(settings, SettingsKey, CodeWrite(u.id, c.businessId, code)))
  }

  /** The three branches: a code already recorded for the business yields its
      row's user and writes nothing; otherwise a directory name that matches a
      user yields that user and records the code, active, in the settings row of
      (user, business); otherwise nothing is found and nothing is written. */
  lemma ResolveBranches(settings: Table<SettingsRow>, c: ImportContext, code: string)
    ensures var found := Lookup(settings.rows, CodeKey, (Some(code), c.businessId));
      var (userId, after) := ResolveCode(settings, c, code);
      && (found.Some? ==> userId == Some(found.value.userId) && after == settings)
      && (found.None? && code in c.directory && FindUserByName(c.users, c.directory[code]).Some? ==>
            var u := FindUserByName(c.users, c.directory[code]).value;
            && userId == Some(u.id)
            && var row := Lookup(after.rows, SettingsKey, (u.id, c.businessId));
            && row.Some? && row.value.employeeCode == Some(code) && row.value.status == "active")
      && (found.None? && (code !in c.directory || FindUserByName(c.users, c.directory[code]).None?) ==>
            userId.None? && after == settings)
  {
    var found := Lookup(settings.rows, CodeKey, (Some(code), c.businessId));
    if found.None? && code in c.directory && FindUserByName(c.users, c.directory[code]).Some? {
      var u := FindUserByName(c.users, c.directory[code]).value;
      var w := CodeWrite(u.id, c.businessId, code);
      UpsertLookup(settings.rows, SettingsKey, w.k, w.update, w.create(settings.nextId));
    }
  }

  /** Resolution is stable: resolving the same code again in the settings it
      left behind finds the same user through the recorded code and writes
      nothing. */
  lemma ResolveStable(settings: Table<SettingsRow>, c: ImportContext, code: string)
    requires ResolveCode(settings, c, code).0.Some?
    ensures var (userId, after) := ResolveCode(settings, c, code);
            ResolveCode(after, c, code) == (userId, after)
  {
    var rows := settings.rows;
    var ck := (Some(code), c.businessId);
    if Lookup(rows, CodeKey, ck).None? {
      var u := FindUserByName(c.users, c.directory[code]).value;
      var w := CodeWrite(u.id, c.businessId, code);
      var after := Save(settings, SettingsKey, w).rows;
      var i := match FirstIndex(rows, HasKey(SettingsKey, w.k)) case Some(i) => i case None => |rows|;
      var before := if i < |rows| then rows[i] else w.create(settings.nextId);
      assert before.businessId == c.businessId;
      assert i < |after| && after[i] == w.update(before);
      assert w.update(before) == before.(employeeCode := Some(code), status := "active");
      assert after[i].employeeCode == Some(code) && after[i].businessId == c.businessId;
      assert CodeKey(after[i]) == ck;
      assert HasKey(CodeKey, ck)(after[i]);
      assert forall j :: 0 <= j < |rows| && j != i ==> after[j] == rows[j];
      FirstIndexAt(after, HasKey(CodeKey, ck), i);
    }
  }

  /** Resolution keeps the settings table's (user, business) index unique. */
  lemma ResolveKeepsUnique(settings: Table<SettingsRow>, c: ImportContext, code: string)
    requires UniqueKeys(settings.rows, SettingsKey)
    ensures UniqueKeys(ResolveCode(settings, c, code).1.rows, SettingsKey)
  {
    var found := Lookup(settings.rows, CodeKey, (Some(code), c.businessId));
    if found.None? && code in c.directory && FindUserByName(c.users, c.directory[code]).Some? {
      var u := FindUserByName(c.users, c.directory[code]).value;
      SaveKeepsUnique(settings, SettingsKey, CodeWrite(u.id, c.businessId, code));
    }
  }

  /** `findUserIdByCode($code, $users, $businessId)`. */
  method FindUserIdByCode(store: Store, c: ImportContext, code: string) returns (userId: Option<int>)
    modifies store
    ensures (userId, store.settings) == ResolveCode(old(store.settings), c, code)
    ensures store.details == old(store.details) && store.summaries == old(store.summaries)
  {
    var employeeSettings := Lookup(store.settings.rows, CodeKey, (Some(code), c.businessId));
    if employeeSettings.Some? {
      return Some(employeeSettings.value.userId);
    }
    if code in c.directory {
      var user := FindUserByName(c.users, c.directory[code]);
      if user.Some? {
        store.settings := Save(store.settings, SettingsKey, CodeWrite(user.value.id, c.businessId, code));
        return Some(user.value.id);
      }
    }
    return None;
  }
}
