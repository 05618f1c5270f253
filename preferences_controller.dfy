/** `updateNotificationPreferences`: the caller switches system and email
    notifications on or off. */
module PreferencesController {
  import opened Common
  import opened UserModel
  import opened Store

  /** The preferences given to an account stored without any, before the
      body is applied: both channels on, where the schema default leaves
      email off. */
  const MIGRATED_PREFS: Prefs := Prefs(true, true)

  /** `if (x !== undefined) path = x`. */
  function Choose(given: Option<bool>, current: bool): bool {
    if given.Some? then given.value else current
  }

  /** The preferences after the update: the stored ones, or the migrated
      ones when none are stored, with the values the body carries. */
  function NewPrefs(stored: Option<Prefs>, system: Option<bool>, email: Option<bool>): (p: Prefs)
    ensures system.Some? ==> p.system == system.value
    ensures email.Some? ==> p.email == email.value
    ensures system.None? ==> p.system == (stored.None? || stored.value.system)
    ensures email.None? ==> p.email == (stored.None? || stored.value.email)
  {
    var base := if stored.Some? then stored.value else MIGRATED_PREFS;
    Prefs(Choose(system, base.system), Choose(email, base.email))
  }

  /** The handler: an unknown caller is refused; otherwise the caller's
      preferences are updated and answered as stored. */
  function UpdatePreferencesSpec(users: seq<User>, userId: Option<Id>, system: Option<bool>,
                                 email: Option<bool>): (r: (seq<User>, Result<Prefs>))
    ensures r.1.Ok? <==> UserById(users, userId).Ok? && UserById(users, userId).value.Some?
    ensures r.1.Err? ==> r.0 == users
    ensures UserById(users, userId).Err? ==> r.1 == Err(ServerError("Error updating preferences"))
    ensures UserById(users, userId) == Ok(None) ==> r.1 == Err(NotFound("User not found"))
    ensures r.1.Ok? ==> var k := UserById(users, userId).value.value;
      r.0 == users[k := users[k].(prefs := Some(r.1.value))] &&
      r.1.value == NewPrefs(users[k].prefs, system, email)
  {
    match UserById(users, userId)
    case Err(_) => (users, Err(ServerError("Error updating preferences")))
    case Ok(None) => (users, Err(NotFound("User not found")))
    case Ok(Some(k)) =>
      var p := NewPrefs(users[k].prefs, system, email);
      (users[k := users[k].(prefs := Some(p))], Ok(p))
  }

  /** An account stored without preferences that sends no `email` value
      ends with email notifications on, unlike a new account. */
  lemma MigrationTurnsEmailOn(users: seq<User>, userId: Option<Id>, system: Option<bool>)
    requires UserById(users, userId).Ok? && UserById(users, userId).value.Some?
    requires users[UserById(users, userId).value.value].prefs.None?
    ensures UpdatePreferencesSpec(users, userId, system, None).1 == Ok(Prefs(Choose(system, true), true))
    ensures DEFAULT_PREFS.email != UpdatePreferencesSpec(users, userId, system, None).1.value.email
  {
  }

  /** Sending the same body twice has the effect of sending it once. */
  lemma UpdatePreferencesIdempotent(users: seq<User>, userId: Option<Id>, system: Option<bool>,
                                    email: Option<bool>)
    ensures var once := UpdatePreferencesSpec(users, userId, system, email);
      UpdatePreferencesSpec(once.0, userId, system, email) == once
  {
    match UserById(users, userId)
    case Err(_) =>
    case Ok(None) =>
    case Ok(Some(k)) =>
      var once := UpdatePreferencesSpec(users, userId, system, email);
      FirstIndexUpdate(users, UserIdIs(ObjectIdOf(userId.value)), k, once.0[k]);
      var p := once.1.value;
      assert NewPrefs(Some(p), system, email) == p;
      assert once.0[k := once.0[k].(prefs := Some(p))] == once.0;
  }

  /** An empty body changes nothing but a missing record of preferences. */
  lemma EmptyBodyKeepsPrefs(users: seq<User>, userId: Option<Id>)
    requires UserById(users, userId).Ok? && UserById(users, userId).value.Some?
    ensures var k := UserById(users, userId).value.value;
      var p := UpdatePreferencesSpec(users, userId, None, None).1.value;
      p == if users[k].prefs.Some? then users[k].prefs.value else MIGRATED_PREFS
  {
  }

  method UpdateNotificationPreferences(db: Db, userId: Option<Id>, system: Option<bool>,
                                       email: Option<bool>) returns (r: Result<Prefs>)
    requires db.Valid()
    modifies db`users
    ensures db.Valid()
    ensures (db.users, r) == UpdatePreferencesSpec(old(db.users), userId, system, email)
  {
    var found := UserById(db.users, userId);
    if found.Err? {
      r := Err(ServerError("Error updating preferences"));
      return;
    }
    if found.value.None? {
      r := Err(NotFound("User not found"));
      return;
    }
    var k := found.value.value;
    var p := NewPrefs(db.users[k].prefs, system, email);
    var u := db.users[k].(prefs := Some(p));
    assert UserModel.SchemaValid(db.users[k]);
    assert u.email == db.users[k].email && u.password == db.users[k].password;
    UserModel.UpdateKeepsValid(db.users, k, u);
    db.users := db.users[k := u];
    r := Ok(p);
  }
}
