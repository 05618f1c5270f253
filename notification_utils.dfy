/** The notification helpers the handlers call: one notification for one
    recipient, and the fan-outs to every super admin and to the admins,
    leaders and managers of one organisation. Each swallows its failures:
    a failed write leaves the collection as it was and reaches no caller. */
module NotificationUtils {
  import opened Common
  import opened UserModel
  import opened NotificationModel
  import opened Store

  // ---------------------------------------------------------------------
  // Writing

  /** `Notification.create(...)`, its error caught: the record is stored
      when it passes the validators and its id is free, and nothing changes
      otherwise. */
  function CreateSpec(ns: seq<Notification>, n: Notification): (r: (seq<Notification>, Option<Notification>))
    ensures r.1.Some? <==> NotificationModel.SchemaValid(n) && !IdTaken(ns, n.id)
    ensures r.1.Some? ==> r.1.value == n && r.0 == ns + [n]
    ensures r.1.None? ==> r.0 == ns
  {
    if NotificationModel.SchemaValid(n) && !IdTaken(ns, n.id) then (ns + [n], Some(n)) else (ns, None)
  }

  lemma CreateKeepsValid(ns: seq<Notification>, n: Notification)
    requires NotificationModel.StoreValid(ns)
    ensures NotificationModel.StoreValid(CreateSpec(ns, n).0)
  {
  }

  /** `createNotification`: a missing `type` is "info", a missing `link`
      null; the new record is answered, or nothing when the write failed. */
  method CreateNotification(db: Db, id: Id, recipient: Id, title: string, message: string,
                            kind: Field, link: Field, now: Time) returns (r: Option<Notification>)
    requires db.Valid()
    modifies db`notifications
    ensures db.Valid()
    ensures (db.notifications, r) ==
      CreateSpec(old(db.notifications), NewNotification(id, recipient, title, message, kind, link, now))
  {
    var n := NewNotification(id, recipient, title, message, kind, link, now);
    CreateKeepsValid(db.notifications, n);
    var (ns, created) := CreateSpec(db.notifications, n);
    db.notifications := ns;
    r := created;
  }

  /** Every record of a batch passes the validators and takes an id no
      stored record and no other record of the batch holds. */
  ghost predicate Insertable(ns: seq<Notification>, batch: seq<Notification>) {
    (forall i :: 0 <= i < |batch| ==> NotificationModel.SchemaValid(batch[i]) && !IdTaken(ns, batch[i].id)) &&
    (forall i, j :: 0 <= i < j < |batch| ==> batch[i].id != batch[j].id)
  }

  /** `Notification.insertMany(batch)`, its error caught. The validators
      run over the whole batch before anything is written. */
  function InsertMany(ns: seq<Notification>, batch: seq<Notification>): (r: seq<Notification>)
    ensures NotificationModel.StoreValid(ns) ==> NotificationModel.StoreValid(r)
    ensures r == ns || r == ns + batch
  {
    if (forall i :: 0 <= i < |batch| ==> NotificationModel.SchemaValid(batch[i]) && !IdTaken(ns, batch[i].id)) &&
       (forall i, j :: 0 <= i < j < |batch| ==> batch[i].id != batch[j].id)
    then
      assert forall i :: 0 <= i < |ns| ==> (ns + batch)[i] == ns[i];
      assert forall i :: 0 <= i < |batch| ==> (ns + batch)[|ns| + i] == batch[i];
      ns + batch
    else ns
  }

  /** A batch is stored whole exactly when it is insertable. */
  lemma InsertManyAllOrNothing(ns: seq<Notification>, batch: seq<Notification>)
    ensures Insertable(ns, batch) ==> InsertMany(ns, batch) == ns + batch
    ensures !Insertable(ns, batch) ==> InsertMany(ns, batch) == ns
  {
  }

  /** One notification per recipient, in the recipients' order, sharing
      title, message and type; `link` is left at its default, null. */
  function FanOut(recipients: seq<Id>, newId: nat -> Id, title: string, message: string,
                  kind: Field, now: Time): (batch: seq<Notification>)
    ensures |batch| == |recipients|
    ensures forall i :: 0 <= i < |batch| ==>
      batch[i] == NewNotification(newId(i), recipients[i], title, message, kind, Absent, now)
  {
    seq(|recipients|, i requires 0 <= i < |recipients| =>
      NewNotification(newId(i), recipients[i], title, message, kind, Absent, now))
  }

  // ---------------------------------------------------------------------
  // Recipients

  /** `!excludeUser || admin._id.toString() !== excludeUser.toString()`. */
  predicate Kept(u: User, excludeUser: Option<string>) {
    !Present(excludeUser) || u.id != excludeUser.value
  }

  function Ids(us: seq<User>): (r: seq<Id>)
    ensures |r| == |us|
    ensures forall i :: 0 <= i < |us| ==> r[i] == us[i].id
  {
    seq(|us|, i requires 0 <= i < |us| => us[i].id)
  }

  function SuperAdminTarget(excludeUser: Option<string>): User -> bool {
    (u: User) => u.role == Some(SuperAdmin) && Kept(u, excludeUser)
  }

  /** The roles that run an organisation. */
  predicate Leads(role: Option<Role>) {
    role == Some(Admin) || role == Some(Leader) || role == Some(Manager)
  }

  /** The filter `{ role: { $in: [...] }, orgName }`, whose name is trimmed
      like the stored one, then the exclusion. */
  function OrgTarget(orgName: string, excludeUser: Option<string>): User -> bool {
    (u: User) => Leads(u.role) && u.orgName == Some(Trim(orgName)) && Kept(u, excludeUser)
  }

  /** The recipients of a fan-out: the ids of the users `target` selects, in
      storage order. */
  function Recipients(users: seq<User>, target: User -> bool): seq<Id> {
    Ids(Filter(users, target))
  }

  /** The recipients are exactly the selected users, one entry each. */
  lemma RecipientsExact(users: seq<User>, target: User -> bool)
    ensures |Recipients(users, target)| == Count(users, target)
    ensures forall i :: 0 <= i < |users| && target(users[i]) ==> users[i].id in Recipients(users, target)
    ensures forall id :: id in Recipients(users, target) ==>
      exists i :: 0 <= i < |users| && target(users[i]) && users[i].id == id
  {
    var kept := Filter(users, target);
    var r := Recipients(users, target);
    forall i | 0 <= i < |users| && target(users[i]) ensures users[i].id in r {
      FilterKeeps(users, target, i);
      var j :| 0 <= j < |kept| && kept[j] == users[i];
      assert r[j] == users[i].id;
    }
    forall id | id in r ensures exists i :: 0 <= i < |users| && target(users[i]) && users[i].id == id {
      var j :| 0 <= j < |r| && r[j] == id;
      FilterFrom(users, target, j);
      var i :| 0 <= i < |users| && users[i] == kept[j];
    }
  }

  /** Recipients are chosen by role, organisation and id only: changing a
      user's notification preferences changes nobody's share of a fan-out. */
  lemma PreferencesIgnored(users: seq<User>, excludeUser: Option<string>, orgName: string, k: nat, p: Option<Prefs>)
    requires k < |users|
    ensures Recipients(users[k := users[k].(prefs := p)], SuperAdminTarget(excludeUser)) ==
            Recipients(users, SuperAdminTarget(excludeUser))
    ensures Recipients(users[k := users[k].(prefs := p)], OrgTarget(orgName, excludeUser)) ==
            Recipients(users, OrgTarget(orgName, excludeUser))
  {
    SameIdsUnderUpdate(users, SuperAdminTarget(excludeUser), k, users[k].(prefs := p));
    SameIdsUnderUpdate(users, OrgTarget(orgName, excludeUser), k, users[k].(prefs := p));
  }

  /** The recipients of a non-empty list: the first user's id when it is
      selected, then the recipients of the rest. */
  lemma RecipientsCons(users: seq<User>, target: User -> bool)
    requires users != []
    ensures Recipients(users, target) ==
      (if target(users[0]) then [users[0].id] else []) + Recipients(users[1..], target)
  {
    if target(users[0]) {
      var rest := Filter(users[1..], target);
      assert Filter(users, target) == [users[0]] + rest;
      assert Ids([users[0]] + rest) == [users[0].id] + Ids(rest);
    }
  }

  lemma {:induction false} SameIdsUnderUpdate(users: seq<User>, target: User -> bool, k: nat, x: User)
    requires k < |users| && target(x) == target(users[k]) && x.id == users[k].id
    ensures Recipients(users[k := x], target) == Recipients(users, target)
    decreases |users|
  {
    var t := users[k := x];
    if k == 0 {
      assert t[1..] == users[1..];
    } else {
      assert t[1..] == users[1..][k - 1 := x];
      SameIdsUnderUpdate(users[1..], target, k - 1, x);
    }
    assert target(t[0]) == target(users[0]) && t[0].id == users[0].id;
    RecipientsCons(t, target);
    RecipientsCons(users, target);
  }

  // ---------------------------------------------------------------------
  // Fan-outs

  /** `notifySuperAdmins`: one notification for every super admin but
      `excludeUser`. */
  function NotifySuperAdminsSpec(ns: seq<Notification>, users: seq<User>, title: string, message: string,
                                 kind: Field, excludeUser: Option<string>, newId: nat -> Id, now: Time)
    : seq<Notification>
  {
    var recipients := Recipients(users, SuperAdminTarget(excludeUser));
    if |recipients| > 0 then InsertMany(ns, FanOut(recipients, newId, title, message, kind, now)) else ns
  }

  /** `notifyOrgAdmins`: nothing without an organisation name; otherwise one
      notification for every admin, leader and manager of that organisation
      but `excludeUser`. */
  function NotifyOrgAdminsSpec(ns: seq<Notification>, users: seq<User>, orgName: Option<string>,
                               title: string, message: string, kind: Field, excludeUser: Option<string>,
                               newId: nat -> Id, now: Time): seq<Notification>
  {
    if !Present(orgName) then ns
    else
      var recipients := Recipients(users, OrgTarget(orgName.value, excludeUser));
      if |recipients| > 0 then InsertMany(ns, FanOut(recipients, newId, title, message, kind, now)) else ns
  }

  /** What a fan-out writes: when it writes at all, it appends one unread
      notification per recipient with the given title and message, and
      nothing else changes. */
  lemma FanOutEffect(ns: seq<Notification>, recipients: seq<Id>, newId: nat -> Id, title: string,
                     message: string, kind: Field, now: Time)
    ensures var r := InsertMany(ns, FanOut(recipients, newId, title, message, kind, now));
      r == ns ||
      (|r| == |ns| + |recipients| && r[..|ns|] == ns &&
       forall i :: 0 <= i < |recipients| ==>
         r[|ns| + i].recipient == ObjectIdOf(recipients[i]) && r[|ns| + i].title == title &&
         r[|ns| + i].message == message && !r[|ns| + i].isRead && r[|ns| + i].link.None?)
  {
    var batch := FanOut(recipients, newId, title, message, kind, now);
    var r := InsertMany(ns, batch);
    if r != ns {
      assert r == ns + batch;
      assert forall i :: 0 <= i < |recipients| ==> r[|ns| + i] == batch[i];
    }
  }

  /** Without an organisation name, or with nobody to tell, the collection
      is untouched. */
  lemma OrgFanOutEmpty(ns: seq<Notification>, users: seq<User>, orgName: Option<string>,
                       title: string, message: string, kind: Field, excludeUser: Option<string>,
                       newId: nat -> Id, now: Time)
    requires !Present(orgName) ||
      forall i :: 0 <= i < |users| ==> !OrgTarget(orgName.value, excludeUser)(users[i])
    ensures NotifyOrgAdminsSpec(ns, users, orgName, title, message, kind, excludeUser, newId, now) == ns
  {
    if Present(orgName) {
      var target := OrgTarget(orgName.value, excludeUser);
      var f := Filter(users, target);
      if f != [] {
        FilterFrom(users, target, 0);
        assert false;
      }
    }
  }

  method NotifySuperAdmins(db: Db, title: string, message: string, kind: Field,
                           excludeUser: Option<string>, newId: nat -> Id, now: Time)
    requires db.Valid()
    modifies db`notifications
    ensures db.Valid()
    ensures db.notifications ==
      NotifySuperAdminsSpec(old(db.notifications), db.users, title, message, kind, excludeUser, newId, now)
  {
    db.notifications := NotifySuperAdminsSpec(db.notifications, db.users, title, message, kind, excludeUser, newId, now);
  }

  method NotifyOrgAdmins(db: Db, orgName: Option<string>, title: string, message: string, kind: Field,
                         excludeUser: Option<string>, newId: nat -> Id, now: Time)
    requires db.Valid()
    modifies db`notifications
    ensures db.Valid()
    ensures db.notifications ==
      NotifyOrgAdminsSpec(old(db.notifications), db.users, orgName, title, message, kind, excludeUser, newId, now)
  {
    db.notifications := NotifyOrgAdminsSpec(db.notifications, db.users, orgName, title, message, kind, excludeUser, newId, now);
  }
}
