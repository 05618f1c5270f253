/** `getMe` and `updateProfile`: the assessment status shown to the signed-in
    user, and the partial update of a profile. */
module UserController {
  import opened Common
  import opened UserModel
  import opened AssessmentModel
  import opened Store

  // ---------------------------------------------------------------------
  // getMe

  datatype AssessmentStatus = NotRequired | Pending | Due | Completed

  /** The roles that owe an assessment. */
  predicate Assessed(role: Option<Role>) {
    role == Some(Admin) || role == Some(Leader) || role == Some(Manager)
  }

  function OwnIncomplete(uid: Id): Assessment -> bool {
    (a: Assessment) => a.userId == Some(uid) && !a.isCompleted
  }

  function OwnCompleted(uid: Id): Assessment -> bool {
    (a: Assessment) => a.userId == Some(uid) && a.isCompleted
  }

  /** The later of two submission times; a missing time sorts below every
      time, as MongoDB orders a missing field. */
  function Later(x: Option<Time>, y: Option<Time>): (r: Option<Time>)
    ensures r == x || r == y
    ensures r.None? <==> x.None? && y.None?
    ensures r.Some? && x.Some? ==> x.value <= r.value
    ensures r.Some? && y.Some? ==> y.value <= r.value
  {
    if x.None? then y
    else if y.None? then x
    else if x.value >= y.value then x else y
  }

  /** `submittedAt` of `Assessment.findOne({ userId, isCompleted: true })
      .sort({ submittedAt: -1 })`: `None` when there is no completed
      assessment, else the latest submission time, itself `None` when no
      completed assessment has one. */
  function LatestSubmission(as_: seq<Assessment>, uid: Id): (r: Option<Option<Time>>)
    ensures r.None? <==> forall i :: 0 <= i < |as_| ==> !OwnCompleted(uid)(as_[i])
    ensures r.Some? ==> forall i :: 0 <= i < |as_| && OwnCompleted(uid)(as_[i]) && as_[i].submittedAt.Some? ==>
      r.value.Some? && as_[i].submittedAt.value <= r.value.value
    ensures r.Some? && r.value.Some? ==>
      exists i :: 0 <= i < |as_| && OwnCompleted(uid)(as_[i]) && as_[i].submittedAt == r.value
  {
    if as_ == [] then None
    else
      var rest := LatestSubmission(as_[1..], uid);
      assert forall i :: 1 <= i < |as_| ==> as_[i] == as_[1..][i - 1];
      if !OwnCompleted(uid)(as_[0]) then rest
      else
        var r := Later(as_[0].submittedAt, if rest.Some? then rest.value else None);
        assert r.Some? && r != as_[0].submittedAt ==> exists i :: 1 <= i < |as_| && OwnCompleted(uid)(as_[i]) && as_[i].submittedAt == r by {
          if r.Some? && r != as_[0].submittedAt {
            var j :| 0 <= j < |as_[1..]| && OwnCompleted(uid)(as_[1..][j]) && as_[1..][j].submittedAt == r;
            assert as_[j + 1] == as_[1..][j];
          }
        }
        Some(r)
  }

  /** The `assessmentStatus` of `getMe`. `threeMonthsAgo` is the calendar
      date three months before now. */
  function StatusOf(u: User, as_: seq<Assessment>, threeMonthsAgo: Time): (s: AssessmentStatus)
    ensures s == NotRequired <==> !Assessed(u.role)
    ensures s == Pending ==> exists i :: 0 <= i < |as_| && OwnIncomplete(u.id)(as_[i])
    ensures s == Completed ==> exists i :: 0 <= i < |as_| && OwnCompleted(u.id)(as_[i])
  {
    if !Assessed(u.role) then NotRequired
    else if FirstIndex(as_, OwnIncomplete(u.id)).Some? then Pending
    else match LatestSubmission(as_, u.id)
      case None => Due
      case Some(t) => if t.Some? && t.value < threeMonthsAgo then Due else Completed
  }

  /** The status, stated over the user's assessments rather than the two
      queries: any open assessment means PENDING; otherwise DUE exactly when
      nothing is completed, or the completions carry times all older than
      three months. */
  lemma StatusMeaning(u: User, as_: seq<Assessment>, threeMonthsAgo: Time)
    ensures StatusOf(u, as_, threeMonthsAgo) == NotRequired <==> !Assessed(u.role)
    ensures StatusOf(u, as_, threeMonthsAgo) == Pending <==>
      Assessed(u.role) && exists i :: 0 <= i < |as_| && OwnIncomplete(u.id)(as_[i])
    ensures StatusOf(u, as_, threeMonthsAgo) == Due <==>
      Assessed(u.role) && (forall i :: 0 <= i < |as_| ==> !OwnIncomplete(u.id)(as_[i])) &&
      ((forall i :: 0 <= i < |as_| ==> !OwnCompleted(u.id)(as_[i])) ||
       ((exists i :: 0 <= i < |as_| && OwnCompleted(u.id)(as_[i]) && as_[i].submittedAt.Some?) &&
        (forall i :: 0 <= i < |as_| && OwnCompleted(u.id)(as_[i]) && as_[i].submittedAt.Some? ==>
           as_[i].submittedAt.value < threeMonthsAgo)))
  {
    var s := StatusOf(u, as_, threeMonthsAgo);
    if Assessed(u.role) && FirstIndex(as_, OwnIncomplete(u.id)).None? {
      FirstIndexNone(as_, OwnIncomplete(u.id));
      var latest := LatestSubmission(as_, u.id);
      if latest.Some? && latest.value.Some? {
        var i :| 0 <= i < |as_| && OwnCompleted(u.id)(as_[i]) && as_[i].submittedAt == latest.value;
        assert as_[i].submittedAt.Some?;
      }
    }
  }

  /** What `getMe` answers: the profile with empty strings for missing
      values, and the status. The profile image is not modelled. */
  datatype Me = Me(id: Id, firstName: string, lastName: string, middleInitial: string,
                   role: string, orgName: string, assessmentStatus: AssessmentStatus)

  function RoleText(role: Option<Role>): string {
    if role.Some? then RoleName(role.value) else ""
  }

  /** `getMe`: `userId` is the session's claim. */
  function GetMe(users: seq<User>, as_: seq<Assessment>, userId: Option<Id>, threeMonthsAgo: Time)
    : (r: Result<Me>)
    ensures UserById(users, userId).Err? ==> r == Err(ServerError("Server error"))
    ensures UserById(users, userId) == Ok(None) ==> r == Err(NotFound("User not found"))
    ensures r.Ok? <==> UserById(users, userId).Ok? && UserById(users, userId).value.Some?
    ensures r.Ok? ==> var u := users[UserById(users, userId).value.value];
      r.value.id == u.id && r.value.assessmentStatus == StatusOf(u, as_, threeMonthsAgo) &&
      r.value.firstName == OrEmpty(u.firstName) && r.value.lastName == OrEmpty(u.lastName) &&
      r.value.role == RoleText(u.role)
  {
    match UserById(users, userId)
    case Err(_) => Err(ServerError("Server error"))
    case Ok(None) => Err(NotFound("User not found"))
    case Ok(Some(k)) =>
      var u := users[k];
      Ok(Me(u.id, OrEmpty(u.firstName), OrEmpty(u.lastName), OrEmpty(u.middleInitial),
            RoleText(u.role), OrEmpty(u.orgName), StatusOf(u, as_, threeMonthsAgo)))
  }

  // ---------------------------------------------------------------------
  // updateProfile

  /** The profile paths of an `updateProfile` body. */
  datatype ProfilePatch = ProfilePatch(
    firstName: Field, middleInitial: Field, lastName: Field,
    dob: Field, gender: Field, phoneNumber: Field,
    country: Field, state: Field, zipCode: Field)

  /** `if (f !== undefined) path = f` for a path without setters. */
  function Assign(old_: Option<string>, f: Field): Option<string> {
    if f.Absent? then old_ else Stored(f)
  }

  /** The same for a trimmed path: the setter trims a string. */
  function AssignTrimmed(old_: Option<string>, f: Field): Option<string> {
    if f.Absent? then old_ else if f.Text? then Some(Trim(f.text)) else None
  }

  /** `phoneNumber = phoneNumber || undefined`, through the trimming setter. */
  function AssignPhone(old_: Option<string>, f: Field): Option<string> {
    if f.Absent? then old_ else if Truthy(f) then Some(Trim(f.text)) else None
  }

  /** `dob = dob || null`. */
  function AssignDob(old_: Option<string>, f: Field): Option<string> {
    if f.Absent? then old_ else if Truthy(f) then Some(f.text) else None
  }

  /** `gender = gender || ""`. */
  function AssignGender(old_: Option<string>, f: Field): Option<string> {
    if f.Absent? then old_ else if Truthy(f) then Some(f.text) else Some("")
  }

  /** The user after the assignments of `updateProfile`. A falsy `dob`
      becomes null, a falsy `gender` the empty string, a falsy phone number
      unset; present values of trimmed paths are trimmed. */
  function Patched(u: User, p: ProfilePatch): (w: User)
    ensures w.id == u.id && w.email == u.email && w.password == u.password
    ensures w.role == u.role && w.orgName == u.orgName && w.department == u.department
  {
    u.(firstName := Assign(u.firstName, p.firstName),
       middleInitial := Assign(u.middleInitial, p.middleInitial),
       lastName := Assign(u.lastName, p.lastName),
       dob := AssignDob(u.dob, p.dob),
       gender := AssignGender(u.gender, p.gender),
       phoneNumber := AssignPhone(u.phoneNumber, p.phoneNumber),
       country := AssignTrimmed(u.country, p.country),
       state := AssignTrimmed(u.state, p.state),
       zipCode := AssignTrimmed(u.zipCode, p.zipCode))
  }

  lemma AssignTrimmedTwice(o: Option<string>, f: Field)
    ensures AssignTrimmed(AssignTrimmed(o, f), f) == AssignTrimmed(o, f)
  {
    if f.Text? { TrimIdempotent(f.text); }
  }

  lemma AssignPhoneTwice(o: Option<string>, f: Field)
    ensures AssignPhone(AssignPhone(o, f), f) == AssignPhone(o, f)
  {
    if f.Text? { TrimIdempotent(f.text); }
  }

  /** Only the paths the body names change: every absent path keeps its
      value, and the address, password, role, organisation, flags and
      tokens never change. */
  lemma PatchedKeepsAbsent(u: User, p: ProfilePatch)
    ensures var w := Patched(u, p);
      && (p.firstName.Absent? ==> w.firstName == u.firstName)
      && (p.middleInitial.Absent? ==> w.middleInitial == u.middleInitial)
      && (p.lastName.Absent? ==> w.lastName == u.lastName)
      && (p.dob.Absent? ==> w.dob == u.dob)
      && (p.gender.Absent? ==> w.gender == u.gender)
      && (p.phoneNumber.Absent? ==> w.phoneNumber == u.phoneNumber)
      && (p.country.Absent? ==> w.country == u.country)
      && (p.state.Absent? ==> w.state == u.state)
      && (p.zipCode.Absent? ==> w.zipCode == u.zipCode)
      && w.(firstName := u.firstName, middleInitial := u.middleInitial, lastName := u.lastName,
            dob := u.dob, gender := u.gender, phoneNumber := u.phoneNumber,
            country := u.country, state := u.state, zipCode := u.zipCode) == u
  {
  }

  /** Sending the same body twice has the effect of sending it once. */
  lemma PatchedIdempotent(u: User, p: ProfilePatch)
    ensures Patched(Patched(u, p), p) == Patched(u, p)
  {
    var w := Patched(u, p);
    AssignPhoneTwice(u.phoneNumber, p.phoneNumber);
    AssignTrimmedTwice(u.country, p.country);
    AssignTrimmedTwice(u.state, p.state);
    AssignTrimmedTwice(u.zipCode, p.zipCode);
    assert Patched(w, p).phoneNumber == w.phoneNumber;
    assert Patched(w, p).country == w.country;
    assert Patched(w, p).state == w.state;
    assert Patched(w, p).zipCode == w.zipCode;
  }

  /** The message of the duplicate-key branch for the first path of the
      violated index. */
  function DuplicateMessage(path: string): (m: string)
    ensures m == Capitalize(path) + " already exists."
    ensures path != "" ==> m[0] == UpperChar(path[0]) && m[1..|path|] == path[1..]
  {
    Capitalize(path) + " already exists."
  }

  /** Whether another account already holds the phone number: the sparse
      unique index ignores an unset number. */
  predicate PhoneTaken(users: seq<User>, k: nat, phone: Option<string>) {
    phone.Some? && exists i :: 0 <= i < |users| && i != k && users[i].phoneNumber == phone
  }

  /** The fields of the answer. */
  datatype ProfileSummary = ProfileSummary(
    firstName: Option<string>, lastName: Option<string>, state: Option<string>,
    zipCode: Option<string>, phoneNumber: Option<string>)

  /** `updateProfile` without an uploaded image. The only index the update
      can violate is the phone number's. */
  function UpdateProfileSpec(users: seq<User>, userId: Option<Id>, p: ProfilePatch)
    : (r: (seq<User>, Result<ProfileSummary>))
    ensures |r.0| == |users|
    ensures r.1.Err? ==> r.0 == users
    ensures UserById(users, userId).Err? ==> r.1 == Err(ServerError("Internal server error"))
    ensures UserById(users, userId) == Ok(None) ==> r.1 == Err(NotFound("User not found"))
  {
    match UserById(users, userId)
    case Err(_) => (users, Err(ServerError("Internal server error")))
    case Ok(None) => (users, Err(NotFound("User not found")))
    case Ok(Some(k)) =>
      var w := Patched(users[k], p);
      if PhoneTaken(users, k, w.phoneNumber) then (users, Err(BadRequest(DuplicateMessage("phoneNumber"))))
      else (users[k := w], Ok(ProfileSummary(w.firstName, w.lastName, w.state, w.zipCode, w.phoneNumber)))
  }

  /** An update changes only the caller's account, as `Patched` describes,
      and answers with the stored values; a number another account holds is
      refused and changes nothing. */
  lemma UpdateProfileEffect(users: seq<User>, userId: Option<Id>, p: ProfilePatch)
    requires UpdateProfileSpec(users, userId, p).1.Ok?
    ensures var r := UpdateProfileSpec(users, userId, p);
      var k := UserById(users, userId).value.value;
      userId.Some? && users[k].id == ObjectIdOf(userId.value) && r.0 == users[k := Patched(users[k], p)] &&
      r.1.value.phoneNumber == r.0[k].phoneNumber && r.1.value.firstName == r.0[k].firstName &&
      !PhoneTaken(users, k, r.0[k].phoneNumber)
  {
  }

  /** The refusal names the path of the sparse unique index, capitalised. */
  lemma DuplicatePhoneMessage()
    ensures DuplicateMessage("phoneNumber") == "PhoneNumber already exists."
  {
    assert Capitalize("phoneNumber") == "PhoneNumber";
  }

  /** An update that passes the phone index keeps the store valid. */
  lemma PatchKeepsValid(users: seq<User>, k: nat, p: ProfilePatch)
    requires UserModel.StoreValid(users) && k < |users|
    requires !PhoneTaken(users, k, Patched(users[k], p).phoneNumber)
    ensures UserModel.StoreValid(users[k := Patched(users[k], p)])
  {
    var w := Patched(users[k], p);
    var r := users[k := w];
    assert w.id == users[k].id && w.email == users[k].email;
    assert UserModel.SchemaValid(users[k]);
    forall i, j | 0 <= i < j < |r|
      ensures r[i].id != r[j].id && r[i].email != r[j].email &&
              (r[i].phoneNumber.Some? ==> r[i].phoneNumber != r[j].phoneNumber)
    {
      if i == k {
        assert r[j] == users[j];
      } else if j == k {
        assert r[i] == users[i];
      }
    }
  }

  method UpdateProfile(db: Db, userId: Option<Id>, p: ProfilePatch) returns (r: Result<ProfileSummary>)
    requires db.Valid()
    modifies db`users
    ensures db.Valid()
    ensures (db.users, r) == UpdateProfileSpec(old(db.users), userId, p)
  {
    var found := UserById(db.users, userId);
    if found.Err? {
      return Err(ServerError("Internal server error"));
    }
    if found.value.None? {
      return Err(NotFound("User not found"));
    }
    var k := found.value.value;
    var w := Patched(db.users[k], p);
    if PhoneTaken(db.users, k, w.phoneNumber) {
      return Err(BadRequest(DuplicateMessage("phoneNumber")));
    }
    PatchKeepsValid(db.users, k, p);
    db.users := db.users[k := w];
    r := Ok(ProfileSummary(w.firstName, w.lastName, w.state, w.zipCode, w.phoneNumber));
  }
}
