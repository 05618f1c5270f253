/** The `User` collection: schema, defaults, setters and unique indexes. */
module UserModel {
  import opened Common
  import opened Jwt

  datatype Role = SuperAdmin | Admin | Leader | Manager | Employee

  /** The spelling of each role in the `role` enum. */
  function RoleName(r: Role): string {
    match r
    case SuperAdmin => "superAdmin"
    case Admin => "admin"
    case Leader => "leader"
    case Manager => "manager"
    case Employee => "employee"
  }

  /** The enum validator of the `role` path: a string names a role exactly
      when it is one of the five spellings, compared case-sensitively. */
  function ParseRole(s: string): (r: Option<Role>)
    ensures r.Some? ==> RoleName(r.value) == s
    ensures r.None? ==> forall x: Role :: RoleName(x) != s
  {
    if s == "superAdmin" then Some(SuperAdmin)
    else if s == "admin" then Some(Admin)
    else if s == "leader" then Some(Leader)
    else if s == "manager" then Some(Manager)
    else if s == "employee" then Some(Employee)
    else None
  }

  /** Every role survives the trip through its stored spelling. */
  lemma ParseRoleName(x: Role)
    ensures ParseRole(RoleName(x)) == Some(x)
  {
    assert RoleName(x) in {"superAdmin", "admin", "leader", "manager", "employee"};
  }

  /** `notificationPreferences`. */
  datatype Prefs = Prefs(system: bool, email: bool)

  /** The schema defaults of `notificationPreferences`. */
  const DEFAULT_PREFS: Prefs := Prefs(true, false)

  /** A stored user. `None` stands for a path that is unset or null. The
      paths no modelled handler reads (`adminId`, `titles`, `profileImage`,
      `profileCompletedAfterRegistration`) are not represented. */
  datatype User = User(
    id: Id,
    email: string,
    password: string,
    role: Option<Role>,
    orgName: Option<string>,
    firstName: Option<string>,
    middleInitial: Option<string>,
    lastName: Option<string>,
    dob: Option<string>,
    gender: Option<string>,
    phoneNumber: Option<string>,
    country: Option<string>,
    state: Option<string>,
    zipCode: Option<string>,
    department: Option<string>,
    invitationToken: Option<string>,
    profileCompleted: bool,
    isEmailVerified: bool,
    emailVerificationToken: Option<string>,
    emailVerificationExpires: Option<Time>,
    resetPasswordToken: Option<string>,
    resetPasswordExpires: Option<Time>,
    prefs: Option<Prefs>,
    createdAt: Time)

  /** A user as `new User({...})` builds it in registration: the `email`
      setters applied, every other path at its schema default. */
  function NewUser(id: Id, email: string, password: string, verifyToken: string,
                   verifyExpires: Time, now: Time): (u: User)
    ensures u.email == NormEmail(email) && u.password == password
    ensures u.role.None? && !u.profileCompleted && !u.isEmailVerified
    ensures u.prefs == Some(DEFAULT_PREFS)
    ensures u.emailVerificationToken == Some(verifyToken)
    ensures u.emailVerificationExpires == Some(verifyExpires)
  {
    User(id, NormEmail(email), password, None, None, None, None, None, None, None,
         None, None, None, None, None, None, false, false, Some(verifyToken),
         Some(verifyExpires), None, None, Some(DEFAULT_PREFS), now)
  }

  /** The validators `save` runs, on the values the setters have already
      produced: `email` is required (so a blank address fails), `password`
      is required with at least eight characters. */
  predicate Required(u: User) {
    u.email != "" && |u.password| >= 8
  }

  /** What every stored user satisfies: it passed the validators and holds
      its address in the form the setters give it. */
  predicate SchemaValid(u: User) {
    Required(u) && NormEmail(u.email) == u.email
  }

  /** A new user that passes the validators is a valid record. */
  lemma NewUserValid(id: Id, email: string, password: string, verifyToken: string,
                     verifyExpires: Time, now: Time)
    requires Required(NewUser(id, email, password, verifyToken, verifyExpires, now))
    ensures SchemaValid(NewUser(id, email, password, verifyToken, verifyExpires, now))
  {
    NormEmailIdempotent(email);
  }

  /** The unique indexes on `_id` and `email`, and the sparse unique index on
      `phoneNumber`: users without a phone number never collide. */
  ghost predicate UniqueIndexes(us: seq<User>) {
    forall i, j :: 0 <= i < j < |us| ==>
      us[i].id != us[j].id && us[i].email != us[j].email &&
      (us[i].phoneNumber.Some? ==> us[i].phoneNumber != us[j].phoneNumber)
  }

  ghost predicate StoreValid(us: seq<User>) {
    (forall i :: 0 <= i < |us| ==> SchemaValid(us[i])) && UniqueIndexes(us)
  }

  /** Whether a user record has the given `_id`. */
  function UserIdIs(id: Id): User -> bool {
    (u: User) => u.id == id
  }

  /** `User.findById(id)`. The id is cast to an ObjectId first, so a
      defined id that is not 24 hexadecimal digits throws a CastError and
      any letter case of a stored id finds it; an undefined id finds
      nothing. */
  function UserById(us: seq<User>, id: Option<Id>): (r: Result<Option<nat>>)
    ensures r.Err? <==> id.Some? && !IsHex24(id.value)
    ensures r.Ok? && r.value.Some? ==>
      r.value.value < |us| && id.Some? && us[r.value.value].id == ObjectIdOf(id.value)
    ensures r.Ok? && r.value.None? ==>
      id.None? || forall i :: 0 <= i < |us| ==> us[i].id != ObjectIdOf(id.value)
  {
    if id.None? then Ok(None)
    else if !IsHex24(id.value) then Err(ServerError("Cast to ObjectId failed"))
    else Ok(FirstIndex(us, UserIdIs(ObjectIdOf(id.value))))
  }

  /** A claim and its lower-case spelling find the same account, and a
      malformed claim throws whatever its case. */
  lemma UserByIdIgnoresCase(us: seq<User>, id: Id)
    ensures UserById(us, Some(id)).Err? <==> UserById(us, Some(ObjectIdOf(id))).Err?
    ensures IsHex24(id) ==> UserById(us, Some(id)) == UserById(us, Some(ObjectIdOf(id)))
  {
    ObjectIdShape(id);
    ObjectIdOfIdempotent(id);
    if IsHex24(ObjectIdOf(id)) {
      forall i | 0 <= i < |id| ensures IsHexDigit(id[i]) {
        assert IsHexDigit(ObjectIdOf(id)[i]);
      }
    }
  }

  /** `User.findOne({ email })`: the query value goes through the same
      lowercase and trim setters as the stored one. */
  function UserByEmail(us: seq<User>, email: string): (r: Option<nat>)
    ensures r.Some? ==> r.value < |us| && us[r.value].email == NormEmail(email)
    ensures r.None? ==> forall i :: 0 <= i < |us| ==> us[i].email != NormEmail(email)
  {
    FirstIndex(us, (u: User) => u.email == NormEmail(email))
  }

  /** Whether inserting `u` would break one of the unique indexes. */
  predicate IndexClash(us: seq<User>, u: User) {
    exists i :: 0 <= i < |us| &&
      (us[i].id == u.id || us[i].email == u.email ||
       (u.phoneNumber.Some? && us[i].phoneNumber == u.phoneNumber))
  }

  /** Appending a valid user that clashes with no index keeps the store valid. */
  lemma InsertUserKeepsValid(us: seq<User>, u: User)
    requires StoreValid(us) && SchemaValid(u) && !IndexClash(us, u)
    ensures StoreValid(us + [u])
  {
    var r := us + [u];
    forall i, j | 0 <= i < j < |r|
      ensures r[i].id != r[j].id && r[i].email != r[j].email &&
              (r[i].phoneNumber.Some? ==> r[i].phoneNumber != r[j].phoneNumber)
    {
      if j == |us| {
        assert r[i] == us[i];
      }
    }
  }

  /** Replacing a user by one with the same `_id`, `email` and phone number
      that still passes the validators keeps the store valid. */
  lemma UpdateKeepsValid(us: seq<User>, k: nat, u: User)
    requires StoreValid(us) && k < |us| && SchemaValid(u)
    requires u.id == us[k].id && u.email == us[k].email && u.phoneNumber == us[k].phoneNumber
    ensures StoreValid(us[k := u])
  {
  }

  /** The claims of `generateAccessToken`: the user's id, role and org name. */
  function AccessClaims(u: User): (c: Claims)
    ensures c.userId == Some(u.id) && c.orgName == u.orgName
    ensures c.role.Some? <==> u.role.Some?
    ensures u.role.Some? ==> ParseRole(c.role.value) == u.role
    ensures c.email.None? && c.invitedId.None?
  {
    ParseRoleName(if u.role.Some? then u.role.value else Admin);
    Claims(Some(u.id), None, if u.role.Some? then Some(RoleName(u.role.value)) else None,
           u.orgName, None)
  }
}
