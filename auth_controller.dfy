/** The account handlers: `register`, `verifyEmail`, `completeProfile`,
    `login`, `forgotPassword`, `resetPasswordRedirect` and `resetPassword`,
    the role gate of the unrouted `sendInvitation`, and the scheduled sweep
    of unverified accounts. Handlers that save records are methods over the
    store; `login`, the redirects and the role gate are pure guard chains. */
module AuthController {
  import opened Common
  import opened Jwt
  import opened UserModel
  import opened InvitationModel
  import opened Store

  // ---------------------------------------------------------------------
  // The role gate of the unrouted `sendInvitation`

  const ADMIN_TEAM: seq<string> := ["leader", "manager", "employee"]

  /** The checks that open the unrouted `sendInvitation`: `None` lets the
      request through. `senderRole` is compared loosely with a string, which
      for a string or an undefined claim is plain equality. */
  function InviteGate(userId: Option<Id>, senderRole: Option<string>, role: Field): (r: Option<Failure>)
    ensures !Present(userId) ==> r == Some(BadRequest("User not authenticated"))
    ensures Present(userId) && senderRole != Some("superAdmin") && senderRole != Some("admin") ==>
      r == Some(BadRequest("only superAdmin or admin can send the invitation"))
  {
    if !Present(userId) then Some(BadRequest("User not authenticated"))
    else if senderRole == Some("superAdmin") then
      if role != Text("admin") then Some(BadRequest("SuperAdmin can only invite Admins.")) else None
    else if senderRole == Some("admin") then
      if !(role.Text? && role.text in ADMIN_TEAM)
      then Some(BadRequest("Admins can only invite Leaders, Managers, or Employees."))
      else None
    else Some(BadRequest("only superAdmin or admin can send the invitation"))
  }

  /** The gate lets a request through exactly when a superAdmin invites an
      admin or an admin invites a leader, manager or employee; what passes
      is always a role of the invitation enum, never superAdmin. */
  lemma InviteGateAdmits(userId: Option<Id>, senderRole: Option<string>, role: Field)
    ensures InviteGate(userId, senderRole, role).None? <==>
      Present(userId) && role.Text? &&
      ((senderRole == Some("superAdmin") && role.text == "admin") ||
       (senderRole == Some("admin") && role.text in ADMIN_TEAM))
    ensures InviteGate(userId, senderRole, role).None? ==>
      role.Text? && ParseInviteRole(role.text).Some?
  {
    if InviteGate(userId, senderRole, role).None? {
      assert role.text in ["admin", "leader", "manager", "employee"];
    }
  }

  // ---------------------------------------------------------------------
  // register

  /** What a successful registration answers with. */
  datatype Registered = Registered(id: Id, email: string)

  function TokenIs(token: string): Invitation -> bool {
    (inv: Invitation) => inv.token == token
  }

  /** `register`, as a specification over the stores. `password` is kept as
      sent (it is not hashed); `verifyToken` is the signed verification
      token and `id` the new `_id`. The email of the body is only checked
      for presence: the account gets the email of the invitation token. The
      guard on `invitation.expiresAt` reads a path the schema does not
      declare, so it compares `undefined` with a number and never rejects:
      it has no branch here. A save that fails validation or an index, and
      a failed verification mail, throw out of a handler without a catch
      block (`Crash`); the user saved before the mail stays. */
  function RegisterSpec(users: seq<User>, invs: seq<Invitation>, v: Verifier,
                        email: Field, password: Field, confirm: Field,
                        authToken: Option<string>, token1: Option<string>,
                        id: Id, verifyToken: string, now: Time, mailOk: bool)
    : (r: (seq<User>, seq<Invitation>, Result<Registered>))
    ensures r.2.Ok? ==> |r.0| == |users| + 1 && r.0[..|users|] == users
    ensures !r.2.Ok? ==> r.1 == invs
    ensures r.2.Err? && r.2.failure != Crash ==> r.0 == users
  {
    if !AllFieldsSent(email, password, confirm, authToken, token1)
    then (users, invs, Err(BadRequest("All fields are required.")))
    else if password.text != confirm.text then (users, invs, Err(BadRequest("Passwords do not match.")))
    else match Verify(v, authToken.value)
      case TokenExpired => (users, invs, Err(BadRequest("Invitation expired. Please request a new invitation")))
      case TokenInvalid => (users, invs, Err(BadRequest("Invitation expired. Please request a new invitation")))
      case Verified(c) =>
        match FirstIndex(invs, TokenIs(token1.value))
        case None => (users, invs, Err(BadRequest("Invitation has expired.")))
        case Some(k) =>
          var (users', r) := Admit(users, invs[k], c, password.text, id, verifyToken, now, mailOk);
          (users', if r.Ok? then invs[k := invs[k].(used := true)] else invs, r)
  }

  /** The first guard of `register`: every body field and both cookies are
      truthy. */
  predicate AllFieldsSent(email: Field, password: Field, confirm: Field,
                          authToken: Option<string>, token1: Option<string>) {
    Truthy(email) && Truthy(password) && Truthy(confirm) && Present(authToken) && Present(token1)
  }

  /** The refusals of `register` in the order the handler checks them,
      each with its message and each leaving both stores as they were: a
      missing field or cookie, then different passwords, then a token that
      does not verify, then no invitation for `token1`, then a claim for
      another address, then an address that already has an account
      (`RegisterInviteRefusals`). */
  lemma RegisterRefusals(users: seq<User>, invs: seq<Invitation>, v: Verifier,
                         email: Field, password: Field, confirm: Field,
                         authToken: Option<string>, token1: Option<string>,
                         id: Id, verifyToken: string, now: Time, mailOk: bool)
    ensures var r := RegisterSpec(users, invs, v, email, password, confirm, authToken, token1, id, verifyToken, now, mailOk);
      !AllFieldsSent(email, password, confirm, authToken, token1) ==>
        r == (users, invs, Err(BadRequest("All fields are required.")))
    ensures var r := RegisterSpec(users, invs, v, email, password, confirm, authToken, token1, id, verifyToken, now, mailOk);
      AllFieldsSent(email, password, confirm, authToken, token1) && password != confirm ==>
        r == (users, invs, Err(BadRequest("Passwords do not match.")))
    ensures var r := RegisterSpec(users, invs, v, email, password, confirm, authToken, token1, id, verifyToken, now, mailOk);
      AllFieldsSent(email, password, confirm, authToken, token1) && password == confirm &&
      !Verify(v, authToken.value).Verified? ==>
        r == (users, invs, Err(BadRequest("Invitation expired. Please request a new invitation")))
    ensures var r := RegisterSpec(users, invs, v, email, password, confirm, authToken, token1, id, verifyToken, now, mailOk);
      AllFieldsSent(email, password, confirm, authToken, token1) && password == confirm &&
      Verify(v, authToken.value).Verified? &&
      (forall i :: 0 <= i < |invs| ==> invs[i].token != token1.value) ==>
        r == (users, invs, Err(BadRequest("Invitation has expired.")))
  {
  }

  /** The last two refusals, once the invitation holding `token1` is found:
      a claim for another address, then an address that already has an
      account. Both leave the stores as they were. */
  lemma RegisterInviteRefusals(users: seq<User>, invs: seq<Invitation>, v: Verifier,
                               email: Field, password: Field, confirm: Field,
                               authToken: Option<string>, token1: Option<string>,
                               id: Id, verifyToken: string, now: Time, mailOk: bool, k: nat)
    requires AllFieldsSent(email, password, confirm, authToken, token1) && password == confirm
    requires Verify(v, authToken.value).Verified?
    requires FirstIndex(invs, TokenIs(token1.value)) == Some(k)
    ensures var r := RegisterSpec(users, invs, v, email, password, confirm, authToken, token1, id, verifyToken, now, mailOk);
      Verify(v, authToken.value).claims.email != Some(invs[k].email) ==>
        r == (users, invs, Err(BadRequest("Invalid invitation email.")))
    ensures var r := RegisterSpec(users, invs, v, email, password, confirm, authToken, token1, id, verifyToken, now, mailOk);
      Verify(v, authToken.value).claims.email == Some(invs[k].email) && HasAccount(users, invs[k].email) ==>
        r == (users, invs, Err(BadRequest("Email is already registered.")))
  {
  }

  /** The steps of `register` once the invitation is found: the claim's
      email must equal the invitation's, no account may have it, and the new
      account must pass the validators and the unique indexes. */
  function Admit(users: seq<User>, inv: Invitation, c: Claims, password: string,
                 id: Id, verifyToken: string, now: Time, mailOk: bool)
    : (r: (seq<User>, Result<Registered>))
    ensures r.1.Ok? ==> |r.0| == |users| + 1 && r.0[..|users|] == users
    ensures r.1.Err? && r.1.failure != Crash ==> r.0 == users
  {
    if c.email != Some(inv.email) then (users, Err(BadRequest("Invalid invitation email.")))
    else if HasAccount(users, c.email.value) then (users, Err(BadRequest("Email is already registered.")))
    else
      var u := NewUser(id, c.email.value, password, verifyToken, now + HOUR, now);
      if !UserModel.Required(u) || IndexClash(users, u) then (users, Err(Crash))
      else if !mailOk then (users + [u], Err(Crash))
      else (users + [u], Ok(Registered(id, u.email)))
  }

  /** `User.findOne({ email })`, the query value going through the setters. */
  predicate HasAccount(users: seq<User>, email: string) {
    UserByEmail(users, email).Some?
  }

  /** A registration that succeeds appends exactly one user, unverified,
      with an incomplete profile, no role and a verification window of one
      hour, and marks the invitation found by `token1` used at that moment. */
  lemma RegisterCreates(users: seq<User>, invs: seq<Invitation>, v: Verifier,
                        email: Field, password: Field, confirm: Field,
                        authToken: Option<string>, token1: Option<string>,
                        id: Id, verifyToken: string, now: Time, mailOk: bool)
    requires RegisterSpec(users, invs, v, email, password, confirm, authToken, token1, id, verifyToken, now, mailOk).2.Ok?
    ensures AllFieldsSent(email, password, confirm, authToken, token1) && password == confirm
    ensures var r := RegisterSpec(users, invs, v, email, password, confirm, authToken, token1, id, verifyToken, now, mailOk);
      var u := r.0[|users|];
      && u.id == id && u.password == password.text && |u.password| >= 8
      && !u.isEmailVerified && !u.profileCompleted && u.role.None?
      && u.emailVerificationToken == Some(verifyToken)
      && u.emailVerificationExpires == Some(now + HOUR)
      && r.2.value == Registered(id, u.email)
    ensures var r := RegisterSpec(users, invs, v, email, password, confirm, authToken, token1, id, verifyToken, now, mailOk);
      exists k :: 0 <= k < |invs| && invs[k].token == token1.value &&
        r.1 == invs[k := invs[k].(used := true)] && r.0[|users|].email == NormEmail(invs[k].email)
  {
    var c := Verify(v, authToken.value).claims;
    var k := FirstIndex(invs, TokenIs(token1.value)).value;
    var u := NewUser(id, c.email.value, password.text, verifyToken, now + HOUR, now);
    assert Admit(users, invs[k], c, password.text, id, verifyToken, now, mailOk) == (users + [u], Ok(Registered(id, u.email)));
  }

  /** Neither `used` nor `expiredAt` of the invitation affects registration:
      a used or long-expired invitation registers exactly like a fresh one. */
  lemma RegisterIgnoresUsedAndExpiry(users: seq<User>, invs: seq<Invitation>, v: Verifier,
                                     email: Field, password: Field, confirm: Field,
                                     authToken: Option<string>, token1: Option<string>,
                                     id: Id, verifyToken: string, now: Time, mailOk: bool,
                                     k: nat, used: bool, expiredAt: Time)
    requires k < |invs|
    ensures
      RegisterSpec(users, invs[k := invs[k].(used := used, expiredAt := expiredAt)], v, email, password, confirm,
                   authToken, token1, id, verifyToken, now, mailOk).2 ==
      RegisterSpec(users, invs, v, email, password, confirm, authToken, token1, id, verifyToken, now, mailOk).2
  {
    if AllFieldsSent(email, password, confirm, authToken, token1) && password == confirm &&
       Verify(v, authToken.value).Verified?
    {
      var x := invs[k].(used := used, expiredAt := expiredAt);
      FirstIndexUpdate(invs, TokenIs(token1.value), k, x);
      match FirstIndex(invs, TokenIs(token1.value))
      case None =>
      case Some(j) =>
        AdmitReadsOnlyEmail(users, invs[j], invs[k := x][j], Verify(v, authToken.value).claims,
                            password.text, id, verifyToken, now, mailOk);
    }
  }

  /** Of the invitation, `Admit` reads only the email. */
  lemma AdmitReadsOnlyEmail(users: seq<User>, inv: Invitation, inv': Invitation, c: Claims, password: string,
                            id: Id, verifyToken: string, now: Time, mailOk: bool)
    requires inv'.email == inv.email
    ensures Admit(users, inv', c, password, id, verifyToken, now, mailOk) ==
            Admit(users, inv, c, password, id, verifyToken, now, mailOk)
  {
  }

  /** The invitation token carries the address as it was typed, while the
      stored invitation holds it trimmed and lowercased: an invitation sent
      to an address with a capital letter or surrounding white space can
      never be registered. */
  lemma UnnormalisedInviteCannotRegister(users: seq<User>, invs: seq<Invitation>, v: Verifier,
                                         email: Field, password: Field, confirm: Field,
                                         authToken: Option<string>, token1: Option<string>,
                                         id: Id, verifyToken: string, now: Time, mailOk: bool,
                                         c: Claims)
    requires InvitationModel.StoreValid(invs)
    requires Truthy(email) && Truthy(password) && password == confirm
    requires Present(authToken) && Present(token1)
    requires v(authToken.value) == Verified(c)
    requires FirstIndex(invs, TokenIs(token1.value)).Some?
    requires c.email.Some? && NormEmail(c.email.value) != c.email.value
    ensures RegisterSpec(users, invs, v, email, password, confirm, authToken, token1, id, verifyToken, now, mailOk) ==
      (users, invs, Err(BadRequest("Invalid invitation email.")))
  {
    var k := FirstIndex(invs, TokenIs(token1.value)).value;
    assert InvitationModel.SchemaValid(invs[k]);
  }

  method Register(db: Db, v: Verifier, email: Field, password: Field, confirm: Field,
                  authToken: Option<string>, token1: Option<string>,
                  id: Id, verifyToken: string, now: Time, mailOk: bool)
    returns (r: Result<Registered>)
    requires db.Valid()
    modifies db`users, db`invitations
    ensures db.Valid()
    ensures (db.users, db.invitations, r) ==
      RegisterSpec(old(db.users), old(db.invitations), v, email, password, confirm,
                   authToken, token1, id, verifyToken, now, mailOk)
  {
    if !Truthy(email) || !Truthy(password) || !Truthy(confirm) || !Present(authToken) || !Present(token1) {
      return Err(BadRequest("All fields are required."));
    }
    if password.text != confirm.text {
      return Err(BadRequest("Passwords do not match."));
    }
    var verdict := Verify(v, authToken.value);
    if !verdict.Verified? {
      return Err(BadRequest("Invitation expired. Please request a new invitation"));
    }
    var c := verdict.claims;
    var found := FirstIndex(db.invitations, TokenIs(token1.value));
    if found.None? {
      return Err(BadRequest("Invitation has expired."));
    }
    r := AdmitInvitee(db, found.value, c, password.text, id, verifyToken, now, mailOk);
  }

  /** The part of `register` after the invitation at `k` is found. */
  method AdmitInvitee(db: Db, k: nat, c: Claims, password: string,
                      id: Id, verifyToken: string, now: Time, mailOk: bool)
    returns (r: Result<Registered>)
    requires db.Valid() && k < |db.invitations|
    modifies db`users, db`invitations
    ensures db.Valid()
    ensures (db.users, r) == Admit(old(db.users), old(db.invitations)[k], c, password, id, verifyToken, now, mailOk)
    ensures db.invitations ==
      if r.Ok? then old(db.invitations)[k := old(db.invitations)[k].(used := true)] else old(db.invitations)
  {
    if c.email != Some(db.invitations[k].email) {
      return Err(BadRequest("Invalid invitation email."));
    }
    if HasAccount(db.users, c.email.value) {
      return Err(BadRequest("Email is already registered."));
    }
    var u := NewUser(id, c.email.value, password, verifyToken, now + HOUR, now);
    if !UserModel.Required(u) || IndexClash(db.users, u) {
      return Err(Crash);
    }
    NewUserValid(id, c.email.value, password, verifyToken, now + HOUR, now);
    InsertUserKeepsValid(db.users, u);
    db.users := db.users + [u];
    if !mailOk {
      return Err(Crash);
    }
    MarkUsedKeepsValid(db.invitations, k);
    db.invitations := db.invitations[k := db.invitations[k].(used := true)];
    r := Ok(Registered(id, u.email));
  }

  // ---------------------------------------------------------------------
  // verifyEmail

  /** Where a verification link sends the browser. */
  datatype VerifyOutcome = ToRegister | ToProfileInfo

  /** The query of `verifyEmail`: the token matches and its window is still
      open (`$gt`, so a window ending now is closed). */
  function VerifiableBy(token: string, now: Time): User -> bool {
    (u: User) => u.emailVerificationToken == Some(token) &&
                 u.emailVerificationExpires.Some? && u.emailVerificationExpires.value > now
  }

  function VerifyEmailSpec(users: seq<User>, token: string, now: Time): (r: (seq<User>, VerifyOutcome))
    ensures |r.0| == |users|
    ensures r.1 == ToRegister ==> r.0 == users
  {
    match FirstIndex(users, VerifiableBy(token, now))
    case None => (users, ToRegister)
    case Some(k) => (users[k := users[k].(isEmailVerified := true)], ToProfileInfo)
  }

  /** The branch that would delete an expired, incomplete account can never
      run: the account found has a window that ends after `now`. */
  lemma VerifyEmailNeverDeletes(users: seq<User>, token: string, now: Time)
    ensures match FirstIndex(users, VerifiableBy(token, now))
      case None => true
      case Some(k) => !(users[k].emailVerificationExpires.value < now)
  {
  }

  /** Verification succeeds exactly when some account holds the token with
      an open window, and then it only sets `isEmailVerified` on the first
      such account; every other account is unchanged. */
  lemma VerifyEmailEffect(users: seq<User>, token: string, now: Time)
    ensures var r := VerifyEmailSpec(users, token, now);
      r.1 == ToProfileInfo <==>
        exists i :: 0 <= i < |users| && users[i].emailVerificationToken == Some(token) &&
          users[i].emailVerificationExpires.Some? && users[i].emailVerificationExpires.value > now
    ensures var r := VerifyEmailSpec(users, token, now);
      forall i :: 0 <= i < |users| ==>
        r.0[i] == users[i] || r.0[i] == users[i].(isEmailVerified := true)
  {
    var p := VerifiableBy(token, now);
    match FirstIndex(users, p)
    case None =>
    case Some(k) =>
  }

  method VerifyEmail(db: Db, token: string, now: Time) returns (r: VerifyOutcome)
    requires db.Valid()
    modifies db`users
    ensures db.Valid()
    ensures (db.users, r) == VerifyEmailSpec(old(db.users), token, now)
  {
    var found := FirstIndex(db.users, VerifiableBy(token, now));
    if found.None? {
      return ToRegister;
    }
    var k := found.value;
    var u := db.users[k].(isEmailVerified := true);
    UpdateKeepsValid(db.users, k, u);
    db.users := db.users[k := u];
    r := ToProfileInfo;
  }

  // ---------------------------------------------------------------------
  // completeProfile

  /** `User.findOne({ emailVerificationToken: token })`: a missing or null
      token matches an account whose token is unset or null. */
  function VerifyTokenIs(token: Field): User -> bool {
    (u: User) => u.emailVerificationToken == Stored(token)
  }

  /** `user.emailVerificationExpires < Date.now()`; an unset window compares
      as `undefined`, which is never less than a number. */
  predicate WindowClosed(u: User, now: Time) {
    u.emailVerificationExpires.Some? && u.emailVerificationExpires.value < now
  }

  function EmailIs(email: string): Invitation -> bool {
    (inv: Invitation) => inv.email == NormEmail(email)
  }

  /** The role a body field sets, when the `role` enum admits it: unset and
      null store null, a string must be one of the five spellings. */
  function RoleFromBody(role: Field): Option<Option<Role>> {
    if role.Text? then
      match ParseRole(role.text)
      case Some(x) => Some(Some(x))
      case None => None
    else Some(None)
  }

  /** The account after `completeProfile`'s assignments. */
  function Completed(u: User, firstName: Field, lastName: Field, department: Field, role: Option<Role>): User {
    u.(firstName := Stored(firstName), lastName := Stored(lastName), department := Stored(department),
       role := role, profileCompleted := true, emailVerificationToken := None)
  }

  /** `completeProfile`. A role outside the enum fails validation on save,
      which throws out of the handler (`Crash`) with nothing saved. The
      first invitation for the address, used or not, is marked used (the
      handler's assignment to `expiresAt` targets an undeclared path and is
      dropped). */
  function CompleteProfileSpec(users: seq<User>, invs: seq<Invitation>, token: Field,
                               firstName: Field, lastName: Field, department: Field, role: Field,
                               now: Time)
    : (r: (seq<User>, seq<Invitation>, Result<string>))
    ensures !r.2.Ok? ==> r.0 == users && r.1 == invs
    ensures |r.0| == |users| && |r.1| == |invs|
  {
    match FirstIndex(users, VerifyTokenIs(token))
    case None => (users, invs, Err(BadRequest("Invalid token.")))
    case Some(k) =>
      if WindowClosed(users[k], now) then (users, invs, Err(BadRequest("Token has expired.")))
      else match RoleFromBody(role)
        case None => (users, invs, Err(Crash))
        case Some(rl) =>
          var (users', invs') := CloseProfile(users, invs, k, firstName, lastName, department, rl);
          (users', invs', Ok("Profile completed successfully."))
  }

  /** The two saves of a `completeProfile` that passes its checks: the
      account at `k` is completed, then the first invitation for its
      address is marked used. */
  function CloseProfile(users: seq<User>, invs: seq<Invitation>, k: nat,
                        firstName: Field, lastName: Field, department: Field, role: Option<Role>)
    : (r: (seq<User>, seq<Invitation>))
    requires k < |users|
    ensures r.0 == users[k := Completed(users[k], firstName, lastName, department, role)]
    ensures |r.1| == |invs|
  {
    var users' := users[k := Completed(users[k], firstName, lastName, department, role)];
    match FirstIndex(invs, EmailIs(users[k].email))
    case None => (users', invs)
    case Some(j) => (users', invs[j := invs[j].(used := true)])
  }

  /** A completed profile: the account found by the token gets the names,
      department and role of the body, `profileCompleted`, and loses its
      verification token, so the same token can never complete it again;
      no other account changes. */
  lemma CompleteProfileEffect(users: seq<User>, invs: seq<Invitation>, token: Field,
                              firstName: Field, lastName: Field, department: Field, role: Field,
                              now: Time)
    requires CompleteProfileSpec(users, invs, token, firstName, lastName, department, role, now).2.Ok?
    ensures var r := CompleteProfileSpec(users, invs, token, firstName, lastName, department, role, now);
      var k := FirstIndex(users, VerifyTokenIs(token)).value;
      && users[k].emailVerificationToken == Stored(token) && !WindowClosed(users[k], now)
      && r.0[k].profileCompleted && r.0[k].emailVerificationToken.None?
      && r.0[k].firstName == Stored(firstName) && r.0[k].lastName == Stored(lastName)
      && r.0[k].department == Stored(department)
      && (role.Text? ==> r.0[k].role.Some? && RoleName(r.0[k].role.value) == role.text)
      && (!role.Text? ==> r.0[k].role.None?)
      && r.0 == users[k := r.0[k]]
      && (token.Text? ==> !VerifyTokenIs(token)(r.0[k]))
  {
    var k := FirstIndex(users, VerifyTokenIs(token)).value;
    var rl := RoleFromBody(role).value;
    var r := CompleteProfileSpec(users, invs, token, firstName, lastName, department, role, now);
    assert r.0 == users[k := Completed(users[k], firstName, lastName, department, rl)];
  }

  /** On success the first invitation for the account's address, and only
      it, becomes used; with none, the invitations are unchanged. */
  lemma CompleteProfileMarksInvitation(users: seq<User>, invs: seq<Invitation>, token: Field,
                                       firstName: Field, lastName: Field, department: Field, role: Field,
                                       now: Time)
    requires CompleteProfileSpec(users, invs, token, firstName, lastName, department, role, now).2.Ok?
    ensures var r := CompleteProfileSpec(users, invs, token, firstName, lastName, department, role, now);
      var k := FirstIndex(users, VerifyTokenIs(token)).value;
      (match FirstIndex(invs, EmailIs(users[k].email))
       case None => r.1 == invs
       case Some(j) =>
         (r.1[j].used && r.1[j].email == NormEmail(users[k].email) &&
          r.1 == invs[j := r.1[j]]))
  {
  }

  method CompleteProfile(db: Db, token: Field, firstName: Field, lastName: Field, department: Field,
                         role: Field, now: Time)
    returns (r: Result<string>)
    requires db.Valid()
    modifies db`users, db`invitations
    ensures db.Valid()
    ensures (db.users, db.invitations, r) ==
      CompleteProfileSpec(old(db.users), old(db.invitations), token, firstName, lastName, department, role, now)
  {
    ghost var users0, invs0 := db.users, db.invitations;
    var found := FirstIndex(db.users, VerifyTokenIs(token));
    if found.None? {
      return Err(BadRequest("Invalid token."));
    }
    var k := found.value;
    if WindowClosed(db.users[k], now) {
      return Err(BadRequest("Token has expired."));
    }
    var rl := RoleFromBody(role);
    if rl.None? {
      return Err(Crash);
    }
    ghost var closed := CloseProfile(users0, invs0, k, firstName, lastName, department, rl.value);
    assert CompleteProfileSpec(users0, invs0, token, firstName, lastName, department, role, now) ==
      (closed.0, closed.1, Ok("Profile completed successfully."));
    CloseProfileIn(db, k, firstName, lastName, department, rl.value);
    r := Ok("Profile completed successfully.");
  }

  /** Completing a profile keeps both stores valid: the account keeps its
      id, address and phone number, and marking an invitation used changes
      no indexed path. */
  lemma CloseProfileKeepsValid(users: seq<User>, invs: seq<Invitation>, k: nat,
                               firstName: Field, lastName: Field, department: Field, role: Option<Role>)
    requires UserModel.StoreValid(users) && InvitationModel.StoreValid(invs) && k < |users|
    ensures var r := CloseProfile(users, invs, k, firstName, lastName, department, role);
      UserModel.StoreValid(r.0) && InvitationModel.StoreValid(r.1)
  {
    var u := Completed(users[k], firstName, lastName, department, role);
    assert UserModel.SchemaValid(users[k]);
    UpdateKeepsValid(users, k, u);
    match FirstIndex(invs, EmailIs(users[k].email))
    case None =>
    case Some(j) => MarkUsedKeepsValid(invs, j);
  }

  /** The two saves of `completeProfile`, on the stores. */
  method CloseProfileIn(db: Db, k: nat, firstName: Field, lastName: Field, department: Field, role: Option<Role>)
    requires db.Valid() && k < |db.users|
    modifies db`users, db`invitations
    ensures db.Valid()
    ensures (db.users, db.invitations) ==
      CloseProfile(old(db.users), old(db.invitations), k, firstName, lastName, department, role)
  {
    CloseProfileKeepsValid(db.users, db.invitations, k, firstName, lastName, department, role);
    var email := db.users[k].email;
    var invs := db.invitations;
    var inv := FirstIndex(invs, EmailIs(email));
    if inv.Some? {
      invs := invs[inv.value := invs[inv.value].(used := true)];
    }
    db.users, db.invitations := db.users[k := Completed(db.users[k], firstName, lastName, department, role)], invs;
  }

  // ---------------------------------------------------------------------
  // login

  /** The session `login` opens: the access token's claims and the user
      summary of the answer. */
  datatype Session = Session(claims: Claims, id: Id, role: Option<Role>)

  /** `User.findOne({ email })` for a body field: a missing or null email
      matches no account, since every account has one. */
  function AccountFor(users: seq<User>, email: Field): (r: Option<nat>)
    ensures r.Some? ==> r.value < |users| && email.Text? && users[r.value].email == NormEmail(email.text)
  {
    if email.Text? then UserByEmail(users, email.text) else None
  }

  /** `login`: the credentials first, then the two gates. */
  function Login(users: seq<User>, email: Field, password: Field): (r: Result<Session>)
    ensures r.Ok? ==> AccountFor(users, email).Some?
    ensures r.Ok? ==> var u := users[AccountFor(users, email).value];
      password == Text(u.password) && u.isEmailVerified && u.profileCompleted &&
      r.value == Session(AccessClaims(u), u.id, u.role)
  {
    match AccountFor(users, email)
    case None => Err(Unauthorized("Invalid credentials"))
    case Some(k) =>
      var u := users[k];
      if password != Text(u.password) then Err(Unauthorized("Invalid credentials"))
      else if !u.isEmailVerified then Err(Forbidden("Please verify your email first"))
      else if !u.profileCompleted then Err(Forbidden("Please complete your profile"))
      else Ok(Session(AccessClaims(u), u.id, u.role))
  }

  /** With the unique index on `email`, login is decided by the one account
      with that address: wrong credentials answer 401 before anything about
      the account's state is revealed, and a token is issued exactly when
      both gates are open. */
  lemma LoginDecidedByAccount(users: seq<User>, k: nat, e: string, password: Field)
    requires UserModel.UniqueIndexes(users) && k < |users| && users[k].email == NormEmail(e)
    ensures var u := users[k];
      Login(users, Text(e), password) ==
        if password != Text(u.password) then Err(Unauthorized("Invalid credentials"))
        else if !u.isEmailVerified then Err(Forbidden("Please verify your email first"))
        else if !u.profileCompleted then Err(Forbidden("Please complete your profile"))
        else Ok(Session(AccessClaims(u), u.id, u.role))
  {
    var found := UserByEmail(users, e);
    assert found == Some(k);
  }

  /** An unknown address and a wrong password are indistinguishable. */
  lemma LoginUnknownEmail(users: seq<User>, e: string, password: Field)
    requires forall i :: 0 <= i < |users| ==> users[i].email != NormEmail(e)
    ensures Login(users, Text(e), password) == Err(Unauthorized("Invalid credentials"))
  {
  }

  // ---------------------------------------------------------------------
  // Password reset

  const FORGOT_ANSWER := "If exists, email sent"

  /** `forgotPassword`: `token` is the random reset token, `mailOk` whether
      the reset mail goes out; a failed mail throws after the save. */
  function ForgotPasswordSpec(users: seq<User>, email: Field, token: string, now: Time, mailOk: bool)
    : (r: (seq<User>, Result<string>))
    ensures |r.0| == |users|
  {
    match AccountFor(users, email)
    case None => (users, Ok(FORGOT_ANSWER))
    case Some(k) =>
      var users' := users[k := users[k].(resetPasswordToken := Some(token),
                                         resetPasswordExpires := Some(now + QUARTER_HOUR))];
      if mailOk then (users', Ok(FORGOT_ANSWER)) else (users', Err(Crash))
  }

  /** The answer does not reveal whether the address has an account: when
      the mail goes out it is the same message either way, and without an
      account nothing changes. */
  lemma ForgotPasswordSameAnswer(users: seq<User>, email: Field, token: string, now: Time, mailOk: bool)
    ensures mailOk ==> ForgotPasswordSpec(users, email, token, now, mailOk).1 == Ok(FORGOT_ANSWER)
    ensures AccountFor(users, email).None? ==> ForgotPasswordSpec(users, email, token, now, mailOk) == (users, Ok(FORGOT_ANSWER))
  {
  }

  method ForgotPassword(db: Db, email: Field, token: string, now: Time, mailOk: bool)
    returns (r: Result<string>)
    requires db.Valid()
    modifies db`users
    ensures db.Valid()
    ensures (db.users, r) == ForgotPasswordSpec(old(db.users), email, token, now, mailOk)
  {
    var found := AccountFor(db.users, email);
    if found.None? {
      return Ok(FORGOT_ANSWER);
    }
    var k := found.value;
    var u := db.users[k].(resetPasswordToken := Some(token), resetPasswordExpires := Some(now + QUARTER_HOUR));
    UpdateKeepsValid(db.users, k, u);
    db.users := db.users[k := u];
    if !mailOk {
      return Err(Crash);
    }
    r := Ok(FORGOT_ANSWER);
  }

  /** The query of both reset handlers: the token matches and its window is
      still open. */
  function ResettableBy(token: string, now: Time): User -> bool {
    (u: User) => u.resetPasswordToken == Some(token) &&
                 u.resetPasswordExpires.Some? && u.resetPasswordExpires.value > now
  }

  datatype RedirectOutcome = ToLogin | ToNewPassword

  /** `resetPasswordRedirect`: the link leads to the new-password page
      exactly while some account holds the token with an open window. */
  function ResetRedirect(users: seq<User>, token: string, now: Time): (r: RedirectOutcome)
    ensures r == ToNewPassword <==> exists i :: 0 <= i < |users| && ResettableBy(token, now)(users[i])
  {
    if FirstIndex(users, ResettableBy(token, now)).Some? then ToNewPassword else ToLogin
  }

  /** The link mailed by `forgotPassword` works for fifteen minutes and no
      longer, provided no other account holds the same token. */
  lemma ResetLinkWindow(users: seq<User>, email: Field, token: string, now: Time, later: Time)
    requires AccountFor(users, email).Some?
    requires forall i :: 0 <= i < |users| && i != AccountFor(users, email).value ==>
      users[i].resetPasswordToken != Some(token)
    ensures var users' := ForgotPasswordSpec(users, email, token, now, true).0;
      ResetRedirect(users', token, later) == ToNewPassword <==> later < now + QUARTER_HOUR
  {
    var k := AccountFor(users, email).value;
    var users' := ForgotPasswordSpec(users, email, token, now, true).0;
    if later < now + QUARTER_HOUR {
      assert ResettableBy(token, later)(users'[k]);
    } else {
      forall i | 0 <= i < |users'| ensures !ResettableBy(token, later)(users'[i]) {
        if i != k {
          assert users'[i] == users[i];
        }
      }
    }
  }

  /** `resetPassword`: `token` is the `resetToken` cookie. The new password
      goes through the validators on save; one that is missing or shorter
      than eight characters throws (`Crash`) and nothing is saved. */
  function ResetPasswordSpec(users: seq<User>, token: Option<string>, password: Field, now: Time)
    : (r: (seq<User>, Result<string>))
    ensures !r.1.Ok? ==> r.0 == users
    ensures |r.0| == |users|
  {
    if !Present(token) then (users, Err(BadRequest("Reset token expired")))
    else match FirstIndex(users, ResettableBy(token.value, now))
      case None => (users, Err(BadRequest("Invalid or expired token")))
      case Some(k) =>
        if !password.Text? || |password.text| < 8 then (users, Err(Crash))
        else (users[k := users[k].(password := password.text, resetPasswordToken := None,
                                   resetPasswordExpires := None)],
              Ok("Password reset successful"))
  }

  /** A reset token works once: after a successful reset the account no
      longer holds it, and unless another account holds the same token a
      second use fails and changes nothing. */
  lemma ResetTokenSingleUse(users: seq<User>, token: string, password: Field, now: Time,
                            password2: Field, later: Time)
    requires ResetPasswordSpec(users, Some(token), password, now).1.Ok?
    requires forall i, j :: 0 <= i < j < |users| ==>
      users[i].resetPasswordToken != Some(token) || users[j].resetPasswordToken != Some(token)
    ensures var users' := ResetPasswordSpec(users, Some(token), password, now).0;
      ResetPasswordSpec(users', Some(token), password2, later) ==
        (users', Err(BadRequest("Invalid or expired token")))
  {
    var k := FirstIndex(users, ResettableBy(token, now)).value;
    var users' := ResetPasswordSpec(users, Some(token), password, now).0;
    forall i | 0 <= i < |users'| ensures !ResettableBy(token, later)(users'[i]) {
      if i != k {
        assert users'[i] == users[i];
        if i < k {
          assert users[i].resetPasswordToken != Some(token);
        }
      }
    }
    FirstIndexNone(users', ResettableBy(token, later));
  }

  method ResetPassword(db: Db, token: Option<string>, password: Field, now: Time)
    returns (r: Result<string>)
    requires db.Valid()
    modifies db`users
    ensures db.Valid()
    ensures (db.users, r) == ResetPasswordSpec(old(db.users), token, password, now)
  {
    if !Present(token) {
      return Err(BadRequest("Reset token expired"));
    }
    var found := FirstIndex(db.users, ResettableBy(token.value, now));
    if found.None? {
      return Err(BadRequest("Invalid or expired token"));
    }
    var k := found.value;
    if !password.Text? || |password.text| < 8 {
      return Err(Crash);
    }
    var u := db.users[k].(password := password.text, resetPasswordToken := None, resetPasswordExpires := None);
    UpdateKeepsValid(db.users, k, u);
    db.users := db.users[k := u];
    r := Ok("Password reset successful");
  }

  // ---------------------------------------------------------------------
  // The scheduled sweep of unverified accounts

  /** The sweep's query: a verification window that has closed (`$lt`; an
      unset or null window never matches) on an incomplete profile. */
  predicate Stale(u: User, now: Time) {
    u.emailVerificationExpires.Some? && u.emailVerificationExpires.value < now && !u.profileCompleted
  }

  function Fresh(now: Time): User -> bool {
    (u: User) => !Stale(u, now)
  }

  /** The sweep deletes exactly the stale accounts, and a completed
      profile is never deleted. A verified address alone does not protect
      an account whose profile is incomplete. */
  lemma SweepKeepsFreshAccounts(users: seq<User>, now: Time, i: nat)
    requires i < |users|
    ensures users[i] in Filter(users, Fresh(now)) <==> !Stale(users[i], now)
    ensures users[i].profileCompleted ==> users[i] in Filter(users, Fresh(now))
  {
    var kept := Filter(users, Fresh(now));
    if !Stale(users[i], now) {
      FilterKeeps(users, Fresh(now), i);
    } else {
      assert forall j :: 0 <= j < |kept| ==> kept[j] != users[i] by {
        assert forall j :: 0 <= j < |kept| ==> Fresh(now)(kept[j]);
      }
    }
  }

  method SweepExpiredUsers(db: Db, now: Time)
    requires db.Valid()
    modifies db`users
    ensures db.Valid()
    ensures db.users == Filter(old(db.users), Fresh(now))
  {
    var us := db.users;
    FilterKeepsAll(us, Fresh(now), UserModel.SchemaValid);
    FilterKeepsPairwise(us, Fresh(now), (a: User, b: User) =>
      a.id != b.id && a.email != b.email && (a.phoneNumber.Some? ==> a.phoneNumber != b.phoneNumber));
    db.users := Filter(us, Fresh(now));
  }
}
