/** The invitation lifecycle: issuing a single invitation, following the
    link in it, listing, deleting, and issuing invitations in bulk from the
    rows of a CSV file. */
module InvitationController {
  import opened Common
  import opened Jwt
  import opened UserModel
  import opened InvitationModel
  import AssessmentModel
  import opened Store

  // ---------------------------------------------------------------------
  // Status

  datatype InviteStatus = Accept | Expire | Pending

  /** The status shown for an invitation: accepted once used, expired once
      its expiry time has strictly passed, pending otherwise. */
  function Status(used: bool, expiredAt: Time, now: Time): (s: InviteStatus)
    ensures s == Accept <==> used
    ensures s == Expire <==> !used && expiredAt < now
    ensures s == Pending <==> !used && now <= expiredAt
  {
    if used then Accept else if expiredAt < now then Expire else Pending
  }

  function StatusOf(inv: Invitation, now: Time): (s: InviteStatus)
    ensures s == Accept <==> inv.used
    ensures s == Pending <==> !inv.used && now <= inv.expiredAt
  {
    Status(inv.used, inv.expiredAt, now)
  }

  // ---------------------------------------------------------------------
  // Issuing one invitation

  /** How `createAndSendInvite` ends: the invitation is created and mailed,
      or one of its checks throws, or the save or the mail fails. */
  datatype IssueOutcome = Created | UserExists | AlreadyInvited | Rejected | KeyTaken | MailFailed

  predicate HasUser(users: seq<User>, email: string) {
    exists i :: 0 <= i < |users| && users[i].email == NormEmail(email)
  }

  /** `Invitation.findOne({ email, used: false })`: any unused invitation,
      expired or not. */
  predicate HasUnusedInvite(invs: seq<Invitation>, email: string) {
    exists i :: 0 <= i < |invs| && invs[i].email == NormEmail(email) && !invs[i].used
  }

  /** The new invitation, when its role passes the enum validator. */
  function Draft(email: string, role: string, inviter: User, token: string, id: Id, now: Time): Option<Invitation> {
    match ParseInviteRole(role)
    case Some(r) => Some(NewInvitation(id, email, r, token, inviter.id, inviter.orgName, now))
    case None => None
  }

  /** `createAndSendInvite`: the duplicate-user check, the duplicate-unused-
      invitation check, then the save (validators, unique indexes), then the
      mail. A failed mail leaves the invitation saved. */
  function Issue(users: seq<User>, invs: seq<Invitation>, email: string, role: string, inviter: User,
                 token: string, id: Id, now: Time, mailOk: bool): (r: (seq<Invitation>, IssueOutcome))
    ensures r.1 == Created || r.1 == MailFailed ==>
      Draft(email, role, inviter, token, id, now).Some? &&
      r.0 == invs + [Draft(email, role, inviter, token, id, now).value]
    ensures !(r.1 == Created || r.1 == MailFailed) ==> r.0 == invs
  {
    if HasUser(users, email) then (invs, UserExists)
    else if HasUnusedInvite(invs, email) then (invs, AlreadyInvited)
    else match Draft(email, role, inviter, token, id, now)
      case None => (invs, Rejected)
      case Some(inv) =>
        if !InvitationModel.Required(inv) then (invs, Rejected)
        else if Collides(invs, inv) then (invs, KeyTaken)
        else (invs + [inv], if mailOk then Created else MailFailed)
  }

  /** An existing user, or any unused invitation for the address, expired
      or not, blocks a new invitation. */
  lemma IssueBlocked(users: seq<User>, invs: seq<Invitation>, email: string, role: string, inviter: User,
                     token: string, id: Id, now: Time, mailOk: bool)
    ensures HasUser(users, email) ==>
      Issue(users, invs, email, role, inviter, token, id, now, mailOk) == (invs, UserExists)
    ensures !HasUser(users, email) && HasUnusedInvite(invs, email) ==>
      Issue(users, invs, email, role, inviter, token, id, now, mailOk) == (invs, AlreadyInvited)
  {
  }

  /** A stored invitation has the normalised address, the requested role,
      `token1` equal to `token`, the inviter as both `adminId` and
      `invitedBy`, an expiry one hour ahead and `used` false. */
  lemma IssueStores(users: seq<User>, invs: seq<Invitation>, email: string, role: string, inviter: User,
                    token: string, id: Id, now: Time, mailOk: bool)
    requires var o := Issue(users, invs, email, role, inviter, token, id, now, mailOk).1;
      o == Created || o == MailFailed
    ensures var inv := Issue(users, invs, email, role, inviter, token, id, now, mailOk).0[|invs|];
      && inv.email == NormEmail(email) && RoleName(inv.role) == role
      && inv.token == token && inv.token1 == token
      && inv.adminId == inviter.id && inv.invitedBy == inviter.id
      && inv.expiredAt == now + HOUR && !inv.used
  {
    var d := Draft(email, role, inviter, token, id, now);
    assert Issue(users, invs, email, role, inviter, token, id, now, mailOk).0[|invs|] == d.value;
  }

  /** The inviter's own role plays no part in issuing. */
  lemma IssueIgnoresInviterRole(users: seq<User>, invs: seq<Invitation>, email: string, role: string,
                                inviter: User, other: Option<Role>, token: string, id: Id, now: Time, mailOk: bool)
    ensures Issue(users, invs, email, role, inviter.(role := other), token, id, now, mailOk) ==
            Issue(users, invs, email, role, inviter, token, id, now, mailOk)
  {
    assert Draft(email, role, inviter.(role := other), token, id, now) == Draft(email, role, inviter, token, id, now);
  }

  lemma IssueKeepsValid(users: seq<User>, invs: seq<Invitation>, email: string, role: string, inviter: User,
                        token: string, id: Id, now: Time, mailOk: bool)
    requires InvitationModel.StoreValid(invs)
    ensures InvitationModel.StoreValid(Issue(users, invs, email, role, inviter, token, id, now, mailOk).0)
  {
    var r := Issue(users, invs, email, role, inviter, token, id, now, mailOk);
    if r.1 == Created || r.1 == MailFailed {
      var x := ParseInviteRole(role).value;
      NewInvitationValid(id, email, x, token, inviter.id, inviter.orgName, now);
      InvitationModel.InsertKeepsValid(invs, Draft(email, role, inviter, token, id, now).value);
    }
  }

  /** `createAndSendInvite` against the store. */
  method CreateAndSendInvite(db: Db, email: string, role: string, inviter: User,
                             token: string, id: Id, now: Time, mailOk: bool)
    returns (outcome: IssueOutcome)
    requires db.Valid()
    modifies db`invitations
    ensures db.Valid()
    ensures (db.invitations, outcome) ==
      Issue(db.users, old(db.invitations), email, role, inviter, token, id, now, mailOk)
  {
    IssueKeepsValid(db.users, db.invitations, email, role, inviter, token, id, now, mailOk);
    if HasUser(db.users, email) {
      return UserExists;
    }
    if HasUnusedInvite(db.invitations, email) {
      return AlreadyInvited;
    }
    var draft := Draft(email, role, inviter, token, id, now);
    if draft.None? || !InvitationModel.Required(draft.value) {
      return Rejected;
    }
    if Collides(db.invitations, draft.value) {
      return KeyTaken;
    }
    db.invitations := db.invitations + [draft.value];
    outcome := if mailOk then Created else MailFailed;
  }

  /** The routed `sendInvitation`: field check, inviter lookup, then the
      issue steps; every thrown error becomes "Server error". */
  function SendInvitationSpec(users: seq<User>, invs: seq<Invitation>, inviterId: Option<Id>,
                              email: Field, role: Field, token: string, id: Id, now: Time,
                              mailOk: bool): (r: (seq<Invitation>, Result<string>))
    ensures !Truthy(email) || !Truthy(role) ==>
      r == (invs, Err(BadRequest("Email and role are required")))
    ensures Truthy(email) && Truthy(role) && UserById(users, inviterId).Err? ==>
      r == (invs, Err(ServerError("Server error")))
    ensures Truthy(email) && Truthy(role) && UserById(users, inviterId) == Ok(None) ==>
      r == (invs, Err(NotFound("Inviter not found")))
  {
    if !Truthy(email) || !Truthy(role) then (invs, Err(BadRequest("Email and role are required")))
    else match UserById(users, inviterId)
      case Err(_) => (invs, Err(ServerError("Server error")))
      case Ok(None) => (invs, Err(NotFound("Inviter not found")))
      case Ok(Some(k)) =>
        var (invs', o) := Issue(users, invs, email.text, role.text, users[k], token, id, now, mailOk);
        (invs', match o
          case Created => Ok("Invitation sent successfully")
          case UserExists => Err(BadRequest("User with this email already exists"))
          case AlreadyInvited => Err(BadRequest("User has already been invited"))
          case _ => Err(ServerError("Server error")))
  }

  /** Any known inviter, whatever its role and however its id claim is
      spelled, can issue an invitation for any role of the enum: the routed
      handler has no role gate. */
  lemma SendInvitationHasNoRoleGate(users: seq<User>, invs: seq<Invitation>, k: nat, inviterId: Id,
                                    email: string, role: InviteRole, token: string, id: Id, now: Time)
    requires k < |users| && UserModel.UniqueIndexes(users)
    requires IsHex24(inviterId) && ObjectIdOf(inviterId) == users[k].id
    requires email != "" && !HasUser(users, email) && !HasUnusedInvite(invs, email)
    requires NormEmail(email) != "" && token != ""
    requires !Collides(invs, NewInvitation(id, email, role, token, users[k].id, users[k].orgName, now))
    ensures SendInvitationSpec(users, invs, Some(inviterId), Text(email), Text(RoleName(role)),
                               token, id, now, true).1 == Ok("Invitation sent successfully")
  {
    assert UserById(users, Some(inviterId)) == Ok(Some(k)) by {
      FirstIndexAt(users, UserIdIs(users[k].id), k);
    }
    ParseRoleName(role);
    var inv := NewInvitation(id, email, role, token, users[k].id, users[k].orgName, now);
    assert Draft(email, RoleName(role), users[k], token, id, now) == Some(inv);
    assert InvitationModel.Required(inv);
    assert Issue(users, invs, email, RoleName(role), users[k], token, id, now, true) == (invs + [inv], Created);
  }

  method SendInvitation(db: Db, inviterId: Option<Id>, email: Field, role: Field,
                        token: string, id: Id, now: Time, mailOk: bool)
    returns (r: Result<string>)
    requires db.Valid()
    modifies db`invitations
    ensures db.Valid()
    ensures (db.invitations, r) ==
      SendInvitationSpec(db.users, old(db.invitations), inviterId, email, role, token, id, now, mailOk)
  {
    if !Truthy(email) || !Truthy(role) {
      return Err(BadRequest("Email and role are required"));
    }
    var k := UserById(db.users, inviterId);
    if k.Err? {
      return Err(ServerError("Server error"));
    }
    if k.value.None? {
      return Err(NotFound("Inviter not found"));
    }
    var o := CreateAndSendInvite(db, email.text, role.text, db.users[k.value.value], token, id, now, mailOk);
    r := match o
      case Created => Ok("Invitation sent successfully")
      case UserExists => Err(BadRequest("User with this email already exists"))
      case AlreadyInvited => Err(BadRequest("User has already been invited"))
      case _ => Err(ServerError("Server error"));
  }

  // ---------------------------------------------------------------------
  // Following the link

  datatype AcceptOutcome = InvalidToken | AlreadyUsed | ExpiredToken | ForwardToRegister(token: string)

  function InviteByToken(invs: seq<Invitation>, token: string): (r: Option<nat>)
    ensures r.Some? ==> r.value < |invs| && (invs[r.value].token == token || invs[r.value].token1 == token)
    ensures r.None? ==> forall i :: 0 <= i < |invs| ==> invs[i].token != token && invs[i].token1 != token
  {
    FirstIndex(invs, (inv: Invitation) => inv.token == token || inv.token1 == token)
  }

  /** `acceptInvitation`: the invitation found by `token` or `token1`, then
      the used check, then the expiry check. */
  function AcceptInvitation(invs: seq<Invitation>, token: string, now: Time): (r: AcceptOutcome)
    ensures r == InvalidToken <==> forall i :: 0 <= i < |invs| ==> invs[i].token != token && invs[i].token1 != token
    ensures r.ForwardToRegister? ==>
      (r.token == token &&
       exists k :: 0 <= k < |invs| && (invs[k].token == token || invs[k].token1 == token) &&
         !invs[k].used && now <= invs[k].expiredAt)
  {
    match InviteByToken(invs, token)
    case None => InvalidToken
    case Some(k) =>
      if invs[k].used then AlreadyUsed
      else if invs[k].expiredAt < now then ExpiredToken
      else ForwardToRegister(token)
  }

  /** The link leads to registration exactly when the invitation it names is
      pending; otherwise the reason follows its status, and a used invitation
      reports "already used" even when it has expired too. */
  lemma AcceptFollowsStatus(invs: seq<Invitation>, token: string, now: Time)
    ensures var a := AcceptInvitation(invs, token, now);
      && (a.ForwardToRegister? <==>
            InviteByToken(invs, token).Some? && StatusOf(invs[InviteByToken(invs, token).value], now) == Pending)
      && (a == AlreadyUsed <==>
            InviteByToken(invs, token).Some? && StatusOf(invs[InviteByToken(invs, token).value], now) == Accept)
      && (a == ExpiredToken <==>
            InviteByToken(invs, token).Some? && StatusOf(invs[InviteByToken(invs, token).value], now) == Expire)
      && (a.ForwardToRegister? ==> a.token == token)
  {
  }

  /** The expiry comparison is strict: an invitation is still accepted at
      the very instant it expires. */
  lemma AcceptAtExpiryInstant(invs: seq<Invitation>, token: string, k: nat)
    requires k < |invs| && InviteByToken(invs, token) == Some(k) && !invs[k].used
    ensures AcceptInvitation(invs, token, invs[k].expiredAt) == ForwardToRegister(token)
  {
  }

  // ---------------------------------------------------------------------
  // Listing

  /** `${first || ""} ${last || ""}`.trim() */
  function FullName(first: Option<string>, last: Option<string>): string {
    Trim(OrEmpty(first) + " " + OrEmpty(last))
  }

  /** The user an invitation led to: one whose `invitationToken` is either
      token of the invitation, or whose email is the invited one. */
  function RegisteredUser(users: seq<User>, inv: Invitation): (r: Option<nat>)
    ensures r.Some? ==> r.value < |users|
  {
    FirstIndex(users, (u: User) =>
      u.invitationToken == Some(inv.token1) || u.invitationToken == Some(inv.token) || u.email == inv.email)
  }

  /** `Assessment.findOne({ invitationId })`. */
  function AssessmentOf(as_: seq<AssessmentModel.Assessment>, invitationId: Id): (r: Option<nat>)
    ensures r.Some? ==> r.value < |as_| && as_[r.value].invitationId == Some(invitationId)
    ensures r.None? ==> forall i :: 0 <= i < |as_| ==> as_[i].invitationId != Some(invitationId)
  {
    FirstIndex(as_, (a: AssessmentModel.Assessment) => a.invitationId == Some(invitationId))
  }

  const NO_NAME: string := "\U{2014}"
  const PENDING_INFO: string := "Registered (Pending Info)"
  const ANONYMOUS: string := "Completed (Anonymous)"

  /** The display name of an invitation: the registered user's name, or a
      marker that the user has not given one; else the name recorded with
      the invitation's assessment, or "Completed (Anonymous)"; else "—". */
  function ResolveName(users: seq<User>, as_: seq<AssessmentModel.Assessment>, inv: Invitation): string {
    match RegisteredUser(users, inv)
    case Some(k) =>
      if Present(users[k].firstName) || Present(users[k].lastName) then FullName(users[k].firstName, users[k].lastName)
      else PENDING_INFO
    case None =>
      match AssessmentOf(as_, inv.id)
      case Some(j) =>
        if as_[j].userDetails.Some? then
          var name := FullName(as_[j].userDetails.value.firstName, as_[j].userDetails.value.lastName);
          if name == "" then ANONYMOUS else name
        else NO_NAME
      case None => NO_NAME
  }

  /** A registered user takes precedence: once one is found, the
      assessments play no part in the name. */
  lemma ResolveNamePrefersUser(users: seq<User>, as1: seq<AssessmentModel.Assessment>,
                               as2: seq<AssessmentModel.Assessment>, inv: Invitation)
    requires RegisteredUser(users, inv).Some?
    ensures ResolveName(users, as1, inv) == ResolveName(users, as2, inv)
  {
  }

  /** Without a registered user and without an assessment of the invitation
      the name is "—", and it is never empty: an empty name can only come
      from a registered user whose name parts are all blanks. */
  lemma ResolveNameFallbacks(users: seq<User>, as_: seq<AssessmentModel.Assessment>, inv: Invitation)
    ensures (RegisteredUser(users, inv).None? &&
             forall i :: 0 <= i < |as_| ==> as_[i].invitationId != Some(inv.id)) ==>
      ResolveName(users, as_, inv) == NO_NAME
    ensures ResolveName(users, as_, inv) == "" ==>
      RegisteredUser(users, inv).Some? &&
      var u := users[RegisteredUser(users, inv).value];
      (Present(u.firstName) || Present(u.lastName)) && FullName(u.firstName, u.lastName) == ""
  {
    if RegisteredUser(users, inv).None? && (forall i :: 0 <= i < |as_| ==> as_[i].invitationId != Some(inv.id)) {
      FirstIndexNone(as_, (a: AssessmentModel.Assessment) => a.invitationId == Some(inv.id));
    }
  }

  /** A user with no name parts at all is never shown with a blank name:
      the user is "Registered (Pending Info)". */
  lemma NamelessUserIsPending(users: seq<User>, as_: seq<AssessmentModel.Assessment>, inv: Invitation)
    requires RegisteredUser(users, inv).Some?
    requires var u := users[RegisteredUser(users, inv).value]; u.firstName.None? && u.lastName.None?
    ensures ResolveName(users, as_, inv) == PENDING_INFO
  {
  }

  datatype MemberRow = MemberRow(id: Id, name: string, email: string, role: InviteRole,
                                 createdAt: Time, status: InviteStatus)

  datatype OrgRow = OrgRow(email: string, orgName: string, createdAt: Time, totalUsers: nat,
                           status: InviteStatus)

  datatype Listing = OrgRows(orgs: seq<OrgRow>) | MemberRows(members: seq<MemberRow>)

  function CreatedAt(inv: Invitation): int {
    inv.createdAt
  }

  function Email(inv: Invitation): string {
    inv.email
  }

  function OtherEmail(e: string): Invitation -> bool {
    (inv: Invitation) => inv.email != e
  }

  predicate IsAdminInvite(inv: Invitation) {
    inv.role == Admin
  }

  /** The first invitation of every distinct email, in order of first
      appearance: `$group` by email with `$first`. */
  function FirstPerEmail(invs: seq<Invitation>): (r: seq<Invitation>)
    ensures |r| <= |invs|
    decreases |invs|
  {
    if invs == [] then []
    else [invs[0]] + FirstPerEmail(Filter(invs[1..], OtherEmail(invs[0].email)))
  }

  /** Every group leader is one of the grouped invitations, and it is the
      first invitation of its email. */
  lemma {:induction false} FirstPerEmailSound(invs: seq<Invitation>)
    ensures forall i :: 0 <= i < |FirstPerEmail(invs)| ==> FirstPerEmail(invs)[i] in invs
    decreases |invs|
  {
    if invs != [] {
      var rest := Filter(invs[1..], OtherEmail(invs[0].email));
      FirstPerEmailSound(rest);
      var r := FirstPerEmail(invs);
      forall i | 0 < i < |r| ensures r[i] in invs {
        assert r[i] == FirstPerEmail(rest)[i - 1];
        assert r[i] in rest;
        var k :| 0 <= k < |rest| && rest[k] == r[i];
        FilterFrom(invs[1..], OtherEmail(invs[0].email), k);
        assert r[i] in invs[1..];
      }
    }
  }

  /** Every email of the input has its group. */
  lemma {:induction false} FirstPerEmailCovers(invs: seq<Invitation>, i: nat)
    requires i < |invs|
    ensures exists j :: 0 <= j < |FirstPerEmail(invs)| && FirstPerEmail(invs)[j].email == invs[i].email
    decreases |invs|
  {
    var r := FirstPerEmail(invs);
    if invs[i].email == invs[0].email {
      assert r[0].email == invs[i].email;
    } else {
      var rest := Filter(invs[1..], OtherEmail(invs[0].email));
      assert invs[i] == invs[1..][i - 1];
      FilterKeeps(invs[1..], OtherEmail(invs[0].email), i - 1);
      var k :| 0 <= k < |rest| && rest[k] == invs[i];
      FirstPerEmailCovers(rest, k);
      var j :| 0 <= j < |FirstPerEmail(rest)| && FirstPerEmail(rest)[j].email == rest[k].email;
      assert r[1..] == FirstPerEmail(rest);
      assert r[j + 1].email == invs[i].email;
    }
  }

  /** No email has two groups. */
  lemma {:induction false} FirstPerEmailDistinct(invs: seq<Invitation>)
    ensures forall i, j :: 0 <= i < j < |FirstPerEmail(invs)| ==> FirstPerEmail(invs)[i].email != FirstPerEmail(invs)[j].email
    decreases |invs|
  {
    if invs != [] {
      var rest := Filter(invs[1..], OtherEmail(invs[0].email));
      FirstPerEmailDistinct(rest);
      FirstPerEmailSound(rest);
      var r := FirstPerEmail(invs);
      forall i, j | 0 <= i < j < |r| ensures r[i].email != r[j].email {
        if i == 0 {
          assert r[j] == FirstPerEmail(rest)[j - 1];
          assert r[j] in rest;
        } else {
          assert r[i] == FirstPerEmail(rest)[i - 1] && r[j] == FirstPerEmail(rest)[j - 1];
        }
      }
    }
  }

  /** One row of the superadmin view. */
  function OrgRowOf(users: seq<User>, invs: seq<Invitation>, first: Invitation, now: Time): OrgRow {
    var admin := UserByEmail(users, first.email);
    var orgName :=
      if admin.Some? && Present(users[admin.value].orgName) then users[admin.value].orgName.value
      else if Present(first.orgName) then first.orgName.value
      else "Pending Setup";
    OrgRow(first.email, orgName, first.createdAt,
           Count(invs, (inv: Invitation) => inv.orgName == Some(orgName)),
           StatusOf(first, now))
  }

  function OrgRowsOf(users: seq<User>, invs: seq<Invitation>, firsts: seq<Invitation>, now: Time): (r: seq<OrgRow>)
    ensures |r| == |firsts|
    ensures forall i :: 0 <= i < |r| ==> r[i] == OrgRowOf(users, invs, firsts[i], now)
  {
    seq(|firsts|, i requires 0 <= i < |firsts| => OrgRowOf(users, invs, firsts[i], now))
  }

  function MemberRowOf(users: seq<User>, as_: seq<AssessmentModel.Assessment>, inv: Invitation, now: Time): MemberRow {
    MemberRow(inv.id, ResolveName(users, as_, inv), inv.email, inv.role, inv.createdAt, StatusOf(inv, now))
  }

  function MemberRowsOf(users: seq<User>, as_: seq<AssessmentModel.Assessment>, invs: seq<Invitation>, now: Time): (r: seq<MemberRow>)
    ensures |r| == |invs|
    ensures forall i :: 0 <= i < |r| ==> r[i] == MemberRowOf(users, as_, invs[i], now)
  {
    if invs == [] then [] else [MemberRowOf(users, as_, invs[0], now)] + MemberRowsOf(users, as_, invs[1..], now)
  }

  /** `Invitation.find({ orgName, invitedBy })`: `invitedBy` is an ObjectId
      path, so the claim is cast first; an undefined claim matches only
      records where that path is unset, and `invitedBy` is always set. */
  predicate InScope(inv: Invitation, orgName: Option<string>, userId: Option<Id>) {
    inv.orgName == orgName && CastClaim(userId) == Some(inv.invitedBy)
  }

  function Scope(orgName: Option<string>, userId: Option<Id>): Invitation -> bool {
    (inv: Invitation) => InScope(inv, orgName, userId)
  }

  /** `getInvitations`. The member listing's query throws a CastError,
      caught as a 500, when the caller's id is not 24 hexadecimal digits. */
  function GetInvitations(users: seq<User>, invs: seq<Invitation>, as_: seq<AssessmentModel.Assessment>,
                          caller: Claims, now: Time): (r: Result<Listing>)
    ensures !Present(caller.role) ==> r == Err(Unauthorized("Unauthorized"))
    ensures Present(caller.role) && Lower(caller.role.value) == "superadmin" ==> r.Ok? && r.value.OrgRows?
    ensures Present(caller.role) && Lower(caller.role.value) != "superadmin" ==>
      (r.Err? <==> CastFails(caller.userId)) &&
      (r.Err? ==> r.failure == ServerError("Server error")) &&
      (r.Ok? ==> r.value.MemberRows?)
  {
    if !Present(caller.role) then Err(Unauthorized("Unauthorized"))
    else if Lower(caller.role.value) == "superadmin" then
      var firsts := FirstPerEmail(Filter(invs, IsAdminInvite));
      Ok(OrgRows(OrgRowsOf(users, invs, SortDesc(firsts, CreatedAt), now)))
    else if CastFails(caller.userId) then Err(ServerError("Server error"))
    else
      var mine := Filter(invs, Scope(caller.orgName, caller.userId));
      Ok(MemberRows(MemberRowsOf(users, as_, SortDesc(mine, CreatedAt), now)))
  }

  /** The superadmin view: no email has two rows, and the rows are newest
      first. */
  lemma SuperadminRowsDistinct(users: seq<User>, invs: seq<Invitation>, as_: seq<AssessmentModel.Assessment>,
                               caller: Claims, now: Time)
    requires Present(caller.role) && Lower(caller.role.value) == "superadmin"
    ensures var rows := GetInvitations(users, invs, as_, caller, now).value.orgs;
      && (forall i, j :: 0 <= i < j < |rows| ==> rows[i].email != rows[j].email)
      && (forall i, j :: 0 <= i < j < |rows| ==> rows[i].createdAt >= rows[j].createdAt)
  {
    var admins := Filter(invs, IsAdminInvite);
    var firsts := FirstPerEmail(admins);
    assert GetInvitations(users, invs, as_, caller, now).value.orgs == OrgRowsOf(users, invs, SortDesc(firsts, CreatedAt), now);
    FirstPerEmailDistinct(admins);
    OrgRowsDistinct(users, invs, firsts, now);
  }

  /** Every admin invitation's email has its row in the superadmin view. */
  lemma SuperadminRowsCover(users: seq<User>, invs: seq<Invitation>, as_: seq<AssessmentModel.Assessment>,
                            caller: Claims, now: Time, k: nat)
    requires Present(caller.role) && Lower(caller.role.value) == "superadmin"
    requires k < |invs| && invs[k].role == Admin
    ensures var rows := GetInvitations(users, invs, as_, caller, now).value.orgs;
      exists i :: 0 <= i < |rows| && rows[i].email == invs[k].email
  {
    var admins := Filter(invs, IsAdminInvite);
    var firsts := FirstPerEmail(admins);
    assert GetInvitations(users, invs, as_, caller, now).value.orgs == OrgRowsOf(users, invs, SortDesc(firsts, CreatedAt), now);
    FilterKeeps(invs, IsAdminInvite, k);
    var a :| 0 <= a < |admins| && admins[a] == invs[k];
    FirstPerEmailCovers(admins, a);
    var j :| 0 <= j < |firsts| && firsts[j].email == admins[a].email;
    OrgRowsCover(users, invs, firsts, now, j);
  }

  lemma OrgRowsDistinct(users: seq<User>, invs: seq<Invitation>, firsts: seq<Invitation>, now: Time)
    requires forall a, b :: 0 <= a < b < |firsts| ==> firsts[a].email != firsts[b].email
    ensures var rows := OrgRowsOf(users, invs, SortDesc(firsts, CreatedAt), now);
      forall i, j :: 0 <= i < j < |rows| ==> rows[i].email != rows[j].email
  {
    PermutationKeepsDistinct(firsts, SortDesc(firsts, CreatedAt), Email);
  }

  lemma OrgRowsCover(users: seq<User>, invs: seq<Invitation>, firsts: seq<Invitation>, now: Time, j: nat)
    requires j < |firsts|
    ensures var rows := OrgRowsOf(users, invs, SortDesc(firsts, CreatedAt), now);
      exists i :: 0 <= i < |rows| && rows[i].email == firsts[j].email
  {
    var sorted := SortDesc(firsts, CreatedAt);
    SortDescSameElements(firsts, CreatedAt, firsts[j]);
    assert firsts[j] in sorted;
    var i :| 0 <= i < |sorted| && sorted[i] == firsts[j];
    assert OrgRowsOf(users, invs, sorted, now)[i].email == firsts[j].email;
  }

  /** Anyone else sees the invitations newest first. */
  lemma MemberRowsOrdered(users: seq<User>, invs: seq<Invitation>, as_: seq<AssessmentModel.Assessment>,
                          caller: Claims, now: Time)
    requires Present(caller.role) && Lower(caller.role.value) != "superadmin" && !CastFails(caller.userId)
    ensures var rows := GetInvitations(users, invs, as_, caller, now).value.members;
      forall i, j :: 0 <= i < j < |rows| ==> rows[i].createdAt >= rows[j].createdAt
  {
    var sorted := SortDesc(Filter(invs, Scope(caller.orgName, caller.userId)), CreatedAt);
    assert GetInvitations(users, invs, as_, caller, now).value.members == MemberRowsOf(users, as_, sorted, now);
  }

  /** Every row shown is an invitation carrying the caller's own org name
      and issued by the caller, with that invitation's status. */
  lemma MemberRowsSound(users: seq<User>, invs: seq<Invitation>, as_: seq<AssessmentModel.Assessment>,
                        caller: Claims, now: Time, i: nat)
    requires Present(caller.role) && Lower(caller.role.value) != "superadmin" && !CastFails(caller.userId)
    requires i < |GetInvitations(users, invs, as_, caller, now).value.members|
    ensures var row := GetInvitations(users, invs, as_, caller, now).value.members[i];
      exists k :: 0 <= k < |invs| && InScope(invs[k], caller.orgName, caller.userId) &&
        row.id == invs[k].id && row.status == StatusOf(invs[k], now)
  {
    var mine := Filter(invs, Scope(caller.orgName, caller.userId));
    assert GetInvitations(users, invs, as_, caller, now).value.members ==
      MemberRowsOf(users, as_, SortDesc(mine, CreatedAt), now);
    MemberRowFrom(users, as_, mine, now, i);
    var x := SortDesc(mine, CreatedAt)[i];
    var m :| 0 <= m < |mine| && mine[m] == x;
    FilterFrom(invs, Scope(caller.orgName, caller.userId), m);
    var k :| 0 <= k < |invs| && invs[k] == x;
  }

  /** Every invitation carrying the caller's org name and issued by the
      caller is shown. */
  lemma MemberRowsCover(users: seq<User>, invs: seq<Invitation>, as_: seq<AssessmentModel.Assessment>,
                        caller: Claims, now: Time, k: nat)
    requires Present(caller.role) && Lower(caller.role.value) != "superadmin" && !CastFails(caller.userId)
    requires k < |invs| && InScope(invs[k], caller.orgName, caller.userId)
    ensures var rows := GetInvitations(users, invs, as_, caller, now).value.members;
      exists i :: 0 <= i < |rows| && rows[i].id == invs[k].id
  {
    var mine := Filter(invs, Scope(caller.orgName, caller.userId));
    assert GetInvitations(users, invs, as_, caller, now).value.members ==
      MemberRowsOf(users, as_, SortDesc(mine, CreatedAt), now);
    FilterKeeps(invs, Scope(caller.orgName, caller.userId), k);
    var m :| 0 <= m < |mine| && mine[m] == invs[k];
    MemberRowCover(users, as_, mine, now, m);
  }

  lemma MemberRowFrom(users: seq<User>, as_: seq<AssessmentModel.Assessment>, mine: seq<Invitation>, now: Time, i: nat)
    requires i < |mine|
    ensures var sorted := SortDesc(mine, CreatedAt);
      && sorted[i] in mine
      && MemberRowsOf(users, as_, sorted, now)[i].id == sorted[i].id
      && MemberRowsOf(users, as_, sorted, now)[i].status == StatusOf(sorted[i], now)
  {
    SortDescSameElements(mine, CreatedAt, SortDesc(mine, CreatedAt)[i]);
  }

  lemma MemberRowCover(users: seq<User>, as_: seq<AssessmentModel.Assessment>, mine: seq<Invitation>, now: Time, m: nat)
    requires m < |mine|
    ensures var rows := MemberRowsOf(users, as_, SortDesc(mine, CreatedAt), now);
      exists i :: 0 <= i < |rows| && rows[i].id == mine[m].id
  {
    var sorted := SortDesc(mine, CreatedAt);
    SortDescSameElements(mine, CreatedAt, mine[m]);
    assert mine[m] in sorted;
    var i :| 0 <= i < |sorted| && sorted[i] == mine[m];
    assert MemberRowsOf(users, as_, sorted, now)[i].id == mine[m].id;
  }

  // ---------------------------------------------------------------------
  // Deleting

  /** `id.match(/^[0-9a-fA-F]{24}$/) ? { _id: id } : { email: id }`: an id is cast
      to an ObjectId, an address goes through the setters. */
  predicate Selected(inv: Invitation, id: string)
    ensures '@' in id ==> (Selected(inv, id) <==> inv.email == NormEmail(id))
  {
    if IsHex24(id) then inv.id == ObjectIdOf(id) else inv.email == NormEmail(id)
  }

  function SelectedBy(id: string): Invitation -> bool {
    (inv: Invitation) => Selected(inv, id)
  }

  function NotSelectedBy(id: string): Invitation -> bool {
    (inv: Invitation) => !Selected(inv, id)
  }

  function Matches(invs: seq<Invitation>, id: string): seq<Invitation> {
    Filter(invs, SelectedBy(id))
  }

  /** `invites.every(...)`: every match has passed its expiry and is unused. */
  predicate CanDelete(matches: seq<Invitation>, now: Time) {
    forall i :: 0 <= i < |matches| ==> matches[i].expiredAt < now && !matches[i].used
  }

  /** The guard means exactly that every match shows the status "Expire". */
  lemma CanDeleteIffExpired(matches: seq<Invitation>, now: Time)
    ensures CanDelete(matches, now) <==> forall i :: 0 <= i < |matches| ==> StatusOf(matches[i], now) == Expire
  {
  }

  /** `deleteInvitation`. */
  function DeleteInvitationSpec(invs: seq<Invitation>, id: string, now: Time): (r: (seq<Invitation>, Result<string>))
    ensures r.1.Ok? <==> Matches(invs, id) != [] && CanDelete(Matches(invs, id), now)
    ensures r.1.Err? ==> r.0 == invs
  {
    var matches := Matches(invs, id);
    if matches == [] then (invs, Err(NotFound("No records found to delete")))
    else if !CanDelete(matches, now) then
      (invs, Err(BadRequest("Only expired invitations can be deleted. Accepted or Pending invites must remain.")))
    else (Filter(invs, NotSelectedBy(id)), Ok("Expired invitation deleted successfully"))
  }

  /** A deletion removes only expired, unused invitations, and all of the
      selected ones; every other invitation stays. */
  lemma DeleteRemovesOnlyExpired(invs: seq<Invitation>, id: string, now: Time)
    ensures var (after, r) := DeleteInvitationSpec(invs, id, now);
      && (forall i :: 0 <= i < |invs| && invs[i] !in after ==> StatusOf(invs[i], now) == Expire)
      && (forall i :: 0 <= i < |invs| && !Selected(invs[i], id) ==> invs[i] in after)
      && (r.Ok? ==> forall i :: 0 <= i < |after| ==> !Selected(after[i], id))
      && (forall i :: 0 <= i < |after| ==> after[i] in invs)
  {
    var (after, r) := DeleteInvitationSpec(invs, id, now);
    var matches := Matches(invs, id);
    FilterMembers(invs, NotSelectedBy(id));
    if r.Ok? {
      forall i | 0 <= i < |invs| && invs[i] !in after ensures StatusOf(invs[i], now) == Expire {
        assert Selected(invs[i], id);
        FilterKeeps(invs, SelectedBy(id), i);
        var k :| 0 <= k < |matches| && matches[k] == invs[i];
      }
    }
  }

  /** Removing records keeps every validator and unique index satisfied. */
  lemma FilterKeepsValid(invs: seq<Invitation>, p: Invitation -> bool)
    requires InvitationModel.StoreValid(invs)
    ensures InvitationModel.StoreValid(Filter(invs, p))
  {
    FilterKeepsAll(invs, p, InvitationModel.SchemaValid);
    FilterKeepsPairwise(invs, p, (a: Invitation, b: Invitation) =>
      a.id != b.id && a.token != b.token && a.token1 != b.token1);
  }

  method DeleteInvitation(db: Db, id: string, now: Time) returns (r: Result<string>)
    requires db.Valid()
    modifies db`invitations
    ensures db.Valid()
    ensures (db.invitations, r) == DeleteInvitationSpec(old(db.invitations), id, now)
  {
    var matches := Matches(db.invitations, id);
    if |matches| == 0 {
      return Err(NotFound("No records found to delete"));
    }
    if !CanDelete(matches, now) {
      return Err(BadRequest("Only expired invitations can be deleted. Accepted or Pending invites must remain."));
    }
    FilterKeepsValid(db.invitations, NotSelectedBy(id));
    db.invitations := Filter(db.invitations, NotSelectedBy(id));
    r := Ok("Expired invitation deleted successfully");
  }

  // ---------------------------------------------------------------------
  // Bulk invitations

  /** A parsed CSV row; a column that is missing is `None`. */
  datatype CsvRow = CsvRow(email: Option<string>, role: Option<string>)

  datatype FailedRow = FailedRow(email: string, reason: string)

  datatype Queued = Queued(email: string, role: string)

  /** `value?.trim().toLowerCase()`, with `undefined` and "" both falsy. */
  function Clean(v: Option<string>): string {
    if v.Some? then Lower(Trim(v.value)) else ""
  }

  datatype RowClass = Enqueue(q: Queued) | Fail(f: FailedRow) | Drop

  /** The `data` handler: both values present queue the row, exactly one
      present fails it, neither drops it. */
  function ClassifyRow(row: CsvRow): (c: RowClass)
    ensures c.Enqueue? <==> |Clean(row.email)| > 0 && |Clean(row.role)| > 0
    ensures c.Drop? <==> |Clean(row.email)| == 0 && |Clean(row.role)| == 0
    ensures c.Enqueue? ==> c.q == Queued(Clean(row.email), Clean(row.role))
    ensures c.Fail? && |Clean(row.email)| == 0 ==> c.f == FailedRow("missing", "Missing email")
    ensures c.Fail? && |Clean(row.email)| > 0 ==> c.f == FailedRow(Clean(row.email), "Missing role")
  {
    var email := Clean(row.email);
    var role := Clean(row.role);
    if |email| > 0 && |role| > 0 then Enqueue(Queued(email, role))
    else if |email| > 0 then Fail(FailedRow(email, "Missing role"))
    else if |role| > 0 then Fail(FailedRow("missing", "Missing email"))
    else Drop
  }

  predicate IsDropped(row: CsvRow) {
    ClassifyRow(row).Drop?
  }

  /** The rows queued and failed while the file is read, each in file order. */
  function Classify(rows: seq<CsvRow>): (r: (seq<Queued>, seq<FailedRow>))
    ensures |r.0| + |r.1| <= |rows|
  {
    if rows == [] then ([], [])
    else
      var rest := Classify(rows[1..]);
      var c := ClassifyRow(rows[0]);
      if c.Enqueue? then ([c.q] + rest.0, rest.1)
      else if c.Fail? then (rest.0, [c.f] + rest.1)
      else rest
  }

  /** A queued row has both an email and a role. */
  lemma {:induction false} QueuedRowsComplete(rows: seq<CsvRow>)
    ensures forall i :: 0 <= i < |Classify(rows).0| ==>
      |Classify(rows).0[i].email| > 0 && |Classify(rows).0[i].role| > 0
  {
    if rows != [] {
      QueuedRowsComplete(rows[1..]);
    }
  }

  /** Every row is queued, failed or dropped, exactly once. */
  lemma {:induction false} ClassifyAccounts(rows: seq<CsvRow>)
    ensures |Classify(rows).0| + |Classify(rows).1| + Count(rows, IsDropped) == |rows|
  {
    if rows != [] {
      ClassifyAccounts(rows[1..]);
    }
  }

  /** The roles a bulk upload may invite: admins only for a superadmin,
      compared case-insensitively, and leaders, managers and employees for
      anyone else. */
  function AllowedRoles(inviterRole: string): (r: seq<string>)
    ensures Lower(inviterRole) == "superadmin" <==> "admin" in r
    ensures Lower(inviterRole) == "superadmin" <==> "employee" !in r
  {
    if Lower(inviterRole) == "superadmin" then ["admin"] else ["leader", "manager", "employee"]
  }

  function JoinComma(parts: seq<string>): string {
    if parts == [] then ""
    else if |parts| == 1 then parts[0]
    else parts[0] + ", " + JoinComma(parts[1..])
  }

  /** The message of the error `sendEmail` throws. */
  const MAIL_ERROR: string := "Failed to send email."
  /** The start of a duplicate-key error's message. The server goes on with
      the collection, the index and the key, which this model does not
      spell out, so the recorded reason is this prefix only. */
  const DUPLICATE_KEY_ERROR: string := "E11000 duplicate key error"
  /** The start of a failed validation's message. Mongoose goes on with a
      colon and one `path: message` part per failed path, which this model
      does not spell out. */
  const VALIDATION_ERROR: string := "Invitation validation failed"

  /** The reason recorded for a queued row that was not invited, if any. */
  function Reason(o: IssueOutcome): string {
    match o
    case Created => ""
    case UserExists => "Already registered"
    case AlreadyInvited => "Already invited"
    case Rejected => VALIDATION_ERROR
    case KeyTaken => DUPLICATE_KEY_ERROR
    case MailFailed => MAIL_ERROR
  }

  /** The state the bulk loop carries: the store, `success` and `failed`. */
  datatype BulkState = BulkState(invs: seq<Invitation>, success: nat, failed: seq<FailedRow>)

  /** The values the outside world supplies for the `i`-th queued row: its
      signed token, the id of its record and whether its mail goes out, and
      the clock reading of the run. */
  datatype Env = Env(token: nat -> string, id: nat -> Id, mailOk: nat -> bool, now: Time)

  /** One pass of the loop body for queued row number `i`. */
  function RowStep(users: seq<User>, inviter: User, allowed: seq<string>, env: Env,
                   st: BulkState, row: Queued, i: nat): (r: BulkState)
    ensures r.success + |r.failed| == st.success + |st.failed| + 1
    ensures |r.failed| >= |st.failed| && r.failed[..|st.failed|] == st.failed
  {
    if row.role !in allowed then
      st.(failed := st.failed + [FailedRow(row.email,
            "Invalid role: '" + row.role + "'. Allowed: " + JoinComma(allowed))])
    else
      var (invs', o) := Issue(users, st.invs, row.email, row.role, inviter,
                              env.token(i), env.id(i), env.now, env.mailOk(i));
      if o == Created then BulkState(invs', st.success + 1, st.failed)
      else BulkState(invs', st.success, st.failed + [FailedRow(row.email, Reason(o))])
  }

  /** The state after the first `k` queued rows. */
  function RunRows(users: seq<User>, inviter: User, allowed: seq<string>, env: Env,
                   start: BulkState, rows: seq<Queued>, k: nat): BulkState
    requires k <= |rows|
  {
    if k == 0 then start
    else RowStep(users, inviter, allowed, env, RunRows(users, inviter, allowed, env, start, rows, k - 1), rows[k - 1], k - 1)
  }

  /** Each queued row yields exactly one outcome: after `k` rows, `success`
      plus the number of new failures is `k`, and earlier failures stay. */
  lemma {:induction false} OneOutcomePerRow(users: seq<User>, inviter: User, allowed: seq<string>, env: Env,
                                            start: BulkState, rows: seq<Queued>, k: nat)
    requires k <= |rows|
    ensures var st := RunRows(users, inviter, allowed, env, start, rows, k);
      && st.success + |st.failed| == start.success + |start.failed| + k
      && |st.failed| >= |start.failed| && st.failed[..|start.failed|] == start.failed
  {
    if k > 0 {
      OneOutcomePerRow(users, inviter, allowed, env, start, rows, k - 1);
      var prev := RunRows(users, inviter, allowed, env, start, rows, k - 1);
      var st := RunRows(users, inviter, allowed, env, start, rows, k);
      assert st.failed[..|prev.failed|] == prev.failed;
      assert st.failed[..|start.failed|] == st.failed[..|prev.failed|][..|start.failed|];
    }
  }

  /** The loop only appends invitations; it never changes or removes one. */
  lemma {:induction false} RunRowsAppends(users: seq<User>, inviter: User, allowed: seq<string>, env: Env,
                                          start: BulkState, rows: seq<Queued>, a: nat, b: nat)
    requires a <= b <= |rows|
    ensures var sa := RunRows(users, inviter, allowed, env, start, rows, a);
      var sb := RunRows(users, inviter, allowed, env, start, rows, b);
      |sa.invs| <= |sb.invs| && sb.invs[..|sa.invs|] == sa.invs
    decreases b - a
  {
    if a < b {
      RunRowsAppends(users, inviter, allowed, env, start, rows, a, b - 1);
    }
  }

  /** A saved invitation is an unused invitation for its address, and it
      was saved only because no user had that address. */
  lemma IssueLeavesUnusedInvite(users: seq<User>, invs: seq<Invitation>, email: string, role: string,
                                inviter: User, token: string, id: Id, now: Time, mailOk: bool)
    requires var o := Issue(users, invs, email, role, inviter, token, id, now, mailOk).1;
      o == Created || o == MailFailed
    ensures HasUnusedInvite(Issue(users, invs, email, role, inviter, token, id, now, mailOk).0, email)
    ensures !HasUser(users, email)
  {
    var after := Issue(users, invs, email, role, inviter, token, id, now, mailOk).0;
    IssueStores(users, invs, email, role, inviter, token, id, now, mailOk);
    assert after[|invs|].email == NormEmail(email) && !after[|invs|].used;
  }

  /** Appending records keeps an unused invitation where it was. */
  lemma UnusedInviteStays(invs: seq<Invitation>, more: seq<Invitation>, email: string)
    requires |invs| <= |more| && more[..|invs|] == invs
    requires HasUnusedInvite(invs, email)
    ensures HasUnusedInvite(more, email)
  {
    var i :| 0 <= i < |invs| && invs[i].email == NormEmail(email) && !invs[i].used;
    assert more[i] == more[..|invs|][i];
  }

  /** A row whose address already has an unused invitation, and no user,
      fails as "Already invited" and changes nothing else. */
  lemma RowStepAlreadyInvited(users: seq<User>, inviter: User, allowed: seq<string>, env: Env,
                              st: BulkState, row: Queued, i: nat)
    requires row.role in allowed && !HasUser(users, row.email) && HasUnusedInvite(st.invs, row.email)
    ensures RowStep(users, inviter, allowed, env, st, row, i) ==
      st.(failed := st.failed + [FailedRow(row.email, "Already invited")])
  {
    IssueBlocked(users, st.invs, row.email, row.role, inviter, env.token(i), env.id(i), env.now, env.mailOk(i));
  }

  /** A row that saves an invitation leaves an unused invitation for its
      address, and only does so when no user has the address. */
  lemma RowStepSaves(users: seq<User>, inviter: User, allowed: seq<string>, env: Env,
                     st: BulkState, row: Queued, i: nat)
    requires row.role in allowed
    requires var o := Issue(users, st.invs, row.email, row.role, inviter, env.token(i), env.id(i), env.now, env.mailOk(i)).1;
      o == Created || o == MailFailed
    ensures HasUnusedInvite(RowStep(users, inviter, allowed, env, st, row, i).invs, row.email)
    ensures !HasUser(users, row.email)
  {
    IssueLeavesUnusedInvite(users, st.invs, row.email, row.role, inviter, env.token(i), env.id(i), env.now, env.mailOk(i));
  }

  /** A repeated email in one file: once the store holds an unused
      invitation for an address that no user has (as it does after a row
      for it was saved, `RowStepSaves`), every later row for that address
      with an allowed role fails as "Already invited" and saves nothing. */
  lemma RepeatedEmailAlreadyInvited(users: seq<User>, inviter: User, allowed: seq<string>, env: Env,
                                    start: BulkState, rows: seq<Queued>, j: nat, m: nat)
    requires j <= m < |rows| && rows[m].role in allowed && !HasUser(users, rows[m].email)
    requires HasUnusedInvite(RunRows(users, inviter, allowed, env, start, rows, j).invs, rows[m].email)
    ensures var sm := RunRows(users, inviter, allowed, env, start, rows, m);
      RunRows(users, inviter, allowed, env, start, rows, m + 1) ==
        sm.(failed := sm.failed + [FailedRow(rows[m].email, "Already invited")])
  {
    var sj := RunRows(users, inviter, allowed, env, start, rows, j);
    var sm := RunRows(users, inviter, allowed, env, start, rows, m);
    RunRowsAppends(users, inviter, allowed, env, start, rows, j, m);
    UnusedInviteStays(sj.invs, sm.invs, rows[m].email);
    RowStepAlreadyInvited(users, inviter, allowed, env, sm, rows[m], m);
    assert RunRows(users, inviter, allowed, env, start, rows, m + 1) == RowStep(users, inviter, allowed, env, sm, rows[m], m);
  }

  datatype BulkResult =
    | NoFile
    | InviterNotFound
    | ServerFailure
    | NoValidRows(failedRows: seq<FailedRow>)
    | Report(success: nat, failedCount: nat, failedRows: seq<FailedRow>)

  /** `sendBulkInvitations`, as a specification over the parsed rows. */
  function BulkSpec(users: seq<User>, invs: seq<Invitation>, caller: Claims, file: Option<seq<CsvRow>>,
                    env: Env): (r: (seq<Invitation>, BulkResult))
    ensures !r.1.Report? ==> r.0 == invs
    ensures file.None? ==> r.1 == NoFile
    ensures file.Some? && UserById(users, caller.userId).Err? ==> r.1 == ServerFailure
    ensures file.Some? && UserById(users, caller.userId) == Ok(None) ==> r.1 == InviterNotFound
  {
    if file.None? then (invs, NoFile)
    else match UserById(users, caller.userId)
      case Err(_) => (invs, ServerFailure)
      case Ok(None) => (invs, InviterNotFound)
      case Ok(Some(k)) =>
        if caller.role.None? then (invs, ServerFailure)
        else BulkRows(users, invs, users[k], AllowedRoles(caller.role.value), file.value, env)
  }

  /** The part after the inviter is known: the rows are classified as they
      are read, and the queued ones, if any, are run in order. */
  function BulkRows(users: seq<User>, invs: seq<Invitation>, inviter: User, allowed: seq<string>,
                    rows: seq<CsvRow>, env: Env): (r: (seq<Invitation>, BulkResult))
    ensures !r.1.Report? ==> r.0 == invs
  {
    var (queued, failed) := Classify(rows);
    if queued == [] then (invs, NoValidRows(failed))
    else
      var st := RunRows(users, inviter, allowed, env, BulkState(invs, 0, failed), queued, |queued|);
      (st.invs, Report(st.success, |st.failed|, st.failed))
  }

  /** One pass of the loop body: the row is refused for its role, or the
      invitation is issued and counted. */
  method BulkStep(db: Db, inviter: User, allowed: seq<string>, env: Env,
                  success: nat, failed: seq<FailedRow>, row: Queued, i: nat)
    returns (success': nat, failed': seq<FailedRow>)
    requires db.Valid()
    modifies db`invitations
    ensures db.Valid()
    ensures BulkState(db.invitations, success', failed') ==
      RowStep(db.users, inviter, allowed, env, BulkState(old(db.invitations), success, failed), row, i)
  {
    success', failed' := success, failed;
    if row.role !in allowed {
      failed' := failed + [FailedRow(row.email, "Invalid role: '" + row.role + "'. Allowed: " + JoinComma(allowed))];
    } else {
      var o := CreateAndSendInvite(db, row.email, row.role, inviter, env.token(i), env.id(i), env.now, env.mailOk(i));
      if o == Created {
        success' := success + 1;
      } else {
        failed' := failed + [FailedRow(row.email, Reason(o))];
      }
    }
  }

  /** The loop over the queued rows, from the state `start` whose
      invitations are the store's. */
  method RunQueued(db: Db, inviter: User, allowed: seq<string>, env: Env, queued: seq<Queued>,
                   ghost start: BulkState, failed0: seq<FailedRow>)
    returns (success: nat, failed: seq<FailedRow>)
    requires db.Valid()
    requires start == BulkState(db.invitations, 0, failed0)
    modifies db`invitations
    ensures db.Valid()
    ensures BulkState(db.invitations, success, failed) == RunRows(db.users, inviter, allowed, env, start, queued, |queued|)
  {
    success := 0;
    failed := failed0;
    var i := 0;
    while i < |queued|
      invariant 0 <= i <= |queued|
      invariant db.Valid()
      invariant BulkState(db.invitations, success, failed) == RunRows(db.users, inviter, allowed, env, start, queued, i)
    {
      ghost var before := BulkState(db.invitations, success, failed);
      success, failed := BulkStep(db, inviter, allowed, env, success, failed, queued[i], i);
      assert RunRows(db.users, inviter, allowed, env, start, queued, i + 1) ==
        RowStep(db.users, inviter, allowed, env, before, queued[i], i);
      i := i + 1;
    }
  }

  /** The handler: the inviter is looked up, then the rows are handled. */
  method SendBulkInvitations(db: Db, caller: Claims, file: Option<seq<CsvRow>>, env: Env)
    returns (r: BulkResult)
    requires db.Valid()
    modifies db`invitations
    ensures db.Valid()
    ensures (db.invitations, r) == BulkSpec(db.users, old(db.invitations), caller, file, env)
  {
    if file.None? {
      return NoFile;
    }
    var k := UserById(db.users, caller.userId);
    if k.Err? {
      return ServerFailure;
    }
    if k.value.None? {
      return InviterNotFound;
    }
    if caller.role.None? {
      return ServerFailure;
    }
    r := BulkInvite(db, db.users[k.value.value], AllowedRoles(caller.role.value), file.value, env);
  }

  /** The rows are classified as they are read, then the queued ones are
      processed one by one. */
  method BulkInvite(db: Db, inviter: User, allowed: seq<string>, rows: seq<CsvRow>, env: Env)
    returns (r: BulkResult)
    requires db.Valid()
    modifies db`invitations
    ensures db.Valid()
    ensures (db.invitations, r) == BulkRows(db.users, old(db.invitations), inviter, allowed, rows, env)
  {
    var classified := Classify(rows);
    var queued := classified.0;
    if |queued| == 0 {
      return NoValidRows(classified.1);
    }
    ghost var start := BulkState(db.invitations, 0, classified.1);
    var success, failed := RunQueued(db, inviter, allowed, env, queued, start, classified.1);
    r := Report(success, |failed|, failed);
  }
}
