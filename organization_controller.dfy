/** `getOrgDetails`: the member list of one organisation, built from its
    invitations, with each member's invitation status and assessment
    progress, the organisation's admin put in front when no invitation
    already lists the admin's address, and the organisation's own status. */
module OrganizationController {
  import opened Common
  import opened UserModel
  import opened InvitationModel
  import opened AssessmentModel
  import InvitationController
  import UserController

  /** The `assessmentStatus` of a member row: "Not Started", "In Progress",
      "Completed" or "Due". */
  datatype Progress = NotStarted | InProgress | Completed | Due

  /** The progress of a registered member: the latest completed assessment
      decides first ("Due" once its submission is older than three months),
      then any open one; `threeMonthsAgo` is the calendar date three months
      before now. */
  function UserProgress(as_: seq<Assessment>, uid: Id, threeMonthsAgo: Time): (r: Progress)
    ensures r == Completed || r == Due <==> exists i :: 0 <= i < |as_| && UserController.OwnCompleted(uid)(as_[i])
    ensures r == InProgress ==> exists i :: 0 <= i < |as_| && UserController.OwnIncomplete(uid)(as_[i])
  {
    match UserController.LatestSubmission(as_, uid)
    case Some(t) => if t.Some? && t.value < threeMonthsAgo then Due else Completed
    case None => if FirstIndex(as_, UserController.OwnIncomplete(uid)).Some? then InProgress else NotStarted
  }

  /** The registered member's progress, stated over that member's
      assessments: "Not Started" exactly when there is none, "In Progress"
      exactly when all are open, and a completed one always counts as a
      completion, open ones notwithstanding. */
  lemma UserProgressMeaning(as_: seq<Assessment>, uid: Id, threeMonthsAgo: Time)
    ensures UserProgress(as_, uid, threeMonthsAgo) == NotStarted <==>
      forall i :: 0 <= i < |as_| ==> as_[i].userId != Some(uid)
    ensures UserProgress(as_, uid, threeMonthsAgo) == InProgress <==>
      (exists i :: 0 <= i < |as_| && UserController.OwnIncomplete(uid)(as_[i])) &&
      (forall i :: 0 <= i < |as_| ==> !UserController.OwnCompleted(uid)(as_[i]))
    ensures UserProgress(as_, uid, threeMonthsAgo) in {Completed, Due} <==>
      exists i :: 0 <= i < |as_| && UserController.OwnCompleted(uid)(as_[i])
    ensures UserProgress(as_, uid, threeMonthsAgo) == Due ==>
      forall i :: 0 <= i < |as_| && UserController.OwnCompleted(uid)(as_[i]) && as_[i].submittedAt.Some? ==>
        as_[i].submittedAt.value < threeMonthsAgo
  {
    var latest := UserController.LatestSubmission(as_, uid);
    if latest.None? {
      match FirstIndex(as_, UserController.OwnIncomplete(uid))
      case Some(k) =>
      case None =>
        assert forall i :: 0 <= i < |as_| ==>
          !UserController.OwnIncomplete(uid)(as_[i]) && !UserController.OwnCompleted(uid)(as_[i]);
    } else {
      var i :| 0 <= i < |as_| && UserController.OwnCompleted(uid)(as_[i]);
      assert as_[i].userId == Some(uid);
    }
  }

  /** Where `getMe` reports PENDING for any open assessment, the member list
      reports the completion: an admin, leader or manager with both a
      completed and an open assessment is "Completed" or "Due" here and
      PENDING there. */
  lemma CompletionOutranksOpen(u: User, as_: seq<Assessment>, threeMonthsAgo: Time, i: nat, j: nat)
    requires UserController.Assessed(u.role)
    requires i < |as_| && UserController.OwnCompleted(u.id)(as_[i])
    requires j < |as_| && UserController.OwnIncomplete(u.id)(as_[j])
    ensures UserProgress(as_, u.id, threeMonthsAgo) in {Completed, Due}
    ensures UserController.StatusOf(u, as_, threeMonthsAgo) == UserController.Pending
  {
    UserProgressMeaning(as_, u.id, threeMonthsAgo);
    UserController.StatusMeaning(u, as_, threeMonthsAgo);
  }

  /** The progress of a member with no account, read from the assessment
      linked to the invitation: none means "Not Started", otherwise its
      completion flag decides. */
  function InvitationProgress(as_: seq<Assessment>, invitationId: Id): (r: Progress)
    ensures r != Due
    ensures r == NotStarted <==> forall i :: 0 <= i < |as_| ==> as_[i].invitationId != Some(invitationId)
    ensures r == Completed ==> exists i :: 0 <= i < |as_| && as_[i].invitationId == Some(invitationId) && as_[i].isCompleted
    ensures r == InProgress ==> exists i :: 0 <= i < |as_| && as_[i].invitationId == Some(invitationId) && !as_[i].isCompleted
  {
    match InvitationController.AssessmentOf(as_, invitationId)
    case None => NotStarted
    case Some(j) => if as_[j].isCompleted then Completed else InProgress
  }

  /** The progress of the member an invitation stands for: the registered
      user's assessments when there is one, else the invitation's own. */
  function MemberProgress(users: seq<User>, as_: seq<Assessment>, inv: Invitation, threeMonthsAgo: Time): Progress {
    match InvitationController.RegisteredUser(users, inv)
    case Some(k) => UserProgress(as_, users[k].id, threeMonthsAgo)
    case None => InvitationProgress(as_, inv.id)
  }

  // ---------------------------------------------------------------------
  // Names

  /** `name.split(" ")[0] || "—"`. */
  function FirstWord(name: string): string {
    var w := SplitSpace(name)[0];
    if w == "" then InvitationController.NO_NAME else w
  }

  /** `name.split(" ").slice(1).join(" ") || ""`. */
  function RestWords(name: string): string {
    JoinSpace(SplitSpace(name)[1..])
  }

  function IsBlankChar(c: char): bool {
    c == ' '
  }

  /** The split loses nothing: the first name is one word, a one-word name
      has an empty last name, and a name that starts with a word is that
      word, a space and the last name. */
  lemma NameSplit(name: string)
    ensures ' ' !in FirstWord(name)
    ensures ' ' !in name ==> RestWords(name) == "" && (name != "" ==> FirstWord(name) == name)
    ensures ' ' in name && name[0] != ' ' ==> name == FirstWord(name) + " " + RestWords(name)
  {
    JoinSplit(name);
    assert ' ' !in InvitationController.NO_NAME;
    match FirstIndex(name, IsBlankChar)
    case None =>
      assert ' ' !in name by {
        assert forall j :: 0 <= j < |name| ==> !IsBlankChar(name[j]);
      }
      SplitNoSpace(name);
    case Some(i) =>
      var w := name[..i];
      var rest := name[i + 1..];
      assert name == w + " " + rest;
      assert ' ' !in w by {
        assert forall j :: 0 <= j < i ==> !IsBlankChar(name[j]);
      }
      SplitAfterWord(w, rest);
      JoinSplit(rest);
      assert SplitSpace(name)[1..] == SplitSpace(rest);
      if name[0] != ' ' {
        assert w != "";
      }
  }

  // ---------------------------------------------------------------------
  // Rows

  /** One entry of `members`. */
  datatype Member = Member(
    id: Id,
    firstName: string,
    lastName: string,
    name: string,
    email: string,
    role: Role,
    createdAt: Time,
    status: InvitationController.InviteStatus,
    assessmentStatus: Progress)

  /** The row of one invitation. */
  function InvitationRow(users: seq<User>, as_: seq<Assessment>, inv: Invitation, now: Time,
                         threeMonthsAgo: Time): (r: Member)
    ensures r.id == inv.id && r.email == inv.email && r.role == inv.role && r.createdAt == inv.createdAt
    ensures r.status == InvitationController.Accept <==> inv.used
    ensures ' ' !in r.firstName
  {
    var name := InvitationController.ResolveName(users, as_, inv);
    NameSplit(name);
    Member(inv.id, FirstWord(name), RestWords(name), name, inv.email, inv.role, inv.createdAt,
           InvitationController.StatusOf(inv, now), MemberProgress(users, as_, inv, threeMonthsAgo))
  }

  function InvitationRows(users: seq<User>, as_: seq<Assessment>, invs: seq<Invitation>, now: Time,
                          threeMonthsAgo: Time): (r: seq<Member>)
    ensures |r| == |invs|
    ensures forall i :: 0 <= i < |r| ==> r[i] == InvitationRow(users, as_, invs[i], now, threeMonthsAgo)
  {
    if invs == [] then []
    else [InvitationRow(users, as_, invs[0], now, threeMonthsAgo)] + InvitationRows(users, as_, invs[1..], now, threeMonthsAgo)
  }

  /** The row put in front for the organisation's admin: always accepted. */
  function AdminRow(u: User, as_: seq<Assessment>, threeMonthsAgo: Time): (r: Member)
    ensures r.id == u.id && r.email == u.email && r.role == Admin && r.status == InvitationController.Accept
    ensures r.firstName != ""
    ensures r.name != [] ==> !IsSpace(r.name[0]) && !IsSpace(r.name[|r.name| - 1])
  {
    Member(u.id, if Present(u.firstName) then u.firstName.value else "Admin", OrEmpty(u.lastName),
           InvitationController.FullName(u.firstName, u.lastName), u.email, Admin, u.createdAt,
           InvitationController.Accept, UserProgress(as_, u.id, threeMonthsAgo))
  }

  /** `User.findOne({ orgName, role: "admin" })`. The user's `orgName` path
      trims, in a filter as on save. */
  function OrgAdmin(users: seq<User>, orgName: string): (r: Option<nat>)
    ensures r.Some? ==> r.value < |users| && users[r.value].orgName == Some(Trim(orgName)) && users[r.value].role == Some(Admin)
    ensures r.None? ==> forall i :: 0 <= i < |users| ==> !(users[i].orgName == Some(Trim(orgName)) && users[i].role == Some(Admin))
  {
    FirstIndex(users, (u: User) => u.orgName == Some(Trim(orgName)) && u.role == Some(Admin))
  }

  function InOrg(orgName: string): Invitation -> bool {
    (inv: Invitation) => inv.orgName == Some(orgName)
  }

  /** `formattedMembers.some(m => m.email === adminUser.email)`. */
  predicate Listed(rows: seq<Member>, email: string) {
    exists i :: 0 <= i < |rows| && rows[i].email == email
  }

  // ---------------------------------------------------------------------
  // The organisation

  /** The organisation's `status`: "Accept", "Pending" or "Expired". */
  datatype OrgStatus = Active | AwaitingAdmin | NoAdmin

  /** Accepted once the admin has verified the address and completed the
      profile, pending while the admin has not, expired without an admin. */
  function OrgStatusOf(admin: Option<User>): (s: OrgStatus)
    ensures s == Active <==> admin.Some? && admin.value.isEmailVerified && admin.value.profileCompleted
    ensures s == AwaitingAdmin <==> admin.Some? && !(admin.value.isEmailVerified && admin.value.profileCompleted)
    ensures s == NoAdmin <==> admin.None?
  {
    match admin
    case None => NoAdmin
    case Some(u) => if u.isEmailVerified && u.profileCompleted then Active else AwaitingAdmin
  }

  /** `details` and `members`; a missing `createdAt` is "N/A". */
  datatype OrgDetails = OrgDetails(
    orgName: string,
    createdAt: Option<Time>,
    status: OrgStatus,
    totalTeamMember: nat,
    members: seq<Member>)

  /** The invitation rows, newest invitation first. */
  function OrgRows(users: seq<User>, invs: seq<Invitation>, as_: seq<Assessment>, orgName: string,
                   now: Time, threeMonthsAgo: Time): seq<Member>
  {
    InvitationRows(users, as_, SortDesc(Filter(invs, InOrg(orgName)), InvitationController.CreatedAt), now, threeMonthsAgo)
  }

  /** `getOrgDetails`. */
  function GetOrgDetails(users: seq<User>, invs: seq<Invitation>, as_: seq<Assessment>, orgName: string,
                         now: Time, threeMonthsAgo: Time): (r: Result<OrgDetails>)
    ensures r.Err? <==> orgName == ""
    ensures r.Err? ==> r.failure == BadRequest("Org name is required")
    ensures r.Ok? ==> r.value.totalTeamMember == |r.value.members| && r.value.orgName == orgName
    ensures r.Ok? ==> var admin := OrgAdmin(users, orgName);
      && r.value.status == OrgStatusOf(if admin.Some? then Some(users[admin.value]) else None)
      && (r.value.createdAt.Some? <==> admin.Some?)
  {
    if orgName == "" then Err(BadRequest("Org name is required"))
    else
      var rows := OrgRows(users, invs, as_, orgName, now, threeMonthsAgo);
      var admin := OrgAdmin(users, orgName);
      var members :=
        if admin.Some? && !Listed(rows, users[admin.value].email) then [AdminRow(users[admin.value], as_, threeMonthsAgo)] + rows
        else rows;
      Ok(OrgDetails(orgName,
                    if admin.Some? then Some(users[admin.value].createdAt) else None,
                    OrgStatusOf(if admin.Some? then Some(users[admin.value]) else None),
                    |members|, members))
  }

  /** The admin is listed exactly once by address when the admin has no
      invitation row: the admin row is put in front of the invitation rows
      exactly when none carries the admin's address, and the admin's address
      appears in the list whenever there is an admin. */
  lemma AdminPrepended(users: seq<User>, invs: seq<Invitation>, as_: seq<AssessmentModel.Assessment>,
                       orgName: string, now: Time, threeMonthsAgo: Time)
    requires orgName != ""
    ensures var members := GetOrgDetails(users, invs, as_, orgName, now, threeMonthsAgo).value.members;
      var rows := OrgRows(users, invs, as_, orgName, now, threeMonthsAgo);
      var admin := OrgAdmin(users, orgName);
      && (admin.None? ==> members == rows)
      && (admin.Some? ==> Listed(members, users[admin.value].email))
      && (admin.Some? && Listed(rows, users[admin.value].email) ==> members == rows)
      && (admin.Some? && !Listed(rows, users[admin.value].email) ==>
            members == [AdminRow(users[admin.value], as_, threeMonthsAgo)] + rows &&
            members[0].status == InvitationController.Accept && members[0].role == Admin)
  {
    var rows := OrgRows(users, invs, as_, orgName, now, threeMonthsAgo);
    var admin := OrgAdmin(users, orgName);
    if admin.Some? && !Listed(rows, users[admin.value].email) {
      var members := [AdminRow(users[admin.value], as_, threeMonthsAgo)] + rows;
      assert members[0].email == users[admin.value].email;
    }
  }

  /** Every invitation of the organisation has its row, with that
      invitation's status, name and its member's progress. */
  lemma MembersCover(users: seq<User>, invs: seq<Invitation>, as_: seq<AssessmentModel.Assessment>,
                     orgName: string, now: Time, threeMonthsAgo: Time, k: nat)
    requires orgName != ""
    requires k < |invs| && invs[k].orgName == Some(orgName)
    ensures var members := GetOrgDetails(users, invs, as_, orgName, now, threeMonthsAgo).value.members;
      exists i :: 0 <= i < |members| && members[i] == InvitationRow(users, as_, invs[k], now, threeMonthsAgo)
  {
    var rows := OrgRows(users, invs, as_, orgName, now, threeMonthsAgo);
    var j := RowsCover(users, invs, as_, orgName, now, threeMonthsAgo, k);
    AdminPrepended(users, invs, as_, orgName, now, threeMonthsAgo);
    var members := GetOrgDetails(users, invs, as_, orgName, now, threeMonthsAgo).value.members;
    if members != rows {
      assert members[j + 1] == rows[j];
    }
  }

  lemma RowsCover(users: seq<User>, invs: seq<Invitation>, as_: seq<AssessmentModel.Assessment>,
                  orgName: string, now: Time, threeMonthsAgo: Time, k: nat) returns (j: nat)
    requires k < |invs| && invs[k].orgName == Some(orgName)
    ensures var rows := OrgRows(users, invs, as_, orgName, now, threeMonthsAgo);
      j < |rows| && rows[j] == InvitationRow(users, as_, invs[k], now, threeMonthsAgo)
  {
    var mine := Filter(invs, InOrg(orgName));
    var sorted := SortDesc(mine, InvitationController.CreatedAt);
    FilterKeeps(invs, InOrg(orgName), k);
    SortDescSameElements(mine, InvitationController.CreatedAt, invs[k]);
    j :| 0 <= j < |sorted| && sorted[j] == invs[k];
  }

  /** After the admin row, if any, the rows are newest invitation first. */
  lemma MembersNewestFirst(users: seq<User>, invs: seq<Invitation>, as_: seq<AssessmentModel.Assessment>,
                           orgName: string, now: Time, threeMonthsAgo: Time)
    requires orgName != ""
    ensures var rows := OrgRows(users, invs, as_, orgName, now, threeMonthsAgo);
      forall i, j :: 0 <= i < j < |rows| ==> rows[i].createdAt >= rows[j].createdAt
  {
    var sorted := SortDesc(Filter(invs, InOrg(orgName)), InvitationController.CreatedAt);
    assert forall i :: 0 <= i < |sorted| ==> InvitationController.CreatedAt(sorted[i]) == sorted[i].createdAt;
  }
}
