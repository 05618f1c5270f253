/** `startEmployeeAssessment` and `submitEmployeeAssessment`: the employee
    variant, admitted by an invitation token instead of a session. Submission
    completes the assessment, snapshots its responses and spends an
    employee invitation for the submitted address. */
module EmployeeAssessmentController {
  import opened Common
  import opened UserModel
  import opened InvitationModel
  import opened AssessmentModel
  import opened ResponseModel
  import opened SubmittedAssessmentModel
  import opened EmployeeMiddleware
  import opened AssessmentController
  import opened Store

  // ---------------------------------------------------------------------
  // startEmployeeAssessment

  /** The record an employee start creates: stakeholder "employee", the
      invitation's inviter, organisation and id, and the token's address. */
  function EmployeeDraft(id: Id, e: EmployeeContext): (a: Assessment)
    ensures a.stakeholder == "employee" && a.invitationId == Some(e.invitationId)
    ensures a.invitedBy == Some(e.invitedBy) && a.orgName == e.orgName && a.employeeEmail == e.email
    ensures AssessmentModel.SchemaValid(a) && !a.isCompleted
  {
    NewAssessment(id, "employee", None, e.email, Some(e.invitedBy), e.orgName, Some(e.invitationId))
  }

  /** `startEmployeeAssessment`. `employee` is `req.employee`, which only
      `employeeAccess` sets, always with an invitation id; the handler's test
      for a missing id therefore has no branch here. */
  function StartEmployeeSpec(as_: seq<Assessment>, employee: Option<EmployeeContext>, id: Id)
    : (r: (seq<Assessment>, Result<Id>))
    ensures r.1.Ok? <==> employee.Some? && CreateOutcome(as_, EmployeeDraft(id, employee.value)) == Inserted
    ensures r.1.Ok? ==> r.0 == as_ + [EmployeeDraft(id, employee.value)] && r.1.value == id
    ensures r.1.Err? ==> r.0 == as_
  {
    match employee
    case None => (as_, Err(NotFound("Employee information not found. Invalid token.")))
    case Some(e) =>
      var a := EmployeeDraft(id, e);
      if CreateOutcome(as_, a) == Inserted then (as_ + [a], Ok(id))
      else (as_, Err(ServerError("Error starting employee assessment")))
  }

  /** There is no resume, but the unique index on `invitationId` allows one
      assessment per invitation: once a start succeeded, every later start
      with the same invitation fails and creates nothing. */
  lemma StartEmployeeOncePerInvitation(as_: seq<Assessment>, e: EmployeeContext, id: Id,
                                       e': EmployeeContext, id': Id)
    requires StartEmployeeSpec(as_, Some(e), id).1.Ok?
    requires e'.invitationId == e.invitationId
    ensures var as' := StartEmployeeSpec(as_, Some(e), id).0;
      StartEmployeeSpec(as', Some(e'), id') == (as', Err(ServerError("Error starting employee assessment")))
  {
    var as' := StartEmployeeSpec(as_, Some(e), id).0;
    assert as'[|as_|] == EmployeeDraft(id, e);
    assert CreateOutcome(as', EmployeeDraft(id', e')) != Inserted;
  }

  method StartEmployeeAssessment(db: Db, employee: Option<EmployeeContext>, id: Id) returns (r: Result<Id>)
    requires db.Valid()
    modifies db`assessments
    ensures db.Valid()
    ensures (db.assessments, r) == StartEmployeeSpec(old(db.assessments), employee, id)
  {
    if employee.None? {
      return Err(NotFound("Employee information not found. Invalid token."));
    }
    var outcome := CreateAssessment(db, EmployeeDraft(id, employee.value));
    if outcome != Inserted {
      return Err(ServerError("Error starting employee assessment"));
    }
    r := Ok(id);
  }

  // ---------------------------------------------------------------------
  // submitEmployeeAssessment

  /** The filter `{ email, role: "employee" }` of the invitation the
      submission spends; the address goes through the setters. */
  function EmployeeInviteFor(email: string): Invitation -> bool {
    (inv: Invitation) => inv.email == NormEmail(email) && inv.role == Employee
  }

  /** `Invitation.findOneAndUpdate({ email, role: "employee" }, { used: true })`. */
  function SpendInvitation(invs: seq<Invitation>, email: string): (r: seq<Invitation>)
    ensures |r| == |invs|
  {
    match FirstIndex(invs, EmployeeInviteFor(email))
    case None => invs
    case Some(j) => invs[j := invs[j].(used := true)]
  }

  /** `submitEmployeeAssessment`. The final form comes first, then the
      assessment, its state and its responses. The invitation spent is the
      first employee invitation for the submitted address, which need not
      be the one the assessment was started with. */
  function SubmitEmployeeSpec(as_: seq<Assessment>, rs: seq<Response>, ss: seq<Snapshot>,
                              invs: seq<Invitation>, assessmentId: string,
                              firstName: Field, lastName: Field, email: Field, department: Field,
                              snapshotId: Id, now: Time)
    : (r: (seq<Assessment>, seq<Snapshot>, seq<Invitation>, Result<Snapshot>))
    ensures |r.0| == |as_| && |r.2| == |invs|
    ensures r.3.Ok? ==> r.1 == ss + [r.3.value]
    ensures r.3.Err? ==> r.1 == ss && r.2 == invs
  {
    if !Truthy(firstName) || !Truthy(lastName) || !Truthy(email) || !Truthy(department) then
      (as_, ss, invs, Err(BadRequest("All fields are required")))
    else match AssessmentById(as_, assessmentId)
      case Err(_) => (as_, ss, invs, Err(ServerError("Error submitting assessment")))
      case Ok(None) => (as_, ss, invs, Err(NotFound("Assessment not found")))
      case Ok(Some(k)) =>
        if as_[k].isCompleted then (as_, ss, invs, Err(BadRequest("Assessment already submitted")))
        else
          var found := ResponsesOf(rs, ObjectIdOf(assessmentId));
          if found == [] then (as_, ss, invs, Err(BadRequest("No responses found")))
          else
            var details := EmployeeDetails(firstName.text, lastName.text, email.text, department.text);
            var done := as_[k].(employeeDetails := Some(details), isCompleted := true, submittedAt := Some(now));
            var (as', ss', out) :=
              Finalize(as_, ss, k, done,
                       Snapshot(snapshotId, as_[k].id, Some("employee"), None, None, Some(details), found, now));
            (as', ss', if out.Ok? then SpendInvitation(invs, email.text) else invs, out)
  }

  /** A successful employee submission completes exactly the assessment
      asked for with the submitted form, snapshots all its responses under
      stakeholder "employee", and marks used the first employee invitation
      for the submitted address and nothing else. */
  lemma SubmitEmployeeEffect(as_: seq<Assessment>, rs: seq<Response>, ss: seq<Snapshot>,
                             invs: seq<Invitation>, assessmentId: string,
                             firstName: Field, lastName: Field, email: Field, department: Field,
                             snapshotId: Id, now: Time)
    requires SubmitEmployeeSpec(as_, rs, ss, invs, assessmentId, firstName, lastName, email, department,
                                snapshotId, now).3.Ok?
    ensures var r := SubmitEmployeeSpec(as_, rs, ss, invs, assessmentId, firstName, lastName, email, department,
                                        snapshotId, now);
      var k := AssessmentById(as_, assessmentId).value.value;
      && Truthy(firstName) && Truthy(lastName) && Truthy(email) && Truthy(department)
      && !as_[k].isCompleted && r.0 == as_[k := r.0[k]]
      && r.0[k].isCompleted && r.0[k].submittedAt == Some(now)
      && r.0[k].employeeDetails == Some(EmployeeDetails(firstName.text, lastName.text, email.text, department.text))
      && r.0[k].userId == as_[k].userId && r.0[k].invitationId == as_[k].invitationId
      && r.3.value.stakeholder == Some("employee") && r.3.value.assessmentId == ObjectIdOf(assessmentId)
      && r.3.value.employeeDetails == r.0[k].employeeDetails
      && r.3.value.responses == ResponsesOf(rs, ObjectIdOf(assessmentId)) && r.3.value.responses != []
      && r.2 == SpendInvitation(invs, email.text)
  {
    var k := AssessmentById(as_, assessmentId).value.value;
    var details := EmployeeDetails(firstName.text, lastName.text, email.text, department.text);
    var done := as_[k].(employeeDetails := Some(details), isCompleted := true, submittedAt := Some(now));
    var s := Snapshot(snapshotId, as_[k].id, Some("employee"), None, None, Some(details),
                      ResponsesOf(rs, ObjectIdOf(assessmentId)), now);
    var fin := Finalize(as_, ss, k, done, s);
    assert SubmitEmployeeSpec(as_, rs, ss, invs, assessmentId, firstName, lastName, email, department,
                              snapshotId, now) == (fin.0, fin.1, SpendInvitation(invs, email.text), fin.2);
  }

  /** Spending an invitation changes exactly one record, an employee
      invitation for the address, and only its `used` flag; without such an
      invitation nothing changes. */
  lemma SpendInvitationEffect(invs: seq<Invitation>, email: string)
    ensures var r := SpendInvitation(invs, email);
      match FirstIndex(invs, EmployeeInviteFor(email))
      case None => r == invs
      case Some(j) =>
        r == invs[j := r[j]] && r[j] == invs[j].(used := true) &&
        r[j].role == Employee && r[j].email == NormEmail(email)
  {
  }

  /** Each refusal leaves all three stores as they were, except a failed
      snapshot, which keeps the completed assessment. */
  lemma SubmitEmployeeRefusals(as_: seq<Assessment>, rs: seq<Response>, ss: seq<Snapshot>,
                               invs: seq<Invitation>, assessmentId: string,
                               firstName: Field, lastName: Field, email: Field, department: Field,
                               snapshotId: Id, now: Time)
    ensures var r := SubmitEmployeeSpec(as_, rs, ss, invs, assessmentId, firstName, lastName, email, department,
                                        snapshotId, now);
      r.3.Err? && r.3.failure != ServerError("Error submitting assessment") ==> r.0 == as_
    ensures var r := SubmitEmployeeSpec(as_, rs, ss, invs, assessmentId, firstName, lastName, email, department,
                                        snapshotId, now);
      !Truthy(firstName) || !Truthy(lastName) || !Truthy(email) || !Truthy(department) ==>
        r == (as_, ss, invs, Err(BadRequest("All fields are required")))
  {
  }

  /** `findOneAndUpdate` of the `used` flag, on the store. */
  method SpendInvitationIn(db: Db, email: string)
    requires db.Valid()
    modifies db`invitations
    ensures db.Valid()
    ensures db.invitations == SpendInvitation(old(db.invitations), email)
  {
    var j := FirstIndex(db.invitations, EmployeeInviteFor(email));
    if j.Some? {
      MarkUsedKeepsValid(db.invitations, j.value);
      db.invitations := db.invitations[j.value := db.invitations[j.value].(used := true)];
    }
  }

  method SubmitEmployeeAssessment(db: Db, assessmentId: string,
                                  firstName: Field, lastName: Field, email: Field, department: Field,
                                  snapshotId: Id, now: Time)
    returns (r: Result<Snapshot>)
    requires db.Valid()
    modifies db`assessments, db`snapshots, db`invitations
    ensures db.Valid()
    ensures (db.assessments, db.snapshots, db.invitations, r) ==
      SubmitEmployeeSpec(old(db.assessments), db.responses, old(db.snapshots), old(db.invitations),
                         assessmentId, firstName, lastName, email, department, snapshotId, now)
  {
    if !Truthy(firstName) || !Truthy(lastName) || !Truthy(email) || !Truthy(department) {
      return Err(BadRequest("All fields are required"));
    }
    var lookup := AssessmentById(db.assessments, assessmentId);
    if lookup.Err? {
      return Err(ServerError("Error submitting assessment"));
    }
    if lookup.value.None? {
      return Err(NotFound("Assessment not found"));
    }
    var k := lookup.value.value;
    if db.assessments[k].isCompleted {
      return Err(BadRequest("Assessment already submitted"));
    }
    var found := ResponsesOf(db.responses, ObjectIdOf(assessmentId));
    if found == [] {
      return Err(BadRequest("No responses found"));
    }
    var details := EmployeeDetails(firstName.text, lastName.text, email.text, department.text);
    var a := db.assessments[k];
    var done := a.(employeeDetails := Some(details), isCompleted := true, submittedAt := Some(now));
    r := FinalizeIn(db, k, done,
                    Snapshot(snapshotId, a.id, Some("employee"), None, None, Some(details), found, now));
    if r.Err? {
      return;
    }
    SpendInvitationIn(db, email.text);
  }
}
