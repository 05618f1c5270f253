/** `startAssessment` and `submitAssessment`: an assessment is created as a
    draft, then submitted once. Submission flips the completion flag,
    records who submitted it, and writes an immutable snapshot of all its
    responses. */
module AssessmentController {
  import opened Common
  import opened UserModel
  import opened AssessmentModel
  import opened ResponseModel
  import opened SubmittedAssessmentModel
  import opened Store

  // ---------------------------------------------------------------------
  // Operations shared with the employee variant

  /** `Assessment.create(a)`: the validators, then the unique indexes. */
  method CreateAssessment(db: Db, a: Assessment) returns (r: Insert)
    requires db.Valid()
    modifies db`assessments
    ensures db.Valid()
    ensures r == CreateOutcome(old(db.assessments), a)
    ensures db.assessments == if r == Inserted then old(db.assessments) + [a] else old(db.assessments)
  {
    r := CreateOutcome(db.assessments, a);
    if r == Inserted {
      AssessmentModel.InsertKeepsValid(db.assessments, a);
      db.assessments := db.assessments + [a];
    }
  }

  function IdIs(id: Id): Assessment -> bool {
    (a: Assessment) => a.id == id
  }

  /** `Assessment.findById(new ObjectId(id))`. An id that is not 24
      hexadecimal digits makes the cast throw (`Err`); otherwise the letters
      of the id may be in either case. */
  function AssessmentById(as_: seq<Assessment>, id: string): (r: Result<Option<nat>>)
    ensures r.Err? <==> !IsHex24(id)
    ensures r.Ok? && r.value.Some? ==> r.value.value < |as_| && as_[r.value.value].id == ObjectIdOf(id)
    ensures r.Ok? && r.value.None? ==> forall i :: 0 <= i < |as_| ==> as_[i].id != ObjectIdOf(id)
  {
    if !IsHex24(id) then Err(ServerError("input must be a 24 character hex string"))
    else Ok(FirstIndex(as_, IdIs(ObjectIdOf(id))))
  }

  /** The two writes that end a submission: the completed assessment `done`
      is saved over the record at `k`, then the snapshot is created. A
      snapshot that cannot be stored fails the request, but the completed
      assessment stays saved. */
  function Finalize(as_: seq<Assessment>, ss: seq<Snapshot>, k: nat, done: Assessment, s: Snapshot)
    : (r: (seq<Assessment>, seq<Snapshot>, Result<Snapshot>))
    requires k < |as_|
    ensures r.0 == as_[k := done]
    ensures r.2.Ok? <==> !IdTaken(ss, s.id)
    ensures r.1 == if r.2.Ok? then ss + [s] else ss
    ensures r.2.Ok? ==> r.2.value == s
  {
    if IdTaken(ss, s.id) then (as_[k := done], ss, Err(ServerError("Error submitting assessment")))
    else (as_[k := done], ss + [s], Ok(s))
  }

  /** A completed record keeps the indexed and required paths of the record
      it replaces. */
  predicate SameIdentity(a: Assessment, done: Assessment) {
    done.id == a.id && done.invitationId == a.invitationId && done.stakeholder == a.stakeholder
  }

  method FinalizeIn(db: Db, k: nat, done: Assessment, s: Snapshot) returns (r: Result<Snapshot>)
    requires db.Valid() && k < |db.assessments| && SameIdentity(db.assessments[k], done)
    modifies db`assessments, db`snapshots
    ensures db.Valid()
    ensures (db.assessments, db.snapshots, r) == Finalize(old(db.assessments), old(db.snapshots), k, done, s)
  {
    AssessmentModel.UpdateKeepsValid(db.assessments, k, done);
    db.assessments := db.assessments[k := done];
    if IdTaken(db.snapshots, s.id) {
      return Err(ServerError("Error submitting assessment"));
    }
    SubmittedAssessmentModel.InsertKeepsValid(db.snapshots, s);
    db.snapshots := db.snapshots + [s];
    r := Ok(s);
  }

  // ---------------------------------------------------------------------
  // startAssessment

  /** `leader` and `manager` assessments record the caller. */
  predicate RecordsCaller(stakeholder: string) {
    stakeholder == "leader" || stakeholder == "manager"
  }

  /** The record `startAssessment` asks to create: the stakeholder, the
      caller for a leader or manager, and no invitation. */
  function Draft(id: Id, stakeholder: string, userId: Option<Id>): Assessment {
    NewAssessment(id, stakeholder, if RecordsCaller(stakeholder) then userId else None,
                  None, None, None, None)
  }

  /** `startAssessment`. `userId` is the claim of the session token and `id`
      the `_id` the new record would get. */
  function StartAssessmentSpec(as_: seq<Assessment>, stakeholder: Field, userId: Option<Id>, id: Id)
    : (r: (seq<Assessment>, Result<Id>))
    ensures r.1.Ok? ==> Truthy(stakeholder) && r.0 == as_ + [Draft(id, stakeholder.text, userId)] && r.1.value == id
    ensures r.1.Err? ==> r.0 == as_
  {
    if !Truthy(stakeholder) then (as_, Err(BadRequest("Stakeholder is required")))
    else
      var a := Draft(id, stakeholder.text, userId);
      if CreateOutcome(as_, a) == Inserted then (as_ + [a], Ok(id))
      else (as_, Err(ServerError("Error starting assessment")))
  }

  /** The draft never carries the `invitationId` the schema requires, so
      every start is refused by validation and creates nothing. */
  lemma StartAssessmentAlwaysRefused(as_: seq<Assessment>, stakeholder: Field, userId: Option<Id>, id: Id)
    ensures StartAssessmentSpec(as_, stakeholder, userId, id) ==
      (as_, Err(if Truthy(stakeholder) then ServerError("Error starting assessment")
                else BadRequest("Stakeholder is required")))
  {
    if Truthy(stakeholder) {
      assert CreateOutcome(as_, Draft(id, stakeholder.text, userId)) == InvalidDoc;
    }
  }

  method StartAssessment(db: Db, stakeholder: Field, userId: Option<Id>, id: Id) returns (r: Result<Id>)
    requires db.Valid()
    modifies db`assessments
    ensures db.Valid()
    ensures (db.assessments, r) == StartAssessmentSpec(old(db.assessments), stakeholder, userId, id)
  {
    if !Truthy(stakeholder) {
      return Err(BadRequest("Stakeholder is required"));
    }
    var outcome := CreateAssessment(db, Draft(id, stakeholder.text, userId));
    if outcome != Inserted {
      return Err(ServerError("Error starting assessment"));
    }
    r := Ok(id);
  }

  // ---------------------------------------------------------------------
  // submitAssessment

  /** `cleanedUserDetails`: the submitter's id, names, address, department
      and role, and nothing else. */
  function UserDetailsOf(u: User): UserDetails {
    UserDetails(u.id, u.firstName, u.lastName, u.email, u.department, u.role)
  }

  /** The projection keeps no secret: two accounts that differ only in
      password, tokens, contact data or flags give the same details. */
  lemma UserDetailsHideSecrets(u: User, w: User)
    requires u.id == w.id && u.firstName == w.firstName && u.lastName == w.lastName
    requires u.email == w.email && u.department == w.department && u.role == w.role
    ensures UserDetailsOf(u) == UserDetailsOf(w)
    ensures UserDetailsOf(u).id == u.id && UserDetailsOf(u).email == u.email
  {
  }

  /** `submitAssessment`. `userId` is the session's claim, `snapshotId` the
      `_id` the snapshot would get. The checks come in this order: the
      assessment exists, it is not yet completed, it has responses, the
      submitter exists. The submitter is not compared with the assessment's
      owner: `userId` is overwritten. Both `userId` paths are ObjectIds, so
      they store the cast claim, which is the submitter's `_id`. */
  function SubmitAssessmentSpec(as_: seq<Assessment>, rs: seq<Response>, users: seq<User>,
                                ss: seq<Snapshot>, assessmentId: string, userId: Option<Id>,
                                snapshotId: Id, now: Time)
    : (r: (seq<Assessment>, seq<Snapshot>, Result<Snapshot>))
    ensures |r.0| == |as_|
    ensures r.2.Ok? ==> r.1 == ss + [r.2.value]
    ensures r.2.Err? ==> r.1 == ss
  {
    match AssessmentById(as_, assessmentId)
    case Err(_) => (as_, ss, Err(ServerError("Error submitting assessment")))
    case Ok(None) => (as_, ss, Err(NotFound("Assessment not found")))
    case Ok(Some(k)) =>
      if as_[k].isCompleted then (as_, ss, Err(BadRequest("Assessment already submitted")))
      else
        var found := ResponsesOf(rs, ObjectIdOf(assessmentId));
        if found == [] then (as_, ss, Err(BadRequest("No responses provided")))
        else match UserById(users, userId)
          case Err(_) => (as_, ss, Err(ServerError("Error submitting assessment")))
          case Ok(None) => (as_, ss, Err(NotFound("User not found")))
          case Ok(Some(j)) =>
            var details := UserDetailsOf(users[j]);
            var done := as_[k].(isCompleted := true, submittedAt := Some(now), userId := Some(users[j].id),
                                userDetails := Some(details));
            Finalize(as_, ss, k, done,
                     Snapshot(snapshotId, as_[k].id, Some(as_[k].stakeholder), Some(users[j].id), Some(details),
                              None, found, now))
  }

  /** A successful submission completes exactly the assessment asked for,
      stamps it with the submitter and the time, and snapshots every stored
      response of the assessment with the same stakeholder and details. */
  lemma SubmitAssessmentEffect(as_: seq<Assessment>, rs: seq<Response>, users: seq<User>,
                               ss: seq<Snapshot>, assessmentId: string, userId: Option<Id>,
                               snapshotId: Id, now: Time)
    requires SubmitAssessmentSpec(as_, rs, users, ss, assessmentId, userId, snapshotId, now).2.Ok?
    ensures var r := SubmitAssessmentSpec(as_, rs, users, ss, assessmentId, userId, snapshotId, now);
      var k := AssessmentById(as_, assessmentId).value.value;
      var j := UserById(users, userId).value.value;
      && userId.Some? && users[j].id == ObjectIdOf(userId.value)
      && !as_[k].isCompleted && r.0 == as_[k := r.0[k]]
      && r.0[k].isCompleted && r.0[k].submittedAt == Some(now) && r.0[k].userId == Some(users[j].id)
      && r.0[k].userDetails == Some(UserDetailsOf(users[j]))
      && r.0[k].invitationId == as_[k].invitationId && r.0[k].stakeholder == as_[k].stakeholder
      && r.2.value.assessmentId == ObjectIdOf(assessmentId) && r.2.value.stakeholder == Some(as_[k].stakeholder)
      && r.2.value.userDetails == r.0[k].userDetails && r.2.value.userId == r.0[k].userId
      && r.2.value.responses == ResponsesOf(rs, ObjectIdOf(assessmentId)) && r.2.value.responses != []
  {
    var k := AssessmentById(as_, assessmentId).value.value;
    var j := UserById(users, userId).value.value;
    var details := UserDetailsOf(users[j]);
    var done := as_[k].(isCompleted := true, submittedAt := Some(now), userId := Some(users[j].id),
                        userDetails := Some(details));
    var s := Snapshot(snapshotId, as_[k].id, Some(as_[k].stakeholder), Some(users[j].id), Some(details),
                      None, ResponsesOf(rs, ObjectIdOf(assessmentId)), now);
    assert SubmitAssessmentSpec(as_, rs, users, ss, assessmentId, userId, snapshotId, now) ==
      Finalize(as_, ss, k, done, s);
  }

  /** Every refusal before the submitter is found leaves both stores as they
      were; only the snapshot write can fail after the completion flag is
      saved. */
  lemma SubmitAssessmentRefusals(as_: seq<Assessment>, rs: seq<Response>, users: seq<User>,
                                 ss: seq<Snapshot>, assessmentId: string, userId: Option<Id>,
                                 snapshotId: Id, now: Time)
    ensures var r := SubmitAssessmentSpec(as_, rs, users, ss, assessmentId, userId, snapshotId, now);
      r.2.Err? && r.2.failure != ServerError("Error submitting assessment") ==> r.0 == as_ && r.1 == ss
    ensures var r := SubmitAssessmentSpec(as_, rs, users, ss, assessmentId, userId, snapshotId, now);
      r.0 != as_ ==> r.2.Ok? || IdTaken(ss, snapshotId)
  {
  }

  /** Once a submission has saved the completion flag, even one whose
      snapshot then failed, every later submission of that assessment is
      refused as already submitted, whoever sends it and whatever the other
      stores hold. */
  lemma SubmitAssessmentOnce(as_: seq<Assessment>, rs: seq<Response>, users: seq<User>,
                             ss: seq<Snapshot>, assessmentId: string, userId: Option<Id>,
                             snapshotId: Id, now: Time,
                             rs': seq<Response>, users': seq<User>, ss': seq<Snapshot>,
                             userId': Option<Id>, snapshotId': Id, now': Time)
    requires SubmitAssessmentSpec(as_, rs, users, ss, assessmentId, userId, snapshotId, now).0 != as_
    ensures var as' := SubmitAssessmentSpec(as_, rs, users, ss, assessmentId, userId, snapshotId, now).0;
      SubmitAssessmentSpec(as', rs', users', ss', assessmentId, userId', snapshotId', now').2 ==
        Err(BadRequest("Assessment already submitted"))
  {
    var r := SubmitAssessmentSpec(as_, rs, users, ss, assessmentId, userId, snapshotId, now);
    var k := AssessmentById(as_, assessmentId).value.value;
    var j := UserById(users, userId).value.value;
    assert r.0 == as_[k := r.0[k]] && r.0[k].isCompleted && r.0[k].id == as_[k].id;
    FirstIndexUpdate(as_, IdIs(ObjectIdOf(assessmentId)), k, r.0[k]);
  }

  method SubmitAssessment(db: Db, assessmentId: string, userId: Option<Id>, snapshotId: Id, now: Time)
    returns (r: Result<Snapshot>)
    requires db.Valid()
    modifies db`assessments, db`snapshots
    ensures db.Valid()
    ensures (db.assessments, db.snapshots, r) ==
      SubmitAssessmentSpec(old(db.assessments), db.responses, db.users, old(db.snapshots),
                           assessmentId, userId, snapshotId, now)
  {
    var lookup := AssessmentById(db.assessments, assessmentId);
    if lookup.Err? {
      return Err(ServerError("Error submitting assessment"));
    }
    if lookup.value.None? {
      return Err(NotFound("Assessment not found"));
    }
    var k := lookup.value.value;
    if db.assessments[k].isCompleted {
      return Err(BadRequest("Assessment already submitted"));
    }
    var found := ResponsesOf(db.responses, ObjectIdOf(assessmentId));
    if found == [] {
      return Err(BadRequest("No responses provided"));
    }
    var submitter := UserById(db.users, userId);
    if submitter.Err? {
      return Err(ServerError("Error submitting assessment"));
    }
    if submitter.value.None? {
      return Err(NotFound("User not found"));
    }
    var u := db.users[submitter.value.value];
    var details := UserDetailsOf(u);
    var a := db.assessments[k];
    var done := a.(isCompleted := true, submittedAt := Some(now), userId := Some(u.id),
                   userDetails := Some(details));
    r := FinalizeIn(db, k, done,
                    Snapshot(snapshotId, a.id, Some(a.stakeholder), Some(u.id), Some(details), None, found, now));
  }
}
