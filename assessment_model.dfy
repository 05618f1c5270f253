/** The `Assessment` collection: schema, defaults and unique indexes. */
module AssessmentModel {
  import opened Common
  import opened UserModel

  /** The projection of a user stored with a submitted assessment. */
  datatype UserDetails = UserDetails(
    id: Id,
    firstName: Option<string>,
    lastName: Option<string>,
    email: string,
    department: Option<string>,
    role: Option<Role>)

  /** The final form of an employee assessment. */
  datatype EmployeeDetails = EmployeeDetails(
    firstName: string,
    lastName: string,
    email: string,
    department: string)

  /** A stored assessment. `employeeDetails` is written by the employee
      handler although the schema does not declare it. */
  datatype Assessment = Assessment(
    id: Id,
    stakeholder: string,
    userId: Option<Id>,
    employeeEmail: Option<string>,
    invitedBy: Option<Id>,
    orgName: Option<string>,
    invitationId: Option<Id>,
    userDetails: Option<UserDetails>,
    employeeDetails: Option<EmployeeDetails>,
    isCompleted: bool,
    submittedAt: Option<Time>)

  /** `Assessment.create(...)` with the given paths: the rest at their
      defaults (`userDetails` null, `isCompleted` false, no `submittedAt`). */
  function NewAssessment(id: Id, stakeholder: string, userId: Option<Id>,
                         employeeEmail: Option<string>, invitedBy: Option<Id>,
                         orgName: Option<string>, invitationId: Option<Id>): (a: Assessment)
    ensures a.stakeholder == stakeholder && a.invitationId == invitationId
    ensures a.userDetails.None? && a.employeeDetails.None?
    ensures !a.isCompleted && a.submittedAt.None?
  {
    Assessment(id, stakeholder, userId, employeeEmail, invitedBy, orgName, invitationId,
               None, None, false, None)
  }

  /** `stakeholder` and `invitationId` are required. */
  predicate SchemaValid(a: Assessment) {
    a.stakeholder != "" && a.invitationId.Some?
  }

  /** The unique indexes on `_id` and `invitationId`: at most one assessment
      per invitation. */
  ghost predicate UniqueIndexes(as_: seq<Assessment>) {
    forall i, j :: 0 <= i < j < |as_| ==>
      as_[i].id != as_[j].id && as_[i].invitationId != as_[j].invitationId
  }

  ghost predicate StoreValid(as_: seq<Assessment>) {
    (forall i :: 0 <= i < |as_| ==> SchemaValid(as_[i])) && UniqueIndexes(as_)
  }

  /** The outcome of `Assessment.create`: the validators first, then the
      unique indexes. */
  datatype Insert = Inserted | InvalidDoc | DuplicateKey

  function CreateOutcome(as_: seq<Assessment>, a: Assessment): (r: Insert)
    ensures r == Inserted <==>
      SchemaValid(a) && forall i :: 0 <= i < |as_| ==>
        as_[i].id != a.id && as_[i].invitationId != a.invitationId
  {
    if !SchemaValid(a) then InvalidDoc
    else if exists i :: 0 <= i < |as_| && (as_[i].id == a.id || as_[i].invitationId == a.invitationId)
    then DuplicateKey
    else Inserted
  }

  lemma InsertKeepsValid(as_: seq<Assessment>, a: Assessment)
    requires StoreValid(as_) && CreateOutcome(as_, a) == Inserted
    ensures StoreValid(as_ + [a])
  {
    var r := as_ + [a];
    forall i, j | 0 <= i < j < |r|
      ensures r[i].id != r[j].id && r[i].invitationId != r[j].invitationId
    {
      if j == |as_| {
        assert r[i] == as_[i];
      }
    }
  }

  /** Changing anything but `_id` and `invitationId` of a valid record keeps
      the store valid. */
  lemma UpdateKeepsValid(as_: seq<Assessment>, k: nat, a: Assessment)
    requires StoreValid(as_) && k < |as_|
    requires a.id == as_[k].id && a.invitationId == as_[k].invitationId
    requires a.stakeholder == as_[k].stakeholder
    ensures StoreValid(as_[k := a])
  {
  }
}
