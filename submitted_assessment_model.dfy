/** The `SubmittedAssessment` collection: the snapshot written when an
    assessment is submitted. */
module SubmittedAssessmentModel {
  import opened Common
  import opened AssessmentModel
  import opened ResponseModel

  /** A stored snapshot. `employeeDetails` is written by the employee
      handler although the schema does not declare it. */
  datatype Snapshot = Snapshot(
    id: Id,
    assessmentId: Id,
    stakeholder: Option<string>,
    userId: Option<Id>,
    userDetails: Option<UserDetails>,
    employeeDetails: Option<EmployeeDetails>,
    responses: seq<Response>,
    submittedAt: Time)

  /** The unique index on `_id`. (`assessmentId` is required and always
      present in this representation.) */
  ghost predicate StoreValid(ss: seq<Snapshot>) {
    forall i, j :: 0 <= i < j < |ss| ==> ss[i].id != ss[j].id
  }

  predicate IdTaken(ss: seq<Snapshot>, id: Id) {
    exists i :: 0 <= i < |ss| && ss[i].id == id
  }

  lemma InsertKeepsValid(ss: seq<Snapshot>, s: Snapshot)
    requires StoreValid(ss) && !IdTaken(ss, s.id)
    ensures StoreValid(ss + [s])
  {
    var r := ss + [s];
    forall i, j | 0 <= i < j < |r| ensures r[i].id != r[j].id {
      if j == |ss| {
        assert r[i] == ss[i];
      }
    }
  }
}
