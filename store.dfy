/** The MongoDB database the handlers share: one sequence per collection, in
    natural (insertion) order, which is the order `find` and `findOne` see
    when no sort is given. */
module Store {
  import UserModel
  import InvitationModel
  import AssessmentModel
  import ResponseModel
  import SubmittedAssessmentModel
  import NotificationModel

  class Db {
    var users: seq<UserModel.User>
    var invitations: seq<InvitationModel.Invitation>
    var assessments: seq<AssessmentModel.Assessment>
    var responses: seq<ResponseModel.Response>
    var snapshots: seq<SubmittedAssessmentModel.Snapshot>
    var notifications: seq<NotificationModel.Notification>

    /** Every stored record satisfies its schema and no unique index has a
        duplicate. */
    ghost predicate Valid()
      reads this
    {
      UserModel.StoreValid(users) &&
      InvitationModel.StoreValid(invitations) &&
      AssessmentModel.StoreValid(assessments) &&
      ResponseModel.KeysUnique(responses) &&
      SubmittedAssessmentModel.StoreValid(snapshots) &&
      NotificationModel.StoreValid(notifications)
    }

    constructor ()
      ensures Valid()
      ensures users == [] && invitations == [] && assessments == []
      ensures responses == [] && snapshots == [] && notifications == []
    {
      users := [];
      invitations := [];
      assessments := [];
      responses := [];
      snapshots := [];
      notifications := [];
    }
  }
}
