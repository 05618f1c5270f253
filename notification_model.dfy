/** The `Notification` collection. */
module NotificationModel {
  import opened Common

  /** A stored notification. `kind` is the `type` path; `None` is null. */
  datatype Notification = Notification(
    id: Id,
    recipient: Id,
    title: string,
    message: string,
    kind: Option<string>,
    link: Option<string>,
    isRead: bool,
    createdAt: Time)

  /** `recipient`, `title` and `message` are required; an empty string does
      not satisfy `required`, and `recipient` must cast to an ObjectId. */
  predicate SchemaValid(n: Notification) {
    IsHex24(n.recipient) && n.title != "" && n.message != ""
  }

  /** The unique index on `_id`. */
  ghost predicate StoreValid(ns: seq<Notification>) {
    (forall i :: 0 <= i < |ns| ==> SchemaValid(ns[i])) &&
    (forall i, j :: 0 <= i < j < |ns| ==> ns[i].id != ns[j].id)
  }

  predicate IdTaken(ns: seq<Notification>, id: Id) {
    exists i :: 0 <= i < |ns| && ns[i].id == id
  }

  /** `Notification.create(...)` with the defaults of the schema filled in:
      a missing `type` becomes "info", a missing `link` null, and `isRead`
      starts false. `recipient` is stored cast. */
  function NewNotification(id: Id, recipient: Id, title: string, message: string,
                           kind: Field, link: Field, now: Time): (n: Notification)
    ensures kind.Absent? ==> n.kind == Some("info")
    ensures kind.Null? ==> n.kind.None?
    ensures kind.Text? ==> n.kind == Some(kind.text)
    ensures link.Text? <==> n.link.Some?
    ensures !n.isRead && n.createdAt == now && n.recipient == ObjectIdOf(recipient)
  {
    Notification(id, ObjectIdOf(recipient), title, message,
                 if kind.Absent? then Some("info") else Stored(kind),
                 Stored(link), false, now)
  }
}
