/** The `Invitation` collection: schema, defaults, unique indexes and the
    TTL index on `expiredAt`. */
module InvitationModel {
  import opened Common
  import opened UserModel

  /** The `role` enum of an invitation: every role but superAdmin. */
  type InviteRole = r: Role | r != SuperAdmin witness Admin

  /** The enum validator of the invitation `role` path: the four invitable
      spellings and nothing else ("superAdmin" included) pass. */
  function ParseInviteRole(s: string): (r: Option<InviteRole>)
    ensures r.Some? <==> ParseRole(s).Some? && ParseRole(s).value != SuperAdmin
    ensures r.Some? ==> RoleName(r.value) == s
  {
    match ParseRole(s)
    case Some(x) => if x == SuperAdmin then None else Some(x)
    case None => None
  }

  /** A stored invitation. `orgName` is written by the handlers although the
      schema does not declare it. `expiredAt` always holds a value: its
      schema default is the creation time. */
  datatype Invitation = Invitation(
    id: Id,
    email: string,
    role: InviteRole,
    token: string,
    token1: string,
    adminId: Id,
    invitedBy: Id,
    orgName: Option<string>,
    expiredAt: Time,
    used: bool,
    createdAt: Time)

  /** `new Invitation({...})` as both invitation handlers build it: the email
      setters applied, `token1` a copy of `token`, the inviter recorded as
      both `adminId` and `invitedBy`, an expiry one hour ahead, and `used` at
      its default. */
  function NewInvitation(id: Id, email: string, role: InviteRole, token: string,
                         inviter: Id, orgName: Option<string>, now: Time): (inv: Invitation)
    ensures inv.email == NormEmail(email) && inv.role == role
    ensures inv.token == token && inv.token1 == token
    ensures inv.adminId == inviter && inv.invitedBy == inviter
    ensures inv.expiredAt == now + HOUR && !inv.used && inv.createdAt == now
  {
    Invitation(id, NormEmail(email), role, token, token, inviter, inviter, orgName,
               now + HOUR, false, now)
  }

  /** The `required` validators of `email` and `token`, which run on the
      values the setters have already produced. */
  predicate Required(inv: Invitation) {
    inv.email != "" && inv.token != ""
  }

  /** What every stored invitation satisfies: it passed the validators and
      holds its address in the form the setters give it. */
  predicate SchemaValid(inv: Invitation) {
    Required(inv) && NormEmail(inv.email) == inv.email
  }

  /** A built invitation that passes the validators is a valid record: the
      setters' form of an address is its own setters' form. */
  lemma NewInvitationValid(id: Id, email: string, role: InviteRole, token: string,
                           inviter: Id, orgName: Option<string>, now: Time)
    requires Required(NewInvitation(id, email, role, token, inviter, orgName, now))
    ensures SchemaValid(NewInvitation(id, email, role, token, inviter, orgName, now))
  {
    NormEmailIdempotent(email);
  }

  /** The unique indexes on `_id`, `token` and `token1`. */
  ghost predicate UniqueIndexes(invs: seq<Invitation>) {
    forall i, j :: 0 <= i < j < |invs| ==>
      invs[i].id != invs[j].id && invs[i].token != invs[j].token &&
      invs[i].token1 != invs[j].token1
  }

  ghost predicate StoreValid(invs: seq<Invitation>) {
    (forall i :: 0 <= i < |invs| ==> SchemaValid(invs[i])) && UniqueIndexes(invs)
  }

  /** Whether an insert would break a unique index. */
  predicate Collides(invs: seq<Invitation>, inv: Invitation) {
    exists i :: 0 <= i < |invs| &&
      (invs[i].id == inv.id || invs[i].token == inv.token || invs[i].token1 == inv.token1)
  }

  /** Appending a valid record that collides with nothing keeps the store valid. */
  lemma InsertKeepsValid(invs: seq<Invitation>, inv: Invitation)
    requires StoreValid(invs) && SchemaValid(inv) && !Collides(invs, inv)
    ensures StoreValid(invs + [inv])
  {
    var r := invs + [inv];
    forall i, j | 0 <= i < j < |r|
      ensures r[i].id != r[j].id && r[i].token != r[j].token && r[i].token1 != r[j].token1
    {
      if j == |invs| {
        assert r[i] == invs[i];
      }
    }
  }

  /** Setting `used` on one record keeps the store valid. */
  lemma MarkUsedKeepsValid(invs: seq<Invitation>, k: nat)
    requires StoreValid(invs) && k < |invs|
    ensures StoreValid(invs[k := invs[k].(used := true)])
  {
  }

  /** The TTL index (`expires: 0`): the server deletes every invitation whose
      `expiredAt` has passed, used or not. */
  function TtlSweep(invs: seq<Invitation>, now: Time): (r: seq<Invitation>)
    ensures forall i :: 0 <= i < |r| ==> now <= r[i].expiredAt
    ensures forall i :: 0 <= i < |invs| && now <= invs[i].expiredAt ==> invs[i] in r
    ensures forall i :: 0 <= i < |r| ==> r[i] in invs
  {
    FilterMembers(invs, (inv: Invitation) => now <= inv.expiredAt);
    Filter(invs, (inv: Invitation) => now <= inv.expiredAt)
  }
}
