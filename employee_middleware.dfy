/** `employeeAccess`: admission of an employee who holds an invitation token.
    An ordered chain of guards maps the token, the verifier and the
    invitation store to the employee context the assessment handlers read,
    or to a refusal. Nothing stored changes. */
module EmployeeMiddleware {
  import opened Common
  import opened Jwt
  import opened UserModel
  import opened InvitationModel

  /** `req.employee`: the address of the token, and the inviter, organisation
      and id of the invitation that admitted it. */
  datatype EmployeeContext = EmployeeContext(
    email: Option<string>,
    invitedBy: Id,
    orgName: Option<string>,
    invitationId: Id)

  /** The filter `{ adminId, email, role: "employee" }` for an invitation
      token's claims. A missing `email` claim matches nothing, since every
      invitation has an address; the address goes through the setters and
      the inviter's id through the ObjectId cast. */
  function EmployeeInviteOf(adminId: Id, email: Option<string>): Invitation -> bool {
    (inv: Invitation) =>
      email.Some? && inv.adminId == ObjectIdOf(adminId) && inv.email == NormEmail(email.value) &&
      inv.role == Employee
  }

  /** `Invitation.findOne({ adminId: new ObjectId(invitedId), email, role:
      "employee" })`. A missing `invitedId` makes `new ObjectId()` draw a
      fresh id, which no invitation holds; one that is not 24 hexadecimal
      digits makes the cast throw (`Err`). */
  function EmployeeInvite(invs: seq<Invitation>, c: Claims): (r: Result<Option<nat>>)
    ensures r.Err? <==> c.invitedId.Some? && !IsHex24(c.invitedId.value)
    ensures r.Ok? && r.value.Some? ==>
      var k := r.value.value;
      k < |invs| && c.invitedId.Some? && invs[k].adminId == ObjectIdOf(c.invitedId.value) && c.email.Some? &&
      invs[k].email == NormEmail(c.email.value) && invs[k].role == Employee
    ensures r.Ok? && r.value.None? && c.invitedId.Some? ==>
      forall i :: 0 <= i < |invs| ==> !EmployeeInviteOf(c.invitedId.value, c.email)(invs[i])
  {
    match c.invitedId
    case None => Ok(None)
    case Some(adminId) =>
      if !IsHex24(adminId) then Err(ServerError("Argument passed in must be a string of 24 hex characters"))
      else Ok(FirstIndex(invs, EmployeeInviteOf(adminId, c.email)))
  }

  /** `req.headers["x-invite-token"] || req.params.token || req.query.token`:
      the first truthy one of the three. */
  function InviteTokenOf(header: Option<string>, param: Option<string>, query: Option<string>)
    : (r: Option<string>)
    ensures r.Some? ==> r.value != "" && (r == header || r == param || r == query)
    ensures Present(header) ==> r == header
    ensures r.None? <==> !Present(header) && !Present(param) && !Present(query)
  {
    if Present(header) then header
    else if Present(param) then param
    else if Present(query) then query
    else None
  }

  /** `employeeAccess`. Every failure of the verifier, and a cast error in
      the lookup, end in the catch block with the same answer; a used
      invitation is refused before an expired one. */
  function EmployeeAccess(v: Verifier, invs: seq<Invitation>, header: Option<string>,
                          param: Option<string>, query: Option<string>, now: Time)
    : (r: Result<EmployeeContext>)
    ensures InviteTokenOf(header, param, query).None? ==> r == Err(Unauthorized("Invitation token required"))
    ensures r.Err? ==>
      (r.failure.Unauthorized? ||
       r.failure == BadRequest("Invitation already used") || r.failure == BadRequest("Invitation expired"))
    ensures r.Ok? ==> r.value.email.Some?
  {
    match InviteTokenOf(header, param, query)
    case None => Err(Unauthorized("Invitation token required"))
    case Some(token) =>
      match Verify(v, token)
      case TokenExpired => Err(Unauthorized("Invalid or expired token"))
      case TokenInvalid => Err(Unauthorized("Invalid or expired token"))
      case Verified(c) =>
        match EmployeeInvite(invs, c)
        case Err(_) => Err(Unauthorized("Invalid or expired token"))
        case Ok(None) => Err(Unauthorized("Invalid invitation"))
        case Ok(Some(k)) =>
          if invs[k].used then Err(BadRequest("Invitation already used"))
          else if invs[k].expiredAt < now then Err(BadRequest("Invitation expired"))
          else Ok(EmployeeContext(c.email, invs[k].invitedBy, invs[k].orgName, invs[k].id))
  }

  /** An admitted employee holds a verified token whose address and inviter
      name an unused, unexpired employee invitation, and the context carries
      exactly that invitation's inviter, organisation and id. */
  lemma EmployeeAccessAdmits(v: Verifier, invs: seq<Invitation>, header: Option<string>,
                             param: Option<string>, query: Option<string>, now: Time)
    ensures var r := EmployeeAccess(v, invs, header, param, query, now);
      r.Ok? <==>
        exists token: string, c: Claims, k: nat ::
          InviteTokenOf(header, param, query) == Some(token) && Verify(v, token) == Verified(c) &&
          EmployeeInvite(invs, c) == Ok(Some(k)) && !invs[k].used && now <= invs[k].expiredAt
    ensures var r := EmployeeAccess(v, invs, header, param, query, now);
      r.Ok? ==>
        exists k :: 0 <= k < |invs| && invs[k].role == Employee && !invs[k].used &&
          now <= invs[k].expiredAt && r.value.invitationId == invs[k].id &&
          r.value.invitedBy == invs[k].invitedBy && r.value.orgName == invs[k].orgName &&
          r.value.email.Some? && invs[k].email == NormEmail(r.value.email.value)
  {
    var r := EmployeeAccess(v, invs, header, param, query, now);
    if r.Ok? {
      var token := InviteTokenOf(header, param, query).value;
      var c := Verify(v, token).claims;
      var k := EmployeeInvite(invs, c).value.value;
      assert InviteTokenOf(header, param, query) == Some(token) && Verify(v, token) == Verified(c) &&
        EmployeeInvite(invs, c) == Ok(Some(k));
    }
  }

  /** A used invitation is refused as used whether or not it has also
      expired: `used` is tested first. */
  lemma UsedBeforeExpiry(v: Verifier, invs: seq<Invitation>, header: Option<string>,
                         param: Option<string>, query: Option<string>, now: Time,
                         token: string, c: Claims, k: nat)
    requires InviteTokenOf(header, param, query) == Some(token)
    requires Verify(v, token) == Verified(c)
    requires EmployeeInvite(invs, c) == Ok(Some(k)) && invs[k].used
    ensures EmployeeAccess(v, invs, header, param, query, now) == Err(BadRequest("Invitation already used"))
  {
  }

  /** A token in the `x-invite-token` header decides alone: the route
      parameter and the query string are then never read. */
  lemma HeaderTokenWins(v: Verifier, invs: seq<Invitation>, header: Option<string>,
                        param: Option<string>, query: Option<string>,
                        param': Option<string>, query': Option<string>, now: Time)
    requires Present(header)
    ensures EmployeeAccess(v, invs, header, param, query, now) ==
            EmployeeAccess(v, invs, header, param', query', now)
  {
  }
}
