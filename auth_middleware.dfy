/** `protect` and `flexibleProtect`: who a request speaks for, decided from
    its headers, the token verifier and the invitation store. Nothing
    stored changes. */
module AuthMiddleware {
  import opened Common
  import opened Jwt
  import opened UserModel
  import opened InvitationModel
  import opened EmployeeMiddleware

  const BEARER: string := "Bearer "

  /** `authHeader && authHeader.startsWith("Bearer ")`. */
  predicate IsBearer(header: Option<string>) {
    header.Some? && |header.value| >= |BEARER| && header.value[..|BEARER|] == BEARER
  }

  /** `authHeader.split(" ")[1]`: what follows the scheme up to the next
      space, the `b64token` of section 2.1 of RFC 6750. */
  function BearerToken(header: string): (t: string)
    requires IsBearer(Some(header))
    ensures ' ' !in t
    ensures header[|BEARER|..] == t || (|t| < |header| - |BEARER| && header[|BEARER| + |t|] == ' ')
  {
    var rest := header[|BEARER|..];
    assert header == "Bearer" + " " + rest;
    SplitAfterWord("Bearer", rest);
    JoinSplit(rest);
    TokenIsFirstPiece(rest);
    SplitSpace(rest)[0]
  }

  /** The first piece of a split is a prefix, ending at the string's end or
      at a space. */
  lemma {:induction false} TokenIsFirstPiece(s: string)
    ensures ' ' !in SplitSpace(s)[0]
    ensures var t := SplitSpace(s)[0];
      |t| <= |s| && s[..|t|] == t && (s == t || (|t| < |s| && s[|t|] == ' '))
    decreases |s|
  {
    if s != [] && s[0] != ' ' {
      TokenIsFirstPiece(s[1..]);
    }
  }

  /** A header written as section 2.1 of RFC 6750 prescribes, the scheme, one
      space and a token without spaces, yields exactly that token. */
  lemma BearerRoundTrip(token: string)
    requires ' ' !in token
    ensures IsBearer(Some(BEARER + token))
    ensures BearerToken(BEARER + token) == token
  {
    var header := BEARER + token;
    assert header[..|BEARER|] == BEARER;
    assert header[|BEARER|..] == token;
    SplitNoSpace(token);
  }

  /** `protect`: the claims of a verified bearer token become `req.user`. */
  function Protect(v: Verifier, header: Option<string>): (r: Result<Claims>)
    ensures r.Ok? <==> IsBearer(header) && Verify(v, BearerToken(header.value)).Verified?
    ensures r.Ok? ==> Verify(v, BearerToken(header.value)) == Verified(r.value)
  {
    if !IsBearer(header) then Err(Unauthorized("Unauthorized"))
    else match Verify(v, BearerToken(header.value))
      case Verified(c) => Ok(c)
      case TokenExpired => Err(Unauthorized("Token has expired"))
      case TokenInvalid => Err(Unauthorized("Invalid token"))
  }

  /** For a well-formed header, `protect` answers exactly as the verifier
      judges the token. */
  lemma ProtectFollowsVerifier(v: Verifier, token: string)
    requires ' ' !in token
    ensures Protect(v, Some(BEARER + token)) ==
      match Verify(v, token)
      case Verified(c) => Ok(c)
      case TokenExpired => Err(Unauthorized("Token has expired"))
      case TokenInvalid => Err(Unauthorized("Invalid token"))
  {
    BearerRoundTrip(token);
  }

  /** Who `flexibleProtect` lets through: a session (`req.user`) or an
      employee (`req.employee`). */
  datatype Caller = AsUser(claims: Claims) | AsEmployee(employee: EmployeeContext)

  const FLEXIBLE_REFUSAL := "Unauthorized: Invalid or missing token"

  /** `flexibleProtect`. A bearer session with a `userId` claim wins; an
      expired session ends the request only when no invite token came; the
      invite path admits any employee invitation for the token's inviter
      and address, used or expired alike. */
  function FlexibleProtect(v: Verifier, invs: seq<Invitation>, header: Option<string>,
                           inviteToken: Option<string>): (r: Result<Caller>)
    ensures r.Err? ==> r.failure.Unauthorized?
    ensures r.Ok? && r.value.AsUser? ==> IsBearer(header) && Present(r.value.claims.userId)
    ensures r.Ok? && r.value.AsEmployee? ==> Present(inviteToken) && r.value.employee.email.Some?
    ensures !IsBearer(header) && !Present(inviteToken) ==> r == Err(Unauthorized(FLEXIBLE_REFUSAL))
  {
    var session := if IsBearer(header) then Some(Verify(v, BearerToken(header.value))) else None;
    if session.Some? && session.value.Verified? && Present(session.value.claims.userId) then
      Ok(AsUser(session.value.claims))
    else if session == Some(TokenExpired) && !Present(inviteToken) then
      Err(Unauthorized("Session expired"))
    else if !Present(inviteToken) then Err(Unauthorized(FLEXIBLE_REFUSAL))
    else match Verify(v, inviteToken.value)
      case TokenExpired => Err(Unauthorized("Invitation expired"))
      case TokenInvalid => Err(Unauthorized(FLEXIBLE_REFUSAL))
      case Verified(c) =>
        match EmployeeInvite(invs, c)
        case Ok(Some(k)) => Ok(AsEmployee(EmployeeContext(c.email, invs[k].invitedBy, invs[k].orgName, invs[k].id)))
        case _ => Err(Unauthorized(FLEXIBLE_REFUSAL))
  }

  /** A verified session carrying a `userId` is admitted as that session,
      whatever invite token accompanies it, and `protect` would attach the
      same claims. */
  lemma SessionWins(v: Verifier, invs: seq<Invitation>, header: Option<string>,
                    inviteToken: Option<string>, c: Claims)
    requires Protect(v, header) == Ok(c) && Present(c.userId)
    ensures FlexibleProtect(v, invs, header, inviteToken) == Ok(AsUser(c))
  {
  }

  /** Everything `flexibleProtect` admits is a session with a user id or an
      employee invitation matching the invite token's claims. */
  lemma FlexibleAdmits(v: Verifier, invs: seq<Invitation>, header: Option<string>,
                       inviteToken: Option<string>)
    ensures var r := FlexibleProtect(v, invs, header, inviteToken);
      r.Ok? && r.value.AsUser? ==> Protect(v, header) == Ok(r.value.claims) && Present(r.value.claims.userId)
    ensures var r := FlexibleProtect(v, invs, header, inviteToken);
      r.Ok? && r.value.AsEmployee? ==>
        Present(inviteToken) &&
        exists c: Claims, k: nat :: Verify(v, inviteToken.value) == Verified(c) && EmployeeInvite(invs, c) == Ok(Some(k)) &&
          r.value.employee == EmployeeContext(c.email, invs[k].invitedBy, invs[k].orgName, invs[k].id)
  {
    var r := FlexibleProtect(v, invs, header, inviteToken);
    if r.Ok? && r.value.AsEmployee? {
      var c := Verify(v, inviteToken.value).claims;
      var k := EmployeeInvite(invs, c).value.value;
      assert Verify(v, inviteToken.value) == Verified(c) && EmployeeInvite(invs, c) == Ok(Some(k));
    }
  }

  /** The invitation the invite path finds, and the fields it copies from
      it, do not depend on `used` or `expiredAt`. */
  lemma InviteLookupIgnoresUsedAndExpiry(invs: seq<Invitation>, c: Claims, k: nat, x: Invitation)
    requires k < |invs| && x == invs[k].(used := x.used, expiredAt := x.expiredAt)
    ensures EmployeeInvite(invs[k := x], c) == EmployeeInvite(invs, c)
    ensures EmployeeInvite(invs, c).Ok? && EmployeeInvite(invs, c).value.Some? ==>
      var j := EmployeeInvite(invs, c).value.value;
      invs[k := x][j].invitedBy == invs[j].invitedBy && invs[k := x][j].orgName == invs[j].orgName &&
      invs[k := x][j].id == invs[j].id
  {
    if c.invitedId.Some? && IsHex24(c.invitedId.value) {
      FirstIndexUpdate(invs, EmployeeInviteOf(c.invitedId.value, c.email), k, x);
    }
  }

  /** The invite path never reads `used` or `expiredAt`: marking an
      invitation used or moving its expiry does not change the outcome,
      where `employeeAccess` refuses a used or expired invitation. */
  lemma FlexibleIgnoresUsedAndExpiry(v: Verifier, invs: seq<Invitation>, header: Option<string>,
                                     inviteToken: Option<string>, k: nat, used: bool, expiredAt: Time)
    requires k < |invs|
    ensures FlexibleProtect(v, invs[k := invs[k].(used := used, expiredAt := expiredAt)], header, inviteToken) ==
            FlexibleProtect(v, invs, header, inviteToken)
  {
    if Present(inviteToken) && Verify(v, inviteToken.value).Verified? {
      var x := invs[k].(used := used, expiredAt := expiredAt);
      InviteLookupIgnoresUsedAndExpiry(invs, Verify(v, inviteToken.value).claims, k, x);
    }
  }

  /** An expired session with an invite token is not refused as expired:
      the request goes on to the invite path. */
  lemma ExpiredSessionFallsThrough(v: Verifier, invs: seq<Invitation>, header: Option<string>,
                                   inviteToken: Option<string>)
    requires Protect(v, header) == Err(Unauthorized("Token has expired"))
    requires Present(inviteToken)
    ensures FlexibleProtect(v, invs, header, inviteToken) == FlexibleProtect(v, invs, None, inviteToken)
  {
  }
}
