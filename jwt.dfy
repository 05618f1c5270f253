/** JSON Web Tokens as the handlers see them. Signing and signature checking
    are not modelled: a verifier is an arbitrary function from the token text
    to a verdict, and every handler is proved for every verifier. */
module Jwt {
  import opened Common

  /** The claims the application puts into its tokens. A session token
      carries `userId`, `role` and `orgName`; an invitation token carries
      `email`, `role`, `invitedId` and `orgName`. Each claim may be absent. */
  datatype Claims = Claims(
    userId: Option<Id>,
    email: Option<string>,
    role: Option<string>,
    orgName: Option<string>,
    invitedId: Option<Id>)

  /** What `jwt.verify` does with a token: return the decoded claims, or
      throw a `TokenExpiredError`, or throw any other error. */
  datatype Verdict = Verified(claims: Claims) | TokenExpired | TokenInvalid

  type Verifier = string -> Verdict

  /** `jwt.verify(token, secret)`: an empty token is rejected before any
      signature check ("jwt must be provided"); any other token is judged by
      the verifier. */
  function Verify(v: Verifier, token: string): Verdict {
    if token == "" then TokenInvalid else v(token)
  }
}
