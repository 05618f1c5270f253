# Assessment platform backend — a verified model of its business rules

The backend is an Express/Mongoose service for organisational assessments:

- A super-administrator invites organisation administrators.
- Administrators invite leaders, managers and employees, one by one or from a CSV file.
- Invitees register, verify their email, complete their profile and log in.
- Leaders and managers take assessments under their account. Employees take them through an invitation token.
- Every submission freezes a snapshot of its responses.
- Helpers write in-app notifications. No handler in the code calls them.

This project models the rule layer of that service in Dafny:

- the controllers for authentication, invitations, responses, assessments, users, organisations, notifications and preferences;
- the two access middlewares;
- the notification helpers;
- the Mongoose schemas these rely on.

Each MongoDB collection is a sequence field of one store object, `Store.Db`. Its invariant `Valid()` holds:

- the unique indexes (`_id`, `email`, the sparse `phoneNumber`, `token`, `token1`, `invitationId`);
- every record's schema validity.

Each state-changing handler is a method over that store. Its `modifies` clause names exactly the collections the handler writes. Its `ensures` ties the new collections and the answer to a specification function of the old ones. The properties the code promises are lemmas about those specification functions:

- the ordered refusals;
- the derived statuses;
- that nothing else changes;
- idempotence;
- the single use of tokens;
- the upsert key.

HTTP status codes, redirects and cookies become the `Failure` variants of `Common.Result` or small outcome datatypes.

External services become parameters:

- `now` stands for the clock.
- `threeMonthsAgo` is the calendar date three months before the request.
- A `Jwt.Verifier` oracle replaces `jwt.verify`.
- A `mailOk` flag says whether mail delivery succeeded.
- Newly generated ids and tokens are passed in.

A field of a request body is a `Common.Field`: absent, `null` or a string. JavaScript truthiness is `Truthy`.

Where the code and its description differ, the model follows the code, with one exception: paths the schemas do not declare are modelled as the controllers assume them stored, and "## Left out" says what the code as written does with them. Otherwise:

- `startAssessment` never sets `invitationId`, which the Assessment schema requires. Every call is therefore refused by validation.
- `register` never looks at `used`. Its expiry test reads the undeclared `expiresAt` and so never rejects.
- The delete branch of `verifyEmail` cannot be reached, because the lookup already demands an unexpired verification window.
- `markAsRead` never compares the recipient with the caller.
- `flexibleProtect` never checks `used` or `expiredAt` of the invitation.

## Model

| member | source | states |
|---|---|---|
| UserModel.ParseRole | src/models/user.model.js:23-28 | a stored role string is one of the five enum names, and parsing gives back the role with that name or nothing |
| UserModel.ParseRoleName | src/models/user.model.js:23-28 | every role's enum name parses back to the same role (round trip) |
| UserModel.NewUser | src/controllers/auth.controller.js:424-431 | a new account stores the normalised email and the given password; it has no role, is neither verified nor complete, holds the verification token and expiry, and carries the default preferences |
| UserModel.NewUserValid | src/models/user.model.js:8-21 | a new account that passes the required-field validators satisfies the stored schema invariant (lowercased, trimmed email) |
| UserModel.UserById | src/controllers/user.controller.js:8 | `findById` casts the id first: a defined id that is not 24 hex digits throws (a CastError); otherwise it finds the record whose `_id` is the cast id, or proves there is none; an undefined id finds nothing |
| UserModel.UserByIdIgnoresCase | src/controllers/user.controller.js:8 | a claim and its lower-case spelling throw alike and find the same account |
| UserModel.UserByEmail | src/controllers/auth.controller.js:278 | `findOne({ email })` finds the account whose stored email equals the normalised query, or proves there is none |
| UserModel.InsertUserKeepsValid | src/models/user.model.js:8-15 | inserting a schema-valid user that clashes with no unique index (`email`, sparse `phoneNumber`, `_id`) keeps the collection valid |
| UserModel.UpdateKeepsValid | src/models/user.model.js:67-73 | replacing a user by one with the same `_id`, email and phone number keeps every unique index |
| UserModel.AccessClaims | src/models/user.model.js:144-150 | the access token carries exactly the user's id, role and organisation, and its role string parses back to the stored role |
| InvitationModel.ParseInviteRole | src/models/invitation.model.js:11-15 | an invited role is one of admin, leader, manager and employee; superAdmin is never accepted |
| InvitationModel.NewInvitation | src/controllers/invitation.controller.js:41-50 | a new invitation stores the normalised email, the role, `token1 = token`, `adminId = invitedBy = inviter`, an expiry one hour after `now` and `used` false |
| InvitationModel.NewInvitationValid | src/models/invitation.model.js:5-45 | an invitation that passes the required validators satisfies the stored schema invariant |
| InvitationModel.InsertKeepsValid | src/models/invitation.model.js:16-24 | inserting an invitation whose `_id`, `token` and `token1` collide with no stored one keeps the unique indexes |
| InvitationModel.MarkUsedKeepsValid | src/models/invitation.model.js:42-45 | setting `used` on one invitation keeps the collection valid |
| InvitationModel.TtlSweep | src/models/invitation.model.js:36-41 | after the TTL index runs, exactly the invitations whose `expiredAt` has not passed remain, used or not |
| AssessmentModel.NewAssessment | src/models/assessment.model.js:35-47 | a new assessment is incomplete, unsubmitted and has no user or employee details |
| AssessmentModel.CreateOutcome | src/models/assessment.model.js:27-32 | `Assessment.create` stores the record if and only if it is schema-valid (stakeholder and `invitationId` present) and neither its `_id` nor its `invitationId` is taken |
| AssessmentModel.InsertKeepsValid | src/models/assessment.model.js:27-32 | an accepted insert keeps at most one assessment per invitation |
| AssessmentModel.UpdateKeepsValid | src/models/assessment.model.js:3-32 | an update that keeps `_id`, `invitationId` and stakeholder keeps the collection valid |
| SubmittedAssessmentModel.InsertKeepsValid | src/models/submittedAssessment.model.js:5-30 | appending a snapshot under a fresh `_id` keeps the snapshot collection valid |
| NotificationModel.NewNotification | src/models/notification.model.js:4-28 | `type` defaults to "info" and an explicit `null` stays null; `link` is set only when given; the recipient is stored cast to an ObjectId; a new notification is unread and stamped `now` |
| ResponseModel.ResponsesOf | src/controllers/response.controller.js:105 | `Response.find({ assessmentId })` returns exactly the stored responses of that assessment |
| ResponseController.JsNumber | src/controllers/response.controller.js:33-35 | the numeric reading of an answer in `answer <= 3` and `answer > 3`; a blank or white-space string reads as 0, as in JavaScript |
| ResponseController.DecimalRoundTrip | src/controllers/response.controller.js:33-35 | `Number` reads the decimal spelling of every natural number back as that number |
| ResponseController.SignedFractionRoundTrip | src/controllers/response.controller.js:33-35 | a minus sign and a zero fraction read as the negated whole number: "-n.0" is -n |
| ResponseController.DecimalFraction | src/controllers/response.controller.js:33-35 | a decimal fraction with digits on either side of the point, or on one side only, reads as its exact value: "3.0" is 3, "3.5" is 3.5, ".5" is 0.5 |
| ResponseController.NegativeExponent | src/controllers/response.controller.js:33-35 | a literal with a negative exponent divides by that power of ten: "25e-1" is 2.5 |
| ResponseController.PrefixedLiteral | src/controllers/response.controller.js:33-35 | after `0x`, `0o` or `0b` (either case) the digits are read in base 16, 8 or 2: "0x3" and "0b11" are 3 |
| ResponseController.PaddedLiteral | src/controllers/response.controller.js:33-35 | white space around a literal does not change its reading |
| ResponseController.ReadsInfinity | src/controllers/response.controller.js:33-35 | "Infinity" reads as positive infinity, which is above 3 |
| ResponseController.SignedHexIsNaN | src/controllers/response.controller.js:33-35 | a sign in front of a hexadecimal literal makes it NaN |
| ResponseController.WordIsNaN | src/controllers/response.controller.js:33-35 | a word such as "three" reads as NaN, which is neither at most 3 nor above 3 |
| ResponseController.LetterIsNaN | src/controllers/response.controller.js:33-35 | any string that starts with a letter other than `I` (so neither a digit, a point, a sign nor `Infinity`) reads as NaN |
| ResponseController.ScaleCommentRule | src/controllers/response.controller.js:32-37 | on a SCALE_1_5 or Calibration question the entry is refused exactly when the answer reads as at most 3 and the comment is blank; a comment is kept for answers at most 3, nulled above 3, and kept for an answer that reads as NaN |
| ResponseController.ScaleByValue | src/controllers/response.controller.js:32-37 | for an answer (number, string, boolean or null) that reads as a finite value v: refused exactly when v <= 3 and the comment is blank, comment kept when v <= 3 and not blank, comment nulled when v > 3 |
| ResponseController.ScaleFractionAnswer | src/controllers/response.controller.js:32-37 | a decimal-fraction string answer is ruled by its exact value, so "3.0" with a blank comment is refused and "3.5" loses its comment |
| ResponseController.ScaleBooleanAnswers | src/controllers/response.controller.js:32-37 | `true` reads as 1, so with a blank comment it is refused; `false` reads as 0 and keeps its comment; 3.5 loses its comment |
| ResponseController.ScaleByNonFinite | src/controllers/response.controller.js:32-37 | an answer that reads as Infinity loses its comment, one that reads as -Infinity with a blank comment is refused, one that reads as NaN keeps its comment |
| ResponseController.ScaleWordAnswers | src/controllers/response.controller.js:32-37 | the string "Infinity" loses its comment; the string "three" keeps it and needs none |
| ResponseController.FinalComment | src/controllers/response.controller.js:29-51 | the stored comment is the given one or null; a refusal is a 400 and only happens with a blank comment; on a question that is neither a scale nor a forced choice the comment is kept as given |
| ResponseController.ForcedChoiceCommentRule | src/controllers/response.controller.js:39-50 | on a FORCED_CHOICE question the entry is refused exactly when the answer strictly equals `higherValueOption` and the comment is blank; any other answer stores a null comment |
| ResponseController.Derive | src/controllers/response.controller.js:53-73 | `value` is set exactly for numeric answers and `selectedOption` exactly for string answers; `valueDirection` is null without a truthy `higherValueOption`, otherwise HIGHER exactly when the answer equals it |
| ResponseController.FindQuestion | src/controllers/response.controller.js:24-27 | `findById` finds the question whose `_id` is the id cast to an ObjectId (its letters in either case), or proves there is none |
| ResponseController.CheckEntry | src/controllers/response.controller.js:18-79 | an accepted entry has truthy ids that are both ObjectIds and a defined answer, and derives a response under the cast (assessmentId, questionId) key |
| ResponseController.InvalidEntry | src/controllers/response.controller.js:20-22 | an entry is refused as invalid data exactly when `assessmentId`, `questionId` or `questionCode` is falsy or the answer is undefined |
| ResponseController.MalformedIds | src/controllers/response.controller.js:24-90 | a well-formed entry is answered 500 "Error saving responses" exactly when its questionId is not an ObjectId, or its assessmentId is not one and the entry reaches the upsert (question found, comment rule passed) |
| ResponseController.UnknownQuestion | src/controllers/response.controller.js:24-27 | a well-formed entry whose questionId is an ObjectId is refused as not found exactly when no question has that id, in either letter case |
| ResponseController.AcceptedEntry | src/controllers/response.controller.js:29-79 | an accepted response is stored under the cast ids of its entry; an answer that reads as at most 3 on a scale question, or a HIGHER forced choice, always carries a non-blank comment, and one above 3 or a LOWER choice a null one |
| ResponseController.UpsertSpec | src/controllers/response.controller.js:75-79 | the upsert keeps at most one response per (assessmentId, questionId), adds at most one record, stores the latest derived response under the key and leaves every other key unchanged |
| ResponseController.FindOneAndUpsert | src/controllers/response.controller.js:75-79 | the store write is exactly the upsert, and the returned document is the stored one |
| ResponseController.SaveAllStep | src/controllers/response.controller.js:17-82 | the loop stops at a refused first entry with the store untouched; otherwise it upserts the entry and continues with the rest |
| ResponseController.SaveResponseSpec | src/controllers/response.controller.js:12-14 | a body that is not an array, or is empty, is refused before anything is saved |
| ResponseController.SaveAllKeepsKeysUnique | src/controllers/response.controller.js:17-82 | however the batch ends, the store keeps at most one response per key |
| ResponseController.FirstRefusalStops | src/controllers/response.controller.js:17-27 | the batch is not atomic: entries before the first refused one stay saved, the refusal is answered, and later entries are never processed |
| ResponseController.AllAcceptedInOrder | src/controllers/response.controller.js:81-84 | when every entry is accepted the answer holds one saved response per entry, in input order and under each entry's key |
| ResponseController.UpsertSpecKey | src/controllers/response.controller.js:76 | the document written by the upsert carries the filter's key |
| ResponseController.UntouchedKeyStays | src/controllers/response.controller.js:75-79 | a stored response whose key no entry of the batch uses survives the batch unchanged |
| ResponseController.CheckedHeadStays | src/controllers/response.controller.js:75-79 | the response saved for the first accepted entry of a batch survives the rest of it when no later entry has its key |
| ResponseController.LastWriteWins | src/controllers/response.controller.js:75-81 | the response saved for the last entry under a key is the one left in the store |
| ResponseController.SaveResponse | src/controllers/response.controller.js:7-91 | the handler's store and answer are exactly those of the specification, and the store stays valid |
| ResponseController.GetResponsesByAssessment | src/controllers/response.controller.js:97-118 | a missing id is refused with 400 and one that is not an ObjectId with 500; otherwise the answer is the responses of the cast id, refused as not found exactly when there are none |
| InvitationController.Status | src/controllers/invitation.controller.js:172 | exactly one of Accept (used), Expire (unused and `expiredAt < now`) and Pending (unused and not past) holds |
| InvitationController.StatusOf | src/controllers/invitation.controller.js:172 | an invitation is accepted exactly when used and pending exactly when unused and not past its expiry |
| InvitationController.Issue | src/controllers/invitation.controller.js:243-281 | a created invitation, even one whose mail failed, is appended to the store; any other outcome leaves the store unchanged |
| InvitationController.IssueBlocked | src/controllers/invitation.controller.js:244-248 | an existing account refuses with USER_EXISTS; otherwise any unused invitation for the email, expired or not, refuses with ALREADY_INVITED |
| InvitationController.IssueStores | src/controllers/invitation.controller.js:261-272 | the stored invitation has the normalised email, the role, `token1 = token`, `adminId = invitedBy = inviter`, an expiry one hour after `now` and `used` false |
| InvitationController.IssueIgnoresInviterRole | src/controllers/invitation.controller.js:243-281 | the inviter's role has no influence on issuing |
| InvitationController.IssueKeepsValid | src/controllers/invitation.controller.js:272 | issuing keeps the invitation collection valid |
| InvitationController.CreateAndSendInvite | src/controllers/invitation.controller.js:243-281 | the helper changes the invitation collection exactly as the specification says |
| InvitationController.SendInvitationSpec | src/controllers/invitation.controller.js:16-22 | a falsy email or role is refused first; then a malformed inviter id is the catch block's 500 "Server error" and an unknown inviter a 404; the store is untouched in each case |
| InvitationController.SendInvitationHasNoRoleGate | src/controllers/invitation.controller.js:11-66 | any known inviter, whatever their role and however the letters of their id claim are cased, can invite a new address under any invitable role |
| InvitationController.SendInvitation | src/controllers/invitation.controller.js:11-66 | the handler's store and answer are exactly those of the specification |
| InvitationController.InviteByToken | src/controllers/invitation.controller.js:73-75 | finds an invitation whose `token` or `token1` is the given token, or proves there is none |
| InvitationController.AcceptFollowsStatus | src/controllers/invitation.controller.js:73-101 | an unknown token is invalid; otherwise the answer is already-used, expired or forward-to-register exactly as the status is Accept, Expire or Pending |
| InvitationController.AcceptAtExpiryInstant | src/controllers/invitation.controller.js:85 | the expiry test is strict: an unused invitation is still accepted at the instant `expiredAt` |
| InvitationController.AcceptInvitation | src/controllers/invitation.controller.js:73-101 | the token is invalid exactly when no invitation holds it in `token` or `token1`; a forward to registration carries the token and implies an invitation with it that is unused and not past its expiry |
| InvitationController.RegisteredUser | src/controllers/invitation.controller.js:174-180 | the account matched by invitation token or email is a stored one |
| InvitationController.AssessmentOf | src/controllers/invitation.controller.js:189 | finds the assessment linked to the invitation, or proves there is none |
| InvitationController.ResolveNamePrefersUser | src/controllers/invitation.controller.js:182-187 | for a registered invitee the display name does not depend on any assessment |
| InvitationController.ResolveNameFallbacks | src/controllers/invitation.controller.js:171-194 | without an account or a linked assessment the name is "—"; an empty name only comes from an account whose names trim to nothing |
| InvitationController.NamelessUserIsPending | src/controllers/invitation.controller.js:185-187 | a registered invitee without first or last name is shown as "Registered (Pending Info)" |
| InvitationController.FirstPerEmail | src/controllers/invitation.controller.js:122-130 | grouping by email keeps at most one invitation per input invitation |
| InvitationController.FirstPerEmailSound | src/controllers/invitation.controller.js:122-130 | every group row is a stored invitation |
| InvitationController.FirstPerEmailCovers | src/controllers/invitation.controller.js:122-130 | every email among the inputs has a group row |
| InvitationController.FirstPerEmailDistinct | src/controllers/invitation.controller.js:122-130 | no two group rows share an email |
| InvitationController.OrgRowsOf | src/controllers/invitation.controller.js:134-164 | one organisation row per group, in order |
| InvitationController.MemberRowsOf | src/controllers/invitation.controller.js:169-205 | one member row per invitation, in order |
| InvitationController.GetInvitations | src/controllers/invitation.controller.js:109-211 | a caller without a role is unauthorised; a superadmin (compared case-insensitively) gets organisation rows; anyone else gets member rows, or 500 "Server error" when the claim is not 24 hexadecimal digits and the `invitedBy` cast throws |
| InvitationController.SuperadminRowsDistinct | src/controllers/invitation.controller.js:119-132 | the superadmin listing has one row per distinct email, newest first |
| InvitationController.SuperadminRowsCover | src/controllers/invitation.controller.js:120-121 | every admin invitation's email appears in the superadmin listing |
| InvitationController.OrgRowsDistinct | src/controllers/invitation.controller.js:131-164 | sorting and formatting distinct groups keeps the emails distinct |
| InvitationController.OrgRowsCover | src/controllers/invitation.controller.js:131-164 | every group appears after sorting and formatting |
| InvitationController.MemberRowsOrdered | src/controllers/invitation.controller.js:168 | for a claim that casts, the member listing is newest first |
| InvitationController.MemberRowsSound | src/controllers/invitation.controller.js:168-172 | for a claim that casts, every member row comes from an invitation of the caller's organisation whose `invitedBy` is the cast claim, with that invitation's status |
| InvitationController.MemberRowsCover | src/controllers/invitation.controller.js:168 | for a claim that casts, every invitation of the caller's organisation whose `invitedBy` is the cast claim is listed |
| InvitationController.MemberRowFrom | src/controllers/invitation.controller.js:169-203 | each sorted row is a stored invitation with its own id and status |
| InvitationController.MemberRowCover | src/controllers/invitation.controller.js:169-203 | each scoped invitation has a row after sorting |
| InvitationController.CanDeleteIffExpired | src/controllers/invitation.controller.js:224-227 | the deletion guard holds exactly when every matched invitation has status Expire |
| InvitationController.Selected | src/controllers/invitation.controller.js:217 | a parameter containing "@" can never pass the ObjectId test, so it selects by the normalised email and only by it |
| InvitationController.DeleteInvitationSpec | src/controllers/invitation.controller.js:217-237 | the deletion succeeds exactly when something matches and every match is expired and unused; a refusal leaves the store unchanged |
| InvitationController.DeleteRemovesOnlyExpired | src/controllers/invitation.controller.js:217-235 | only expired invitations ever disappear; every unselected invitation stays; after success none of the selected remains; nothing is added |
| InvitationController.FilterKeepsValid | src/controllers/invitation.controller.js:235 | removing invitations keeps the collection valid |
| InvitationController.DeleteInvitation | src/controllers/invitation.controller.js:213-241 | the handler's store and answer are exactly those of the specification |
| InvitationController.ClassifyRow | src/controllers/invitation.controller.js:307-317 | a row is queued when both trimmed, lowercased fields are present, dropped when neither is, and otherwise fails with "Missing email" or "Missing role" |
| InvitationController.Classify | src/controllers/invitation.controller.js:306-318 | the queued and failed lists together hold no more rows than the CSV |
| InvitationController.QueuedRowsComplete | src/controllers/invitation.controller.js:310-311 | every queued row carries both a non-empty email and a non-empty role |
| InvitationController.ClassifyAccounts | src/controllers/invitation.controller.js:306-318 | every CSV row is queued, failed or silently dropped, exactly once |
| InvitationController.AllowedRoles | src/controllers/invitation.controller.js:300-302 | a case-insensitive superadmin may only invite admin; any other inviter only leader, manager and employee |
| InvitationController.RowStep | src/controllers/invitation.controller.js:331-350 | each queued row adds exactly one outcome, a success or one failure, and never rewrites earlier failures |
| InvitationController.OneOutcomePerRow | src/controllers/invitation.controller.js:330-351 | after k rows, successes plus failures have grown by exactly k |
| InvitationController.RunRowsAppends | src/controllers/invitation.controller.js:330-351 | the loop only appends to the invitation collection |
| InvitationController.IssueLeavesUnusedInvite | src/controllers/invitation.controller.js:261-272 | after a created invitation the email has an unused invitation and no account |
| InvitationController.UnusedInviteStays | src/controllers/invitation.controller.js:247-248 | appending invitations never removes an unused invitation for an email |
| InvitationController.RowStepAlreadyInvited | src/controllers/invitation.controller.js:345-346 | an allowed row whose email already has an unused invitation fails with "Already invited" and changes nothing else |
| InvitationController.RowStepSaves | src/controllers/invitation.controller.js:340-341 | a saved row leaves an unused invitation for its email |
| InvitationController.RepeatedEmailAlreadyInvited | src/controllers/invitation.controller.js:330-351 | a later row repeating an email that was already invited in the same CSV fails with "Already invited" |
| InvitationController.BulkSpec | src/controllers/invitation.controller.js:283-380 | any answer other than the final report leaves the invitation store unchanged; no file is refused first, then a malformed inviter id is the 500 of the catch block, then an unknown inviter |
| InvitationController.BulkRows | src/controllers/invitation.controller.js:304-359 | once the inviter is known, any answer other than the final report (no valid row) leaves the invitation store unchanged |
| InvitationController.BulkStep | src/controllers/invitation.controller.js:331-350 | one pass of the loop leaves the store, success count and failure list exactly as the per-row specification says |
| InvitationController.RunQueued | src/controllers/invitation.controller.js:330-351 | the loop over the queued rows ends in the state the per-row specification reaches after every row, in order |
| InvitationController.SendBulkInvitations | src/controllers/invitation.controller.js:283-380 | the handler's store and answer are exactly those of the specification |
| InvitationController.BulkInvite | src/controllers/invitation.controller.js:304-359 | reading, classifying and processing the rows leaves the store and the answer that the specification of that part gives |
| AuthController.InviteGate | src/controllers/auth.controller.js:13-27 | an unauthenticated sender is refused first; a sender who is neither superAdmin nor admin is refused |
| AuthController.InviteGateAdmits | src/controllers/auth.controller.js:13-27 | the gate passes exactly for a superAdmin inviting admin or an admin inviting leader, manager or employee, and a passed role is always invitable |
| AuthController.RegisterSpec | src/controllers/auth.controller.js:385-453 | success appends exactly one account; a refusal leaves the invitations unchanged, and the accounts too unless a save threw |
| AuthController.Admit | src/controllers/auth.controller.js:423-443 | account creation appends exactly one account or leaves the accounts unchanged |
| AuthController.RegisterRefusals | src/controllers/auth.controller.js:385-415 | the refusals in the handler's order, each with its message and with both stores unchanged: a missing field or cookie, different passwords, a token that does not verify, no invitation for `token1` |
| AuthController.RegisterInviteRefusals | src/controllers/auth.controller.js:408-416 | once the invitation is found: a claim for another address is refused, then an address that already has an account, with both stores unchanged |
| AuthController.RegisterCreates | src/controllers/auth.controller.js:424-443 | the new account has the given password of at least 8 characters, is unverified, has an incomplete profile and no role, and has a verification window of one hour; the invitation found by `token1` is marked used and its email is the account's; success needs every field and cookie and `password === confirmPassword` |
| AuthController.RegisterIgnoresUsedAndExpiry | src/controllers/auth.controller.js:407-410 | the answer of registration does not depend on any invitation's `used` or `expiredAt` |
| AuthController.UnnormalisedInviteCannotRegister | src/controllers/auth.controller.js:413-415 | a token whose email differs from its stored, lowercased form is refused as "Invalid invitation email." |
| AuthController.Register | src/controllers/auth.controller.js:385-453 | the handler's stores and answer are exactly those of the specification |
| AuthController.AdmitInvitee | src/controllers/auth.controller.js:423-443 | creates the account and marks that invitation used exactly when creation succeeds |
| AuthController.VerifyEmailSpec | src/controllers/auth.controller.js:203-234 | no account is removed, and a redirect to registration changes nothing |
| AuthController.VerifyEmailNeverDeletes | src/controllers/auth.controller.js:206-218 | the account the lookup finds is never expired, so the delete branch cannot run |
| AuthController.VerifyEmailEffect | src/controllers/auth.controller.js:206-221 | the flow reaches profile info exactly when an account holds the token in an open window; each account is unchanged or only becomes verified |
| AuthController.VerifyEmail | src/controllers/auth.controller.js:203-234 | the handler's store and answer are exactly those of the specification |
| AuthController.CompleteProfileSpec | src/controllers/auth.controller.js:237-270 | a refusal changes nothing, and no record is added or removed |
| AuthController.CloseProfile | src/controllers/auth.controller.js:252-267 | the account is replaced by its completed form; the invitation count is unchanged |
| AuthController.CompleteProfileEffect | src/controllers/auth.controller.js:241-259 | success needs the token's account within its window; it sets the names, department and role, completes the profile and clears the token so it cannot be used again, and changes no other account |
| AuthController.CompleteProfileMarksInvitation | src/controllers/auth.controller.js:262-267 | the first invitation for the account's email, if any, becomes used and nothing else changes |
| AuthController.CompleteProfile | src/controllers/auth.controller.js:237-270 | the handler's stores and answer are exactly those of the specification |
| AuthController.CloseProfileKeepsValid | src/controllers/auth.controller.js:259-266 | completing a profile keeps both collections valid |
| AuthController.CloseProfileIn | src/controllers/auth.controller.js:252-266 | the stores change exactly as the completion specifies |
| AuthController.AccountFor | src/controllers/auth.controller.js:278 | the login lookup finds the account with the normalised email |
| AuthController.Login | src/controllers/auth.controller.js:275-301 | a session is issued only to the account with that email when the password matches and both the email-verified and profile-completed gates hold |
| AuthController.LoginDecidedByAccount | src/controllers/auth.controller.js:280-297 | for an existing account: wrong password gives 401, then unverified gives 403, then incomplete gives 403, else a session with the account's claims |
| AuthController.LoginUnknownEmail | src/controllers/auth.controller.js:280-282 | an unknown email is answered "Invalid credentials" |
| AuthController.ForgotPasswordSpec | src/controllers/auth.controller.js:304-323 | no account is added or removed |
| AuthController.ForgotPasswordSameAnswer | src/controllers/auth.controller.js:307-322 | when mail succeeds the answer is the same whether or not the email exists; an unknown email changes nothing |
| AuthController.ForgotPassword | src/controllers/auth.controller.js:304-323 | the handler's store and answer are exactly those of the specification |
| AuthController.ResetRedirect | src/controllers/auth.controller.js:326-349 | the link leads to the new-password page exactly when an account holds the token with an unexpired window |
| AuthController.ResetLinkWindow | src/controllers/auth.controller.js:314-315 | after a reset request the link is accepted exactly until fifteen minutes after the request |
| AuthController.ResetPasswordSpec | src/controllers/auth.controller.js:352-376 | a refusal changes nothing, and no account is added or removed |
| AuthController.ResetTokenSingleUse | src/controllers/auth.controller.js:369-371 | after a successful reset the same token is refused as "Invalid or expired token" |
| AuthController.ResetPassword | src/controllers/auth.controller.js:352-376 | the handler's store and answer are exactly those of the specification |
| AuthController.SweepKeepsFreshAccounts | src/cron/cronJobs.js:6-14 | the sweep keeps an account exactly when its verification window has not passed or its profile is complete; completed profiles always survive |
| AuthController.SweepExpiredUsers | src/cron/cronJobs.js:5-17 | the sweep removes exactly the stale accounts and keeps the store valid |
| AuthMiddleware.BearerToken | src/middlewares/auth.middleware.js:13 | the token is the text after "Bearer " up to the next space, and contains no space |
| AuthMiddleware.TokenIsFirstPiece | src/middlewares/auth.middleware.js:13 | the first piece of `split(" ")` is a space-free prefix that ends at the first space or at the end |
| AuthMiddleware.BearerRoundTrip | src/middlewares/auth.middleware.js:8-13 | a header built as "Bearer " + token is accepted and yields that token back |
| AuthMiddleware.Protect | src/middlewares/auth.middleware.js:5-25 | the request passes exactly when the header has the Bearer scheme and its token verifies, and then the verified claims are attached |
| AuthMiddleware.ProtectFollowsVerifier | src/middlewares/auth.middleware.js:14-24 | an expired token answers "Token has expired" and any other failure "Invalid token" |
| AuthMiddleware.SessionWins | src/middlewares/auth.middleware.js:35-42 | a valid session with a `userId` is admitted as that user whatever invite token is sent |
| AuthMiddleware.FlexibleProtect | src/middlewares/auth.middleware.js:30-79 | every refusal is a 401; a user caller comes from a bearer session with a `userId`; an employee caller needs an invite token and carries an address; without a bearer header and an invite token the request is refused |
| AuthMiddleware.FlexibleAdmits | src/middlewares/auth.middleware.js:30-79 | a user is admitted only through a verified session with `userId`; an employee only through a verified invite token matching an employee invitation, with that invitation's inviter, organisation and id |
| AuthMiddleware.FlexibleIgnoresUsedAndExpiry | src/middlewares/auth.middleware.js:56-69 | the decision does not depend on any invitation's `used` or `expiredAt` |
| AuthMiddleware.InviteLookupIgnoresUsedAndExpiry | src/middlewares/auth.middleware.js:56-69 | the invitation found for an invite token, and the inviter, organisation and id copied from it, do not depend on its `used` or `expiredAt` |
| AuthMiddleware.ExpiredSessionFallsThrough | src/middlewares/auth.middleware.js:43-48 | with an invite token present, an expired session is treated as if no session had been sent |
| EmployeeMiddleware.EmployeeInvite | src/middlewares/employee.middleware.js:77-81 | the lookup fails exactly when the claimed inviter id is not an ObjectId; otherwise it finds an employee invitation whose `adminId` is the cast inviter id and whose email is the normalised claim, or proves there is none |
| EmployeeMiddleware.InviteTokenOf | src/middlewares/employee.middleware.js:63-70 | the token is the first non-empty of header, route parameter and query; the header wins |
| EmployeeMiddleware.EmployeeAccess | src/middlewares/employee.middleware.js:62-110 | without a token the answer is 401 "Invitation token required"; every other refusal is a 401 or the 400 for a used or an expired invitation; an admitted employee carries an address |
| EmployeeMiddleware.EmployeeAccessAdmits | src/middlewares/employee.middleware.js:62-110 | access is granted exactly for a verified token whose employee invitation is unused and not past `expiredAt`; the context holds that invitation's inviter, organisation and id |
| EmployeeMiddleware.UsedBeforeExpiry | src/middlewares/employee.middleware.js:87-89 | a used invitation is refused as "Invitation already used" whatever its expiry |
| EmployeeMiddleware.HeaderTokenWins | src/middlewares/employee.middleware.js:63-66 | with a header token the parameter and query do not matter |
| AssessmentController.CreateAssessment | src/controllers/assessment.controller.js:31 | `Assessment.create` stores the record exactly when the schema and unique indexes accept it |
| AssessmentController.AssessmentById | src/controllers/assessment.controller.js:55-58 | a malformed id throws; otherwise the lookup finds the assessment whose `_id` is the cast id (its letters in either case) or proves there is none |
| AssessmentController.Finalize | src/controllers/assessment.controller.js:96-110 | the completed assessment is saved first; the snapshot is added only if its id is free, and the completion stays either way |
| AssessmentController.FinalizeIn | src/controllers/assessment.controller.js:96-110 | the stores change exactly as the finalisation specifies |
| AssessmentController.StartAssessmentSpec | src/controllers/assessment.controller.js:11-43 | a started assessment is appended with the stakeholder; a refusal changes nothing |
| AssessmentController.StartAssessmentAlwaysRefused | src/controllers/assessment.controller.js:19-31 | without a stakeholder the request is refused; with one, schema validation rejects the record because `invitationId` is never set |
| AssessmentController.StartAssessment | src/controllers/assessment.controller.js:11-43 | the handler's store and answer are exactly those of the specification |
| AssessmentController.UserDetailsHideSecrets | src/controllers/assessment.controller.js:86-93 | the stored details depend only on id, names, email, department and role, never on password or tokens |
| AssessmentController.SubmitAssessmentSpec | src/controllers/assessment.controller.js:50-124 | a snapshot is appended exactly on success; no assessment is added or removed |
| AssessmentController.SubmitAssessmentEffect | src/controllers/assessment.controller.js:58-110 | success needs an open assessment and a submitter whose `_id` is the cast claim; it is completed at `now`, its `userId` is overwritten with the submitter, and it gets the submitter's details; the snapshot holds all its responses, the same stakeholder and details; no other assessment changes |
| AssessmentController.SubmitAssessmentRefusals | src/controllers/assessment.controller.js:58-84 | every refusal before the save leaves both stores unchanged; an assessment changes only on success or on a failed snapshot write |
| AssessmentController.SubmitAssessmentOnce | src/controllers/assessment.controller.js:63-65 | once an assessment is completed, any later submission is refused as already submitted, even when the snapshot write failed |
| AssessmentController.SubmitAssessment | src/controllers/assessment.controller.js:50-124 | the handler's stores and answer are exactly those of the specification |
| EmployeeAssessmentController.EmployeeDraft | src/controllers/employeeAssessment.controller.js:25-31 | the employee assessment copies the invitation id, inviter, organisation and email and is valid and open |
| EmployeeAssessmentController.StartEmployeeSpec | src/controllers/employeeAssessment.controller.js:7-44 | a start succeeds exactly with an employee context whose assessment the store accepts, and then appends it |
| EmployeeAssessmentController.StartEmployeeOncePerInvitation | src/controllers/employeeAssessment.controller.js:25-31 | a second start for the same invitation is refused by the unique `invitationId` index |
| EmployeeAssessmentController.StartEmployeeAssessment | src/controllers/employeeAssessment.controller.js:7-44 | the handler's store and answer are exactly those of the specification |
| EmployeeAssessmentController.SpendInvitation | src/controllers/employeeAssessment.controller.js:106-109 | the update adds and removes no invitation |
| EmployeeAssessmentController.SubmitEmployeeSpec | src/controllers/employeeAssessment.controller.js:47-122 | a snapshot is appended exactly on success; a refusal leaves snapshots and invitations unchanged |
| EmployeeAssessmentController.SubmitEmployeeEffect | src/controllers/employeeAssessment.controller.js:58-109 | success needs all four fields and an open assessment; it stores the employee details and completion at `now`, writes an "employee" snapshot of all responses and spends the matching invitation |
| EmployeeAssessmentController.SpendInvitationEffect | src/controllers/employeeAssessment.controller.js:106-109 | the first employee invitation for the email becomes used and nothing else changes; with none, nothing changes |
| EmployeeAssessmentController.SubmitEmployeeRefusals | src/controllers/employeeAssessment.controller.js:58-80 | a missing field is refused before any lookup with nothing changed; no refusal before the save touches the assessment |
| EmployeeAssessmentController.SpendInvitationIn | src/controllers/employeeAssessment.controller.js:106-109 | the store changes exactly as specified and stays valid |
| EmployeeAssessmentController.SubmitEmployeeAssessment | src/controllers/employeeAssessment.controller.js:47-122 | the handler's stores and answer are exactly those of the specification |
| UserController.Later | src/controllers/user.controller.js:18 | the later of two submission dates, a missing date sorting first |
| UserController.LatestSubmission | src/controllers/user.controller.js:18 | there is a result exactly when the user has a completed assessment; it is the latest submission date among them |
| UserController.StatusOf | src/controllers/user.controller.js:11-31 | NOT_REQUIRED exactly for roles other than admin, leader and manager; PENDING only with an open assessment of the user; COMPLETED only with a completed one |
| UserController.StatusMeaning | src/controllers/user.controller.js:11-31 | NOT_REQUIRED exactly outside admin, leader and manager; PENDING exactly with an open own assessment; DUE exactly with none open and either none completed or the latest completion before the three-month mark |
| UserController.GetMe | src/controllers/user.controller.js:6-48 | a malformed id claim is the catch block's 500 "Server error", an unknown caller a 404; otherwise the answer carries the caller's id, names (or "") and role text, and the status above |
| UserController.AssignTrimmedTwice | src/controllers/user.controller.js:121-123 | writing a trimmed path twice equals writing it once |
| UserController.AssignPhoneTwice | src/controllers/user.controller.js:119 | writing the phone number twice equals writing it once |
| UserController.Patched | src/controllers/user.controller.js:111-123 | the profile update never changes the id, email, password, role, organisation or department |
| UserController.PatchedKeepsAbsent | src/controllers/user.controller.js:111-123 | a field absent from the body is unchanged, and no path outside the nine profile fields changes |
| UserController.PatchedIdempotent | src/controllers/user.controller.js:111-123 | applying the same patch twice equals applying it once |
| UserController.DuplicateMessage | src/controllers/user.controller.js:158-160 | the message is the key path with its first letter upper-cased, followed by " already exists." |
| UserController.UpdateProfileSpec | src/controllers/user.controller.js:92-173 | no account is added or removed, and a refusal changes nothing; a malformed id claim is the 500 "Internal server error", an unknown caller a 404 |
| UserController.UpdateProfileEffect | src/controllers/user.controller.js:106-143 | success replaces only the caller's account by its patched form, whose phone number no other account uses; the answer shows the stored values |
| UserController.DuplicatePhoneMessage | src/controllers/user.controller.js:149-160 | a clash on the phone index is answered "PhoneNumber already exists." |
| UserController.PatchKeepsValid | src/controllers/user.controller.js:132 | a patch whose phone number is free keeps the collection valid |
| UserController.UpdateProfile | src/controllers/user.controller.js:92-173 | the handler's store and answer are exactly those of the specification |
| OrganizationController.UserProgressMeaning | src/controllers/organization.controller.js:36-49 | Not Started exactly without an own assessment; In Progress exactly with an open one and no completed one; Completed or Due exactly with a completed one; Due only when every dated completion is before the three-month mark |
| OrganizationController.CompletionOutranksOpen | src/controllers/organization.controller.js:37-49 | with both a completed and an open assessment, the member shows Completed or Due while `getMe` shows PENDING |
| OrganizationController.UserProgress | src/controllers/organization.controller.js:36-49 | "Completed" or "Due" exactly when the member has a completed assessment; "In Progress" only with an open one |
| OrganizationController.InvitationProgress | src/controllers/organization.controller.js:51-66 | without an account, Not Started exactly without a linked assessment, otherwise Completed or In Progress as the linked one is complete; never Due |
| OrganizationController.NameSplit | src/controllers/organization.controller.js:74-75 | the first name contains no space; a one-word name has an empty last name; a name not starting with a space is first name + " " + last name |
| OrganizationController.InvitationRow | src/controllers/organization.controller.js:71-80 | the row carries the invitation's id, email, role and creation time; it is accepted exactly when the invitation is used; the first name is a single word |
| OrganizationController.InvitationRows | src/controllers/organization.controller.js:14-84 | one member row per invitation, in order |
| OrganizationController.AdminRow | src/controllers/organization.controller.js:109-119 | the admin row carries the admin's id and email, the role admin and the status "Accept"; its first name is never empty and its full name is trimmed |
| OrganizationController.OrgAdmin | src/controllers/organization.controller.js:87 | finds an admin whose stored organisation name is the trimmed parameter, as the `trim` setter makes the filter, or proves there is none |
| OrganizationController.OrgStatusOf | src/controllers/organization.controller.js:126 | Accept exactly for a verified admin with a completed profile, Pending for any other admin, and Expired without one |
| OrganizationController.GetOrgDetails | src/controllers/organization.controller.js:6-141 | a missing name is refused; `totalTeamMember` is the final list length; status and creation date come from the admin |
| OrganizationController.AdminPrepended | src/controllers/organization.controller.js:89-121 | without an admin the list is the invitation rows; an admin is always listed, and is prepended as an accepted admin row only when their email is not yet among the rows |
| OrganizationController.MembersCover | src/controllers/organization.controller.js:12-123 | every invitation of the organisation is listed with its own row |
| OrganizationController.RowsCover | src/controllers/organization.controller.js:12-84 | every invitation of the organisation has its row in the sorted rows |
| OrganizationController.MembersNewestFirst | src/controllers/organization.controller.js:12 | the invitation rows are newest first |
| NotificationUtils.CreateSpec | src/utils/notification.utils.js:4-16 | the notification is stored exactly when it is valid and its id is free; a failure is swallowed and changes nothing |
| NotificationUtils.CreateKeepsValid | src/utils/notification.utils.js:6-12 | creating keeps the notification collection valid |
| NotificationUtils.CreateNotification | src/utils/notification.utils.js:4-16 | the helper stores the defaulted notification exactly as specified |
| NotificationUtils.InsertMany | src/utils/notification.utils.js:30-32 | the batch is stored whole or not at all, and validity is kept |
| NotificationUtils.InsertManyAllOrNothing | src/utils/notification.utils.js:30-32 | an insertable batch is appended, any other leaves the store unchanged |
| NotificationUtils.FanOut | src/utils/notification.utils.js:21-28 | one notification per recipient, in order, with the given title, message and type and no link |
| NotificationUtils.Ids | src/utils/notification.utils.js:24 | the recipient ids, one per selected user |
| NotificationUtils.RecipientsExact | src/utils/notification.utils.js:20-22 | there is exactly one recipient per targeted user, every targeted user is a recipient, and every recipient is a targeted user |
| NotificationUtils.PreferencesIgnored | src/utils/notification.utils.js:18-61 | changing any user's notification preferences changes neither recipient list |
| NotificationUtils.SameIdsUnderUpdate | src/utils/notification.utils.js:42-54 | replacing a user by one with the same id and targeting keeps the recipients |
| NotificationUtils.FanOutEffect | src/utils/notification.utils.js:21-32 | the store is unchanged or gains exactly one unread, linkless notification per recipient (its id cast), in order, after the existing ones |
| NotificationUtils.OrgFanOutEmpty | src/utils/notification.utils.js:40-58 | without an organisation name, or with no targeted user, nothing is inserted |
| NotificationUtils.NotifySuperAdmins | src/utils/notification.utils.js:18-36 | the store changes exactly as the super-admin fan-out specifies |
| NotificationUtils.NotifyOrgAdmins | src/utils/notification.utils.js:38-62 | the store changes exactly as the organisation fan-out specifies |
| NotificationController.InboxSound | src/controllers/notification.controller.js:6-9 | an answered inbox holds at most 50 stored notifications whose recipient is the cast claim, newest first |
| NotificationController.InboxLatest | src/controllers/notification.controller.js:6-10 | for a claim that casts, the inbox is answered, and a notification addressed to the cast claim that is left out means the page is full and shows only notifications at least as new |
| NotificationController.GetNotifications | src/controllers/notification.controller.js:4-14 | a claim that is not 24 hexadecimal digits makes the query throw, answered 500 "Error fetching notifications"; otherwise the inbox holds at most 50 notifications, never more than are stored, newest first |
| NotificationController.InboxIgnoresCase | src/controllers/notification.controller.js:6-9 | a claim and its lower-case spelling answer the same inbox, so an upper-case spelling of the caller's id finds the caller's notifications |
| NotificationController.MarkAsReadSpec | src/controllers/notification.controller.js:17-25 | a malformed id is answered "Error marking as read" with nothing changed; any well-formed id, known or not, is answered "Marked as read" |
| NotificationController.MarkAsReadEffect | src/controllers/notification.controller.js:20 | exactly the notification whose `_id` is the cast id becomes read, whoever owns it; every other one is unchanged |
| NotificationController.MarkAsRead | src/controllers/notification.controller.js:17-25 | the handler's store and answer are exactly those of the specification |
| NotificationController.MarkAllAsReadSpec | src/controllers/notification.controller.js:28-36 | a claim that does not cast is answered 500 "Error marking all read" with nothing changed; otherwise "All marked as read"; no notification is added or removed |
| NotificationController.MarkAllAsReadEffect | src/controllers/notification.controller.js:30-31 | for a claim that casts, every notification whose recipient is the cast claim (the claim's letters in either case) is read afterwards and keeps its other paths; everybody else's are untouched, and a claim that does not cast changes nothing |
| NotificationController.MarkAllAsReadIdempotent | src/controllers/notification.controller.js:31 | marking everything read twice equals doing it once |
| NotificationController.MarkAllAsRead | src/controllers/notification.controller.js:28-36 | the handler's store and answer are exactly those of the specification |
| NotificationController.ClearSpec | src/controllers/notification.controller.js:39-47 | a claim that does not cast is answered 500 "Error clearing notifications" with nothing deleted; otherwise "Notifications cleared" |
| NotificationController.ClearEffect | src/controllers/notification.controller.js:41-42 | for a claim that casts, none of the notifications addressed to the cast claim is left, every other one stays, and the count drops by their number |
| NotificationController.ClearCount | src/controllers/notification.controller.js:42 | the count left by the delete filter plus the caller's count is the old count |
| NotificationController.ClearEmptiesInbox | src/controllers/notification.controller.js:4-14 | after clearing, the caller's inbox is empty; a claim that does not cast is answered 500 by both handlers |
| NotificationController.ClearKeepsValid | src/controllers/notification.controller.js:42 | deleting keeps the collection valid, also when the claim does not cast |
| NotificationController.ClearNotifications | src/controllers/notification.controller.js:39-47 | the handler's store and answer are exactly those of the specification |
| PreferencesController.NewPrefs | src/controllers/preferences.controller.js:11-16 | each value sent in the body is taken; a missing value keeps the stored one, or is true when no preferences are stored |
| PreferencesController.UpdatePreferencesSpec | src/controllers/preferences.controller.js:3-28 | a malformed id claim is the 500 "Error updating preferences" and an unknown caller the 404 "User not found", both with nothing changed; otherwise only the caller's preferences change, and the answer is what is stored |
| PreferencesController.MigrationTurnsEmailOn | src/controllers/preferences.controller.js:11-13 | the migration branch as written: an account whose `notificationPreferences` is falsy, if one is ever loaded, ends with email notifications on when no `email` value is sent, unlike the schema default (whether any loaded account reaches that branch: see PreferencesController.NewPrefs under "## Left out") |
| PreferencesController.UpdatePreferencesIdempotent | src/controllers/preferences.controller.js:15-18 | sending the same body twice has the effect of sending it once |
| PreferencesController.EmptyBodyKeepsPrefs | src/controllers/preferences.controller.js:15-16 | an empty body keeps the stored preferences, or stores the migrated ones |
| PreferencesController.UpdateNotificationPreferences | src/controllers/preferences.controller.js:3-28 | the handler's store and answer are exactly those of the specification |
| Common.Trim | src/controllers/response.controller.js:33 | the result has no leading or trailing white space, where white space is the ECMAScript set (the ASCII spaces, line terminators, U+00A0, U+FEFF and the other Unicode space separators), and is no longer than the input |
| Common.TrimRemovesUnicodeSpace | src/controllers/response.controller.js:33 | the no-break space, the byte order mark, the line separator and the ideographic space are trimmed like the ASCII space: a string of them is blank, and a no-break space before and a narrow no-break space after any text are removed |
| Common.TrimIdempotent | src/models/user.model.js:72 | trimming twice equals trimming once |
| Common.Lower | src/models/user.model.js:12 | lowercasing maps the letters A-Z to a-z, keeps every other character and keeps the length |
| Common.ObjectIdShape | src/controllers/assessment.controller.js:55 | casting keeps an ObjectId an ObjectId and leaves no upper-case letter |
| Common.ObjectIdIgnoresCase | src/controllers/assessment.controller.js:55 | two spellings of an id that differ only in the case of their letters name the same record |
| Common.ObjectIdOfIdempotent | src/controllers/assessment.controller.js:55 | casting a cast id changes nothing |
| Common.CastClaimIgnoresCase | src/controllers/notification.controller.js:7 | a claim and its lower-case spelling both throw or both cast, and to the same id |
| Common.NormEmailIdempotent | src/models/user.model.js:8-15 | an email normalised by the schema setters is a fixed point of them |
| Common.Capitalize | src/controllers/user.controller.js:159 | the first character is upper-cased and the rest kept |
| Common.JoinSplit | src/controllers/organization.controller.js:74-75 | joining the pieces of `split(" ")` with spaces gives back the string, and no piece contains a space |

## Left out

- Mail delivery is the `mailOk` flag. Templates, transport and links are not modelled. A failure after the save leaves the record saved, as in the code.
- JWT signing and verification is the `Jwt.Verifier` oracle. Token lifetimes are reflected only by its `TokenExpired` verdict.
- Generated ids, tokens and verification tokens are parameters. An id that collides with a stored one is refused by the unique index, as MongoDB does.
- HTTP status codes, cookies, redirects and `Cache-Control` headers are the `Failure` and outcome datatypes. Response bodies are modelled only by the fields the rules decide.
- CSV file reading, parsing and temporary files in `sendBulkInvitations` are not modelled. The parsed rows are an input.
- The upload middlewares, the Cloudinary image upload of `updateProfile` and the `profileImage` path are not modelled.
- Date casting of `dob` in `updateProfile` is not modelled; the value is stored as given or null.
- The clock and calendar arithmetic are parameters: `now`, and `threeMonthsAgo` for `setMonth(-3)`.
- MongoDB's background TTL deletion of invitations runs whenever the server chooses. It is the explicit operation `InvitationModel.TtlSweep` and is not interleaved with the handlers.
- The cron schedule of src/cron/cronJobs.js is not modelled; one sweep is `AuthController.SweepExpiredUsers`.
- Concurrency is not modelled: `Promise.all` fan-outs and concurrent requests are sequential.
- Passwords are stored and compared in plain text, as in the code, so no hashing appears.
- Console logging is not modelled.
- ObjectId syntax is `Common.IsHex24`. The case-insensitive hex test is taken as written. Casting a 24-digit hex string to an ObjectId is `Common.ObjectIdOf`, which lower-cases it; stored ids are lower-case hex. A 12-byte string id, which Mongoose would also accept, is not modelled.
- The Response schema is not part of this model. Its `assessmentId` and `questionId` are taken to be ObjectId references, because the submit handler queries responses with `new ObjectId(assessmentId)` and stores `question._id` as `questionId`.
- ResponseController.UpsertSpec: an entry whose comment is undefined keeps the stored comment when it updates a record (`Merge`), and stores none when it inserts one. This is the behaviour of Mongoose 7 and later, which strips undefined keys from an update; the code does not fix the version. Under Mongoose 6 or earlier the key is sent and the comment is written as null in both cases.
- ResponseController.FindOneAndUpsert: the same Mongoose 7 assumption about an undefined comment as UpsertSpec.
- NotificationUtils.CreateNotification: a recipient that is 24 hexadecimal digits is stored cast (lower case). One that is not fails validation, and nothing is stored. The 12-byte string form Mongoose also accepts is not modelled.
- ResponseController.JsNumber: numbers are exact rationals, so binary64 rounding is not modelled ("3.0000000000000001" reads as above 3, where JavaScript rounds it to 3). Object and array answers are not modelled.
- Common.Lower: maps A-Z only. The full Unicode mapping of `toLowerCase`, which can change a string's length, is not modelled; it differs only on non-ASCII letters, for example in email addresses.
- String lengths count characters, not UTF-16 code units. The `minlength: 8` of passwords (src/models/user.model.js:20) therefore counts a character outside the Basic Multilingual Plane once, where Mongoose counts it twice.
- The notification helpers are modelled as operations, but no handler in the code calls them. `createNotification` is only imported at src/controllers/invitation.controller.js:6.
- Paths the schemas do not declare are modelled as stored, as the controllers assume. The code as written does not store them. Strict mode is Mongoose's default and nothing in src/ turns it off, so Mongoose drops `orgName` from every invitation (src/models/invitation.model.js:3-50 has no such path) and `employeeDetails` from assessments and snapshots. The filters that name `orgName` then depend on the Mongoose version's `strictQuery` default, which the code does not show. With `strictQuery` on (the Mongoose 6 default) the path is removed from the filter. With it off (the default from Mongoose 7) the path stays, and no stored invitation matches a string value. The affected members follow, one per line.
- InvitationModel.NewInvitation: stores the inviter's `orgName` on the invitation; `sendInvitation` (src/controllers/invitation.controller.js:48) and `createAndSendInvite` (:268) store none.
- InvitationController.IssueStores: states the invitation's `orgName` as the inviter's, which strict mode drops.
- InvitationController.OrgRowsOf: uses the first invitation's `orgName` as a fallback. As written, `orgNameFromInvite` (:125) is always undefined, so a row's name is the admin account's `orgName` or "Pending Setup". `totalUsers` (:147-149) counts invitations by `orgName`: every invitation in the collection with `strictQuery` on, and 0 with it off.
- InvitationController.GetInvitations: the non-superadmin listing filters by `orgName` and `invitedBy` (:168). As written it lists every invitation the caller sent with `strictQuery` on, and none for a session that carries an organisation name with it off.
- InvitationController.MemberRowsSound: "the caller's organisation" is the invitation's modelled `orgName`; see GetInvitations above.
- InvitationController.MemberRowsCover: the same scope as MemberRowsSound.
- OrganizationController.GetOrgDetails: the member rows come from `Invitation.find({ orgName })` (src/controllers/organization.controller.js:12). As written that is every invitation in the collection with `strictQuery` on, and none with it off, so the list is then the admin row alone or empty.
- OrganizationController.MembersCover: the same scope as GetOrgDetails.
- OrganizationController.RowsCover: the same scope as GetOrgDetails.
- AuthMiddleware.FlexibleAdmits: the employee context's `orgName` is the invitation's modelled one; as written it is undefined (src/middlewares/auth.middleware.js:66).
- EmployeeMiddleware.EmployeeAccessAdmits: the same for src/middlewares/employee.middleware.js:101.
- EmployeeAssessmentController.EmployeeDraft: copies the context's `orgName` into the assessment (src/controllers/employeeAssessment.controller.js:28); as written it is undefined and the path stays unset.
- EmployeeAssessmentController.SubmitEmployeeEffect: stores `employeeDetails` on the assessment and the snapshot (src/controllers/employeeAssessment.controller.js:90, :100); as written both are dropped, and only the completion flag, `submittedAt`, the stakeholder and the responses are stored.
- `null` and an unset path are one value (`None`) in stored records. The model does not capture the query difference between `{ field: null }` and a missing path.
- Mongoose's casting of preference values (for example the string "false" to a boolean) is not modelled. Body values are `Option<bool>`.
- PreferencesController.NewPrefs: models the migration branch for a stored account without preferences. Mongoose may apply the schema defaults on load, which would make that branch unreachable.
- NotificationUtils.InsertMany: a batch is inserted whole or not at all. The partial write that an ordered `insertMany` performs before a duplicate key is not modelled.
- EmployeeAssessmentController.StartEmployeeSpec: the context always carries `invitationId`, set by the middlewares. The branch for a missing `invitationId` and `invitedId` is not modelled.
- The commented-out revisions, the dead `acceptInvitation` copy in auth.controller.js, the route files, the connection code, the seed and debug scripts, and the unused employeeAssessment model are not part of this model.
- The Question and Response models, the question controller, and the `logout`, `changePassword` and `resendVerificationEmail` handlers are not part of this model. A question is an abstract record with scale, type and `higherValueOption`.
