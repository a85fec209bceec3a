# MedVault authentication and authorisation core, in Dafny

MedVault is a healthcare records web application. It has three roles: admin, doctor and patient. Its server is an Express REST API over MongoDB. This project models the server's authentication and authorisation core. The model covers:

- **The user document** (`server/models/User.js`): its schema validation, the login-lockout state machine, password hashing on save, and the email lookup.
- **The auth utilities** (`server/utils/auth.js`): the password-strength rules, input sanitisation, hex-encoded API keys, one-time passwords, the rate-limit window, reset and verification links, and the user object sent back with every session token.
- **The auth controller** (`server/controllers/authController.js`): register, login, password change, forgot/reset password, email verification and token refresh. These are methods of a `UserStore` class that holds the user and patient documents. Each method is proved against a step function that fixes the order of its checks.
- **The auth middleware** (`server/middleware/auth.js`):
  - the bearer-token check (`protect`) and the role check (`authorize`);
  - the patient and medical-record access evaluators;
  - the per-IP/per-user limiter for sensitive operations, a class whose window map changes in place;
  - the audit stamp.
- **The error middleware** (`server/middleware/errorHandler.js`).
- **The Patient and MedicalRecord models** (`server/models/Patient.js`, `server/models/MedicalRecord.js`): their lists, the list methods, and the pre-save hooks those methods trigger.
- **The medical-record routes** (`server/routes/recordRoutes.js`): their permission checks, and the share, attachment, view and create handlers.
- **The upload routes** (`server/routes/uploadRoutes.js`): the accepted types, the multer limits, stored names and paths, content types, and the profile-picture, download, delete and info handlers.

Modelling choices:

- **Secrets and hashes.** Password hashes, SHA-256 digests and JWTs are symbolic terms (`Bcrypt(plain, salt)`, `Sha256(preimage)`, `Jwt(id, iat, exp)`). Equality of terms stands for the collision resistance the server relies on.
- **Inputs from outside.** Random values, salts and the clock are parameters. The store keeps a ghost set of issued secrets, and requires a new secret to be outside it. This is how the model says that 20 random bytes do not repeat.
- **Ids.** Database ids are strings, compared the way the server compares `toString()` forms.
- **Role.** Besides the three known roles, `Role` has an `UnknownRole(name)` variant, so the fall-through "not authorised" branches of the access checks can be reached.
- **Save hooks.** The Mongoose pre-save hooks run inside every modelled method that calls `save()`.
- **Setters.** The schema's setters run when `User.create` casts the document, before any validator: the `trim` on `name` and the `lowercase` on `email`. `AuthController.RegistrationDraft` applies them after sanitising, so `UserModel.SchemaErrors` judges, and the new user stores, the trimmed name.

## Model

| member | source | states |
|---|---|---|
| Common.ParseRole | server/models/User.js:36-43 | the stored string of the parsed role is the input; the result is one of the three schema roles exactly when the input is "admin", "doctor" or "patient" |
| Common.CanonicalRolesCompareByName | server/middleware/auth.js:69-87 | for canonical roles, two roles are equal exactly when their stored strings are, so `roles.includes(req.user.role)` is role membership |
| Text.Lower | server/models/User.js:13-19 | lower-casing keeps the length and maps each character to its lower-case ASCII form |
| Text.Trim | server/utils/auth.js:184 | the result is a contiguous slice of the input that neither starts nor ends with JavaScript white space, and every character cut off on either side is white space |
| Text.LastIndexOf | server/routes/uploadRoutes.js:30 | returns the position of the last occurrence of the character, with none after it, or none exactly when the character is absent |
| Text.Split | server/middleware/auth.js:11 | splitting always yields at least one field |
| Text.SplitAtOnlySeparator | server/middleware/auth.js:11 | a string with exactly one separator splits into its two sides |
| Crypto.HashToken | server/utils/auth.js:22-24 | the digest records the token it was computed from |
| Crypto.HashTokenInjective | server/utils/auth.js:22-24 | two tokens have the same digest exactly when they are equal, so a stored digest identifies its secret |
| Crypto.SignToken | server/utils/auth.js:5-9 | the session token carries the user id, is issued now, and expires seven days later |
| Secrets.IssuedAcceptsOnlyItsSecret | server/controllers/authController.js:352-357 | an issued reset or verification slot is matched by the lookup exactly for its own secret and only before its expiry |
| Secrets.Issue | server/controllers/authController.js:301-306 | at the moment of issue, a slot is matched exactly by its own secret, and only when its lifetime is positive |
| Secrets.ClearedAcceptsNothing | server/controllers/authController.js:367-369 | a cleared slot matches no token at any time |
| Secrets.ReissueInvalidatesPrevious | server/controllers/authController.js:301-306 | issuing a new reset secret makes the previous one unusable |
| Secrets.ResetTokenExpires | server/controllers/authController.js:303-306 | a reset secret is refused from ten minutes after issue onwards |
| UserModel.FailureAfterExpiredLockRestarts | server/models/User.js:193-198 | a failure after an expired lock restarts the count at 1 and removes the lock |
| UserModel.FailureCountsOnce | server/models/User.js:200 | any other failure adds exactly one to the count |
| UserModel.FailureNeverExtendsLock | server/models/User.js:203-205 | a failure during an active lock leaves the lock time unchanged and the account still locked |
| UserModel.FifthFailureLocks | server/models/User.js:203-205 | on an unlocked account, the failure that brings the count to five sets a two-hour lock, and an earlier failure sets none |
| UserModel.FailurePreservesLockInvariant | server/models/User.js:191-208 | a lock is only present with at least five recorded failures, and every failure keeps it so |
| UserModel.FailuresFromCleanAccount | server/models/User.js:191-208 | up to five failures on a clean account count them all, and exactly the fifth locks it for two hours from its own time |
| UserModel.DoctorFieldsRequired | server/models/User.js:57-70 | a doctor without specialization or licence number fails validation on that path, and other roles never report those paths |
| UserModel.SchemaErrors | server/models/User.js:5-111 | a missing email is reported, and a document with no error has a name of 2 to 50 characters (as the `trim` setter left it), an email, a valid phone and a known role |
| UserModel.NameLengthJudged | server/models/User.js:6-12 | an empty name is reported as missing, a one-character name as too short and one over 50 characters as too long |
| UserModel.DoctorPathsOnlyFromDoctorPart | server/models/User.js:57-70 | the doctor-only paths are reported by the doctor part of the schema and by no other part |
| UserModel.PatientFieldsRequired | server/models/User.js:72-111 | a valid patient document has a birth date, a gender and blood type from their enumerations, and a complete emergency contact |
| UserModel.ProfileOf | server/models/User.js:56-111 | a valid document has a doctor profile exactly when it is a doctor and a patient profile exactly when it is a patient |
| UserModel.EmailKey | server/models/User.js:218-220 | the lookup key has the email's length and is already lower-case |
| UserModel.User.constructor | server/models/User.js:5-145 | a new user holds the validated fields as the setters left them (the name trimmed, the email lower-cased), the bcrypt hash of the password, no failures, no lock and no live secrets, is active and unverified |
| UserModel.User.IncLoginAttempts | server/models/User.js:191-208 | the lock state becomes the failure transition of the old one, and the lock invariant is kept |
| UserModel.User.ResetLoginAttempts | server/models/User.js:211-215 | the count and the lock are cleared |
| UserModel.User.Save | server/models/User.js:167-179 | a pending plain password is replaced by its bcrypt hash; with none pending, the stored hash is unchanged |
| UserModel.User.IsLocked | server/models/User.js:155-157 | locked exactly when a lock time lies ahead; a locked valid user has at least five recorded failures |
| UserModel.User.ComparePassword | server/models/User.js:182-187 | the candidate matches exactly when the stored hash is the bcrypt hash of it, with some salt |
| AuthUtils.ValidatePassword | server/utils/auth.js:77-104 | valid exactly when there is no message and the password is strong; each rule's message is present exactly when that rule is broken; at most five messages |
| AuthUtils.RuleMessagesDiffer | server/utils/auth.js:80-98 | the five rule messages are pairwise distinct, so the message list tells the caller which rules failed |
| AuthUtils.RemoveAngles | server/utils/auth.js:185 | no angle bracket is left, no character is added, and nothing changes when there was none |
| AuthUtils.RemoveProtocol | server/utils/auth.js:186 | one left-to-right pass of the case-insensitive `javascript:` removal never adds characters |
| AuthUtils.RemoveHandlers | server/utils/auth.js:187 | one pass of the `on…=` removal never adds characters |
| AuthUtils.WordRunEnd | server/utils/auth.js:187 | the end of the longest run of word characters from a position (the `\w+` of the handler pattern) |
| AuthUtils.SanitizeAsWritten | server/utils/auth.js:180-188 | the single pass leaves no angle bracket and never lengthens the text |
| AuthUtils.SanitizeAsWrittenLeavesProtocol | server/utils/auth.js:180-188 | the single pass turns `javajavascript:script:` into `javascript:` |
| AuthUtils.SanitizeToFixpoint | server/utils/auth.js:180-188 | repeating the pass until nothing changes terminates and never lengthens the text |
| AuthUtils.FixpointIsClean | server/utils/auth.js:180-188 | the repeated pass leaves no angle bracket, no `javascript:` and no `on…=` anywhere |
| AuthUtils.SanitizeInput | server/utils/auth.js:180-188 | non-strings are returned unchanged; a string is trimmed and passed once through each removal, so it holds no angle bracket and is no longer than its trimmed form |
| AuthUtils.SanitizeInputToFixpoint | server/utils/auth.js:180-188 | the intended sanitiser returns non-strings unchanged and never lengthens a string |
| AuthUtils.SanitizedIsClean | server/utils/auth.js:180-188 | a string the intended sanitiser returns contains no angle bracket, no `javascript:` and no `on…=` |
| AuthUtils.FixpointAgreesAfterOnePass | server/utils/auth.js:180-188 | the written and the intended sanitiser agree whenever a second pass over the written one's output would remove nothing |
| AuthUtils.HexEncode | server/utils/auth.js:136 | two lower-case hexadecimal digits per byte |
| AuthUtils.HexDecode | server/utils/auth.js:136 | decoding keeps one byte per digit pair and drops a trailing lone digit |
| AuthUtils.HexDecodeEncode | server/utils/auth.js:136 | decoding an encoding gives the bytes back |
| AuthUtils.HexEncodeDecode | server/utils/auth.js:136 | every even-length lower-case hex string is the encoding of its decoding |
| AuthUtils.GenerateApiKey | server/utils/auth.js:134-138 | a generated key starts with `mv_` |
| AuthUtils.GeneratedKeysValidate | server/utils/auth.js:134-143 | every generated key passes `validateAPIKey` |
| AuthUtils.ValidKeysAreGenerated | server/utils/auth.js:134-143 | every key that passes `validateAPIKey` is generated by exactly one 32-byte random value |
| AuthUtils.ValidateApiKey | server/utils/auth.js:141-143 | a key that passes starts with `mv_`, is 67 characters long and holds no space |
| AuthUtils.GenerateOtp | server/utils/auth.js:191-200 | the code has the requested length and its i-th digit is the i-th random pick |
| AuthUtils.VerifyOtp | server/utils/auth.js:203-213 | acceptance needs a non-empty input equal to the stored code and a set expiry not yet passed |
| AuthUtils.StoredOtpAcceptedUntilExpiry | server/utils/auth.js:203-213 | the stored code itself is accepted exactly up to and including its expiry time |
| AuthUtils.Recent | server/utils/auth.js:164 | keeps each attempt younger than the window, with its multiplicity, and drops every older one |
| AuthUtils.RateLimitedIgnoresStale | server/utils/auth.js:162-166 | an attempt outside the window never changes the verdict, and any new attempt can only tighten it |
| AuthUtils.RateLimitKey | server/utils/auth.js:158-160 | the key starts with the IP and is longer than it exactly when a user id is present; then the IP is followed by a colon and the id |
| AuthUtils.RateLimitKeySeparatesUsers | server/utils/auth.js:158-160 | behind one IP, two requests share a key exactly when both are anonymous or both carry the same user id |
| AuthUtils.IsRateLimited | server/utils/auth.js:162-166 | a limit of zero or less always refuses, and fewer recorded attempts than the limit never do |
| AuthUtils.ResetUrl | server/utils/auth.js:112-114 | the link is the base URL, the reset path, then the token |
| AuthUtils.VerificationUrl | server/utils/auth.js:117-119 | the link is the base URL, the verification path, then the token |
| AuthUtils.LinksAreDistinct | server/utils/auth.js:112-119 | two reset links are equal exactly when their tokens are, and no reset link is a verification link |
| AuthUtils.Public | server/utils/auth.js:41-52 | the public view keeps the id, email, role and role-specific profile of the user |
| AuthUtils.UserResponse | server/utils/auth.js:41-63 | the JSON user carries `_id`, `email` and `role` with the user's values |
| AuthUtils.UserResponseHasNoSecrets | server/utils/auth.js:41-63 | the JSON user has no password, no reset or verification token, no failure count and no lock time |
| AuthUtils.UserResponseFollowsRole | server/utils/auth.js:54-63 | the doctor fields appear exactly for doctors and the patient fields exactly for patients |
| AuthUtils.SendTokenResponse | server/utils/auth.js:27-74 | the reply has the given status, a token for the user whose expiry is the cookie's, and the user's public view |
| ErrorHandler.HandleError | server/middleware/errorHandler.js:3-94 | the reply is the one selected by the last matching check, is never a success, and carries a stack exactly in development |
| ErrorHandler.UnrecognisedErrorFallsBack | server/middleware/errorHandler.js:89-93 | an unrecognised error keeps its own status (500 if none) and its own message ("Server Error" if none) |
| ErrorHandler.CastErrorIsNotFound | server/middleware/errorHandler.js:11-17 | a cast error is a 404 "Resource not found" |
| ErrorHandler.DuplicateKeyIsBadRequest | server/middleware/errorHandler.js:20-35 | a duplicate key is a 400, naming the email or the licence number when that is the duplicated field |
| ErrorHandler.ValidationErrorJoinsMessages | server/middleware/errorHandler.js:38-44 | a validation error is a 400 whose message joins the field messages with ", " |
| ErrorHandler.TokenErrorsAreUnauthorized | server/middleware/errorHandler.js:47-61 | a bad or expired JWT is a 401 "Invalid token" or "Token expired" |
| ErrorHandler.UploadLimitsAreBadRequest | server/middleware/errorHandler.js:64-78 | exceeding the upload size or count is a 400 with the matching message |
| PatientModel.PrimaryCount | server/models/Patient.js:234-247 | counts the primary entries; zero exactly when none is primary |
| PatientModel.FirstPrimary | server/models/Patient.js:221-224 | the first primary entry, or none exactly when no entry is primary |
| PatientModel.PrimaryDoctor | server/models/Patient.js:221-224 | none exactly when no entry is primary; otherwise the doctor of a primary entry with no primary entry before it |
| PatientModel.DemoteAll | server/models/Patient.js:277-281 | every entry is kept but none is primary |
| PatientModel.PrimaryHookAsWritten | server/models/Patient.js:234-247 | the hook as written changes only primary flags |
| PatientModel.HookAsWrittenDropsEveryPrimary | server/models/Patient.js:234-247 | with two primaries behind a non-primary first entry, the hook as written leaves no primary doctor |
| PatientModel.HookAsWrittenLeavesIndexZero | server/models/Patient.js:234-247 | as written, the hook leaves at most one primary; when it acts, only the first entry can stay primary, and otherwise the list is unchanged |
| PatientModel.HookKeepsDoctor | server/models/Patient.js:234-247 | the hook never removes an assigned doctor |
| PatientModel.PrimaryHook | server/models/Patient.js:234-247 | the corrected hook keeps the list's length |
| PatientModel.PrimaryHookKeepsFirstPrimary | server/models/Patient.js:234-247 | the corrected hook leaves at most one primary, keeps the primary doctor, changes only flags, and leaves a well-formed list alone |
| PatientModel.IndexOfDoctor | server/models/Patient.js:268-270 | the first entry for the doctor, or none exactly when there is none |
| PatientModel.ExistingPrimaryRequestReverted | server/models/Patient.js:266-291 | making an already-assigned doctor primary, as written and followed by the hook, leaves the old primary doctor in place |
| PatientModel.AssignAsWrittenUpdatesOrAppends | server/models/Patient.js:266-292 | as written, an assigned doctor's entry gets the new flag and specialisation with nothing else changed; a new doctor is appended after demoting everyone when primary, and is then the only primary |
| PatientModel.AssignAsWrittenThenSaved | server/models/Patient.js:234-292 | on a list with at most one primary, assigning and saving as written keeps at most one primary, leaves the doctor assigned, and makes a newly assigned primary doctor the primary doctor |
| PatientModel.Assign | server/models/Patient.js:266-292 | an assigned doctor's entry is updated in place; otherwise exactly one new entry is appended |
| PatientModel.AssignUpdatesOrAppends | server/models/Patient.js:268-288 | the doctor's entry gets the new flag and specialisation and keeps its date; other entries lose primacy exactly when the new one is primary |
| PatientModel.AssignedPrimaryIsTheOnlyPrimary | server/models/Patient.js:277-288 | after assigning a doctor as primary, that doctor is the only primary and the primary doctor |
| PatientModel.AssignNonPrimaryKeepsFlags | server/models/Patient.js:283-288 | assigning a non-primary doctor keeps the at-most-one-primary invariant |
| PatientModel.WithoutDoctor | server/models/Patient.js:295-300 | removes exactly the doctor's entries |
| PatientModel.WithoutDoctorKeepsOrder | server/models/Patient.js:296-298 | the removal distributes over concatenation, so the remaining entries keep their order |
| PatientModel.WithoutDoctorKeepsPrimaryBound | server/models/Patient.js:295-300 | the removal never adds a primary |
| PatientModel.AtMostOnePrimaryCount | server/models/Patient.js:236-237 | at most one primary entry exactly when the primary count is at most one |
| PatientModel.ActiveMedicationsCount | server/models/Patient.js:216-218 | counts the active medications; equal to the list's length exactly when all are active |
| PatientModel.ActiveCountAppend | server/models/Patient.js:216-218 | appending a medication adds one to the count exactly when it is active |
| PatientModel.Patient.constructor | server/models/Patient.js:3-197 | a new patient belongs to its user and has no doctors, no medications and no vital readings |
| PatientModel.Patient.SaveAssignedDoctors | server/models/Patient.js:234-247 | saving a changed doctor list runs the hook as written over it; an unchanged list is stored as it is |
| PatientModel.Patient.AssignDoctor | server/models/Patient.js:266-292 | the list becomes the written hook applied to the written assignment; it keeps at most one primary, the doctor is assigned, and a newly assigned primary doctor is the primary doctor |
| PatientModel.Patient.RemoveDoctor | server/models/Patient.js:295-300 | the list loses exactly the doctor's entries |
| PatientModel.Patient.AddMedication | server/models/Patient.js:303-310 | saved exactly when name, dosage and frequency are given; the medication is then appended (active by default), otherwise nothing changes |
| PatientModel.Patient.UpdateVitals | server/models/Patient.js:313-332 | only the named reading changes; it is stamped with the time and recorder, keeping its unit when none is given |
| MedicalRecordModel.PrimaryDiagnosisCount | server/models/MedicalRecord.js:343-356 | counts the primary diagnoses; zero exactly when none is primary |
| MedicalRecordModel.FirstPrimaryDiagnosis | server/models/MedicalRecord.js:316-318 | the first primary diagnosis, or none exactly when there is none |
| MedicalRecordModel.PrimaryDiagnosis | server/models/MedicalRecord.js:316-318 | none exactly for an empty list; a primary one when any exists; otherwise the first |
| MedicalRecordModel.DiagnosisHookAsWritten | server/models/MedicalRecord.js:343-356 | the hook as written keeps every condition and changes only flags |
| MedicalRecordModel.DiagnosisHookAsWrittenLeavesIndexZero | server/models/MedicalRecord.js:343-356 | as written, several primaries leave at most the first entry primary, whichever was primary before |
| MedicalRecordModel.DiagnosisHookAsWrittenDropsEveryPrimary | server/models/MedicalRecord.js:343-356 | for `[a, b primary, c primary]`, the primary diagnosis moves from b to a |
| MedicalRecordModel.DiagnosisHook | server/models/MedicalRecord.js:343-356 | the corrected hook keeps the list's length |
| MedicalRecordModel.DiagnosisHookKeepsFirstPrimary | server/models/MedicalRecord.js:343-356 | the corrected hook leaves at most one primary, keeps the primary diagnosis and every condition |
| MedicalRecordModel.AuditHook | server/models/MedicalRecord.js:359-376 | adds at most one entry, by the record's doctor, stamped now |
| MedicalRecordModel.AuditHookCases | server/models/MedicalRecord.js:359-376 | a new record gets "created", a modified one "updated", an unmodified one nothing |
| MedicalRecordModel.WithoutUser | server/models/MedicalRecord.js:421-423 | removes exactly the user's shares |
| MedicalRecordModel.WithoutUserKeepsOrder | server/models/MedicalRecord.js:421-423 | the removal distributes over concatenation, so other shares keep their order |
| MedicalRecordModel.WithoutUserHasNoShare | server/models/MedicalRecord.js:421-423 | afterwards the user has no share and every other user has as many as before |
| MedicalRecordModel.ShareListReplaces | server/models/MedicalRecord.js:419-434 | sharing leaves the user exactly one share, the new one, last; other users keep theirs in order |
| MedicalRecordModel.ShareList | server/models/MedicalRecord.js:419-434 | the new share comes last, and before it stand exactly the old shares of other users |
| MedicalRecordModel.MedicalRecord.constructor | server/models/MedicalRecord.js:343-376 | a new record has its author and content, its diagnoses passed through the hook as written (so at most one is primary), exactly the `attachments` and `sharedWith` the creating body carries, and that body's `auditLog` followed by the hook's "created" entry, which is last |
| MedicalRecordModel.MedicalRecord.AddAuditLog | server/models/MedicalRecord.js:407-416 | appends exactly the described entry, followed by the audit hook's "updated" entry, since the save sees a modified document |
| MedicalRecordModel.MedicalRecord.HasAttachments | server/models/MedicalRecord.js:330-332 | true exactly when the record holds some attachment |
| MedicalRecordModel.MedicalRecord.AddAttachment | server/models/MedicalRecord.js:437-444 | saved exactly when name, path and an enumerated type are given; then the attachment and an "updated" entry are appended, otherwise nothing changes |
| MedicalRecordModel.MedicalRecord.ShareWith | server/models/MedicalRecord.js:419-434 | saved exactly when every permission is in the enumeration; then the share list is replaced and an "updated" entry appended, otherwise nothing changes |
| AccessControl.SecondField | server/middleware/auth.js:11 | the second space-separated field, which never contains a space |
| AccessControl.BearerToken | server/middleware/auth.js:10-12 | a token is read only from a header that starts with "Bearer", and is non-empty and space-free |
| AccessControl.BearerTokenRoundTrip | server/middleware/auth.js:10-12 | a "Bearer <t>" header yields t |
| AccessControl.Protect | server/middleware/auth.js:5-66 | authenticated exactly when a token is present and verifies to an existing, active, unlocked user, with that user's id and role; every refusal is a 401 |
| AccessControl.LockedAccountIsRejected | server/middleware/auth.js:44-50 | a valid token of a locked account is refused |
| AccessControl.Authorize | server/middleware/auth.js:69-87 | passes exactly for a user whose role is listed; 401 without a user, 403 for an unlisted role |
| AccessControl.CanAccessPatient | server/middleware/auth.js:122-185 | admins pass; a patient passes exactly for their own patient record; a doctor exactly when assigned (404 for a missing patient); any other role gets a 403 |
| AccessControl.AssignmentGrantsPatientAccess | server/middleware/auth.js:149-173 | assigning a doctor, saved through the hook as written, grants them the patient, and removing them withdraws it |
| AccessControl.CanAccessRecord | server/middleware/auth.js:188-254 | 404 without a record; admins pass; a patient exactly for their own records; a doctor exactly as author, assigned doctor or holder of a live share; any other role gets a 403 |
| AccessControl.LoadRecord | server/middleware/auth.js:189-193 | a record is loaded exactly when the named parameter is present and names a stored record, and it is that record |
| AccessControl.RecordMiddlewareAsWrittenFindsNothing | server/middleware/auth.js:189-199 | behind a route that declares `:id`, reading `recordId` finds nothing, so every request is answered 404 |
| AccessControl.RouteParamDecidesOnRequestedRecord | server/middleware/auth.js:189-254 | reading the declared parameter, the decision is the one on the requested record |
| AccessControl.RecordAccessIgnoresPermissions | server/middleware/auth.js:223-242 | the permissions in a share never change the access decision |
| AccessControl.ShareGrantsRecordAccess | server/middleware/auth.js:228-231 | a doctor who is shared a record without expiry may open it |
| AccessControl.ExpiredShareIsRefused | server/middleware/auth.js:228-247 | a doctor whose shares have all expired, and who is neither author nor assigned, gets a 403 |
| AccessControl.RateLimiter.constructor | server/middleware/auth.js:265-267 | the limiter starts with no recorded attempts |
| AccessControl.RateLimiter.Check | server/middleware/auth.js:257-283 | refuses with 429 exactly when the key already has five attempts in the last fifteen minutes, and then records nothing; otherwise it keeps the recent attempts and records this one |
| AccessControl.SixthOperationInWindowIsRefused | server/middleware/auth.js:262-277 | five attempts within the window make the next one refused |
| AccessControl.AuditStamp | server/middleware/auth.js:286-305 | the request always proceeds, stamped with the action, the time, the user's id if any, the request IP when present and otherwise the connection's address, and the user agent |
| RecordRoutes.UpdateAllowedExactly | server/routes/recordRoutes.js:113-131 | an update passes exactly for a doctor who is the author or holds a live write share |
| RecordRoutes.AdminsCannotUpdate | server/routes/recordRoutes.js:113-131 | an admin is refused by the doctor-only role check before the admin exemption is reached |
| RecordRoutes.DeleteAllowedExactly | server/routes/recordRoutes.js:158-166 | deletion passes exactly for admins and the authoring doctor; another doctor with access gets a 403 |
| RecordRoutes.ShareAllowedExactly | server/routes/recordRoutes.js:186-203 | sharing passes exactly for the authoring doctor naming a user; a missing user id is a 400 |
| RecordRoutes.ViewOf | server/routes/recordRoutes.js:91-108 | the access view of a record takes its author and shares, and its patient's user and doctors |
| RecordRoutes.ShareRoute | server/routes/recordRoutes.js:186-217 | a refused request changes neither the shares nor the audit log; past the checks, the save fails with 500 exactly when a permission is outside the enum, and otherwise the user's share is replaced and the audit hook appends its "updated" entry |
| RecordRoutes.AttachmentRoute | server/routes/recordRoutes.js:222-253 | 201 exactly for a doctor with access and complete, valid file data, and then exactly that attachment is appended and the save hook adds one "updated" audit entry; otherwise attachments and audit log are unchanged; missing data is a 400; shares and diagnoses never change |
| RecordRoutes.ViewRoute | server/routes/recordRoutes.js:91-108 | a refused view changes nothing; an allowed one answers 200 and appends exactly one "viewed" audit entry with the caller and IP, then the hook's "updated" entry; shares, attachments and diagnoses never change |
| RecordRoutes.CreateRoute | server/routes/recordRoutes.js:63-86 | 201 exactly for a doctor whose body passes validation, draft and arrays alike (a failure is a 500); the new record is authored by the caller whatever the body says, holds the draft's diagnoses after the save hook, and keeps the body's `attachments` and `sharedWith` as given and its `auditLog` followed by the "created" entry; otherwise no record |
| RecordRoutes.BodyShareGrantsAccess | server/routes/recordRoutes.js:65-71 | a doctor named in a share without expiry in the create body may read the new record, though no share route ran |
| RecordRoutes.PatientRecordsAllowedExactly | server/routes/recordRoutes.js:258-274 | doctors and admins pass and patients only for themselves; an unassigned doctor passes although `canAccessPatient` would refuse them |
| RecordRoutes.BuildFilter | server/routes/recordRoutes.js:12-27 | the query filter matches a record exactly when the listing rules select it |
| RecordRoutes.SearchNeedsQuery | server/routes/recordRoutes.js:295-304 | the search handler, once a request reaches it (only with `/search` registered before `/:id`, see the findings), passes exactly for doctors and admins with a non-empty query; without one it is a 400 |
| RecordRoutes.Params | server/routes/recordRoutes.js:91 | every parameter of the pattern is bound, and only the pattern's parameters |
| RecordRoutes.Dispatch | server/routes/recordRoutes.js:4-295 | the request goes to the first registered route whose pattern matches, with that route's parameters, and to none exactly when no pattern matches; literal segments match ignoring case, as the default router does |
| RecordRoutes.PatientRouteIgnoresCase | server/routes/recordRoutes.js:4-258 | `GET /PATIENT/x`, in any letter case of "patient", reaches the patient-records route with `patientId` = x |
| RecordRoutes.SearchRouteUnreachable | server/routes/recordRoutes.js:91-295 | as registered, no path is dispatched to the search handler |
| RecordRoutes.SearchAnsweredAsMissingRecord | server/routes/recordRoutes.js:91-295 | `GET /search` goes to the single-record route with `id` = "search", and `canAccessRecord` answers 404 "Medical record not found" whoever asks |
| RecordRoutes.SearchFirstReachesHandler | server/routes/recordRoutes.js:91-295 | with `/search` registered before `/:id`, `GET /search` in any letter case reaches the search handler and every other single segment still reaches `/:id` |
| RecordRoutes.ListAndAccessDisagree | server/routes/recordRoutes.js:16-27 | the list shows a record to a doctor with an expired share, who may not open it, and hides it from an assigned doctor, who may |
| Uploads.AcceptedImages | server/routes/uploadRoutes.js:39-47 | among accepted types, the `image/` ones are exactly JPEG, PNG and GIF |
| Uploads.ClassifyAccepted | server/routes/uploadRoutes.js:296-308 | each accepted type is classified as image, PDF, document or text as its family says |
| Uploads.GetFileType | server/routes/uploadRoutes.js:296-308 | no accepted type is "other", and each family gets its kind |
| Uploads.GetContentType | server/routes/uploadRoutes.js:311-324 | a known extension gets its accepted MIME type and every other one gets `application/octet-stream` |
| Uploads.EveryAcceptedTypeHasAnExtension | server/routes/uploadRoutes.js:311-324 | every accepted MIME type is served for some known extension |
| Uploads.ContentTypeIsCaseSensitive | server/routes/uploadRoutes.js:201-207 | `.PDF` is unknown until lower-cased |
| Uploads.Extname | server/routes/uploadRoutes.js:30 | the extension is empty or the dot-led, dot-free tail of the name |
| Uploads.BaseName | server/routes/uploadRoutes.js:201 | the last segment has no separator, and a name without one is its own last segment |
| Uploads.PathExtname | server/routes/uploadRoutes.js:201 | for a name without separators, the extension is that of `Uploads.Extname` |
| Uploads.UniqueSuffix | server/routes/uploadRoutes.js:29 | the suffix has no dot or path separator |
| Uploads.StoredName | server/routes/uploadRoutes.js:27-33 | the stored name is the base, a dash, the suffix and the extension, and remains a plain name |
| Uploads.StoredNameKeepsExtension | server/routes/uploadRoutes.js:27-33 | the stored name has the original extension |
| Uploads.UploadsDir | server/routes/uploadRoutes.js:18 | the uploads directory is the sibling `uploads` of the routes directory |
| Uploads.TraversalEscapesUploads | server/routes/uploadRoutes.js:186-197 | a name `../f` resolves outside the uploads directory |
| Uploads.PlainNamesStayInUploads | server/routes/uploadRoutes.js:189 | a plain name resolves to itself inside the uploads directory |
| Uploads.StoredPath | server/routes/uploadRoutes.js:16-33 | a stored file lies in the uploads directory under its stored name |
| Uploads.StoredFileIsSafe | server/routes/uploadRoutes.js:16-64 | a file that passes the checks has an accepted type, at most 10 MB, and lies in the uploads directory |
| Uploads.NoRejectionExactlyWhenAcceptable | server/routes/uploadRoutes.js:56-64 | no part is rejected exactly when all parts fit the field, the count, the size and the type filter |
| Uploads.Receive | server/routes/uploadRoutes.js:56-64 | multer fails exactly on the first rejection; otherwise every part is stored |
| Uploads.ReceivedExactlyWhenAcceptable | server/routes/uploadRoutes.js:37-64 | files are received exactly when every part is acceptable, and each is then safe |
| Uploads.UploadErrorReply | server/routes/uploadRoutes.js:327-351 | every upload error is a 400; the three known multer codes get their fixed messages, and every other error its own message, or "File upload error" when it has none |
| Uploads.Infos | server/routes/uploadRoutes.js:114-122 | one description per file, with its name, path, kind, size, type, uploader and time |
| Uploads.ReceivedFilesAreSafe | server/routes/uploadRoutes.js:69-122 | every described file is a safe upload of its own part |
| Uploads.UploadRoute | server/routes/uploadRoutes.js:69-136 | success only for doctors and admins, with every described file a safe upload; others get a 403 and no data |
| Uploads.ProfileOutcome | server/routes/uploadRoutes.js:141-181 | a new picture path exactly on success, the stored path of the single part; an accepted non-image is refused |
| Uploads.ProfileRoute | server/routes/uploadRoutes.js:141-181 | the user's picture changes exactly on success, to the stored path |
| Uploads.DownloadRoute | server/routes/uploadRoutes.js:186-220 | served exactly when the path the name resolves to exists, with the content type of its lower-cased extension, otherwise 404; for a plain name that path is the entry of the uploads directory |
| Uploads.DownloadServesOutsideUploads | server/routes/uploadRoutes.js:186-212 | asked for `../f`, the route serves `f` beside the uploads directory |
| Uploads.DeleteRoute | server/routes/uploadRoutes.js:225-252 | only doctors and admins delete, and only an existing resolved path; exactly that path is removed, and for a plain name it lies in the uploads directory |
| Uploads.DeleteRemovesOutsideUploads | server/routes/uploadRoutes.js:225-244 | a doctor asking to delete `../f` removes `f` beside the uploads directory |
| Uploads.InfoRoute | server/routes/uploadRoutes.js:257-293 | details exactly when the resolved path exists, with the extension of the name's last segment and its kind; otherwise 404; for a plain name the path is the entry of the uploads directory |
| Uploads.InfoAndDownloadDisagreeOnCase | server/routes/uploadRoutes.js:186-293 | `scan.PDF` is served as a PDF but described as "other" |
| Uploads.InfoAgreesWithDownloadOnLowerCase | server/routes/uploadRoutes.js:186-293 | for a lower-case extension, the described kind is that of the served content type |
| AuthController.MissingCredentialsComeFirst | server/controllers/authController.js:116-121 | a missing email or password is refused with 400 before anything else |
| AuthController.UnknownEmailLooksLikeWrongPassword | server/controllers/authController.js:126-160 | an unknown email and a wrong password get the same reply |
| AuthController.LockedAccountIgnoresPassword | server/controllers/authController.js:134-139 | a locked account is refused with 423 whatever the password, and no failure is recorded |
| AuthController.DeactivatedBeforePassword | server/controllers/authController.js:142-147 | a deactivated account is refused before the password is compared, with no change |
| AuthController.LoginCountsFailures | server/controllers/authController.js:150-169 | a wrong password records one failure (restarting after an expired lock); success clears the lock and stamps the login time |
| AuthController.FailedLoginsOnlyTouchLock | server/controllers/authController.js:152-160 | repeated wrong passwords change only the lock state |
| AuthController.FiveWrongPasswordsLockTheAccount | server/controllers/authController.js:111-175 | five wrong passwords on a clean, active account lock it, so that for two hours even the right password is refused |
| AuthController.CleanAll | server/controllers/authController.js:22-27 | sanitising every registration field keeps their number |
| AuthController.Clean | server/controllers/authController.js:22-27 | a sanitised field is no longer than the input and holds no angle bracket |
| AuthController.CleanAllPointwise | server/controllers/authController.js:22-27 | each field is sanitised on its own |
| AuthController.RegistrationDraft | server/controllers/authController.js:51-80 | the document has a lower-case email and carries the doctor or patient fields only for that role |
| AuthController.RegisteredNameIsTrimmed | server/models/User.js:6-9 | the name a registration stores is one the `trim` setter has run on: trimming it again changes nothing |
| AuthController.TrimmedNameIsJudged | server/controllers/authController.js:22-27 | a name that is one character long once sanitised and trimmed (such as `"<  a"`, sanitised to `"  a"`) is reported as too short, and the registration is refused |
| AuthController.RegisterChecksInOrder | server/controllers/authController.js:17-106 | a weak password is refused first, then a taken email; registration succeeds only with a strong password, a free email and licence, and a valid document |
| AuthController.RegistrationNeedsRoleFields | server/controllers/authController.js:51-77 | a registered doctor gave specialisation and licence; a registered patient gave birth date, gender, blood type and emergency contact |
| AuthController.SchemaFailureIsBadRequest | server/controllers/authController.js:80 | a document the schema rejects is answered with 400 |
| AuthController.DuplicateLicenceIsBadRequest | server/controllers/authController.js:80 | a taken licence number is answered with 400 "License number is already registered" |
| AuthController.CurrentPasswordCheckedFirst | server/controllers/authController.js:233-275 | a wrong current password is refused before the new one is judged |
| AuthController.ChangedPasswordReplacesOld | server/controllers/authController.js:233-275 | after a change, exactly the new password matches the stored hash, and the old one no longer does |
| AuthController.ResetChecksPasswordFirst | server/controllers/authController.js:329-376 | a weak new password is refused even with a valid link; a reset succeeds exactly with a strong password and a live link |
| AuthController.ResetMail | server/controllers/authController.js:311-320 | the reply always reports the mail, and includes the reset link exactly in development |
| AuthController.EmailIndex | server/models/User.js:218-220 | the first account with the key, or none exactly when no account has it |
| AuthController.IdIndex | server/controllers/authController.js:437-452 | the first account with the id, or none exactly when no account has it |
| AuthController.SlotIndex | server/controllers/authController.js:352-357 | the first slot that accepts the token now, or none exactly when none does |
| AuthController.ResetSlots | server/controllers/authController.js:352-357 | the reset slots of the accounts, in order |
| AuthController.VerificationSlots | server/controllers/authController.js:386-398 | the verification slots of the accounts, in order |
| AuthController.SpentTokenFindsNobody | server/controllers/authController.js:352-369 | a token whose digest no account holds is accepted by none, at any time |
| AuthController.ResetLinkFindsItsHolder | server/controllers/authController.js:301-357 | a fresh reset link finds its holder and nobody else until it expires, and nobody afterwards |
| AuthController.UserStore.OneAccountChanged | server/controllers/authController.js:163-169 | a change to one account that clears or keeps its secrets keeps the store's invariant and changes nothing else |
| AuthController.UserStore.ResetTokenSpent | server/controllers/authController.js:367-372 | once the holder's reset slot is cleared, no account holds the token |
| AuthController.UserStore.VerificationTokenSpent | server/controllers/authController.js:401-409 | once the holder's verification slot is cleared, no account holds the token |
| AuthController.UserStore.ResetSecretStored | server/controllers/authController.js:301-306 | storing a fresh reset secret on one account keeps the store's invariant |
| AuthController.UserStore.AccountAdded | server/controllers/authController.js:80-97 | adding an account with a fresh email, id and licence keeps the store's invariant |
| AuthController.UserStore.Login | server/controllers/authController.js:111-175 | the reply and the change follow the login checks in order: only a wrong password (one failure) and a success (lock cleared, login stamped, token issued) change the matched account, and nothing else changes |
| AuthController.UserStore.Register | server/controllers/authController.js:17-106 | a weak password gets the broken rules, other refusals their reply, and refusals change nothing; success adds exactly one account with a live verification secret and issues a 201 token, plus an empty Patient record for a patient |
| AuthController.UserStore.RegisterAccount | server/controllers/authController.js:80-102 | on an accepted registration, adds exactly the new account and, for a patient, its Patient record, and answers 201 |
| AuthController.UserStore.CreateAccount | server/controllers/authController.js:80-97 | appends exactly one account built from the document, with the hashed password and a live verification secret, keeping emails, ids and licences distinct |
| AuthController.UserStore.UpdatePassword | server/controllers/authController.js:233-275 | each refusal has its reply and changes nothing; a change replaces only the caller's hash and issues a token |
| AuthController.UserStore.ForgotPassword | server/controllers/authController.js:280-324 | missing email is a 400 and an unknown one a 404, with no change; otherwise only that account gets a fresh ten-minute reset secret, and the reply is the reset mail |
| AuthController.UserStore.ResetPassword | server/controllers/authController.js:329-376 | refusals change nothing; a reset replaces only the link holder's hash, clears the slot so no account holds the token any more, and issues a token |
| AuthController.UserStore.VerifyEmail | server/controllers/authController.js:381-413 | an unmatched link is refused with no change; otherwise only the holder becomes verified and the token is spent |
| AuthController.UserStore.RefreshToken | server/controllers/authController.js:437-452 | a token is re-issued exactly for an existing active account |

## Findings

| source | as written | input that shows it | evidently intended | confidence | as-written member | corrected member |
|---|---|---|---|---|---|---|
| server/utils/auth.js:180-188 | one pass of each replacement, so removing an inner match can create a new one | `javajavascript:script:` becomes `javascript:` | the result holds no `javascript:`, `on…=` or angle bracket | not executed | AuthUtils.SanitizeAsWrittenLeavesProtocol | AuthUtils.SanitizedIsClean |
| server/models/Patient.js:234-247 | with several primaries, the hook demotes every primary entry after index 0, so when the first entry is not primary none stays primary | doctors `[a, b primary, c primary]` end with no primary, although `primaryDoctor` was b | keep exactly the first primary | not executed | PatientModel.HookAsWrittenDropsEveryPrimary | PatientModel.PrimaryHookKeepsFirstPrimary |
| server/models/Patient.js:266-292 | re-assigning an existing doctor as primary sets the flag without demoting the others, and the hook then keeps the old primary | `[a primary, b]`, then assign b as primary: a stays primary | the assigned doctor becomes the only primary | not executed | PatientModel.ExistingPrimaryRequestReverted | PatientModel.AssignedPrimaryIsTheOnlyPrimary |
| server/models/MedicalRecord.js:343-356 | with several primaries, the hook demotes every primary diagnosis after index 0, and the `primaryDiagnosis` virtual then falls back to the first diagnosis | `[a, b primary, c primary]`: the primary diagnosis moves from b to a | keep exactly the first primary diagnosis | not executed | MedicalRecordModel.DiagnosisHookAsWrittenDropsEveryPrimary | MedicalRecordModel.DiagnosisHookKeepsFirstPrimary |
| server/routes/uploadRoutes.js:186-293 | the file name from the URL is joined to the uploads path unchecked | `../f` (the request path `..%2Ff`) reaches a file beside the uploads directory | only plain names inside the uploads directory | not executed | Uploads.TraversalEscapesUploads | Uploads.PlainNamesStayInUploads |
| server/routes/recordRoutes.js:91-295 | `/:id` is registered before `/search`, and a parameter matches any segment | `GET /api/records/search?q=x` by an admin: `canAccessRecord` answers 404 and the search handler never runs | `/search` answers searches | not executed | RecordRoutes.SearchAnsweredAsMissingRecord | RecordRoutes.SearchFirstReachesHandler |
| server/middleware/auth.js:189-193 | `canAccessRecord` reads `req.params.recordId`, but the record routes declare `:id` | any request to `GET /:id`: nothing is loaded and the answer is 404 | decide on the record the route addresses | not executed | AccessControl.RecordMiddlewareAsWrittenFindsNothing | AccessControl.RouteParamDecidesOnRequestedRecord |

The operations of the model run the code as written: `AuthUtils.SanitizeInput` makes one pass, `RecordRoutes.Dispatch` tries the GET routes in their registered order, `PatientModel.Patient.AssignDoctor` and `MedicalRecordModel.MedicalRecord.constructor` run the hooks as written, and the download, delete and info routes resolve the name unchecked. The corrected definitions stand beside them. There is one exception. The record routes are modelled on the record they address, because as written every one of them answers 404; `AccessControl.RecordMiddlewareAsWrittenFindsNothing` states that.

## Where the design description and the code differ

The model follows the code in each case, with one exception: the record routes decide on the record they address (see the "Which record is checked" bullet and the findings).

- **Failure after a lock.** The design says a failure after a lock that is "expired or unset" restarts the count. The code restarts it only when a lock is set and already in the past (`server/models/User.js:193-198`). Without a lock, the count is incremented.
- **Locking.** The design says the fifth failure locks the account. The code also requires that the account is not already locked (`server/models/User.js:203-205`).
- **Resetting the failure count.** The design says success clears the counter unconditionally. The code clears it only when there were failures (`server/controllers/authController.js:163-165`), and that is equivalent, because a lock implies failures.
- **Stack traces.** The design says unexpected errors carry no internal detail. The error handler adds the stack in development (`server/middleware/errorHandler.js:89-93`).
- **Re-assigning a primary doctor.** The design says a second primary assignment demotes the earlier primary. For an already-assigned doctor the code does not; see the findings.
- **Which record is checked.** `canAccessRecord` reads `req.params.recordId`, while the record routes name the parameter `:id` (`server/middleware/auth.js:189`). As written it loads nothing and answers 404. The model states that in `AccessControl.RecordMiddlewareAsWrittenFindsNothing`. Its record routes decide on the record the route has loaded instead.
- **Reset and lockout.** `resetPassword` does not clear the failure count or the lock.
- **Inactive accounts.** `forgotPassword` issues a reset secret to inactive accounts as well.
- **Search.** The design lists `GET /api/records/search` for doctors and admins. The code registers it after `GET /:id` (`server/routes/recordRoutes.js:91`, `:295`), so `/:id` takes every search request. `RecordRoutes.SearchRouteUnreachable` states that no request reaches the search handler. `RecordRoutes.SearchDecision` models the handler for the router with `/search` first.
- **Sharing at creation.** The design grants non-owner access through `sharedWith` entries. The create route spreads the request body into the new document (`server/routes/recordRoutes.js:65-71`), so the body's `sharedWith`, `attachments` and `auditLog` are stored as given. A create request can therefore share the record from the start and put entries of its own before the "created" entry. `RecordRoutes.CreateRoute` keeps them, and `RecordRoutes.BodyShareGrantsAccess` states that such a share gives access.
- **Routing and letter case.** The router from `express.Router()` is not case sensitive (`server/routes/recordRoutes.js:4`), so `GET /PATIENT/x` is the patient-records route. `RecordRoutes.SegmentMatches` compares literal segments after lower-casing.
- **Role check and stored role.** `register` checks the raw `role` field for the doctor and patient requirements but stores the sanitised one (`server/controllers/authController.js:22-77`).

## Left out

- **Handlers not in the model:** `getMe`, `updateDetails`, `logout` and `optionalAuth` read or write profile fields outside the authentication state. The model does not cover them.
- **Helpers not in the model:** `parseUserAgent`, `createAuditEntry`, `getSecurityHeaders`, `generateRefreshToken` and `generateSessionId` build values no modelled operation uses.
- **Missing body fields:** an absent string field is modelled as an empty string. For most handlers that is what the code does with it. `register` is the exception: there a missing email or password, or a non-string one, makes `toLowerCase` or `validatePassword` throw, and the error handler answers 500.
- AuthController.UserStore.Register: answers a missing email or password as an empty one, with 400 (weak password or schema error), where the code answers 500 for the reason above.
- AuthController.RegistrationDraft: takes every field as a string, so it does not model the exception `register` throws on a missing or non-string email.
- **Record lookup:** the record routes take the record they address rather than the one `canAccessRecord` loads. As written that is none (see the findings).
- PatientModel.Patient.AssignDoctor: promises that the assigned doctor becomes the primary doctor only for a doctor who was not yet assigned. As written, re-assigning an assigned doctor as primary can leave the earlier primary in place (see the findings).
- PatientModel.Patient.SaveAssignedDoctors: promises at most one primary after the save, but not that the first primary survives. As written, the hook can leave no primary at all (see the findings).
- AuthUtils.SanitizeInput: promises no angle brackets only. As written, one pass can leave `javascript:` or `on…=` behind; freedom from both is proved of the repeated pass (`AuthUtils.SanitizedIsClean`).
- Uploads.DeleteRoute: promises that only the resolved path is removed, and that it lies in the uploads directory only for a plain name. As written, `../f` removes a file outside it (see the findings).
- RecordRoutes.SegmentMatches: lower-cases with the ASCII-only `Text.Lower`, so it treats non-ASCII letters in a path as case sensitive where the router folds them.
- Text.Lower: lower-cases ASCII letters only. `toLowerCase` also maps non-ASCII letters (Unicode case mapping), which the model leaves unchanged.
- UserModel.EmailKey: inherits the ASCII-only lower-casing of `Text.Lower`, so two addresses that differ only in the case of a non-ASCII letter are distinct keys in the model. Its promise that the key keeps the email's length holds for that lower-casing only. `toLowerCase` can change the length: `İ` becomes two code units.
- AuthController.RegistrationDraft: lower-cases the email with the same ASCII-only `Text.Lower`.
- AuthUtils.ValidatePassword: counts the length in code points, while JavaScript's `length` counts UTF-16 code units, so a password with characters outside the Basic Multilingual Plane can be long enough in the code and too short in the model.
- Crypto.SignToken: fixes the lifetime at the default `7d`. The `JWT_EXPIRE` environment variable, which can change it, is not modelled.
- AuthUtils.SendTokenResponse: fixes the cookie lifetime at the default of 7 days. `JWT_COOKIE_EXPIRE` is not modelled, and the token and the cookie expire together only while both variables keep their defaults.
- **Email format:** the email pattern of the user schema is not modelled. An email is only required to be present.
- **Crypto:** bcrypt, SHA-256, JWT signing and verification, and `crypto.randomBytes` are symbolic terms or parameters. The token verdict of `protect` is an input.
- **Database:** queries are pure lookups over the modelled documents. Unique indexes become store invariants. Pagination, sorting, population and counting in the list and search routes are not modelled.
- **Update route:** `findByIdAndUpdate` in the record update route is modelled by its permission check only. It bypasses the save hooks.
- **Untracked fields:** the Patient `status` and `riskLevel`, the virtuals `age`, `bmi` and `recordAge`, and `createdAt`/`updatedAt` are not modelled.
- **Error paths and I/O:** the generic 500 replies of the catch blocks, stack text, logging, mail sending, cookies' other attributes, the file system and streaming are left out. File existence is a set of paths.
- **Other code:** the client application, `patientRoutes`, `userRoutes`, `authRoutes`, `server.js` and the not-found middleware are not part of this model.
- AuthUtils.RemoveProtocol: states only that the pass never adds characters. What it removes is proved through `AuthUtils.FixpointIsClean` on the repeated pass.
- AuthUtils.RemoveHandlers: states only that the pass never adds characters, for the same reason.
- Text.Split: states only that there is at least one field. The two-field case the bearer header uses is `Text.SplitAtOnlySeparator`.
- AuthController.CleanAll: states only the number of fields. What each field becomes is `AuthController.CleanAllPointwise`.
