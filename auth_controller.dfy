/** The account handlers (server/controllers/authController.js) as operations
    on a store of user documents: registration, login with the lockout
    counter, password change, the password-reset and e-mail verification
    secrets, and token refresh. Each handler's decision is a pure function of
    the request and the account it finds; the methods apply that decision to
    the stored documents. Fresh identifiers, salts, random secrets and the
    clock are parameters. */
module AuthController {
  import opened Common
  import opened Text
  import opened Crypto
  import opened Secrets
  import opened UserModel
  import opened PatientModel
  import opened AuthUtils
  import opened ErrorHandler

  // ---------------------------------------------------------------------------
  // Replies
  // ---------------------------------------------------------------------------

  /** What a handler answers: a plain message, a password-rule failure with
      its list of broken rules, a signed-in response with a session token, an
      error passed to the error middleware, or the reset-mail acknowledgement
      (which carries the link only in development). */
  datatype Response =
    | Message(status: int, message: string)
    | PasswordRejected(message: string, errors: seq<string>)
    | SignedIn(token: TokenResponse)
    | Failure(error: ErrorResponse)
    | ResetEmailSent(resetUrl: Option<string>)

  function StatusOf(r: Response): int {
    match r
    case Message(s, _) => s
    case PasswordRejected(_, _) => BadRequest
    case SignedIn(t) => t.status
    case Failure(e) => e.status
    case ResetEmailSent(_) => Ok
  }

  const InvalidCredentials := "Invalid credentials"
  const LockedMessage := "Account is temporarily locked due to multiple failed login attempts. Please try again later."
  const DeactivatedMessage := "Account is deactivated. Please contact support."

  // ---------------------------------------------------------------------------
  // The mutable part of an account
  // ---------------------------------------------------------------------------

  /** The fields a handler may change on a user document. */
  datatype Account = Account(
    name: string, phone: string, isActive: bool, isEmailVerified: bool,
    profilePicture: Option<string>, password: PasswordHash, pendingPassword: Option<string>,
    lock: LockState, lastLogin: Option<Millis>, reset: SecretSlot, verification: SecretSlot)

  function Snapshot(u: User): Account
    reads u
  {
    Account(u.name, u.phone, u.isActive, u.isEmailVerified, u.profilePicture, u.password,
            u.pendingPassword, u.LockStatus(), u.lastLogin, u.reset, u.verification)
  }

  // ---------------------------------------------------------------------------
  // login
  // ---------------------------------------------------------------------------

  /** Which branch `login` takes. */
  datatype LoginResult = MissingCredentials | NoSuchUser | LockedOut | Deactivated | WrongPassword | LoggedIn

  /** The checks of `login` in their order: both fields present, an account
      for the address, not locked, active, the password matches. */
  function LoginStep(email: string, password: string, found: Option<Account>, now: Millis): LoginResult {
    if email == "" || password == "" then MissingCredentials
    else if found.None? then NoSuchUser
    else if LockActive(found.value.lock, now) then LockedOut
    else if !found.value.isActive then Deactivated
    else if !BcryptCompare(password, found.value.password) then WrongPassword
    else LoggedIn
  }

  /** What the branch does to the account: a wrong password records one
      failure; a success clears the counter and the lock and stamps
      `lastLogin`; every other branch leaves the account alone. */
  function LoginEffect(a: Account, r: LoginResult, now: Millis): Account {
    match r
    case WrongPassword => a.(lock := AfterFailure(a.lock, now))
    case LoggedIn => a.(lock := Unlocked, lastLogin := Some(now))
    case _ => a
  }

  /** The reply of every branch but a success. */
  function LoginRefusal(r: LoginResult): Response
    requires r != LoggedIn
  {
    match r
    case MissingCredentials => Message(BadRequest, "Please provide an email and password")
    case NoSuchUser => Message(Unauthorized, InvalidCredentials)
    case LockedOut => Message(Locked, LockedMessage)
    case Deactivated => Message(Unauthorized, DeactivatedMessage)
    case WrongPassword => Message(Unauthorized, InvalidCredentials)
  }

  /** A missing field is refused before any account is looked at. */
  lemma MissingCredentialsComeFirst(email: string, password: string, found: Option<Account>, now: Millis)
    requires email == "" || password == ""
    ensures LoginStep(email, password, found, now) == MissingCredentials
    ensures LoginRefusal(MissingCredentials).status == BadRequest
  {
  }

  /** An unknown address and a wrong password get the same answer, so a
      caller cannot tell which accounts exist. */
  lemma UnknownEmailLooksLikeWrongPassword(email: string, p1: string, p2: string, a: Account, now: Millis)
    requires LoginStep(email, p2, Some(a), now) == WrongPassword && p1 != ""
    ensures LoginStep(email, p1, None, now) == NoSuchUser
    ensures LoginRefusal(NoSuchUser) == LoginRefusal(WrongPassword)
  {
  }

  /** A locked account is refused with 423 whatever password is sent, and the
      attempt is not counted. */
  lemma LockedAccountIgnoresPassword(email: string, password: string, a: Account, now: Millis)
    requires email != "" && password != "" && LockActive(a.lock, now)
    ensures LoginStep(email, password, Some(a), now) == LockedOut
    ensures LoginEffect(a, LockedOut, now) == a
    ensures LoginRefusal(LockedOut).status == Locked
  {
  }

  /** An inactive account is refused after the lock check and before the
      password is compared: a right or wrong password gives the same 401. */
  lemma DeactivatedBeforePassword(email: string, password: string, a: Account, now: Millis)
    requires email != "" && password != "" && !LockActive(a.lock, now) && !a.isActive
    ensures LoginStep(email, password, Some(a), now) == Deactivated
    ensures LoginEffect(a, Deactivated, now) == a
  {
  }

  /** A wrong password counts exactly one failure (or restarts the count
      after an expired lock); a success leaves no failures and no lock. */
  lemma LoginCountsFailures(a: Account, now: Millis)
    ensures !LockExpired(a.lock, now) ==> LoginEffect(a, WrongPassword, now).lock.attempts == a.lock.attempts + 1
    ensures LockExpired(a.lock, now) ==> LoginEffect(a, WrongPassword, now).lock == LockState(1, None)
    ensures LoginEffect(a, LoggedIn, now).lock == Unlocked && LoginEffect(a, LoggedIn, now).lastLogin == Some(now)
  {
  }

  /** Wrong passwords at the given times, one login each, on an active
      account whose lock has not yet been reached (an inactive account never
      gets to the password check, see `DeactivatedBeforePassword`). */
  function FailedLogins(a: Account, times: seq<Millis>): Account
    decreases |times|
  {
    if times == [] then a else FailedLogins(LoginEffect(a, WrongPassword, times[0]), times[1..])
  }

  lemma {:induction false} FailedLoginsOnlyTouchLock(a: Account, times: seq<Millis>)
    ensures FailedLogins(a, times) == a.(lock := AfterFailures(a.lock, times))
    decreases |times|
  {
    if times != [] {
      FailedLoginsOnlyTouchLock(LoginEffect(a, WrongPassword, times[0]), times[1..]);
    }
  }

  /** Five wrong passwords on a clean, active account lock it: for two hours
      after the fifth, even the right password is answered with 423. */
  lemma {:induction false} FiveWrongPasswordsLockTheAccount(a: Account, times: seq<Millis>, email: string, password: string, now: Millis)
    requires a.isActive && a.lock == Unlocked && |times| == MaxLoginAttempts
    requires email != "" && password != ""
    requires times[MaxLoginAttempts - 1] <= now < times[MaxLoginAttempts - 1] + LockTimeMs
    ensures LoginStep(email, password, Some(FailedLogins(a, times)), now) == LockedOut
  {
    FailedLoginsOnlyTouchLock(a, times);
    FailuresFromCleanAccount(times);
  }

  // ---------------------------------------------------------------------------
  // register
  // ---------------------------------------------------------------------------

  datatype Contact = Contact(name: string, phone: string, relationship: string)

  /** The body of POST /register; an empty string stands for an absent field. */
  datatype Registration = Registration(
    name: string, email: string, password: string, phone: string, role: string,
    specialization: string, licenseNumber: string,
    dateOfBirth: Option<Millis>, gender: string, bloodType: string, emergencyContact: Option<Contact>)

  /** `sanitizeInput` on a string field. */
  function Clean(s: string): (r: string)
    ensures |r| <= |s| && NoAngles(r)
  {
    SanitizeInput(Str(s)).s
  }

  /** `sanitizeInput` on each of a list of string fields, in order. */
  function CleanAll(fields: seq<string>): (r: seq<string>)
    ensures |r| == |fields|
  {
    if fields == [] then [] else [Clean(fields[0])] + CleanAll(fields[1..])
  }

  /** Each field is sanitized on its own. */
  lemma {:induction false} CleanAllPointwise(fields: seq<string>)
    ensures forall i :: 0 <= i < |fields| ==> CleanAll(fields)[i] == Clean(fields[i])
  {
    if fields != [] {
      CleanAllPointwise(fields[1..]);
    }
  }

  /** The document `register` hands to `User.create`: sanitized common
      fields, then the schema's setters (the name trimmed, the address
      lower-cased), and the role's own fields only when the role as sent is
      exactly `doctor` or `patient`. */
  function RegistrationDraft(b: Registration): (d: UserDraft)
    ensures d.email == Lower(d.email)
    ensures b.role != "doctor" ==> d.specialization == "" && d.licenseNumber == ""
    ensures b.role != "patient" ==> d.dateOfBirth.None? && d.gender == "" && d.bloodType == ""
  {
    var contact := b.emergencyContact.GetOr(Contact("", "", ""));
    var isDoctor := b.role == "doctor";
    var isPatient := b.role == "patient";
    var c := CleanAll([b.name, b.email, b.phone, b.role, b.specialization, b.licenseNumber,
                       b.gender, b.bloodType, contact.name, contact.phone, contact.relationship]);
    UserDraft(
      Trim(c[0]), EmailKey(c[1]), c[2], ParseRole(c[3]),
      if isDoctor then c[4] else "",
      if isDoctor then c[5] else "",
      if isPatient then b.dateOfBirth else None,
      if isPatient then c[6] else "",
      if isPatient then c[7] else "",
      if isPatient then c[8] else "",
      if isPatient then c[9] else "",
      if isPatient then c[10] else "")
  }

  /** Which branch `register` takes. */
  datatype RegisterResult =
    | WeakPassword | EmailInUse | DoctorFieldsMissing | PatientFieldsMissing
    | SchemaInvalid | LicenceInUse | Registered

  /** The checks of `register` in their order. `emailTaken` is whether an
      account holds the draft's address, `licenceTaken` whether one holds
      its licence number. */
  function RegisterStep(b: Registration, emailTaken: bool, licenceTaken: bool): RegisterResult {
    if !StrongPassword(b.password) then WeakPassword
    else if emailTaken then EmailInUse
    else if b.role == "doctor" && (b.specialization == "" || b.licenseNumber == "") then DoctorFieldsMissing
    else if b.role == "patient" && (b.dateOfBirth.None? || b.gender == "" || b.bloodType == "" || b.emergencyContact.None?)
    then PatientFieldsMissing
    else if SchemaErrors(RegistrationDraft(b)) != [] then SchemaInvalid
    else if licenceTaken then LicenceInUse
    else Registered
  }

  /** The error `User.create` throws for an invalid document. */
  function ValidationFailure(d: UserDraft): AppError {
    var errs := SchemaErrors(d);
    AppError("ValidationError", NoCode, [], seq(|errs|, i requires 0 <= i < |errs| => FieldMessage(errs[i])), None, "", "")
  }

  /** The error the unique licence index raises. */
  const DuplicateLicence := AppError("MongoServerError", NumericCode(DuplicateKey), ["licenseNumber"], [], None, "", "")

  const RegisteredMessage := "User registered successfully. Please check your email for verification."

  /** The reply of every branch but a success (a weak password is answered
      with the list of broken rules, built by the caller). */
  function RegisterRefusal(r: RegisterResult, d: UserDraft, development: bool): Response
    requires r != Registered && r != WeakPassword
  {
    match r
    case EmailInUse => Message(BadRequest, "User with this email already exists")
    case DoctorFieldsMissing => Message(BadRequest, "Specialization and license number are required for doctors")
    case PatientFieldsMissing =>
      Message(BadRequest, "Date of birth, gender, blood type, and emergency contact are required for patients")
    case SchemaInvalid => Failure(Expected(ValidationFailure(d), development))
    case LicenceInUse => Failure(Expected(DuplicateLicence, development))
  }

  /** The checks run in order: a weak password is refused before the address
      is looked up, a taken address before the role's fields are checked. */
  lemma RegisterChecksInOrder(b: Registration, emailTaken: bool, licenceTaken: bool)
    ensures !StrongPassword(b.password) ==> RegisterStep(b, emailTaken, licenceTaken) == WeakPassword
    ensures StrongPassword(b.password) && emailTaken ==> RegisterStep(b, emailTaken, licenceTaken) == EmailInUse
    ensures RegisterStep(b, emailTaken, licenceTaken) == Registered ==>
              StrongPassword(b.password) && !emailTaken && !licenceTaken && SchemaErrors(RegistrationDraft(b)) == []
  {
  }

  /** The name is trimmed after it is sanitized, and the schema judges the
      trimmed name: a name that sanitizes to `"  a"` (such as `"<  a"`) has
      three characters, but the `trim` setter leaves one, and the
      registration fails. */
  lemma TrimmedNameIsJudged(b: Registration, emailTaken: bool, licenceTaken: bool)
    requires |Trim(Clean(b.name))| == 1
    ensures NameTooShort in SchemaErrors(RegistrationDraft(b))
    ensures RegisterStep(b, emailTaken, licenceTaken) != Registered
  {
    var d := RegistrationDraft(b);
    assert |d.name| == 1 by {
      CleanAllPointwise([b.name, b.email, b.phone]);
    }
    NameLengthJudged(d);
    RegisterChecksInOrder(b, emailTaken, licenceTaken);
  }

  /** The name a registration stores is already trimmed: the `trim` setter
      has run on it, so trimming it again changes nothing. */
  lemma RegisteredNameIsTrimmed(b: Registration)
    ensures Trim(RegistrationDraft(b).name) == RegistrationDraft(b).name
  {
    var d := RegistrationDraft(b);
    assert d.name == Trim(Clean(b.name)) by {
      CleanAllPointwise([b.name, b.email, b.phone]);
    }
    TrimIdempotent(Clean(b.name));
  }

  /** A doctor registers only with both a specialization and a licence
      number, and a patient only with all four patient fields. */
  lemma RegistrationNeedsRoleFields(b: Registration, emailTaken: bool, licenceTaken: bool)
    requires RegisterStep(b, emailTaken, licenceTaken) == Registered
    ensures b.role == "doctor" ==> b.specialization != "" && b.licenseNumber != ""
    ensures b.role == "patient" ==>
              b.dateOfBirth.Some? && b.gender != "" && b.bloodType != "" && b.emergencyContact.Some?
  {
  }

  /** A schema failure is answered by the error middleware as a 400. */
  lemma SchemaFailureIsBadRequest(d: UserDraft, development: bool)
    ensures RegisterRefusal(SchemaInvalid, d, development).error.status == BadRequest
  {
    ValidationErrorJoinsMessages(ValidationFailure(d), development);
  }

  /** A licence another account holds is refused as a duplicate key. */
  lemma DuplicateLicenceIsBadRequest(d: UserDraft, development: bool)
    ensures RegisterRefusal(LicenceInUse, d, development).error ==
              ErrorResponse(BadRequest, false, "License number is already registered", if development then Some("") else None)
  {
    DuplicateKeyIsBadRequest(DuplicateLicence, development);
  }

  // ---------------------------------------------------------------------------
  // updatePassword, forgotPassword, resetPassword, verifyEmail, refreshToken
  // ---------------------------------------------------------------------------

  /** `errors` is the list `validatePassword` gives for `p`: empty exactly
      for a strong password, and naming each broken rule. */
  predicate BrokenRules(errors: seq<string>, p: string) {
    && (errors == [] <==> StrongPassword(p))
    && (TooShortMessage in errors <==> |p| < MinPasswordLength)
    && (NoLowerMessage in errors <==> !HasLower(p))
    && (NoUpperMessage in errors <==> !HasUpper(p))
    && (NoDigitMessage in errors <==> !HasDigit(p))
    && (NoSpecialMessage in errors <==> !HasSpecial(p))
  }

  /** Which branch `updatePassword` takes. */
  datatype PasswordChange = MissingPasswords | IncorrectCurrent | WeakNewPassword | PasswordChanged

  /** The checks of `updatePassword` in their order: both fields present,
      the current password right, the new one strong. */
  function PasswordChangeStep(current: string, next: string, a: Account): PasswordChange {
    if current == "" || next == "" then MissingPasswords
    else if !BcryptCompare(current, a.password) then IncorrectCurrent
    else if !StrongPassword(next) then WeakNewPassword
    else PasswordChanged
  }

  /** Only the holder of the current password learns which rules a new
      password breaks; a wrong current password is refused first. */
  lemma CurrentPasswordCheckedFirst(current: string, next: string, a: Account)
    requires current != "" && next != "" && !BcryptCompare(current, a.password)
    ensures PasswordChangeStep(current, next, a) == IncorrectCurrent
  {
  }

  /** After a change (or a reset) only the new password opens the account. */
  lemma ChangedPasswordReplacesOld(current: string, next: string, a: Account, salt: nat, candidate: string)
    requires PasswordChangeStep(current, next, a) == PasswordChanged
    ensures BcryptCompare(candidate, Bcrypt(next, salt)) <==> candidate == next
    ensures current != next ==> !BcryptCompare(current, Bcrypt(next, salt))
  {
  }

  /** Which branch `resetPassword` takes; `holder` is the account whose
      unexpired reset secret is `token`, if any. */
  datatype ResetResult = MissingNewPassword | WeakResetPassword | InvalidResetToken | PasswordReset

  function ResetStep(next: string, holder: Option<nat>): ResetResult {
    if next == "" then MissingNewPassword
    else if !StrongPassword(next) then WeakResetPassword
    else if holder.None? then InvalidResetToken
    else PasswordReset
  }

  /** The new password is judged before the token is looked up: a weak
      password is refused even with a valid token, and a bad token only
      once the password is acceptable. */
  lemma ResetChecksPasswordFirst(next: string, holder: Option<nat>)
    ensures next != "" && !StrongPassword(next) ==> ResetStep(next, holder) == WeakResetPassword
    ensures ResetStep(next, holder) == PasswordReset <==> StrongPassword(next) && holder.Some?
  {
    if StrongPassword(next) {
      assert |next| >= MinPasswordLength;
    }
  }

  const ResetRefused := Message(BadRequest, "Invalid or expired reset token")
  const VerificationRefused := Message(BadRequest, "Invalid or expired verification token")
  const RefreshRefused := Message(Unauthorized, "User not found or inactive")

  /** The body of the `forgotPassword` answer: the link is disclosed only in
      development. */
  function ResetMail(secret: string, frontendUrl: string, development: bool): (r: Response)
    ensures r.ResetEmailSent? && (r.resetUrl.Some? <==> development)
    ensures development ==> r.resetUrl.value == ResetUrl(secret, frontendUrl)
  {
    ResetEmailSent(if development then Some(ResetUrl(secret, frontendUrl)) else None)
  }

  // ---------------------------------------------------------------------------
  // Lookups over a list of accounts
  // ---------------------------------------------------------------------------

  /** The first account with this (lower-cased) address. */
  function EmailIndex(us: seq<User>, key: string): (r: Option<nat>)
    ensures r.Some? ==> r.value < |us| && us[r.value].email == key
                        && forall j :: 0 <= j < r.value ==> us[j].email != key
    ensures r.None? ==> forall j :: 0 <= j < |us| ==> us[j].email != key
  {
    if us == [] then None
    else if us[0].email == key then Some(0)
    else
      var r := EmailIndex(us[1..], key);
      if r.Some? then Some(r.value + 1) else None
  }

  /** The first account with this id. */
  function IdIndex(us: seq<User>, id: Id): (r: Option<nat>)
    ensures r.Some? ==> r.value < |us| && us[r.value].id == id
                        && forall j :: 0 <= j < r.value ==> us[j].id != id
    ensures r.None? ==> forall j :: 0 <= j < |us| ==> us[j].id != id
  {
    if us == [] then None
    else if us[0].id == id then Some(0)
    else
      var r := IdIndex(us[1..], id);
      if r.Some? then Some(r.value + 1) else None
  }

  /** The first slot that accepts `token` at `now`. */
  function SlotIndex(slots: seq<SecretSlot>, token: string, now: Millis): (r: Option<nat>)
    ensures r.Some? ==> r.value < |slots| && Accepts(slots[r.value], token, now)
                        && forall j :: 0 <= j < r.value ==> !Accepts(slots[j], token, now)
    ensures r.None? ==> forall j :: 0 <= j < |slots| ==> !Accepts(slots[j], token, now)
  {
    if slots == [] then None
    else if Accepts(slots[0], token, now) then Some(0)
    else
      var r := SlotIndex(slots[1..], token, now);
      if r.Some? then Some(r.value + 1) else None
  }

  /** The reset slots of the accounts, in order. */
  function ResetSlots(us: seq<User>): (r: seq<SecretSlot>)
    reads us
    ensures |r| == |us| && forall i :: 0 <= i < |us| ==> r[i] == us[i].reset
  {
    if us == [] then [] else [us[0].reset] + ResetSlots(us[1..])
  }

  /** The verification slots of the accounts, in order. */
  function VerificationSlots(us: seq<User>): (r: seq<SecretSlot>)
    reads us
    ensures |r| == |us| && forall i :: 0 <= i < |us| ==> r[i] == us[i].verification
  {
    if us == [] then [] else [us[0].verification] + VerificationSlots(us[1..])
  }

  /** The stored digest of a slot comes from a secret the store issued. */
  predicate IssuedFrom(slot: SecretSlot, issued: set<string>) {
    slot.digest.Some? ==> slot.digest.value.preimage in issued
  }

  /** The slot holds the digest of `token`, expired or not. */
  predicate Holds(slot: SecretSlot, token: string) {
    slot.digest == Some(HashToken(token))
  }

  /** A token whose digest no slot holds is accepted by none, at any time:
      once its slot is cleared, a secret is spent. */
  lemma {:induction false} SpentTokenFindsNobody(slots: seq<SecretSlot>, token: string, now: Millis)
    requires forall i :: 0 <= i < |slots| ==> !Holds(slots[i], token)
    ensures SlotIndex(slots, token, now).None?
  {
    var r := SlotIndex(slots, token, now);
    if r.Some? {
      assert false;
    }
  }

  /** Two slots never hold the same digest. */
  predicate Apart(a: SecretSlot, b: SecretSlot) {
    a.digest.Some? ==> a.digest != b.digest
  }

  /** Two accounts never hold the same licence number. */
  predicate DistinctLicences(a: RoleProfile, b: RoleProfile) {
    a.DoctorProfile? && b.DoctorProfile? ==> a.licenseNumber != b.licenseNumber
  }

  /** A doctor account already holds this licence number (the sparse unique
      index on `licenseNumber` covers doctor documents only). */
  predicate LicenceHeld(us: seq<User>, licence: string) {
    exists j :: 0 <= j < |us| && us[j].profile.DoctorProfile? && us[j].profile.licenseNumber == licence
  }

  /** `u` is the document `User.create` stored for draft `d`, with the
      verification secret `register` then saved on it. */
  predicate NewAccount(u: User, id: Id, d: UserDraft, plain: string, salt: nat, verification: SecretSlot)
    reads u
  {
    && SchemaErrors(d) == []
    && u.id == id && u.email == d.email && u.role == d.role && u.profile == ProfileOf(d)
    && Snapshot(u) == Account(d.name, d.phone, true, false, None, Bcrypt(plain, salt), None,
                              Unlocked, None, Cleared, verification)
  }

  /** The branch `register` takes against the accounts `us`. */
  function RegisterBranch(b: Registration, us: seq<User>): RegisterResult {
    var d := RegistrationDraft(b);
    RegisterStep(b, EmailIndex(us, d.email).Some?, d.role == Doctor && LicenceHeld(us, d.licenseNumber))
  }

  /** The holder of a fresh reset link, and nobody else, is found by it until
      it expires; afterwards no account is. */
  lemma {:induction false} ResetLinkFindsItsHolder(slots: seq<SecretSlot>, k: nat, secret: string, issuedAt: Millis, now: Millis)
    requires k < |slots| && slots[k] == Issue(secret, issuedAt, ResetTtlMs)
    requires forall j :: 0 <= j < |slots| && j != k ==> Apart(slots[k], slots[j])
    ensures now < issuedAt + ResetTtlMs ==> SlotIndex(slots, secret, now) == Some(k)
    ensures now >= issuedAt + ResetTtlMs ==> SlotIndex(slots, secret, now).None?
  {
    var r := SlotIndex(slots, secret, now);
    if r.Some? {
      assert slots[r.value].digest == Some(HashToken(secret));
      assert r.value == k;
    } else {
      assert !Accepts(slots[k], secret, now);
    }
  }

  // ---------------------------------------------------------------------------
  // The store
  // ---------------------------------------------------------------------------

  class UserStore {
    /** The user collection. */
    var users: seq<User>
    /** The patient documents `register` creates. */
    var patients: seq<Patient>
    /** Every random secret handed out so far. */
    ghost var issued: set<string>
    /** `NODE_ENV === 'development'`. */
    const development: bool
    /** `FRONTEND_URL`. */
    const frontendUrl: string

    /** Accounts are valid documents with distinct addresses, ids and licence
        numbers; every stored secret digest was issued by the store and no
        two accounts share one. */
    ghost predicate Valid()
      reads this, users
    {
      && (forall i :: 0 <= i < |users| ==>
            users[i].Valid() && IssuedFrom(users[i].reset, issued) && IssuedFrom(users[i].verification, issued))
      && (forall i, j :: 0 <= i < |users| && 0 <= j < |users| && i != j ==>
            users[i].email != users[j].email && users[i].id != users[j].id
            && DistinctLicences(users[i].profile, users[j].profile)
            && Apart(users[i].reset, users[j].reset) && Apart(users[i].verification, users[j].verification))
    }

    constructor (development: bool, frontendUrl: string)
      ensures Valid()
      ensures users == [] && patients == [] && issued == {}
      ensures this.development == development && this.frontendUrl == frontendUrl
    {
      users := [];
      patients := [];
      issued := {};
      this.development := development;
      this.frontendUrl := frontendUrl;
    }

    /** No account changed. */
    twostate predicate Untouched()
      reads this, users
    {
      && users == old(users)
      && forall i :: 0 <= i < |users| ==> Snapshot(users[i]) == old(Snapshot(users[i]))
    }

    /** Account `k` now reads `a` and no other account changed. */
    twostate predicate ChangedOnly(k: nat, a: Account)
      reads this, users
    {
      && users == old(users) && k < |users| && Snapshot(users[k]) == a
      && forall i :: 0 <= i < |users| && i != k ==> Snapshot(users[i]) == old(Snapshot(users[i]))
    }

    /** The account for an address, as `findByEmail` would return it. */
    function Found(email: string): Option<Account>
      reads this, users
    {
      match EmailIndex(users, EmailKey(email))
      case None => None
      case Some(k) => Some(Snapshot(users[k]))
    }

    /** Account `k` is the only one a handler may touch: no other index
        holds the same object. */
    lemma OnlyAt(k: nat)
      requires Valid() && k < |users|
      ensures forall i :: 0 <= i < |users| && i != k ==> users[i] != users[k]
    {
    }

    /** A handler that changes one valid account, keeping or clearing its
        stored secrets, keeps the store valid. */
    twostate lemma OneAccountChanged(k: nat)
      requires old(Valid()) && users == old(users) && issued == old(issued) && k < |users|
      requires users[k].Valid()
      requires forall i :: 0 <= i < |users| && i != k ==> unchanged(users[i])
      requires users[k].reset == old(users[k].reset) || users[k].reset == Cleared
      requires users[k].verification == old(users[k].verification) || users[k].verification == Cleared
      ensures Valid() && ChangedOnly(k, Snapshot(users[k]))
    {
    }

    /** Once the account that held a reset token has its slot cleared, no
        account holds that token. */
    twostate lemma ResetTokenSpent(k: nat, new token: string, new now: Millis)
      requires old(Valid()) && users == old(users) && k < |users|
      requires old(Accepts(users[k].reset, token, now)) && users[k].reset == Cleared
      requires forall i :: 0 <= i < |users| && i != k ==> unchanged(users[i])
      ensures forall i :: 0 <= i < |users| ==> !Holds(users[i].reset, token)
    {
      forall i | 0 <= i < |users| && i != k
        ensures !Holds(users[i].reset, token)
      {
        assert old(Apart(users[k].reset, users[i].reset));
      }
    }

    /** The same for a verification token. */
    twostate lemma VerificationTokenSpent(k: nat, new token: string, new now: Millis)
      requires old(Valid()) && users == old(users) && k < |users|
      requires old(Accepts(users[k].verification, token, now)) && users[k].verification == Cleared
      requires forall i :: 0 <= i < |users| && i != k ==> unchanged(users[i])
      ensures forall i :: 0 <= i < |users| ==> !Holds(users[i].verification, token)
    {
      forall i | 0 <= i < |users| && i != k
        ensures !Holds(users[i].verification, token)
      {
        assert old(Apart(users[k].verification, users[i].verification));
      }
    }

    /** Storing the digest of a never-issued secret in one account's reset
        slot keeps the store valid. */
    twostate lemma ResetSecretStored(k: nat, new secret: string)
      requires old(Valid()) && users == old(users) && k < |users|
      requires secret !in old(issued)
      requires issued == old(issued) + {secret}
      requires users[k].Valid()
      requires forall i :: 0 <= i < |users| && i != k ==> unchanged(users[i])
      requires users[k].reset.digest == Some(HashToken(secret))
      requires users[k].verification == old(users[k].verification)
      ensures Valid() && ChangedOnly(k, Snapshot(users[k]))
    {
      forall i | 0 <= i < |users| && i != k
        ensures Apart(users[i].reset, users[k].reset) && Apart(users[k].reset, users[i].reset)
      {
        assert IssuedFrom(users[i].reset, old(issued));
      }
    }

    /** Appending a new valid account whose address, id and licence no
        account holds, with a verification secret never issued before,
        keeps the store valid. */
    twostate lemma AccountAdded(new u: User, secret: string)
      requires old(Valid()) && users == old(users) + [u]
      requires secret !in old(issued) && issued == old(issued) + {secret}
      requires u.Valid() && u.reset == Cleared && u.verification.digest == Some(HashToken(secret))
      requires forall i :: 0 <= i < |old(users)| ==> unchanged(old(users)[i])
      requires forall i :: 0 <= i < |old(users)| ==>
                 old(users)[i].email != u.email && old(users)[i].id != u.id
                 && DistinctLicences(old(users)[i].profile, u.profile) && DistinctLicences(u.profile, old(users)[i].profile)
      ensures Valid()
    {
      var n := |old(users)|;
      forall i | 0 <= i < n
        ensures Apart(users[i].verification, u.verification) && Apart(u.verification, users[i].verification)
        ensures users[i].Valid() && IssuedFrom(users[i].reset, issued) && IssuedFrom(users[i].verification, issued)
      {
        assert users[i] == old(users)[i];
        assert IssuedFrom(users[i].verification, old(issued));
      }
    }

    // The writes each handler makes on the document it found, ending with
    // `user.save()`.

    /** `login` after a matching password: the lockout fields are reset when
        a failure was recorded, and `lastLogin` is stamped. */
    static method RecordLogin(u: User, now: Millis)
      requires u.Valid()
      modifies u
      ensures u.Valid()
      ensures Snapshot(u) == LoginEffect(old(Snapshot(u)), LoggedIn, now)
    {
      if u.loginAttempts > 0 {
        u.ResetLoginAttempts();
      }
      u.lastLogin := Some(now);
      u.Save(0);
    }

    /** `updatePassword`: the new password is assigned and hashed on save. */
    static method StorePassword(u: User, next: string, salt: nat)
      requires u.Valid()
      modifies u
      ensures u.Valid()
      ensures Snapshot(u) == old(Snapshot(u)).(password := Bcrypt(next, salt))
    {
      u.SetPassword(next);
      u.Save(salt);
    }

    /** `forgotPassword`: the digest of the new secret and its expiry. */
    static method StoreResetSecret(u: User, secret: string, now: Millis)
      requires u.Valid()
      modifies u
      ensures u.Valid()
      ensures Snapshot(u) == old(Snapshot(u)).(reset := Issue(secret, now, ResetTtlMs))
    {
      u.reset := Issue(secret, now, ResetTtlMs);
      u.Save(0);
    }

    /** `resetPassword`: the new password, hashed on save, and the reset
        fields unset. */
    static method ReplacePassword(u: User, next: string, salt: nat)
      requires u.Valid()
      modifies u
      ensures u.Valid()
      ensures Snapshot(u) == old(Snapshot(u)).(password := Bcrypt(next, salt), reset := Cleared)
    {
      u.SetPassword(next);
      u.reset := Cleared;
      u.Save(salt);
    }

    /** `verifyEmail`: the address is marked verified and the verification
        fields unset. */
    static method MarkVerified(u: User)
      requires u.Valid()
      modifies u
      ensures u.Valid()
      ensures Snapshot(u) == old(Snapshot(u)).(isEmailVerified := true, verification := Cleared)
    {
      u.isEmailVerified := true;
      u.verification := Cleared;
      u.Save(0);
    }

    /** `login`: the branch `LoginStep` picks for the account the address
        finds, with its effect on that account and no other. */
    method Login(email: string, password: string, now: Millis) returns (resp: Response)
      requires Valid()
      modifies users
      ensures Valid()
      ensures var r := LoginStep(email, password, old(Found(email)), now);
              && (r != LoggedIn ==> resp == LoginRefusal(r))
              && (r == NoSuchUser || r == MissingCredentials ==> Untouched())
              && (r != NoSuchUser && r != MissingCredentials ==>
                    var k := EmailIndex(users, EmailKey(email)).value;
                    && ChangedOnly(k, LoginEffect(old(Snapshot(users[k])), r, now))
                    && (r == LoggedIn ==> resp == SignedIn(SendTokenResponse(users[k], Ok, "Login successful", now))))
    {
      if email == "" || password == "" {
        return Message(BadRequest, "Please provide an email and password");
      }
      var found := EmailIndex(users, EmailKey(email));
      if found.None? {
        return Message(Unauthorized, InvalidCredentials);
      }
      var k := found.value;
      var u := users[k];
      ghost var before := Snapshot(u);
      assert Found(email) == Some(before);
      OnlyAt(k);
      if u.IsLocked(now) {
        return Message(Locked, LockedMessage);
      }
      if !u.isActive {
        return Message(Unauthorized, DeactivatedMessage);
      }
      if !u.ComparePassword(password) {
        u.IncLoginAttempts(now);
        OneAccountChanged(k);
        return Message(Unauthorized, InvalidCredentials);
      }
      RecordLogin(u, now);
      OneAccountChanged(k);
      resp := SignedIn(SendTokenResponse(u, Ok, "Login successful", now));
    }
    /** `register`: the branch `RegisterStep` picks; a success appends the new
        account (and a patient document for the role `patient`) and saves a
        24-hour verification secret on it. */
    method Register(b: Registration, id: Id, salt: nat, emailSecret: string, patientId: Id, now: Millis)
      returns (resp: Response)
      requires Valid()
      requires forall i :: 0 <= i < |users| ==> users[i].id != id
      requires emailSecret !in issued
      modifies this
      ensures Valid()
      ensures RegisterBranch(b, old(users)) == WeakPassword ==>
                resp.PasswordRejected? && resp.message == "Password does not meet requirements"
                && BrokenRules(resp.errors, b.password)
      ensures RegisterBranch(b, old(users)) !in {WeakPassword, Registered} ==>
                resp == RegisterRefusal(RegisterBranch(b, old(users)), RegistrationDraft(b), development)
      ensures RegisterBranch(b, old(users)) != Registered ==>
                users == old(users) && patients == old(patients) && issued == old(issued)
      ensures RegisterBranch(b, old(users)) == Registered ==>
                && |users| == |old(users)| + 1 && users == old(users) + [users[|old(users)|]]
                && fresh(users[|old(users)|])
                && NewAccount(users[|old(users)|], id, RegistrationDraft(b), b.password, salt, Issue(emailSecret, now, VerificationTtlMs))
                && issued == old(issued) + {emailSecret}
                && resp == SignedIn(SendTokenResponse(users[|old(users)|], Created, RegisteredMessage, now))
      ensures RegisterBranch(b, old(users)) == Registered && b.role == "patient" ==>
                && |patients| == |old(patients)| + 1 && patients[..|old(patients)|] == old(patients)
                && fresh(patients[|old(patients)|])
                && patients[|old(patients)|].id == patientId && patients[|old(patients)|].user == id
                && patients[|old(patients)|].assignedDoctors == []
      ensures b.role != "patient" ==> patients == old(patients)
    {
      var d := RegistrationDraft(b);
      var r := RegisterStep(b, EmailIndex(users, d.email).Some?, d.role == Doctor && LicenceHeld(users, d.licenseNumber));
      if r == WeakPassword {
        return PasswordRejected("Password does not meet requirements", ValidatePassword(b.password).errors);
      } else if r != Registered {
        return RegisterRefusal(r, d, development);
      }
      resp := RegisterAccount(b, id, salt, emailSecret, patientId, now);
    }

    /** The success path of `register`: the account is created from the
        draft, and the response signs the new account in. */
    method RegisterAccount(b: Registration, id: Id, salt: nat, emailSecret: string, patientId: Id, now: Millis)
      returns (resp: Response)
      requires Valid()
      requires forall i :: 0 <= i < |users| ==> users[i].id != id
      requires emailSecret !in issued
      requires RegisterBranch(b, users) == Registered
      modifies this
      ensures Valid()
      ensures && |users| == |old(users)| + 1 && users == old(users) + [users[|old(users)|]]
              && fresh(users[|old(users)|])
              && NewAccount(users[|old(users)|], id, RegistrationDraft(b), b.password, salt, Issue(emailSecret, now, VerificationTtlMs))
              && issued == old(issued) + {emailSecret}
              && resp == SignedIn(SendTokenResponse(users[|old(users)|], Created, RegisteredMessage, now))
      ensures b.role == "patient" ==>
                && |patients| == |old(patients)| + 1 && patients[..|old(patients)|] == old(patients)
                && fresh(patients[|old(patients)|])
                && patients[|old(patients)|].id == patientId && patients[|old(patients)|].user == id
                && patients[|old(patients)|].assignedDoctors == []
      ensures b.role != "patient" ==> patients == old(patients)
    {
      var d := RegistrationDraft(b);
      RegisterChecksInOrder(b, EmailIndex(users, d.email).Some?, d.role == Doctor && LicenceHeld(users, d.licenseNumber));
      var u := CreateAccount(d, id, b.password, salt, emailSecret, if b.role == "patient" then Some(patientId) else None, now);
      resp := SignedIn(SendTokenResponse(u, Created, RegisteredMessage, now));
    }

    /** The writes of a successful `register`: `User.create`, the patient
        document for the role `patient`, and the saved verification secret. */
    method CreateAccount(d: UserDraft, id: Id, plain: string, salt: nat, emailSecret: string,
                         patientId: Option<Id>, now: Millis) returns (u: User)
      requires Valid() && SchemaErrors(d) == [] && d.email == Lower(d.email)
      requires forall i :: 0 <= i < |users| ==> users[i].id != id
      requires emailSecret !in issued
      requires EmailIndex(users, d.email).None?
      requires !(d.role == Doctor && LicenceHeld(users, d.licenseNumber))
      modifies this
      ensures Valid()
      ensures fresh(u) && users == old(users) + [u] && issued == old(issued) + {emailSecret}
      ensures NewAccount(u, id, d, plain, salt, Issue(emailSecret, now, VerificationTtlMs))
      ensures patientId.None? ==> patients == old(patients)
      ensures patientId.Some? ==>
                && |patients| == |old(patients)| + 1 && patients[..|old(patients)|] == old(patients)
                && fresh(patients[|old(patients)|])
                && patients[|old(patients)|].id == patientId.value && patients[|old(patients)|].user == id
                && patients[|old(patients)|].assignedDoctors == []
    {
      u := new User(id, d, plain, salt);
      users := users + [u];
      if patientId.Some? {
        var p := new Patient(patientId.value, id);
        patients := patients + [p];
      }
      u.verification := Issue(emailSecret, now, VerificationTtlMs);
      issued := issued + {emailSecret};
      AccountAdded(u, emailSecret);
    }

    /** `updatePassword` for the signed-in account `id`: the branch
        `PasswordChangeStep` picks; a change stores the hash of the new
        password and nothing else. */
    method UpdatePassword(id: Id, current: string, next: string, salt: nat, now: Millis) returns (resp: Response)
      requires Valid() && IdIndex(users, id).Some?
      modifies users
      ensures Valid()
      ensures var k := IdIndex(users, id).value;
              var r := PasswordChangeStep(current, next, old(Snapshot(users[k])));
              && (r == MissingPasswords ==> resp == Message(BadRequest, "Please provide current and new password"))
              && (r == IncorrectCurrent ==> resp == Message(Unauthorized, "Current password is incorrect"))
              && (r == WeakNewPassword ==>
                    resp.PasswordRejected? && resp.message == "New password does not meet requirements"
                    && BrokenRules(resp.errors, next))
              && (r != PasswordChanged ==> Untouched())
              && (r == PasswordChanged ==>
                    && ChangedOnly(k, old(Snapshot(users[k])).(password := Bcrypt(next, salt)))
                    && resp == SignedIn(SendTokenResponse(users[k], Ok, "Password updated successfully", now)))
    {
      if current == "" || next == "" {
        return Message(BadRequest, "Please provide current and new password");
      }
      var found := IdIndex(users, id);
      var k := found.value;
      var u := users[k];
      ghost var before := Snapshot(u);
      OnlyAt(k);
      if !u.ComparePassword(current) {
        return Message(Unauthorized, "Current password is incorrect");
      }
      var check := ValidatePassword(next);
      if !check.isValid {
        return PasswordRejected("New password does not meet requirements", check.errors);
      }
      StorePassword(u, next, salt);
      OneAccountChanged(k);
      resp := SignedIn(SendTokenResponse(u, Ok, "Password updated successfully", now));
    }

    /** `forgotPassword`: the account the address finds gets a fresh
        ten-minute reset secret in place of any earlier one. */
    method ForgotPassword(email: string, secret: string, now: Millis) returns (resp: Response)
      requires Valid() && secret !in issued
      modifies this, users
      ensures users == old(users)
      ensures Valid()
      ensures email == "" ==> resp == Message(BadRequest, "Please provide an email address")
      ensures email != "" && old(Found(email)).None? ==> resp == Message(NotFound, "No user found with that email address")
      ensures email == "" || old(Found(email)).None? ==> Untouched() && issued == old(issued)
      ensures email != "" && old(Found(email)).Some? ==>
                && ChangedOnly(EmailIndex(users, EmailKey(email)).value, old(Found(email)).value.(reset := Issue(secret, now, ResetTtlMs)))
                && issued == old(issued) + {secret}
                && resp == ResetMail(secret, frontendUrl, development)
    {
      if email == "" {
        return Message(BadRequest, "Please provide an email address");
      }
      var found := EmailIndex(users, EmailKey(email));
      if found.None? {
        return Message(NotFound, "No user found with that email address");
      }
      var k := found.value;
      var u := users[k];
      ghost var before := Snapshot(u);
      OnlyAt(k);
      StoreResetSecret(u, secret, now);
      issued := issued + {secret};
      ResetSecretStored(k, secret);
      resp := ResetEmailSent(if development then Some(ResetUrl(secret, frontendUrl)) else None);
    }

    /** `resetPassword`: the branch `ResetStep` picks for the account whose
        unexpired reset secret is `token`; a reset stores the new password's
        hash and clears the secret, so the token opens nothing afterwards. */
    method ResetPassword(token: string, next: string, salt: nat, now: Millis) returns (resp: Response)
      requires Valid()
      modifies users
      ensures Valid()
      ensures var holder := old(SlotIndex(ResetSlots(users), token, now));
              var r := ResetStep(next, holder);
              && (r == MissingNewPassword ==> resp == Message(BadRequest, "Please provide a new password"))
              && (r == WeakResetPassword ==>
                    resp.PasswordRejected? && resp.message == "Password does not meet requirements"
                    && BrokenRules(resp.errors, next))
              && (r == InvalidResetToken ==> resp == ResetRefused)
              && (r != PasswordReset ==> Untouched())
              && (r == PasswordReset ==>
                    && ChangedOnly(holder.value, old(Snapshot(users[holder.value])).(password := Bcrypt(next, salt), reset := Cleared))
                    && resp == SignedIn(SendTokenResponse(users[holder.value], Ok, "Password reset successful", now))
                    && forall i :: 0 <= i < |users| ==> !Holds(users[i].reset, token))
    {
      if next == "" {
        return Message(BadRequest, "Please provide a new password");
      }
      var check := ValidatePassword(next);
      if !check.isValid {
        return PasswordRejected("Password does not meet requirements", check.errors);
      }
      var found := SlotIndex(ResetSlots(users), token, now);
      if found.None? {
        return ResetRefused;
      }
      var k := found.value;
      var u := users[k];
      ghost var before := Snapshot(u);
      OnlyAt(k);
      ReplacePassword(u, next, salt);
      OneAccountChanged(k);
      ResetTokenSpent(k, token, now);
      resp := SignedIn(SendTokenResponse(u, Ok, "Password reset successful", now));
    }

    /** `verifyEmail`: the account whose unexpired verification secret is
        `token` is marked verified and the secret is cleared. */
    method VerifyEmail(token: string, now: Millis) returns (resp: Response)
      requires Valid()
      modifies users
      ensures Valid()
      ensures var holder := old(SlotIndex(VerificationSlots(users), token, now));
              && (holder.None? ==> resp == VerificationRefused && Untouched())
              && (holder.Some? ==>
                    && ChangedOnly(holder.value, old(Snapshot(users[holder.value])).(isEmailVerified := true, verification := Cleared))
                    && resp == Message(Ok, "Email verified successfully")
                    && forall i :: 0 <= i < |users| ==> !Holds(users[i].verification, token))
    {
      var found := SlotIndex(VerificationSlots(users), token, now);
      if found.None? {
        return VerificationRefused;
      }
      var k := found.value;
      var u := users[k];
      ghost var before := Snapshot(u);
      OnlyAt(k);
      MarkVerified(u);
      OneAccountChanged(k);
      VerificationTokenSpent(k, token, now);
      resp := Message(Ok, "Email verified successfully");
    }

    /** `refreshToken`: a fresh session token for an account that still
        exists and is active. */
    method RefreshToken(id: Id, now: Millis) returns (resp: Response)
      requires Valid()
      ensures var k := IdIndex(users, id);
              && (k.None? || !users[k.value].isActive ==> resp == RefreshRefused)
              && (k.Some? && users[k.value].isActive ==>
                    resp == SignedIn(SendTokenResponse(users[k.value], Ok, "Token refreshed successfully", now)))
    {
      var found := IdIndex(users, id);
      if found.None? || !users[found.value].isActive {
        return RefreshRefused;
      }
      resp := SignedIn(SendTokenResponse(users[found.value], Ok, "Token refreshed successfully", now));
    }
  }
}
