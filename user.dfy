/** The user document (server/models/User.js): the schema's role-conditional
    validation, the account lockout counter and the password hashing hook. */
module UserModel {
  import opened Common
  import opened Text
  import opened Crypto
  import opened Secrets

  // ---------------------------------------------------------------------------
  // Account lockout: `loginAttempts` and `lockUntil`
  // ---------------------------------------------------------------------------

  const MaxLoginAttempts := 5
  /** Two hours, `2 * 60 * 60 * 1000`. */
  const LockTimeMs := 2 * 60 * 60 * 1000

  /** The two lockout fields of a user. An unset `loginAttempts` reads as its
      default 0, an unset `lockUntil` as `None`. */
  datatype LockState = LockState(attempts: nat, lockUntil: Option<Millis>)

  const Unlocked := LockState(0, None)

  /** The `isLocked` virtual: a lock is set and lies in the future. */
  predicate LockActive(s: LockState, now: Millis) {
    s.lockUntil.Some? && s.lockUntil.value > now
  }

  /** A lock is set and already lies in the past (`lockUntil < Date.now()`). */
  predicate LockExpired(s: LockState, now: Millis) {
    s.lockUntil.Some? && s.lockUntil.value < now
  }

  /** The update `incLoginAttempts` sends: after an expired lock the counter
      restarts at 1 and the lock is removed; otherwise the counter is incremented
      and, when it reaches five on an account not currently locked, a two-hour
      lock is set. */
  function AfterFailure(s: LockState, now: Millis): LockState {
    if LockExpired(s, now) then LockState(1, None)
    else LockState(s.attempts + 1,
                   if s.attempts + 1 >= MaxLoginAttempts && !LockActive(s, now)
                   then Some(now + LockTimeMs) else s.lockUntil)
  }

  /** A lock is only ever present together with at least five recorded failures. */
  predicate LockInvariant(s: LockState) {
    s.lockUntil.Some? ==> s.attempts >= MaxLoginAttempts
  }

  lemma FailureAfterExpiredLockRestarts(s: LockState, now: Millis)
    requires LockExpired(s, now)
    ensures AfterFailure(s, now) == LockState(1, None)
  {
  }

  lemma FailureCountsOnce(s: LockState, now: Millis)
    requires !LockExpired(s, now)
    ensures AfterFailure(s, now).attempts == s.attempts + 1
  {
  }

  /** A failure on an account that is locked leaves the lock where it was. */
  lemma FailureNeverExtendsLock(s: LockState, now: Millis)
    requires LockActive(s, now)
    ensures AfterFailure(s, now).lockUntil == s.lockUntil
    ensures LockActive(AfterFailure(s, now), now)
  {
  }

  /** The failure that brings an unlocked account to five attempts locks it for
      exactly two hours from now; fewer attempts never lock it. */
  lemma FifthFailureLocks(s: LockState, now: Millis)
    requires !LockActive(s, now) && !LockExpired(s, now)
    ensures s.attempts + 1 >= MaxLoginAttempts ==>
              AfterFailure(s, now).lockUntil == Some(now + LockTimeMs) && LockActive(AfterFailure(s, now), now)
    ensures s.attempts + 1 < MaxLoginAttempts ==> AfterFailure(s, now).lockUntil == s.lockUntil
  {
  }

  lemma FailurePreservesLockInvariant(s: LockState, now: Millis)
    requires LockInvariant(s)
    ensures LockInvariant(AfterFailure(s, now))
  {
  }

  /** The lockout fields after a run of failed attempts at the given times. */
  function AfterFailures(s: LockState, times: seq<Millis>): LockState
    decreases |times|
  {
    if times == [] then s else AfterFailures(AfterFailure(s, times[0]), times[1..])
  }

  /** From a clean account, fewer than five failures never lock it, whatever
      their times, and the fifth locks it for two hours from its own time. */
  lemma {:induction false} FailuresFromCleanAccount(times: seq<Millis>)
    requires |times| <= MaxLoginAttempts
    ensures AfterFailures(Unlocked, times) ==
              LockState(|times|, if |times| == MaxLoginAttempts then Some(times[|times| - 1] + LockTimeMs) else None)
  {
    var n := |times|;
    var i := 0;
    var s := Unlocked;
    while i < n
      invariant 0 <= i <= n
      invariant s == LockState(i, if i == MaxLoginAttempts then Some(times[i - 1] + LockTimeMs) else None)
      invariant AfterFailures(Unlocked, times) == AfterFailures(s, times[i..])
    {
      assert times[i..][0] == times[i] && times[i..][1..] == times[i + 1..];
      s := AfterFailure(s, times[i]);
      i := i + 1;
    }
    assert times[n..] == [];
  }

  // ---------------------------------------------------------------------------
  // Schema validation of a new user document
  // ---------------------------------------------------------------------------

  /** The document `register` hands to `User.create`, as Mongoose holds it once
      the schema's setters have run: the `name` is trimmed and the `email`
      lower-cased when they are assigned, before any validator sees them. An
      empty string stands for a field that is absent. */
  datatype UserDraft = UserDraft(
    name: string, email: string, phone: string, role: Role,
    specialization: string, licenseNumber: string,
    dateOfBirth: Option<Millis>, gender: string, bloodType: string,
    contactName: string, contactPhone: string, contactRelationship: string)

  /** The first failing validator of each path, in schema order. */
  datatype FieldError =
    | NameRequired | NameTooShort | NameTooLong
    | EmailRequired
    | PhoneRequired | PhoneInvalid
    | RoleRequired | RoleInvalid
    | SpecializationRequired | LicenseNumberRequired
    | DateOfBirthRequired
    | GenderRequired | GenderInvalid(gender: string)
    | BloodTypeRequired | BloodTypeInvalid(bloodType: string)
    | ContactNameRequired | ContactPhoneRequired | ContactRelationshipRequired

  function FieldMessage(e: FieldError): string {
    match e
    case NameRequired => "Name is required"
    case NameTooShort => "Name must be at least 2 characters long"
    case NameTooLong => "Name cannot exceed 50 characters"
    case EmailRequired => "Email is required"
    case PhoneRequired => "Phone number is required"
    case PhoneInvalid => "Please provide a valid phone number"
    case RoleRequired => "Role is required"
    case RoleInvalid => "Role must be either admin, doctor, or patient"
    case SpecializationRequired => "Path `specialization` is required."
    case LicenseNumberRequired => "Path `licenseNumber` is required."
    case DateOfBirthRequired => "Path `dateOfBirth` is required."
    case GenderRequired => "Path `gender` is required."
    case GenderInvalid(g) => "`" + g + "` is not a valid enum value for path `gender`."
    case BloodTypeRequired => "Path `bloodType` is required."
    case BloodTypeInvalid(b) => "`" + b + "` is not a valid enum value for path `bloodType`."
    case ContactNameRequired => "Path `emergencyContact.name` is required."
    case ContactPhoneRequired => "Path `emergencyContact.phone` is required."
    case ContactRelationshipRequired => "Path `emergencyContact.relationship` is required."
  }

  predicate ValidGender(g: string) {
    g == "male" || g == "female" || g == "other"
  }

  predicate ValidBloodType(b: string) {
    b in ["A+", "A-", "B+", "B-", "AB+", "AB-", "O+", "O-"]
  }

  predicate PhoneChar(c: char) {
    ('0' <= c <= '9') || IsJsWhitespace(c) || c == '-' || c == '(' || c == ')'
  }

  /** `/^[+]?[\d\s\-\(\)]+$/`. */
  predicate ValidPhone(p: string) {
    var body := if |p| > 0 && p[0] == '+' then p[1..] else p;
    |body| > 0 && forall i :: 0 <= i < |body| ==> PhoneChar(body[i])
  }

  function Check(failed: bool, e: FieldError): seq<FieldError> {
    if failed then [e] else []
  }

  function NameErrors(name: string): seq<FieldError> {
    if name == "" then [NameRequired]
    else if |name| < 2 then [NameTooShort]
    else if |name| > 50 then [NameTooLong]
    else []
  }

  function RoleErrors(r: Role): seq<FieldError> {
    match r
    case UnknownRole(n) => if n == "" then [RoleRequired] else [RoleInvalid]
    case _ => []
  }

  /** Fields a doctor must have (`required: function() { return this.role === 'doctor' }`). */
  function DoctorErrors(d: UserDraft): seq<FieldError> {
    if d.role != Doctor then []
    else Check(d.specialization == "", SpecializationRequired)
         + Check(d.licenseNumber == "", LicenseNumberRequired)
  }

  function EnumError(value: string, required: bool, ok: bool, missing: FieldError, invalid: FieldError): seq<FieldError> {
    if value == "" then Check(required, missing)
    else Check(!ok, invalid)
  }

  /** Fields a patient must have, and the two enumerations that are checked
      whenever they are set. */
  function PatientErrors(d: UserDraft): seq<FieldError> {
    var isPatient := d.role == Patient;
    Check(isPatient && d.dateOfBirth.None?, DateOfBirthRequired)
    + EnumError(d.gender, isPatient, ValidGender(d.gender), GenderRequired, GenderInvalid(d.gender))
    + EnumError(d.bloodType, isPatient, ValidBloodType(d.bloodType), BloodTypeRequired, BloodTypeInvalid(d.bloodType))
    + Check(isPatient && d.contactName == "", ContactNameRequired)
    + Check(isPatient && d.contactPhone == "", ContactPhoneRequired)
    + Check(isPatient && d.contactRelationship == "", ContactRelationshipRequired)
  }

  /** Every violated path of the schema, as the ValidationError lists them. */
  function SchemaErrors(d: UserDraft): (r: seq<FieldError>)
    ensures d.email == "" ==> EmailRequired in r
    ensures r == [] ==> 2 <= |d.name| <= 50 && d.email != "" && d.phone != "" && ValidPhone(d.phone)
                        && !d.role.UnknownRole?
  {
    CommonErrors(d) + DoctorErrors(d) + PatientErrors(d)
  }

  /** The paths every user document has: name, email, phone and role. */
  function CommonErrors(d: UserDraft): seq<FieldError> {
    NameErrors(d.name)
    + Check(d.email == "", EmailRequired)
    + (if d.phone == "" then [PhoneRequired] else Check(!ValidPhone(d.phone), PhoneInvalid))
    + RoleErrors(d.role)
  }

  /** Only the doctor part of the schema reports the doctor paths. */
  lemma DoctorPathsOnlyFromDoctorPart(d: UserDraft)
    ensures SpecializationRequired !in CommonErrors(d) + PatientErrors(d)
    ensures LicenseNumberRequired !in CommonErrors(d) + PatientErrors(d)
  {
    var c := CommonErrors(d);
    var p := PatientErrors(d);
    assert forall e :: e in c ==> !e.SpecializationRequired? && !e.LicenseNumberRequired?;
    assert forall e :: e in p ==> !e.SpecializationRequired? && !e.LicenseNumberRequired?;
  }

  /** The `required`, `minlength` and `maxlength` validators of the name, which
      judge the name as its `trim` setter left it. */
  lemma NameLengthJudged(d: UserDraft)
    ensures d.name == "" ==> NameRequired in SchemaErrors(d)
    ensures |d.name| == 1 ==> NameTooShort in SchemaErrors(d)
    ensures |d.name| > 50 ==> NameTooLong in SchemaErrors(d)
  {
    var n := NameErrors(d.name);
    if n != [] {
      var c := CommonErrors(d);
      assert c[0] == n[0];
      assert SchemaErrors(d)[0] == c[0];
    }
  }

  /** A doctor document is accepted only with both a specialization and a
      licence number; for other roles those fields are never demanded. */
  lemma DoctorFieldsRequired(d: UserDraft)
    ensures d.role == Doctor && d.specialization == "" ==> SpecializationRequired in SchemaErrors(d)
    ensures d.role == Doctor && d.licenseNumber == "" ==> LicenseNumberRequired in SchemaErrors(d)
    ensures d.role != Doctor ==> SpecializationRequired !in SchemaErrors(d) && LicenseNumberRequired !in SchemaErrors(d)
  {
    var c := CommonErrors(d);
    var doc := DoctorErrors(d);
    var p := PatientErrors(d);
    if d.role == Doctor {
      assert SpecializationRequired in doc <== d.specialization == "";
      assert LicenseNumberRequired in doc <== d.licenseNumber == "";
    } else {
      DoctorPathsOnlyFromDoctorPart(d);
      assert c + doc + p == c + p;
    }
  }

  /** A patient document needs a birth date, a listed gender, a listed blood
      type and all three emergency-contact fields. */
  lemma PatientFieldsRequired(d: UserDraft)
    requires d.role == Patient
    ensures SchemaErrors(d) == [] ==>
              d.dateOfBirth.Some? && ValidGender(d.gender) && ValidBloodType(d.bloodType)
              && d.contactName != "" && d.contactPhone != "" && d.contactRelationship != ""
  {
    if SchemaErrors(d) == [] {
      assert |PatientErrors(d)| == 0;
    }
  }

  /** The role-specific part of a stored user (the tagged form of the schema's
      conditional fields). */
  datatype RoleProfile =
    | DoctorProfile(specialization: string, licenseNumber: string)
    | PatientProfile(dateOfBirth: Millis, gender: string, bloodType: string,
                     contactName: string, contactPhone: string, contactRelationship: string)
    | NoProfile

  function ProfileOf(d: UserDraft): (p: RoleProfile)
    requires SchemaErrors(d) == []
    ensures p.DoctorProfile? <==> d.role == Doctor
    ensures p.PatientProfile? <==> d.role == Patient
  {
    match d.role
    case Doctor => DoctorProfile(d.specialization, d.licenseNumber)
    case Patient =>
      PatientFieldsRequired(d);
      PatientProfile(d.dateOfBirth.value, d.gender, d.bloodType,
                                   d.contactName, d.contactPhone, d.contactRelationship)
    case _ => NoProfile
  }

  /** `findByEmail` looks up `email.toLowerCase()`, and the schema lower-cases
      stored addresses, so lookups ignore case. */
  function EmailKey(email: string): (k: string)
    ensures |k| == |email| && k == Lower(k)
  {
    Lower(email)
  }

  // ---------------------------------------------------------------------------
  // The user document
  // ---------------------------------------------------------------------------

  class User {
    const id: Id
    /** Stored lower-cased (`lowercase: true`). */
    const email: string
    const role: Role
    const profile: RoleProfile
    var name: string
    var phone: string
    var isActive: bool
    var isEmailVerified: bool
    var profilePicture: Option<string>
    /** The stored bcrypt hash. */
    var password: PasswordHash
    /** A plaintext assigned to `user.password` and not yet saved. */
    var pendingPassword: Option<string>
    var loginAttempts: nat
    var lockUntil: Option<Millis>
    var lastLogin: Option<Millis>
    var reset: SecretSlot
    var verification: SecretSlot

    function LockStatus(): LockState
      reads this
    {
      LockState(loginAttempts, lockUntil)
    }

    /** The state of a saved user between requests. */
    ghost predicate Valid()
      reads this
    {
      && LockInvariant(LockStatus())
      && pendingPassword.None?
      && email == Lower(email)
      && (profile.DoctorProfile? <==> role == Doctor)
      && (profile.PatientProfile? <==> role == Patient)
    }

    /** `User.create(userData)`: the new document's password counts as
        modified, so the save hook stores its bcrypt hash. */
    constructor (id: Id, d: UserDraft, plain: string, salt: nat)
      requires SchemaErrors(d) == []
      ensures Valid()
      ensures this.id == id && email == Lower(d.email) && role == d.role && profile == ProfileOf(d)
      ensures name == d.name && phone == d.phone
      ensures isActive && !isEmailVerified && profilePicture.None? && lastLogin.None?
      ensures password == Bcrypt(plain, salt)
      ensures LockStatus() == Unlocked
      ensures reset == Cleared && verification == Cleared
    {
      this.id := id;
      email := Lower(d.email);
      role := d.role;
      profile := ProfileOf(d);
      name := d.name;
      phone := d.phone;
      isActive := true;
      isEmailVerified := false;
      profilePicture := None;
      password := Bcrypt(plain, salt);
      pendingPassword := None;
      loginAttempts := 0;
      lockUntil := None;
      lastLogin := None;
      reset := Cleared;
      verification := Cleared;
    }

    /** The `isLocked` virtual: a lock time still ahead. On a valid user, a
        locked account has at least five recorded failures. */
    predicate IsLocked(now: Millis)
      reads this
      ensures IsLocked(now) <==> lockUntil.Some? && now < lockUntil.value
      ensures Valid() && IsLocked(now) ==> loginAttempts >= MaxLoginAttempts
    {
      LockActive(LockStatus(), now)
    }

    /** `comparePassword`: the candidate is the plaintext the stored bcrypt
        hash was made from, with whatever salt. */
    predicate ComparePassword(candidate: string)
      reads this
      ensures ComparePassword(candidate) <==> exists salt :: password == Bcrypt(candidate, salt)
    {
      assert BcryptCompare(candidate, password) ==> password == Bcrypt(candidate, password.salt);
      BcryptCompare(candidate, password)
    }

    /** `incLoginAttempts`: one failed attempt is recorded; nothing but the two
        lockout fields changes. */
    method IncLoginAttempts(now: Millis)
      requires Valid()
      modifies this`loginAttempts, this`lockUntil
      ensures Valid()
      ensures LockStatus() == AfterFailure(old(LockStatus()), now)
    {
      if lockUntil.Some? && lockUntil.value < now {
        lockUntil := None;
        loginAttempts := 1;
        return;
      }
      if loginAttempts + 1 >= MaxLoginAttempts && !IsLocked(now) {
        lockUntil := Some(now + LockTimeMs);
      }
      loginAttempts := loginAttempts + 1;
    }

    /** `resetLoginAttempts`: both lockout fields are removed; nothing else changes. */
    method ResetLoginAttempts()
      requires Valid()
      modifies this`loginAttempts, this`lockUntil
      ensures Valid()
      ensures LockStatus() == Unlocked
    {
      loginAttempts := 0;
      lockUntil := None;
    }

    /** `user.password = plain`: the new plaintext waits for the next save. */
    method SetPassword(plain: string)
      modifies this`pendingPassword
      ensures pendingPassword == Some(plain)
    {
      pendingPassword := Some(plain);
    }

    /** The pre-save hook: the password is hashed only when it was modified;
        any other save leaves the stored hash as it was. */
    method Save(salt: nat)
      modifies this`password, this`pendingPassword
      ensures pendingPassword.None?
      ensures old(pendingPassword).Some? ==> password == Bcrypt(old(pendingPassword).value, salt)
      ensures old(pendingPassword).None? ==> password == old(password)
    {
      if pendingPassword.Some? {
        password := Bcrypt(pendingPassword.value, salt);
        pendingPassword := None;
      }
    }
  }
}
