/** The authentication and authorization middleware (server/middleware/auth.js):
    bearer-token authentication, role gates, the patient and medical-record
    access decisions, the sensitive-operation rate limiter and the audit
    stamp. Every decision is taken over records the route has already
    loaded; the database lookups and `jwt.verify` are parameters. */
module AccessControl {
  import opened Common
  import opened Text
  import opened Crypto
  import opened UserModel
  import opened PatientModel
  import opened MedicalRecordModel
  import opened AuthUtils

  /** What a middleware does with a request: hand it to the next handler or
      answer it with an error status and message. */
  datatype Decision = Next | Deny(status: int, message: string)

  /** `req.user`: the authenticated account. */
  datatype Principal = Principal(id: Id, role: Role)

  // ---------------------------------------------------------------------------
  // protect
  // ---------------------------------------------------------------------------

  const NotAuthorizedMessage := "Not authorized to access this route"

  /** `header.split(' ')[1]`: the text between the first and the second space. */
  function SecondField(h: string): (f: Option<string>)
    ensures f.Some? ==> ' ' !in f.value
  {
    match IndexOf(h, ' ')
    case None => None
    case Some(i) =>
      var rest := h[i + 1..];
      match IndexOf(rest, ' ')
      case None => Some(rest)
      case Some(j) => Some(rest[..j])
  }

  /** The bearer token of an `Authorization` header, when it starts with
      `Bearer` and its second space-separated field is not empty. */
  function BearerToken(header: Option<string>): (t: Option<string>)
    ensures t.Some? ==> header.Some? && StartsWith(header.value, "Bearer") && t.value != "" && ' ' !in t.value
  {
    if header.None? || !StartsWith(header.value, "Bearer") then None
    else
      var f := SecondField(header.value);
      if f.Some? && f.value != "" then f else None
  }

  /** A token sent as `Bearer <token>` is the token `protect` reads. */
  lemma BearerTokenRoundTrip(t: string)
    requires t != "" && ' ' !in t
    ensures BearerToken(Some("Bearer " + t)) == Some(t)
  {
    var h := "Bearer " + t;
    assert StartsWith(h, "Bearer");
    assert h[6] == ' ' && ' ' !in h[..6];
    assert IndexOf(h, ' ') == Some(6);
    assert h[7..] == t;
  }

  /** `protect`. `verdict` is what `jwt.verify` says about the bearer token
      and `found` the account `User.findById(decoded.id)` returns. Every
      rejection is a 401; a request gets through only with a well-formed,
      verified token whose account exists, is active and is not locked. */
  function Protect(header: Option<string>, verdict: TokenVerdict, found: Option<User>, now: Millis): (r: Result)
    reads if found.Some? then {found.value} else {}
    requires found.Some? ==> verdict.Verified? && found.value.id == verdict.id
    ensures r.Rejected? ==> r.status == Unauthorized
    ensures r.Authenticated? <==>
              BearerToken(header).Some? && verdict.Verified? && found.Some?
              && found.value.isActive && !found.value.IsLocked(now)
    ensures r.Authenticated? ==> r.user == Principal(verdict.id, found.value.role)
  {
    if BearerToken(header).None? then Rejected(Unauthorized, NotAuthorizedMessage)
    else if !verdict.Verified? then Rejected(Unauthorized, NotAuthorizedMessage)
    else if found.None? then Rejected(Unauthorized, "No user found with this token")
    else if !found.value.isActive then Rejected(Unauthorized, "User account is deactivated")
    else if found.value.IsLocked(now) then Rejected(Unauthorized, "Account is temporarily locked due to multiple failed login attempts")
    else Authenticated(Principal(found.value.id, found.value.role))
  }

  datatype Result = Authenticated(user: Principal) | Rejected(status: int, message: string)

  /** An account locked by five failed logins cannot use even a valid session
      token until its lock runs out. */
  lemma LockedAccountIsRejected(header: Option<string>, u: User, now: Millis)
    requires LockActive(u.LockStatus(), now)
    ensures Protect(header, Verified(u.id), Some(u), now).Rejected?
  {
  }

  // ---------------------------------------------------------------------------
  // authorize
  // ---------------------------------------------------------------------------

  /** `authorize(...roles)`. */
  function Authorize(user: Option<Principal>, roles: seq<Role>): (d: Decision)
    ensures d == Next <==> user.Some? && user.value.role in roles
    ensures user.None? ==> d == Deny(Unauthorized, NotAuthorizedMessage)
    ensures user.Some? && user.value.role !in roles ==> d.Deny? && d.status == Forbidden
  {
    if user.None? then Deny(Unauthorized, NotAuthorizedMessage)
    else if user.value.role !in roles then
      Deny(Forbidden, "User role " + RoleName(user.value.role) + " is not authorized to access this route")
    else Next
  }

  // ---------------------------------------------------------------------------
  // canAccessPatient
  // ---------------------------------------------------------------------------

  /** `assignedDoctors.some(doc => doc.doctor.toString() === id)`. */
  predicate IsAssigned(ds: seq<Assignment>, d: Id) {
    exists i :: 0 <= i < |ds| && ds[i].doctor == d
  }

  const PatientDataMessage := "Not authorized to access this patient data"

  /** `canAccessPatient`. `ownPatient` is the id of the Patient record whose
      user is the caller (`Patient.findOne({ user })`) and `requested` the
      assigned doctors of the Patient record with the requested id
      (`Patient.findById(patientId)`), when those exist. */
  function CanAccessPatient(user: Principal, patientId: Id, ownPatient: Option<Id>, requested: Option<seq<Assignment>>): (d: Decision)
    ensures user.role == Admin ==> d == Next
    ensures user.role == Patient ==> (d == Next <==> ownPatient == Some(patientId))
    ensures user.role == Doctor && requested.None? ==> d == Deny(NotFound, "Patient not found")
    ensures user.role == Doctor && requested.Some? ==> (d == Next <==> IsAssigned(requested.value, user.id))
    ensures user.role.UnknownRole? ==> d == Deny(Forbidden, "Not authorized to access patient data")
    ensures d.Deny? ==> d.status in {Forbidden, NotFound}
  {
    match user.role
    case Admin => Next
    case Patient => if ownPatient != Some(patientId) then Deny(Forbidden, PatientDataMessage) else Next
    case Doctor =>
      if requested.None? then Deny(NotFound, "Patient not found")
      else if !IsAssigned(requested.value, user.id) then Deny(Forbidden, PatientDataMessage)
      else Next
    case UnknownRole(_) => Deny(Forbidden, "Not authorized to access patient data")
  }

  /** A doctor's access to a patient does not depend on the primary flag:
      every doctor assignment, saved through the patient's hook, gives access
      and removing the doctor revokes it. */
  lemma AssignmentGrantsPatientAccess(ds: seq<Assignment>, d: Id, isPrimary: bool, specialization: string, now: Millis, patientId: Id)
    ensures CanAccessPatient(Principal(d, Doctor), patientId, None,
              Some(PrimaryHookAsWritten(AssignAsWritten(ds, d, isPrimary, specialization, now)))) == Next
    ensures CanAccessPatient(Principal(d, Doctor), patientId, None, Some(WithoutDoctor(ds, d))).Deny?
  {
    var r := AssignAsWritten(ds, d, isPrimary, specialization, now);
    AssignAsWrittenUpdatesOrAppends(ds, d, isPrimary, specialization, now);
    match IndexOfDoctor(ds, d)
    case Some(i) => assert r[i].doctor == d;
    case None => assert r[|ds|].doctor == d;
    HookKeepsDoctor(r, d);
    var saved := PrimaryHookAsWritten(r);
    var k := IndexOfDoctor(saved, d).value;
    assert saved[k].doctor == d;
  }

  // ---------------------------------------------------------------------------
  // canAccessRecord
  // ---------------------------------------------------------------------------

  /** What `canAccessRecord` reads of a record loaded with its patient: the
      author, the patient's user, the patient's assigned doctors and the
      record's shares. */
  datatype RecordView = RecordView(author: Id, patientUser: Id, patientDoctors: seq<Assignment>, shares: seq<Share>)

  /** A share that has not run out: no expiry date, or one still ahead. */
  predicate Live(s: Share, now: Millis) {
    s.expiryDate.None? || s.expiryDate.value > now
  }

  /** `sharedWith.some(share => share.user === id && (!share.expiryDate || share.expiryDate > now))`. */
  predicate SharedWith(ss: seq<Share>, u: Id, now: Millis) {
    exists i :: 0 <= i < |ss| && ss[i].user == u && Live(ss[i], now)
  }

  const RecordMessage := "Not authorized to access this medical record"

  /** `canAccessRecord` over the record `findById` returned, if any. */
  function CanAccessRecord(user: Principal, record: Option<RecordView>, now: Millis): (d: Decision)
    ensures record.None? ==> d == Deny(NotFound, "Medical record not found")
    ensures record.Some? && user.role == Admin ==> d == Next
    ensures record.Some? && user.role == Patient ==> (d == Next <==> record.value.patientUser == user.id)
    ensures record.Some? && user.role == Doctor ==>
              (d == Next <==> record.value.author == user.id || IsAssigned(record.value.patientDoctors, user.id)
                              || SharedWith(record.value.shares, user.id, now))
    ensures record.Some? && user.role.UnknownRole? ==> d == Deny(Forbidden, "Not authorized to access medical records")
  {
    if record.None? then Deny(NotFound, "Medical record not found")
    else
      var r := record.value;
      match user.role
      case Admin => Next
      case Patient => if r.patientUser != user.id then Deny(Forbidden, RecordMessage) else Next
      case Doctor =>
        if r.author != user.id && !IsAssigned(r.patientDoctors, user.id) && !SharedWith(r.shares, user.id, now)
        then Deny(Forbidden, RecordMessage) else Next
      case UnknownRole(_) => Deny(Forbidden, "Not authorized to access medical records")
  }
  /** The route parameter `canAccessRecord` reads, and the one the record
      routes declare (`/:id`). */
  const RecordParam := "recordId"
  const RouteParam := "id"

  /** `MedicalRecord.findById(req.params[name])`: the record the named route
      parameter holds, or none when the parameter is absent (Mongoose finds
      nothing for an undefined id) or names no record. */
  function LoadRecord(params: map<string, Id>, name: string, records: map<Id, RecordView>): (r: Option<RecordView>)
    ensures r.Some? <==> name in params && params[name] in records
    ensures r.Some? ==> r.value == records[params[name]]
  {
    if name in params && params[name] in records then Some(records[params[name]]) else None
  }

  /** As written, the middleware reads `recordId` while every record route
      names its parameter `id`, so no record is ever found and each record
      route behind it answers 404, whoever asks. */
  lemma RecordMiddlewareAsWrittenFindsNothing(p: Principal, id: Id, records: map<Id, RecordView>, now: Millis)
    ensures CanAccessRecord(p, LoadRecord(map[RouteParam := id], RecordParam, records), now)
            == Deny(NotFound, "Medical record not found")
  {
    assert RecordParam !in map[RouteParam := id];
  }

  /** Reading the parameter the routes declare, the decision is made on the
      requested record. */
  lemma RouteParamDecidesOnRequestedRecord(p: Principal, id: Id, records: map<Id, RecordView>, now: Millis)
    requires id in records
    ensures LoadRecord(map[RouteParam := id], RouteParam, records) == Some(records[id])
    ensures CanAccessRecord(p, LoadRecord(map[RouteParam := id], RouteParam, records), now)
            == CanAccessRecord(p, Some(records[id]), now)
  {
    assert RouteParam in map[RouteParam := id];
  }


  /** Share permissions play no part in reading a record: any permissions on
      the caller's live share give the same decision. */
  lemma RecordAccessIgnoresPermissions(user: Principal, r: RecordView, i: nat, permissions: seq<string>, now: Millis)
    requires i < |r.shares|
    ensures CanAccessRecord(user, Some(r), now) ==
            CanAccessRecord(user, Some(r.(shares := r.shares[i := r.shares[i].(permissions := permissions)])), now)
  {
    var r2 := r.(shares := r.shares[i := r.shares[i].(permissions := permissions)]);
    if SharedWith(r.shares, user.id, now) {
      var k :| 0 <= k < |r.shares| && r.shares[k].user == user.id && Live(r.shares[k], now);
      assert r2.shares[k].user == user.id && Live(r2.shares[k], now);
    }
    if SharedWith(r2.shares, user.id, now) {
      var k :| 0 <= k < |r2.shares| && r2.shares[k].user == user.id && Live(r2.shares[k], now);
      assert r.shares[k].user == user.id && Live(r.shares[k], now);
    }
  }

  /** Sharing a record with a doctor, with no expiry, lets that doctor read it. */
  lemma ShareGrantsRecordAccess(r: RecordView, u: Id, permissions: seq<string>, sharedAt: Millis, now: Millis)
    ensures CanAccessRecord(Principal(u, Doctor), Some(r.(shares := ShareList(r.shares, u, permissions, None, sharedAt))), now) == Next
  {
    var ss := ShareList(r.shares, u, permissions, None, sharedAt);
    assert ss[|ss| - 1].user == u && Live(ss[|ss| - 1], now);
  }

  /** A doctor whose only link to a record is a share that has run out is
      refused. */
  lemma ExpiredShareIsRefused(r: RecordView, u: Id, now: Millis)
    requires r.author != u && !IsAssigned(r.patientDoctors, u)
    requires forall i :: 0 <= i < |r.shares| && r.shares[i].user == u ==> r.shares[i].expiryDate.Some? && r.shares[i].expiryDate.value <= now
    ensures CanAccessRecord(Principal(u, Doctor), Some(r), now) == Deny(Forbidden, RecordMessage)
  {
  }

  // ---------------------------------------------------------------------------
  // sensitiveOperationLimit
  // ---------------------------------------------------------------------------

  const SensitiveWindowMs := 15 * 60 * 1000
  const MaxSensitiveOperations := 5
  const TooManyMessage := "Too many sensitive operations. Please try again later."

  /** `${req.ip}-${req.user?._id || 'anonymous'}`. */
  function SensitiveKey(ip: string, userId: Option<Id>): string {
    ip + "-" + (if TruthyText(userId) then userId.value else "anonymous")
  }

  /** The process-wide `global.sensitiveOperations` map. */
  class RateLimiter {
    var windows: map<string, seq<Millis>>

    /** No key ever holds more attempts than the limit. */
    ghost predicate Valid()
      reads this
    {
      forall k :: k in windows ==> |windows[k]| <= MaxSensitiveOperations
    }

    constructor ()
      ensures Valid() && windows == map[]
    {
      windows := map[];
    }

    /** The attempts stored for a key; a key never seen has none. */
    function Attempts(key: string): seq<Millis>
      reads this
    {
      if key in windows then windows[key] else []
    }

    /** `sensitiveOperationLimit`: with the limit already reached inside the
        window the request is refused with 429 and nothing is recorded;
        otherwise the stale attempts are dropped and `now` is recorded. */
    method Check(ip: string, userId: Option<Id>, now: Millis) returns (d: Decision)
      requires Valid()
      modifies this
      ensures Valid()
      ensures var key := SensitiveKey(ip, userId);
        var recent := Recent(old(Attempts(key)), now, SensitiveWindowMs);
        && (d.Deny? <==> IsRateLimited(old(Attempts(key)), SensitiveWindowMs, MaxSensitiveOperations, now))
        && (d.Deny? ==> d == Deny(TooManyRequests, TooManyMessage) && windows == old(windows))
        && (d == Next ==> windows == old(windows)[key := recent + [now]])
    {
      var key := SensitiveKey(ip, userId);
      var attempts := Attempts(key);
      var recent := Recent(attempts, now, SensitiveWindowMs);
      if |recent| >= MaxSensitiveOperations {
        return Deny(TooManyRequests, TooManyMessage);
      }
      windows := windows[key := recent + [now]];
      d := Next;
    }
  }

  /** Six requests for the same key inside one window: the sixth is refused. */
  lemma SixthOperationInWindowIsRefused(attempts: seq<Millis>, now: Millis)
    requires |attempts| == MaxSensitiveOperations
    requires forall i :: 0 <= i < |attempts| ==> now - SensitiveWindowMs < attempts[i] <= now
    ensures IsRateLimited(attempts, SensitiveWindowMs, MaxSensitiveOperations, now)
  {
    var r := Recent(attempts, now, SensitiveWindowMs);
    assert multiset(r) == multiset(attempts);
    assert |r| == |multiset(r)| == |multiset(attempts)| == |attempts|;
  }

  // ---------------------------------------------------------------------------
  // auditLog
  // ---------------------------------------------------------------------------

  /** `req.auditInfo`. */
  datatype AuditInfo = AuditInfo(action: string, userId: Option<Id>, ipAddress: Option<string>, userAgent: Option<string>, timestamp: Millis)

  /** `auditLog(action)`: the request is stamped with who did what from
      where, and always passed on. */
  function AuditStamp(action: string, user: Option<Principal>, ip: Option<string>, remoteAddress: Option<string>,
                      userAgent: Option<string>, now: Millis): (r: (AuditInfo, Decision))
    ensures r.1 == Next
    ensures r.0.action == action && r.0.timestamp == now
    ensures r.0.userId == (if user.Some? then Some(user.value.id) else None)
    ensures TruthyText(ip) ==> r.0.ipAddress == ip
    ensures !TruthyText(ip) ==> r.0.ipAddress == remoteAddress
    ensures r.0.userAgent == userAgent
  {
    var address := if TruthyText(ip) then ip else remoteAddress;
    (AuditInfo(action, if user.Some? then Some(user.value.id) else None, address, userAgent, now), Next)
  }
}
