/** The medical-record routes (server/routes/recordRoutes.js): the middleware
    chain and the inline permission checks of each route, the filters of the
    list and search routes, and the routes that change a record. Every route
    runs behind `protect`, so the caller is an authenticated principal. */
module RecordRoutes {
  import opened Common
  import opened PatientModel
  import opened MedicalRecordModel
  import opened AuthUtils
  import opened AccessControl
  import opened Text

  /** A share that lets its user edit: it is the user's, lists `write` and has
      not run out. */
  predicate HasWriteAccess(ss: seq<Share>, u: Id, now: Millis) {
    exists i :: 0 <= i < |ss| && ss[i].user == u && "write" in ss[i].permissions && Live(ss[i], now)
  }

  // ---------------------------------------------------------------------------
  // PUT /:id, DELETE /:id, POST /:id/share: the permission checks
  // ---------------------------------------------------------------------------

  const EditMessage := "Not authorized to edit this record"
  const DeleteMessage := "Not authorized to delete this record"

  /** `canAccessRecord`, then `authorize('doctor')`, then the edit check: the
      author, an admin, or the holder of a live `write` share. */
  function UpdateDecision(p: Principal, record: Option<RecordView>, now: Millis): Decision {
    var access := CanAccessRecord(p, record, now);
    var role := Authorize(Some(p), [Doctor]);
    if access.Deny? then access
    else if role.Deny? then role
    else if record.value.author != p.id && p.role != Admin && !HasWriteAccess(record.value.shares, p.id, now)
    then Deny(Forbidden, EditMessage)
    else Next
  }

  /** Exactly the author and the holders of a live `write` share may edit,
      and they must be doctors: a read-only share, or an assignment to the
      patient alone, is refused. */
  lemma UpdateAllowedExactly(p: Principal, r: RecordView, now: Millis)
    ensures UpdateDecision(p, Some(r), now) == Next <==>
              p.role == Doctor && (r.author == p.id || HasWriteAccess(r.shares, p.id, now))
  {
    if p.role == Doctor && HasWriteAccess(r.shares, p.id, now) {
      var i :| 0 <= i < |r.shares| && r.shares[i].user == p.id && "write" in r.shares[i].permissions && Live(r.shares[i], now);
      assert SharedWith(r.shares, p.id, now);
    }
  }

  /** The role gate runs before the inline admin exemption, so an admin can
      never edit a record. */
  lemma AdminsCannotUpdate(p: Principal, r: RecordView, now: Millis)
    requires p.role == Admin
    ensures UpdateDecision(p, Some(r), now) == Deny(Forbidden, "User role " + "admin" + " is not authorized to access this route")
  {
  }

  /** `canAccessRecord`, then `authorize('doctor', 'admin')`, then the delete
      check: the author or an admin. */
  function DeleteDecision(p: Principal, record: Option<RecordView>, now: Millis): Decision {
    var access := CanAccessRecord(p, record, now);
    var role := Authorize(Some(p), [Doctor, Admin]);
    if access.Deny? then access
    else if role.Deny? then role
    else if record.value.author != p.id && p.role != Admin then Deny(Forbidden, DeleteMessage)
    else Next
  }

  /** Only the author, when a doctor, and admins may delete. */
  lemma DeleteAllowedExactly(p: Principal, r: RecordView, now: Millis)
    ensures DeleteDecision(p, Some(r), now) == Next <==> p.role == Admin || (p.role == Doctor && r.author == p.id)
    ensures p.role == Doctor && r.author != p.id && CanAccessRecord(p, Some(r), now) == Next ==>
              DeleteDecision(p, Some(r), now) == Deny(Forbidden, DeleteMessage)
  {
  }

  /** `canAccessRecord`, then `authorize('doctor')`, then a user id is
      required (400) and only the author may share (403). */
  function ShareDecision(p: Principal, record: Option<RecordView>, userId: Option<Id>, now: Millis): Decision {
    var access := CanAccessRecord(p, record, now);
    var role := Authorize(Some(p), [Doctor]);
    if access.Deny? then access
    else if role.Deny? then role
    else if !TruthyText(userId) then Deny(BadRequest, "User ID is required")
    else if record.value.author != p.id then Deny(Forbidden, "Only the record creator can share it")
    else Next
  }

  /** Only the authoring doctor may share, and only with a named user; a
      share holder, even one with `share` permission, may not. */
  lemma ShareAllowedExactly(p: Principal, r: RecordView, userId: Option<Id>, now: Millis)
    ensures ShareDecision(p, Some(r), userId, now) == Next <==>
              p.role == Doctor && r.author == p.id && TruthyText(userId)
    ensures p.role == Doctor && CanAccessRecord(p, Some(r), now) == Next && !TruthyText(userId) ==>
              ShareDecision(p, Some(r), userId, now) == Deny(BadRequest, "User ID is required")
  {
  }

  // ---------------------------------------------------------------------------
  // The routes that change a record
  // ---------------------------------------------------------------------------

  /** What `canAccessRecord` sees of a record populated with its patient. */
  function ViewOf(rec: MedicalRecord, pat: Patient): (v: RecordView)
    reads rec, pat
    ensures v.author == rec.doctor && v.shares == rec.sharedWith
    ensures v.patientUser == pat.user && v.patientDoctors == pat.assignedDoctors
  {
    RecordView(rec.doctor, pat.user, pat.assignedDoctors, rec.sharedWith)
  }

  /** `POST /:id/share`. The record is shared only when every check passes
      and the save succeeds; the save fails validation, answering 500, exactly
      when a permission is outside the enum. A successful save also gains
      the audit hook's `updated` entry. */
  method ShareRoute(p: Principal, rec: MedicalRecord, pat: Patient, userId: Option<Id>,
                    permissions: Option<seq<string>>, expiryDate: Option<Millis>, now: Millis) returns (reply: Reply)
    requires rec.Valid()
    modifies rec
    ensures rec.Valid()
    ensures var d := ShareDecision(p, Some(old(ViewOf(rec, pat))), userId, now);
      && (d.Deny? ==> reply == Reply(d.status, d.message))
      && (d == Next ==> reply.status in {Ok, ServerError})
      && (d == Next ==> (reply.status == Ok <==>
            forall q :: q in permissions.GetOr(DefaultPermissions) ==> ValidPermission(q)))
      && (d == Next && reply.status == Ok ==>
            rec.sharedWith == ShareList(old(rec.sharedWith), userId.value, permissions.GetOr(DefaultPermissions), expiryDate, now)
            && rec.auditLog == old(rec.auditLog) + AuditHook(false, true, rec.doctor, now))
    ensures reply.status != Ok ==> rec.sharedWith == old(rec.sharedWith) && rec.auditLog == old(rec.auditLog)
    ensures reply.status == Ok ==> reply.message == "Record shared successfully"
    ensures rec.diagnosis == old(rec.diagnosis) && rec.attachments == old(rec.attachments)
  {
    var d := ShareDecision(p, Some(ViewOf(rec, pat)), userId, now);
    if d.Deny? {
      return Reply(d.status, d.message);
    }
    var saved := rec.ShareWith(userId.value, permissions, expiryDate, now);
    if !saved {
      return ServerErrorReply;
    }
    reply := Reply(Ok, "Record shared successfully");
  }

  /** `POST /:id/attachments`: after the access and role checks, a missing
      name, path or type is a 400; otherwise the attachment is stored (201),
      or the save fails (500). */
  method AttachmentRoute(p: Principal, rec: MedicalRecord, pat: Patient, data: AttachmentData, now: Millis) returns (reply: Reply)
    requires rec.Valid()
    modifies rec
    ensures rec.Valid()
    ensures var access := CanAccessRecord(p, Some(old(ViewOf(rec, pat))), now);
      && (reply.status == Created <==>
            access == Next && p.role == Doctor && data.fileName != "" && data.filePath != "" && ValidFileType(data.fileType))
      && (access == Next && p.role == Doctor && (data.fileName == "" || data.filePath == "" || data.fileType == "") ==>
            reply == Reply(BadRequest, "File name, path, and type are required"))
    ensures reply.status == Created ==>
              rec.attachments == old(rec.attachments) + [Attachment(data.fileName, data.filePath, data.fileType, data.fileSize, data.description, p.id, now)]
    ensures reply.status != Created ==> rec.attachments == old(rec.attachments)
    ensures reply.status == Created ==> rec.auditLog == old(rec.auditLog) + AuditHook(false, true, rec.doctor, now)
    ensures reply.status != Created ==> rec.auditLog == old(rec.auditLog)
    ensures rec.sharedWith == old(rec.sharedWith) && rec.diagnosis == old(rec.diagnosis)
  {
    var access := CanAccessRecord(p, Some(ViewOf(rec, pat)), now);
    if access.Deny? {
      return Reply(access.status, access.message);
    }
    var role := Authorize(Some(p), [Doctor]);
    if role.Deny? {
      return Reply(role.status, role.message);
    }
    if data.fileName == "" || data.filePath == "" || data.fileType == "" {
      return Reply(BadRequest, "File name, path, and type are required");
    }
    var saved := rec.AddAttachment(data, p.id, now);
    if !saved {
      return ServerErrorReply;
    }
    reply := Reply(Created, "Attachment added successfully");
  }

  /** `GET /:id`: a caller allowed to read the record gets it, and the view
      is logged with the caller and address before the audit hook's
      `updated` entry. */
  method ViewRoute(p: Principal, rec: MedicalRecord, pat: Patient, ip: string, now: Millis) returns (reply: Reply)
    requires rec.Valid()
    modifies rec
    ensures rec.Valid()
    ensures var access := CanAccessRecord(p, Some(old(ViewOf(rec, pat))), now);
      && (access.Deny? ==> reply == Reply(access.status, access.message) && rec.auditLog == old(rec.auditLog))
      && (access == Next ==>
            reply.status == Ok
            && rec.auditLog == old(rec.auditLog) + [AuditEntry(ViewedAction, p.id, now, "Record viewed", Some(ip))]
                               + AuditHook(false, true, rec.doctor, now))
    ensures rec.sharedWith == old(rec.sharedWith) && rec.attachments == old(rec.attachments)
    ensures rec.diagnosis == old(rec.diagnosis)
  {
    var access := CanAccessRecord(p, Some(ViewOf(rec, pat)), now);
    if access.Deny? {
      return Reply(access.status, access.message);
    }
    rec.AddAuditLog(ViewedAction, p.id, "Record viewed", ip, now);
    reply := Reply(Ok, "");
  }

  /** `POST /`: only doctors create records, the author is always the caller
      whatever doctor the body names, and a record failing validation is a
      500. The body is spread into the document, so the `attachments`,
      `auditLog` and `sharedWith` it carries are stored as given. */
  method CreateRoute(p: Principal, id: Id, body: RecordDraft, arrays: BodyArrays, bodyDoctor: Option<Id>, now: Millis)
    returns (reply: Reply, rec: MedicalRecord?)
    ensures reply.status == Created <==> p.role == Doctor && DraftValid(body) && ArraysValid(arrays)
    ensures p.role != Doctor ==> reply == Reply(Forbidden, "User role " + RoleName(p.role) + " is not authorized to access this route")
    ensures p.role == Doctor && !(DraftValid(body) && ArraysValid(arrays)) ==> reply == ServerErrorReply
    ensures reply.status == Created ==>
              rec != null && fresh(rec) && rec.Valid() && rec.doctor == p.id && rec.content == body
              && rec.id == id && rec.patient == body.patient
              && rec.diagnosis == DiagnosisHookAsWritten(body.diagnosis)
              && rec.attachments == arrays.attachments && rec.sharedWith == arrays.sharedWith
              && rec.auditLog == arrays.auditLog + AuditHook(true, true, p.id, now)
    ensures reply.status != Created ==> rec == null
  {
    rec := null;
    var role := Authorize(Some(p), [Doctor]);
    if role.Deny? {
      return Reply(role.status, role.message), null;
    }
    if !(DraftValid(body) && ArraysValid(arrays)) {
      return ServerErrorReply, null;
    }
    rec := new MedicalRecord(id, body, arrays, p.id, now);
    reply := Reply(Created, "Medical record created successfully");
  }

  /** A share the create body carries grants access from the start: a doctor
      named in a body share without an expiry date may read the new record
      though the author never called `POST /:id/share`. */
  lemma BodyShareGrantsAccess(arrays: BodyArrays, author: Id, doctor: Id, now: Millis,
                              patientUser: Id, doctors: seq<Assignment>, k: nat)
    requires k < |arrays.sharedWith| && arrays.sharedWith[k].user == doctor && arrays.sharedWith[k].expiryDate.None?
    ensures CanAccessRecord(Principal(doctor, Doctor),
                            Some(RecordView(author, patientUser, doctors, arrays.sharedWith)), now) == Next
  {
    assert Live(arrays.sharedWith[k], now);
  }

  // ---------------------------------------------------------------------------
  // GET /patient/:patientId
  // ---------------------------------------------------------------------------

  /** `authorize('doctor', 'admin', 'patient')`, then a patient may ask only
      for their own patient id (`ownPatient` is the id of the caller's Patient
      record, if any). */
  function PatientRecordsDecision(p: Principal, patientId: Id, ownPatient: Option<Id>): Decision {
    var role := Authorize(Some(p), [Doctor, Admin, Patient]);
    if role.Deny? then role
    else if p.role == Patient && ownPatient != Some(patientId) then Deny(Forbidden, "Not authorized to access these records")
    else Next
  }

  /** A patient reads only their own records; doctors and admins are not
      restricted further. Unlike `canAccessPatient`, the route does not ask
      whether a doctor is assigned to the patient. */
  lemma PatientRecordsAllowedExactly(p: Principal, patientId: Id, ownPatient: Option<Id>, ds: seq<Assignment>)
    ensures PatientRecordsDecision(p, patientId, ownPatient) == Next <==>
              p.role in {Doctor, Admin} || (p.role == Patient && ownPatient == Some(patientId))
    ensures p.role == Doctor && !IsAssigned(ds, p.id) ==>
              PatientRecordsDecision(p, patientId, ownPatient) == Next && CanAccessPatient(p, patientId, ownPatient, Some(ds)).Deny?
  {
  }

  // ---------------------------------------------------------------------------
  // GET / and GET /search: the filters
  // ---------------------------------------------------------------------------

  /** The query-string fields the list and search routes filter on. */
  datatype ListQuery = ListQuery(patient: Option<Id>, status: Option<string>, visitType: Option<string>)

  /** The fields of a stored record the filters test. */
  datatype RecordSummary = RecordSummary(patient: Id, status: string, visitType: string, author: Id, shares: seq<Share>)

  /** The MongoDB filter object: equality on the given fields and, for a
      doctor, `$or: [{ doctor: id }, { 'sharedWith.user': id }]`. */
  datatype RecordFilter = RecordFilter(patient: Option<Id>, status: Option<string>, visitType: Option<string>, scope: Option<Id>)

  predicate Matches(f: RecordFilter, r: RecordSummary) {
    && (f.patient.Some? ==> r.patient == f.patient.value)
    && (f.status.Some? ==> r.status == f.status.value)
    && (f.visitType.Some? ==> r.visitType == f.visitType.value)
    && (f.scope.Some? ==> r.author == f.scope.value || exists i :: 0 <= i < |r.shares| && r.shares[i].user == f.scope.value)
  }

  /** Which records a caller is shown: those matching every truthy query
      field and, for a doctor, authored by or shared with them. */
  predicate Listed(p: Principal, q: ListQuery, r: RecordSummary) {
    && (TruthyText(q.patient) ==> r.patient == q.patient.value)
    && (TruthyText(q.status) ==> r.status == q.status.value)
    && (TruthyText(q.visitType) ==> r.visitType == q.visitType.value)
    && (p.role == Doctor ==> r.author == p.id || exists s :: s in r.shares && s.user == p.id)
  }

  /** The filter of the list and search routes, field by field. */
  method BuildFilter(p: Principal, q: ListQuery) returns (f: RecordFilter)
    ensures forall r :: Matches(f, r) <==> Listed(p, q, r)
  {
    f := RecordFilter(None, None, None, None);
    if TruthyText(q.patient) {
      f := f.(patient := q.patient);
    }
    if TruthyText(q.status) {
      f := f.(status := q.status);
    }
    if TruthyText(q.visitType) {
      f := f.(visitType := q.visitType);
    }
    if p.role == Doctor {
      f := f.(scope := Some(p.id));
    }
    forall r ensures Matches(f, r) <==> Listed(p, q, r) {
      if p.role == Doctor {
        assert (exists i :: 0 <= i < |r.shares| && r.shares[i].user == p.id) <==> (exists s :: s in r.shares && s.user == p.id);
      }
    }
  }

  /** `GET /search` requires a query text. */
  function SearchDecision(p: Principal, text: Option<string>): Decision {
    var role := Authorize(Some(p), [Doctor, Admin]);
    if role.Deny? then role
    else if !TruthyText(text) then Deny(BadRequest, "Search query is required")
    else Next
  }

  /** Search is open to doctors and admins only, and to them only with a
      non-empty query; otherwise it answers 400. */
  lemma SearchNeedsQuery(p: Principal, text: Option<string>)
    ensures SearchDecision(p, text) == Next <==> p.role in {Doctor, Admin} && TruthyText(text)
    ensures p.role in {Doctor, Admin} && !TruthyText(text) ==>
      SearchDecision(p, text) == Deny(BadRequest, "Search query is required")
    ensures p.role !in {Doctor, Admin} ==> SearchDecision(p, text).status == Forbidden
  {
  }

  // ---------------------------------------------------------------------------
  // Which GET route answers: Express tries the routes in registration order
  // ---------------------------------------------------------------------------

  /** One segment of a route path: fixed text, or a named parameter, which
      matches any non-empty segment. */
  datatype Segment = Lit(text: string) | Param(name: string)

  /** The handlers of the router's GET routes. */
  datatype GetHandler = ListRecords | ViewRecord | PatientRecords | SearchRecords

  type RouteTable = seq<(seq<Segment>, GetHandler)>

  /** The GET routes in the order they are registered: `/`, `/:id`,
      `/patient/:patientId`, `/search`. */
  const GetRoutes: RouteTable := [
    ([], ListRecords),
    ([Param(RouteParam)], ViewRecord),
    ([Lit("patient"), Param("patientId")], PatientRecords),
    ([Lit("search")], SearchRecords)]

  /** The same routes with `/search` registered before `/:id`. */
  const GetRoutesSearchFirst: RouteTable := [
    ([], ListRecords),
    ([Lit("search")], SearchRecords),
    ([Param(RouteParam)], ViewRecord),
    ([Lit("patient"), Param("patientId")], PatientRecords)]

  /** A parameter matches any non-empty segment; a literal matches its text
      ignoring case, since `express.Router()` is not case sensitive. */
  predicate SegmentMatches(s: Segment, part: string) {
    part != "" && (s.Lit? ==> Lower(s.text) == Lower(part))
  }

  predicate PathMatches(pattern: seq<Segment>, path: seq<string>) {
    |pattern| == |path| && forall i :: 0 <= i < |path| ==> SegmentMatches(pattern[i], path[i])
  }

  /** The parameters a matching pattern binds, by name. */
  function Params(pattern: seq<Segment>, path: seq<string>): (m: map<string, string>)
    requires |pattern| == |path|
    ensures forall i :: 0 <= i < |pattern| && pattern[i].Param? ==> pattern[i].name in m
    ensures forall k :: k in m ==> exists i :: 0 <= i < |pattern| && pattern[i] == Param(k)
  {
    if pattern == [] then map[]
    else
      var rest := Params(pattern[1..], path[1..]);
      assert forall i :: 1 <= i < |pattern| ==> pattern[i] == pattern[1..][i - 1];
      if pattern[0].Param? then rest[pattern[0].name := path[0]] else rest
  }

  /** The router hands a request to the first registered route whose pattern
      matches the path, with the parameters that route binds. */
  function Dispatch(routes: RouteTable, path: seq<string>): (r: Option<(GetHandler, map<string, string>)>)
    ensures r.None? <==> forall i :: 0 <= i < |routes| ==> !PathMatches(routes[i].0, path)
    ensures r.Some? ==> exists i :: 0 <= i < |routes| && PathMatches(routes[i].0, path)
                          && r.value == (routes[i].1, Params(routes[i].0, path))
                          && forall j :: 0 <= j < i ==> !PathMatches(routes[j].0, path)
  {
    if routes == [] then None
    else if PathMatches(routes[0].0, path) then Some((routes[0].1, Params(routes[0].0, path)))
    else
      var r := Dispatch(routes[1..], path);
      assert forall i :: 1 <= i < |routes| ==> routes[i] == routes[1..][i - 1];
      assert r.Some? ==> exists i :: 1 <= i < |routes| && PathMatches(routes[i].0, path)
                           && r.value == (routes[i].1, Params(routes[i].0, path))
                           && forall j :: 0 <= j < i ==> !PathMatches(routes[j].0, path) by {
        if r.Some? {
          var k :| 0 <= k < |routes[1..]| && PathMatches(routes[1..][k].0, path)
                   && r.value == (routes[1..][k].1, Params(routes[1..][k].0, path))
                   && forall j :: 0 <= j < k ==> !PathMatches(routes[1..][j].0, path);
          assert forall j :: 1 <= j < k + 1 ==> !PathMatches(routes[j].0, path) by {
            forall j | 1 <= j < k + 1 ensures !PathMatches(routes[j].0, path) {
              assert routes[j] == routes[1..][j - 1];
            }
          }
        }
      }
      r
  }

  /** As registered, the search handler answers no request: every path that
      `/search` matches, `/:id` matched first. */
  lemma SearchRouteUnreachable(path: seq<string>)
    ensures Dispatch(GetRoutes, path).Some? ==> Dispatch(GetRoutes, path).value.0 != SearchRecords
  {
    if PathMatches(GetRoutes[3].0, path) {
      assert PathMatches(GetRoutes[1].0, path);
    }
  }

  /** `GET /search` is taken by the single-record route with `id` bound to
      "search"; `canAccessRecord`, reading `recordId`, finds no record and
      answers 404, whoever asks and whatever the query. */
  lemma SearchAnsweredAsMissingRecord(p: Principal, records: map<Id, RecordView>, now: Millis)
    ensures Dispatch(GetRoutes, ["search"]) == Some((ViewRecord, map[RouteParam := "search"]))
    ensures CanAccessRecord(p, LoadRecord(map[RouteParam := "search"], RecordParam, records), now)
            == Deny(NotFound, "Medical record not found")
  {
    assert PathMatches(GetRoutes[1].0, ["search"]);
    assert !PathMatches(GetRoutes[0].0, ["search"]);
    assert Params([Param(RouteParam)], ["search"]) == map[RouteParam := "search"];
    RecordMiddlewareAsWrittenFindsNothing(p, "search", records, now);
  }

  /** With `/search` registered before `/:id`, the search handler answers
      `GET /search` in any letter case, and every other single segment still
      reaches `/:id`. */
  lemma SearchFirstReachesHandler(id: string)
    ensures Dispatch(GetRoutesSearchFirst, ["search"]) == Some((SearchRecords, map[]))
    ensures id != "" && Lower(id) == "search" ==> Dispatch(GetRoutesSearchFirst, [id]) == Some((SearchRecords, map[]))
    ensures id != "" && Lower(id) != "search" ==>
              Dispatch(GetRoutesSearchFirst, [id]) == Some((ViewRecord, map[RouteParam := id]))
  {
    LowerSearch();
    assert !PathMatches(GetRoutesSearchFirst[0].0, [id]);
    assert Params([Lit("search")], [id]) == map[];
    if id != "" && Lower(id) == "search" {
      assert PathMatches(GetRoutesSearchFirst[1].0, [id]);
    }
    if id != "" && Lower(id) != "search" {
      assert !PathMatches(GetRoutesSearchFirst[1].0, [id]);
      assert PathMatches(GetRoutesSearchFirst[2].0, [id]);
      assert Params([Param(RouteParam)], [id]) == map[RouteParam := id];
    }
  }

  lemma LowerSearch()
    ensures Lower("search") == "search"
  {
    assert Lower("search") == "search" by {
      forall i | 0 <= i < 6 ensures Lower("search")[i] == "search"[i] { }
    }
  }

  /** Literal segments ignore case: `GET /PATIENT/x` reaches the patient
      records route as `GET /patient/x` does. */
  lemma PatientRouteIgnoresCase(part: string, patientId: string)
    requires Lower(part) == "patient" && patientId != ""
    ensures Dispatch(GetRoutes, [part, patientId]) == Some((PatientRecords, map["patientId" := patientId]))
  {
    assert Lower("patient") == "patient" by {
      forall i | 0 <= i < 7 ensures Lower("patient")[i] == "patient"[i] { }
    }
    assert |part| == 7;
    assert PathMatches(GetRoutes[2].0, [part, patientId]);
    assert Params([Lit("patient"), Param("patientId")], [part, patientId]) == map["patientId" := patientId];
  }


  /** The list ignores share expiry while `canAccessRecord` does not: a doctor
      whose share has run out still sees the record listed but may not open
      it, and a doctor assigned to the patient may open it without seeing it
      listed. */
  lemma ListAndAccessDisagree(u: Id, r: RecordSummary, doctors: seq<Assignment>, patientUser: Id, now: Millis)
    requires r.author != u
    ensures (exists i :: 0 <= i < |r.shares| && r.shares[i].user == u) ==> Listed(Principal(u, Doctor), ListQuery(None, None, None), r)
    ensures (forall i :: 0 <= i < |r.shares| && r.shares[i].user == u ==> r.shares[i].expiryDate.Some? && r.shares[i].expiryDate.value <= now)
            && !IsAssigned(doctors, u) ==>
              CanAccessRecord(Principal(u, Doctor), Some(RecordView(r.author, patientUser, doctors, r.shares)), now).Deny?
    ensures (forall i :: 0 <= i < |r.shares| ==> r.shares[i].user != u) && IsAssigned(doctors, u) ==>
              !Listed(Principal(u, Doctor), ListQuery(None, None, None), r)
              && CanAccessRecord(Principal(u, Doctor), Some(RecordView(r.author, patientUser, doctors, r.shares)), now) == Next
  {
    if exists i :: 0 <= i < |r.shares| && r.shares[i].user == u {
      var i :| 0 <= i < |r.shares| && r.shares[i].user == u;
      assert r.shares[i] in r.shares;
    }
  }
}
