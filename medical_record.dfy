/** The medical record document (server/models/MedicalRecord.js): its
    diagnoses with the at-most-one-primary save hook, its audit trail kept by
    the audit save hook, its attachments and its list of shares. */
module MedicalRecordModel {
  import opened Common

  // ---------------------------------------------------------------------------
  // Diagnoses
  // ---------------------------------------------------------------------------

  datatype Diagnosis = Diagnosis(primary: bool, condition: string)

  function PrimaryDiagnosisCount(ds: seq<Diagnosis>): (n: nat)
    ensures n <= |ds|
    ensures n == 0 <==> forall i :: 0 <= i < |ds| ==> !ds[i].primary
  {
    if ds == [] then 0 else (if ds[0].primary then 1 else 0) + PrimaryDiagnosisCount(ds[1..])
  }

  predicate AtMostOnePrimaryDiagnosis(ds: seq<Diagnosis>) {
    forall i, j :: 0 <= i < |ds| && 0 <= j < |ds| && ds[i].primary && ds[j].primary ==> i == j
  }

  /** The index of the first diagnosis flagged primary. */
  function FirstPrimaryDiagnosis(ds: seq<Diagnosis>): (r: Option<nat>)
    ensures r.Some? ==> r.value < |ds| && ds[r.value].primary && forall j :: 0 <= j < r.value ==> !ds[j].primary
    ensures r.None? <==> forall j :: 0 <= j < |ds| ==> !ds[j].primary
  {
    if ds == [] then None
    else if ds[0].primary then Some(0)
    else
      var r := FirstPrimaryDiagnosis(ds[1..]);
      if r.Some? then Some(r.value + 1) else None
  }

  /** The `primaryDiagnosis` virtual: the first primary diagnosis, otherwise the
      first diagnosis, and nothing for an empty list. */
  function PrimaryDiagnosis(ds: seq<Diagnosis>): (r: Option<Diagnosis>)
    ensures r.None? <==> ds == []
    ensures r.Some? ==> r.value in ds
    ensures (exists i :: 0 <= i < |ds| && ds[i].primary) ==> r.Some? && r.value.primary
    ensures (forall i :: 0 <= i < |ds| ==> !ds[i].primary) && ds != [] ==> r == Some(ds[0])
  {
    match FirstPrimaryDiagnosis(ds)
    case Some(k) => Some(ds[k])
    case None => if ds == [] then None else Some(ds[0])
  }

  /** The diagnosis save hook exactly as written: with more than one primary,
      every primary diagnosis at an index above 0 is demoted. */
  function DiagnosisHookAsWritten(ds: seq<Diagnosis>): (r: seq<Diagnosis>)
    ensures |r| == |ds|
    ensures forall i :: 0 <= i < |ds| ==> r[i].condition == ds[i].condition
  {
    if PrimaryDiagnosisCount(ds) > 1
    then seq(|ds|, i requires 0 <= i < |ds| => if i > 0 && ds[i].primary then ds[i].(primary := false) else ds[i])
    else ds
  }

  /** Two primary diagnoses count more than one. */
  lemma {:induction false} TwoPrimaryDiagnosesCount(ds: seq<Diagnosis>, i: nat, j: nat)
    requires i < j < |ds| && ds[i].primary && ds[j].primary
    ensures PrimaryDiagnosisCount(ds) > 1
  {
    if i == 0 {
      assert ds[1..][j - 1].primary;
    } else {
      TwoPrimaryDiagnosesCount(ds[1..], i - 1, j - 1);
    }
  }

  /** As written, the hook leaves at most one primary diagnosis, and when it
      acts the survivor can only be the first diagnosis. */
  lemma DiagnosisHookAsWrittenLeavesIndexZero(ds: seq<Diagnosis>)
    ensures AtMostOnePrimaryDiagnosis(DiagnosisHookAsWritten(ds))
    ensures PrimaryDiagnosisCount(ds) > 1 ==>
              forall i :: 0 < i < |ds| ==> !DiagnosisHookAsWritten(ds)[i].primary
  {
    if PrimaryDiagnosisCount(ds) <= 1 {
      forall i, j | 0 <= i < |ds| && 0 <= j < |ds| && ds[i].primary && ds[j].primary ensures i == j {
        if i < j { TwoPrimaryDiagnosesCount(ds, i, j); }
        if j < i { TwoPrimaryDiagnosesCount(ds, j, i); }
      }
    }
  }

  /** As written, two primary diagnoses after a non-primary first one are both
      demoted, so the primary diagnosis falls back to the non-primary first one. */
  lemma DiagnosisHookAsWrittenDropsEveryPrimary(a: Diagnosis, b: Diagnosis, c: Diagnosis)
    requires !a.primary && b.primary && c.primary
    ensures PrimaryDiagnosis([a, b, c]) == Some(b)
    ensures PrimaryDiagnosis(DiagnosisHookAsWritten([a, b, c])) == Some(a)
  {
    var ds := [a, b, c];
    TwoPrimaryDiagnosesCount(ds, 1, 2);
    var r := DiagnosisHookAsWritten(ds);
    assert r[0] == a && r[1] == b.(primary := false) && r[2] == c.(primary := false);
    assert r == [a, b.(primary := false), c.(primary := false)];
    assert FirstPrimaryDiagnosis([a, b, c]) == Some(1);
  }

  /** The diagnosis hook as intended ("keep only the first primary
      diagnosis"): with more than one primary, every primary but the first is
      demoted. */
  function DiagnosisHook(ds: seq<Diagnosis>): (r: seq<Diagnosis>)
    ensures |r| == |ds|
  {
    if PrimaryDiagnosisCount(ds) > 1
    then seq(|ds|, i requires 0 <= i < |ds| =>
               if ds[i].primary && FirstPrimaryDiagnosis(ds) != Some(i) then ds[i].(primary := false) else ds[i])
    else ds
  }

  /** The intended hook leaves at most one primary diagnosis, keeps the primary
      diagnosis the record had, and changes no condition. */
  lemma DiagnosisHookKeepsFirstPrimary(ds: seq<Diagnosis>)
    ensures AtMostOnePrimaryDiagnosis(DiagnosisHook(ds))
    ensures PrimaryDiagnosis(DiagnosisHook(ds)) == PrimaryDiagnosis(ds)
    ensures forall i :: 0 <= i < |ds| ==> DiagnosisHook(ds)[i].condition == ds[i].condition
  {
    var r := DiagnosisHook(ds);
    if PrimaryDiagnosisCount(ds) > 1 {
      var k := FirstPrimaryDiagnosis(ds).value;
      assert forall i :: 0 <= i < |r| && r[i].primary ==> i == k;
      assert r[k] == ds[k];
      assert FirstPrimaryDiagnosis(r) == Some(k);
    } else {
      forall i, j | 0 <= i < |ds| && 0 <= j < |ds| && ds[i].primary && ds[j].primary ensures i == j {
        if i < j { TwoPrimaryDiagnosesCount(ds, i, j); }
        if j < i { TwoPrimaryDiagnosesCount(ds, j, i); }
      }
    }
  }

  // ---------------------------------------------------------------------------
  // Audit trail
  // ---------------------------------------------------------------------------

  datatype AuditAction = CreatedAction | UpdatedAction | ViewedAction | SharedAction | DeletedAction

  /** One `auditLog` entry; `ipAddress` is absent on the entries the save hook adds. */
  datatype AuditEntry = AuditEntry(action: AuditAction, performedBy: Id, timestamp: Millis, details: string, ipAddress: Option<string>)

  /** The entries the audit save hook adds: `created` for a new document,
      `updated` for a modified one, none otherwise; always by the record's
      doctor. */
  function AuditHook(isNew: bool, modified: bool, doctor: Id, now: Millis): (added: seq<AuditEntry>)
    ensures |added| <= 1
    ensures forall e :: e in added ==> e.performedBy == doctor && e.timestamp == now
  {
    if isNew then [AuditEntry(CreatedAction, doctor, now, "Medical record created", None)]
    else if modified then [AuditEntry(UpdatedAction, doctor, now, "Medical record updated", None)]
    else []
  }

  /** A new record gets exactly one `created` entry, a modified existing record
      exactly one `updated` entry and an unmodified record none. */
  lemma AuditHookCases(isNew: bool, modified: bool, doctor: Id, now: Millis)
    ensures isNew ==> |AuditHook(isNew, modified, doctor, now)| == 1 && AuditHook(isNew, modified, doctor, now)[0].action == CreatedAction
    ensures !isNew && modified ==> |AuditHook(isNew, modified, doctor, now)| == 1 && AuditHook(isNew, modified, doctor, now)[0].action == UpdatedAction
    ensures !isNew && !modified ==> AuditHook(isNew, modified, doctor, now) == []
  {
  }

  // ---------------------------------------------------------------------------
  // Attachments
  // ---------------------------------------------------------------------------

  /** The `fileType` enum of an attachment. */
  predicate ValidFileType(t: string) {
    t in ["image", "pdf", "document", "lab-result", "imaging"]
  }

  datatype Attachment = Attachment(
    fileName: string, filePath: string, fileType: string, fileSize: Option<int>, description: Option<string>,
    uploadedBy: Id, uploadedDate: Millis)

  /** The `attachmentData` of a request. */
  datatype AttachmentData = AttachmentData(
    fileName: string, filePath: string, fileType: string, fileSize: Option<int>, description: Option<string>)

  // ---------------------------------------------------------------------------
  // Shares
  // ---------------------------------------------------------------------------

  /** The `permissions` enum of a share. */
  predicate ValidPermission(p: string) {
    p in ["read", "write", "share"]
  }

  const DefaultPermissions := ["read"]

  datatype Share = Share(user: Id, permissions: seq<string>, expiryDate: Option<Millis>, sharedDate: Millis)

  /** `sharedWith.filter(share => share.user.toString() !== userId.toString())`. */
  function WithoutUser(ss: seq<Share>, u: Id): (r: seq<Share>)
    ensures |r| <= |ss|
    ensures forall x :: x in r <==> x in ss && x.user != u
  {
    if ss == [] then []
    else (if ss[0].user == u then [] else [ss[0]]) + WithoutUser(ss[1..], u)
  }

  /** The filter keeps the other users' shares in their order: it distributes
      over concatenation. */
  lemma {:induction false} WithoutUserKeepsOrder(xs: seq<Share>, ys: seq<Share>, u: Id)
    ensures WithoutUser(xs + ys, u) == WithoutUser(xs, u) + WithoutUser(ys, u)
  {
    if xs == [] {
      assert xs + ys == ys;
    } else {
      assert (xs + ys)[1..] == xs[1..] + ys;
      WithoutUserKeepsOrder(xs[1..], ys, u);
    }
  }

  /** Number of shares for a user. */
  function SharesFor(ss: seq<Share>, u: Id): nat {
    if ss == [] then 0 else (if ss[0].user == u then 1 else 0) + SharesFor(ss[1..], u)
  }

  lemma {:induction false} SharesForAppend(xs: seq<Share>, ys: seq<Share>, u: Id)
    ensures SharesFor(xs + ys, u) == SharesFor(xs, u) + SharesFor(ys, u)
  {
    if xs == [] {
      assert xs + ys == ys;
    } else {
      assert (xs + ys)[1..] == xs[1..] + ys;
      SharesForAppend(xs[1..], ys, u);
    }
  }

  lemma {:induction false} WithoutUserHasNoShare(ss: seq<Share>, u: Id)
    ensures SharesFor(WithoutUser(ss, u), u) == 0
    ensures forall v :: v != u ==> SharesFor(WithoutUser(ss, u), v) == SharesFor(ss, v)
  {
    if ss != [] {
      WithoutUserHasNoShare(ss[1..], u);
      var head := if ss[0].user == u then [] else [ss[0]];
      SharesForAppend(head, WithoutUser(ss[1..], u), u);
      forall v | v != u ensures SharesFor(WithoutUser(ss, u), v) == SharesFor(ss, v) {
        SharesForAppend(head, WithoutUser(ss[1..], u), v);
      }
    }
  }

  /** `sharedWith` after `shareWith(u, permissions, expiryDate)`. */
  function ShareList(ss: seq<Share>, u: Id, permissions: seq<string>, expiryDate: Option<Millis>, now: Millis): (r: seq<Share>)
    ensures 1 <= |r| <= |ss| + 1 && r[|r| - 1] == Share(u, permissions, expiryDate, now)
    ensures forall x :: x in r[..|r| - 1] <==> x in ss && x.user != u
  {
    assert (WithoutUser(ss, u) + [Share(u, permissions, expiryDate, now)])[..|WithoutUser(ss, u)|] == WithoutUser(ss, u);
    WithoutUser(ss, u) + [Share(u, permissions, expiryDate, now)]
  }

  /** After sharing, the user has exactly one share, the new one, and every
      other user keeps exactly the shares they had, in their order. */
  lemma ShareListReplaces(ss: seq<Share>, u: Id, permissions: seq<string>, expiryDate: Option<Millis>, now: Millis)
    ensures var r := ShareList(ss, u, permissions, expiryDate, now);
      && SharesFor(r, u) == 1
      && r[|r| - 1] == Share(u, permissions, expiryDate, now)
      && (forall x :: x in r && x.user == u ==> x == Share(u, permissions, expiryDate, now))
      && (forall v :: v != u ==> SharesFor(r, v) == SharesFor(ss, v))
      && r[..|r| - 1] == WithoutUser(ss, u)
  {
    var r := ShareList(ss, u, permissions, expiryDate, now);
    var s := Share(u, permissions, expiryDate, now);
    WithoutUserHasNoShare(ss, u);
    SharesForAppend(WithoutUser(ss, u), [s], u);
    assert [s][1..] == [];
    forall v | v != u ensures SharesFor(r, v) == SharesFor(ss, v) {
      SharesForAppend(WithoutUser(ss, u), [s], v);
    }
  }

  // ---------------------------------------------------------------------------
  // The record document
  // ---------------------------------------------------------------------------

  /** The free-text and enum fields checked when a record is created. */
  datatype RecordDraft = RecordDraft(
    patient: Id, visitType: string, chiefComplaint: string, presentIllness: string,
    clinicalNotes: string, privateNotes: string, diagnosis: seq<Diagnosis>)

  const MaxChiefComplaint := 500
  const MaxPresentIllness := 2000
  const MaxClinicalNotes := 5000
  const MaxPrivateNotes := 2000

  predicate ValidVisitType(t: string) {
    t in ["consultation", "follow-up", "emergency", "routine-checkup", "procedure", "lab-review", "telemedicine"]
  }

  /** The schema validation a new record must pass: required fields, the visit
      type enum and the four length bounds. */
  predicate DraftValid(d: RecordDraft) {
    && d.patient != ""
    && ValidVisitType(d.visitType)
    && d.chiefComplaint != "" && |d.chiefComplaint| <= MaxChiefComplaint
    && |d.presentIllness| <= MaxPresentIllness
    && |d.clinicalNotes| <= MaxClinicalNotes
    && |d.privateNotes| <= MaxPrivateNotes
    && forall x :: x in d.diagnosis ==> x.condition != ""
  }

  /** The array paths a create request's body may carry along with the draft:
      `MedicalRecord.create({...req.body, doctor})` keeps whatever
      `attachments`, `auditLog` and `sharedWith` the body holds. */
  datatype BodyArrays = BodyArrays(attachments: seq<Attachment>, auditLog: seq<AuditEntry>, sharedWith: seq<Share>)

  /** No arrays in the body: the schema's empty defaults. */
  const NoBodyArrays := BodyArrays([], [], [])

  /** The attachment's required fields and file type enum. */
  predicate AttachmentValid(a: Attachment) {
    a.fileName != "" && a.filePath != "" && ValidFileType(a.fileType)
  }

  /** The schema validation of the body's arrays: each attachment's required
      fields and file type enum, each audit entry's required `performedBy`
      (its `action` enum is the `AuditAction` type), and each share's
      permission enum. */
  predicate ArraysValid(b: BodyArrays) {
    && (forall a :: a in b.attachments ==> AttachmentValid(a))
    && (forall e :: e in b.auditLog ==> e.performedBy != "")
    && (forall s, p :: s in b.sharedWith && p in s.permissions ==> ValidPermission(p))
  }

  class MedicalRecord {
    const id: Id
    const patient: Id
    /** The authoring doctor. */
    const doctor: Id
    const content: RecordDraft
    var diagnosis: seq<Diagnosis>
    var attachments: seq<Attachment>
    var auditLog: seq<AuditEntry>
    var sharedWith: seq<Share>

    ghost predicate Valid()
      reads this
    {
      && DraftValid(content)
      && AtMostOnePrimaryDiagnosis(diagnosis)
      && (forall a :: a in attachments ==> AttachmentValid(a))
      && (forall s, p :: s in sharedWith && p in s.permissions ==> ValidPermission(p))
      && |auditLog| >= 1
    }

    /** `MedicalRecord.create(recordData)`: the document takes the draft and
        the arrays of the body as they are, then the diagnosis hook and the
        audit hook run on it, the latter appending its `created` entry after
        any entries the body brought. */
    constructor (id: Id, d: RecordDraft, b: BodyArrays, doctor: Id, now: Millis)
      requires DraftValid(d) && ArraysValid(b)
      ensures Valid()
      ensures this.id == id && patient == d.patient && this.doctor == doctor && content == d
      ensures diagnosis == DiagnosisHookAsWritten(d.diagnosis)
      ensures attachments == b.attachments && sharedWith == b.sharedWith
      ensures auditLog == b.auditLog + AuditHook(true, true, doctor, now)
      ensures auditLog[|auditLog| - 1] == AuditEntry(CreatedAction, doctor, now, "Medical record created", None)
    {
      this.id := id;
      patient := d.patient;
      this.doctor := doctor;
      content := d;
      DiagnosisHookAsWrittenLeavesIndexZero(d.diagnosis);
      diagnosis := DiagnosisHookAsWritten(d.diagnosis);
      attachments := b.attachments;
      auditLog := b.auditLog + AuditHook(true, true, doctor, now);
      sharedWith := b.sharedWith;
    }

    /** The `hasAttachments` virtual. */
    predicate HasAttachments()
      reads this
      ensures HasAttachments() <==> exists a :: a in attachments
    {
      assert |attachments| > 0 ==> attachments[0] in attachments;
      |attachments| > 0
    }

    /** `addAuditLog(action, performedBy, details, ipAddress)` and its save:
        the entry is appended, and since the document was modified the audit
        hook then appends an `updated` entry by the record's doctor. Earlier
        entries are unchanged. */
    method AddAuditLog(action: AuditAction, performedBy: Id, details: string, ipAddress: string, now: Millis)
      requires Valid()
      modifies this`auditLog
      ensures Valid()
      ensures auditLog == old(auditLog) + [AuditEntry(action, performedBy, now, details, Some(ipAddress))]
                          + AuditHook(false, true, doctor, now)
    {
      auditLog := auditLog + [AuditEntry(action, performedBy, now, details, Some(ipAddress))];
      auditLog := auditLog + AuditHook(false, true, doctor, now);
    }

    /** `addAttachment(attachmentData, uploadedBy)` and its save: the
        attachment is appended with its uploader and date, followed by the
        audit hook's `updated` entry; a missing required field or a file type
        outside the enum fails validation and nothing is stored. */
    method AddAttachment(data: AttachmentData, uploadedBy: Id, now: Millis) returns (saved: bool)
      requires Valid()
      modifies this`attachments, this`auditLog
      ensures Valid()
      ensures saved <==> data.fileName != "" && data.filePath != "" && ValidFileType(data.fileType)
      ensures saved ==> attachments == old(attachments) + [Attachment(data.fileName, data.filePath, data.fileType,
                                                                      data.fileSize, data.description, uploadedBy, now)]
      ensures saved ==> auditLog == old(auditLog) + AuditHook(false, true, doctor, now) && HasAttachments()
      ensures !saved ==> attachments == old(attachments) && auditLog == old(auditLog)
    {
      saved := data.fileName != "" && data.filePath != "" && ValidFileType(data.fileType);
      if saved {
        attachments := attachments + [Attachment(data.fileName, data.filePath, data.fileType, data.fileSize, data.description, uploadedBy, now)];
        auditLog := auditLog + AuditHook(false, true, doctor, now);
      }
    }

    /** `shareWith(userId, permissions, expiryDate)` and its save: any earlier
        share with the user is dropped and the new one appended, followed by
        the audit hook's `updated` entry; a permission outside the enum fails
        validation and nothing is stored. Absent permissions default to
        `['read']`. */
    method ShareWith(u: Id, permissions: Option<seq<string>>, expiryDate: Option<Millis>, now: Millis) returns (saved: bool)
      requires Valid()
      modifies this`sharedWith, this`auditLog
      ensures Valid()
      ensures saved <==> forall p :: p in permissions.GetOr(DefaultPermissions) ==> ValidPermission(p)
      ensures saved ==> sharedWith == ShareList(old(sharedWith), u, permissions.GetOr(DefaultPermissions), expiryDate, now)
      ensures saved ==> auditLog == old(auditLog) + AuditHook(false, true, doctor, now)
      ensures !saved ==> sharedWith == old(sharedWith) && auditLog == old(auditLog)
    {
      var perms := permissions.GetOr(DefaultPermissions);
      // On save the enum validator runs over every element of `permissions`.
      saved := true;
      var i := 0;
      while i < |perms|
        invariant 0 <= i <= |perms|
        invariant saved <==> forall k :: 0 <= k < i ==> ValidPermission(perms[k])
      {
        if !ValidPermission(perms[i]) {
          saved := false;
        }
        i := i + 1;
      }
      if saved {
        // `this.sharedWith.filter(...)` drops the user's old share, then
        // `push` appends the new one.
        var kept := WithoutUser(sharedWith, u);
        sharedWith := kept + [Share(u, perms, expiryDate, now)];
        auditLog := auditLog + AuditHook(false, true, doctor, now);
      }
    }
  }
}
