/** The patient document (server/models/Patient.js): its list of assigned
    doctors with the at-most-one-primary save hook, its medications and its
    latest vital signs. */
module PatientModel {
  import opened Common

  // ---------------------------------------------------------------------------
  // Assigned doctors
  // ---------------------------------------------------------------------------

  /** One entry of `assignedDoctors`. */
  datatype Assignment = Assignment(doctor: Id, isPrimary: bool, specialization: string, assignedDate: Millis)

  function PrimaryCount(ds: seq<Assignment>): (n: nat)
    ensures n <= |ds|
    ensures n == 0 <==> forall i :: 0 <= i < |ds| ==> !ds[i].isPrimary
  {
    if ds == [] then 0 else (if ds[0].isPrimary then 1 else 0) + PrimaryCount(ds[1..])
  }

  predicate AtMostOnePrimary(ds: seq<Assignment>) {
    forall i, j :: 0 <= i < |ds| && 0 <= j < |ds| && ds[i].isPrimary && ds[j].isPrimary ==> i == j
  }

  /** Two primaries make the count exceed one. */
  lemma {:induction false} TwoPrimariesCount(ds: seq<Assignment>, i: nat, j: nat)
    requires i < j < |ds| && ds[i].isPrimary && ds[j].isPrimary
    ensures PrimaryCount(ds) > 1
  {
    if i == 0 {
      assert ds[1..][j - 1].isPrimary;
    } else {
      TwoPrimariesCount(ds[1..], i - 1, j - 1);
    }
  }

  /** The index of the first primary entry (`assignedDoctors.find(doc => doc.isPrimary)`). */
  function FirstPrimary(ds: seq<Assignment>): (r: Option<nat>)
    ensures r.Some? ==> r.value < |ds| && ds[r.value].isPrimary && forall j :: 0 <= j < r.value ==> !ds[j].isPrimary
    ensures r.None? <==> forall j :: 0 <= j < |ds| ==> !ds[j].isPrimary
  {
    if ds == [] then None
    else if ds[0].isPrimary then Some(0)
    else
      var r := FirstPrimary(ds[1..]);
      if r.Some? then Some(r.value + 1) else None
  }

  /** The `primaryDoctor` virtual: the doctor of the first primary entry. */
  function PrimaryDoctor(ds: seq<Assignment>): (r: Option<Id>)
    ensures r.None? <==> forall j :: 0 <= j < |ds| ==> !ds[j].isPrimary
    ensures r.Some? ==> exists i :: 0 <= i < |ds| && ds[i].isPrimary && ds[i].doctor == r.value
                                    && forall j :: 0 <= j < i ==> !ds[j].isPrimary
  {
    match FirstPrimary(ds)
    case Some(k) => Some(ds[k].doctor)
    case None => None
  }

  /** `isPrimary = false` on every entry (the `forEach` of `assignDoctor`). */
  function DemoteAll(ds: seq<Assignment>): (r: seq<Assignment>)
    ensures |r| == |ds| && PrimaryCount(r) == 0
    ensures forall i :: 0 <= i < |ds| ==> r[i] == ds[i].(isPrimary := false)
  {
    var r := seq(|ds|, i requires 0 <= i < |ds| => ds[i].(isPrimary := false));
    assert forall i :: 0 <= i < |r| ==> !r[i].isPrimary;
    r
  }

  /** The save hook exactly as written: with more than one primary, every
      primary entry at an index above 0 is demoted. */
  function PrimaryHookAsWritten(ds: seq<Assignment>): (r: seq<Assignment>)
    ensures |r| == |ds|
    ensures forall i :: 0 <= i < |ds| ==> r[i].(isPrimary := false) == ds[i].(isPrimary := false)
  {
    if PrimaryCount(ds) > 1
    then seq(|ds|, i requires 0 <= i < |ds| => if i > 0 && ds[i].isPrimary then ds[i].(isPrimary := false) else ds[i])
    else ds
  }

  /** As written, the hook still leaves at most one primary entry; when it
      acts, only the entry at index 0 can stay primary, and a list with at
      most one primary is left alone. */
  lemma HookAsWrittenLeavesIndexZero(ds: seq<Assignment>)
    ensures AtMostOnePrimary(PrimaryHookAsWritten(ds))
    ensures PrimaryCount(ds) > 1 ==> forall i :: 0 < i < |ds| ==> !PrimaryHookAsWritten(ds)[i].isPrimary
    ensures PrimaryCount(ds) <= 1 ==> PrimaryHookAsWritten(ds) == ds
  {
    if PrimaryCount(ds) <= 1 {
      AtMostOnePrimaryCount(ds);
    }
  }

  /** The hook changes flags only, so it keeps every doctor assigned. */
  lemma HookKeepsDoctor(ds: seq<Assignment>, d: Id)
    requires IndexOfDoctor(ds, d).Some?
    ensures IndexOfDoctor(PrimaryHookAsWritten(ds), d).Some?
  {
    var i := IndexOfDoctor(ds, d).value;
    assert PrimaryHookAsWritten(ds)[i].(isPrimary := false) == ds[i].(isPrimary := false);
  }

  /** As written, the hook keeps index 0 rather than the first primary: a list
      whose primaries all sit after index 0 ends with no primary at all. */
  lemma HookAsWrittenDropsEveryPrimary(a: Assignment, b: Assignment, c: Assignment)
    requires !a.isPrimary && b.isPrimary && c.isPrimary
    ensures PrimaryDoctor([a, b, c]) == Some(b.doctor)
    ensures PrimaryDoctor(PrimaryHookAsWritten([a, b, c])).None?
  {
    TwoPrimariesCount([a, b, c], 1, 2);
    var r := PrimaryHookAsWritten([a, b, c]);
    assert r[0] == a && r[1] == b.(isPrimary := false) && r[2] == c.(isPrimary := false);
    assert FirstPrimary([a, b, c]) == Some(1);
  }

  /** The save hook as intended ("keep only the first primary doctor"): with
      more than one primary, every primary entry but the first is demoted. */
  function PrimaryHook(ds: seq<Assignment>): (r: seq<Assignment>)
    ensures |r| == |ds|
  {
    if PrimaryCount(ds) > 1
    then seq(|ds|, i requires 0 <= i < |ds| => HookEntry(ds, FirstPrimary(ds), i))
    else ds
  }

  /** Entry `i` after the hook, given the index of the first primary. */
  function HookEntry(ds: seq<Assignment>, first: Option<nat>, i: nat): Assignment
    requires i < |ds|
  {
    if ds[i].isPrimary && first != Some(i) then ds[i].(isPrimary := false) else ds[i]
  }

  /** The intended hook leaves at most one primary, keeps the primary doctor,
      changes no flag but `isPrimary` and leaves a list that already has at
      most one primary alone. */
  lemma PrimaryHookKeepsFirstPrimary(ds: seq<Assignment>)
    ensures AtMostOnePrimary(PrimaryHook(ds))
    ensures PrimaryDoctor(PrimaryHook(ds)) == PrimaryDoctor(ds)
    ensures forall i :: 0 <= i < |ds| ==> PrimaryHook(ds)[i].(isPrimary := false) == ds[i].(isPrimary := false)
    ensures AtMostOnePrimary(ds) ==> PrimaryHook(ds) == ds
  {
    var r := PrimaryHook(ds);
    AtMostOnePrimaryCount(ds);
    if PrimaryCount(ds) > 1 {
      var k := FirstPrimary(ds).value;
      assert forall i :: 0 <= i < |r| && r[i].isPrimary ==> i == k;
      assert r[k] == ds[k];
      assert FirstPrimary(r) == Some(k);
    }
  }

  /** The first entry for a doctor (`assignedDoctors.find`). */
  function IndexOfDoctor(ds: seq<Assignment>, d: Id): (r: Option<nat>)
    ensures r.Some? ==> r.value < |ds| && ds[r.value].doctor == d && forall j :: 0 <= j < r.value ==> ds[j].doctor != d
    ensures r.None? ==> forall j :: 0 <= j < |ds| ==> ds[j].doctor != d
  {
    if ds == [] then None
    else if ds[0].doctor == d then Some(0)
    else
      var r := IndexOfDoctor(ds[1..], d);
      if r.Some? then Some(r.value + 1) else None
  }

  /** `assignDoctor` before the save, exactly as written: an existing entry is
      overwritten in place, a new doctor is appended, and only a new primary
      demotes the others. */
  function AssignAsWritten(ds: seq<Assignment>, d: Id, isPrimary: bool, specialization: string, now: Millis): seq<Assignment> {
    match IndexOfDoctor(ds, d)
    case Some(i) => ds[i := ds[i].(isPrimary := isPrimary, specialization := specialization)]
    case None => (if isPrimary then DemoteAll(ds) else ds) + [Assignment(d, isPrimary, specialization, now)]
  }

  /** As written, an assigned doctor keeps its one entry, with the new flag
      and specialization and its old date, and no other entry changes; a new
      doctor gets one entry at the end, and the others are demoted exactly
      when the new entry is primary, which then makes it the only primary. */
  lemma AssignAsWrittenUpdatesOrAppends(ds: seq<Assignment>, d: Id, isPrimary: bool, specialization: string, now: Millis)
    ensures var r := AssignAsWritten(ds, d, isPrimary, specialization, now);
      match IndexOfDoctor(ds, d)
      case Some(i) => |r| == |ds| && r[i].doctor == d && r[i].isPrimary == isPrimary
                      && r[i].specialization == specialization && r[i].assignedDate == ds[i].assignedDate
                      && forall j :: 0 <= j < |ds| && j != i ==> r[j] == ds[j]
      case None => |r| == |ds| + 1 && r[|ds|] == Assignment(d, isPrimary, specialization, now)
                   && r[..|ds|] == (if isPrimary then DemoteAll(ds) else ds)
                   && (isPrimary ==> AtMostOnePrimary(r) && PrimaryDoctor(r) == Some(d))
  {
    var r := AssignAsWritten(ds, d, isPrimary, specialization, now);
    if IndexOfDoctor(ds, d).None? && isPrimary {
      assert r[|ds|].isPrimary && forall j :: 0 <= j < |ds| ==> !r[j].isPrimary;
      assert FirstPrimary(r) == Some(|ds|);
    }
  }

  /** `assignDoctor` and its save hook, as written, on a list with at most one
      primary: the doctor is assigned afterwards, at most one entry is primary,
      and a newly assigned primary doctor is the primary doctor. The hook
      changes nothing when the assignment changed nothing. */
  lemma AssignAsWrittenThenSaved(ds: seq<Assignment>, d: Id, isPrimary: bool, specialization: string, now: Millis)
    requires AtMostOnePrimary(ds)
    ensures var saved := PrimaryHookAsWritten(AssignAsWritten(ds, d, isPrimary, specialization, now));
      && IndexOfDoctor(saved, d).Some?
      && AtMostOnePrimary(saved)
      && (isPrimary && IndexOfDoctor(ds, d).None? ==> PrimaryDoctor(saved) == Some(d))
      && PrimaryHookAsWritten(ds) == ds
  {
    var next := AssignAsWritten(ds, d, isPrimary, specialization, now);
    AssignAsWrittenUpdatesOrAppends(ds, d, isPrimary, specialization, now);
    var k := if IndexOfDoctor(ds, d).Some? then IndexOfDoctor(ds, d).value else |ds|;
    assert next[k].doctor == d;
    HookKeepsDoctor(next, d);
    HookAsWrittenLeavesIndexZero(next);
    HookAsWrittenLeavesIndexZero(ds);
    AtMostOnePrimaryCount(ds);
    if isPrimary && IndexOfDoctor(ds, d).None? {
      AtMostOnePrimaryCount(next);
    }
  }

  /** As written, making an already-assigned doctor primary while an earlier
      entry is primary is undone by the save hook. */
  lemma ExistingPrimaryRequestReverted(a: Assignment, b: Assignment, now: Millis)
    requires a.isPrimary && !b.isPrimary && a.doctor != b.doctor
    ensures PrimaryDoctor(PrimaryHookAsWritten(AssignAsWritten([a, b], b.doctor, true, b.specialization, now))) == Some(a.doctor)
  {
    var ds := [a, b];
    assert ds[1..] == [b];
    assert IndexOfDoctor(ds, b.doctor) == Some(1);
    var next := AssignAsWritten(ds, b.doctor, true, b.specialization, now);
    assert next == [a, b.(isPrimary := true)];
    assert PrimaryCount(next) == 2 by {
      assert next[1..] == [b.(isPrimary := true)];
      assert next[1..][1..] == [];
    }
    var saved := PrimaryHookAsWritten(next);
    assert saved == [a, b];
  }

  /** `assignDoctor` before the save, as intended: whenever the assigned
      doctor is made primary, every other entry is demoted first. */
  function Assign(ds: seq<Assignment>, d: Id, isPrimary: bool, specialization: string, now: Millis): (r: seq<Assignment>)
    ensures IndexOfDoctor(ds, d).Some? ==> |r| == |ds|
    ensures IndexOfDoctor(ds, d).None? ==> |r| == |ds| + 1 && r[|ds|] == Assignment(d, isPrimary, specialization, now)
  {
    var base := if isPrimary then DemoteAll(ds) else ds;
    match IndexOfDoctor(ds, d)
    case Some(i) => base[i := base[i].(isPrimary := isPrimary, specialization := specialization)]
    case None => base + [Assignment(d, isPrimary, specialization, now)]
  }

  /** Assigning a doctor never duplicates an entry: an assigned doctor keeps its
      one entry with the new flag and specialization; a new doctor gets one
      entry at the end and the others are only demoted, and only when the new
      entry is primary. */
  lemma AssignUpdatesOrAppends(ds: seq<Assignment>, d: Id, isPrimary: bool, specialization: string, now: Millis)
    ensures var r := Assign(ds, d, isPrimary, specialization, now);
      match IndexOfDoctor(ds, d)
      case Some(i) => r[i].doctor == d && r[i].isPrimary == isPrimary && r[i].specialization == specialization
                      && r[i].assignedDate == ds[i].assignedDate
                      && forall j :: 0 <= j < |ds| && j != i ==> r[j] == (if isPrimary then ds[j].(isPrimary := false) else ds[j])
      case None => r[..|ds|] == (if isPrimary then DemoteAll(ds) else ds)
  {
  }

  /** After the intended assignment of a primary, that doctor is the only
      primary, and the save hook has nothing left to do. */
  lemma AssignedPrimaryIsTheOnlyPrimary(ds: seq<Assignment>, d: Id, specialization: string, now: Millis)
    ensures var r := Assign(ds, d, true, specialization, now);
      AtMostOnePrimary(r) && PrimaryDoctor(r) == Some(d) && PrimaryHook(r) == r
  {
    var r := Assign(ds, d, true, specialization, now);
    var k := if IndexOfDoctor(ds, d).Some? then IndexOfDoctor(ds, d).value else |ds|;
    assert r[k].isPrimary && r[k].doctor == d;
    assert forall j :: 0 <= j < |r| && j != k ==> !r[j].isPrimary;
    assert FirstPrimary(r) == Some(k);
    assert PrimaryCount(r) <= 1 by {
      if PrimaryCount(r) > 1 { OnlyPrimaryCount(r, k); }
    }
  }

  /** A list whose only primary entry is at `k` counts one primary. */
  lemma {:induction false} OnlyPrimaryCount(ds: seq<Assignment>, k: nat)
    requires k < |ds| && forall j :: 0 <= j < |ds| && j != k ==> !ds[j].isPrimary
    ensures PrimaryCount(ds) <= 1
  {
    if k == 0 {
      assert forall j :: 0 <= j < |ds[1..]| ==> !ds[1..][j].isPrimary;
    } else {
      OnlyPrimaryCount(ds[1..], k - 1);
    }
  }

  /** An intended assignment that is not primary keeps every other entry's flag. */
  lemma AssignNonPrimaryKeepsFlags(ds: seq<Assignment>, d: Id, specialization: string, now: Millis)
    requires AtMostOnePrimary(ds)
    ensures var r := Assign(ds, d, false, specialization, now);
      AtMostOnePrimary(r) && forall j :: 0 <= j < |ds| && ds[j].doctor != d ==> r[j] == ds[j]
  {
    var r := Assign(ds, d, false, specialization, now);
    forall i, j | 0 <= i < |r| && 0 <= j < |r| && r[i].isPrimary && r[j].isPrimary ensures i == j {
      assert ds[i].isPrimary && ds[j].isPrimary;
    }
  }

  /** `assignedDoctors.filter(doc => doc.doctor !== doctorId)`. */
  function WithoutDoctor(ds: seq<Assignment>, d: Id): (r: seq<Assignment>)
    ensures |r| <= |ds|
    ensures forall x :: x in r <==> x in ds && x.doctor != d
  {
    if ds == [] then []
    else (if ds[0].doctor == d then [] else [ds[0]]) + WithoutDoctor(ds[1..], d)
  }

  /** Removal keeps the remaining entries in their order: it distributes over
      concatenation. */
  lemma {:induction false} WithoutDoctorKeepsOrder(xs: seq<Assignment>, ys: seq<Assignment>, d: Id)
    ensures WithoutDoctor(xs + ys, d) == WithoutDoctor(xs, d) + WithoutDoctor(ys, d)
  {
    if xs == [] {
      assert xs + ys == ys;
    } else {
      assert (xs + ys)[1..] == xs[1..] + ys;
      WithoutDoctorKeepsOrder(xs[1..], ys, d);
    }
  }

  /** Removal cannot create a second primary. */
  lemma {:induction false} WithoutDoctorKeepsPrimaryBound(ds: seq<Assignment>, d: Id)
    ensures PrimaryCount(WithoutDoctor(ds, d)) <= PrimaryCount(ds)
  {
    if ds != [] {
      WithoutDoctorKeepsPrimaryBound(ds[1..], d);
      var head := if ds[0].doctor == d then [] else [ds[0]];
      PrimaryCountAppend(head, WithoutDoctor(ds[1..], d));
    }
  }

  lemma {:induction false} PrimaryCountAppend(xs: seq<Assignment>, ys: seq<Assignment>)
    ensures PrimaryCount(xs + ys) == PrimaryCount(xs) + PrimaryCount(ys)
  {
    if xs == [] {
      assert xs + ys == ys;
    } else {
      assert (xs + ys)[1..] == xs[1..] + ys;
      PrimaryCountAppend(xs[1..], ys);
    }
  }

  lemma AtMostOnePrimaryCount(ds: seq<Assignment>)
    ensures AtMostOnePrimary(ds) <==> PrimaryCount(ds) <= 1
  {
    if !AtMostOnePrimary(ds) {
      var i, j :| 0 <= i < |ds| && 0 <= j < |ds| && ds[i].isPrimary && ds[j].isPrimary && i != j;
      if i < j { TwoPrimariesCount(ds, i, j); } else { TwoPrimariesCount(ds, j, i); }
    } else if PrimaryCount(ds) > 1 {
      var k :| 0 <= k < |ds| && ds[k].isPrimary;
      OnlyPrimaryCount(ds, k);
    }
  }

  // ---------------------------------------------------------------------------
  // Medications
  // ---------------------------------------------------------------------------

  datatype Medication = Medication(
    name: string, dosage: string, frequency: string, prescribedBy: Id, prescribedDate: Millis, isActive: bool)

  /** The `medicationData` of a request; `isActive` absent means the default. */
  datatype MedicationData = MedicationData(name: string, dosage: string, frequency: string, isActive: Option<bool>)

  /** The `activeMedicationsCount` virtual. */
  function ActiveMedicationsCount(ms: seq<Medication>): (n: nat)
    ensures n <= |ms|
    ensures n == |ms| <==> forall i :: 0 <= i < |ms| ==> ms[i].isActive
  {
    if ms == [] then 0
    else
      var rest := ActiveMedicationsCount(ms[1..]);
      assert (forall i :: 0 <= i < |ms| ==> ms[i].isActive) <==>
             ms[0].isActive && forall i :: 0 <= i < |ms| - 1 ==> ms[1..][i].isActive;
      (if ms[0].isActive then 1 else 0) + rest
  }

  lemma {:induction false} ActiveCountAppend(ms: seq<Medication>, m: Medication)
    ensures ActiveMedicationsCount(ms + [m]) == ActiveMedicationsCount(ms) + (if m.isActive then 1 else 0)
  {
    if ms != [] {
      assert (ms + [m])[1..] == ms[1..] + [m];
      ActiveCountAppend(ms[1..], m);
    } else {
      assert [m][1..] == [];
    }
  }

  // ---------------------------------------------------------------------------
  // Vital signs
  // ---------------------------------------------------------------------------

  datatype VitalKind = BloodPressure | HeartRate | Temperature | Weight | Height

  /** The latest reading of one vital sign. */
  datatype Vital = Vital(
    systolic: Option<real>, diastolic: Option<real>, value: Option<real>, unit: Option<string>,
    recordedDate: Option<Millis>, recordedBy: Option<Id>)

  /** The schema's unit defaults, present on a new document. */
  function DefaultUnit(k: VitalKind): Option<string> {
    match k
    case Temperature => Some("celsius")
    case Weight => Some("kg")
    case Height => Some("cm")
    case _ => None
  }

  /** The `unit` enum of a vital sign; blood pressure and heart rate have no
      `unit` path at all. */
  function AllowedUnits(k: VitalKind): seq<string> {
    match k
    case Temperature => ["celsius", "fahrenheit"]
    case Weight => ["kg", "lbs"]
    case Height => ["cm", "inches"]
    case _ => []
  }

  predicate HasUnit(k: VitalKind) {
    k == Temperature || k == Weight || k == Height
  }

  /** A stored unit is one of its vital sign's enum, or absent where the schema
      has no unit. */
  predicate UnitOk(k: VitalKind, u: Option<string>) {
    if HasUnit(k) then u.Some? && u.value in AllowedUnits(k) else u.None?
  }

  function NoReading(k: VitalKind): Vital {
    Vital(None, None, None, DefaultUnit(k), None, None)
  }

  /** The `value` argument of `updateVitals`: a `{ systolic, diastolic }`
      object or a number. */
  datatype VitalInput = Pressure(systolic: Option<real>, diastolic: Option<real>) | Measure(amount: real)

  // ---------------------------------------------------------------------------
  // The patient document
  // ---------------------------------------------------------------------------

  class Patient {
    const id: Id
    /** The owning user (`user`, unique). */
    const user: Id
    var assignedDoctors: seq<Assignment>
    var medications: seq<Medication>
    var vitals: map<VitalKind, Vital>

    ghost predicate Valid()
      reads this
    {
      && AtMostOnePrimary(assignedDoctors)
      && (forall k: VitalKind :: k in vitals && UnitOk(k, vitals[k].unit))
      && forall m :: m in medications ==> m.name != "" && m.dosage != "" && m.frequency != ""
    }

    /** `Patient.create({ user, status: 'active', riskLevel: 'low' })`. */
    constructor (id: Id, user: Id)
      ensures Valid()
      ensures this.id == id && this.user == user
      ensures assignedDoctors == [] && medications == []
      ensures forall k :: vitals[k] == NoReading(k)
    {
      this.id := id;
      this.user := user;
      assignedDoctors := [];
      medications := [];
      vitals := map k: VitalKind | true :: NoReading(k);
    }

    /** The save hook on the assigned doctors, run when the list was modified:
        when more than one entry is primary, every primary entry after index 0
        is demoted. */
    method SaveAssignedDoctors(next: seq<Assignment>)
      modifies this`assignedDoctors
      ensures assignedDoctors == if next != old(assignedDoctors) then PrimaryHookAsWritten(next) else next
    {
      if next == assignedDoctors {
        return;
      }
      var ds := next;
      if PrimaryCount(next) > 1 {
        var i := 0;
        while i < |ds|
          invariant 0 <= i <= |ds| == |next|
          invariant forall j :: 0 <= j < i ==> ds[j] == PrimaryHookAsWritten(next)[j]
          invariant forall j :: i <= j < |ds| ==> ds[j] == next[j]
        {
          if ds[i].isPrimary && i > 0 {
            ds := ds[i := ds[i].(isPrimary := false)];
          }
          i := i + 1;
        }
        assert ds == PrimaryHookAsWritten(next);
      }
      assignedDoctors := ds;
    }

    /** `assignDoctor(doctorId, isPrimary, specialization)` followed by its
        save: the list is updated as written and the save hook then runs over
        it. The doctor is always assigned afterwards, at most one entry is
        primary, and a newly assigned primary doctor is the primary doctor. */
    method AssignDoctor(d: Id, isPrimary: bool, specialization: string, now: Millis)
      requires Valid()
      modifies this`assignedDoctors
      ensures Valid()
      ensures assignedDoctors == PrimaryHookAsWritten(AssignAsWritten(old(assignedDoctors), d, isPrimary, specialization, now))
      ensures IndexOfDoctor(assignedDoctors, d).Some?
      ensures isPrimary && IndexOfDoctor(old(assignedDoctors), d).None? ==> PrimaryDoctor(assignedDoctors) == Some(d)
    {
      var ds := assignedDoctors;
      var found: Option<nat> := None;
      var i := 0;
      while i < |ds| && found.None?
        invariant 0 <= i <= |ds|
        invariant found.None? ==> forall j :: 0 <= j < i ==> ds[j].doctor != d
        invariant found.Some? ==> found == IndexOfDoctor(ds, d)
      {
        if ds[i].doctor == d {
          found := Some(i);
        }
        i := i + 1;
      }
      var next := ds;
      if found.Some? {
        var k := found.value;
        next := next[k := next[k].(isPrimary := isPrimary, specialization := specialization)];
      } else {
        if isPrimary {
          next := DemoteAll(ds);
        }
        next := next + [Assignment(d, isPrimary, specialization, now)];
      }
      assert next == AssignAsWritten(ds, d, isPrimary, specialization, now);
      AssignAsWrittenThenSaved(ds, d, isPrimary, specialization, now);
      SaveAssignedDoctors(next);
    }

    /** `removeDoctor(doctorId)` followed by its save: every entry of that
        doctor goes, the others stay in order. */
    method RemoveDoctor(d: Id)
      requires Valid()
      modifies this`assignedDoctors
      ensures Valid()
      ensures assignedDoctors == WithoutDoctor(old(assignedDoctors), d)
    {
      var next := WithoutDoctor(assignedDoctors, d);
      AtMostOnePrimaryCount(assignedDoctors);
      WithoutDoctorKeepsPrimaryBound(assignedDoctors, d);
      AtMostOnePrimaryCount(next);
      SaveAssignedDoctors(next);
    }

    /** `addMedication(data, prescribedBy)`: one entry is appended, carrying the
        prescriber and today's date; a missing name, dosage or frequency fails
        the save's validation and nothing is stored. */
    method AddMedication(data: MedicationData, prescribedBy: Id, now: Millis) returns (saved: bool)
      requires Valid()
      modifies this`medications
      ensures Valid()
      ensures saved <==> data.name != "" && data.dosage != "" && data.frequency != ""
      ensures saved ==>
                medications == old(medications) + [Medication(data.name, data.dosage, data.frequency, prescribedBy, now, data.isActive.GetOr(true))]
      ensures !saved ==> medications == old(medications)
      ensures ActiveMedicationsCount(medications) ==
                ActiveMedicationsCount(old(medications)) + (if saved && data.isActive.GetOr(true) then 1 else 0)
    {
      saved := data.name != "" && data.dosage != "" && data.frequency != "";
      if saved {
        var m := Medication(data.name, data.dosage, data.frequency, prescribedBy, now, data.isActive.GetOr(true));
        ActiveCountAppend(medications, m);
        medications := medications + [m];
      }
    }

    /** `updateVitals(vitalType, value, recordedBy, unit)` and its save: one
        vital sign is rewritten and stamped, the others are untouched. The save
        fails, and nothing is stored, when a number is expected and an object
        is given or when a truthy unit is outside the sign's enum; a unit given
        for a sign without a unit path is dropped. */
    method UpdateVitals(kind: VitalKind, input: VitalInput, recordedBy: Id, unit: Option<string>, now: Millis)
      returns (saved: bool)
      requires Valid()
      modifies this`vitals
      ensures Valid()
      ensures saved <==> kind == BloodPressure
                         || (input.Measure? && (!HasUnit(kind) || unit.None? || unit.value == "" || unit.value in AllowedUnits(kind)))
      ensures !saved ==> vitals == old(vitals)
      ensures forall k :: k != kind ==> vitals[k] == old(vitals)[k]
      ensures saved ==> vitals[kind].recordedDate == Some(now) && vitals[kind].recordedBy == Some(recordedBy)
      ensures saved && kind == BloodPressure ==>
                vitals[kind] == old(vitals)[kind].(systolic := if input.Pressure? then input.systolic else None,
                                                   diastolic := if input.Pressure? then input.diastolic else None,
                                                   recordedDate := Some(now), recordedBy := Some(recordedBy))
      ensures saved && kind != BloodPressure ==>
                vitals[kind] == old(vitals)[kind].(value := Some(input.amount),
                                                   unit := if HasUnit(kind) && unit.Some? && unit.value != "" then unit else old(vitals)[kind].unit,
                                                   recordedDate := Some(now), recordedBy := Some(recordedBy))
    {
      var v := vitals[kind];
      if kind == BloodPressure {
        var sys := if input.Pressure? then input.systolic else None;
        var dia := if input.Pressure? then input.diastolic else None;
        v := v.(systolic := sys, diastolic := dia);
      } else {
        if input.Pressure? {
          return false;
        }
        v := v.(value := Some(input.amount));
        if HasUnit(kind) && unit.Some? && unit.value != "" {
          if unit.value !in AllowedUnits(kind) {
            return false;
          }
          v := v.(unit := unit);
        }
      }
      v := v.(recordedDate := Some(now), recordedBy := Some(recordedBy));
      vitals := vitals[kind := v];
      saved := true;
    }
  }
}
