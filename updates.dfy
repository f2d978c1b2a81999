/**
 * The writes the routes make to the two tables, as functions from the
 * old rows to the new ones: the registration upsert with the visit it
 * opens, deleting a visit, and setting a visit's status. `Clinic.Store`
 * applies them to its fields; the lemmas here show that each keeps the
 * database consistent and does no more than it should.
 */
module Updates {
  import opened Wrappers
  import opened Records

  /** The first row of a patient who registers with a phone not seen before. */
  function NewPatient(ps: seq<Patient>, form: CheckupForm): (p: Patient)
    ensures p.id == NextPatientId(ps) && p.phone == form.phone && !p.welcomeSent
    ensures p.name == form.name && p.age == form.age && p.gender == form.gender
    ensures p.address == form.address && p.familyHistory == form.familyHistory
  {
    Patient(NextPatientId(ps), form.name, form.phone, form.age, form.gender, form.address, form.familyHistory, false)
  }

  /** A returning patient's row after the form: name, age, address and
      family history are taken from the form; id, phone, gender and the
      welcome flag stay as they were. */
  function Refreshed(p: Patient, form: CheckupForm): (r: Patient)
    ensures r.id == p.id && r.phone == p.phone && r.gender == p.gender && r.welcomeSent == p.welcomeSent
    ensures r.name == form.name && r.age == form.age && r.address == form.address && r.familyHistory == form.familyHistory
  {
    p.(name := form.name, age := form.age, address := form.address, familyHistory := form.familyHistory)
  }

  /** The patient table after the form, the id the visit is filed under,
      and whether a patient row was created. */
  datatype Admission = Admission(patients: seq<Patient>, patientId: nat, isNew: bool)

  /** The upsert by phone: the first patient with exactly the submitted
      phone is refreshed, and otherwise a new patient is appended. */
  function Admit(ps: seq<Patient>, form: CheckupForm): (r: Admission)
    ensures r.isNew <==> forall j :: 0 <= j < |ps| ==> ps[j].phone != form.phone
    ensures r.isNew ==> r.patients == ps + [NewPatient(ps, form)] && r.patientId == NextPatientId(ps)
    ensures !r.isNew ==>
      exists k :: 0 <= k < |ps| && ps[k].phone == form.phone &&
                  (forall j :: 0 <= j < k ==> ps[j].phone != form.phone) &&
                  r.patients == ps[k := Refreshed(ps[k], form)] && r.patientId == ps[k].id
  {
    match FindPhone(ps, form.phone)
    case None => Admission(ps + [NewPatient(ps, form)], NextPatientId(ps), true)
    case Some(k) => Admission(ps[k := Refreshed(ps[k], form)], ps[k].id, false)
  }

  /** The visit the form opens: dated `today`, status "Pending", no
      reminder sent yet, every clinical field as submitted. */
  function OpenVisit(vs: seq<Visit>, pid: nat, form: CheckupForm, today: string): (v: Visit)
    ensures v.id == NextVisitId(vs) && v.patientId == pid && v.visitDate == today
    ensures v.status == InitialStatus && !v.reminderSent
    ensures v.nextApptDate == form.nextApptDate && v.procedure == form.procedure && v.medicineBox == form.medicineBox
    ensures v.diagnosis == form.diagnosis && v.complaint == form.complaint && v.investigation == form.investigation
    ensures v.advice == form.advice && v.nextPlan == form.nextPlan
  {
    Visit(NextVisitId(vs), pid, today, form.nextApptDate, form.diagnosis, form.procedure, form.complaint,
          form.investigation, form.medicineBox, form.advice, form.nextPlan, InitialStatus, false)
  }

  /** The visit table after the form. */
  function Checkup(ps: seq<Patient>, vs: seq<Visit>, form: CheckupForm, today: string): (r: seq<Visit>)
    ensures |r| == |vs| + 1 && r[..|vs|] == vs
  {
    vs + [OpenVisit(vs, Admit(ps, form).patientId, form, today)]
  }

  /** The rows with a visit removed. */
  function Without(vs: seq<Visit>, k: nat): (r: seq<Visit>)
    requires k < |vs|
    ensures |r| == |vs| - 1
    ensures forall j :: 0 <= j < |r| ==> r[j] == vs[if j < k then j else j + 1]
  {
    vs[..k] + vs[k + 1..]
  }

  /** The rows with one visit's status replaced: that visit differs from
      before in its status alone, and every other row is as it was. */
  function WithStatus(vs: seq<Visit>, k: nat, status: string): (r: seq<Visit>)
    requires k < |vs|
    ensures |r| == |vs|
    ensures r[k].status == status && r[k].(status := vs[k].status) == vs[k]
    ensures forall j :: 0 <= j < |vs| && j != k ==> r[j] == vs[j]
  {
    vs[k := vs[k].(status := status)]
  }

  // ---------------------------------------------------------------------
  // Registration keeps the database consistent

  /** The upsert keeps phones unique. */
  lemma AdmitKeepsPhonesUnique(ps: seq<Patient>, form: CheckupForm)
    requires UniquePhones(ps)
    ensures UniquePhones(Admit(ps, form).patients)
  {
    var r := Admit(ps, form);
    if r.isNew {
      assert r.patients[|ps|] == NewPatient(ps, form);
    }
  }

  /** The upsert keeps ids ascending. */
  lemma AdmitKeepsIdsAscending(ps: seq<Patient>, form: CheckupForm)
    requires PatientIdsAscending(ps)
    ensures PatientIdsAscending(Admit(ps, form).patients)
  {
    var r := Admit(ps, form);
    if r.isNew {
      assert r.patients[|ps|] == NewPatient(ps, form);
    }
  }

  /** The submitted phone now belongs to the patient the visit is filed
      under, and to no other patient. */
  lemma AdmittedOwnsPhone(ps: seq<Patient>, form: CheckupForm)
    requires UniquePhones(ps)
    ensures var r := Admit(ps, form);
      FindPhone(r.patients, form.phone).Some? &&
      r.patients[FindPhone(r.patients, form.phone).value].id == r.patientId
  {
    var r := Admit(ps, form);
    AdmitKeepsPhonesUnique(ps, form);
    var k: nat;
    if !r.isNew {
      k :| 0 <= k < |ps| && ps[k].phone == form.phone && r.patients == ps[k := Refreshed(ps[k], form)] && r.patientId == ps[k].id;
    } else {
      k := |ps|;
    }
    assert r.patients[k].phone == form.phone && r.patients[k].id == r.patientId;
    var f := FindPhone(r.patients, form.phone).value;
    assert f == k;
  }

  /** Every patient stays, and the visit's patient exists afterwards. */
  lemma AdmitKeepsOwners(ps: seq<Patient>, form: CheckupForm, id: nat)
    ensures HasPatient(ps, id) ==> HasPatient(Admit(ps, form).patients, id)
    ensures HasPatient(Admit(ps, form).patients, Admit(ps, form).patientId)
  {
    var r := Admit(ps, form);
    if HasPatient(ps, id) {
      var i :| 0 <= i < |ps| && ps[i].id == id;
      assert r.patients[i].id == id;
    }
    if r.isNew {
      assert r.patients[|ps|].id == r.patientId;
    } else {
      var k :| 0 <= k < |ps| && ps[k].phone == form.phone && r.patients == ps[k := Refreshed(ps[k], form)] && r.patientId == ps[k].id;
      assert r.patients[k].id == r.patientId;
    }
  }

  /** A checkup form leaves the database consistent. */
  lemma CheckupConsistent(ps: seq<Patient>, vs: seq<Visit>, form: CheckupForm, today: string)
    requires Consistent(ps, vs)
    ensures Consistent(Admit(ps, form).patients, Checkup(ps, vs, form, today))
  {
    var r := Admit(ps, form);
    var vs' := Checkup(ps, vs, form, today);
    AdmitKeepsPhonesUnique(ps, form);
    AdmitKeepsIdsAscending(ps, form);
    forall j | 0 <= j < |vs'| ensures HasPatient(r.patients, vs'[j].patientId) {
      AdmitKeepsOwners(ps, form, vs'[j].patientId);
      if j < |vs| {
        assert vs'[j] == vs[j];
      }
    }
    assert vs'[|vs|] == OpenVisit(vs, r.patientId, form, today);
  }

  /** Registering twice with the same phone creates one patient: the second
      form refreshes the row the first created and files its visit under
      the same id. */
  lemma SamePhoneTwice(ps: seq<Patient>, first: CheckupForm, second: CheckupForm)
    requires UniquePhones(ps) && second.phone == first.phone
    ensures var one := Admit(ps, first);
      var two := Admit(one.patients, second);
      !two.isNew && two.patientId == one.patientId && |two.patients| == |one.patients|
  {
    var one := Admit(ps, first);
    AdmittedOwnsPhone(ps, first);
    var f := FindPhone(one.patients, first.phone).value;
    assert one.patients[f].phone == second.phone;
    var two := Admit(one.patients, second);
    AdmitKeepsPhonesUnique(ps, first);
    var k :| 0 <= k < |one.patients| && one.patients[k].phone == second.phone &&
      two.patients == one.patients[k := Refreshed(one.patients[k], second)] && two.patientId == one.patients[k].id;
    assert k == f;
  }

  // ---------------------------------------------------------------------
  // Deleting a visit and setting its status

  /** Deleting removes exactly the visit with that id. */
  lemma WithoutRemovesOnly(vs: seq<Visit>, k: nat)
    requires k < |vs| && VisitIdsAscending(vs)
    ensures forall v :: v in Without(vs, k) <==> v in vs && v.id != vs[k].id
  {
    var r := Without(vs, k);
    forall v | v in r ensures v in vs && v.id != vs[k].id {
      var i :| 0 <= i < |r| && r[i] == v;
      if i < k {
        assert v == vs[i];
      } else {
        assert v == vs[i + 1];
      }
    }
    forall v | v in vs && v.id != vs[k].id ensures v in r {
      var i :| 0 <= i < |vs| && vs[i] == v;
      if i < k {
        assert r[i] == v;
      } else {
        assert r[i - 1] == v;
      }
    }
  }

  /** Deleting a visit keeps the database consistent. */
  lemma WithoutConsistent(ps: seq<Patient>, vs: seq<Visit>, k: nat)
    requires k < |vs| && Consistent(ps, vs)
    ensures Consistent(ps, Without(vs, k))
  {
    var r := Without(vs, k);
    forall i, j | 0 <= i < j < |r| ensures r[i].id < r[j].id {
      var i' := if i < k then i else i + 1;
      var j' := if j < k then j else j + 1;
      assert r[i] == vs[i'] && r[j] == vs[j'];
    }
    forall j | 0 <= j < |r| ensures HasPatient(ps, r[j].patientId) {
      assert r[j] == vs[if j < k then j else j + 1];
    }
  }

  /** Setting a status keeps the database consistent, and setting it again
      to the same value changes nothing. */
  lemma WithStatusConsistent(ps: seq<Patient>, vs: seq<Visit>, k: nat, status: string)
    requires k < |vs| && Consistent(ps, vs)
    ensures Consistent(ps, WithStatus(vs, k, status))
    ensures WithStatus(WithStatus(vs, k, status), k, status) == WithStatus(vs, k, status)
  {
    var r := WithStatus(vs, k, status);
    forall j | 0 <= j < |r| ensures HasPatient(ps, r[j].patientId) {
      assert r[j].patientId == vs[j].patientId;
    }
  }
}
