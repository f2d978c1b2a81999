/**
 * The two tables of the clinic database, `patient` and `visit`, as rows,
 * and the queries every page runs against them. A table is a sequence of
 * rows in ascending id order, which is the order SQLite returns them in;
 * a new row takes the largest id plus one, as SQLite assigns a rowid.
 */
module Records {
  import opened Wrappers

  /** A nullable text column, or a form field that may be missing. */
  type Field = Option<string>

  datatype Patient = Patient(
    id: nat,
    name: string,
    phone: string,
    age: Field,
    gender: Field,
    address: Field,
    familyHistory: Field,
    welcomeSent: bool)

  datatype Visit = Visit(
    id: nat,
    patientId: nat,
    visitDate: string,
    nextApptDate: Field,
    diagnosis: Field,
    procedure: Field,
    complaint: Field,
    investigation: Field,
    medicineBox: Field,
    advice: Field,
    nextPlan: Field,
    status: string,
    reminderSent: bool)

  /** One submission of the registration-and-checkup form. */
  datatype CheckupForm = CheckupForm(
    phone: string,
    name: string,
    age: Field,
    gender: Field,
    address: Field,
    familyHistory: Field,
    complaint: Field,
    diagnosis: Field,
    procedure: Field,
    investigation: Field,
    medicineBox: Field,
    advice: Field,
    nextPlan: Field,
    nextApptDate: Field)

  /** The status every new visit starts in. */
  const InitialStatus: string := "Pending"

  predicate PatientIdsAscending(ps: seq<Patient>) {
    forall i, j :: 0 <= i < j < |ps| ==> ps[i].id < ps[j].id
  }

  predicate VisitIdsAscending(vs: seq<Visit>) {
    forall i, j :: 0 <= i < j < |vs| ==> vs[i].id < vs[j].id
  }

  predicate VisitIdsDescending(vs: seq<Visit>) {
    forall i, j :: 0 <= i < j < |vs| ==> vs[i].id > vs[j].id
  }

  /** The `unique=True` constraint on `patient.phone`. */
  predicate UniquePhones(ps: seq<Patient>) {
    forall i, j :: 0 <= i < j < |ps| ==> ps[i].phone != ps[j].phone
  }

  predicate HasPatient(ps: seq<Patient>, id: nat) {
    exists i :: 0 <= i < |ps| && ps[i].id == id
  }

  /** Every visit belongs to a patient that exists (`visit.patient_id`
      is a non-null foreign key, and patients are never deleted). */
  predicate VisitsOwned(ps: seq<Patient>, vs: seq<Visit>) {
    forall j :: 0 <= j < |vs| ==> HasPatient(ps, vs[j].patientId)
  }

  /** What the database keeps true across every request. */
  predicate Consistent(ps: seq<Patient>, vs: seq<Visit>) {
    && PatientIdsAscending(ps)
    && VisitIdsAscending(vs)
    && UniquePhones(ps)
    && VisitsOwned(ps, vs)
  }

  /** The id SQLite gives the next patient row. */
  function NextPatientId(ps: seq<Patient>): (id: nat)
    ensures id > 0
    ensures PatientIdsAscending(ps) ==> forall i :: 0 <= i < |ps| ==> ps[i].id < id
  {
    if ps == [] then 1 else ps[|ps| - 1].id + 1
  }

  /** The id SQLite gives the next visit row. */
  function NextVisitId(vs: seq<Visit>): (id: nat)
    ensures id > 0
    ensures VisitIdsAscending(vs) ==> forall i :: 0 <= i < |vs| ==> vs[i].id < id
  {
    if vs == [] then 1 else vs[|vs| - 1].id + 1
  }

  /** `Patient.query.filter_by(phone=phone).first()`: the position of the
      first patient whose phone is exactly `phone`, if there is one. */
  function FindPhone(ps: seq<Patient>, phone: string): (r: Option<nat>)
    ensures r.Some? ==> r.value < |ps| && ps[r.value].phone == phone
    ensures r.Some? ==> forall j :: 0 <= j < r.value ==> ps[j].phone != phone
    ensures r.None? <==> forall j :: 0 <= j < |ps| ==> ps[j].phone != phone
  {
    if ps == [] then None
    else if ps[0].phone == phone then Some(0)
    else match FindPhone(ps[1..], phone)
      case None => None
      case Some(k) => Some(k + 1)
  }

  /** `Patient.query.get(id)`: the position of the patient with that id. */
  function FindPatient(ps: seq<Patient>, id: nat): (r: Option<nat>)
    ensures r.Some? ==> r.value < |ps| && ps[r.value].id == id
    ensures r.None? <==> !HasPatient(ps, id)
  {
    if ps == [] then None
    else if ps[0].id == id then Some(0)
    else match FindPatient(ps[1..], id)
      case None =>
        assert forall j :: 1 <= j < |ps| ==> ps[j] == ps[1..][j - 1];
        None
      case Some(k) => Some(k + 1)
  }

  /** `Visit.query.get(id)`: the position of the visit with that id. */
  function FindVisit(vs: seq<Visit>, id: nat): (r: Option<nat>)
    ensures r.Some? ==> r.value < |vs| && vs[r.value].id == id
    ensures r.None? <==> forall j :: 0 <= j < |vs| ==> vs[j].id != id
  {
    if vs == [] then None
    else if vs[0].id == id then Some(0)
    else match FindVisit(vs[1..], id)
      case None => None
      case Some(k) => Some(k + 1)
  }

  /** `Visit.query.filter_by(patient_id=pid).order_by(Visit.id.desc()).all()`:
      every visit of patient `pid` and nothing else, newest (highest id)
      first (see HistoryNewestFirst). */
  function History(vs: seq<Visit>, pid: nat): (r: seq<Visit>)
    ensures |r| <= |vs|
    ensures forall v :: v in r <==> v in vs && v.patientId == pid
  {
    if vs == [] then []
    else
      assert vs == [vs[0]] + vs[1..];
      History(vs[1..], pid) + (if vs[0].patientId == pid then [vs[0]] else [])
  }

  /** A visit that comes after position 0 of an ascending table has a larger id. */
  lemma AfterFirstIsLarger(vs: seq<Visit>, v: Visit)
    requires VisitIdsAscending(vs) && vs != [] && v in vs[1..]
    ensures vs[0].id < v.id
  {
    var k :| 0 <= k < |vs[1..]| && vs[1..][k] == v;
    assert v == vs[k + 1];
  }

  /** The history is in strictly descending id order. */
  lemma {:induction false} HistoryNewestFirst(vs: seq<Visit>, pid: nat)
    requires VisitIdsAscending(vs)
    ensures VisitIdsDescending(History(vs, pid))
  {
    if vs != [] {
      var rest := History(vs[1..], pid);
      HistoryNewestFirst(vs[1..], pid);
      var r := History(vs, pid);
      forall i, j | 0 <= i < j < |r| ensures r[i].id > r[j].id {
        if j >= |rest| {
          assert r[i] == rest[i] && rest[i] in vs[1..];
          AfterFirstIsLarger(vs, rest[i]);
        }
      }
    }
  }

  /** The newest visit of a patient with any visits is first in its history:
      it is that patient's visit with the highest id. */
  lemma HistoryHeadIsLatest(vs: seq<Visit>, pid: nat)
    requires VisitIdsAscending(vs) && History(vs, pid) != []
    ensures History(vs, pid)[0] in vs && History(vs, pid)[0].patientId == pid
    ensures forall v :: v in vs && v.patientId == pid ==> v.id <= History(vs, pid)[0].id
  {
    var h := History(vs, pid);
    HistoryNewestFirst(vs, pid);
    assert h[0] in h;
    forall v | v in vs && v.patientId == pid ensures v.id <= h[0].id {
      var k :| 0 <= k < |h| && h[k] == v;
    }
  }

  /** `Visit.query.filter_by(next_appt_date=date).all()`: the visits whose
      next appointment is on `date`, in table order. */
  function Scheduled(vs: seq<Visit>, date: string): (r: seq<Visit>)
    ensures |r| <= |vs|
    ensures forall v :: v in r <==> v in vs && v.nextApptDate == Some(date)
  {
    if vs == [] then []
    else
      assert vs == [vs[0]] + vs[1..];
      (if vs[0].nextApptDate == Some(date) then [vs[0]] else []) + Scheduled(vs[1..], date)
  }

  /** A visit with a smaller id than every row of an ascending table can go in front. */
  lemma PrependAscending(v: Visit, rest: seq<Visit>)
    requires VisitIdsAscending(rest) && forall w :: w in rest ==> v.id < w.id
    ensures VisitIdsAscending([v] + rest)
  {
    var r := [v] + rest;
    forall i, j | 0 <= i < j < |r| ensures r[i].id < r[j].id {
      assert r[j] == rest[j - 1];
      if i > 0 {
        assert r[i] == rest[i - 1];
      }
    }
  }

  /** Filtering keeps the table's ascending id order. */
  lemma {:induction false} ScheduledAscending(vs: seq<Visit>, date: string)
    requires VisitIdsAscending(vs)
    ensures VisitIdsAscending(Scheduled(vs, date))
  {
    if vs != [] {
      var tail := vs[1..];
      assert VisitIdsAscending(tail) by {
        forall i, j | 0 <= i < j < |tail| ensures tail[i].id < tail[j].id {
          assert tail[i] == vs[i + 1] && tail[j] == vs[j + 1];
        }
      }
      var rest := Scheduled(tail, date);
      ScheduledAscending(tail, date);
      if vs[0].nextApptDate == Some(date) {
        forall w | w in rest ensures vs[0].id < w.id {
          AfterFirstIsLarger(vs, w);
        }
        PrependAscending(vs[0], rest);
      }
    }
  }
}
