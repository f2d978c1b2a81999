/**
 * The clinic database as one object: the two tables the routes read and
 * write. Each state-changing route is a method that updates the tables in
 * place, proved against the functions in `Updates` and `Reminders`; the
 * appointment list is a method that reads them and changes nothing.
 */
module Clinic {
  import opened Wrappers
  import opened Strings
  import opened Phone
  import opened Records
  import opened Updates
  import opened Appointments
  import opened Aggregation
  import opened Reminders

  /** Which form button, if any, brought the user to the appointment list. */
  datatype AppointmentsRequest =
    | Browse
    | ShowAllPressed(searchDate: Field, treatment: Field)
    | SearchPressed(searchDate: Field, treatment: Field)
    | OtherPost(searchDate: Field, treatment: Field)

  /** What the appointment list shows: the rows, the contents of the two
      filter boxes, and the patient offered a welcome message. */
  datatype AppointmentsView = AppointmentsView(rows: seq<Visit>, date: Field, treatment: Field, prompt: Option<Patient>)

  /** The inner loop of "show all": the entries of the visits that carry
      medicine, in history order, joined by the separator. */
  method CombineMedicines(h: seq<Visit>) returns (digest: string)
    ensures digest == Digest(h)
  {
    var combined: seq<string> := [];
    var j := 0;
    while j < |h|
      invariant 0 <= j <= |h|
      invariant combined == Entries(h[..j])
    {
      EntriesStep(h, j);
      var v := h[j];
      if v.medicineBox.Some? && Strip(v.medicineBox.value) != [] {
        combined := combined + [Entry(v)];
      }
      j := j + 1;
    }
    assert h[..|h|] == h;
    digest := Join(Separator, combined);
  }

  /** One more visit walked adds its entry, if it has one. */
  lemma EntriesStep(h: seq<Visit>, j: nat)
    requires j < |h|
    ensures Entries(h[..j + 1]) == Entries(h[..j]) + (if HasMedicine(h[j]) then [Entry(h[j])] else [])
  {
    assert h[..j + 1][..j] == h[..j];
  }

  /** One more patient walked adds its row, if it has visits. */
  lemma LatestRowsStep(ps: seq<Patient>, vs: seq<Visit>, i: nat)
    requires i < |ps|
    ensures LatestRows(ps[..i + 1], vs) == LatestRows(ps[..i], vs) +
      (if History(vs, ps[i].id) != [] then [LatestRow(History(vs, ps[i].id))] else [])
  {
    assert ps[..i + 1][..i] == ps[..i];
  }

  /** One more visit walked is one more turn of the sweep. */
  lemma RunStep(ps: seq<Patient>, due: seq<Visit>, i: nat, tomorrow: string, channel: nat -> SendResult)
    requires AllOwned(ps, due) && i < |due|
    ensures AllOwned(ps, due[..i]) && AllOwned(ps, due[..i + 1]) && HasPatient(ps, due[i].patientId)
    ensures Run(ps, due[..i + 1], tomorrow, channel) == Step(ps, Run(ps, due[..i], tomorrow, channel), due[i], tomorrow, channel)
  {
    assert AllOwned(ps, due[..i]);
    assert AllOwned(ps, due[..i + 1]);
    assert due[..i + 1][..i] == due[..i];
  }

  /** A visit of the table is found by id in the table the sweep has
      marked so far, and setting its flag there marks one more delivery. */
  lemma MarkInPlace(vs: seq<Visit>, sent: set<nat>, v: Visit)
    requires VisitIdsAscending(vs) && v in vs
    ensures FindVisit(MarkSent(vs, sent), v.id).Some?
    ensures var m := MarkSent(vs, sent);
      var k := FindVisit(m, v.id).value;
      m[k := m[k].(reminderSent := true)] == MarkSent(vs, sent + {v.id})
  {
    var m := MarkSent(vs, sent);
    var j :| 0 <= j < |vs| && vs[j] == v;
    assert m[j].id == v.id;
    var k := FindVisit(m, v.id).value;
    assert m[k].id == vs[k].id;
    assert k == j;
    MarkSentOneMore(vs, sent, k);
  }

  class Store {
    var patients: seq<Patient>
    var visits: seq<Visit>

    predicate Valid()
      reads this
    {
      Consistent(patients, visits)
    }

    /** `db.create_all()` on a new database file. */
    constructor ()
      ensures Valid() && patients == [] && visits == []
    {
      patients := [];
      visits := [];
    }

    /** `/add`: the upsert by phone, then a new visit for that patient.
        The result is the `new_id` of the redirect, present only when a
        patient row was created. */
    method AddPatient(form: CheckupForm, today: string) returns (newId: Option<nat>)
      requires Valid()
      modifies this
      ensures Valid()
      ensures patients == Admit(old(patients), form).patients
      ensures visits == Checkup(old(patients), old(visits), form, today)
      ensures newId.Some? <==> Admit(old(patients), form).isNew
      ensures newId.Some? ==> newId.value == Admit(old(patients), form).patientId
    {
      CheckupConsistent(patients, visits, form, today);
      var patientId: nat;
      var isNew := false;
      var existing := FindPhone(patients, form.phone);
      if existing.Some? {
        var k := existing.value;
        patientId := patients[k].id;
        patients := patients[k := Refreshed(patients[k], form)];
      } else {
        var p := NewPatient(patients, form);
        patients := patients + [p];
        patientId := p.id;
        isNew := true;
      }
      visits := visits + [OpenVisit(visits, patientId, form, today)];
      newId := if isNew then Some(patientId) else None;
    }

    /** `/send_welcome/<id>`: one attempt for a patient not yet welcomed,
        answered by `reply`; the flag is committed only on delivery. */
    method SendWelcome(id: nat, reply: SendResult) returns (outcome: WelcomeOutcome, attempt: Option<Outbound>)
      requires Valid()
      modifies this
      ensures Valid()
      ensures patients == Welcome(old(patients), id, reply).patients
      ensures outcome == Welcome(old(patients), id, reply).outcome
      ensures attempt == Welcome(old(patients), id, reply).attempt
      ensures visits == old(visits)
    {
      WelcomeConsistent(patients, visits, id, reply);
      var found := FindPatient(patients, id);
      if found.None? {
        outcome, attempt := NoSuchPatient, None;
        return;
      }
      var k := found.value;
      var p := patients[k];
      if p.welcomeSent {
        outcome, attempt := AlreadyWelcomed, None;
        return;
      }
      attempt := Some(Outbound(Normalize(p.phone), WelcomeMessage(p.name)));
      match reply {
        case Delivered =>
          patients := patients[k := p.(welcomeSent := true)];
          outcome := Welcomed;
        case Failed(e) =>
          outcome := WelcomeFailed(e);
      }
    }

    /** `/delete/<id>`: removes the visit with that id; `found` is false
        (a 404) when there is none. */
    method DeleteVisit(id: nat) returns (found: bool)
      requires Valid()
      modifies this
      ensures Valid()
      ensures found <==> FindVisit(old(visits), id).Some?
      ensures found ==> visits == Without(old(visits), FindVisit(old(visits), id).value)
      ensures !found ==> visits == old(visits)
      ensures forall v :: v in visits <==> v in old(visits) && v.id != id
      ensures patients == old(patients)
    {
      var k := FindVisit(visits, id);
      if k.None? {
        found := false;
        return;
      }
      WithoutConsistent(patients, visits, k.value);
      WithoutRemovesOnly(visits, k.value);
      visits := Without(visits, k.value);
      found := true;
    }

    /** `/update_status/<id>/<status>`: any status text is stored as given;
        `found` is false (the route fails) when there is no such visit. */
    method UpdateStatus(id: nat, status: string) returns (found: bool)
      requires Valid()
      modifies this
      ensures Valid()
      ensures found <==> FindVisit(old(visits), id).Some?
      ensures found ==> visits == WithStatus(old(visits), FindVisit(old(visits), id).value, status)
      ensures !found ==> visits == old(visits)
      ensures patients == old(patients)
    {
      var k := FindVisit(visits, id);
      if k.None? {
        found := false;
        return;
      }
      WithStatusConsistent(patients, visits, k.value, status);
      visits := WithStatus(visits, k.value, status);
      found := true;
    }

    /** `/send_reminders`: the sweep over the visits due `tomorrow`, with
        `channel(k)` the answer to the k-th send. Returns the log and the
        sends attempted; the flag of each delivered visit is set in place. */
    method SendReminders(tomorrow: string, channel: nat -> SendResult) returns (logs: seq<LogEntry>, attempts: seq<Outbound>)
      requires Valid()
      modifies this
      ensures Valid()
      ensures AllOwned(old(patients), Scheduled(old(visits), tomorrow))
      ensures var due := Scheduled(old(visits), tomorrow);
        var st := Run(old(patients), due, tomorrow, channel);
        && logs == Report(tomorrow, due, st)
        && attempts == st.attempts
        && visits == MarkSent(old(visits), st.sent)
      ensures patients == old(patients)
    {
      var ps := patients;
      ghost var base := visits;
      var due := Scheduled(visits, tomorrow);
      ScheduledOwned(ps, base, tomorrow);
      MarkSentNothing(base);
      ghost var sent: set<nat> := {};
      var perVisit: seq<LogEntry> := [];
      var count := 0;
      attempts := [];
      assert due[..0] == [];
      for i := 0 to |due|
        invariant patients == ps
        invariant AllOwned(ps, due[..i])
        invariant Run(ps, due[..i], tomorrow, channel) == Sweep(sent, attempts, perVisit, count)
        invariant visits == MarkSent(base, sent)
      {
        var v := due[i];
        RunStep(ps, due, i, tomorrow, channel);
        var p := Owner(ps, v);
        if v.reminderSent {
          perVisit := perVisit + [Skipped(p.name)];
        } else {
          var msg := Outbound(Normalize(p.phone), ReminderMessage(p.name, v.procedure, tomorrow));
          perVisit := perVisit + [Sending(p.name)];
          var answer := channel(|attempts|);
          attempts := attempts + [msg];
          match answer {
            case Delivered =>
              assert v in due;
              MarkReminded(base, sent, v);
              sent := sent + {v.id};
              perVisit := perVisit + [SentOk];
              count := count + 1;
            case Failed(e) =>
              perVisit := perVisit + [SendFailed(e)];
          }
        }
      }
      assert due[..|due|] == due;
      MarkSentConsistent(ps, base, sent);
      if due == [] {
        logs := [Scanning(tomorrow), NoAppointments];
      } else {
        logs := [Scanning(tomorrow)] + (perVisit + [if count == 0 then NoNewMessages else Completed(count)]);
      }
    }

    /** `visit.reminder_sent = True` and its commit, in a table whose
        flags are those of `base` with the deliveries `sent` marked. */
    method MarkReminded(ghost base: seq<Visit>, ghost sent: set<nat>, v: Visit)
      requires VisitIdsAscending(base) && v in base && visits == MarkSent(base, sent)
      modifies this
      ensures visits == MarkSent(base, sent + {v.id})
      ensures patients == old(patients)
    {
      MarkInPlace(base, sent, v);
      var k := FindVisit(visits, v.id).value;
      visits := visits[k := visits[k].(reminderSent := true)];
    }

    /** The "show all" button: one row per patient with visits, that
        patient's newest visit carrying the combined medicine history, the
        rows newest visit date first. The store is left as it was: the
        combined text is never committed. */
    method ShowAll() returns (rows: seq<Visit>)
      ensures rows == SortByDate(LatestRows(patients, visits))
    {
      var latest: seq<Visit> := [];
      var i := 0;
      while i < |patients|
        invariant 0 <= i <= |patients|
        invariant latest == LatestRows(patients[..i], visits)
      {
        LatestRowsStep(patients, visits, i);
        var h := History(visits, patients[i].id);
        if h != [] {
          var digest := CombineMedicines(h);
          latest := latest + [h[0].(medicineBox := Some(digest))];
        }
        i := i + 1;
      }
      assert patients[..|patients|] == patients;
      rows := SortByDate(latest);
    }

    /** `/appointments`: the list the request asks for, the filter boxes as
        shown, and the welcome prompt for `newId`. */
    method AppointmentsPage(req: AppointmentsRequest, newId: Option<nat>, today: string) returns (page: AppointmentsView)
      requires Valid()
      ensures page.prompt == WelcomePrompt(patients, newId)
      ensures req.Browse? ==> Listing(page.rows, page.date) == Today(visits, today) && page.treatment == None
      ensures req.SearchPressed? ==> Listing(page.rows, page.date) == Filter(visits, req.searchDate, req.treatment, today)
      ensures req.ShowAllPressed? ==> page.rows == SortByDate(LatestRows(patients, visits)) && page.date == req.searchDate
      ensures req.OtherPost? ==> page.rows == [] && page.date == req.searchDate
      ensures !req.Browse? ==> page.treatment == req.treatment
    {
      var prompt := WelcomePrompt(patients, newId);
      match req {
        case Browse =>
          var l := Today(visits, today);
          page := AppointmentsView(l.rows, l.date, None, prompt);
        case ShowAllPressed(d, t) =>
          var rows := ShowAll();
          page := AppointmentsView(rows, d, t, prompt);
        case SearchPressed(d, t) =>
          var l := Filter(visits, d, t, today);
          page := AppointmentsView(l.rows, l.date, t, prompt);
        case OtherPost(d, t) =>
          page := AppointmentsView([], d, t, prompt);
      }
    }
  }
}
