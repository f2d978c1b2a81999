/**
 * The "show all" view of the appointment list: one row per patient, that
 * patient's newest visit, whose medicine box is replaced by the patient's
 * whole medicine history; the rows are then sorted newest visit date first.
 * These are the specification functions the loop in `Clinic.Store.ShowAll`
 * is proved against, with what they promise.
 */
module Aggregation {
  import opened Wrappers
  import opened Strings
  import opened Records

  /** The line between two entries of the combined medicine history. */
  const Separator: string := "\n\n--------------------\n"

  /** The calendar emoji and space that open every entry. */
  const DateTag: string := "\U{1F4C5} "

  /** `v.medicine_box and v.medicine_box.strip()`: a medicine entry that is
      present and not blank. */
  predicate HasMedicine(v: Visit) {
    v.medicineBox.Some? && !IsBlank(v.medicineBox.value)
  }

  /** One entry: the visit's date, then its medicine text as stored. */
  function Entry(v: Visit): (e: string)
    requires v.medicineBox.Some?
    ensures e != []
  {
    DateTag + v.visitDate + ":\n" + v.medicineBox.value
  }

  /** `combined_meds`: the entries of the visits that carry medicine, in
      the order the visits are walked. */
  function Entries(h: seq<Visit>): seq<string> {
    if h == [] then []
    else
      var last := h[|h| - 1];
      Entries(h[..|h| - 1]) + (if HasMedicine(last) then [Entry(last)] else [])
  }

  /** Python's `sep.join(parts)`. */
  function Join(sep: string, parts: seq<string>): string {
    if parts == [] then ""
    else if |parts| == 1 then parts[0]
    else parts[0] + sep + Join(sep, parts[1..])
  }

  /** The combined medicine history of a history list. */
  function Digest(h: seq<Visit>): string {
    Join(Separator, Entries(h))
  }

  /** The row shown for a patient: the first (newest) visit of its history,
      its medicine box replaced by the combined history. */
  function LatestRow(h: seq<Visit>): Visit
    requires h != []
  {
    h[0].(medicineBox := Some(Digest(h)))
  }

  /** The rows the loop over all patients appends, before sorting. */
  function LatestRows(ps: seq<Patient>, vs: seq<Visit>): seq<Visit> {
    if ps == [] then []
    else
      var h := History(vs, ps[|ps| - 1].id);
      LatestRows(ps[..|ps| - 1], vs) + (if h != [] then [LatestRow(h)] else [])
  }

  // ---------------------------------------------------------------------
  // The combined medicine history

  /** Walking a list of visits in two pieces gives the entries of the first
      piece followed by those of the second: no entry is reordered. */
  lemma {:induction false} EntriesAppend(a: seq<Visit>, b: seq<Visit>)
    ensures Entries(a + b) == Entries(a) + Entries(b)
  {
    if b != [] {
      var b' := b[..|b| - 1];
      assert (a + b)[..|a + b| - 1] == a + b';
      EntriesAppend(a, b');
    } else {
      assert a + b == a;
    }
  }

  /** A visit contributes exactly its own entry, or nothing when its
      medicine box is missing or blank. */
  lemma EntriesSingle(v: Visit)
    ensures Entries([v]) == if HasMedicine(v) then [Entry(v)] else []
  {
    assert [v][..0] == [];
  }

  /** There are no entries exactly when no visit carries medicine. */
  lemma {:induction false} EntriesEmptyIff(h: seq<Visit>)
    ensures Entries(h) == [] <==> forall v :: v in h ==> !HasMedicine(v)
  {
    if h != [] {
      var init := h[..|h| - 1];
      EntriesEmptyIff(init);
      assert h == init + [h[|h| - 1]];
      assert forall v :: v in h <==> v in init || v == h[|h| - 1];
    }
  }

  /** Joining non-empty parts gives the empty string only for no parts. */
  lemma JoinEmptyIff(sep: string, parts: seq<string>)
    requires forall i :: 0 <= i < |parts| ==> parts[i] != []
    ensures Join(sep, parts) == "" <==> parts == []
  {
    if |parts| >= 2 {
      assert |Join(sep, parts)| >= |parts[0]|;
    }
  }

  /** Every entry is non-empty. */
  lemma {:induction false} EntriesNonEmpty(h: seq<Visit>)
    ensures forall i :: 0 <= i < |Entries(h)| ==> Entries(h)[i] != []
  {
    if h != [] {
      EntriesNonEmpty(h[..|h| - 1]);
    }
  }

  /** The combined history is empty exactly when no visit has a non-blank
      medicine entry. */
  lemma DigestEmptyIff(h: seq<Visit>)
    ensures Digest(h) == "" <==> forall v :: v in h ==> !HasMedicine(v)
  {
    EntriesNonEmpty(h);
    JoinEmptyIff(Separator, Entries(h));
    EntriesEmptyIff(h);
  }

  /** Two visits with medicine, newer first: the combined history is the
      newer entry, the separator, then the older entry. */
  lemma DigestOfTwo(newer: Visit, older: Visit)
    requires HasMedicine(newer) && HasMedicine(older)
    ensures Digest([newer, older]) == Entry(newer) + Separator + Entry(older)
  {
    assert [newer, older] == [newer] + [older];
    EntriesAppend([newer], [older]);
    EntriesSingle(newer);
    EntriesSingle(older);
    var parts := [Entry(newer), Entry(older)];
    assert Entries([newer, older]) == parts;
    assert parts[1..] == [Entry(older)];
    assert Join(Separator, parts) == Entry(newer) + Separator + Join(Separator, [Entry(older)]);
  }

  // ---------------------------------------------------------------------
  // One row per patient with visits

  /** Every row is the newest visit of some patient that has visits, with
      that patient's combined history. */
  lemma {:induction false} RowsComeFromPatients(ps: seq<Patient>, vs: seq<Visit>, row: Visit)
    requires row in LatestRows(ps, vs)
    ensures exists i :: 0 <= i < |ps| && History(vs, ps[i].id) != [] && row == LatestRow(History(vs, ps[i].id))
  {
    var init := ps[..|ps| - 1];
    var h := History(vs, ps[|ps| - 1].id);
    var before := LatestRows(init, vs);
    assert LatestRows(ps, vs) == before + (if h != [] then [LatestRow(h)] else []);
    if row in before {
      RowsComeFromPatients(init, vs, row);
      var i :| 0 <= i < |init| && History(vs, init[i].id) != [] && row == LatestRow(History(vs, init[i].id));
      assert init[i] == ps[i];
      assert 0 <= i < |ps| && History(vs, ps[i].id) != [] && row == LatestRow(History(vs, ps[i].id));
    } else {
      var i := |ps| - 1;
      assert 0 <= i < |ps| && History(vs, ps[i].id) != [] && row == LatestRow(History(vs, ps[i].id));
    }
  }

  /** Every patient with at least one visit has its row. */
  lemma {:induction false} EveryPatientWithVisitsHasRow(ps: seq<Patient>, vs: seq<Visit>, i: nat)
    requires i < |ps| && History(vs, ps[i].id) != []
    ensures LatestRow(History(vs, ps[i].id)) in LatestRows(ps, vs)
  {
    var init := ps[..|ps| - 1];
    if i < |ps| - 1 {
      assert init[i] == ps[i];
      EveryPatientWithVisitsHasRow(init, vs, i);
    }
  }

  /** Every row belongs to a patient in the table. */
  lemma RowsHavePatients(ps: seq<Patient>, vs: seq<Visit>)
    ensures forall row :: row in LatestRows(ps, vs) ==> HasPatient(ps, row.patientId)
  {
    forall row | row in LatestRows(ps, vs) ensures HasPatient(ps, row.patientId) {
      RowsComeFromPatients(ps, vs, row);
      var k :| 0 <= k < |ps| && History(vs, ps[k].id) != [] && row == LatestRow(History(vs, ps[k].id));
      var hk := History(vs, ps[k].id);
      assert hk[0] in hk;
    }
  }

  /** With ascending patient ids, the rows of all but the last patient
      belong to patients with smaller ids than the last. */
  lemma RowsBeforeLast(ps: seq<Patient>, vs: seq<Visit>)
    requires PatientIdsAscending(ps) && ps != []
    ensures forall row :: row in LatestRows(ps[..|ps| - 1], vs) ==> row.patientId < ps[|ps| - 1].id
  {
    var init := ps[..|ps| - 1];
    forall row | row in LatestRows(init, vs) ensures row.patientId < ps[|ps| - 1].id {
      RowsComeFromPatients(init, vs, row);
      var k :| 0 <= k < |init| && History(vs, init[k].id) != [] && row == LatestRow(History(vs, init[k].id));
      var hk := History(vs, init[k].id);
      assert hk[0] in hk;
      assert row.patientId == hk[0].patientId == init[k].id;
      assert init[k] == ps[k] && k < |ps| - 1;
    }
  }

  /** Rows follow the patient table, at most one row per patient: with
      ascending patient ids the rows' patient ids ascend strictly, and each
      belongs to a patient in the table. */
  lemma {:induction false} OneRowPerPatient(ps: seq<Patient>, vs: seq<Visit>)
    requires PatientIdsAscending(ps)
    ensures forall i, j :: 0 <= i < j < |LatestRows(ps, vs)| ==>
      LatestRows(ps, vs)[i].patientId < LatestRows(ps, vs)[j].patientId
    ensures forall row :: row in LatestRows(ps, vs) ==> HasPatient(ps, row.patientId)
  {
    RowsHavePatients(ps, vs);
    if ps != [] {
      var init := ps[..|ps| - 1];
      var last := ps[|ps| - 1];
      var h := History(vs, last.id);
      assert PatientIdsAscending(init);
      OneRowPerPatient(init, vs);
      RowsBeforeLast(ps, vs);
      var rows := LatestRows(ps, vs);
      var before := LatestRows(init, vs);
      assert rows == before + (if h != [] then [LatestRow(h)] else []);
      if h != [] {
        assert h[0] in h;
        forall i, j | 0 <= i < j < |rows| ensures rows[i].patientId < rows[j].patientId {
          assert rows[i] == before[i] && before[i] in before;
          if j < |rows| - 1 {
            assert rows[j] == before[j];
          }
        }
      }
    }
  }

  /** The row of a patient with visits is its visit with the highest id,
      and its medicine box holds the combined history. */
  lemma LatestRowIsNewest(vs: seq<Visit>, pid: nat)
    requires VisitIdsAscending(vs) && History(vs, pid) != []
    ensures LatestRow(History(vs, pid)).patientId == pid
    ensures LatestRow(History(vs, pid)).medicineBox == Some(Digest(History(vs, pid)))
    ensures forall v :: v in vs && v.patientId == pid ==> v.id <= LatestRow(History(vs, pid)).id
    ensures exists v :: v in vs && v.patientId == pid && LatestRow(History(vs, pid)) == v.(medicineBox := Some(Digest(History(vs, pid))))
  {
    HistoryHeadIsLatest(vs, pid);
  }

  // ---------------------------------------------------------------------
  // `visits.sort(key=lambda x: x.visit_date, reverse=True)`

  /** Newest visit date first: no row has an earlier date than one after it. */
  predicate SortedByDateDescending(rows: seq<Visit>) {
    forall i, j :: 0 <= i < j < |rows| ==> !Less(rows[i].visitDate, rows[j].visitDate)
  }

  /** Put `x` in front of the first row whose date is not later than its own. */
  function Insert(x: Visit, rows: seq<Visit>): (r: seq<Visit>)
    ensures multiset(r) == multiset(rows) + multiset{x}
    ensures SortedByDateDescending(rows) ==> SortedByDateDescending(r)
  {
    if rows == [] || !Less(x.visitDate, rows[0].visitDate) then
      if SortedByDateDescending(rows) then InsertFrontSorted(x, rows); [x] + rows
      else [x] + rows
    else
      var rest := Insert(x, rows[1..]);
      assert rows == [rows[0]] + rows[1..];
      if SortedByDateDescending(rows) then InsertAfterSorted(x, rows, rest); [rows[0]] + rest
      else [rows[0]] + rest
  }

  /** A row no older than the first of sorted rows can go in front. */
  lemma InsertFrontSorted(x: Visit, rows: seq<Visit>)
    requires SortedByDateDescending(rows)
    requires rows == [] || !Less(x.visitDate, rows[0].visitDate)
    ensures SortedByDateDescending([x] + rows)
  {
    var r := [x] + rows;
    forall i, j | 0 <= i < j < |r| ensures !Less(r[i].visitDate, r[j].visitDate) {
      if i == 0 {
        assert r[j] == rows[j - 1];
        if j > 1 && Less(x.visitDate, rows[j - 1].visitDate) {
          LessTrichotomy(x.visitDate, rows[0].visitDate);
          if x.visitDate != rows[0].visitDate {
            LessTransitive(rows[0].visitDate, x.visitDate, rows[j - 1].visitDate);
          }
        }
      } else {
        assert r[i] == rows[i - 1] && r[j] == rows[j - 1];
      }
    }
  }

  /** The first of sorted rows stays in front of the rest with `x` put in,
      when `x` is older than it. */
  lemma InsertAfterSorted(x: Visit, rows: seq<Visit>, rest: seq<Visit>)
    requires SortedByDateDescending(rows) && rows != [] && Less(x.visitDate, rows[0].visitDate)
    requires multiset(rest) == multiset(rows[1..]) + multiset{x} && SortedByDateDescending(rest)
    ensures SortedByDateDescending([rows[0]] + rest)
  {
    var r := [rows[0]] + rest;
    forall j | 0 <= j < |rest| ensures !Less(rows[0].visitDate, rest[j].visitDate) {
      assert rest[j] in multiset(rest);
      if rest[j] == x {
        if Less(rows[0].visitDate, x.visitDate) {
          LessTransitive(x.visitDate, rows[0].visitDate, x.visitDate);
          LessIrreflexive(x.visitDate);
        }
      } else {
        assert rest[j] in rows[1..];
        var k :| 0 <= k < |rows[1..]| && rows[1..][k] == rest[j];
        assert rows[k + 1] == rest[j];
      }
    }
    forall i, j | 0 <= i < j < |r| ensures !Less(r[i].visitDate, r[j].visitDate) {
      if i == 0 {
        assert r[j] == rest[j - 1];
      } else {
        assert r[i] == rest[i - 1] && r[j] == rest[j - 1];
      }
    }
  }

  /** A stable sort, newest visit date first: sorted, and a permutation of
      its input (see SortKeepsOrderOfTies for stability). */
  function SortByDate(rows: seq<Visit>): (r: seq<Visit>)
    ensures multiset(r) == multiset(rows)
    ensures SortedByDateDescending(r)
  {
    if rows == [] then []
    else
      assert rows == [rows[0]] + rows[1..];
      Insert(rows[0], SortByDate(rows[1..]))
  }

  /** The rows on one date, in order. */
  function OnDate(rows: seq<Visit>, d: string): seq<Visit> {
    if rows == [] then []
    else (if rows[0].visitDate == d then [rows[0]] else []) + OnDate(rows[1..], d)
  }

  /** Inserting a row adds it in front of the rows that share its date. */
  lemma {:induction false} InsertOnDate(x: Visit, rows: seq<Visit>, d: string)
    ensures OnDate(Insert(x, rows), d) == (if x.visitDate == d then [x] else []) + OnDate(rows, d)
  {
    if rows == [] || !Less(x.visitDate, rows[0].visitDate) {
      assert Insert(x, rows) == [x] + rows;
      assert ([x] + rows)[1..] == rows;
    } else {
      var first := rows[0];
      var rest := Insert(x, rows[1..]);
      assert Insert(x, rows) == [first] + rest;
      assert ([first] + rest)[1..] == rest;
      InsertOnDate(x, rows[1..], d);
      var own := if first.visitDate == d then [first] else [];
      assert OnDate(rows, d) == own + OnDate(rows[1..], d);
      assert OnDate([first] + rest, d) == own + OnDate(rest, d);
      if x.visitDate == d {
        LessIrreflexive(x.visitDate);
        assert own == [];
      } else {
        assert OnDate(rest, d) == OnDate(rows[1..], d);
      }
    }
  }

  /** Stability, as Python's `sort` promises with `reverse=True` too: the
      rows that share a date keep their original relative order. */
  lemma {:induction false} SortKeepsOrderOfTies(rows: seq<Visit>, d: string)
    ensures OnDate(SortByDate(rows), d) == OnDate(rows, d)
  {
    if rows != [] {
      SortKeepsOrderOfTies(rows[1..], d);
      InsertOnDate(rows[0], SortByDate(rows[1..]), d);
    }
  }
}
