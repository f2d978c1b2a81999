/**
 * The appointment list: today's appointments by default, a date and
 * procedure filter on request, and the prompt offering a welcome message
 * to a patient who was just registered.
 */
module Appointments {
  import opened Wrappers
  import opened Strings
  import opened Records

  /** Python truthiness of a form field: present and not the empty string. */
  predicate Given(f: Field) {
    f.Some? && f.value != ""
  }

  /** `Visit.procedure.contains(t)`, which SQLite evaluates as `LIKE '%t%'`:
      case-insensitive for ASCII, and never true of a NULL procedure. */
  predicate ProcedureMatches(v: Visit, t: string) {
    v.procedure.Some? && ContainsIgnoringCase(v.procedure.value, t)
  }

  /** The rows whose procedure matches `t`, in the given order. */
  function WithProcedure(rows: seq<Visit>, t: string): (r: seq<Visit>)
    ensures |r| <= |rows|
    ensures forall v :: v in r <==> v in rows && ProcedureMatches(v, t)
  {
    if rows == [] then []
    else
      assert rows == [rows[0]] + rows[1..];
      (if ProcedureMatches(rows[0], t) then [rows[0]] else []) + WithProcedure(rows[1..], t)
  }

  /** Narrowing by procedure keeps the rows' ascending id order. */
  lemma {:induction false} WithProcedureAscending(rows: seq<Visit>, t: string)
    requires VisitIdsAscending(rows)
    ensures VisitIdsAscending(WithProcedure(rows, t))
  {
    if rows != [] {
      var tail := rows[1..];
      assert VisitIdsAscending(tail) by {
        forall i, j | 0 <= i < j < |tail| ensures tail[i].id < tail[j].id {
          assert tail[i] == rows[i + 1] && tail[j] == rows[j + 1];
        }
      }
      var rest := WithProcedure(tail, t);
      WithProcedureAscending(tail, t);
      if ProcedureMatches(rows[0], t) {
        forall w | w in rest ensures rows[0].id < w.id {
          AfterFirstIsLarger(rows, w);
        }
        PrependAscending(rows[0], rest);
      }
    }
  }

  /** The listed visits are in table order: ascending ids. */
  lemma FilterAscending(vs: seq<Visit>, searchDate: Field, treatment: Field, today: string)
    requires VisitIdsAscending(vs)
    ensures VisitIdsAscending(Filter(vs, searchDate, treatment, today).rows)
    ensures VisitIdsAscending(Today(vs, today).rows)
  {
    var date := if Given(searchDate) then searchDate.value else today;
    ScheduledAscending(vs, date);
    ScheduledAscending(vs, today);
    if Given(treatment) {
      WithProcedureAscending(Scheduled(vs, date), treatment.value);
    }
  }

  /** The rows listed and the date shown in the date box. */
  datatype Listing = Listing(rows: seq<Visit>, date: Field)

  /** The search button: the visits due on the requested date, or on
      `today` when no date was given, narrowed to the requested procedure
      when one was given. */
  function Filter(vs: seq<Visit>, searchDate: Field, treatment: Field, today: string): (r: Listing)
    ensures r.date == Some(if Given(searchDate) then searchDate.value else today)
    ensures forall v :: v in r.rows <==>
      v in vs && v.nextApptDate == r.date && (Given(treatment) ==> ProcedureMatches(v, treatment.value))
  {
    var date := if Given(searchDate) then searchDate.value else today;
    var due := Scheduled(vs, date);
    Listing(if Given(treatment) then WithProcedure(due, treatment.value) else due, Some(date))
  }

  /** A plain visit to the page: the visits due today. */
  function Today(vs: seq<Visit>, today: string): (r: Listing)
    ensures r.date == Some(today)
    ensures forall v :: v in r.rows <==> v in vs && v.nextApptDate == Some(today)
  {
    Listing(Scheduled(vs, today), Some(today))
  }

  /** The `new_id` prompt: the patient to offer a welcome message to, which
      is the patient with that id unless there is none or it was already
      welcomed. */
  function WelcomePrompt(ps: seq<Patient>, newId: Option<nat>): (r: Option<Patient>)
    requires PatientIdsAscending(ps)
    ensures r.Some? ==> r.value in ps && newId == Some(r.value.id) && !r.value.welcomeSent
    ensures r.None? ==> newId.None? || forall i :: 0 <= i < |ps| && ps[i].id == newId.value ==> ps[i].welcomeSent
  {
    if newId.None? then None
    else match FindPatient(ps, newId.value)
      case None => None
      case Some(i) => if ps[i].welcomeSent then None else Some(ps[i])
  }
}
