/**
 * The registration page: select a patient by id, or search patients by a
 * fragment of their name and act only on an unambiguous result.
 */
module Registration {
  import opened Wrappers
  import opened Strings
  import opened Records

  /** `Patient.name.ilike('%' + q + '%')`: `q` occurs in the name, ASCII case ignored. */
  predicate NameMatches(p: Patient, q: string) {
    ContainsIgnoringCase(p.name, q)
  }

  /** The patients whose name matches `q`, in table order. */
  function Matching(ps: seq<Patient>, q: string): (r: seq<Patient>)
    ensures |r| <= |ps|
    ensures forall p :: p in r <==> p in ps && NameMatches(p, q)
  {
    if ps == [] then []
    else
      assert ps == [ps[0]] + ps[1..];
      (if NameMatches(ps[0], q) then [ps[0]] else []) + Matching(ps[1..], q)
  }

  /** A patient with a smaller id than every row of an ascending table can go in front. */
  lemma PrependPatient(p: Patient, rest: seq<Patient>)
    requires PatientIdsAscending(rest) && forall w :: w in rest ==> p.id < w.id
    ensures PatientIdsAscending([p] + rest)
  {
    var r := [p] + rest;
    forall i, j | 0 <= i < j < |r| ensures r[i].id < r[j].id {
      assert r[j] == rest[j - 1];
      if i > 0 {
        assert r[i] == rest[i - 1];
      }
    }
  }

  /** A patient after position 0 of an ascending table has a larger id. */
  lemma AfterFirstPatient(ps: seq<Patient>, p: Patient)
    requires PatientIdsAscending(ps) && ps != [] && p in ps[1..]
    ensures ps[0].id < p.id
  {
    var k :| 0 <= k < |ps[1..]| && ps[1..][k] == p;
    assert p == ps[k + 1];
  }

  /** The matches keep the table's ascending id order. */
  lemma {:induction false} MatchingAscending(ps: seq<Patient>, q: string)
    requires PatientIdsAscending(ps)
    ensures PatientIdsAscending(Matching(ps, q))
  {
    if ps != [] {
      var tail := ps[1..];
      assert PatientIdsAscending(tail) by {
        forall i, j | 0 <= i < j < |tail| ensures tail[i].id < tail[j].id {
          assert tail[i] == ps[i + 1] && tail[j] == ps[j + 1];
        }
      }
      var rest := Matching(tail, q);
      MatchingAscending(tail, q);
      if NameMatches(ps[0], q) {
        forall w | w in rest ensures ps[0].id < w.id {
          AfterFirstPatient(ps, w);
        }
        PrependPatient(ps[0], rest);
      }
    }
  }

  /** The three outcomes of a search, and the search that was not run. */
  datatype SearchResult =
    | NoSearch
    | NoMatch
    | Unique(patient: Patient)
    | Ambiguous(candidates: seq<Patient>)

  /** What `len(results)` decides: none, exactly one (loaded directly),
      or several (listed as candidates, none selected). */
  function Classify(results: seq<Patient>): (r: SearchResult)
    ensures r != NoSearch
    ensures r.NoMatch? <==> results == []
    ensures r.Unique? <==> |results| == 1
    ensures r.Unique? ==> r.patient == results[0]
    ensures r.Ambiguous? <==> |results| >= 2
    ensures r.Ambiguous? ==> r.candidates == results
  {
    if |results| == 1 then Unique(results[0])
    else if |results| > 1 then Ambiguous(results)
    else NoMatch
  }

  /** The search button: strip the fragment; a blank one runs no search;
      otherwise the matches are classified by their number. */
  function Search(ps: seq<Patient>, searchName: string): (r: SearchResult)
    ensures r == NoSearch <==> IsBlank(searchName)
    ensures r.NoMatch? <==> !IsBlank(searchName) && forall p :: p in ps ==> !NameMatches(p, Strip(searchName))
    ensures r.Unique? ==> r.patient in ps && NameMatches(r.patient, Strip(searchName))
    ensures r.Unique? ==> forall p :: p in ps && NameMatches(p, Strip(searchName)) ==> p == r.patient
    ensures r.Ambiguous? ==> |r.candidates| >= 2
    ensures r.Ambiguous? ==> forall p :: p in r.candidates <==> p in ps && NameMatches(p, Strip(searchName))
  {
    if Strip(searchName) == [] then NoSearch
    else Found(ps, Strip(searchName))
  }

  /** The search proper, once the stripped fragment is known to be non-empty. */
  function Found(ps: seq<Patient>, q: string): (r: SearchResult)
    ensures r != NoSearch
    ensures r.NoMatch? <==> forall p :: p in ps ==> !NameMatches(p, q)
    ensures r.Unique? ==> r.patient in ps && NameMatches(r.patient, q)
    ensures r.Unique? ==> forall p :: p in ps && NameMatches(p, q) ==> p == r.patient
    ensures r.Ambiguous? ==> |r.candidates| >= 2
    ensures r.Ambiguous? ==> forall p :: p in r.candidates <==> p in ps && NameMatches(p, q)
  {
    var m := Matching(ps, q);
    assert |m| == 1 ==> forall p :: p in m ==> p == m[0];
    assert m != [] ==> m[0] in m;
    Classify(m)
  }

  /** Two matching rows give at least two matches. */
  lemma {:induction false} TwoRowsTwoMatches(ps: seq<Patient>, q: string, i: nat, j: nat)
    requires i < j < |ps| && NameMatches(ps[i], q) && NameMatches(ps[j], q)
    ensures |Matching(ps, q)| >= 2
  {
    var rest := Matching(ps[1..], q);
    assert ps[j] == ps[1..][j - 1];
    if i == 0 {
      assert ps[j] in rest;
    } else {
      assert ps[i] == ps[1..][i - 1];
      TwoRowsTwoMatches(ps[1..], q, i - 1, j - 1);
    }
  }

  /** At least two matches come from two matching rows. */
  lemma {:induction false} TwoMatchesTwoRows(ps: seq<Patient>, q: string) returns (i: nat, j: nat)
    requires |Matching(ps, q)| >= 2
    ensures i < j < |ps| && NameMatches(ps[i], q) && NameMatches(ps[j], q)
  {
    var tail := ps[1..];
    var rest := Matching(tail, q);
    if NameMatches(ps[0], q) {
      assert |Matching(ps, q)| == 1 + |rest|;
      i := 0;
      j := LaterMatch(ps, q);
    } else {
      assert Matching(ps, q) == rest;
      var i', j' := TwoMatchesTwoRows(tail, q);
      i, j := i' + 1, j' + 1;
      TailIndex(ps, i');
      TailIndex(ps, j');
    }
  }

  /** A match after the first row comes from a matching row after the first. */
  lemma LaterMatch(ps: seq<Patient>, q: string) returns (j: nat)
    requires ps != [] && Matching(ps[1..], q) != []
    ensures 0 < j < |ps| && NameMatches(ps[j], q)
  {
    var tail := ps[1..];
    var p := Matching(tail, q)[0];
    var k := IndexOf(tail, p);
    j := k + 1;
    TailIndex(ps, k);
  }

  /** Row `k` of the tail is row `k + 1` of the table. */
  lemma TailIndex(ps: seq<Patient>, k: nat)
    requires k + 1 < |ps|
    ensures ps[1..][k] == ps[k + 1]
  {
  }

  /** Where a patient of the table is. */
  lemma IndexOf(ps: seq<Patient>, p: Patient) returns (k: nat)
    requires p in ps
    ensures k < |ps| && ps[k] == p
  {
    k :| 0 <= k < |ps| && ps[k] == p;
  }

  /** Two or more matching rows, and nothing less, make a search ambiguous. */
  lemma TwoMatchesIff(ps: seq<Patient>, q: string)
    ensures |Matching(ps, q)| >= 2 <==>
      exists i, j :: 0 <= i < j < |ps| && NameMatches(ps[i], q) && NameMatches(ps[j], q)
  {
    if |Matching(ps, q)| >= 2 {
      var i, j := TwoMatchesTwoRows(ps, q);
    }
    if exists i, j :: 0 <= i < j < |ps| && NameMatches(ps[i], q) && NameMatches(ps[j], q) {
      var i, j :| 0 <= i < j < |ps| && NameMatches(ps[i], q) && NameMatches(ps[j], q);
      TwoRowsTwoMatches(ps, q, i, j);
    }
  }

  /** So a search is ambiguous exactly when two distinct rows match the stripped fragment. */
  lemma AmbiguousIff(ps: seq<Patient>, searchName: string)
    ensures Search(ps, searchName).Ambiguous? <==>
      !IsBlank(searchName) &&
      exists i, j :: 0 <= i < j < |ps| && NameMatches(ps[i], Strip(searchName)) && NameMatches(ps[j], Strip(searchName))
  {
    TwoMatchesIff(ps, Strip(searchName));
  }

  /** What the page shows: the patient loaded, that patient's visits, and
      the candidates to choose from. */
  datatype View = View(patient: Option<Patient>, history: seq<Visit>, candidates: seq<Patient>)

  /** The loaded patient and its history, newest first. */
  function Load(ps: seq<Patient>, vs: seq<Visit>, id: nat): (r: View)
    ensures r.candidates == []
    ensures r.patient.Some? <==> HasPatient(ps, id)
    ensures r.patient.Some? ==> r.patient.value in ps && r.patient.value.id == id && r.history == History(vs, id)
    ensures r.patient.None? ==> r.history == []
  {
    match FindPatient(ps, id)
    case None => View(None, [], [])
    case Some(i) => View(Some(ps[i]), History(vs, ps[i].id), [])
  }

  /** `registration_page`: a `select_id` loads that patient first; a
      search then replaces it only when it finds exactly one patient, and
      an ambiguous search adds the candidate list beside whatever was
      selected. */
  function Page(ps: seq<Patient>, vs: seq<Visit>, selectId: Option<nat>, searchName: Option<string>): (r: View)
    ensures r.patient.Some? ==> r.patient.value in ps && r.history == History(vs, r.patient.value.id)
    ensures r.patient.None? ==> r.history == []
    ensures searchName.Some? && Search(ps, searchName.value).Unique? ==>
      r.patient == Some(Search(ps, searchName.value).patient) && r.candidates == []
    ensures r.candidates != [] <==> searchName.Some? && Search(ps, searchName.value).Ambiguous?
    ensures r.candidates != [] ==> r.candidates == Search(ps, searchName.value).candidates
    ensures !(searchName.Some? && Search(ps, searchName.value).Unique?) ==>
      r.patient == (if selectId.Some? then Load(ps, vs, selectId.value).patient else None)
  {
    var selected := if selectId.Some? then Load(ps, vs, selectId.value) else View(None, [], []);
    if searchName.None? then selected
    else match Search(ps, searchName.value)
      case Unique(p) => View(Some(p), History(vs, p.id), [])
      case Ambiguous(cs) => selected.(candidates := cs)
      case _ => selected
  }
}
