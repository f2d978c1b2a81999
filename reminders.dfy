/**
 * The messages sent over the external channel and the reminder sweep's
 * specification: which visits it tries, what it logs, which flags it
 * sets, and why no visit is reminded twice.
 */
module Reminders {
  import opened Wrappers
  import opened Strings
  import opened Phone
  import opened Records

  /** The channel's answer to one send: accepted, or an exception's text. */
  datatype SendResult = Delivered | Failed(detail: string)

  /** The two message templates, by what they mention. */
  datatype Message =
    | WelcomeMessage(name: string)
    | ReminderMessage(name: string, procedure: Field, date: string)

  /** One call of the external send: the dialled number and the message. */
  datatype Outbound = Outbound(phone: string, message: Message)

  /** The lines of the automation page's log. */
  datatype LogEntry =
    | Scanning(date: string)
    | Skipped(name: string)
    | Sending(name: string)
    | SentOk
    | SendFailed(detail: string)
    | NoNewMessages
    | Completed(count: nat)
    | NoAppointments

  /** `visit.patient`: the patient a visit belongs to. */
  function Owner(ps: seq<Patient>, v: Visit): (p: Patient)
    requires HasPatient(ps, v.patientId)
    ensures p in ps && p.id == v.patientId
  {
    ps[FindPatient(ps, v.patientId).value]
  }

  predicate AllOwned(ps: seq<Patient>, due: seq<Visit>) {
    forall i :: 0 <= i < |due| ==> HasPatient(ps, due[i].patientId)
  }

  predicate UniqueIds(due: seq<Visit>) {
    forall i, j :: 0 <= i < j < |due| ==> due[i].id != due[j].id
  }

  /** The ids of the visits not yet reminded. */
  function PendingIds(due: seq<Visit>): set<nat> {
    set v | v in due && !v.reminderSent :: v.id
  }

  /** How many visits are not yet reminded. */
  function PendingCount(due: seq<Visit>): nat {
    if due == [] then 0
    else PendingCount(due[..|due| - 1]) + (if due[|due| - 1].reminderSent then 0 else 1)
  }

  /** The sweep's progress: the visits whose reminder was delivered, the
      sends attempted, the per-visit log lines and the success count. */
  datatype Sweep = Sweep(sent: set<nat>, attempts: seq<Outbound>, logs: seq<LogEntry>, count: nat)

  /** The line an attempt's answer leaves in the log. */
  function Outcome(answer: SendResult): LogEntry {
    match answer
    case Delivered => SentOk
    case Failed(e) => SendFailed(e)
  }

  /** One turn of the loop. A visit already reminded is skipped; otherwise
      the reminder goes to the owner's normalised number, and the channel's
      answer to this attempt decides whether the visit counts as sent. */
  function Step(ps: seq<Patient>, st: Sweep, v: Visit, tomorrow: string, channel: nat -> SendResult): Sweep
    requires HasPatient(ps, v.patientId)
  {
    var p := Owner(ps, v);
    if v.reminderSent then st.(logs := st.logs + [Skipped(p.name)])
    else
      var msg := Outbound(Normalize(p.phone), ReminderMessage(p.name, v.procedure, tomorrow));
      var logs := st.logs + [Sending(p.name)];
      match channel(|st.attempts|)
      case Delivered => Sweep(st.sent + {v.id}, st.attempts + [msg], logs + [SentOk], st.count + 1)
      case Failed(e) => Sweep(st.sent, st.attempts + [msg], logs + [SendFailed(e)], st.count)
  }

  /** The loop over the visits due tomorrow, in order. `channel(k)` is the
      answer to the k-th send attempt. */
  function Run(ps: seq<Patient>, due: seq<Visit>, tomorrow: string, channel: nat -> SendResult): Sweep
    requires AllOwned(ps, due)
  {
    if due == [] then Sweep({}, [], [], 0)
    else Step(ps, Run(ps, due[..|due| - 1], tomorrow, channel), due[|due| - 1], tomorrow, channel)
  }

  /** The whole log: the scan line, then either "no appointments", or the
      per-visit lines and the summary. */
  function Report(tomorrow: string, due: seq<Visit>, st: Sweep): seq<LogEntry> {
    [Scanning(tomorrow)] +
    if due == [] then [NoAppointments]
    else st.logs + [if st.count == 0 then NoNewMessages else Completed(st.count)]
  }

  /** The visit table after the sweep: the flag set on every visit whose
      reminder was delivered, nothing else changed. */
  function MarkSent(vs: seq<Visit>, sent: set<nat>): (r: seq<Visit>)
    ensures |r| == |vs|
    ensures forall k :: 0 <= k < |vs| ==>
      r[k] == if vs[k].id in sent then vs[k].(reminderSent := true) else vs[k]
  {
    if vs == [] then []
    else [if vs[0].id in sent then vs[0].(reminderSent := true) else vs[0]] + MarkSent(vs[1..], sent)
  }

  // ---------------------------------------------------------------------
  // Accounting of one sweep

  /** What one turn does to the attempts, the delivered set and the count. */
  lemma StepEffect(ps: seq<Patient>, st: Sweep, v: Visit, tomorrow: string, channel: nat -> SendResult)
    requires HasPatient(ps, v.patientId)
    ensures var st' := Step(ps, st, v, tomorrow, channel);
      && (v.reminderSent ==> st'.attempts == st.attempts && st'.sent == st.sent && st'.count == st.count)
      && (!v.reminderSent ==> |st'.attempts| == |st.attempts| + 1 && st'.attempts[..|st.attempts|] == st.attempts)
      && (!v.reminderSent && channel(|st.attempts|).Delivered? ==> st'.sent == st.sent + {v.id} && st'.count == st.count + 1)
      && (!v.reminderSent && channel(|st.attempts|).Failed? ==> st'.sent == st.sent && st'.count == st.count)
      && (v.reminderSent ==> st'.logs == st.logs + [Skipped(Owner(ps, v).name)])
      && (!v.reminderSent ==> st'.logs == st.logs + [Sending(Owner(ps, v).name), Outcome(channel(|st.attempts|))])
  {
    var st' := Step(ps, st, v, tomorrow, channel);
    if !v.reminderSent {
      assert st'.attempts[..|st.attempts|] == st.attempts;
    }
  }

  /** The waiting ids of a list are those of all but its last visit, plus
      the last one's if it is waiting. */
  lemma PendingIdsLast(due: seq<Visit>)
    requires due != []
    ensures var last := due[|due| - 1];
      PendingIds(due) == PendingIds(due[..|due| - 1]) + (if last.reminderSent then {} else {last.id})
  {
    var init := due[..|due| - 1];
    var last := due[|due| - 1];
    forall id | id in PendingIds(due) ensures id in PendingIds(init) + (if last.reminderSent then {} else {last.id}) {
      var v :| v in due && !v.reminderSent && v.id == id;
      var k :| 0 <= k < |due| && due[k] == v;
      if k < |due| - 1 {
        assert init[k] == v;
      }
    }
    forall v | v in init ensures v in due {
      var k :| 0 <= k < |init| && init[k] == v;
      assert due[k] == v;
    }
  }

  /** With unique ids, the last visit's id is not among the earlier ones. */
  lemma LastIdIsNew(due: seq<Visit>)
    requires UniqueIds(due) && due != []
    ensures forall v :: v in due[..|due| - 1] ==> v.id != due[|due| - 1].id
    ensures due[|due| - 1].id !in PendingIds(due[..|due| - 1])
  {
    var init := due[..|due| - 1];
    forall v | v in init ensures v.id != due[|due| - 1].id {
      var k :| 0 <= k < |init| && init[k] == v;
      assert due[k] == v;
    }
  }

  /** One attempt per visit not yet reminded, and at most one delivery
      per attempt. */
  lemma {:induction false} RunAttemptsCount(ps: seq<Patient>, due: seq<Visit>, tomorrow: string, channel: nat -> SendResult)
    requires AllOwned(ps, due)
    ensures |Run(ps, due, tomorrow, channel).attempts| == PendingCount(due)
    ensures Run(ps, due, tomorrow, channel).count <= PendingCount(due)
  {
    if due != [] {
      var init := due[..|due| - 1];
      assert AllOwned(ps, init);
      RunAttemptsCount(ps, init, tomorrow, channel);
      StepEffect(ps, Run(ps, init, tomorrow, channel), due[|due| - 1], tomorrow, channel);
    }
  }

  /** Only visits that were waiting are marked delivered. */
  lemma {:induction false} RunSentPending(ps: seq<Patient>, due: seq<Visit>, tomorrow: string, channel: nat -> SendResult)
    requires AllOwned(ps, due)
    ensures Run(ps, due, tomorrow, channel).sent <= PendingIds(due)
  {
    if due != [] {
      var init := due[..|due| - 1];
      var last := due[|due| - 1];
      assert AllOwned(ps, init);
      RunSentPending(ps, init, tomorrow, channel);
      StepEffect(ps, Run(ps, init, tomorrow, channel), last, tomorrow, channel);
      PendingIdsLast(due);
    }
  }

  /** With unique ids, the count is the number of visits marked delivered. */
  lemma {:induction false} RunCountIsSent(ps: seq<Patient>, due: seq<Visit>, tomorrow: string, channel: nat -> SendResult)
    requires AllOwned(ps, due) && UniqueIds(due)
    ensures Run(ps, due, tomorrow, channel).count == |Run(ps, due, tomorrow, channel).sent|
  {
    if due != [] {
      var init := due[..|due| - 1];
      var last := due[|due| - 1];
      assert AllOwned(ps, init) && UniqueIds(init);
      RunCountIsSent(ps, init, tomorrow, channel);
      RunSentPending(ps, init, tomorrow, channel);
      LastIdIsNew(due);
      StepEffect(ps, Run(ps, init, tomorrow, channel), last, tomorrow, channel);
    }
  }

  /** Every visit not yet reminded is tried exactly once, and the count is
      the number of deliveries among them. */
  lemma RunAccounting(ps: seq<Patient>, due: seq<Visit>, tomorrow: string, channel: nat -> SendResult)
    requires AllOwned(ps, due)
    ensures |Run(ps, due, tomorrow, channel).attempts| == PendingCount(due)
    ensures Run(ps, due, tomorrow, channel).sent <= PendingIds(due)
    ensures Run(ps, due, tomorrow, channel).count <= PendingCount(due)
    ensures UniqueIds(due) ==> Run(ps, due, tomorrow, channel).count == |Run(ps, due, tomorrow, channel).sent|
  {
    RunAttemptsCount(ps, due, tomorrow, channel);
    RunSentPending(ps, due, tomorrow, channel);
    if UniqueIds(due) {
      RunCountIsSent(ps, due, tomorrow, channel);
    }
  }

  /** The last visit's flag is set exactly when it was waiting and the
      attempt made for it was delivered. */
  lemma LastSentIff(ps: seq<Patient>, due: seq<Visit>, tomorrow: string, channel: nat -> SendResult)
    requires AllOwned(ps, due) && UniqueIds(due) && due != []
    ensures var last := due[|due| - 1];
      last.id in Run(ps, due, tomorrow, channel).sent <==>
      !last.reminderSent && channel(PendingCount(due[..|due| - 1])).Delivered?
  {
    var init := due[..|due| - 1];
    assert AllOwned(ps, init);
    var before := Run(ps, init, tomorrow, channel);
    RunAccounting(ps, init, tomorrow, channel);
    StepEffect(ps, before, due[|due| - 1], tomorrow, channel);
    LastIdIsNew(due);
  }

  /** The last turn does not touch an earlier visit's membership. */
  lemma EarlierSentUnchanged(ps: seq<Patient>, due: seq<Visit>, tomorrow: string, channel: nat -> SendResult, i: nat)
    requires AllOwned(ps, due) && UniqueIds(due) && i < |due| - 1
    ensures AllOwned(ps, due[..|due| - 1])
    ensures due[i].id in Run(ps, due, tomorrow, channel).sent <==>
      due[i].id in Run(ps, due[..|due| - 1], tomorrow, channel).sent
  {
    var init := due[..|due| - 1];
    assert AllOwned(ps, init);
    var before := Run(ps, init, tomorrow, channel);
    StepEffect(ps, before, due[|due| - 1], tomorrow, channel);
    assert due[i].id != due[|due| - 1].id;
  }

  /** A visit's flag is set by the sweep exactly when it was not yet set and
      the channel delivered the attempt made for it. */
  lemma {:induction false} RunSentIff(ps: seq<Patient>, due: seq<Visit>, tomorrow: string, channel: nat -> SendResult, i: nat)
    requires AllOwned(ps, due) && UniqueIds(due) && i < |due|
    ensures due[i].id in Run(ps, due, tomorrow, channel).sent <==>
      !due[i].reminderSent && channel(PendingCount(due[..i])).Delivered?
    decreases |due|, 1
  {
    if i < |due| - 1 {
      EarlierSentIff(ps, due, tomorrow, channel, i);
    } else {
      LastSentIff(ps, due, tomorrow, channel);
    }
  }

  /** RunSentIff for a visit before the last one. */
  lemma {:induction false} EarlierSentIff(ps: seq<Patient>, due: seq<Visit>, tomorrow: string, channel: nat -> SendResult, i: nat)
    requires AllOwned(ps, due) && UniqueIds(due) && i < |due| - 1
    ensures due[i].id in Run(ps, due, tomorrow, channel).sent <==>
      !due[i].reminderSent && channel(PendingCount(due[..i])).Delivered?
    decreases |due|, 0
  {
    var init := due[..|due| - 1];
    EarlierSentUnchanged(ps, due, tomorrow, channel, i);
    assert UniqueIds(init);
    RunSentIff(ps, init, tomorrow, channel, i);
    assert init[i] == due[i] && init[..i] == due[..i];
  }

  /** Later turns only append attempts. */
  lemma AttemptsGrow(ps: seq<Patient>, due: seq<Visit>, tomorrow: string, channel: nat -> SendResult)
    requires AllOwned(ps, due) && due != []
    ensures AllOwned(ps, due[..|due| - 1])
    ensures var before := Run(ps, due[..|due| - 1], tomorrow, channel).attempts;
      var after := Run(ps, due, tomorrow, channel).attempts;
      |before| <= |after| && after[..|before|] == before
  {
    var init := due[..|due| - 1];
    assert AllOwned(ps, init);
    StepEffect(ps, Run(ps, init, tomorrow, channel), due[|due| - 1], tomorrow, channel);
  }

  /** The attempt made in the last turn, when the last visit was waiting. */
  lemma LastAttempt(ps: seq<Patient>, due: seq<Visit>, tomorrow: string, channel: nat -> SendResult)
    requires AllOwned(ps, due) && due != [] && !due[|due| - 1].reminderSent
    ensures AllOwned(ps, due[..|due| - 1])
    ensures var n := |Run(ps, due[..|due| - 1], tomorrow, channel).attempts|;
      var v := due[|due| - 1];
      n < |Run(ps, due, tomorrow, channel).attempts| &&
      Run(ps, due, tomorrow, channel).attempts[n] ==
        Outbound(Normalize(Owner(ps, v).phone), ReminderMessage(Owner(ps, v).name, v.procedure, tomorrow))
  {
    assert AllOwned(ps, due[..|due| - 1]);
  }

  /** The attempt made for a visit not yet reminded is its owner's name and
      the visit's procedure, sent to the owner's normalised number. */
  lemma {:induction false} RunAttemptAddressed(ps: seq<Patient>, due: seq<Visit>, tomorrow: string, channel: nat -> SendResult, i: nat)
    requires AllOwned(ps, due) && i < |due| && !due[i].reminderSent
    ensures PendingCount(due[..i]) < |Run(ps, due, tomorrow, channel).attempts|
    ensures Run(ps, due, tomorrow, channel).attempts[PendingCount(due[..i])] ==
      Outbound(Normalize(Owner(ps, due[i]).phone), ReminderMessage(Owner(ps, due[i]).name, due[i].procedure, tomorrow))
    decreases |due|, 1
  {
    if i < |due| - 1 {
      EarlierAttemptAddressed(ps, due, tomorrow, channel, i);
    } else {
      var init := due[..|due| - 1];
      assert due[..i] == init;
      RunAttemptsCount(ps, init, tomorrow, channel);
      LastAttempt(ps, due, tomorrow, channel);
    }
  }

  /** RunAttemptAddressed for a visit before the last one. */
  lemma {:induction false} EarlierAttemptAddressed(ps: seq<Patient>, due: seq<Visit>, tomorrow: string, channel: nat -> SendResult, i: nat)
    requires AllOwned(ps, due) && i < |due| - 1 && !due[i].reminderSent
    ensures PendingCount(due[..i]) < |Run(ps, due, tomorrow, channel).attempts|
    ensures Run(ps, due, tomorrow, channel).attempts[PendingCount(due[..i])] ==
      Outbound(Normalize(Owner(ps, due[i]).phone), ReminderMessage(Owner(ps, due[i]).name, due[i].procedure, tomorrow))
    decreases |due|, 0
  {
    var init := due[..|due| - 1];
    AttemptsGrow(ps, due, tomorrow, channel);
    assert init[i] == due[i] && init[..i] == due[..i];
    RunAttemptAddressed(ps, init, tomorrow, channel, i);
  }

  // ---------------------------------------------------------------------
  // The per-visit log

  /** The loop writes one line for a visit already reminded and two for a
      visit it tries; only per-visit lines appear, and there are as many
      success lines as the count says. */
  lemma {:induction false} RunLogCount(ps: seq<Patient>, due: seq<Visit>, tomorrow: string, channel: nat -> SendResult)
    requires AllOwned(ps, due)
    ensures var logs := Run(ps, due, tomorrow, channel).logs;
      && |logs| == |due| + PendingCount(due)
      && multiset(logs)[SentOk] == Run(ps, due, tomorrow, channel).count
      && forall e :: e in logs ==> e.Skipped? || e.Sending? || e.SentOk? || e.SendFailed?
  {
    if due != [] {
      var init := due[..|due| - 1];
      assert AllOwned(ps, init);
      RunLogCount(ps, init, tomorrow, channel);
      StepEffect(ps, Run(ps, init, tomorrow, channel), due[|due| - 1], tomorrow, channel);
    }
  }

  /** Later turns only append log lines. */
  lemma LogsGrow(ps: seq<Patient>, due: seq<Visit>, tomorrow: string, channel: nat -> SendResult)
    requires AllOwned(ps, due) && due != []
    ensures AllOwned(ps, due[..|due| - 1])
    ensures var before := Run(ps, due[..|due| - 1], tomorrow, channel).logs;
      var after := Run(ps, due, tomorrow, channel).logs;
      |before| <= |after| && after[..|before|] == before
  {
    var init := due[..|due| - 1];
    assert AllOwned(ps, init);
    StepEffect(ps, Run(ps, init, tomorrow, channel), due[|due| - 1], tomorrow, channel);
  }

  /** The lines visit `i` contributes, found right after those of the
      visits before it: "Skipped" with the owner's name for a visit already
      reminded; otherwise "Sending" with the owner's name, then the line of
      the channel's answer to the attempt made for it. */
  lemma {:induction false} RunLogLines(ps: seq<Patient>, due: seq<Visit>, tomorrow: string, channel: nat -> SendResult, i: nat)
    requires AllOwned(ps, due) && i < |due|
    ensures due[i].reminderSent ==> i + PendingCount(due[..i]) < |Run(ps, due, tomorrow, channel).logs|
    ensures due[i].reminderSent ==>
      Run(ps, due, tomorrow, channel).logs[i + PendingCount(due[..i])] == Skipped(Owner(ps, due[i]).name)
    ensures !due[i].reminderSent ==> i + PendingCount(due[..i]) + 1 < |Run(ps, due, tomorrow, channel).logs|
    ensures !due[i].reminderSent ==>
      Run(ps, due, tomorrow, channel).logs[i + PendingCount(due[..i])] == Sending(Owner(ps, due[i]).name)
    ensures !due[i].reminderSent ==>
      Run(ps, due, tomorrow, channel).logs[i + PendingCount(due[..i]) + 1] == Outcome(channel(PendingCount(due[..i])))
    decreases |due|, 1
  {
    if i < |due| - 1 {
      EarlierLogLines(ps, due, tomorrow, channel, i);
    } else {
      var init := due[..|due| - 1];
      assert due[..i] == init;
      assert AllOwned(ps, init);
      RunLogCount(ps, init, tomorrow, channel);
      RunAttemptsCount(ps, init, tomorrow, channel);
      StepEffect(ps, Run(ps, init, tomorrow, channel), due[i], tomorrow, channel);
    }
  }

  /** RunLogLines for a visit before the last one. */
  lemma {:induction false} EarlierLogLines(ps: seq<Patient>, due: seq<Visit>, tomorrow: string, channel: nat -> SendResult, i: nat)
    requires AllOwned(ps, due) && i < |due| - 1
    ensures due[i].reminderSent ==> i + PendingCount(due[..i]) < |Run(ps, due, tomorrow, channel).logs|
    ensures due[i].reminderSent ==>
      Run(ps, due, tomorrow, channel).logs[i + PendingCount(due[..i])] == Skipped(Owner(ps, due[i]).name)
    ensures !due[i].reminderSent ==> i + PendingCount(due[..i]) + 1 < |Run(ps, due, tomorrow, channel).logs|
    ensures !due[i].reminderSent ==>
      Run(ps, due, tomorrow, channel).logs[i + PendingCount(due[..i])] == Sending(Owner(ps, due[i]).name)
    ensures !due[i].reminderSent ==>
      Run(ps, due, tomorrow, channel).logs[i + PendingCount(due[..i]) + 1] == Outcome(channel(PendingCount(due[..i])))
    decreases |due|, 0
  {
    var init := due[..|due| - 1];
    LogsGrow(ps, due, tomorrow, channel);
    assert init[i] == due[i] && init[..i] == due[..i];
    RunLogLines(ps, init, tomorrow, channel, i);
    var before := Run(ps, init, tomorrow, channel).logs;
    var after := Run(ps, due, tomorrow, channel).logs;
    PrefixLine(before, after, i + PendingCount(due[..i]));
    PrefixLine(before, after, i + PendingCount(due[..i]) + 1);
  }

  /** A line of a prefix of the log is the same line of the whole log. */
  lemma PrefixLine(before: seq<LogEntry>, after: seq<LogEntry>, k: nat)
    requires |before| <= |after| && after[..|before|] == before
    ensures k < |before| ==> after[k] == before[k]
  {
    if k < |before| {
      assert after[..|before|][k] == after[k];
    }
  }

  /** Every failed attempt leaves its "Failed" line with the channel's
      text, and every visit already reminded its "Skipped" line. */
  lemma RunLogsFailures(ps: seq<Patient>, due: seq<Visit>, tomorrow: string, channel: nat -> SendResult, i: nat)
    requires AllOwned(ps, due) && i < |due|
    ensures var logs := Run(ps, due, tomorrow, channel).logs;
      var answer := channel(PendingCount(due[..i]));
      && (!due[i].reminderSent && answer.Failed? ==> SendFailed(answer.detail) in logs)
      && (due[i].reminderSent ==> Skipped(Owner(ps, due[i]).name) in logs)
  {
    RunLogLines(ps, due, tomorrow, channel, i);
  }

  /** The shape of the log for any progress of the loop: the scan line,
      then "no appointments" alone, or the per-visit lines and a summary. */
  lemma ReportShape(tomorrow: string, due: seq<Visit>, st: Sweep)
    ensures var log := Report(tomorrow, due, st);
      && |log| >= 2 && log[0] == Scanning(tomorrow)
      && (due == [] ==> log == [Scanning(tomorrow), NoAppointments])
      && (due != [] ==> log[1..|log| - 1] == st.logs)
      && (due != [] ==> log[|log| - 1] == if st.count == 0 then NoNewMessages else Completed(st.count))
  {
    var log := Report(tomorrow, due, st);
    if due != [] {
      assert log == [Scanning(tomorrow)] + st.logs + [if st.count == 0 then NoNewMessages else Completed(st.count)];
      assert log[1..|log| - 1] == st.logs;
    }
  }

  /** The three outcomes of the page: nothing due gives "no appointments"
      and no send at all; otherwise the per-visit lines come between the
      scan line and a summary that is "no new messages" exactly when
      nothing was delivered, and names the number of deliveries otherwise. */
  lemma ReportOutcome(ps: seq<Patient>, due: seq<Visit>, tomorrow: string, channel: nat -> SendResult)
    requires AllOwned(ps, due) && UniqueIds(due)
    ensures var st := Run(ps, due, tomorrow, channel);
      var log := Report(tomorrow, due, st);
      && |log| >= 2 && log[0] == Scanning(tomorrow)
      && (due == [] ==> log == [Scanning(tomorrow), NoAppointments] && st.attempts == [])
      && (due != [] ==> log[1..|log| - 1] == st.logs)
      && (due != [] ==> log[|log| - 1] == if st.sent == {} then NoNewMessages else Completed(|st.sent|))
  {
    var st := Run(ps, due, tomorrow, channel);
    RunCountIsSent(ps, due, tomorrow, channel);
    ReportShape(tomorrow, due, st);
    assert st.count == 0 <==> st.sent == {};
  }

  // ---------------------------------------------------------------------
  // Two sweeps in a row

  /** Setting flags does not change which visits are due. */
  lemma {:induction false} MarkSentScheduled(vs: seq<Visit>, sent: set<nat>, date: string)
    ensures Scheduled(MarkSent(vs, sent), date) == MarkSent(Scheduled(vs, date), sent)
  {
    if vs != [] {
      MarkSentScheduled(vs[1..], sent, date);
      assert MarkSent(vs, sent)[1..] == MarkSent(vs[1..], sent);
      var m := MarkSent(vs, sent);
      var rest := Scheduled(vs[1..], date);
      if vs[0].nextApptDate == Some(date) {
        assert Scheduled(vs, date) == [vs[0]] + rest;
        assert Scheduled(vs, date)[1..] == rest;
      } else {
        assert Scheduled(vs, date) == rest;
      }
    }
  }

  /** After the flags of `sent` are set, the visits still waiting are
      exactly those that were waiting and not sent. */
  lemma MarkSentPending(due: seq<Visit>, sent: set<nat>)
    ensures PendingIds(MarkSent(due, sent)) == PendingIds(due) - sent
  {
    var m := MarkSent(due, sent);
    forall id | id in PendingIds(m) ensures id in PendingIds(due) - sent {
      var v :| v in m && !v.reminderSent && v.id == id;
      var k :| 0 <= k < |m| && m[k] == v;
      assert due[k] in due;
    }
    forall id | id in PendingIds(due) - sent ensures id in PendingIds(m) {
      var v :| v in due && !v.reminderSent && v.id == id;
      var k :| 0 <= k < |due| && due[k] == v;
      assert m[k] in m;
    }
  }

  lemma {:induction false} PendingCountIsSize(due: seq<Visit>)
    requires UniqueIds(due)
    ensures PendingCount(due) == |PendingIds(due)|
  {
    if due != [] {
      var init := due[..|due| - 1];
      var last := due[|due| - 1];
      assert UniqueIds(init);
      PendingCountIsSize(init);
      LastIdIsNew(due);
      PendingIdsLast(due);
    }
  }

  /** Setting flags keeps owners and ids. */
  lemma MarkSentKeepsOwners(ps: seq<Patient>, due: seq<Visit>, sent: set<nat>)
    requires AllOwned(ps, due) && UniqueIds(due)
    ensures AllOwned(ps, MarkSent(due, sent)) && UniqueIds(MarkSent(due, sent))
  {
    var m := MarkSent(due, sent);
    forall i | 0 <= i < |m| ensures HasPatient(ps, m[i].patientId) {
      assert m[i].patientId == due[i].patientId;
    }
    forall i, j | 0 <= i < j < |m| ensures m[i].id != m[j].id {
      assert m[i].id == due[i].id && m[j].id == due[j].id;
    }
  }

  /** A sweep over the list the first one left delivers to none of the
      visits the first one delivered to, and both together deliver at most
      once per visit that was waiting. */
  lemma SweepsDisjoint(ps: seq<Patient>, due: seq<Visit>, tomorrow: string, first: nat -> SendResult, second: nat -> SendResult)
    requires AllOwned(ps, due) && UniqueIds(due)
    ensures AllOwned(ps, MarkSent(due, Run(ps, due, tomorrow, first).sent))
    ensures var one := Run(ps, due, tomorrow, first);
      var two := Run(ps, MarkSent(due, one.sent), tomorrow, second);
      two.sent !! one.sent && one.count + two.count <= PendingCount(due)
  {
    var one := Run(ps, due, tomorrow, first);
    var due' := MarkSent(due, one.sent);
    MarkSentKeepsOwners(ps, due, one.sent);
    MarkSentPending(due, one.sent);
    var two := Run(ps, due', tomorrow, second);
    RunAccounting(ps, due, tomorrow, first);
    RunAccounting(ps, due', tomorrow, second);
    PendingCountIsSize(due);
    assert one.sent + two.sent <= PendingIds(due);
    SubsetSize(one.sent + two.sent, PendingIds(due));
  }

  /** The sweep touches only visits due tomorrow whose reminder was not yet
      sent: every other row of the table is left exactly as it was. */
  lemma OnlyDueTouched(ps: seq<Patient>, vs: seq<Visit>, tomorrow: string, channel: nat -> SendResult, k: nat)
    requires VisitIdsAscending(vs) && AllOwned(ps, Scheduled(vs, tomorrow)) && k < |vs|
    ensures MarkSent(vs, Run(ps, Scheduled(vs, tomorrow), tomorrow, channel).sent)[k] != vs[k] ==>
      vs[k].nextApptDate == Some(tomorrow) && !vs[k].reminderSent
  {
    var due := Scheduled(vs, tomorrow);
    var sent := Run(ps, due, tomorrow, channel).sent;
    RunSentPending(ps, due, tomorrow, channel);
    if MarkSent(vs, sent)[k] != vs[k] {
      assert vs[k].id in PendingIds(due);
      var v :| v in due && !v.reminderSent && v.id == vs[k].id;
      var j :| 0 <= j < |vs| && vs[j] == v;
      assert j == k;
    }
  }

  /** At most once per visit: a second sweep, run on the table the first one
      left, never tries a visit the first one delivered, and the deliveries
      of both together never exceed the visits that were waiting at first. */
  lemma SecondSweepResendsNothing(ps: seq<Patient>, vs: seq<Visit>, tomorrow: string, first: nat -> SendResult, second: nat -> SendResult)
    requires VisitIdsAscending(vs) && AllOwned(ps, Scheduled(vs, tomorrow))
    ensures var due := Scheduled(vs, tomorrow);
      var one := Run(ps, due, tomorrow, first);
      var due' := Scheduled(MarkSent(vs, one.sent), tomorrow);
      && AllOwned(ps, due')
      && PendingIds(due') == PendingIds(due) - one.sent
      && var two := Run(ps, due', tomorrow, second);
      && two.sent !! one.sent
      && one.count + two.count <= PendingCount(due)
  {
    var due := Scheduled(vs, tomorrow);
    var one := Run(ps, due, tomorrow, first);
    MarkSentScheduled(vs, one.sent, tomorrow);
    ScheduledAscending(vs, tomorrow);
    assert UniqueIds(due);
    MarkSentPending(due, one.sent);
    SweepsDisjoint(ps, due, tomorrow, first, second);
  }

  lemma SubsetSize(a: set<nat>, b: set<nat>)
    requires a <= b
    ensures |a| <= |b|
  {
    assert b == a + (b - a);
  }

  // ---------------------------------------------------------------------
  // The visit table during the sweep

  /** Every visit due tomorrow has its patient. */
  lemma ScheduledOwned(ps: seq<Patient>, vs: seq<Visit>, date: string)
    requires VisitsOwned(ps, vs)
    ensures AllOwned(ps, Scheduled(vs, date))
  {
    var due := Scheduled(vs, date);
    forall i | 0 <= i < |due| ensures HasPatient(ps, due[i].patientId) {
      assert due[i] in due;
      var j :| 0 <= j < |vs| && vs[j] == due[i];
    }
  }

  /** Before any delivery the table is as it was. */
  lemma {:induction false} MarkSentNothing(vs: seq<Visit>)
    ensures MarkSent(vs, {}) == vs
  {
    if vs != [] {
      MarkSentNothing(vs[1..]);
    }
  }

  /** Setting one more visit's flag in place is the table with one more
      delivery marked. */
  lemma MarkSentOneMore(vs: seq<Visit>, sent: set<nat>, k: nat)
    requires VisitIdsAscending(vs) && k < |vs|
    ensures var m := MarkSent(vs, sent);
      m[k := m[k].(reminderSent := true)] == MarkSent(vs, sent + {vs[k].id})
  {
    var m := MarkSent(vs, sent);
    var m' := MarkSent(vs, sent + {vs[k].id});
    forall j | 0 <= j < |vs| ensures m[k := m[k].(reminderSent := true)][j] == m'[j] {
      if j != k {
        assert vs[j].id != vs[k].id;
      }
    }
  }

  /** Setting flags keeps the database consistent. */
  lemma MarkSentConsistent(ps: seq<Patient>, vs: seq<Visit>, sent: set<nat>)
    requires Consistent(ps, vs)
    ensures Consistent(ps, MarkSent(vs, sent))
  {
    var m := MarkSent(vs, sent);
    forall i, j | 0 <= i < j < |m| ensures m[i].id < m[j].id {
      assert m[i].id == vs[i].id && m[j].id == vs[j].id;
    }
    forall j | 0 <= j < |m| ensures HasPatient(ps, m[j].patientId) {
      assert m[j].patientId == vs[j].patientId;
    }
  }

  // ---------------------------------------------------------------------
  // The welcome message

  /** How the welcome link ends: no such patient (a 404), already welcomed
      (nothing sent), or one attempt that was delivered or failed. */
  datatype WelcomeOutcome = NoSuchPatient | AlreadyWelcomed | Welcomed | WelcomeFailed(detail: string)

  /** The patient table after the link, its outcome and the send attempted. */
  datatype Welcoming = Welcoming(patients: seq<Patient>, outcome: WelcomeOutcome, attempt: Option<Outbound>)

  /** `send_welcome(id)`: a patient not yet welcomed gets one attempt at
      their normalised number, and the flag is set only when the channel
      accepts it. Only that patient's flag can change. */
  function Welcome(ps: seq<Patient>, id: nat, reply: SendResult): (r: Welcoming)
    ensures r.outcome.NoSuchPatient? <==> !HasPatient(ps, id)
    ensures r.attempt.None? <==> r.outcome.NoSuchPatient? || r.outcome.AlreadyWelcomed?
    ensures r.outcome.Welcomed? <==> r.attempt.Some? && reply.Delivered?
    ensures r.outcome.WelcomeFailed? <==> r.attempt.Some? && reply.Failed?
    ensures !r.outcome.Welcomed? ==> r.patients == ps
    ensures |r.patients| == |ps|
  {
    match FindPatient(ps, id)
    case None => Welcoming(ps, NoSuchPatient, None)
    case Some(k) =>
      var p := ps[k];
      if p.welcomeSent then Welcoming(ps, AlreadyWelcomed, None)
      else
        var msg := Outbound(Normalize(p.phone), WelcomeMessage(p.name));
        match reply
        case Delivered => Welcoming(ps[k := p.(welcomeSent := true)], Welcomed, Some(msg))
        case Failed(e) => Welcoming(ps, WelcomeFailed(e), Some(msg))
  }

  /** With unique ids, the attempt is made exactly when the patient exists
      and was not yet welcomed, and goes to that patient's normalised number. */
  lemma WelcomeAddressed(ps: seq<Patient>, id: nat, reply: SendResult, k: nat)
    requires PatientIdsAscending(ps) && k < |ps| && ps[k].id == id
    ensures Welcome(ps, id, reply).attempt.Some? <==> !ps[k].welcomeSent
    ensures Welcome(ps, id, reply).attempt.Some? ==>
      Welcome(ps, id, reply).attempt.value == Outbound(Normalize(ps[k].phone), WelcomeMessage(ps[k].name))
    ensures Welcome(ps, id, reply).outcome.Welcomed? ==> Welcome(ps, id, reply).patients[k].welcomeSent
  {
    var f := FindPatient(ps, id).value;
    assert f == k;
  }

  /** The link changes nothing but one welcome flag: a row that differs
      afterwards is the row with that id, whose flag went from unset to set. */
  lemma WelcomeChangesOnlyFlag(ps: seq<Patient>, id: nat, reply: SendResult, j: nat)
    requires j < |ps|
    ensures Welcome(ps, id, reply).patients[j].(welcomeSent := ps[j].welcomeSent) == ps[j]
    ensures Welcome(ps, id, reply).patients[j] != ps[j] ==>
      ps[j].id == id && !ps[j].welcomeSent && Welcome(ps, id, reply).patients[j].welcomeSent
  {
    var r := Welcome(ps, id, reply);
    if r.outcome.Welcomed? {
      var k := FindPatient(ps, id).value;
      assert r.patients == ps[k := ps[k].(welcomeSent := true)];
    }
  }

  /** The welcome is sent at most once: once delivered, following the link
      again finds the patient already welcomed and sends nothing. */
  lemma WelcomeAtMostOnce(ps: seq<Patient>, id: nat, first: SendResult, second: SendResult)
    requires PatientIdsAscending(ps) && Welcome(ps, id, first).outcome.Welcomed?
    ensures Welcome(Welcome(ps, id, first).patients, id, second).outcome == AlreadyWelcomed
    ensures Welcome(Welcome(ps, id, first).patients, id, second).attempt.None?
  {
    var k := FindPatient(ps, id).value;
    var ps' := Welcome(ps, id, first).patients;
    assert ps' == ps[k := ps[k].(welcomeSent := true)];
    assert PatientIdsAscending(ps') by {
      forall i, j | 0 <= i < j < |ps'| ensures ps'[i].id < ps'[j].id {
        assert ps'[i].id == ps[i].id && ps'[j].id == ps[j].id;
      }
    }
    WelcomeAddressed(ps', id, second, k);
  }

  /** A failed welcome changes nothing, so the next click tries again. */
  lemma WelcomeRetriedAfterFailure(ps: seq<Patient>, id: nat, first: SendResult, second: SendResult)
    requires Welcome(ps, id, first).outcome.WelcomeFailed?
    ensures Welcome(Welcome(ps, id, first).patients, id, second).attempt == Welcome(ps, id, first).attempt
  {
  }

  /** The welcome link keeps the database consistent. */
  lemma WelcomeConsistent(ps: seq<Patient>, vs: seq<Visit>, id: nat, reply: SendResult)
    requires Consistent(ps, vs)
    ensures Consistent(Welcome(ps, id, reply).patients, vs)
  {
    var ps' := Welcome(ps, id, reply).patients;
    forall j | 0 <= j < |vs| ensures HasPatient(ps', vs[j].patientId) {
      var i :| 0 <= i < |ps| && ps[i].id == vs[j].patientId;
      assert ps'[i].id == ps[i].id;
    }
    forall i, j | 0 <= i < j < |ps'| ensures ps'[i].id < ps'[j].id && ps'[i].phone != ps'[j].phone {
      assert ps'[i].id == ps[i].id && ps'[j].id == ps[j].id;
      assert ps'[i].phone == ps[i].phone && ps'[j].phone == ps[j].phone;
    }
  }
}
