/** Which rejected requests have no reason. */
module Reasons {
  import opened Wrappers
  import opened Entities
  import opened Consents
  import opened ConsentSteps
  import opened Protocol
  import ConsentRuns
  import Frames
  import PollStability
  import Sweep
  import Tampers
  import Transactions

  /** One decision call: it leaves its request rejected without a reason exactly when it was asked to
      reject with a null one. */
  lemma SubmitLeavesNoReason(s: Store, actor: string, key: string, answer: string, reason: Given, now: int)
    requires ConsentsInv(s) && Consents.Submit(s, actor, key, answer, reason, now).1.Ok?
    ensures var at := Resolve(s.consents, key);
      && at.Some? && at.value < |Consents.Submit(s, actor, key, answer, reason, now).0.consents|
      && (Unreasoned(Consents.Submit(s, actor, key, answer, reason, now).0.consents[at.value])
          <==> answer == "rejected" && reason.Null?)
  {
    PollStability.SubmitOutcome(s, actor, key, answer, reason, now);
    hide Consents.Submit, ConsentsInv;
    assert "approved"[0] != "rejected"[0];
  }

  // ---------------------------------------------------------------- every step

  /** The step is a successful decision call that rejects the i-th request with a null reason. */
  ghost predicate RejectsNull(s: Store, step: Step, i: nat) {
    var op := step.op;
    if op.Submit? then
      && op.answer == "rejected" && op.reason.Null? && Resolve(s.consents, op.key) == Some(i)
      && Consents.Submit(s, op.actorId, op.key, op.answer, op.reason, step.now).1.Ok?
    else
      && op.Decide? && op.decision == Refusal(None) && Find(s.consents, ById(op.id)) == Some(i)
      && Consents.Decide(s, op.id, op.actorId, op.decision, step.now).1.Ok?
  }

  /** No request of the table gained or lost a reason by being decided. */
  ghost predicate ReasonsKept(rows: seq<Consent>, rows': seq<Consent>) {
    && |rows| <= |rows'|
    && forall i | 0 <= i < |rows| && rows'[i] != rows[i] :: !Unreasoned(rows[i]) && !Unreasoned(rows'[i])
  }

  lemma AbortKeepsReasons(s: Store, key: string, reason: string, now: int)
    ensures ReasonsKept(s.consents, MarkAborted(s, key, reason, now).consents)
  {}

  lemma SweepKeepsReasons(s: Store, now: int)
    ensures ReasonsKept(s.consents, ExpireStalePending(s, now).0.consents)
  {
    Sweep.SweepExact(s, now);
  }

  lemma TamperKeepsReasons(s: Store, report: TamperEvent, fault: Transactions.Fault, now: int)
    ensures ReasonsKept(s.consents, Tampers.Log(s, report, fault, now).0.consents)
  {
    Tampers.LogOutcome(s, report, fault, now);
    hide Tampers.Log;
    if Truthy(report.consentId) {
      AbortKeepsReasons(s.(tampers := s.tampers + [report]), report.consentId.value, TAMPER_DETECTED, now);
    }
  }

  /** Calls that decide nothing by themselves leave every reason as it was. */
  lemma OthersKeepReasons(cfg: Config, s: Store, step: Step)
    requires Permitted(s, step) && !step.op.Decide? && !step.op.Submit?
    ensures ReasonsKept(s.consents, Effect(cfg, s, step).consents)
  {
    var op := step.op;
    if op.Abort? {
      AbortKeepsReasons(s, op.key, op.abortReason, step.now);
    } else if op.Sweep? {
      SweepKeepsReasons(s, step.now);
    } else if op.Tamper? {
      TamperKeepsReasons(s, op.report, op.fault, step.now);
    }
    if !Frames.OnConsents(op) && !op.Tamper? {
      Frames.OtherCallsLeaveConsents(cfg, s, step);
    }
    hide Tampers.Log, MarkAborted, ExpireStalePending;
  }

  lemma DecideReasons(s: Store, id: string, actor: string, d: Decision, now: int, i: nat)
    requires i < |s.consents|
    ensures var (s', r) := Consents.Decide(s, id, actor, d, now);
      && |s'.consents| == |s.consents|
      && (Unreasoned(s'.consents[i]) <==>
        Unreasoned(s.consents[i]) || (r.Ok? && d == Refusal(None) && Find(s.consents, ById(id)) == Some(i)))
  {}

  lemma SubmitReasons(s: Store, step: Step, i: nat)
    requires ConsentsInv(s) && step.op.Submit? && i < |s.consents|
    ensures var op := step.op;
      var rows := Consents.Submit(s, op.actorId, op.key, op.answer, op.reason, step.now).0.consents;
      |rows| == |s.consents| && (Unreasoned(rows[i]) <==> Unreasoned(s.consents[i]) || RejectsNull(s, step, i))
  {
    var op := step.op;
    var at := Resolve(s.consents, op.key);
    assert "approved"[0] != "rejected"[0];
    if at.Some? {
      var d := if op.answer == "approved" then Approval else Refusal(StoredReason(op.reason));
      PollStability.FindIs(s.consents, ById(s.consents[at.value].id), at.value);
      DecideReasons(s, s.consents[at.value].id, op.actorId, d, step.now, i);
      hide Consents.Decide, ConsentsInv;
    }
  }

  /** A step leaves a stored request rejected without a reason exactly when it already was, or when
      the step is such a call. */
  lemma StepReasons(cfg: Config, s: Store, step: Step, i: nat)
    requires ConsentsInv(s) && Permitted(s, step) && i < |s.consents|
    ensures i < |Apply(cfg, s, step).consents|
    ensures Unreasoned(Apply(cfg, s, step).consents[i]) <==> Unreasoned(s.consents[i]) || RejectsNull(s, step, i)
  {
    var op := step.op;
    if op.Decide? {
      DecideReasons(s, op.id, op.actorId, op.decision, step.now, i);
    } else if op.Submit? {
      SubmitReasons(s, step, i);
    } else {
      OthersKeepReasons(cfg, s, step);
      hide Effect;
    }
    hide Consents.Decide, Consents.Submit, ConsentsInv, Permitted;
  }

  // ---------------------------------------------------------------- every run

  ghost predicate RejectedNull(cfg: Config, s: Store, steps: seq<Step>, i: nat)
    requires ValidRun(cfg, s, steps)
  {
    steps != [] &&
    var before, last := steps[..|steps| - 1], steps[|steps| - 1];
    RejectedNull(cfg, s, before, i) || RejectsNull(Run(cfg, s, before), last, i)
  }

  lemma {:induction false} RejectedNullIsStored(cfg: Config, s: Store, steps: seq<Step>, i: nat)
    requires ConsentsInv(s) && ValidRun(cfg, s, steps) && RejectedNull(cfg, s, steps, i)
    ensures i < |Run(cfg, s, steps).consents|
  {
    hide Effect, Permitted, ConsentsInv;
    var before, last := steps[..|steps| - 1], steps[|steps| - 1];
    ConsentRuns.RunKeepsInv(cfg, s, before);
    if RejectedNull(cfg, s, before, i) { RejectedNullIsStored(cfg, s, before, i); }
    PollStability.StepExtends(cfg, Run(cfg, s, before), last);
  }

  /** Over every run: a stored request is rejected without a reason exactly when a successful call of
      that kind, a rejection with a null reason, decided it. */
  lemma {:induction false} UnreasonedIffRejectedNull(cfg: Config, start: int, steps: seq<Step>, i: nat)
    requires ValidRun(cfg, EmptyStore(start), steps) && i < |Run(cfg, EmptyStore(start), steps).consents|
    ensures Unreasoned(Run(cfg, EmptyStore(start), steps).consents[i])
      <==> RejectedNull(cfg, EmptyStore(start), steps, i)
  {
    hide Effect, Permitted, ConsentsInv;
    var s0 := EmptyStore(start);
    assert steps != [];
    var before, last := steps[..|steps| - 1], steps[|steps| - 1];
    var mid := Run(cfg, s0, before);
    ConsentRuns.EmptyInv(start);
    ConsentRuns.RunKeepsInv(cfg, s0, before);
    if i < |mid.consents| {
      UnreasonedIffRejectedNull(cfg, start, before, i);
      StepReasons(cfg, mid, last, i);
      hide RejectsNull;
    } else {
      if RejectedNull(cfg, s0, before, i) { RejectedNullIsStored(cfg, s0, before, i); }
      ConsentRuns.StepEffect(cfg, mid, last);
      assert RowsAdvance(mid.consents, Run(cfg, s0, steps).consents);
    }
  }
}
