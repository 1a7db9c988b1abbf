/** Which tables each group of calls writes. */
module Frames {
  import opened Entities
  import opened Protocol
  import Consents
  import Sessions
  import Tampers

  predicate OnConsents(op: Op) {
    op.Create? || op.Decide? || op.Submit? || op.Abort? || op.Sweep?
  }

  predicate OnSessions(op: Op) {
    op.StartSession? || op.UpdateSession? || op.EndSession? || op.EndDevice?
  }

  predicate OnAssignments(op: Op) {
    op.Assign? || op.Remove?
  }

  /** A sweep writes consents and trails only. */
  lemma {:induction false} SweepLeavesRest(s: Store, list: seq<nat>)
    requires forall k | 0 <= k < |list| :: list[k] < |s.consents|
    ensures var r := Consents.SweepRows(s, list);
      r == s.(consents := r.consents, events := r.events, audits := r.audits)
  {
    if list != [] { SweepLeavesRest(s, list[..|list| - 1]); }
  }

  /** Nothing but the consents and the trails differs. */
  ghost predicate ConsentsAndTrails(s: Store, r: Store) {
    r == s.(consents := r.consents, events := r.events, audits := r.audits)
  }

  lemma CreateFrame(cfg: Config, s: Store, caller: string, body: Consents.CreateBody, newId: string, now: int)
    ensures ConsentsAndTrails(s, Consents.CreateConsentRequest(cfg, s, caller, body, newId, now).0)
  {
    hide Consents.ValidateParties, Consents.NewConsent, Consents.Clashes;
  }

  lemma DecideFrame(s: Store, id: string, actor: string, d: Consents.Decision, now: int)
    ensures var r := Consents.Decide(s, id, actor, d, now).0;
      ConsentsAndTrails(s, r) && |r.consents| == |s.consents|
  {}

  lemma SubmitFrame(s: Store, actor: string, key: string, answer: string, reason: Consents.Given, now: int)
    ensures var r := Consents.Submit(s, actor, key, answer, reason, now).0;
      ConsentsAndTrails(s, r) && |r.consents| == |s.consents|
  {
    hide Consents.Decide;
    var at := Consents.Resolve(s.consents, key);
    if at.Some? {
      DecideFrame(s, s.consents[at.value].id, actor, Consents.Approval, now);
      DecideFrame(s, s.consents[at.value].id, actor, Consents.Refusal(Consents.StoredReason(reason)), now);
    }
  }

  lemma AbortFrame(s: Store, key: string, reason: string, now: int)
    ensures var r := Consents.MarkAborted(s, key, reason, now);
      ConsentsAndTrails(s, r) && |r.consents| == |s.consents|
  {}

  /** Calls on consents write them and the trails; only filing adds a row. */
  lemma ConsentCallFrame(cfg: Config, s: Store, step: Step)
    requires Permitted(s, step) && OnConsents(step.op)
    ensures ConsentsAndTrails(s, Effect(cfg, s, step))
    ensures !step.op.Create? ==> |Effect(cfg, s, step).consents| == |s.consents|
  {
    hide Consents.CreateConsentRequest, Consents.Decide, Consents.Submit, Consents.MarkAborted;
    var op := step.op;
    if op.Create? {
      CreateFrame(cfg, s, op.caller, op.body, op.newId, step.now);
    } else if op.Decide? {
      DecideFrame(s, op.id, op.actorId, op.decision, step.now);
    } else if op.Submit? {
      SubmitFrame(s, op.actorId, op.key, op.answer, op.reason, step.now);
    } else if op.Abort? {
      AbortFrame(s, op.key, op.abortReason, step.now);
    } else {
      SweepLeavesRest(s, Consents.OverdueRows(s.consents, step.now));
    }
  }

  /** Calls on sessions write them, their snapshots and stamps, and the event trail. */
  lemma SessionCallFrame(cfg: Config, s: Store, step: Step)
    requires Permitted(s, step) && OnSessions(step.op)
    ensures var r := Effect(cfg, s, step);
      r == s.(sessions := r.sessions, snapshots := r.snapshots, nextStart := r.nextStart, events := r.events)
  {
    hide Sessions.Latest, Sessions.HasOpen, Sessions.Transitions;
  }

  lemma AssignmentCallFrame(cfg: Config, s: Store, step: Step)
    requires Permitted(s, step) && OnAssignments(step.op)
    ensures var r := Effect(cfg, s, step); r == s.(assignments := r.assignments)
  {}

  /** A cascade writes the tamper, consent and session tables only when it commits. */
  lemma CascadeFrame(cfg: Config, s: Store, step: Step)
    requires Permitted(s, step) && step.op.Tamper?
    ensures var r := Effect(cfg, s, step);
      && |r.consents| == |s.consents|
      && r == s.(tampers := r.tampers, consents := r.consents, sessions := r.sessions,
                 events := r.events, audits := r.audits)
      && (!step.op.fault.Commits? ==> r == s.(events := r.events, audits := r.audits))
  {
    Tampers.LogOutcome(s, step.op.report, step.op.fault, step.now);
    hide Tampers.Log, Consents.AbortTarget;
  }

  lemma TrailCallFrame(cfg: Config, s: Store, step: Step)
    requires Permitted(s, step) && (step.op.PostEvent? || step.op.Login?)
    ensures var r := Effect(cfg, s, step); r == s.(events := r.events, audits := r.audits)
  {}

  /** Calls on sessions, assignments and trails leave the consents alone. */
  lemma OtherCallsLeaveConsents(cfg: Config, s: Store, step: Step)
    requires Permitted(s, step) && !OnConsents(step.op) && !step.op.Tamper?
    ensures Effect(cfg, s, step).consents == s.consents
  {
    hide Effect;
    if OnSessions(step.op) {
      SessionCallFrame(cfg, s, step);
    } else if OnAssignments(step.op) {
      AssignmentCallFrame(cfg, s, step);
    } else {
      TrailCallFrame(cfg, s, step);
    }
  }

  /** Only filing adds a request. */
  lemma OnlyFilingAdds(cfg: Config, s: Store, step: Step)
    requires Permitted(s, step) && !step.op.Create?
    ensures |Apply(cfg, s, step).consents| == |s.consents|
  {
    hide Effect;
    if OnConsents(step.op) {
      ConsentCallFrame(cfg, s, step);
    } else if step.op.Tamper? {
      CascadeFrame(cfg, s, step);
    } else {
      OtherCallsLeaveConsents(cfg, s, step);
    }
  }
}
