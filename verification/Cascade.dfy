/** The tamper cascade is all or nothing, and a device it closed stays closed until the next start. */
module Cascade {
  import opened Wrappers
  import opened Columns
  import opened Entities
  import opened Consents
  import opened ConsentSteps
  import opened Protocol
  import opened SessionRuns
  import opened Transactions
  import Sessions
  import Tampers

  /** The request a report refers to, if it is in the table. */
  ghost function Referenced(s: Store, t: TamperEvent): Option<nat> {
    if Truthy(t.consentId) then AbortTarget(s.consents, t.consentId.value) else None
  }

  /** A session of the device was closed by the cascade; everything else stayed. */
  ghost predicate SessionsClosed(rows: seq<Session>, rows': seq<Session>, device: string, now: int) {
    && |rows'| == |rows|
    && forall i | 0 <= i < |rows| ::
      && (rows[i].deviceId != device || !rows[i].Open() ==> rows'[i] == rows[i])
      && (rows[i].deviceId == device ==> !rows'[i].Open())
      && (rows[i].deviceId == device && rows[i].Open() ==>
        && rows'[i].endedAt == Some(now) && rows'[i].endedReason == Some(ByTamper) && rows'[i].state.Ending?
        && rows'[i].sessionId == rows[i].sessionId && rows'[i].deviceId == device)
  }

  /** A pending referenced request became TAMPER_ABORTED; every other request stayed. */
  ghost predicate ConsentAborted(rows: seq<Consent>, rows': seq<Consent>, at: Option<nat>) {
    && |rows'| == |rows|
    && forall i | 0 <= i < |rows| ::
      if at == Some(i) && rows[i].status.Pending? then
        Settles(rows[i], rows'[i]) && rows'[i].status.TamperAborted? && rows'[i].abortedReason == Some(TAMPER_DETECTED)
      else rows'[i] == rows[i]
  }

  ghost predicate RefersToPending(s: Store, t: TamperEvent) {
    Referenced(s, t).Some? && s.consents[Referenced(s, t).value].status.Pending?
  }

  /** The audit row of a tamper abort. */
  ghost function TamperAudit(c: Consent): Audit {
    AuditRow(c, SettledOutOfBand(TamperAborted, c.txnRef), System, "SYSTEM", "system")
  }

  /** The rows an abort of the referenced request adds to the trails, then the report's own event. */
  ghost predicate TrailsOfCascade(s: Store, s': Store, t: TamperEvent) {
    var own := Event(Server, TamperDetected, Some(FwToApp), t.sessionId, t.consentId, None, None);
    if RefersToPending(s, t) then
      var c := s.consents[Referenced(s, t).value];
      && s'.events == s.events + [EndEvent(c, ConsentTamperAborted, Some("TAMPER_DETECTED")), own]
      && s'.audits == s.audits + [TamperAudit(c)]
    else s'.events == s.events + [own] && s'.audits == s.audits
  }

  ghost predicate Committed(s: Store, s': Store, t: TamperEvent, now: int) {
    && s'.tampers == s.tampers + [t]
    && ConsentAborted(s.consents, s'.consents, Referenced(s, t))
    && SessionsClosed(s.sessions, s'.sessions, t.deviceId, now)
    && s' == s.(tampers := s'.tampers, consents := s'.consents, sessions := s'.sessions,
                events := s'.events, audits := s'.audits)
    && TrailsOfCascade(s, s', t)
  }

  /** The trails gained the pair of a tamper abort of the referenced request, or nothing: the report
      itself is not announced. */
  ghost predicate Unannounced(s: Store, s': Store, t: TamperEvent) {
    || (s'.events == s.events && s'.audits == s.audits)
    || (RefersToPending(s, t)
        && var c := s.consents[Referenced(s, t).value];
           && s'.events == s.events + [EndEvent(c, ConsentTamperAborted, Some("TAMPER_DETECTED"))]
           && s'.audits == s.audits + [TamperAudit(c)])
  }

  lemma MarkAbortedAborts(s: Store, key: string, now: int)
    requires ConsentsInv(s)
    ensures var s', at := MarkAborted(s, key, TAMPER_DETECTED, now), AbortTarget(s.consents, key);
      && ConsentAborted(s.consents, s'.consents, at)
      && s' == s.(consents := s'.consents, events := s'.events, audits := s'.audits)
      && if at.Some? && s.consents[at.value].status.Pending? then
           var c := s.consents[at.value];
           && s'.events == s.events + [EndEvent(c, ConsentTamperAborted, Some("TAMPER_DETECTED"))]
           && s'.audits == s.audits + [TamperAudit(c)]
         else s'.events == s.events && s'.audits == s.audits
  {}

  /** A cascade that hands its manager on writes every table through it and only the trails past it. */
  lemma CascadeIsDisciplined(s: Store, t: TamperEvent, now: int)
    ensures Disciplined(Tampers.Cascade(s, t, now, true))
  {}

  lemma SameInv(s: Store, s1: Store)
    requires ConsentsInv(s) && s1.consents == s.consents && s1.events == s.events && s1.audits == s.audits
    ensures ConsentsInv(s1)
  {}

  /** What the committed cascade leaves. */
  lemma CommittedOutcome(s: Store, t: TamperEvent, now: int)
    requires ConsentsInv(s)
    ensures Committed(s, Tampers.Log(s, t, Commits, now).0, t, now)
  {
    hide Tampers.Log, MarkAborted, AbortTarget, KeysUnique, TrailsKnown, OnePendingPerSession;
    Tampers.LogOutcome(s, t, Commits, now);
    var s1 := s.(tampers := s.tampers + [t]);
    SameInv(s, s1);
    hide ConsentsInv;
    if Truthy(t.consentId) {
      MarkAbortedAborts(s1, t.consentId.value, now);
    }
  }

  /** A cascade that fails does not announce its report. */
  lemma RolledBackOutcome(s: Store, t: TamperEvent, fault: Fault, now: int)
    requires ConsentsInv(s)
    ensures !fault.Commits? ==> Unannounced(s, Tampers.Log(s, t, fault, now).0, t)
  {
    Tampers.LogOutcome(s, t, fault, now);
    hide Tampers.Log;
    if Truthy(t.consentId) {
      MarkAbortedAborts(s, t.consentId.value, now);
    }
    hide MarkAborted, AbortTarget;
  }

  /** The cascade is atomic. Cut off in front of any of its statements, or at COMMIT, the rollback
      leaves the tamper, consent and session tables exactly as they were and trails that only grew.
      As a call, whichever statement is rejected, it fails in just that way; with none rejected it
      succeeds with the report stored, the referenced pending request TAMPER_ABORTED, no session of
      the device open and nothing else touched. */
  lemma CascadeIsAtomic(s: Store, t: TamperEvent, fault: Fault, now: int)
    requires ConsentsInv(s)
    ensures var program := Tampers.Cascade(s, t, now, true);
      forall at: nat | at <= |program| :: TrailsOnly(s, Rollback(SendAll(Begin(s), program[..at])))
    ensures var (s', r) := Tampers.Log(s, t, fault, now);
      && (r.Ok? <==> fault.Commits?)
      && (r.Ok? ==> r.value == t && Committed(s, s', t, now))
      && (r.Err? ==> r == Err(DatabaseFailure) && TrailsOnly(s, s') && Unannounced(s, s', t))
  {
    var program := Tampers.Cascade(s, t, now, true);
    CascadeIsDisciplined(s, t, now);
    hide Tampers.Cascade;
    forall at: nat | at <= |program| ensures TrailsOnly(s, Rollback(SendAll(Begin(s), program[..at]))) {
      RollbackRestores(s, program[..at]);
    }
    TransactIsAtomic(s, program, fault);
    CommittedOutcome(s, t, now);
    RolledBackOutcome(s, t, fault, now);
    hide Transact, Unannounced, Committed;
  }

  /** No open session of a device. */
  ghost predicate Quiet(rows: seq<Session>, device: string) {
    forall i | 0 <= i < |rows| && rows[i].deviceId == device :: !rows[i].Open()
  }

  /** Handing the manager on is what makes it so: without it the rollback of a cut-off cascade
      restores the tables only where there was nothing to abort and no session to close. */
  lemma ManagerIsNeeded(s: Store, t: TamperEvent, now: int)
    ensures var program := Tampers.Cascade(s, t, now, false);
      (forall at: nat | at <= |program| :: TrailsOnly(s, Rollback(SendAll(Begin(s), program[..at]))))
        <==> !RefersToPending(s, t) && Quiet(s.sessions, t.deviceId)
  {
    var program := Tampers.Cascade(s, t, now, false);
    FirstTwo(Begin(s), program);
    if RefersToPending(s, t) {
      var i := Referenced(s, t).value;
      var s' := Rollback(SendAll(Begin(s), program[..2]));
      assert s'.consents[i].status.TamperAborted?;
      assert !TrailsOnly(s, s');
    } else if !Quiet(s.sessions, t.deviceId) {
      var i :| 0 <= i < |s.sessions| && s.sessions[i].deviceId == t.deviceId && s.sessions[i].Open();
      var s' := Rollback(SendAll(Begin(s), program[..2]));
      assert !s'.sessions[i].Open();
      assert !TrailsOnly(s, s');
    } else {
      assert Sessions.EndOnDevice(s.sessions, t.deviceId, ByTamper, now) == s.sessions;
    }
  }

  lemma FirstTwo(x: Tx, p: seq<Statement>)
    requires |p| >= 2
    ensures SendAll(x, p[..0]) == x && SendAll(x, p[..1]) == Send(x, p[0])
    ensures SendAll(x, p[..2]) == Send(Send(x, p[0]), p[1])
  {
    assert p[..2][..1] == p[..1];
    assert p[..1][..0] == [];
  }

  // ------------------------------------------------------------- over every run

  /** No start on a device among the steps. */
  ghost predicate NoStartOn(steps: seq<Step>, device: string) {
    forall k | 0 <= k < |steps| && steps[k].op.StartSession? :: steps[k].op.dto.deviceId != device
  }

  /** A device without an open session has none until a start names it. */
  lemma {:induction false} StaysQuiet(cfg: Config, s: Store, steps: seq<Step>, device: string)
    requires SessionsInv(s.sessions, s.nextStart) && ValidRun(cfg, s, steps)
    requires Quiet(s.sessions, device) && NoStartOn(steps, device)
    ensures Quiet(Run(cfg, s, steps).sessions, device)
  {
    hide Effect, Permitted, SessionsInv;
    if steps != [] {
      var before, last := steps[..|steps| - 1], steps[|steps| - 1];
      var mid := Run(cfg, s, before);
      StaysQuiet(cfg, s, before, device);
      RunKeepsSessions(cfg, s, before);
      StepAdvances(cfg, mid, last);
      assert last == steps[|steps| - 1];
      forall i | 0 <= i < |mid.sessions| ensures RowAdvance(mid.sessions[i], Run(cfg, s, steps).sessions[i]) {}
    }
  }

  /** After a committed cascade no session of the tampered device is open, over any continuation
      that contains no start on it. */
  lemma QuietAfterCascade(cfg: Config, s: Store, report: TamperEvent, now: int, steps: seq<Step>)
    requires ConsentsInv(s) && SessionsInv(s.sessions, s.nextStart) && s.clock <= now
    requires ValidRun(cfg, Apply(cfg, s, Step(now, Op.Tamper(report, Commits))), steps)
    requires NoStartOn(steps, report.deviceId)
    ensures Quiet(Run(cfg, Apply(cfg, s, Step(now, Op.Tamper(report, Commits))), steps).sessions, report.deviceId)
  {
    var step := Step(now, Op.Tamper(report, Commits));
    var s1 := Apply(cfg, s, step);
    StepAdvances(cfg, s, step);
    CommittedOutcome(s, report, now);
    assert s1.sessions == Tampers.Log(s, report, Commits, now).0.sessions;
    hide Tampers.Log, Effect;
    StaysQuiet(cfg, s1, steps, report.deviceId);
  }
}
