/** The decision window: lazy and eager expiry agree, decisions are in time, and no request
    stays pending more than one sweep interval past its deadline. */
module Deadlines {
  import opened Wrappers
  import opened Entities
  import opened Trails
  import opened Consents
  import opened ConsentSteps
  import opened ConsentRuns
  import opened Protocol
  import Frames
  import SessionCheck
  import Sweep
  import Tampers
  import Transactions
  import PollStability
  import TrailLockStep

  const SWEEP_INTERVAL_MS := 60000

  // ------------------------------------------------- lazy against eager expiry

  /** What a sweep leaves: the swept table, and everything but consents and trails untouched. */
  lemma SweptStore(s: Store, now: int)
    requires ConsentsInv(s)
    ensures var swept := ExpireStalePending(s, now).0;
      && ConsentsInv(swept) && swept.sessions == s.sessions
      && Sweep.SweptTable(s.consents, swept.consents, now)
  {
    Sweep.SweepExact(s, now);
    Sweep.SweepEffect(s, now);
    AdvanceKeepsTable(s.consents, ExpireStalePending(s, now).0.consents);
  }

  lemma SweptTrail(s: Store, now: int, i: nat)
    requires ConsentsInv(s) && i < |s.consents|
    ensures Sweep.Gained(s, ExpireStalePending(s, now).0, s.consents[i], Overdue(s.consents[i], now))
  {
    Sweep.OverdueRowsExact(s.consents, now);
    Sweep.SweepRowsTrail(s, OverdueRows(s.consents, now), i);
  }

  /** The events a decision call adds to the trail of the request it found. */
  ghost function DecisionEvents(s: Store, i: nat, d: Decision, now: int): seq<Event>
    requires i < |s.consents|
  {
    var c := s.consents[i];
    if Overdue(c, now) then [Sweep.SweepEvent(c)]
    else if c.status.Pending? && SessionConsistent(s.sessions, c.sessionId, c.deviceId)
    then [DecidedEvent(Decided(c, d, now), d)]
    else []
  }

  /** A decision call, seen from the row it found. */
  lemma DecideOnRow(s: Store, i: nat, id: string, actor: string, d: Decision, now: int)
    requires i < |s.consents| && Find(s.consents, ById(id)) == Some(i)
    ensures var (r, answer), c := Consents.Decide(s, id, actor, d, now), s.consents[i];
      && |r.consents| == |s.consents|
      && r.consents == s.consents[i := DecidedRow(s, i, d, now)]
      && answer == DecisionAnswer(s, i, d, now)
      && EventsFor(r.events, c.txnRef) == EventsFor(s.events, c.txnRef) + DecisionEvents(s, i, d, now)
  {
    DecideWrites(s, i, id, actor, d, now);
    hide Consents.Decide, DecidedRow, DecisionAnswer;
    var es := DecisionEvents(s, i, d, now);
    if es != [] {
      EventsForAppend(s.events, es[0], s.consents[i].txnRef);
      hide EventsFor;
    }
  }

  lemma DecideWrites(s: Store, i: nat, id: string, actor: string, d: Decision, now: int)
    requires i < |s.consents| && Find(s.consents, ById(id)) == Some(i)
    ensures var (r, answer) := Consents.Decide(s, id, actor, d, now);
      && r.consents == s.consents[i := DecidedRow(s, i, d, now)]
      && answer == DecisionAnswer(s, i, d, now)
      && r.events == s.events + DecisionEvents(s, i, d, now)
  {}

  /** The row a decision call leaves. */
  ghost function DecidedRow(s: Store, i: nat, d: Decision, now: int): Consent
    requires i < |s.consents|
  {
    var c := s.consents[i];
    if Overdue(c, now) then Expire(c)
    else if c.status.Pending? && SessionConsistent(s.sessions, c.sessionId, c.deviceId) then Decided(c, d, now)
    else c
  }

  ghost function DecisionAnswer(s: Store, i: nat, d: Decision, now: int): Result<Consent, ApiError>
    requires i < |s.consents|
  {
    var c := s.consents[i];
    if Overdue(c, now) then Err(StatusIs(Expired))
    else if !c.status.Pending? then Err(StatusIs(c.status))
    else if !SessionConsistent(s.sessions, c.sessionId, c.deviceId) then Err(SessionMismatch)
    else Ok(Decided(c, d, now))
  }

  /** A late decision expires the request exactly as the sweep would, and a timely one decides a
      request the sweep leaves alone: the caller gets the same answer, and the request ends with
      the same row and the same protocol trail, whether or not a sweep ran just before. */
  lemma LazyRefinesEager(s: Store, id: string, actor: string, d: Decision, now: int)
    requires ConsentsInv(s)
    ensures var swept := ExpireStalePending(s, now).0;
      var (lazy, answer) := Consents.Decide(s, id, actor, d, now);
      var (eager, answer') := Consents.Decide(swept, id, actor, d, now);
      && answer == answer'
      && |lazy.consents| == |eager.consents| == |s.consents|
      && forall i | 0 <= i < |s.consents| && Matches(s.consents[i], ById(id)) ::
        && lazy.consents[i] == eager.consents[i]
        && EventsFor(lazy.events, s.consents[i].txnRef) == EventsFor(eager.events, s.consents[i].txnRef)
  {
    var swept := ExpireStalePending(s, now).0;
    var at := Find(s.consents, ById(id));
    SweptStore(s, now);
    FoundAfterSweep(s, id, now);
    if at.Some? {
      var i := at.value;
      OnlyMatch(s, id, i);
      SweptTrail(s, now, i);
      hide Consents.Decide, ExpireStalePending, ConsentsInv;
      SameEnd(s, swept, i, d, now);
      hide DecidedRow, DecisionAnswer, DecisionEvents, Sweep.SweptTable, Sweep.Gained;
      DecideOnRow(s, i, id, actor, d, now);
      DecideOnRow(swept, i, id, actor, d, now);
    }
  }

  /** On a swept store a decision call ends as on the store before the sweep. */
  lemma SameEnd(s: Store, swept: Store, i: nat, d: Decision, now: int)
    requires i < |s.consents| && Sweep.SweptTable(s.consents, swept.consents, now) && swept.sessions == s.sessions
    requires Sweep.Gained(s, swept, s.consents[i], Overdue(s.consents[i], now))
    ensures swept.consents[i].txnRef == s.consents[i].txnRef
    ensures DecidedRow(swept, i, d, now) == DecidedRow(s, i, d, now)
    ensures DecisionAnswer(swept, i, d, now) == DecisionAnswer(s, i, d, now)
    ensures EventsFor(swept.events, s.consents[i].txnRef) + DecisionEvents(swept, i, d, now)
      == EventsFor(s.events, s.consents[i].txnRef) + DecisionEvents(s, i, d, now)
  {}

  lemma OnlyMatch(s: Store, id: string, i: nat)
    requires ConsentsInv(s) && Find(s.consents, ById(id)) == Some(i)
    ensures forall j | 0 <= j < |s.consents| && Matches(s.consents[j], ById(id)) :: j == i
  {}

  /** A sweep changes no key. */
  lemma FoundAfterSweep(s: Store, id: string, now: int)
    requires ConsentsInv(s)
    ensures Find(ExpireStalePending(s, now).0.consents, ById(id)) == Find(s.consents, ById(id))
  {
    SweptStore(s, now);
    var swept := ExpireStalePending(s, now).0.consents;
    var at := Find(s.consents, ById(id));
    if at.Some? {
      PollStability.FindIs(swept, ById(id), at.value);
    } else {
      assert forall i | 0 <= i < |s.consents| :: !Matches(s.consents[i], ById(id)) && swept[i].id == s.consents[i].id;
    }
  }

  /** Deciding and sweeping commute on the whole table: sweeping after the decision leaves the
      very rows that deciding after the sweep leaves. */
  lemma DecisionCommutesWithSweep(s: Store, id: string, actor: string, d: Decision, now: int)
    requires ConsentsInv(s)
    ensures ExpireStalePending(Consents.Decide(s, id, actor, d, now).0, now).0.consents
      == Consents.Decide(ExpireStalePending(s, now).0, id, actor, d, now).0.consents
  {
    hide ExpireStalePending;
    var swept, lazy := ExpireStalePending(s, now).0, Consents.Decide(s, id, actor, d, now).0;
    Sweep.SweepExact(s, now);
    Sweep.SweepExact(lazy, now);
    FoundAfterSweep(s, id, now);
    var at := Find(s.consents, ById(id));
    if at.Some? {
      DecideOnRow(s, at.value, id, actor, d, now);
      DecideOnRow(swept, at.value, id, actor, d, now);
      hide Consents.Decide, ConsentsInv, DecidedRow, DecisionAnswer, DecisionEvents;
      TablesAgree(s, swept, lazy, at.value, d, now);
      assert ExpireStalePending(lazy, now).0.consents
        == swept.consents[at.value := DecidedRow(swept, at.value, d, now)];
    }
  }

  lemma TablesAgree(s: Store, swept: Store, lazy: Store, i: nat, d: Decision, now: int)
    requires i < |s.consents| && Sweep.SweptTable(s.consents, swept.consents, now) && swept.sessions == s.sessions
    requires lazy.consents == s.consents[i := DecidedRow(s, i, d, now)]
    ensures Sweep.SweptTable(lazy.consents, swept.consents[i := DecidedRow(swept, i, d, now)], now)
  {}

  // ------------------------------------------------------------ deadline safety

  /** Exactly when a decision call succeeds: the row exists, is pending, its deadline has not
      passed, and the newest session of its id, if it has one, is on its device. */
  lemma DecisionsAreInTime(s: Store, id: string, actor: string, d: Decision, now: int)
    ensures Consents.Decide(s, id, actor, d, now).1.Ok? <==>
      var at := Find(s.consents, ById(id));
      && at.Some? && s.consents[at.value].status.Pending? && now <= DecisionDeadline(s.consents[at.value])
      && !SessionCheck.Elsewhere(s.sessions, s.consents[at.value].sessionId, s.consents[at.value].deviceId)
  {
    var at := Find(s.consents, ById(id));
    if at.Some? {
      SessionCheck.RefusesIff(s.sessions, s.consents[at.value].sessionId, s.consents[at.value].deviceId);
    }
    hide SessionConsistent;
  }

  /** A stored deadline is the creation time plus the window its priority has on its device;
      the client's expires_at does not enter. Approvals carry a time not after it. */
  ghost predicate InWindow(cfg: Config, c: Consent) {
    && c.deviceId.Some? && c.priority.Some?
    && DecisionDeadline(c) == c.createdAt + DecisionTimeoutMs(c.priority, WindowDevice(cfg, c.deviceId.value))
    && (c.approvedAt.Some? ==> c.approvedAt.value <= DecisionDeadline(c))
  }

  ghost predicate AllInWindow(cfg: Config, s: Store) {
    forall i | 0 <= i < |s.consents| :: InWindow(cfg, s.consents[i])
  }

  /** The deadline of any stored row, those from before it was stored included: the stored one, else
      the client's expires_at, else one or two minutes after creation, by priority. */
  lemma LegacyDeadlines(c: Consent)
    ensures c.decisionDeadlineMs.Some? ==> DecisionDeadline(c) == c.decisionDeadlineMs.value
    ensures c.decisionDeadlineMs.None? && c.expiresAt.Some? ==> DecisionDeadline(c) == c.expiresAt.value
    ensures c.decisionDeadlineMs.None? && c.expiresAt.None? ==>
      DecisionDeadline(c) - c.createdAt
        == if c.priority.Some? && Lower(c.priority.value) == "high" then 60 * 1000 else 2 * 60 * 1000
  {}

  /** The client's expires_at never moves a deadline: two bodies that differ in it alone are filed
      or refused alike, with the same deadline. */
  lemma DeadlineIgnoresExpiresAt(cfg: Config, s: Store, caller: string, body: CreateBody, other: Option<int>,
                                 newId: string, now: int)
    ensures var r := CreateConsentRequest(cfg, s, caller, body, newId, now).1;
      var r' := CreateConsentRequest(cfg, s, caller, body.(expiresAt := other), newId, now).1;
      && (r.Ok? <==> r'.Ok?)
      && (r.Ok? ==>
        && DecisionDeadline(r.value) == DecisionDeadline(r'.value)
        && r'.value == r.value.(expiresAt := other))
      && (r.Err? ==> r' == r)
  {
    assert forall c: Consent :: Clashes(s.consents, c) <==> Clashes(s.consents, c.(expiresAt := other));
  }

  /** A priority means the same in any letter case: "high" takes the device's short window (or one
      minute without a device), anything else and no priority at all the normal one (two minutes). */
  lemma PriorityIgnoresCase(p: string, q: string, device: Option<Device>)
    requires Lower(p) == Lower(q)
    ensures DecisionTimeoutMs(Some(p), device) == DecisionTimeoutMs(Some(q), device)
    ensures Lower(p) != "high" ==> DecisionTimeoutMs(Some(p), device) == DecisionTimeoutMs(None, device)
    ensures DecisionTimeoutMs(Some("HIGH"), device)
      == if device.Some? then device.value.consentDecisionHighSec * 1000 else 60000
    ensures DecisionTimeoutMs(None, device)
      == if device.Some? then device.value.consentDecisionNormalSec * 1000 else 120000
  {
    assert Lower("HIGH") == "high";
  }

  /** The last successful sweep of a run, or its start. */
  ghost function LastSweep(s: Store, steps: seq<Step>): int {
    if steps == [] then s.clock
    else if steps[|steps| - 1].op.Sweep? then steps[|steps| - 1].now
    else LastSweep(s, steps[..|steps| - 1])
  }

  ghost predicate NoNegativeWindow(cfg: Config) {
    forall d | d in cfg.devices :: 0 <= d.consentDecisionNormalSec && 0 <= d.consentDecisionHighSec
  }

  // ---------------------------------------------------------- over every run

  lemma CreateKeepsWindow(cfg: Config, s: Store, caller: string, body: CreateBody, newId: string, now: int)
    requires AllInWindow(cfg, s)
    ensures AllInWindow(cfg, CreateConsentRequest(cfg, s, caller, body, newId, now).0)
  {}

  lemma DecideKeepsWindow(cfg: Config, s: Store, id: string, actor: string, d: Decision, now: int)
    requires AllInWindow(cfg, s)
    ensures AllInWindow(cfg, Consents.Decide(s, id, actor, d, now).0)
  {
    var at := Find(s.consents, ById(id));
    if at.Some? { DecideOnRow(s, at.value, id, actor, d, now); }
  }

  lemma AbortKeepsWindow(cfg: Config, s: Store, key: string, reason: string, now: int)
    requires AllInWindow(cfg, s)
    ensures AllInWindow(cfg, MarkAborted(s, key, reason, now))
  {}

  lemma SweepKeepsWindow(cfg: Config, s: Store, now: int)
    requires AllInWindow(cfg, s)
    ensures AllInWindow(cfg, ExpireStalePending(s, now).0)
  {
    Sweep.SweepExact(s, now);
  }

  /** A step keeps every request in its window. */
  lemma StepKeepsWindow(cfg: Config, s: Store, step: Step)
    requires Permitted(s, step) && AllInWindow(cfg, s)
    ensures AllInWindow(cfg, Apply(cfg, s, step))
  {
    hide InWindow;
    var op := step.op;
    if op.Create? {
      CreateKeepsWindow(cfg, s, op.caller, op.body, op.newId, step.now);
    } else if op.Decide? {
      DecideKeepsWindow(cfg, s, op.id, op.actorId, op.decision, step.now);
    } else if op.Submit? {
      SubmitKeepsWindow(cfg, s, step);
    } else if op.Abort? {
      AbortKeepsWindow(cfg, s, op.key, op.abortReason, step.now);
    } else if op.Sweep? {
      SweepKeepsWindow(cfg, s, step.now);
    } else if op.Tamper? {
      TamperKeepsWindow(cfg, s, op.report, op.fault, step.now);
    } else {
      Frames.OtherCallsLeaveConsents(cfg, s, step);
      hide Effect;
    }
    hide CreateConsentRequest, Consents.Decide, Consents.Submit, MarkAborted, ExpireStalePending, Tampers.Log;
  }

  lemma SubmitKeepsWindow(cfg: Config, s: Store, step: Step)
    requires AllInWindow(cfg, s) && step.op.Submit?
    ensures var op := step.op;
      AllInWindow(cfg, Consents.Submit(s, op.actorId, op.key, op.answer, op.reason, step.now).0)
  {
    hide InWindow, Consents.Decide;
    var op := step.op;
    var at := Resolve(s.consents, op.key);
    if at.Some? {
      var id := s.consents[at.value].id;
      DecideKeepsWindow(cfg, s, id, op.actorId, Approval, step.now);
      DecideKeepsWindow(cfg, s, id, op.actorId, Refusal(StoredReason(op.reason)), step.now);
    }
  }

  lemma TamperKeepsWindow(cfg: Config, s: Store, report: TamperEvent, fault: Transactions.Fault, now: int)
    requires AllInWindow(cfg, s)
    ensures AllInWindow(cfg, Tampers.Log(s, report, fault, now).0)
  {
    hide InWindow;
    Tampers.LogOutcome(s, report, fault, now);
    hide Tampers.Log, MarkAborted;
    if Truthy(report.consentId) {
      AbortKeepsWindow(cfg, s.(tampers := s.tampers + [report]), report.consentId.value, TAMPER_DETECTED, now);
    }
  }

  /** No pending request was already due at time t. */
  ghost predicate NothingDueBefore(s: Store, t: int) {
    forall i | 0 <= i < |s.consents| && s.consents[i].status.Pending? :: t <= DecisionDeadline(s.consents[i])
  }

  /** A filed request is not due before it was filed. */
  lemma FiledDeadline(cfg: Config, s: Store, step: Step)
    requires Permitted(s, step) && NoNegativeWindow(cfg)
    ensures forall i | |s.consents| <= i < |Apply(cfg, s, step).consents| ::
      step.now <= DecisionDeadline(Apply(cfg, s, step).consents[i])
  {
    if step.op.Create? {
      NewDeadline(cfg, s, step.op.caller, step.op.body, step.op.newId, step.now);
    } else {
      Frames.OnlyFilingAdds(cfg, s, step);
      hide Effect;
    }
  }

  lemma NewDeadline(cfg: Config, s: Store, caller: string, body: CreateBody, newId: string, now: int)
    requires NoNegativeWindow(cfg)
    ensures CreateConsentRequest(cfg, s, caller, body, newId, now).1.Ok? ==>
      now <= DecisionDeadline(CreateConsentRequest(cfg, s, caller, body, newId, now).1.value)
  {}

  lemma SweptNothingDue(s: Store, now: int)
    ensures NothingDueBefore(ExpireStalePending(s, now).0, now)
  {
    Sweep.SweepExact(s, now);
  }

  lemma DueAfterStep(cfg: Config, s: Store, step: Step, t: int)
    requires ConsentsInv(s) && Permitted(s, step) && NoNegativeWindow(cfg) && t <= step.now
    requires NothingDueBefore(s, t)
    ensures NothingDueBefore(Apply(cfg, s, step), if step.op.Sweep? then step.now else t)
  {
    if step.op.Sweep? {
      hide ExpireStalePending, ConsentsInv, Permitted;
      SweptNothingDue(s, step.now);
    } else {
      hide Effect, ConsentsInv, Permitted, RowShape;
      PollStability.StepExtends(cfg, s, step);
      FiledDeadline(cfg, s, step);
      DueAfterExtension(s, Apply(cfg, s, step), t);
    }
  }

  /** Settling requests and filing ones that are not due yet makes nothing overdue. */
  lemma DueAfterExtension(s: Store, s': Store, t: int)
    requires NothingDueBefore(s, t) && PollStability.Extends(s.consents, s'.consents)
    requires forall i | |s.consents| <= i < |s'.consents| :: t <= DecisionDeadline(s'.consents[i])
    ensures NothingDueBefore(s', t)
  {}

  /** Over every run from the empty store: each request's deadline is its creation time plus its
      window, no approval is later than it, and nothing pending was due before the last sweep. */
  lemma {:induction false} RunDeadlines(cfg: Config, start: int, steps: seq<Step>)
    requires ValidRun(cfg, EmptyStore(start), steps)
    ensures var s := Run(cfg, EmptyStore(start), steps);
      && AllInWindow(cfg, s)
      && LastSweep(EmptyStore(start), steps) <= s.clock
      && (NoNegativeWindow(cfg) ==> NothingDueBefore(s, LastSweep(EmptyStore(start), steps)))
  {
    var s0 := EmptyStore(start);
    if steps != [] {
      var before, last := steps[..|steps| - 1], steps[|steps| - 1];
      var mid := Run(cfg, s0, before);
      RunDeadlines(cfg, start, before);
      RunKeepsInv(cfg, s0, before);
      StepKeepsWindow(cfg, mid, last);
      if NoNegativeWindow(cfg) {
        DueAfterStep(cfg, mid, last, LastSweep(s0, before));
      }
    }
  }

  /** Staleness bound: with non-negative windows, at any time t no later than one sweep interval
      after the last successful sweep (or the start), no request is pending more than one
      interval past its deadline. */
  lemma PendingIsFresh(cfg: Config, start: int, steps: seq<Step>, t: int, i: nat)
    requires ValidRun(cfg, EmptyStore(start), steps) && NoNegativeWindow(cfg)
    requires t <= LastSweep(EmptyStore(start), steps) + SWEEP_INTERVAL_MS
    requires i < |Run(cfg, EmptyStore(start), steps).consents|
    ensures var c := Run(cfg, EmptyStore(start), steps).consents[i];
      c.status.Pending? ==> t <= DecisionDeadline(c) + SWEEP_INTERVAL_MS
  {
    RunDeadlines(cfg, start, steps);
  }

  /** An audit row that says approved or rejected by a decision call is the last of its trail, and
      the request has that status, stamped no later than its deadline. */
  ghost predicate InTime(c: Consent, trail: seq<Audit>, k: nat)
    requires k < |trail|
  {
    && (trail[k].action.DecisionApproved? || trail[k].action.DecisionRejected? ==> k == |trail| - 1)
    && (trail[k].action.DecisionApproved? ==> c.approvedAt.Some? && c.approvedAt.value <= DecisionDeadline(c))
    && (trail[k].action.DecisionRejected? ==> c.rejectedAt.Some? && c.rejectedAt.value <= DecisionDeadline(c))
  }

  /** Over every run, whatever its trail records as decided by a decision call was decided in time:
      approvals and rejections alike. */
  lemma RecordedDecisionsAreInTime(cfg: Config, start: int, steps: seq<Step>, i: nat, k: nat)
    requires ValidRun(cfg, EmptyStore(start), steps)
    requires i < |Run(cfg, EmptyStore(start), steps).consents|
    requires var s := Run(cfg, EmptyStore(start), steps); k < |AuditsFor(s.audits, s.consents[i].txnRef)|
    ensures var s := Run(cfg, EmptyStore(start), steps);
      InTime(s.consents[i], AuditsFor(s.audits, s.consents[i].txnRef), k)
  {
    hide Effect, Permitted;
    var s := Run(cfg, EmptyStore(start), steps);
    TrailLockStep.LockStep(cfg, start, steps, i);
    RecordedInTrail(s, i, k, TrailLockStep.Orphans(cfg, EmptyStore(start), steps, s.consents[i].txnRef));
  }

  lemma RecordedInTrail(s: Store, i: nat, k: nat, orphans: nat)
    requires i < |s.consents| && TrailLockStep.TrailOf(s, i, orphans)
    requires k < |AuditsFor(s.audits, s.consents[i].txnRef)|
    ensures InTime(s.consents[i], AuditsFor(s.audits, s.consents[i].txnRef), k)
  {
    var c := s.consents[i];
    var es, au := EventsFor(s.events, c.txnRef), AuditsFor(s.audits, c.txnRef);
    if k == 0 {
      assert RequestedPair(c, es[0], au[0]);
    } else if k <= orphans {
      assert OrphanPair(c, es[k], au[k]);
    } else {
      assert SettledPair(c, es[k], au[k]);
    }
  }
}
