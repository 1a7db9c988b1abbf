/** The consent invariants over every run, and the lock-step of the two trails. */
module ConsentRuns {
  import opened Wrappers
  import opened Entities
  import opened Trails
  import opened Consents
  import opened ConsentSteps
  import opened Protocol
  import Frames
  import SessionCheck
  import Sessions
  import Sweep
  import Tampers
  import Transactions

  // ------------------------------------------------------- effect of each call

  /** At most one event is added, and it is not the server's word on a consent. */
  ghost predicate ForeignEvent(es: seq<Event>, es': seq<Event>) {
    es' == es || (Grew(es, es') && (es'[|es|].origin.Client? || !IsConsentEvent(es'[|es|].eventType)))
  }

  /** At most one audit row is added, and it names no transaction. */
  ghost predicate ForeignAudit(au: seq<Audit>, au': seq<Audit>) {
    au' == au || (Grew(au, au') && au'[|au|].txn.None?)
  }

  lemma ForeignKeepsTrails(s: Store, s': Store, txn: string)
    requires ForeignEvent(s.events, s'.events) && ForeignAudit(s.audits, s'.audits)
    ensures EventsFor(s'.events, txn) == EventsFor(s.events, txn)
    ensures AuditsFor(s'.audits, txn) == AuditsFor(s.audits, txn)
  {
    if s'.events != s.events { assert s'.events == s.events + [s'.events[|s.events|]]; }
    if s'.audits != s.audits { assert s'.audits == s.audits + [s'.audits[|s.audits|]]; }
  }

  /** Rows that are not about a consent do not disturb an effect. */
  lemma EffectThenForeign(s: Store, mid: Store, s': Store, orphan: Option<nat>)
    requires ConsentsInv(s) && ConsentEffect(s, mid, orphan) && s'.consents == mid.consents
    requires ForeignEvent(mid.events, s'.events) && ForeignAudit(mid.audits, s'.audits)
    ensures ConsentEffect(s, s', orphan)
  {
    forall i | 0 <= i < |s.consents| ensures TrailStep(s, s', i, orphan == Some(i)) {
      assert TrailStep(s, mid, i, orphan == Some(i));
      ForeignKeepsTrails(mid, s', s.consents[i].txnRef);
    }
    if |s'.consents| > |s.consents| {
      ForeignKeepsTrails(mid, s', s'.consents[|s.consents|].txnRef);
    }
  }

  lemma NoEffect(s: Store)
    requires ConsentsInv(s)
    ensures ConsentEffect(s, s, None)
  {}

  /** Calls that leave the consents alone and write nothing about one. */
  lemma ForeignEffect(s: Store, s': Store)
    requires ConsentsInv(s) && s'.consents == s.consents
    requires ForeignEvent(s.events, s'.events) && ForeignAudit(s.audits, s'.audits)
    ensures ConsentEffect(s, s', None)
  {
    NoEffect(s);
    EffectThenForeign(s, s, s', None);
  }

  lemma CreateEffect(cfg: Config, s: Store, caller: string, body: CreateBody, newId: string, now: int)
    requires ConsentsInv(s) && IsUuid(newId) && Lower(newId) == newId
    ensures ConsentEffect(s, CreateConsentRequest(cfg, s, caller, body, newId, now).0, None)
  {
    var (s', r) := CreateConsentRequest(cfg, s, caller, body, newId, now);
    NoEffect(s);
    if r.Ok? {
      var c := r.value;
      var a := LogRow(ForConsent(RequestCreated(c.txnRef), System, caller, "operator", c));
      KnownAfterAppend(s, s', RequestedEvent(c), a, c.txnRef, |s.consents|);
      EventsForAppend(s.events, RequestedEvent(c), c.txnRef);
      AuditsForAppend(s.audits, a, c.txnRef);
      forall i | 0 <= i < |s.consents| ensures TrailStep(s, s', i, false) {
        assert s.consents[i].txnRef != c.txnRef;
        EventsForAppend(s.events, RequestedEvent(c), s.consents[i].txnRef);
        AuditsForAppend(s.audits, a, s.consents[i].txnRef);
      }
    }
  }

  lemma DecideEffect(s: Store, id: string, actor: string, d: Decision, now: int)
    requires ConsentsInv(s)
    ensures ConsentEffect(s, Consents.Decide(s, id, actor, d, now).0, None)
  {
    NoEffect(s);
    var at := Find(s.consents, ById(id));
    if at.Some? {
      var i, c := at.value, s.consents[at.value];
      if Overdue(c, now) {
        var c' := Expire(c);
        SettleEffect(s, i, c', SettledEvent(c', ConsentExpired, c'.abortedReason),
                     ForConsent(ExpiredByWindow(c.txnRef), System, actor, "owner", c'));
      } else if c.status.Pending? && SessionConsistent(s.sessions, c.sessionId, c.deviceId) {
        var c' := Decided(c, d, now);
        SettleEffect(s, i, c', DecidedEvent(c', d), DecidedAudit(c', d, actor));
      }
    }
  }

  lemma SubmitEffect(s: Store, actor: string, key: string, answer: string, reason: Given, now: int)
    requires ConsentsInv(s)
    ensures ConsentEffect(s, Consents.Submit(s, actor, key, answer, reason, now).0, None)
  {
    hide ConsentEffect, ConsentsInv, Consents.Decide;
    NoEffect(s);
    var at := Resolve(s.consents, key);
    if at.Some? {
      DecideEffect(s, s.consents[at.value].id, actor, Approval, now);
      DecideEffect(s, s.consents[at.value].id, actor, Refusal(StoredReason(reason)), now);
    }
  }

  /** An abort settles a pending row into the shape its reason calls for. */
  lemma AbortedShape(c: Consent, reason: string, now: int)
    requires c.status.Pending? && RowShape(c)
    ensures Settles(c, Aborted(c, reason, now))
  {}

  lemma MarkAbortedEffect(s: Store, key: string, reason: string, now: int)
    requires ConsentsInv(s)
    ensures ConsentEffect(s, MarkAborted(s, key, reason, now), None)
  {
    NoEffect(s);
    var at := AbortTarget(s.consents, key);
    if at.Some? && s.consents[at.value].status.Pending? {
      var c := Aborted(s.consents[at.value], reason, now);
      AbortedShape(s.consents[at.value], reason, now);
      SettleEffect(s, at.value, c, SettledEvent(c, Classify(reason).1, c.abortedReason),
                   ForConsent(SettledOutOfBand(c.status, c.txnRef), System, "SYSTEM", "system", c));
    }
  }

  // ------------------------------------------------------------------ cascade

  /** The pending request a rolled-back cascade writes about, if it got that far. */
  ghost function OrphanRow(s: Store, step: Step): Option<nat> {
    if step.op.Tamper? && Tampers.AfterAbort(step.op.fault) && Truthy(step.op.report.consentId) then
      var at := AbortTarget(s.consents, step.op.report.consentId.value);
      if at.Some? && s.consents[at.value].status.Pending? then at else None
    else None
  }

  /** Rolling the row back turns the settled pair into an orphan pair. */
  lemma RolledBackEffect(s: Store, i: nat, now: int)
    requires ConsentsInv(s) && i < |s.consents| && s.consents[i].status.Pending?
    ensures var s2 := AbortRow(s, i, TAMPER_DETECTED, now);
      ConsentEffect(s, s.(events := s2.events, audits := s2.audits), Some(i))
  {
    var c := Aborted(s.consents[i], TAMPER_DETECTED, now);
    AbortedShape(s.consents[i], TAMPER_DETECTED, now);
    var e := SettledEvent(c, ConsentTamperAborted, c.abortedReason);
    var dto := ForConsent(SettledOutOfBand(c.status, c.txnRef), System, "SYSTEM", "system", c);
    var s' := s.(events := s.events + [e], audits := s.audits + [LogRow(dto)]);
    KnownAfterAppend(s, s', e, LogRow(dto), c.txnRef, i);
    forall j | 0 <= j < |s.consents| ensures TrailStep(s, s', j, Some(i) == Some(j)) {
      TxnIsKey(s.consents, i, j);
      EventsForAppend(s.events, e, s.consents[j].txnRef);
      AuditsForAppend(s.audits, LogRow(dto), s.consents[j].txnRef);
    }
  }

  lemma TamperEffect(s: Store, step: Step)
    requires ConsentsInv(s) && step.op.Tamper?
    ensures ConsentEffect(s, Tampers.Log(s, step.op.report, step.op.fault, step.now).0, OrphanRow(s, step))
  {
    var t := step.op.report;
    if step.op.fault.Commits? {
      CommittedEffect(s, t, step.now);
    } else {
      NoEffect(s);
      Tampers.LogOutcome(s, t, step.op.fault, step.now);
      hide Tampers.Log;
      if OrphanRow(s, step).Some? { RolledBackEffect(s, OrphanRow(s, step).value, step.now); }
    }
  }

  lemma CommittedEffect(s: Store, t: TamperEvent, now: int)
    requires ConsentsInv(s)
    ensures ConsentEffect(s, Tampers.Log(s, t, Transactions.Commits, now).0, None)
  {
    var s1 := s.(tampers := s.tampers + [t]);
    SameTables(s, s1);
    if Truthy(t.consentId) {
      MarkAbortedEffect(s1, t.consentId.value, TAMPER_DETECTED, now);
    } else {
      NoEffect(s1);
    }
    Tampers.LogOutcome(s, t, Transactions.Commits, now);
    hide ConsentEffect, ConsentsInv, Consents.MarkAborted, Tampers.Log;
    var s' := Tampers.Log(s, t, Transactions.Commits, now).0;
    EffectThenForeign(s1, Tampers.AbortReferenced(s1, t, now), s', None);
    SameStart(s, s1, s', None);
  }

  /** The invariants and effects read the consents and the trails only. */
  lemma SameTables(s: Store, s1: Store)
    requires ConsentsInv(s) && s1.consents == s.consents && s1.events == s.events && s1.audits == s.audits
    ensures ConsentsInv(s1)
  {}

  lemma SameStart(s: Store, s1: Store, s': Store, orphan: Option<nat>)
    requires s1.consents == s.consents && s1.events == s.events && s1.audits == s.audits
    requires ConsentEffect(s1, s', orphan)
    ensures ConsentEffect(s, s', orphan)
  {
    forall i | 0 <= i < |s.consents| ensures TrailStep(s, s', i, orphan == Some(i)) {
      assert TrailStep(s1, s', i, orphan == Some(i));
    }
  }

  // ---------------------------------------------------------------- every step

  /** Every step has a legal effect on the consents and their trails. */
  lemma StepEffect(cfg: Config, s: Store, step: Step)
    requires ConsentsInv(s) && Permitted(s, step)
    ensures ConsentEffect(s, Apply(cfg, s, step), OrphanRow(s, step))
  {
    hide ConsentEffect, ConsentsInv;
    var s', op := Effect(cfg, s, step), step.op;
    if op.Create? {
      CreateEffect(cfg, s, op.caller, op.body, op.newId, step.now);
    } else if op.Decide? {
      DecideEffect(s, op.id, op.actorId, op.decision, step.now);
    } else if op.Submit? {
      SubmitEffect(s, op.actorId, op.key, op.answer, op.reason, step.now);
    } else if op.Abort? {
      MarkAbortedEffect(s, op.key, op.abortReason, step.now);
    } else if op.Sweep? {
      Sweep.SweepEffect(s, step.now);
    } else if op.Tamper? {
      TamperEffect(s, step);
    } else {
      OtherCallEffect(cfg, s, step);
    }
    hide Effect, Permitted, OrphanRow;
    EffectClock(s, s', step.now, OrphanRow(s, step));
  }

  /** Calls on sessions and assignments, posted events and logins write nothing about a consent. */
  lemma OtherCallEffect(cfg: Config, s: Store, step: Step)
    requires ConsentsInv(s) && Permitted(s, step)
    requires !step.op.Create? && !step.op.Decide? && !step.op.Submit? && !step.op.Abort?
    requires !step.op.Sweep? && !step.op.Tamper?
    ensures ConsentEffect(s, Effect(cfg, s, step), None)
  {
    hide ConsentEffect, ConsentsInv;
    var s' := Effect(cfg, s, step);
    Frames.OtherCallsLeaveConsents(cfg, s, step);
    if Frames.OnSessions(step.op) {
      Frames.SessionCallFrame(cfg, s, step);
      SessionCallEvents(cfg, s, step);
    } else if Frames.OnAssignments(step.op) {
      Frames.AssignmentCallFrame(cfg, s, step);
      hide Effect;
    }
    ForeignEffect(s, s');
  }

  /** A call on sessions records at most one event, the end of a session. */
  lemma SessionCallEvents(cfg: Config, s: Store, step: Step)
    requires Permitted(s, step) && Frames.OnSessions(step.op)
    ensures ForeignEvent(s.events, Effect(cfg, s, step).events)
  {
    hide Sessions.Latest, Sessions.HasOpen, Sessions.Transitions;
  }

  lemma EffectClock(s: Store, s': Store, now: int, orphan: Option<nat>)
    requires ConsentEffect(s, s', orphan)
    ensures ConsentEffect(s, s'.(clock := now), orphan)
  {
    forall i | 0 <= i < |s.consents| ensures TrailStep(s, s'.(clock := now), i, orphan == Some(i)) {
      assert TrailStep(s, s', i, orphan == Some(i));
    }
  }

  lemma StepKeepsInv(cfg: Config, s: Store, step: Step)
    requires ConsentsInv(s) && Permitted(s, step)
    ensures ConsentsInv(Apply(cfg, s, step))
  {
    StepEffect(cfg, s, step);
    AdvanceKeepsTable(s.consents, Apply(cfg, s, step).consents);
  }

  lemma EmptyInv(start: int)
    ensures ConsentsInv(EmptyStore(start))
  {}

  /** Every reachable state: rows well shaped, keys unique, at most one pending consent per
      non-empty session_id, and trails that speak only of stored requests. */
  lemma {:induction false} RunKeepsInv(cfg: Config, s: Store, steps: seq<Step>)
    requires ConsentsInv(s) && ValidRun(cfg, s, steps)
    ensures ConsentsInv(Run(cfg, s, steps))
  {
    if steps != [] {
      RunKeepsInv(cfg, s, steps[..|steps| - 1]);
      StepKeepsInv(cfg, Run(cfg, s, steps[..|steps| - 1]), steps[|steps| - 1]);
    }
  }

  /** From the empty store: a session with a non-empty id never carries two pending requests, and
      no two requests share an id, a transaction or a consent id. */
  lemma OnePendingConsent(cfg: Config, start: int, steps: seq<Step>, i: nat, j: nat)
    requires ValidRun(cfg, EmptyStore(start), steps)
    requires i < |Run(cfg, EmptyStore(start), steps).consents| && j < |Run(cfg, EmptyStore(start), steps).consents|
    ensures var a, b := Run(cfg, EmptyStore(start), steps).consents[i], Run(cfg, EmptyStore(start), steps).consents[j];
      && (a.status.Pending? && b.status.Pending? && Truthy(a.sessionId) && a.sessionId == b.sessionId ==> i == j)
      && (a.id == b.id || a.txnRef == b.txnRef || (a.consentId.Some? && a.consentId == b.consentId) ==> i == j)
  {
    hide Effect, Permitted;
    EmptyInv(start);
    RunKeepsInv(cfg, EmptyStore(start), steps);
  }

  /** Exactly when filing succeeds: an active device with an owner, that owner not contradicted, the
      caller an operator naming itself and assigned to the device, no foreign session, nothing
      pending on the session, and fresh keys; then the request is appended pending. */
  lemma FilingSucceedsIff(cfg: Config, s: Store, caller: string, body: CreateBody, newId: string, now: int)
    requires forall i | 0 <= i < |s.consents| :: s.consents[i].id != newId
    ensures var (s', r) := CreateConsentRequest(cfg, s, caller, body, newId, now);
      var device := FindDevice(cfg.devices, body.deviceId);
      && (r.Ok? <==>
        && device.Some? && device.value.isActive && device.value.ownerId.Some?
        && (var owner := FindUser(cfg.users, device.value.ownerId.value); owner.Some? && owner.value.role.Owner?)
        && (Truthy(body.ownerId) ==> body.ownerId == device.value.ownerId)
        && body.operatorId == Some(caller) && caller != ""
        && (var operator := FindUser(cfg.users, caller); operator.Some? && operator.value.role.Operator?)
        && HasAssignment(s.assignments, body.deviceId, caller)
        && (cfg.hardPin ==> device.value.ownerId == Some("USR-001") && caller == "USR-002")
        && !SessionCheck.Elsewhere(s.sessions, body.sessionId, Some(body.deviceId))
        && (forall i | 0 <= i < |s.consents| ::
          && s.consents[i].txnRef != body.txn
          && (body.consentId.Some? ==> s.consents[i].consentId != body.consentId)
          && (Truthy(body.sessionId) && s.consents[i].sessionId == body.sessionId ==> !s.consents[i].status.Pending?)))
      && (r.Ok? ==>
        && s'.consents == s.consents + [r.value] && r.value.status.Pending? && r.value.txnRef == body.txn
        && r.value.sessionId == body.sessionId && r.value.deviceId == Some(body.deviceId))
      && (r.Err? ==> s' == s)
  {
    SessionCheck.RefusesIff(s.sessions, body.sessionId, Some(body.deviceId));
    hide SessionConsistent;
  }
}
