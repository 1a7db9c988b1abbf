/** consent.service.ts: the lifecycle calls, statement by statement, on the shared tables. */
module ConsentService {
  import opened Wrappers
  import opened Entities
  import opened Trails
  import opened Consents
  import opened Database
  import opened Transactions
  import Service = SessionsService
  import SessionCheck

  class ConsentService {
    const cfg: Config
    const db: Tables
    const audit: AuditService
    const bleEvents: BleEventsService
    const sessions: Service.SessionsService

    ghost predicate Valid() {
      audit.db == db && bleEvents.db == db && sessions.db == db && sessions.Valid()
    }

    constructor (cfg: Config, db: Tables, audit: AuditService, bleEvents: BleEventsService,
                 sessions: Service.SessionsService)
      requires audit.db == db && bleEvents.db == db && sessions.db == db && sessions.Valid()
      ensures Valid() && this.cfg == cfg && this.db == db
    {
      this.cfg, this.db, this.audit, this.bleEvents, this.sessions := cfg, db, audit, bleEvents, sessions;
    }

    /** Write an out-of-band terminal transition to both trails. */
    method RecordConsentTerminal(c: Consent, t: EventType, actorId: string, role: string, action: AuditAction)
      requires Valid()
      modifies db
      ensures db.State() == old(db.State()).(
        events := old(db.events) + [SettledEvent(c, t, c.abortedReason)],
        audits := old(db.audits) + [LogRow(ForConsent(action, System, actorId, role, c))])
    {
      bleEvents.RecordEvent(SettledEvent(c, t, c.abortedReason));
      audit.Log(ForConsent(action, System, actorId, role, c));
    }

    /** The sweep: collect the overdue pending rows, then expire them one by one. */
    method ExpireStalePending(now: int) returns (n: nat)
      requires Valid()
      modifies db
      ensures (db.State(), n) == Consents.ExpireStalePending(old(db.State()), now)
    {
      var expired: seq<nat> := [];
      for i := 0 to |db.consents|
        invariant expired == OverdueRows(db.consents[..i], now)
      {
        assert db.consents[..i + 1][..i] == db.consents[..i];
        var c := db.consents[i];
        if c.status.Pending? && now > DecisionDeadline(c) { expired := expired + [i]; }
      }
      assert db.consents[..|db.consents|] == db.consents;
      ghost var s := db.State();
      for k := 0 to |expired|
        invariant db.State() == SweepRows(s, expired[..k])
      {
        assert expired[..k + 1][..k] == expired[..k];
        var consent := db.consents[expired[k]];
        consent := consent.(status := Expired);
        consent := consent.(abortedReason := Some(REQUEST_EXPIRED));
        db.SaveConsent(expired[k], consent);
        RecordConsentTerminal(consent, ConsentExpired, "SYSTEM", "system", ExpiredBySweep(consent.txnRef));
      }
      assert expired[..|expired|] == expired;
      n := |expired|;
    }

    /** Expire a pending request whose window has elapsed; otherwise hand it back as read. */
    method EnforceDecisionWindow(i: nat, consent: Consent, actorId: string, now: int) returns (c: Consent)
      requires Valid() && i < |db.consents| && db.consents[i] == consent
      modifies db
      ensures i < |db.consents| && db.consents[i] == c
      ensures if Overdue(consent, now)
        then c == Expire(consent)
          && db.State() == ExpireRow(old(db.State()), i, actorId, "owner", ExpiredByWindow(consent.txnRef))
        else c == consent && db.State() == old(db.State())
    {
      c := consent;
      if !consent.status.Pending? || now <= DecisionDeadline(consent) { return; }
      c := c.(status := Expired);
      c := c.(abortedReason := Some(REQUEST_EXPIRED));
      db.SaveConsent(i, c);
      RecordConsentTerminal(c, ConsentExpired, actorId, "owner", ExpiredByWindow(c.txnRef));
    }

    /** False only for a known session of another device. */
    method AssertSessionConsistent(sessionId: Option<string>, deviceId: Option<string>) returns (ok: bool)
      ensures ok == SessionConsistent(sessions.db.sessions, sessionId, deviceId)
      ensures ok <==> !SessionCheck.Elsewhere(sessions.db.sessions, sessionId, deviceId)
    {
      SessionCheck.RefusesIff(sessions.db.sessions, sessionId, deviceId);
      if !Truthy(sessionId) { return true; }
      var session := sessions.FindBySessionId(sessionId.value);
      if session.None? { return true; }
      ok := !(Truthy(deviceId) && sessions.db.sessions[session.value].deviceId != deviceId.value);
    }

    method Approve(id: string, actorId: string, now: int) returns (r: Result<Consent, ApiError>)
      requires Valid()
      modifies db
      ensures (db.State(), r) == Decide(old(db.State()), id, actorId, Approval, now)
    {
      var at := Find(db.consents, ById(id));
      if at.None? { return Err(NotFound); }
      var consent := EnforceDecisionWindow(at.value, db.consents[at.value], actorId, now);
      if !consent.status.Pending? { return Err(StatusIs(consent.status)); }
      var consistent := AssertSessionConsistent(consent.sessionId, consent.deviceId);
      if !consistent { return Err(SessionMismatch); }
      consent := consent.(status := Approved);
      consent := consent.(approvedAt := Some(now));
      db.SaveConsent(at.value, consent);
      audit.Log(ForConsent(DecisionApproved(consent.title), AuditType.Approve, actorId, "owner", consent));
      bleEvents.RecordEvent(SettledEvent(consent, ConsentApproved, None));
      r := Ok(consent);
    }

    /** A reason left out defaults; a null one is stored as it came. */
    method Reject(id: string, actorId: string, reason: Given, now: int) returns (r: Result<Consent, ApiError>)
      requires Valid()
      modifies db
      ensures (db.State(), r) == Decide(old(db.State()), id, actorId, Refusal(StoredReason(reason)), now)
    {
      var stored: Option<string> := None;
      if reason.Absent? {
        stored := Some(OPERATOR_DECLINED);
      } else if reason.Text? {
        stored := Some(reason.text);
      }
      var at := Find(db.consents, ById(id));
      if at.None? { return Err(NotFound); }
      var consent := EnforceDecisionWindow(at.value, db.consents[at.value], actorId, now);
      if !consent.status.Pending? { return Err(StatusIs(consent.status)); }
      var consistent := AssertSessionConsistent(consent.sessionId, consent.deviceId);
      if !consistent { return Err(SessionMismatch); }
      consent := consent.(status := Rejected);
      consent := consent.(abortedReason := stored);
      consent := consent.(rejectedAt := Some(now));
      db.SaveConsent(at.value, consent);
      audit.Log(ForConsent(DecisionRejected(consent.title), AuditType.Reject, actorId, "owner", consent));
      bleEvents.RecordEvent(SettledEvent(consent, ConsentRejected, stored));
      r := Ok(consent);
    }

    method SubmitConsentResponse(actorId: string, key: string, decision: string, reason: Given, now: int)
      returns (r: Result<SubmitResponse, ApiError>)
      requires Valid()
      modifies db
      ensures (db.State(), r) == Submit(old(db.State()), actorId, key, decision, reason, now)
    {
      hide Decide;
      var at := Resolve(db.consents, key);
      if at.None? { return Err(NotFound); }
      var updated: Result<Consent, ApiError>;
      if decision == "approved" {
        updated := Approve(db.consents[at.value].id, actorId, now);
      } else if decision == "rejected" {
        updated := Reject(db.consents[at.value].id, actorId, reason, now);
      } else {
        return Err(InvalidDecision);
      }
      match updated
      case Err(e) => r := Err(e);
      case Ok(c) =>
        var decidedAt := if decision == "approved" then c.approvedAt.GetOr(now) else c.rejectedAt.GetOr(now);
        r := Ok(SubmitResponse(PublicId(c), decision, decidedAt));
    }

    /** The three lookups of an abort, in order. */
    static method FindToAbort(rows: seq<Consent>, key: string) returns (at: Option<nat>)
      ensures at == AbortTarget(rows, key) && (at.Some? ==> at.value < |rows|)
    {
      at := None;
      if IsUuid(key) { at := Find(rows, ById(key)); }
      if at.None? { at := Find(rows, ByConsentId(key)); }
      if at.None? { at := Find(rows, ByTxn(key)); }
    }

    /** Dispatch by reason to the terminal status and its event type. */
    static method AbortByReason(consent: Consent, reason: string, now: int) returns (c: Consent, t: EventType)
      ensures c == Aborted(consent, reason, now) && t == Classify(reason).1
    {
      c := consent;
      if reason == TAMPER_DETECTED || reason == TAMPER_ABORTED {
        c, t := c.(status := TamperAborted), ConsentTamperAborted;
      } else if reason == REQUEST_EXPIRED {
        c, t := c.(status := Expired), ConsentExpired;
      } else if IsSpecRejection(reason) {
        c, t := c.(status := Rejected), ConsentRejected;
      } else {
        c, t := c.(status := Rejected), ConsentAborted;
      }
      c := c.(abortedReason := Some(reason));
      if c.status.Rejected? && c.rejectedAt.None? {
        c := c.(rejectedAt := Some(now));
      }
    }

    /** Abort by reason; a request already decided is left alone. The row is read and saved through
        the caller's transaction when there is one; `saved` is false when the database rejected it. */
    method MarkAborted(key: string, reason: string, now: int, manager: Transaction?) returns (saved: bool)
      requires Valid() && (manager != null ==> manager.db == db)
      modifies db, manager
      ensures manager == null ==>
        saved && db.State() == Consents.MarkAborted(old(db.State()), key, reason, now)
      ensures manager != null ==>
        (manager.State(), saved) == Execute(old(manager.State()),
          AbortProgram(old(manager.State().View()), key, reason, now, true), manager.fault)
    {
      hide Aborted, Classify, AbortTarget, LogRow, SettledEvent, IsUuid;
      saved := true;
      var rows := if manager == null then db.consents else manager.State().View().consents;
      var at := FindToAbort(rows, key);
      if at.None? { return; }
      if !rows[at.value].status.Pending? { return; }
      var consent, t := AbortByReason(rows[at.value], reason, now);
      if manager == null {
        db.SaveConsent(at.value, consent);
      } else {
        ghost var x := manager.State();
        ghost var program := AbortProgram(x.View(), key, reason, now, true);
        ExecuteSaveThenTrail(x, program, manager.fault);
        ExecuteOne(x, program[0], manager.fault);
        hide Execute;
        saved := manager.Send(SaveConsent(at.value, consent));
        if !saved { return; }
      }
      RecordConsentTerminal(consent, t, "SYSTEM", "system", SettledOutOfBand(consent.status, consent.txnRef));
    }

    /** File a request for the caller's device and session, unless one is pending there. */
    method CreateConsentRequest(caller: string, body: CreateBody, newId: string, now: int)
      returns (r: Result<Consent, ApiError>)
      requires Valid()
      modifies db
      ensures (db.State(), r) == Consents.CreateConsentRequest(cfg, old(db.State()), caller, body, newId, now)
    {
      var parties := ValidateParties(cfg, db.State(), body.ownerId, body.operatorId, caller, body.deviceId);
      if parties.Err? { return Err(parties.error); }
      var consistent := AssertSessionConsistent(body.sessionId, Some(body.deviceId));
      if !consistent { return Err(SessionMismatch); }
      if Truthy(body.sessionId) {
        if HasPendingOn(db.consents, body.sessionId.value) { return Err(SessionHasPending); }
      }
      var consent := NewConsent(cfg, body, parties.value, newId, now);
      if Clashes(db.consents, consent) { return Err(DuplicateKey); }
      db.consents := db.consents + [consent];
      audit.Log(ForConsent(RequestCreated(body.txn), System, caller, "operator", consent));
      bleEvents.RecordEvent(RequestedEvent(consent));
      r := Ok(consent);
    }
  }
}
