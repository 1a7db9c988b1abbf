/** The two append-only trails: what is written for a consent, and how to read it back. */
module Trails {
  import opened Wrappers
  import opened Entities

  /** The identifier every trail row carries: the app's own id when present, else the row id. */
  function PublicId(c: Consent): string {
    c.consentId.GetOr(c.id)
  }

  // ------------------------------------------------------------ event writes

  function RequestedEvent(c: Consent): Event {
    Event(Server, ConsentRequested, Some(AppToBe), c.sessionId, Some(PublicId(c)), Some(c.txnRef), None)
  }

  /** The server's protocol event for a decided consent. */
  function SettledEvent(c: Consent, t: EventType, errorCode: Option<string>): Event {
    Event(Server, t, Some(BeToApp), c.sessionId, Some(PublicId(c)), Some(c.txnRef), errorCode)
  }

  // ------------------------------------------------------------ audit writes

  /** What a caller passes to the audit service. */
  datatype AuditDto = AuditDto(
    action: AuditAction,
    auditType: AuditType,
    actorId: Option<string>,
    actorRole: Option<string>,
    consentRequest: Option<Consent>,
    consentId: Option<string>,
    txn: Option<string>,
    sessionId: Option<string>,
    deviceId: Option<string>)

  function ForConsent(action: AuditAction, t: AuditType, actorId: string, role: string, c: Consent): AuditDto {
    AuditDto(action, t, Some(actorId), Some(role), Some(c), None, None, None, None)
  }

  /** The stored row: explicit keys win, missing ones come from the related consent. */
  function LogRow(dto: AuditDto): Audit {
    var c := dto.consentRequest;
    Audit(
      dto.action, dto.auditType, dto.actorId, dto.actorRole,
      if c.Some? then Some(c.value.id) else None,
      OrElse(dto.consentId, if c.Some? then OrElse(c.value.consentId, Some(c.value.id)) else None),
      OrElse(dto.txn, if c.Some? then Some(c.value.txnRef) else None),
      OrElse(dto.sessionId, if c.Some? then c.value.sessionId else None),
      OrElse(dto.deviceId, if c.Some? then c.value.deviceId else None))
  }

  // -------------------------------------------------------------- projection

  predicate IsConsentEvent(t: EventType) {
    || t.ConsentRequested? || t.ConsentApproved? || t.ConsentRejected?
    || t.ConsentExpired? || t.ConsentAborted? || t.ConsentTamperAborted?
  }

  predicate BelongsTo(e: Event, txn: string) {
    e.origin.Server? && IsConsentEvent(e.eventType) && e.txn == Some(txn)
  }

  /** The server-written consent events of one transaction, in log order. */
  function EventsFor(events: seq<Event>, txn: string): seq<Event> {
    if events == [] then []
    else
      var e := events[|events| - 1];
      EventsFor(events[..|events| - 1], txn) + (if BelongsTo(e, txn) then [e] else [])
  }

  /** The audit rows of one transaction, in log order. */
  function AuditsFor(audits: seq<Audit>, txn: string): seq<Audit> {
    if audits == [] then []
    else
      var a := audits[|audits| - 1];
      AuditsFor(audits[..|audits| - 1], txn) + (if a.txn == Some(txn) then [a] else [])
  }

  lemma EventsForAppend(events: seq<Event>, e: Event, txn: string)
    ensures EventsFor(events + [e], txn) == EventsFor(events, txn) + (if BelongsTo(e, txn) then [e] else [])
  {
    assert (events + [e])[..|events|] == events;
  }

  lemma AuditsForAppend(audits: seq<Audit>, a: Audit, txn: string)
    ensures AuditsFor(audits + [a], txn) == AuditsFor(audits, txn) + (if a.txn == Some(txn) then [a] else [])
  {
    assert (audits + [a])[..|audits|] == audits;
  }

  /** A transaction nobody wrote about has an empty trail. */
  lemma {:induction false} UnknownTxnHasNoEvents(events: seq<Event>, txn: string)
    requires forall k | 0 <= k < |events| :: !BelongsTo(events[k], txn)
    ensures EventsFor(events, txn) == []
  {
    if events != [] {
      UnknownTxnHasNoEvents(events[..|events| - 1], txn);
    }
  }

  lemma {:induction false} UnknownTxnHasNoAudits(audits: seq<Audit>, txn: string)
    requires forall k | 0 <= k < |audits| :: audits[k].txn != Some(txn)
    ensures AuditsFor(audits, txn) == []
  {
    if audits != [] {
      UnknownTxnHasNoAudits(audits[..|audits| - 1], txn);
    }
  }

  // ------------------------------------------------------------- correspondence

  /** An event type the protocol may record for a consent that reached this status. */
  predicate TypeMatchesStatus(t: EventType, c: Consent) {
    match c.status
    case Pending => false
    case Approved => t.ConsentApproved?
    case Rejected => t.ConsentRejected? || t.ConsentAborted?
    case Expired => t.ConsentExpired?
    case TamperAborted => t.ConsentTamperAborted?
  }

  /** An audit action and an event type that describe the same transition. */
  predicate SameTransition(t: EventType, a: AuditAction) {
    match a
    case RequestCreated(_) => t.ConsentRequested?
    case DecisionApproved(_) => t.ConsentApproved?
    case DecisionRejected(_) => t.ConsentRejected?
    case ExpiredBySweep(_) => t.ConsentExpired?
    case ExpiredByWindow(_) => t.ConsentExpired?
    case SettledOutOfBand(s, _) =>
      (match s
       case Rejected => t.ConsentRejected? || t.ConsentAborted?
       case Expired => t.ConsentExpired?
       case TamperAborted => t.ConsentTamperAborted?
       case _ => false)
    case LoggedIn(_) => false
  }

  /** An action text that quotes this consent, filed under the right audit type. */
  predicate Describes(a: Audit, c: Consent) {
    match a.action
    case RequestCreated(txn) => txn == c.txnRef && a.auditType.System?
    case DecisionApproved(title) => title == c.title && a.auditType.Approve?
    case DecisionRejected(title) => title == c.title && a.auditType.Reject?
    case ExpiredBySweep(txn) => txn == c.txnRef && a.auditType.System?
    case ExpiredByWindow(txn) => txn == c.txnRef && a.auditType.System?
    case SettledOutOfBand(_, txn) => txn == c.txnRef && a.auditType.System?
    case LoggedIn(_) => false
  }

  /** One event and one audit row that tell the same fact about the same consent. */
  predicate Mirror(e: Event, a: Audit, c: Consent) {
    && SameTransition(e.eventType, a.action) && Describes(a, c)
    && e.direction == Some(if e.eventType.ConsentRequested? then AppToBe else BeToApp)
    && e.consentId == a.consentId == Some(PublicId(c))
    && e.txn == a.txn == Some(c.txnRef)
    && e.sessionId == a.sessionId == c.sessionId
    && a.consentRequestId == Some(c.id)
  }
}
