/** The rows calls write, column by column. */
module Columns {
  import opened Wrappers
  import opened Entities

  /** A server event about the end of a request. */
  ghost function EndEvent(c: Consent, t: EventType, errorCode: Option<string>): Event {
    Event(Server, t, Some(BeToApp), c.sessionId, Some(if c.consentId.Some? then c.consentId.value else c.id),
          Some(c.txnRef), errorCode)
  }

  /** An audit row about a request. */
  ghost function AuditRow(c: Consent, action: AuditAction, t: AuditType, actorId: string, role: string): Audit {
    Audit(action, t, Some(actorId), Some(role), Some(c.id),
          Some(if c.consentId.Some? then c.consentId.value else c.id), Some(c.txnRef), c.sessionId, c.deviceId)
  }

  /** One request was rewritten and one row was added to each trail; nothing else changed. */
  ghost predicate Wrote(s: Store, s': Store, i: nat, c: Consent, e: Event, a: Audit) {
    i < |s.consents|
    && s' == s.(consents := s.consents[i := c], events := s.events + [e], audits := s.audits + [a])
  }

  /** A session row closed at a time for a reason. */
  ghost function Closed(r: Session, reason: EndReason, now: int): Session {
    r.(state := Ending, endedAt := Some(now), endedReason := Some(reason))
  }

  /** The server event of one ended session. */
  ghost function SessionEndEvent(sid: string): Event {
    Event(Server, SessionEnded, Some(AppToBe), Some(sid), None, None, None)
  }

  /** At least one of the identity columns is a non-empty text. */
  ghost predicate SomeIdentity(i: Identity) {
    exists t | t in {i.fwVersion, i.hwVersion, i.macAddress, i.bleVersion, i.tlsVersion} :: t.Some? && t.value != ""
  }
}
