/** Aborts: which request, which verdict, which rows. */
module Aborts {
  import opened Wrappers
  import opened Entities
  import opened Columns
  import opened Consents
  import opened ConsentSteps
  import PollStability

  /** The key names this request: its row id if UUID-shaped; failing that, some request's app id;
      failing that too, its transaction. */
  ghost predicate Named(rows: seq<Consent>, i: nat, key: string)
    requires i < |rows|
  {
    var byId := IsUuid(key) && exists j | 0 <= j < |rows| :: rows[j].id == Lower(key);
    var byApp := exists j | 0 <= j < |rows| :: rows[j].consentId == Some(key);
    if byId then rows[i].id == Lower(key)
    else if byApp then rows[i].consentId == Some(key)
    else rows[i].txnRef == key
  }

  lemma NamedIsTarget(rows: seq<Consent>, key: string)
    requires KeysUnique(rows)
    ensures forall i: nat | i < |rows| && Named(rows, i, key) :: AbortTarget(rows, key) == Some(i)
    ensures AbortTarget(rows, key).None? <==> forall i: nat | i < |rows| :: !Named(rows, i, key)
  {
    forall i: nat | i < |rows| && Named(rows, i, key) ensures AbortTarget(rows, key) == Some(i) {
      if IsUuid(key) && rows[i].id == Lower(key) { PollStability.FindIs(rows, ById(key), i); }
      if rows[i].consentId == Some(key) { PollStability.FindIs(rows, ByConsentId(key), i); }
      if rows[i].txnRef == key { PollStability.FindIs(rows, ByTxn(key), i); }
    }
    var at := AbortTarget(rows, key);
    if at.Some? { assert Named(rows, at.value, key); }
  }

  /** The verdict of a reason: tampering, expiry, the four rejections the specification names, and
      an abort for anything else, which is stored as a rejection too. */
  ghost function Verdict(reason: string): (Status, EventType) {
    if reason in {"TAMPER_DETECTED", "TAMPER_ABORTED"} then (TamperAborted, ConsentTamperAborted)
    else if reason == "REQUEST_EXPIRED" then (Expired, ConsentExpired)
    else if reason in {"OPERATOR_DECLINED", "INVALID_REQUEST", "ERR_DUPLICATE_TXN", "ERR_INVALID_PAYLOAD"}
    then (Rejected, ConsentRejected)
    else (Rejected, ConsentAborted)
  }

  /** An abort settles the pending request its key names by the verdict of its reason, stamped only
      when that is a rejection, and records it once; anything else it leaves alone. */
  lemma AbortWrites(s: Store, key: string, reason: string, now: int)
    requires ConsentsInv(s)
    ensures var s' := MarkAborted(s, key, reason, now);
      && ((forall i: nat | i < |s.consents| && Named(s.consents, i, key) :: !s.consents[i].status.Pending?) ==> s' == s)
      && forall i: nat | i < |s.consents| && Named(s.consents, i, key) && s.consents[i].status.Pending? ::
        var c, (status, t) := s.consents[i], Verdict(reason);
        Wrote(s, s', i,
              c.(status := status, abortedReason := Some(reason),
                 rejectedAt := if status.Rejected? then Some(now) else None),
              EndEvent(c, t, Some(reason)),
              AuditRow(c, SettledOutOfBand(status, c.txnRef), System, "SYSTEM", "system"))
  {
    NamedIsTarget(s.consents, key);
    var at := AbortTarget(s.consents, key);
    if at.Some? { assert Named(s.consents, at.value, key); }
    assert Verdict(reason) == Classify(reason);
    hide AbortTarget, Named, Verdict, Classify, KeysUnique;
  }
}
