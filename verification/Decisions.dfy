/** Decision calls: exactly when they succeed, what they answer otherwise, and what they write. */
module Decisions {
  import opened Wrappers
  import opened Entities
  import opened Columns
  import opened Consents
  import opened ConsentSteps
  import PollStability
  import SessionCheck

  /** The request a decision body names: by row id when UUID-shaped, else by the app's own id. */
  ghost predicate Named(c: Consent, key: string) {
    if IsUuid(key) then c.id == Lower(key) else c.consentId == Some(key)
  }

  /** What a caller can look up beforehand: pending, in its window, no session of it elsewhere. */
  ghost predicate Decidable(s: Store, i: nat, now: int)
    requires i < |s.consents|
  {
    var c := s.consents[i];
    && c.status.Pending? && now <= DecisionDeadline(c)
    && !SessionCheck.Elsewhere(s.sessions, c.sessionId, c.deviceId)
  }

  // -------------------------------------------------------------- approve, reject

  lemma DecideFinds(s: Store, id: string, i: nat)
    requires ConsentsInv(s) && i < |s.consents| && s.consents[i].id == Lower(id)
    ensures Find(s.consents, ById(id)) == Some(i)
  {
    PollStability.FindIs(s.consents, ById(id), i);
  }

  /** Exactly when approve and reject succeed. */
  lemma DecideSucceedsIff(s: Store, id: string, actor: string, d: Decision, now: int)
    requires ConsentsInv(s)
    ensures Consents.Decide(s, id, actor, d, now).1.Ok? <==>
      exists i: nat | i < |s.consents| :: s.consents[i].id == Lower(id) && Decidable(s, i, now)
  {
    forall i: nat | i < |s.consents| && s.consents[i].id == Lower(id)
      ensures Consents.Decide(s, id, actor, d, now).1.Ok? <==> Decidable(s, i, now)
    {
      DecideFinds(s, id, i);
      SessionCheck.RefusesIff(s.sessions, s.consents[i].sessionId, s.consents[i].deviceId);
    }
  }

  /** What a refused call answers, and that it changes nothing but a request that ran out of time. */
  lemma DecideRefusals(s: Store, id: string, actor: string, d: Decision, now: int)
    requires ConsentsInv(s)
    ensures var (s', r) := Consents.Decide(s, id, actor, d, now);
      && ((forall i | 0 <= i < |s.consents| :: s.consents[i].id != Lower(id)) ==> r == Err(NotFound) && s' == s)
      && forall i: nat | i < |s.consents| && s.consents[i].id == Lower(id) && !Decidable(s, i, now) ::
        Refused(s, s', i, now, actor, if r.Ok? then None else Some(r.error))
  {
    forall i: nat | i < |s.consents| && s.consents[i].id == Lower(id) && !Decidable(s, i, now)
      ensures var (s', r) := Consents.Decide(s, id, actor, d, now);
        Refused(s, s', i, now, actor, if r.Ok? then None else Some(r.error))
    {
      DecideFinds(s, id, i);
      SessionCheck.RefusesIff(s.sessions, s.consents[i].sessionId, s.consents[i].deviceId);
    }
  }

  /** The error and the effect of a decision on a request that is not open to it. */
  ghost predicate Refused(s: Store, s': Store, i: nat, now: int, actor: string, error: Option<ApiError>)
    requires i < |s.consents|
  {
    var c := s.consents[i];
    if !c.status.Pending? then error == Some(StatusIs(c.status)) && s' == s
    else if DecisionDeadline(c) < now then
      && error == Some(StatusIs(Expired))
      && Wrote(s, s', i, c.(status := Expired, abortedReason := Some("REQUEST_EXPIRED")),
               EndEvent(c, ConsentExpired, Some("REQUEST_EXPIRED")),
               AuditRow(c, ExpiredByWindow(c.txnRef), System, actor, "owner"))
    else error == Some(SessionMismatch) && s' == s
  }

  /** What a decision stores and records. */
  ghost predicate DecisionWritten(s: Store, s': Store, i: nat, actor: string, d: Decision, now: int)
    requires i < |s.consents|
  {
    var c := s.consents[i];
    match d
    case Approval =>
      Wrote(s, s', i, c.(status := Approved, approvedAt := Some(now)), EndEvent(c, ConsentApproved, None),
            AuditRow(c, DecisionApproved(c.title), Approve, actor, "owner"))
    case Refusal(reason) =>
      Wrote(s, s', i, c.(status := Rejected, abortedReason := reason, rejectedAt := Some(now)),
            EndEvent(c, ConsentRejected, reason),
            AuditRow(c, DecisionRejected(c.title), Reject, actor, "owner"))
  }

  lemma DecideWrites(s: Store, id: string, actor: string, d: Decision, now: int, i: nat)
    requires ConsentsInv(s) && i < |s.consents| && s.consents[i].id == Lower(id) && Decidable(s, i, now)
    ensures var (s', r) := Consents.Decide(s, id, actor, d, now);
      DecisionWritten(s, s', i, actor, d, now) && r == Ok(s'.consents[i])
  {
    DecideFinds(s, id, i);
    SessionCheck.RefusesIff(s.sessions, s.consents[i].sessionId, s.consents[i].deviceId);
  }

  // --------------------------------------------------------- POST /consent_response

  lemma ResolvesNamed(s: Store, key: string)
    requires ConsentsInv(s)
    ensures forall i: nat | i < |s.consents| && Named(s.consents[i], key) :: Resolve(s.consents, key) == Some(i)
    ensures Resolve(s.consents, key).None? <==> forall i | 0 <= i < |s.consents| :: !Named(s.consents[i], key)
  {
    forall i: nat | i < |s.consents| && Named(s.consents[i], key) ensures Resolve(s.consents, key) == Some(i) {
      PollStability.FindIs(s.consents, if IsUuid(key) then ById(key) else ByConsentId(key), i);
    }
  }

  /** A row id is its own lower case. */
  lemma OwnId(s: Store, i: nat)
    requires ConsentsInv(s) && i < |s.consents|
    ensures s.consents[i].id == Lower(s.consents[i].id)
  {}

  /** What the answer asks for. */
  ghost function Asked(answer: string, reason: Given): Option<Decision> {
    if answer == "approved" then Some(Approval)
    else if answer == "rejected" then
      Some(Refusal(if reason.Absent? then Some("OPERATOR_DECLINED")
                   else if reason.Null? then None else Some(reason.text)))
    else None
  }

  /** Exactly when a decision call succeeds. */
  lemma SubmitSucceedsIff(s: Store, actor: string, key: string, answer: string, reason: Given, now: int)
    requires ConsentsInv(s)
    ensures Consents.Submit(s, actor, key, answer, reason, now).1.Ok? <==>
      && (answer == "approved" || answer == "rejected")
      && exists i: nat | i < |s.consents| :: Named(s.consents[i], key) && Decidable(s, i, now)
  {
    ResolvesNamed(s, key);
    forall i: nat | i < |s.consents| && Named(s.consents[i], key)
      ensures Consents.Submit(s, actor, key, answer, reason, now).1.Ok?
        <==> (answer == "approved" || answer == "rejected") && Decidable(s, i, now)
    {
      SubmitOnRow(s, actor, key, answer, reason, now, i);
    }
  }

  /** A decision call is the decision its answer asks for, on the request it names. */
  lemma SubmitOnRow(s: Store, actor: string, key: string, answer: string, reason: Given, now: int, i: nat)
    requires ConsentsInv(s) && i < |s.consents| && Named(s.consents[i], key)
    ensures var (s', r) := Consents.Submit(s, actor, key, answer, reason, now);
      if answer != "approved" && answer != "rejected" then s' == s && r == Err(InvalidDecision)
      else if Decidable(s, i, now) then
        && DecisionWritten(s, s', i, actor, Asked(answer, reason).value, now)
        && r == Ok(SubmitResponse(if s.consents[i].consentId.Some? then s.consents[i].consentId.value
                                  else s.consents[i].id, answer, now))
      else Refused(s, s', i, now, actor, if r.Ok? then None else Some(r.error))
  {
    ResolvesNamed(s, key);
    OwnId(s, i);
    var id := s.consents[i].id;
    if answer == "approved" || answer == "rejected" {
      var d := Asked(answer, reason).value;
      assert "approved"[0] != "rejected"[0];
      assert d == if answer == "approved" then Approval else Refusal(StoredReason(reason));
      DecideSucceedsIff(s, id, actor, d, now);
      DecideRefusals(s, id, actor, d, now);
      if Decidable(s, i, now) { DecideWrites(s, id, actor, d, now, i); }
    }
    hide Consents.Decide, Decidable, Refused, ConsentsInv, Resolve;
  }

  /** A call that names no request changes nothing. */
  lemma SubmitNotFound(s: Store, actor: string, key: string, answer: string, reason: Given, now: int)
    requires ConsentsInv(s) && forall i | 0 <= i < |s.consents| :: !Named(s.consents[i], key)
    ensures Consents.Submit(s, actor, key, answer, reason, now) == (s, Err(NotFound))
  {
    ResolvesNamed(s, key);
  }
}
