/** Filing: what a request stores, what a refused filing answers, and who filed each stored request. */
module Filings {
  import opened Wrappers
  import opened Entities
  import opened Columns
  import opened Consents
  import opened ConsentSteps
  import opened Protocol
  import ConsentRuns
  import Frames
  import PollStability
  import SessionCheck

  /** The decision window a filing asks for, in milliseconds: the device's high setting exactly for
      priority "high" in any case, else its normal one (one or two minutes when no device is named). */
  ghost function Window(body: CreateBody, device: Device): int {
    var high := body.priority.Some? && Lower(body.priority.value) == "high";
    if body.deviceId == "" then (if high then 60000 else 120000)
    else 1000 * (if high then device.consentDecisionHighSec else device.consentDecisionNormalSec)
  }

  /** A stored request is the one this filing asked for, column by column. */
  ghost predicate AsAsked(cfg: Config, c: Consent, caller: string, body: CreateBody, newId: string, now: int) {
    var device := FindDevice(cfg.devices, body.deviceId);
    && device.Some? && device.value.ownerId == Some(c.ownerId) && c.operatorId == caller
    && c.id == newId && c.txnRef == body.txn && c.consentId == body.consentId && c.title == body.title
    && c.priority == Some(if body.priority.Some? then body.priority.value else "normal")
    && c.expiresAt == body.expiresAt && c.createdAt == now
    && c.decisionDeadlineMs == Some(now + Window(body, device.value))
    && c.sessionId == body.sessionId && c.deviceId == Some(body.deviceId)
  }

  ghost predicate Undecided(c: Consent) {
    c.status.Pending? && c.abortedReason.None? && c.approvedAt.None? && c.rejectedAt.None?
  }

  /** What a successful filing stores and records. */
  lemma FilingWrites(cfg: Config, s: Store, caller: string, body: CreateBody, newId: string, now: int)
    requires CreateConsentRequest(cfg, s, caller, body, newId, now).1.Ok?
    ensures var (s', r) := CreateConsentRequest(cfg, s, caller, body, newId, now);
      var c := r.value;
      && AsAsked(cfg, c, caller, body, newId, now) && Undecided(c)
      && s' == s.(consents := s.consents + [c],
           events := s.events + [EndEvent(c, ConsentRequested, None).(direction := Some(AppToBe))],
           audits := s.audits + [AuditRow(c, RequestCreated(c.txnRef), System, caller, "operator")])
  {
    assert Lower("normal")[0] == 'n' && "high"[0] == 'h';
  }

  // ------------------------------------------------------------------- refusals

  /** The device is active and its owner is a known user. */
  ghost predicate HasOwner(cfg: Config, body: CreateBody) {
    var device := FindDevice(cfg.devices, body.deviceId);
    && device.Some? && device.value.isActive && device.value.ownerId.Some?
    && FindUser(cfg.users, device.value.ownerId.value).Some?
  }

  ghost predicate OwnerDenied(cfg: Config, body: CreateBody)
    requires HasOwner(cfg, body)
  {
    SessionCheck.Filled(body.ownerId) && body.ownerId != FindDevice(cfg.devices, body.deviceId).value.ownerId
  }

  ghost predicate OwnerRole(cfg: Config, body: CreateBody)
    requires HasOwner(cfg, body)
  {
    FindUser(cfg.users, FindDevice(cfg.devices, body.deviceId).value.ownerId.value).value.role.Owner?
  }

  ghost function Named(cfg: Config, body: CreateBody): Option<User> {
    if SessionCheck.Filled(body.operatorId) then FindUser(cfg.users, body.operatorId.value) else None
  }

  ghost predicate OnDevice(s: Store, deviceId: string, operatorId: string) {
    exists a | a in s.assignments :: a.deviceId == deviceId && a.operatorId == operatorId && a.isActive
  }

  /** The owner side passes. */
  ghost predicate OwnerPasses(cfg: Config, body: CreateBody) {
    HasOwner(cfg, body) && !OwnerDenied(cfg, body) && OwnerRole(cfg, body)
  }

  /** The named operator exists, has the role, is the caller and is assigned to the device. */
  ghost predicate OperatorPasses(cfg: Config, s: Store, caller: string, body: CreateBody) {
    && Named(cfg, body).Some? && Named(cfg, body).value.role.Operator?
    && body.operatorId == Some(caller) && OnDevice(s, body.deviceId, caller)
  }

  ghost predicate PinPasses(cfg: Config, caller: string, body: CreateBody)
    requires HasOwner(cfg, body)
  {
    cfg.hardPin ==> FindDevice(cfg.devices, body.deviceId).value.ownerId == Some("USR-001") && caller == "USR-002"
  }

  ghost predicate PartiesPass(cfg: Config, s: Store, caller: string, body: CreateBody) {
    OwnerPasses(cfg, body) && OperatorPasses(cfg, s, caller, body) && PinPasses(cfg, caller, body)
  }

  /** Somebody else's device, name or assignment. */
  ghost predicate NotTheirs(cfg: Config, s: Store, caller: string, body: CreateBody)
    requires HasOwner(cfg, body)
  {
    || OwnerDenied(cfg, body)
    || (OwnerRole(cfg, body) && Named(cfg, body).Some? && Named(cfg, body).value.role.Operator?
        && (body.operatorId != Some(caller) || !OnDevice(s, body.deviceId, caller)))
  }

  /** Which refusal a party check answers: not found for an unknown device owner or operator,
      forbidden for somebody else's device, name or assignment, bad party for what is left. */
  lemma PartyRefusals(cfg: Config, s: Store, caller: string, body: CreateBody)
    ensures var r := ValidateParties(cfg, s, body.ownerId, body.operatorId, caller, body.deviceId);
      && (r.Ok? <==> PartiesPass(cfg, s, caller, body))
      && (r == Err(NotFound) <==>
        || !HasOwner(cfg, body)
        || (OwnerPasses(cfg, body) && SessionCheck.Filled(body.operatorId) && Named(cfg, body).None?))
      && (r == Err(Forbidden) <==> HasOwner(cfg, body) && NotTheirs(cfg, s, caller, body))
      && (r.Err? ==> r.error.NotFound? || r.error.Forbidden? || r.error.BadParty?)
  {
    if Named(cfg, body).Some? {
      var operator := body.operatorId.value;
      assert HasAssignment(s.assignments, body.deviceId, operator) <==> OnDevice(s, body.deviceId, operator);
    }
    hide HasAssignment, OnDevice;
  }

  ghost predicate SessionTaken(s: Store, body: CreateBody) {
    SessionCheck.Filled(body.sessionId)
    && exists c | c in s.consents :: c.sessionId == body.sessionId && c.status.Pending?
  }

  ghost predicate KeyTaken(s: Store, body: CreateBody, newId: string) {
    exists c | c in s.consents ::
      c.id == newId || c.txnRef == body.txn || (body.consentId.Some? && c.consentId == body.consentId)
  }

  /** Which refusal a filing between proper parties answers. */
  lemma FilingRefusals(cfg: Config, s: Store, caller: string, body: CreateBody, newId: string, now: int)
    ensures var (s', r) := CreateConsentRequest(cfg, s, caller, body, newId, now);
      var elsewhere := SessionCheck.Elsewhere(s.sessions, body.sessionId, Some(body.deviceId));
      var passes := PartiesPass(cfg, s, caller, body);
      && (!passes ==>
        r.Err? && Err(r.error) == ValidateParties(cfg, s, body.ownerId, body.operatorId, caller, body.deviceId))
      && (r == Err(SessionMismatch) <==> passes && elsewhere)
      && (r == Err(SessionHasPending) <==> passes && !elsewhere && SessionTaken(s, body))
      && (r == Err(DuplicateKey) <==> passes && !elsewhere && !SessionTaken(s, body) && KeyTaken(s, body, newId))
      && (r.Err? ==> s' == s)
  {
    PartyRefusals(cfg, s, caller, body);
    SessionCheck.RefusesIff(s.sessions, body.sessionId, Some(body.deviceId));
    hide ValidateParties, PartiesPass, SessionConsistent;
  }

  // ------------------------------------------------------------- over every run

  /** The step that filed the i-th request of a run. */
  ghost function Filer(cfg: Config, s: Store, steps: seq<Step>, i: nat): Option<Step>
    requires ValidRun(cfg, s, steps)
  {
    if steps == [] then None
    else
      var before, last := steps[..|steps| - 1], steps[|steps| - 1];
      if i < |Run(cfg, s, before).consents| then Filer(cfg, s, before, i) else Some(last)
  }

  /** Over every run, each stored request is the one the filing that added it asked for: whatever
      happened since, its keys, parties, session, priority and deadline are those of that call. */
  lemma {:induction false} FiledAsAsked(cfg: Config, start: int, steps: seq<Step>, i: nat)
    requires ValidRun(cfg, EmptyStore(start), steps) && i < |Run(cfg, EmptyStore(start), steps).consents|
    ensures var filer := Filer(cfg, EmptyStore(start), steps, i);
      && filer.Some? && filer.value in steps && filer.value.op.Create?
      && var op := filer.value.op;
         AsAsked(cfg, Run(cfg, EmptyStore(start), steps).consents[i], op.caller, op.body, op.newId, filer.value.now)
  {
    hide Effect, Permitted, ConsentsInv;
    var s0 := EmptyStore(start);
    assert steps != [];
    var before, last := steps[..|steps| - 1], steps[|steps| - 1];
    var mid, s := Run(cfg, s0, before), Run(cfg, s0, steps);
    ConsentRuns.EmptyInv(start);
    ConsentRuns.RunKeepsInv(cfg, s0, before);
    if i < |mid.consents| {
      FiledAsAsked(cfg, start, before, i);
      PollStability.StepExtends(cfg, mid, last);
      assert SameRequest(mid.consents[i], s.consents[i]);
      var filer := Filer(cfg, s0, before, i).value;
      StaysAsAsked(cfg, mid.consents[i], s.consents[i], filer);
    } else {
      NewlyFiled(cfg, mid, last, i);
    }
  }

  lemma StaysAsAsked(cfg: Config, c: Consent, c': Consent, filer: Step)
    requires filer.op.Create? && SameRequest(c, c')
    requires AsAsked(cfg, c, filer.op.caller, filer.op.body, filer.op.newId, filer.now)
    ensures AsAsked(cfg, c', filer.op.caller, filer.op.body, filer.op.newId, filer.now)
  {}

  lemma NewlyFiled(cfg: Config, s: Store, step: Step, i: nat)
    requires Permitted(s, step) && |s.consents| <= i < |Apply(cfg, s, step).consents|
    ensures step.op.Create?
    ensures AsAsked(cfg, Apply(cfg, s, step).consents[i], step.op.caller, step.op.body, step.op.newId, step.now)
  {
    if !step.op.Create? { Frames.OnlyFilingAdds(cfg, s, step); }
    var op := step.op;
    FilingRefusals(cfg, s, op.caller, op.body, op.newId, step.now);
    if CreateConsentRequest(cfg, s, op.caller, op.body, op.newId, step.now).1.Ok? {
      FilingWrites(cfg, s, op.caller, op.body, op.newId, step.now);
    }
    hide CreateConsentRequest, AsAsked;
  }
}
