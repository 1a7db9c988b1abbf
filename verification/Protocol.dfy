/** Every service call as one atomic step on the store, and runs of such steps. */
module Protocol {
  import opened Wrappers
  import opened Entities
  import Assignments
  import Consents
  import Sessions
  import Tampers
  import Transactions

  datatype Op =
    | Create(caller: string, body: Consents.CreateBody, newId: string)
    | Decide(id: string, actorId: string, decision: Consents.Decision)
    | Submit(actorId: string, key: string, answer: string, reason: Consents.Given)
    | Abort(key: string, abortReason: string)
    | Sweep
    | Tamper(report: TamperEvent, fault: Transactions.Fault)
    | StartSession(dto: Sessions.StartDto, choices: Sessions.Choices)
    | UpdateSession(sessionId: string, state: SessionState)
    | EndSession(sessionId: string, endReason: EndReason)
    | EndDevice(deviceId: string, endReason: EndReason)
    | Assign(deviceId: string, operatorId: string, assignedBy: string, pick: Option<nat>)
    | Remove(deviceId: string, operatorId: string, pick: Option<nat>)
    | PostEvent(event: Event)
    | Login(who: string)

  datatype Step = Step(now: int, op: Op)

  function LoginRow(who: string): Audit {
    Audit(LoggedIn(who), AuditType.Login, Some(who), None, None, None, None, None, None)
  }

  /** The clock never runs back, generated row ids are fresh lower-case UUIDs, unordered lookups
      answer a matching row, and a posted event is a client's (or the server's push log). */
  predicate Permitted(s: Store, step: Step) {
    && s.clock <= step.now
    && match step.op
       case Create(_, _, newId) =>
         IsUuid(newId) && Lower(newId) == newId && forall i | 0 <= i < |s.consents| :: s.consents[i].id != newId
       case StartSession(dto, choices) => Sessions.LegalChoices(s, dto, choices)
       case Assign(device, operator, _, pick) => Assignments.AnyActive(s.assignments, device, operator, pick)
       case Remove(device, operator, pick) => Assignments.AnyActive(s.assignments, device, operator, pick)
       case PostEvent(e) => e.origin.Client? || e.eventType.FcmPingSent?
       case _ => true
  }

  /** The effect of a call on the tables. */
  function Effect(cfg: Config, s: Store, step: Step): Store
    requires Permitted(s, step)
  {
    match step.op
    case Create(caller, body, newId) => Consents.CreateConsentRequest(cfg, s, caller, body, newId, step.now).0
    case Decide(id, actor, d) => Consents.Decide(s, id, actor, d, step.now).0
    case Submit(actor, key, answer, reason) => Consents.Submit(s, actor, key, answer, reason, step.now).0
    case Abort(key, reason) => Consents.MarkAborted(s, key, reason, step.now)
    case Sweep => Consents.ExpireStalePending(s, step.now).0
    case Tamper(report, fault) => Tampers.Log(s, report, fault, step.now).0
    case StartSession(dto, choices) => Sessions.Start(s, dto, step.now, choices).0
    case UpdateSession(sid, state) => Sessions.UpdateState(s, sid, state).0
    case EndSession(sid, reason) => Sessions.End(s, sid, reason, step.now).0
    case EndDevice(device, reason) => Sessions.EndAllActive(s, device, reason, step.now).0
    case Assign(device, operator, assignedBy, pick) => Assignments.Assign(cfg, s, device, operator, assignedBy, pick).0
    case Remove(device, operator, pick) => Assignments.Remove(s, device, operator, pick).0
    case PostEvent(e) => s.(events := s.events + [e])
    case Login(who) => s.(audits := s.audits + [LoginRow(who)])
  }

  function Apply(cfg: Config, s: Store, step: Step): Store
    requires Permitted(s, step)
  {
    Effect(cfg, s, step).(clock := step.now)
  }

  // -------------------------------------------------------------------- runs

  /** Whether the steps can be taken one after another from a store. */
  predicate ValidRun(cfg: Config, s: Store, steps: seq<Step>)
    decreases |steps|, 0
  {
    steps == [] ||
    (ValidRun(cfg, s, steps[..|steps| - 1]) && Permitted(Run(cfg, s, steps[..|steps| - 1]), steps[|steps| - 1]))
  }

  function Run(cfg: Config, s: Store, steps: seq<Step>): Store
    requires ValidRun(cfg, s, steps)
    decreases |steps|, 1
  {
    if steps == [] then s
    else Apply(cfg, Run(cfg, s, steps[..|steps| - 1]), steps[|steps| - 1])
  }

  /** Runs compose. */
  lemma {:induction false} RunSplit(cfg: Config, s: Store, a: seq<Step>, b: seq<Step>)
    requires ValidRun(cfg, s, a + b)
    ensures ValidRun(cfg, s, a) && ValidRun(cfg, Run(cfg, s, a), b)
    ensures Run(cfg, s, a + b) == Run(cfg, Run(cfg, s, a), b)
    decreases |b|
  {
    hide Effect, Permitted;
    if b == [] {
      assert a + b == a;
    } else {
      assert (a + b)[..|a + b| - 1] == a + b[..|b| - 1];
      RunSplit(cfg, s, a, b[..|b| - 1]);
    }
  }
}
