/** What the polling operator may rely on: a decision, once read, never changes. */
module PollStability {
  import opened Wrappers
  import opened Entities
  import opened Consents
  import opened ConsentSteps
  import opened ConsentRuns
  import opened Protocol
  import Tampers
  import Transactions
  import Trails

  /** The consent table after any number of steps: no row lost, decided rows untouched. */
  ghost predicate Extends(rows: seq<Consent>, rows': seq<Consent>) {
    && |rows| <= |rows'|
    && forall i | 0 <= i < |rows| :: rows'[i] == rows[i] || Settles(rows[i], rows'[i])
  }

  lemma ExtendsTransitive(a: seq<Consent>, b: seq<Consent>, c: seq<Consent>)
    requires Extends(a, b) && Extends(b, c)
    ensures Extends(a, c)
  {
    forall i | 0 <= i < |a| ensures c[i] == a[i] || Settles(a[i], c[i]) {
      assert b[i] == a[i] || Settles(a[i], b[i]);
    }
  }

  /** Decisions are final over every run: a consent row is never lost and, once decided, never
      written again. */
  lemma {:induction false} DecisionsAreFinal(cfg: Config, s: Store, steps: seq<Step>)
    requires ConsentsInv(s) && ValidRun(cfg, s, steps)
    ensures Extends(s.consents, Run(cfg, s, steps).consents)
    ensures forall i | 0 <= i < |s.consents| && !s.consents[i].status.Pending? ::
      Run(cfg, s, steps).consents[i] == s.consents[i]
  {
    hide Effect, Permitted, ConsentsInv;
    if steps != [] {
      var before, last := steps[..|steps| - 1], steps[|steps| - 1];
      var mid := Run(cfg, s, before);
      DecisionsAreFinal(cfg, s, before);
      RunKeepsInv(cfg, s, before);
      StepEffect(cfg, mid, last);
      ExtendsTransitive(s.consents, mid.consents, Run(cfg, s, steps).consents);
    }
  }

  /** At most one row answers a lookup by a unique column. */
  lemma MatchIsUnique(rows: seq<Consent>, k: Key, i: nat, j: nat)
    requires KeysUnique(rows) && i < |rows| && j < |rows| && Matches(rows[i], k) && Matches(rows[j], k)
    ensures i == j
  {}

  lemma FindIs(rows: seq<Consent>, k: Key, i: nat)
    requires KeysUnique(rows) && i < |rows| && Matches(rows[i], k)
    ensures Find(rows, k) == Some(i)
  {
    MatchIsUnique(rows, k, i, Find(rows, k).value);
  }

  /** Whatever key resolves to a row keeps resolving to it. */
  lemma ResolveSurvives(rows: seq<Consent>, rows': seq<Consent>, key: string)
    requires KeysUnique(rows) && KeysUnique(rows') && Extends(rows, rows') && Resolve(rows, key).Some?
    ensures Resolve(rows', key) == Resolve(rows, key)
  {
    var i := Resolve(rows, key).value;
    assert rows'[i] == rows[i] || Settles(rows[i], rows'[i]);
    FindIs(rows', if IsUuid(key) then ById(key) else ByConsentId(key), i);
  }

  /** A decided row answers every later poll of any key that resolves to it, apart from the
      token's issue time. */
  lemma DecidedPoll(cfg: Config, s: Store, key: string, caller: string, steps: seq<Step>, later: int)
    requires ConsentsInv(s) && ValidRun(cfg, s, steps)
    requires Resolve(s.consents, key).Some? && !s.consents[Resolve(s.consents, key).value].status.Pending?
    requires IsParty(s.consents[Resolve(s.consents, key).value], caller)
    ensures Poll(cfg, Run(cfg, s, steps).consents, key, caller, later)
      == Ok(PollOf(cfg, s.consents[Resolve(s.consents, key).value], later))
  {
    hide Effect, Permitted;
    RunKeepsInv(cfg, s, steps);
    DecisionsAreFinal(cfg, s, steps);
    ResolveSurvives(s.consents, Run(cfg, s, steps).consents, key);
  }

  /** Poll stability: once a poll returns a decision, every later poll over any continuation
      returns the same id, txn, decision, payload, reason, decided_at and token claims. */
  lemma PollIsStable(cfg: Config, s: Store, key: string, caller: string, now: int, steps: seq<Step>, later: int)
    requires ConsentsInv(s) && ValidRun(cfg, s, steps)
    requires Poll(cfg, s.consents, key, caller, now).Ok? && Poll(cfg, s.consents, key, caller, now).value.decision.Some?
    ensures var p := Poll(cfg, Run(cfg, s, steps).consents, key, caller, later);
      p.Ok? && Untimed(p.value) == Untimed(Poll(cfg, s.consents, key, caller, now).value)
  {
    DecidedPoll(cfg, s, key, caller, steps, later);
  }

  /** What a poll tells, in both directions: no decision, token or reason exactly while pending,
      approved exactly when APPROVED, and a PIN only with an approval. */
  lemma PollTellsStatus(cfg: Config, rows: seq<Consent>, key: string, caller: string, now: int)
    requires Poll(cfg, rows, key, caller, now).Ok?
    ensures var p, c := Poll(cfg, rows, key, caller, now).value, rows[Resolve(rows, key).value];
      && (p.decision.None? <==> c.status.Pending?)
      && (p.decision == Some("approved") <==> c.status.Approved?)
      && (p.decision.Some? ==> p.decision.value == "approved" || p.decision.value == "rejected")
      && (p.token.Some? <==> p.decision.Some?)
      && (p.token.Some? ==>
        && Some(p.token.value.decision) == p.decision
        && p.token.value.txn == p.txn == c.txnRef && p.token.value.consentId == p.consentId)
      && (p.payload.Some? ==> c.status.Approved?)
      && (p.reason.Some? <==> !c.status.Pending? && !c.status.Approved?)
  {
    assert "approved"[0] == 'a' && "rejected"[0] == 'r';
  }

  /** The row a successful decision leaves behind. */
  lemma SubmitOutcome(s: Store, actor: string, key: string, answer: string, reason: Given, now: int)
    requires ConsentsInv(s) && Consents.Submit(s, actor, key, answer, reason, now).1.Ok?
    ensures var (s', r) := Consents.Submit(s, actor, key, answer, reason, now);
      var at := Resolve(s.consents, key);
      && at.Some? && |s'.consents| == |s.consents| && s.consents[at.value].status.Pending?
      && var c := s'.consents[at.value];
      && SameRequest(s.consents[at.value], c)
      && r.value.consentId == Trails.PublicId(c) && r.value.decision == answer
      && (answer == "approved" ==> c.status.Approved? && c.approvedAt == Some(r.value.decidedAt))
      && (answer != "approved" ==>
        && answer == "rejected" && c.status.Rejected? && c.rejectedAt == Some(r.value.decidedAt)
        && c.abortedReason == StoredReason(reason))
  {
    var i := Resolve(s.consents, key).value;
    FindIs(s.consents, ById(s.consents[i].id), i);
  }

  /** The PIN of the owner of the request a key resolves to. */
  ghost function OwnerPin(cfg: Config, s: Store, key: string): Option<string>
    requires Resolve(s.consents, key).Some?
  {
    var owner := FindUser(cfg.users, s.consents[Resolve(s.consents, key).value].ownerId);
    if owner.Some? then owner.value.pin else None
  }

  /** What POST /consent_response answers is what every later poll reads: same public id,
      decision, decision time, the owner's PIN for an approval and the reason for a rejection, a null
      reason reading like one left out. */
  lemma SubmitAgreesWithPolls(cfg: Config, s: Store, actor: string, key: string, answer: string,
                              reason: Given, now: int, steps: seq<Step>, caller: string, later: int)
    requires ConsentsInv(s) && s.clock <= now
    requires Consents.Submit(s, actor, key, answer, reason, now).1.Ok?
    requires ValidRun(cfg, Apply(cfg, s, Step(now, Op.Submit(actor, key, answer, reason))), steps)
    requires IsParty(s.consents[Resolve(s.consents, key).value], caller)
    ensures var s1 := Apply(cfg, s, Step(now, Op.Submit(actor, key, answer, reason)));
      var told := Consents.Submit(s, actor, key, answer, reason, now).1.value;
      var p := Poll(cfg, Run(cfg, s1, steps).consents, key, caller, later);
      && p.Ok?
      && p.value.consentId == told.consentId
      && p.value.decision == Some(told.decision)
      && p.value.decidedAt == Some(told.decidedAt)
      && p.value.reason == (if answer == "approved" then None
                            else Some(if reason.Text? then reason.text else OPERATOR_DECLINED))
      && p.value.payload == (if answer == "approved" then OwnerPin(cfg, s, key) else None)
  {
    var step := Step(now, Op.Submit(actor, key, answer, reason));
    var s1 := Apply(cfg, s, step);
    assert s1.consents == Consents.Submit(s, actor, key, answer, reason, now).0.consents;
    StepKeepsInv(cfg, s, step);
    SubmitOutcome(s, actor, key, answer, reason, now);
    hide Effect, Permitted, Consents.Submit, ConsentsInv, ConsentEffect;
    StepExtends(cfg, s, step);
    ResolveAfter(s, s1, key);
    DecidedPoll(cfg, s1, key, caller, steps, later);
  }

  lemma StepExtends(cfg: Config, s: Store, step: Step)
    requires ConsentsInv(s) && Permitted(s, step)
    ensures Extends(s.consents, Apply(cfg, s, step).consents)
  {
    hide Effect;
    StepEffect(cfg, s, step);
    assert RowsAdvance(s.consents, Apply(cfg, s, step).consents);
  }

  lemma ResolveAfter(s: Store, s1: Store, key: string)
    requires ConsentsInv(s) && ConsentsInv(s1) && Extends(s.consents, s1.consents) && Resolve(s.consents, key).Some?
    ensures Resolve(s1.consents, key) == Resolve(s.consents, key)
  {
    ResolveSurvives(s.consents, s1.consents, key);
  }

  /** After a committed cascade on a pending request, every poll of it over any continuation
      says rejected with the tamper reason, no payload and no decision time. */
  lemma PollAfterCascade(cfg: Config, s: Store, report: TamperEvent, now: int,
                         steps: seq<Step>, key: string, caller: string, later: int)
    requires ConsentsInv(s) && s.clock <= now && Truthy(report.consentId)
    requires AbortTarget(s.consents, report.consentId.value).Some?
    requires s.consents[AbortTarget(s.consents, report.consentId.value).value].status.Pending?
    requires ValidRun(cfg, Apply(cfg, s, Step(now, Op.Tamper(report, Transactions.Commits))), steps)
    requires Resolve(s.consents, key) == AbortTarget(s.consents, report.consentId.value)
    requires IsParty(s.consents[Resolve(s.consents, key).value], caller)
    ensures var s1 := Apply(cfg, s, Step(now, Op.Tamper(report, Transactions.Commits)));
      var p := Poll(cfg, Run(cfg, s1, steps).consents, key, caller, later);
      && p.Ok? && p.value.decision == Some("rejected") && p.value.payload.None?
      && p.value.reason == Some(TAMPER_DETECTED) && p.value.decidedAt.None?
  {
    var step := Step(now, Op.Tamper(report, Transactions.Commits));
    var s1 := Apply(cfg, s, step);
    var i := Resolve(s.consents, key).value;
    Tampers.LogOutcome(s, report, Transactions.Commits, now);
    assert s1.consents == s.consents[i := Aborted(s.consents[i], TAMPER_DETECTED, now)];
    StepKeepsInv(cfg, s, step);
    hide Effect, Permitted, ConsentsInv, ConsentEffect;
    StepExtends(cfg, s, step);
    ResolveAfter(s, s1, key);
    DecidedPoll(cfg, s1, key, caller, steps, later);
  }

  // ------------------------------------------------------- from the empty store

  /** The same along one run of the server: whatever a poll answers after the steps a, if it is a
      decision, a poll after any further steps b answers too. */
  lemma AnswersNeverChange(cfg: Config, start: int, a: seq<Step>, b: seq<Step>,
                           key: string, caller: string, now: int, later: int)
    requires ValidRun(cfg, EmptyStore(start), a) && ValidRun(cfg, EmptyStore(start), a + b)
    requires var p := Poll(cfg, Run(cfg, EmptyStore(start), a).consents, key, caller, now);
      p.Ok? && p.value.decision.Some?
    ensures var p := Poll(cfg, Run(cfg, EmptyStore(start), a).consents, key, caller, now);
      var p' := Poll(cfg, Run(cfg, EmptyStore(start), a + b).consents, key, caller, later);
      p'.Ok? && Untimed(p'.value) == Untimed(p.value)
  {
    hide Effect, Permitted, ConsentsInv, Poll;
    EmptyInv(start);
    RunKeepsInv(cfg, EmptyStore(start), a);
    RunSplit(cfg, EmptyStore(start), a, b);
    PollIsStable(cfg, Run(cfg, EmptyStore(start), a), key, caller, now, b, later);
  }

  /** And a cascade that commits anywhere in a run is what every later poll of its request tells. */
  lemma CascadeIsTold(cfg: Config, start: int, a: seq<Step>, report: TamperEvent, now: int, b: seq<Step>,
                      key: string, caller: string, later: int)
    requires ValidRun(cfg, EmptyStore(start), a)
    requires ValidRun(cfg, EmptyStore(start), a + [Step(now, Op.Tamper(report, Transactions.Commits))] + b)
    requires var rows := Run(cfg, EmptyStore(start), a).consents;
      && Truthy(report.consentId) && Resolve(rows, key).Some?
      && Resolve(rows, key) == AbortTarget(rows, report.consentId.value)
      && rows[Resolve(rows, key).value].status.Pending? && IsParty(rows[Resolve(rows, key).value], caller)
    ensures var steps := a + [Step(now, Op.Tamper(report, Transactions.Commits))] + b;
      var p := Poll(cfg, Run(cfg, EmptyStore(start), steps).consents, key, caller, later);
      && p.Ok? && p.value.decision == Some("rejected") && p.value.payload.None?
      && p.value.reason == Some(TAMPER_DETECTED) && p.value.decidedAt.None?
  {
    hide Effect, ConsentsInv, Poll, Resolve, AbortTarget;
    var s0, step := EmptyStore(start), Step(now, Op.Tamper(report, Transactions.Commits));
    EmptyInv(start);
    RunKeepsInv(cfg, s0, a);
    RunSplit(cfg, s0, a + [step], b);
    assert (a + [step])[..|a|] == a;
    assert Run(cfg, s0, a + [step]) == Apply(cfg, Run(cfg, s0, a), step);
    PollAfterCascade(cfg, Run(cfg, s0, a), report, now, b, key, caller, later);
  }
}
