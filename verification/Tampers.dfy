/** The tamper cascade: one transaction over the tamper, consent and session tables. */
module Tampers {
  import opened Wrappers
  import opened Entities
  import opened Transactions
  import Consents
  import Sessions

  function DetectedEvent(t: TamperEvent): Event {
    Event(Server, TamperDetected, Some(FwToApp), t.sessionId, t.consentId, None, None)
  }

  /** The cascade's consent step: abort what the report refers to, if anything. */
  function AbortStep(s: Store, t: TamperEvent, now: int, passed: bool): seq<Statement> {
    if Truthy(t.consentId)
    then Consents.AbortProgram(s, t.consentId.value, Consents.TAMPER_DETECTED, now, passed) else []
  }

  /** The cascade's statements: store the report, abort the request it names, close the device's
      sessions. `passed` says whether the manager is handed on to the two service calls. */
  function Cascade(s: Store, t: TamperEvent, now: int, passed: bool): seq<Statement> {
    [Statement(InsertTamper(t), true)]
    + AbortStep(s, t, now, passed)
    + [Statement(EndOpen(t.deviceId, ByTamper, now), passed)]
  }

  /** The TAMPER_DETECTED event is written after the commit, and only then. */
  function Log(s: Store, t: TamperEvent, fault: Fault, now: int): (Store, Result<TamperEvent, ApiError>) {
    var (s', ok) := Transact(s, Cascade(s, t, now, true), fault);
    if ok then (s'.(events := s'.events + [DetectedEvent(t)]), Ok(t)) else (s', Err(DatabaseFailure))
  }

  // --------------------------------------------------------------- its outcome

  /** The cascade's consent step, on its own. */
  function AbortReferenced(s: Store, t: TamperEvent, now: int): Store {
    if Truthy(t.consentId) then Consents.MarkAborted(s, t.consentId.value, Consents.TAMPER_DETECTED, now) else s
  }

  /** Whether a rejected statement comes after the abort's trail rows: the tamper row is statement 0,
      the consent's save statement 1. */
  predicate AfterAbort(fault: Fault) {
    fault.Rejects? && fault.statement >= 2
  }

  /** An abort of its own leaves what its statements leave. */
  lemma AbortIsItsProgram(s: Store, key: string, reason: string, now: int)
    ensures Rollback(SendAll(Begin(s), Consents.AbortProgram(s, key, reason, now, false)))
      == Consents.MarkAborted(s, key, reason, now)
  {
    var program := Consents.AbortProgram(s, key, reason, now, false);
    if program != [] {
      Unroll3(Begin(s), program);
    }
  }

  lemma Unroll3(x: Tx, p: seq<Statement>)
    requires |p| == 3
    ensures SendAll(x, p) == Send(Send(Send(x, p[0]), p[1]), p[2])
  {
    SendFirst(x, p);
    SendFirst(Send(x, p[0]), p[1..]);
    SendFirst(Send(Send(x, p[0]), p[1]), p[1..][1..]);
  }

  /** The cascade's statements in closed form, for any abort step of that shape and for none. */
  lemma ExecuteCascade(s: Store, a: Write, abort: seq<Statement>, b: Write, fault: Fault)
    requires abort == [] || SaveThenTrail(abort)
    ensures Execute(Begin(s), [Statement(a, true)] + abort + [Statement(b, true)], fault) ==
      var trail := if abort == [] then s else Perform(Perform(s, abort[1].write), abort[2].write);
      if fault == Rejects(0) then (Tx(s, []), false)
      else if fault == Rejects(1) then (Tx(s, [a]), false)
      else if abort == [] then (Tx(s, [a] + [b]), true)
      else if fault == Rejects(2) then (Tx(trail, [a] + [abort[0].write]), false)
      else (Tx(trail, [a, abort[0].write, b]), true)
  {
    hide Perform, PerformAll;
    var first, last := Statement(a, true), Statement(b, true);
    assert [first] + abort + [last] == [first] + (abort + [last]);
    ExecuteAppend(Begin(s), [first], abort + [last], fault);
    ExecuteOne(Begin(s), first, fault);
    if fault != Rejects(0) {
      var x1 := Tx(s, [a]);
      assert Send(Begin(s), first) == x1;
      ExecuteAppend(x1, abort, [last], fault);
      if abort == [] {
        ExecuteOne(x1, last, fault);
      } else {
        ExecuteSaveThenTrail(x1, abort, fault);
        if fault != Rejects(1) {
          var x2 := Tx(Perform(Perform(s, abort[1].write), abort[2].write), [a] + [abort[0].write]);
          ExecuteOne(x2, last, fault);
          assert x2.pending + [b] == [a, abort[0].write, b];
        }
      }
    }
  }

  /** The abort step of a cascade, by itself and as three statements. */
  lemma AbortStepOutcome(s: Store, t: TamperEvent, now: int, tampers: seq<TamperEvent>)
    ensures var p, s1 := AbortStep(s, t, now, true), s.(tampers := tampers);
      if p == [] then AbortReferenced(s1, t, now) == s1
      else
        && SaveThenTrail(p) && p[0].write.SaveConsent? && p[0].write.at < |s.consents|
        && p[1].write.AppendEvent? && p[2].write.AppendAudit?
        && AbortReferenced(s1, t, now) == s1.(consents := s.consents[p[0].write.at := p[0].write.image],
             events := s.events + [p[1].write.event], audits := s.audits + [p[2].write.audit])
  {}

  lemma PerformTwo(s: Store, a: Write, b: Write)
    ensures PerformAll(s, [a] + [b]) == Perform(Perform(s, a), b)
  {
    assert PerformAll(s, [a]) == Perform(s, a) by { assert [a][..0] == []; }
    assert ([a] + [b])[..1] == [a];
  }

  lemma PerformThree(s: Store, a: Write, b: Write, c: Write)
    ensures PerformAll(s, [a, b, c]) == Perform(Perform(Perform(s, a), b), c)
  {
    assert [a, b, c][..2] == [a] + [b];
    PerformTwo(s, a, b);
  }

  lemma TransactCascade(s: Store, a: Write, abort: seq<Statement>, b: Write, fault: Fault)
    requires abort == [] || SaveThenTrail(abort)
    ensures Transact(s, [Statement(a, true)] + abort + [Statement(b, true)], fault) ==
      var trail := if abort == [] then s else Perform(Perform(s, abort[1].write), abort[2].write);
      if fault.Commits? then
        (Perform(if abort == [] then Perform(trail, a) else Perform(Perform(trail, a), abort[0].write), b), true)
      else (if AfterAbort(fault) then trail else s, false)
  {
    ExecuteCascade(s, a, abort, b, fault);
    hide Execute, Perform;
    if abort == [] {
      PerformTwo(s, a, b);
    } else {
      PerformThree(Perform(Perform(s, abort[1].write), abort[2].write), a, abort[0].write, b);
    }
  }

  /** The transaction, statement by statement, in closed form: all three tables and the report's
      event when it commits; otherwise the store as it was, plus the abort's two trail rows when the
      rejected statement comes after them. */
  lemma LogOutcome(s: Store, t: TamperEvent, fault: Fault, now: int)
    ensures Log(s, t, fault, now) ==
      if fault.Commits? then
        var s1 := AbortReferenced(s.(tampers := s.tampers + [t]), t, now);
        var s2 := Sessions.EndAllActive(s1, t.deviceId, ByTamper, now).0;
        (s2.(events := s2.events + [DetectedEvent(t)]), Ok(t))
      else if AfterAbort(fault) then
        var s1 := AbortReferenced(s, t, now);
        (s.(events := s1.events, audits := s1.audits), Err(DatabaseFailure))
      else (s, Err(DatabaseFailure))
  {
    var a, b, abort := InsertTamper(t), EndOpen(t.deviceId, ByTamper, now), AbortStep(s, t, now, true);
    AbortStepOutcome(s, t, now, s.tampers + [t]);
    AbortStepOutcome(s, t, now, s.tampers);
    TransactCascade(s, a, abort, b, fault);
    hide Transact, AbortReferenced, AbortStep;
    assert Cascade(s, t, now, true) == [Statement(a, true)] + abort + [Statement(b, true)];
  }

  /** The program runs as its three calls do, the abort reading what the transaction sees by then. */
  lemma CascadeByParts(s: Store, t: TamperEvent, now: int, fault: Fault)
    ensures Execute(Begin(s), Cascade(s, t, now, true), fault) ==
      var (x1, stored) := Execute(Begin(s), [Statement(InsertTamper(t), true)], fault);
      var (x2, aborted) := Execute(x1, AbortStep(x1.View(), t, now, true), fault);
      if !stored then (x1, false)
      else if !aborted then (x2, false)
      else Execute(x2, [Statement(EndOpen(t.deviceId, ByTamper, now), true)], fault)
  {
    var first, last := Statement(InsertTamper(t), true), Statement(EndOpen(t.deviceId, ByTamper, now), true);
    var abort := AbortStep(s, t, now, true);
    assert Cascade(s, t, now, true) == [first] + (abort + [last]);
    ExecuteAppend(Begin(s), [first], abort + [last], fault);
    ExecuteOne(Begin(s), first, fault);
    var x1 := Send(Begin(s), first);
    ExecuteAppend(x1, abort, [last], fault);
    assert x1.pending == [first.write] && [first.write][..0] == [];
    assert x1.View() == Perform(PerformAll(s, []), first.write);
    AbortStepReads(s, x1.View(), t, now);
    hide Execute;
  }

  lemma AbortStepReads(s: Store, s1: Store, t: TamperEvent, now: int)
    requires s1.consents == s.consents
    ensures AbortStep(s1, t, now, true) == AbortStep(s, t, now, true)
  {}
}
