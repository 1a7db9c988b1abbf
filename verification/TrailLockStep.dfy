/** Lock-step of ble_event_audit and audit_logs with the consent table, over every run. */
module TrailLockStep {
  import opened Wrappers
  import opened Entities
  import opened Trails
  import opened ConsentSteps
  import opened ConsentRuns
  import opened Protocol
  import Tampers

  ghost function Bit(b: bool): nat {
    if b then 1 else 0
  }

  /** The trail of a stored request: its CONSENT_REQUESTED pair, then `orphans` pairs left by
      rolled-back cascades, then one terminal pair exactly when the request is decided. */
  ghost predicate TrailOf(s: Store, i: nat, orphans: nat)
    requires i < |s.consents|
  {
    var c := s.consents[i];
    var es, au := EventsFor(s.events, c.txnRef), AuditsFor(s.audits, c.txnRef);
    && |es| == |au| == 1 + orphans + Bit(!c.status.Pending?)
    && RequestedPair(c, es[0], au[0])
    && (forall k | 1 <= k <= orphans :: OrphanPair(c, es[k], au[k]))
    && (!c.status.Pending? ==> SettledPair(c, es[1 + orphans], au[1 + orphans]))
  }

  /** How many rolled-back cascades of a run wrote about a transaction. */
  ghost function Orphans(cfg: Config, s: Store, steps: seq<Step>, txn: string): nat
    requires ValidRun(cfg, s, steps)
  {
    if steps == [] then 0
    else
      var before, last := steps[..|steps| - 1], steps[|steps| - 1];
      var mid := Run(cfg, s, before);
      var at := OrphanRow(mid, last);
      Orphans(cfg, s, before, txn) + Bit(at.Some? && mid.consents[at.value].txnRef == txn)
  }

  /** Entries name the request, not its decision, so they stay true of a settled row. */
  lemma MirrorSurvives(c: Consent, c': Consent, e: Event, a: Audit)
    requires SameRequest(c, c') && Mirror(e, a, c)
    ensures Mirror(e, a, c')
  {}

  /** One step extends the trail of a stored request as its status demands. */
  lemma TrailAdvances(s: Store, s': Store, i: nat, orphans: nat, orphaned: bool)
    requires i < |s.consents| <= |s'.consents| && TrailOf(s, i, orphans)
    requires s'.consents[i] == s.consents[i] || Settles(s.consents[i], s'.consents[i])
    requires TrailStep(s, s', i, orphaned)
    ensures TrailOf(s', i, orphans + Bit(orphaned))
  {
    var c, c' := s.consents[i], s'.consents[i];
    var es, au := EventsFor(s.events, c.txnRef), AuditsFor(s.audits, c.txnRef);
    var es', au' := EventsFor(s'.events, c.txnRef), AuditsFor(s'.audits, c.txnRef);
    if c' != c || orphaned {
      assert forall k | 0 <= k < |es| :: es'[k] == es'[..|es|][k] == es[k];
      assert forall k | 0 <= k < |au| :: au'[k] == au'[..|au|][k] == au[k];
      forall k | 0 <= k < |es| ensures Mirror(es'[k], au'[k], c') {
        assert Mirror(es[k], au[k], c) by {
          if 1 <= k <= orphans { assert OrphanPair(c, es[k], au[k]); }
        }
        MirrorSurvives(c, c', es[k], au[k]);
      }
      forall k | 1 <= k <= orphans ensures OrphanPair(c', es'[k], au'[k]) {
        assert OrphanPair(c, es[k], au[k]);
      }
    }
  }

  /** A transaction without a stored request has written nothing. */
  lemma NoTrailYet(s: Store, txn: string)
    requires TrailsKnown(s) && !HasTxn(s.consents, txn)
    ensures EventsFor(s.events, txn) == [] && AuditsFor(s.audits, txn) == []
  {
    UnknownTxnHasNoEvents(s.events, txn);
    UnknownTxnHasNoAudits(s.audits, txn);
  }

  /** A step carries the trail of every older request forward. */
  lemma TrailContinues(s: Store, s': Store, orphan: Option<nat>, i: nat, orphans: nat)
    requires ConsentEffect(s, s', orphan) && i < |s.consents| && TrailOf(s, i, orphans)
    ensures i < |s'.consents| && s'.consents[i].txnRef == s.consents[i].txnRef
    ensures TrailOf(s', i, orphans + Bit(orphan == Some(i)))
  {
    TrailAdvances(s, s', i, orphans, orphan == Some(i));
  }

  /** A step that files a request starts its trail. */
  lemma TrailStarts(s: Store, s': Store, orphan: Option<nat>, i: nat)
    requires ConsentsInv(s) && ConsentEffect(s, s', orphan) && |s.consents| <= i < |s'.consents|
    ensures TrailOf(s', i, 0) && !HasTxn(s.consents, s'.consents[i].txnRef)
  {
    var c := s'.consents[i];
    assert !HasTxn(s.consents, c.txnRef);
    NoTrailYet(s, c.txnRef);
  }

  /** A cascade never files a request. */
  lemma OrphanFilesNothing(cfg: Config, s: Store, step: Step)
    requires Permitted(s, step) && OrphanRow(s, step).Some?
    ensures Apply(cfg, s, step).consents == s.consents
  {
    Tampers.LogOutcome(s, step.op.report, step.op.fault, step.now);
    hide Tampers.Log;
  }

  lemma {:induction false} NoOrphanBeforeFiling(cfg: Config, s: Store, steps: seq<Step>, txn: string)
    requires ConsentsInv(s) && ValidRun(cfg, s, steps) && !HasTxn(Run(cfg, s, steps).consents, txn)
    ensures Orphans(cfg, s, steps, txn) == 0 && !HasTxn(s.consents, txn)
  {
    if steps != [] {
      var before, last := steps[..|steps| - 1], steps[|steps| - 1];
      var mid := Run(cfg, s, before);
      RunKeepsInv(cfg, s, before);
      StepEffect(cfg, mid, last);
      forall k | 0 <= k < |mid.consents| ensures mid.consents[k].txnRef != txn {
        assert Run(cfg, s, steps).consents[k].txnRef == mid.consents[k].txnRef;
      }
      NoOrphanBeforeFiling(cfg, s, before, txn);
    }
  }

  lemma OrphanIsKey(s: Store, step: Step, i: nat)
    requires ConsentsInv(s) && i < |s.consents|
    ensures var at := OrphanRow(s, step);
      at.Some? ==> at.value < |s.consents| && (s.consents[at.value].txnRef == s.consents[i].txnRef <==> at == Some(i))
  {}

  /** Trail lock-step over every run from the empty store, rolled-back cascades included: every
      request's trail is its request pair, one orphan pair per rolled-back cascade that hit it
      while pending, and one terminal pair iff it is decided, event and audit row always telling
      the same public id, transaction, session and transition. */
  lemma {:induction false} LockStep(cfg: Config, start: int, steps: seq<Step>, i: nat)
    requires ValidRun(cfg, EmptyStore(start), steps)
    requires i < |Run(cfg, EmptyStore(start), steps).consents|
    ensures TrailOf(Run(cfg, EmptyStore(start), steps), i,
      Orphans(cfg, EmptyStore(start), steps, Run(cfg, EmptyStore(start), steps).consents[i].txnRef))
  {
    hide Effect, Permitted, ConsentsInv, ConsentEffect, TrailOf;
    var s0 := EmptyStore(start);
    assert steps != [];
    var before, last := steps[..|steps| - 1], steps[|steps| - 1];
    var mid, s := Run(cfg, s0, before), Run(cfg, s0, steps);
    RunKeepsInv(cfg, s0, before) by { EmptyInv(start); }
    StepEffect(cfg, mid, last);
    var orphan := OrphanRow(mid, last);
    if i < |mid.consents| {
      LockStep(cfg, start, before, i);
      OrphanIsKey(mid, last, i);
      TrailContinues(mid, s, orphan, i, Orphans(cfg, s0, before, mid.consents[i].txnRef));
    } else {
      if orphan.Some? { OrphanFilesNothing(cfg, mid, last); }
      TrailStarts(mid, s, orphan, i);
      NoOrphanBeforeFiling(cfg, s0, before, s.consents[i].txnRef) by { EmptyInv(start); }
    }
  }

  /** The trail a request has when no rolled-back cascade touched it: exactly one event
      per transition and nothing else. */
  ghost predicate InLockStep(s: Store, i: nat)
    requires i < |s.consents|
  {
    TrailOf(s, i, 0)
  }

  /** Lock-step is exact: a request's trail counts its transitions and no more if and only if
      no cascade that was rolled back had reached it while it was pending. */
  lemma LockStepIffNoRollback(cfg: Config, start: int, steps: seq<Step>, i: nat)
    requires ValidRun(cfg, EmptyStore(start), steps)
    requires i < |Run(cfg, EmptyStore(start), steps).consents|
    ensures var s := Run(cfg, EmptyStore(start), steps);
      InLockStep(s, i) <==> Orphans(cfg, EmptyStore(start), steps, s.consents[i].txnRef) == 0
  {
    LockStep(cfg, start, steps, i);
  }
}
