/** Runs from the empty store on which an expectation fails. */
module Witnesses {
  import opened Wrappers
  import opened Entities
  import opened Consents
  import opened Protocol
  import Assignments
  import Cascade
  import ConsentRuns
  import ConsentSteps
  import Identifiers
  import SessionHistory
  import SessionRuns
  import Sessions
  import Tampers
  import TrailLockStep
  import Transactions

  const DEVICE := "DEV-1"
  const OWNER := "USR-001"
  const OPERATOR := "USR-002"

  /** One device with its owner, and one operator. */
  const CFG := Config([User(OWNER, Role.Owner, None), User(OPERATOR, Role.Operator, None)],
                      [Device(DEVICE, Some(OWNER), true, 120, 60)], false)

  /** A lower-case UUID made of one digit. */
  function RowId(digit: char): string {
    seq(36, i requires 0 <= i < 36 => if i == 8 || i == 13 || i == 18 || i == 23 then '-' else digit)
  }

  function Body(txn: string, consentId: string): CreateBody {
    CreateBody(txn, Some(consentId), DEVICE, None, Some(OPERATOR), "Report", None, None, None)
  }

  lemma Extend(cfg: Config, s: Store, steps: seq<Step>, step: Step, mid: Store)
    requires ValidRun(cfg, s, steps) && Run(cfg, s, steps) == mid && Permitted(mid, step)
    ensures ValidRun(cfg, s, steps + [step]) && Run(cfg, s, steps + [step]) == Apply(cfg, mid, step)
  {
    assert (steps + [step])[..|steps|] == steps;
  }

  lemma Known()
    ensures FindDevice(CFG.devices, DEVICE) == Some(CFG.devices[0])
    ensures FindUser(CFG.users, OWNER) == Some(CFG.users[0])
    ensures FindUser(CFG.users, OPERATOR) == Some(CFG.users[1])
  {
    assert OWNER[6] != OPERATOR[6];
    assert FindUser(CFG.users[1..], OPERATOR) == Some(CFG.users[1]);
  }

  /** The operator is put on the device. */
  lemma Assigned() returns (steps: seq<Step>, s: Store)
    ensures ValidRun(CFG, EmptyStore(0), steps) && Run(CFG, EmptyStore(0), steps) == s
    ensures s == EmptyStore(0).(assignments := [Assignment(DEVICE, OPERATOR, true, OWNER)])
  {
    var step := Step(0, Op.Assign(DEVICE, OPERATOR, OWNER, None));
    Known();
    Extend(CFG, EmptyStore(0), [], step, EmptyStore(0));
    steps := [] + [step];
    s := Run(CFG, EmptyStore(0), steps);
    assert Assignments.Deactivate([], OPERATOR) == [];
  }

  ghost predicate FreshKeys(rows: seq<Consent>, txn: string, consentId: string, digit: char) {
    forall i | 0 <= i < |rows| ::
      rows[i].id != RowId(digit) && rows[i].txnRef != txn && rows[i].consentId != Some(consentId)
  }

  /** What filing with fresh keys leaves. */
  lemma FiledStore(mid: Store, txn: string, consentId: string, digit: char) returns (c: Consent)
    requires mid.assignments == [Assignment(DEVICE, OPERATOR, true, OWNER)]
    requires FreshKeys(mid.consents, txn, consentId, digit)
    ensures c.id == RowId(digit) && c.txnRef == txn && c.consentId == Some(consentId) && c.status.Pending?
    ensures c.sessionId.None? && 0 <= DecisionDeadline(c)
    ensures var s := CreateConsentRequest(CFG, mid, OPERATOR, Body(txn, consentId), RowId(digit), 0).0;
      s.consents == mid.consents + [c] && s.assignments == mid.assignments
  {
    assert HasAssignment(mid.assignments, DEVICE, OPERATOR) by { assert mid.assignments[0].isActive; }
    Known();
    hide FindUser, FindDevice;
    c := CreateConsentRequest(CFG, mid, OPERATOR, Body(txn, consentId), RowId(digit), 0).1.value;
  }

  lemma IdsAreUuids(digit: char)
    requires '0' <= digit <= '9'
    ensures IsUuid(RowId(digit)) && Lower(RowId(digit)) == RowId(digit)
  {}

  /** A filing with fresh keys goes through. */
  lemma Filed(steps: seq<Step>, mid: Store, txn: string, consentId: string, digit: char)
    returns (step: Step, c: Consent, s: Store)
    requires ValidRun(CFG, EmptyStore(0), steps) && Run(CFG, EmptyStore(0), steps) == mid && mid.clock == 0
    requires mid.assignments == [Assignment(DEVICE, OPERATOR, true, OWNER)] && '0' <= digit <= '9'
    requires FreshKeys(mid.consents, txn, consentId, digit)
    ensures ValidRun(CFG, EmptyStore(0), steps + [step]) && Run(CFG, EmptyStore(0), steps + [step]) == s
    ensures c.id == RowId(digit) && c.txnRef == txn && c.consentId == Some(consentId) && c.status.Pending?
    ensures c.sessionId.None? && 0 <= DecisionDeadline(c)
    ensures s.consents == mid.consents + [c] && s.assignments == mid.assignments && s.clock == 0
  {
    step := Step(0, Op.Create(OPERATOR, Body(txn, consentId), RowId(digit)));
    IdsAreUuids(digit);
    c := FiledStore(mid, txn, consentId, digit);
    hide CreateConsentRequest, RowId, IsUuid, Lower;
    s := Apply(CFG, mid, step);
    Extend(CFG, EmptyStore(0), steps, step, mid);
  }

  /** Assign, file, and reject with a null reason: the request is rejected and no reason is stored. */
  lemma RejectionMayLackReason() returns (steps: seq<Step>)
    ensures ValidRun(CFG, EmptyStore(0), steps)
    ensures var s := Run(CFG, EmptyStore(0), steps);
      |s.consents| == 1 && ConsentSteps.Unreasoned(s.consents[0])
  {
    var onDevice, s1 := Assigned();
    var filing, c, s2 := Filed(onDevice, s1, "TXN-AAAAAA", "CONSENT-A", '0');
    var rejection := Step(0, Op.Submit(OWNER, "CONSENT-A", "rejected", Null));
    hide Effect;
    Extend(CFG, EmptyStore(0), onDevice + [filing], rejection, s2);
    steps := onDevice + [filing] + [rejection];
    hide Run, ValidRun;
    NullRejection(s2, rejection);
  }

  lemma NullRejection(mid: Store, step: Step)
    requires |mid.consents| == 1 && mid.consents[0].consentId == Some("CONSENT-A") && mid.consents[0].status.Pending?
    requires mid.consents[0].id == RowId('0') && mid.clock == 0 && mid.consents[0].sessionId.None?
    requires 0 <= DecisionDeadline(mid.consents[0])
    requires step == Step(0, Op.Submit(OWNER, "CONSENT-A", "rejected", Null))
    ensures Permitted(mid, step)
    ensures var rows := Apply(CFG, mid, step).consents; |rows| == 1 && ConsentSteps.Unreasoned(rows[0])
  {
    IdsAreUuids('0');
    assert Resolve(mid.consents, "CONSENT-A") == Some(0);
    assert Find(mid.consents, ById(RowId('0'))) == Some(0);
    assert "approved"[0] != "rejected"[0];
  }

  /** What a cascade whose session update is rejected leaves of a store with one request. */
  lemma CutOff(mid: Store, report: TamperEvent)
    requires |mid.consents| == 1 && mid.consents[0].status.Pending? && mid.clock == 0
    requires Truthy(report.consentId) && AbortTarget(mid.consents, report.consentId.value) == Some(0)
    ensures var step := Step(0, Op.Tamper(report, Transactions.Rejects(2)));
      && Permitted(mid, step) && Apply(CFG, mid, step).consents == mid.consents
      && ConsentRuns.OrphanRow(mid, step) == Some(0)
  {
    Tampers.LogOutcome(mid, report, Transactions.Rejects(2), 0);
    hide Tampers.Log, AbortTarget;
  }

  /** Assign, file, and report a tamper whose session update is rejected: the request is still
      pending and its trail already says CONSENT_TAMPER_ABORTED. */
  lemma LockStepMayFail() returns (steps: seq<Step>)
    ensures ValidRun(CFG, EmptyStore(0), steps)
    ensures var s := Run(CFG, EmptyStore(0), steps);
      |s.consents| == 1 && s.consents[0].status.Pending? && !TrailLockStep.InLockStep(s, 0)
  {
    var onDevice, s1 := Assigned();
    var filing, c, s2 := Filed(onDevice, s1, "TXN-AAAAAA", "CONSENT-A", '0');
    var filed := onDevice + [filing];
    var report := TamperEvent(DEVICE, None, Some("CONSENT-A"), 0, Firmware, None);
    var tamper := Step(0, Op.Tamper(report, Transactions.Rejects(2)));
    assert AbortTarget(s2.consents, "CONSENT-A") == Some(0);
    CutOff(s2, report);
    hide Effect, Permitted, TrailLockStep.InLockStep, ConsentRuns.OrphanRow, AbortTarget;
    Extend(CFG, EmptyStore(0), filed, tamper, s2);
    steps := filed + [tamper];
    assert steps[..|filed|] == filed;
    TrailLockStep.LockStepIffNoRollback(CFG, 0, steps, 0);
    assert TrailLockStep.Orphans(CFG, EmptyStore(0), steps, "TXN-AAAAAA") > 0;
  }

  /** The keys of the two filings below. */
  lemma KeysDiffer()
    ensures "TXN-AAAAAA" != "TXN-BBBBBB" && "TXN-AAAAAA" != "CONSENT-B" && RowId('0') != RowId('1')
  {
    assert "TXN-AAAAAA"[4] != "TXN-BBBBBB"[4] && RowId('0')[0] != RowId('1')[0];
    assert |"CONSENT-B"| != |"TXN-AAAAAA"|;
  }

  /** Two filings, one with the other's transaction for a consent id: the abort's party check may
      read the second request while the abort acts on the first. */
  lemma AbortMayActElsewhere() returns (steps: seq<Step>)
    ensures ValidRun(CFG, EmptyStore(0), steps)
    ensures var rows := Run(CFG, EmptyStore(0), steps).consents;
      && PartyRow(rows, "TXN-AAAAAA", 1) && AbortTarget(rows, "TXN-AAAAAA") == Some(0)
      && !Identifiers.ActsOnChecked(rows, "TXN-AAAAAA")
  {
    hide Effect, Permitted, RowId;
    KeysDiffer();
    var onDevice, s1 := Assigned();
    var first, a, s2 := Filed(onDevice, s1, "TXN-BBBBBB", "TXN-AAAAAA", '0');
    var second, b, s3 := Filed(onDevice + [first], s2, "TXN-AAAAAA", "CONSENT-B", '1');
    steps := onDevice + [first] + [second];
    hide Run, ValidRun;
    AmbiguousKey(a, b, "TXN-AAAAAA");
    assert s3.consents == [a, b];
  }

  lemma AmbiguousKey(a: Consent, b: Consent, key: string)
    requires !IsUuid(key) && a.consentId == Some(key) && b.consentId != Some(key) && b.txnRef == key
    ensures PartyRow([a, b], key, 1) && AbortTarget([a, b], key) == Some(0)
    ensures !Identifiers.ActsOnChecked([a, b], key)
  {
    assert Matches([a, b][0], ByConsentId(key));
    assert Find([a, b], ByConsentId(key)) == Some(0);
    assert PartyRow([a, b], key, 1);
  }

  // ------------------------------------------------------------------ sessions

  function Dto(sid: string, device: string): Sessions.StartDto {
    Sessions.StartDto(sid, device, OPERATOR, OWNER, Identity(None, None, None, None, None))
  }

  function RowOf(sid: string, device: string, stamp: nat): Session {
    Session(sid, device, OPERATOR, OWNER, Identity(None, None, None, None, None), Idle, stamp, None, None)
  }

  /** A start that inserts, on a device with no open session. */
  lemma Started(steps: seq<Step>, mid: Store, sid: string, device: string, ch: Sessions.Choices)
    returns (step: Step, s: Store)
    requires ValidRun(CFG, EmptyStore(0), steps) && Run(CFG, EmptyStore(0), steps) == mid && mid.clock == 0
    requires Sessions.LegalChoices(mid, Dto(sid, device), ch) && ch.active.None? && !ch.insertFails
    requires !Sessions.HasOpen(mid.sessions, sid)
    ensures ValidRun(CFG, EmptyStore(0), steps + [step]) && Run(CFG, EmptyStore(0), steps + [step]) == s
    ensures s.sessions == mid.sessions + [RowOf(sid, device, mid.nextStart)]
    ensures s.nextStart == mid.nextStart + 1 && s.clock == 0
  {
    step := Step(0, Op.StartSession(Dto(sid, device), ch));
    s := Apply(CFG, mid, step);
    Extend(CFG, EmptyStore(0), steps, step, mid);
  }

  /** The end of the only session. */
  lemma EndedOnly(steps: seq<Step>, mid: Store, r: Session) returns (step: Step, s: Store)
    requires ValidRun(CFG, EmptyStore(0), steps) && Run(CFG, EmptyStore(0), steps) == mid && mid.clock == 0
    requires mid.sessions == [r] && r.Open()
    ensures ValidRun(CFG, EmptyStore(0), steps + [step]) && Run(CFG, EmptyStore(0), steps + [step]) == s
    ensures s.sessions == [Sessions.Ended(r, ByCompletion, 0)] && s.nextStart == mid.nextStart && s.clock == 0
  {
    step := Step(0, Op.EndSession(r.sessionId, ByCompletion));
    assert Sessions.Latest(mid.sessions, r.sessionId) == Some(0);
    s := Apply(CFG, mid, step);
    Extend(CFG, EmptyStore(0), steps, step, mid);
  }

  /** B is started, ended and started again on DEV-2, and A is started on DEV-1. */
  lemma TwoDevices() returns (steps: seq<Step>, s: Store)
    ensures ValidRun(CFG, EmptyStore(0), steps) && Run(CFG, EmptyStore(0), steps) == s && s.clock == 0
    ensures s.sessions == [Sessions.Ended(RowOf("B", "DEV-2", 0), ByCompletion, 0), RowOf("B", "DEV-2", 1),
                           RowOf("A", DEVICE, 2)]
  {
    hide Effect, Permitted;
    assert "A"[0] != "B"[0] && DEVICE[4] != "DEV-2"[4];
    assert EmptyStore(0).sessions == [];
    var start, s1 := Started([], EmptyStore(0), "B", "DEV-2", Sessions.Choices(None, None, None, false));
    hide Run, ValidRun;
    var end, s2 := EndedOnly([] + [start], s1, RowOf("B", "DEV-2", 0));
    var again, s3 := Started([] + [start] + [end], s2, "B", "DEV-2", Sessions.Choices(Some(0), None, Some(0), false));
    steps := [] + [start] + [end] + [again];
    var other, s4 := Started(steps, s3, "A", DEVICE, Sessions.Choices(None, None, None, false));
    steps, s := steps + [other], s4;
  }

  /** Then B is started on DEV-1 and its first lookup answers the ended row: A is ended, nothing is
      inserted, and DEV-1 is left without an open session. Only the unique index refused the insert. */
  lemma SessionEndsForNothing() returns (steps: seq<Step>, last: Step)
    ensures ValidRun(CFG, EmptyStore(0), steps) && ValidRun(CFG, EmptyStore(0), steps + [last])
    ensures last.op.StartSession? && last.op.dto.deviceId == DEVICE && !last.op.choices.insertFails
    ensures var s, s' := Run(CFG, EmptyStore(0), steps), Run(CFG, EmptyStore(0), steps + [last]);
      && !Cascade.Quiet(s.sessions, DEVICE)
      && |s'.sessions| == |s.sessions| && Cascade.Quiet(s'.sessions, DEVICE)
  {
    assert "A"[0] != "B"[0] && DEVICE[4] != "DEV-2"[4];
    var s: Store;
    steps, s := TwoDevices();
    var ch := Sessions.Choices(Some(0), Some(2), Some(0), false);
    last := Step(0, Op.StartSession(Dto("B", DEVICE), ch));
    hide Run, ValidRun;
    SessionRuns.RunKeepsSessions(CFG, EmptyStore(0), steps) by { SessionHistory.NoSessions(0); }
    assert Sessions.HasOpen(s.sessions, "B") by { assert s.sessions[1].Open(); }
    EndedForNothing(s, Dto("B", DEVICE), ch);
    Extend(CFG, EmptyStore(0), steps, last, s);
  }

  /** The effect of a start that ends the device's session and is refused its insert. */
  lemma EndedForNothing(s: Store, dto: Sessions.StartDto, ch: Sessions.Choices)
    requires SessionRuns.SessionsInv(s.sessions, s.nextStart) && Sessions.LegalChoices(s, dto, ch) && s.clock == 0
    requires ch.active.Some? && s.sessions[ch.active.value].sessionId != dto.sessionId
    requires ch.existing.Some? && !s.sessions[ch.existing.value].Open() && Sessions.HasOpen(s.sessions, dto.sessionId)
    ensures var step := Step(0, Op.StartSession(dto, ch));
      && Permitted(s, step)
      && !Cascade.Quiet(s.sessions, dto.deviceId)
      && |Apply(CFG, s, step).sessions| == |s.sessions| && Cascade.Quiet(Apply(CFG, s, step).sessions, dto.deviceId)
  {
    SessionHistory.DisplaceKeepsId(s, dto, 0, ch);
    SessionHistory.EndOfOpenRow(s, ch.active.value, ByDisconnect, 0);
    hide Sessions.End;
    assert Apply(CFG, s, Step(0, Op.StartSession(dto, ch))).sessions == Sessions.Displace(s, dto, 0, ch).sessions;
  }
}
