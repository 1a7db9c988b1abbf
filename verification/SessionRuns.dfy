/** The session table over every run: uniqueness under reused ids, idempotent start, and the
    conservation of session ends. */
module SessionRuns {
  import opened Wrappers
  import opened Entities
  import opened Sessions
  import opened Protocol
  import Frames
  import Tampers

  // -------------------------------------------------------------- invariants

  /** Insertion stamps grow along the table. */
  ghost predicate StampsGrow(rows: seq<Session>, next: nat) {
    && (forall i | 0 <= i < |rows| :: rows[i].startedAt < next)
    && (forall i, j | 0 <= i < j < |rows| :: rows[i].startedAt < rows[j].startedAt)
  }

  /** Only the newest row of a session_id can be open, and a device has one open row at most. */
  ghost predicate OpenRowsUnique(rows: seq<Session>) {
    && (forall i, j | 0 <= i < j < |rows| && rows[i].sessionId == rows[j].sessionId :: !rows[i].Open())
    && (forall i, j | 0 <= i < j < |rows| && rows[i].deviceId == rows[j].deviceId :: !rows[i].Open() || !rows[j].Open())
  }

  /** The end columns are written together and only on an ending session. */
  ghost predicate EndShape(r: Session) {
    && (r.endedAt.Some? <==> r.endedReason.Some?)
    && (r.endedAt.Some? ==> r.state.Ending?)
  }

  ghost predicate SessionsInv(rows: seq<Session>, next: nat) {
    StampsGrow(rows, next) && OpenRowsUnique(rows) && forall i | 0 <= i < |rows| :: EndShape(rows[i])
  }

  /** One change of a row: its identity stays, its state follows the transition table or stays,
      and once ended it is never written again. */
  ghost predicate RowAdvance(r: Session, r': Session) {
    && r' == r.(state := r'.state, endedAt := r'.endedAt, endedReason := r'.endedReason)
    && (r'.state == r.state || r'.state in Transitions(r.state))
    && (!r.Open() ==> r' == r)
    && EndShape(r')
  }

  ghost predicate RowsFollow(rows: seq<Session>, rows': seq<Session>) {
    |rows'| == |rows| && forall i | 0 <= i < |rows| :: RowAdvance(rows[i], rows'[i])
  }

  /** The session table across a step: rows advance, and at most one fresh open row is added. */
  ghost predicate TableAdvance(rows: seq<Session>, rows': seq<Session>) {
    && |rows| <= |rows'| <= |rows| + 1
    && (forall i | 0 <= i < |rows| :: RowAdvance(rows[i], rows'[i]))
    && (|rows'| > |rows| ==> rows'[|rows|].state.Idle? && rows'[|rows|].Open() && EndShape(rows'[|rows|]))
  }

  // ------------------------------------------------------------ ordered lookup

  /** The open row of an id is its newest, and its only open one. */
  lemma OpenIsNewest(rows: seq<Session>, next: nat, i: nat)
    requires SessionsInv(rows, next) && i < |rows| && rows[i].Open()
    ensures forall j | 0 <= j < |rows| && rows[j].sessionId == rows[i].sessionId && j != i ::
      !rows[j].Open() && rows[j].startedAt < rows[i].startedAt
  {}

  /** The ordered lookup of an id, which end and updateState go by, always lands on the id's open
      row when it has one. */
  lemma LookupFindsOpenRow(rows: seq<Session>, next: nat, i: nat)
    requires SessionsInv(rows, next) && i < |rows| && rows[i].Open()
    ensures Latest(rows, rows[i].sessionId) == Some(i)
  {
    OpenIsNewest(rows, next, i);
    var at := Latest(rows, rows[i].sessionId).value;
    assert rows[i].startedAt <= rows[at].startedAt;
  }

  // ------------------------------------------------------------ effect of calls

  /** Ending rows and moving their state keeps the invariants. */
  lemma FollowKeepsInv(rows: seq<Session>, rows': seq<Session>, next: nat)
    requires SessionsInv(rows, next) && RowsFollow(rows, rows')
    ensures SessionsInv(rows', next)
  {
    forall i | 0 <= i < |rows|
      ensures rows'[i].sessionId == rows[i].sessionId && rows'[i].deviceId == rows[i].deviceId
        && rows'[i].startedAt == rows[i].startedAt && (!rows[i].Open() ==> !rows'[i].Open())
    { assert RowAdvance(rows[i], rows'[i]); }
  }

  lemma EndFollows(s: Store, sid: string, reason: EndReason, now: int)
    requires SessionsInv(s.sessions, s.nextStart)
    ensures RowsFollow(s.sessions, End(s, sid, reason, now).0.sessions)
  {}

  lemma UpdateFollows(s: Store, sid: string, state: SessionState)
    requires SessionsInv(s.sessions, s.nextStart)
    ensures RowsFollow(s.sessions, Sessions.UpdateState(s, sid, state).0.sessions)
  {}

  lemma BulkFollows(rows: seq<Session>, next: nat, device: string, reason: EndReason, now: int)
    requires SessionsInv(rows, next)
    ensures RowsFollow(rows, EndOnDevice(rows, device, reason, now))
  {}

  /** After start's displacement the device is free, unless the very session being started is open on it. */
  lemma DisplaceFreesDevice(s: Store, dto: StartDto, now: int, ch: Choices)
    requires SessionsInv(s.sessions, s.nextStart) && LegalChoices(s, dto, ch)
    ensures var s1 := Displace(s, dto, now, ch);
      && RowsFollow(s.sessions, s1.sessions) && s1.nextStart == s.nextStart
      && s1.snapshots == s.snapshots
      && forall i | 0 <= i < |s1.sessions| ::
        s1.sessions[i].deviceId == dto.deviceId && s1.sessions[i].Open() ==> s1.sessions[i].sessionId == dto.sessionId
  {
    if ch.active.Some? {
      LookupFindsOpenRow(s.sessions, s.nextStart, ch.active.value);
      EndFollows(s, s.sessions[ch.active.value].sessionId, ByDisconnect, now);
    }
  }

  lemma InsertKeepsInv(s: Store, dto: StartDto)
    requires SessionsInv(s.sessions, s.nextStart) && !HasOpen(s.sessions, dto.sessionId)
    requires forall i | 0 <= i < |s.sessions| :: !(s.sessions[i].deviceId == dto.deviceId && s.sessions[i].Open())
    ensures SessionsInv(Insert(s, dto).sessions, Insert(s, dto).nextStart)
  {}

  lemma StartKeepsInv(s: Store, dto: StartDto, now: int, ch: Choices)
    requires SessionsInv(s.sessions, s.nextStart) && LegalChoices(s, dto, ch)
    ensures var s' := Start(s, dto, now, ch).0;
      && SessionsInv(s'.sessions, s'.nextStart) && TableAdvance(s.sessions, s'.sessions)
      && (|s'.sessions| > |s.sessions| ==> s'.sessions[|s.sessions|] == NewSession(dto, s.nextStart))
  {
    DisplaceFreesDevice(s, dto, now, ch);
    var s1 := Displace(s, dto, now, ch);
    FollowKeepsInv(s.sessions, s1.sessions, s.nextStart);
    StayingFollows(s.sessions, s.nextStart);
    if !HasOpen(s1.sessions, dto.sessionId) { InsertAdvances(s, s1, dto); }
    hide SessionsInv, TableAdvance, RowsFollow, Displace, Insert, HasOpen, NewSession;
    FollowIsAdvance(s.sessions, s1.sessions);
    FollowIsAdvance(s.sessions, s.sessions);
  }

  lemma StayingFollows(rows: seq<Session>, next: nat)
    requires SessionsInv(rows, next)
    ensures RowsFollow(rows, rows)
  {}

  lemma FollowIsAdvance(rows: seq<Session>, rows': seq<Session>)
    requires RowsFollow(rows, rows')
    ensures TableAdvance(rows, rows') && |rows'| == |rows|
  {}

  /** An insert on a free device after rows advanced. */
  lemma InsertAdvances(s: Store, s1: Store, dto: StartDto)
    requires RowsFollow(s.sessions, s1.sessions) && s1.nextStart == s.nextStart
    requires SessionsInv(s1.sessions, s1.nextStart) && !HasOpen(s1.sessions, dto.sessionId)
    requires forall i | 0 <= i < |s1.sessions| ::
      s1.sessions[i].deviceId == dto.deviceId && s1.sessions[i].Open() ==> s1.sessions[i].sessionId == dto.sessionId
    ensures var s' := Insert(s1, dto);
      && SessionsInv(s'.sessions, s'.nextStart) && TableAdvance(s.sessions, s'.sessions)
      && |s'.sessions| == |s.sessions| + 1 && s'.sessions[|s.sessions|] == NewSession(dto, s.nextStart)
  {
    InsertKeepsInv(s1, dto);
    hide SessionsInv;
  }

  /** The device whose open sessions a step ends in bulk, if its writes are committed. */
  ghost function BulkDevice(step: Step): Option<string> {
    match step.op
    case EndDevice(device, _) => Some(device)
    case Tamper(report, fault) => if fault.Commits? then Some(report.deviceId) else None
    case _ => None
  }

  /** Calls that do not name the session table leave it and its stamp alone. */
  lemma OtherCallsLeaveSessions(cfg: Config, s: Store, step: Step)
    requires Permitted(s, step)
    requires !step.op.StartSession? && !step.op.UpdateSession? && !step.op.EndSession? && BulkDevice(step).None?
    ensures Effect(cfg, s, step).sessions == s.sessions && Effect(cfg, s, step).nextStart == s.nextStart
  {
    hide Effect;
    if Frames.OnConsents(step.op) {
      Frames.ConsentCallFrame(cfg, s, step);
    } else if Frames.OnAssignments(step.op) {
      Frames.AssignmentCallFrame(cfg, s, step);
    } else if step.op.Tamper? {
      Frames.CascadeFrame(cfg, s, step);
    } else {
      Frames.TrailCallFrame(cfg, s, step);
    }
  }

  /** Every step advances the session table along the transition table and keeps its invariants; a
      row it adds is the one a start was called for. */
  lemma StepAdvances(cfg: Config, s: Store, step: Step)
    requires SessionsInv(s.sessions, s.nextStart) && Permitted(s, step)
    ensures TableAdvance(s.sessions, Apply(cfg, s, step).sessions)
    ensures |Apply(cfg, s, step).sessions| > |s.sessions| ==>
      step.op.StartSession? && Apply(cfg, s, step).sessions[|s.sessions|] == NewSession(step.op.dto, s.nextStart)
    ensures SessionsInv(Apply(cfg, s, step).sessions, Apply(cfg, s, step).nextStart)
  {
    var op := step.op;
    if op.StartSession? {
      StartKeepsInv(s, op.dto, step.now, op.choices);
      hide TableAdvance, SessionsInv, Sessions.Start;
    } else {
      OtherStepFollows(cfg, s, step);
      hide Effect, SessionsInv;
    }
  }

  /** Any step but a start only moves rows along. */
  lemma OtherStepFollows(cfg: Config, s: Store, step: Step)
    requires SessionsInv(s.sessions, s.nextStart) && Permitted(s, step) && !step.op.StartSession?
    ensures RowsFollow(s.sessions, Effect(cfg, s, step).sessions)
    ensures SessionsInv(Effect(cfg, s, step).sessions, Effect(cfg, s, step).nextStart)
  {
    var rows, op := s.sessions, step.op;
    if BulkDevice(step).Some? {
      BulkKeeps(cfg, s, step);
    } else if op.UpdateSession? {
      UpdateFollows(s, op.sessionId, op.state);
      FollowKeepsInv(rows, Sessions.UpdateState(s, op.sessionId, op.state).0.sessions, s.nextStart);
    } else if op.EndSession? {
      EndFollows(s, op.sessionId, op.endReason, step.now);
      FollowKeepsInv(rows, End(s, op.sessionId, op.endReason, step.now).0.sessions, s.nextStart);
    } else {
      OtherCallsLeaveSessions(cfg, s, step);
      hide Effect;
    }
  }

  lemma BulkKeeps(cfg: Config, s: Store, step: Step)
    requires SessionsInv(s.sessions, s.nextStart) && Permitted(s, step) && BulkDevice(step).Some?
    ensures exists reason ::
      Effect(cfg, s, step).sessions == EndOnDevice(s.sessions, BulkDevice(step).value, reason, step.now)
    ensures RowsFollow(s.sessions, Effect(cfg, s, step).sessions) && Effect(cfg, s, step).nextStart == s.nextStart
    ensures SessionsInv(Effect(cfg, s, step).sessions, s.nextStart)
  {
    var reason := if step.op.Tamper? then ByTamper else step.op.endReason;
    if step.op.Tamper? { Tampers.LogOutcome(s, step.op.report, step.op.fault, step.now); }
    hide Tampers.Log;
    BulkFollows(s.sessions, s.nextStart, BulkDevice(step).value, reason, step.now);
    FollowKeepsInv(s.sessions, EndOnDevice(s.sessions, BulkDevice(step).value, reason, step.now), s.nextStart);
    assert Effect(cfg, s, step).sessions == EndOnDevice(s.sessions, BulkDevice(step).value, reason, step.now);
  }

  /** Session uniqueness over every run, whichever row each unordered lookup answers: at most one
      open row per session_id and per device, the open row being its id's newest. */
  lemma {:induction false} RunKeepsSessions(cfg: Config, s: Store, steps: seq<Step>)
    requires SessionsInv(s.sessions, s.nextStart) && ValidRun(cfg, s, steps)
    ensures SessionsInv(Run(cfg, s, steps).sessions, Run(cfg, s, steps).nextStart)
  {
    hide Effect, Permitted;
    if steps != [] {
      RunKeepsSessions(cfg, s, steps[..|steps| - 1]);
      StepAdvances(cfg, Run(cfg, s, steps[..|steps| - 1]), steps[|steps| - 1]);
    }
  }
}
