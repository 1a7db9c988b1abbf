/** One device per operator, and the parties of every stored request. */
module Parties {
  import opened Wrappers
  import opened Entities
  import opened Assignments
  import opened Consents
  import opened ConsentSteps
  import opened Protocol
  import ConsentRuns
  import Frames

  ghost predicate OneActive(rows: seq<Assignment>) {
    forall i, j | 0 <= i < j < |rows| && rows[i].operatorId == rows[j].operatorId ::
      !rows[i].isActive || !rows[j].isActive
  }

  lemma AssignKeepsOneActive(cfg: Config, s: Store, device: string, operator: string, assignedBy: string,
                             pick: Option<nat>)
    requires AnyActive(s.assignments, device, operator, pick) && OneActive(s.assignments)
    ensures OneActive(Assignments.Assign(cfg, s, device, operator, assignedBy, pick).0.assignments)
  {}

  lemma RemoveKeepsOneActive(s: Store, device: string, operator: string, pick: Option<nat>)
    requires AnyActive(s.assignments, device, operator, pick) && OneActive(s.assignments)
    ensures OneActive(Assignments.Remove(s, device, operator, pick).0.assignments)
  {}

  /** The pair is already assigned. */
  ghost predicate Assigned(rows: seq<Assignment>, device: string, operator: string) {
    exists a | a in rows :: a.deviceId == device && a.operatorId == operator && a.isActive
  }

  ghost function Retired(a: Assignment, operator: string): Assignment {
    if a.operatorId == operator then a.(isActive := false) else a
  }

  /** What an assignment answers and stores: not found exactly for an unknown device or user; the
      standing row, with nothing changed, for a pair already assigned; else a new active row, every
      other row of the operator left but inactive. */
  lemma AssignAnswers(cfg: Config, s: Store, device: string, operator: string, assignedBy: string, pick: Option<nat>)
    requires AnyActive(s.assignments, device, operator, pick)
    ensures var (s', r) := Assignments.Assign(cfg, s, device, operator, assignedBy, pick);
      var n := |s.assignments|;
      && (r.Ok? <==> (exists d | d in cfg.devices :: d.deviceId == device)
                     && (exists u | u in cfg.users :: u.id == operator))
      && (r.Err? ==> r == Err(NotFound) && s' == s)
      && (r.Ok? && Assigned(s.assignments, device, operator) ==>
        && s' == s && r.value in s.assignments
        && r.value.deviceId == device && r.value.operatorId == operator && r.value.isActive)
      && (r.Ok? && !Assigned(s.assignments, device, operator) ==>
        && s' == s.(assignments := s'.assignments) && |s'.assignments| == n + 1
        && r == Ok(s'.assignments[n]) && s'.assignments[n] == Assignment(device, operator, true, assignedBy)
        && forall i | 0 <= i < n :: s'.assignments[i] == Retired(s.assignments[i], operator))
  {
    assert pick.Some? <==> Assigned(s.assignments, device, operator);
    hide Assigned;
  }

  /** A removal turns one active row of the pair inactive and changes nothing else. */
  lemma RemoveWrites(s: Store, device: string, operator: string, pick: Option<nat>)
    requires AnyActive(s.assignments, device, operator, pick)
    ensures var (s', r) := Assignments.Remove(s, device, operator, pick);
      && (r.Ok? <==> Assigned(s.assignments, device, operator)) && (r.Err? ==> r == Err(NotFound) && s' == s)
      && (r.Ok? ==> exists i: nat | i < |s.assignments| ::
            && s.assignments[i] == s.assignments[i].(deviceId := device, operatorId := operator, isActive := true)
            && s' == s.(assignments := s.assignments[i := s.assignments[i].(isActive := false)]))
  {
    assert pick.Some? <==> Assigned(s.assignments, device, operator);
    hide Assigned;
  }

  /** After a successful assignment the operator's one active device is the one asked for. */
  lemma AssignTakesEffect(cfg: Config, s: Store, device: string, operator: string, assignedBy: string,
                          pick: Option<nat>)
    requires AnyActive(s.assignments, device, operator, pick) && OneActive(s.assignments)
    ensures var (s', r) := Assignments.Assign(cfg, s, device, operator, assignedBy, pick);
      r.Ok? ==>
        && DevicesOf(s'.assignments, operator) == [device]
        && forall other | other != operator :: DevicesOf(s'.assignments, other) == DevicesOf(s.assignments, other)
  {
    var (s', r) := Assignments.Assign(cfg, s, device, operator, assignedBy, pick);
    if pick.Some? {
      SingleDevice(s.assignments, operator, pick.value);
    } else if r.Ok? {
      var cleared := Deactivate(s.assignments, operator);
      assert s'.assignments[..|cleared|] == cleared;
      DeactivateDevices(s.assignments, operator, operator);
      forall other | other != operator ensures DevicesOf(s'.assignments, other) == DevicesOf(s.assignments, other) {
        DeactivateDevices(s.assignments, operator, other);
      }
    }
  }

  /** Removing an assignment takes the operator's only device away, and fails exactly when the
      operator is not on that device. */
  lemma RemoveTakesEffect(s: Store, device: string, operator: string, pick: Option<nat>)
    requires AnyActive(s.assignments, device, operator, pick) && OneActive(s.assignments)
    ensures var (s', r) := Assignments.Remove(s, device, operator, pick);
      && (r.Ok? <==> HasAssignment(s.assignments, device, operator))
      && (r.Err? ==> s' == s)
      && (r.Ok? ==> DevicesOf(s'.assignments, operator) == [])
      && forall other | other != operator :: DevicesOf(s'.assignments, other) == DevicesOf(s.assignments, other)
  {
    if pick.Some? {
      var cleared := s.assignments[pick.value := s.assignments[pick.value].(isActive := false)];
      NoDevices(cleared, operator);
      forall other | other != operator ensures DevicesOf(cleared, other) == DevicesOf(s.assignments, other) {
        OtherRowChanged(s.assignments, pick.value, other);
      }
    }
  }

  lemma {:induction false} OtherRowChanged(rows: seq<Assignment>, i: nat, other: string)
    requires i < |rows| && rows[i].operatorId != other
    ensures DevicesOf(rows[i := rows[i].(isActive := false)], other) == DevicesOf(rows, other)
  {
    var n := |rows| - 1;
    var changed := rows[i := rows[i].(isActive := false)];
    if i < n {
      OtherRowChanged(rows[..n], i, other);
      assert changed[..n] == rows[..n][i := rows[i].(isActive := false)];
    } else {
      assert changed[..n] == rows[..n];
    }
  }

  lemma {:induction false} DeactivateDevices(rows: seq<Assignment>, operator: string, other: string)
    ensures DevicesOf(Deactivate(rows, operator), other) == if other == operator then [] else DevicesOf(rows, other)
  {
    if rows != [] {
      var n := |rows| - 1;
      DeactivateDevices(rows[..n], operator, other);
      assert Deactivate(rows, operator)[..n] == Deactivate(rows[..n], operator);
    }
  }

  lemma {:induction false} NoDevices(rows: seq<Assignment>, operator: string)
    requires forall i | 0 <= i < |rows| :: rows[i].operatorId == operator ==> !rows[i].isActive
    ensures DevicesOf(rows, operator) == []
  {
    if rows != [] { NoDevices(rows[..|rows| - 1], operator); }
  }

  /** An operator's active row is its only device. */
  lemma {:induction false} SingleDevice(rows: seq<Assignment>, operator: string, i: nat)
    requires OneActive(rows) && i < |rows| && rows[i].operatorId == operator && rows[i].isActive
    ensures DevicesOf(rows, operator) == [rows[i].deviceId]
  {
    var n := |rows| - 1;
    if i == n {
      NoDevices(rows[..n], operator);
    } else {
      SingleDevice(rows[..n], operator, i);
    }
  }

  lemma OtherCallsLeaveAssignments(cfg: Config, s: Store, step: Step)
    requires Permitted(s, step) && !step.op.Assign? && !step.op.Remove?
    ensures Effect(cfg, s, step).assignments == s.assignments
  {
    hide Effect;
    if Frames.OnConsents(step.op) {
      Frames.ConsentCallFrame(cfg, s, step);
    } else if Frames.OnSessions(step.op) {
      Frames.SessionCallFrame(cfg, s, step);
    } else if step.op.Tamper? {
      Frames.CascadeFrame(cfg, s, step);
    } else {
      Frames.TrailCallFrame(cfg, s, step);
    }
  }

  /** Over every run an operator has at most one active assignment. */
  lemma {:induction false} RunKeepsOneActive(cfg: Config, s: Store, steps: seq<Step>)
    requires OneActive(s.assignments) && ValidRun(cfg, s, steps)
    ensures OneActive(Run(cfg, s, steps).assignments)
  {
    if steps != [] {
      var mid, last := Run(cfg, s, steps[..|steps| - 1]), steps[|steps| - 1];
      RunKeepsOneActive(cfg, s, steps[..|steps| - 1]);
      if last.op.Assign? {
        AssignKeepsOneActive(cfg, mid, last.op.deviceId, last.op.operatorId, last.op.assignedBy, last.op.pick);
      } else if last.op.Remove? {
        RemoveKeepsOneActive(mid, last.op.deviceId, last.op.operatorId, last.op.pick);
      } else {
        OtherCallsLeaveAssignments(cfg, mid, last);
        hide Effect;
      }
    }
  }

  /** No assignment of an operator among the steps. */
  ghost predicate NoAssignOf(steps: seq<Step>, operator: string) {
    forall k | 0 <= k < |steps| && steps[k].op.Assign? :: steps[k].op.operatorId != operator
  }

  lemma StepLeavesWithout(cfg: Config, s: Store, step: Step, operator: string)
    requires Permitted(s, step) && OneActive(s.assignments) && DevicesOf(s.assignments, operator) == []
    requires step.op.Assign? ==> step.op.operatorId != operator
    ensures DevicesOf(Apply(cfg, s, step).assignments, operator) == []
  {
    var op := step.op;
    if op.Assign? {
      AssignTakesEffect(cfg, s, op.deviceId, op.operatorId, op.assignedBy, op.pick);
      AssignAnswers(cfg, s, op.deviceId, op.operatorId, op.assignedBy, op.pick);
    } else if op.Remove? {
      RemoveTakesEffect(s, op.deviceId, op.operatorId, op.pick);
    } else {
      OtherCallsLeaveAssignments(cfg, s, step);
      hide Effect;
    }
    hide Assignments.Assign, Assignments.Remove, DevicesOf;
  }

  lemma {:induction false} StaysWithout(cfg: Config, s: Store, steps: seq<Step>, operator: string)
    requires ValidRun(cfg, s, steps) && OneActive(s.assignments) && DevicesOf(s.assignments, operator) == []
    requires NoAssignOf(steps, operator)
    ensures DevicesOf(Run(cfg, s, steps).assignments, operator) == []
  {
    hide Effect, Permitted;
    if steps != [] {
      var before, last := steps[..|steps| - 1], steps[|steps| - 1];
      StaysWithout(cfg, s, before, operator);
      RunKeepsOneActive(cfg, s, before);
      assert last == steps[|steps| - 1];
      StepLeavesWithout(cfg, Run(cfg, s, before), last, operator);
    }
  }

  /** An operator removed from its device has none over any continuation that does not assign it again. */
  lemma RemovalLasts(cfg: Config, s: Store, step: Step, steps: seq<Step>)
    requires Permitted(s, step) && step.op.Remove? && OneActive(s.assignments)
    requires HasAssignment(s.assignments, step.op.deviceId, step.op.operatorId)
    requires ValidRun(cfg, Apply(cfg, s, step), steps) && NoAssignOf(steps, step.op.operatorId)
    ensures DevicesOf(Run(cfg, Apply(cfg, s, step), steps).assignments, step.op.operatorId) == []
  {
    var op := step.op;
    RemoveTakesEffect(s, op.deviceId, op.operatorId, op.pick);
    RemoveKeepsOneActive(s, op.deviceId, op.operatorId, op.pick);
    assert Apply(cfg, s, step).assignments == Assignments.Remove(s, op.deviceId, op.operatorId, op.pick).0.assignments;
    hide Effect, Permitted, Assignments.Remove, DevicesOf;
    StaysWithout(cfg, Apply(cfg, s, step), steps, op.operatorId);
  }

  /** Hence the app's device list has at most one entry. */
  lemma AtMostOneDevice(rows: seq<Assignment>, operator: string)
    requires OneActive(rows)
    ensures |DevicesOf(rows, operator)| <= 1
  {
    if i :| 0 <= i < |rows| && rows[i].operatorId == operator && rows[i].isActive {
      SingleDevice(rows, operator, i);
    } else {
      NoDevices(rows, operator);
    }
  }

  lemma AssignedDevice(rows: seq<Assignment>, device: string, operator: string)
    requires OneActive(rows) && HasAssignment(rows, device, operator)
    ensures DevicesOf(rows, operator) == [device]
  {
    var i :| 0 <= i < |rows| && rows[i].deviceId == device && rows[i].operatorId == operator && rows[i].isActive;
    SingleDevice(rows, operator, i);
  }

  /** And an operator can file requests for one device only: the one its list shows. */
  lemma OneDevicePasses(cfg: Config, s: Store, operator: string, d1: string, d2: string,
                        owner1: Option<string>, owner2: Option<string>, caller1: string, caller2: string)
    requires OneActive(s.assignments)
    requires ValidateParties(cfg, s, owner1, Some(operator), caller1, d1).Ok?
    requires ValidateParties(cfg, s, owner2, Some(operator), caller2, d2).Ok?
    ensures d1 == d2 && DevicesOf(s.assignments, operator) == [d1]
  {
    AssignedDevice(s.assignments, d1, operator);
    AssignedDevice(s.assignments, d2, operator);
  }

  // ------------------------------------------------------------ stored parties

  /** The owner is the device row's owner and has that role; the operator is an operator, another user. */
  ghost predicate ProperParties(cfg: Config, c: Consent) {
    && c.deviceId.Some?
    && var device := FindDevice(cfg.devices, c.deviceId.value);
    && var owner, operator := FindUser(cfg.users, c.ownerId), FindUser(cfg.users, c.operatorId);
    && device.Some? && device.value.ownerId == Some(c.ownerId)
    && owner.Some? && owner.value.role.Owner?
    && operator.Some? && operator.value.role.Operator?
    && c.ownerId != c.operatorId
  }

  lemma NewParties(cfg: Config, s: Store, caller: string, body: CreateBody, newId: string, now: int)
    ensures var r := CreateConsentRequest(cfg, s, caller, body, newId, now).1;
      r.Ok? ==> ProperParties(cfg, r.value) && r.value.operatorId == caller
  {}

  lemma FiledParties(cfg: Config, s: Store, step: Step)
    requires Permitted(s, step)
    ensures forall i | |s.consents| <= i < |Apply(cfg, s, step).consents| ::
      ProperParties(cfg, Apply(cfg, s, step).consents[i])
  {
    if step.op.Create? {
      NewParties(cfg, s, step.op.caller, step.op.body, step.op.newId, step.now);
    } else {
      Frames.OnlyFilingAdds(cfg, s, step);
      hide Effect;
    }
  }

  /** Every request of every reachable state has proper parties. */
  lemma {:induction false} RunKeepsParties(cfg: Config, start: int, steps: seq<Step>, i: nat)
    requires ValidRun(cfg, EmptyStore(start), steps) && i < |Run(cfg, EmptyStore(start), steps).consents|
    ensures ProperParties(cfg, Run(cfg, EmptyStore(start), steps).consents[i])
  {
    hide Effect, Permitted, ConsentsInv;
    var s0 := EmptyStore(start);
    assert steps != [];
    var before, last := steps[..|steps| - 1], steps[|steps| - 1];
    var mid := Run(cfg, s0, before);
    ConsentRuns.RunKeepsInv(cfg, s0, before) by { ConsentRuns.EmptyInv(start); }
    ConsentRuns.StepEffect(cfg, mid, last);
    FiledParties(cfg, mid, last);
    if i < |mid.consents| {
      RunKeepsParties(cfg, start, before, i);
      assert RowsAdvance(mid.consents, Run(cfg, s0, steps).consents);
    }
  }
}
