/** Operator-to-device assignments. */
module Assignments {
  import opened Wrappers
  import opened Entities
  import Consents

  predicate IsActiveFor(a: Assignment, deviceId: string, operatorId: string) {
    a.deviceId == deviceId && a.operatorId == operatorId && a.isActive
  }

  /** A legal answer of the unordered lookup of an active assignment. */
  predicate AnyActive(rows: seq<Assignment>, deviceId: string, operatorId: string, pick: Option<nat>) {
    && (pick.Some? ==> pick.value < |rows| && IsActiveFor(rows[pick.value], deviceId, operatorId))
    && (pick.None? ==> forall i | 0 <= i < |rows| :: !IsActiveFor(rows[i], deviceId, operatorId))
  }

  /** The bulk update: no assignment of the operator stays active. */
  function Deactivate(rows: seq<Assignment>, operatorId: string): (r: seq<Assignment>)
    ensures |r| == |rows|
    ensures forall i | 0 <= i < |rows| ::
      r[i] == if rows[i].operatorId == operatorId && rows[i].isActive then rows[i].(isActive := false) else rows[i]
  {
    seq(|rows|, i requires 0 <= i < |rows| =>
      if rows[i].operatorId == operatorId && rows[i].isActive then rows[i].(isActive := false) else rows[i])
  }

  function Assign(cfg: Config, s: Store, deviceId: string, operatorId: string, assignedBy: string, pick: Option<nat>)
    : (Store, Result<Assignment, ApiError>)
    requires AnyActive(s.assignments, deviceId, operatorId, pick)
  {
    if Consents.FindDevice(cfg.devices, deviceId).None? then (s, Err(NotFound))
    else if Consents.FindUser(cfg.users, operatorId).None? then (s, Err(NotFound))
    else if pick.Some? then (s, Ok(s.assignments[pick.value]))
    else
      var a := Assignment(deviceId, operatorId, true, assignedBy);
      (s.(assignments := Deactivate(s.assignments, operatorId) + [a]), Ok(a))
  }

  function Remove(s: Store, deviceId: string, operatorId: string, pick: Option<nat>): (Store, Result<(), ApiError>)
    requires AnyActive(s.assignments, deviceId, operatorId, pick)
  {
    if pick.None? then (s, Err(NotFound))
    else
      (s.(assignments := s.assignments[pick.value := s.assignments[pick.value].(isActive := false)]), Ok(()))
  }

  /** The devices of the operator's active assignments. */
  function DevicesOf(rows: seq<Assignment>, operatorId: string): seq<string> {
    if rows == [] then []
    else
      var n := |rows| - 1;
      DevicesOf(rows[..n], operatorId)
        + (if rows[n].operatorId == operatorId && rows[n].isActive then [rows[n].deviceId] else [])
  }
}
