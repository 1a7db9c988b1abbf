/** ble-devices.service.ts: who is assigned to which device. */
module BleDevicesService {
  import opened Wrappers
  import opened Entities
  import opened Assignments
  import opened Database
  import Consents

  class BleDevicesService {
    const cfg: Config
    const db: Tables

    constructor (cfg: Config, db: Tables)
      ensures this.cfg == cfg && this.db == db
    {
      this.cfg, this.db := cfg, db;
    }

    /** The unordered lookup of an active assignment. */
    method FindActive(deviceId: string, operatorId: string) returns (pick: Option<nat>)
      ensures AnyActive(db.assignments, deviceId, operatorId, pick)
    {
      for i := 0 to |db.assignments|
        invariant forall k | 0 <= k < i :: !IsActiveFor(db.assignments[k], deviceId, operatorId)
      {
        if IsActiveFor(db.assignments[i], deviceId, operatorId) { return Some(i); }
      }
      pick := None;
    }

    method FindAllForOperator(operatorId: string) returns (devices: seq<string>)
      ensures devices == DevicesOf(db.assignments, operatorId)
    {
      devices := [];
      for i := 0 to |db.assignments|
        invariant devices == DevicesOf(db.assignments[..i], operatorId)
      {
        assert db.assignments[..i + 1][..i] == db.assignments[..i];
        var a := db.assignments[i];
        if a.operatorId == operatorId && a.isActive { devices := devices + [a.deviceId]; }
      }
      assert db.assignments[..|db.assignments|] == db.assignments;
    }

    /** The bulk update before a re-assignment. */
    method DeactivateAll(operatorId: string)
      modifies db`assignments
      ensures db.assignments == Deactivate(old(db.assignments), operatorId)
    {
      ghost var was := db.assignments;
      for i := 0 to |db.assignments|
        invariant |db.assignments| == |was|
        invariant forall k | 0 <= k < i :: db.assignments[k] == Deactivate(was, operatorId)[k]
        invariant forall k | i <= k < |was| :: db.assignments[k] == was[k]
      {
        var a := db.assignments[i];
        if a.operatorId == operatorId && a.isActive {
          db.assignments := db.assignments[i := a.(isActive := false)];
        }
      }
    }

    method AssignOperator(deviceId: string, operatorId: string, assignedBy: string)
      returns (r: Result<Assignment, ApiError>, ghost pick: Option<nat>)
      modifies db
      ensures AnyActive(old(db.assignments), deviceId, operatorId, pick)
      ensures (db.State(), r) == Assign(cfg, old(db.State()), deviceId, operatorId, assignedBy, pick)
    {
      var existing := FindActive(deviceId, operatorId);  // a read only; the source asks after the two checks below
      pick := existing;
      var device := Consents.FindDevice(cfg.devices, deviceId);
      if device.None? { return Err(NotFound), pick; }
      var operator := Consents.FindUser(cfg.users, operatorId);
      if operator.None? { return Err(NotFound), pick; }
      if existing.Some? { return Ok(db.assignments[existing.value]), pick; }
      DeactivateAll(operatorId);
      var assignment := Assignment(deviceId, operatorId, true, assignedBy);
      db.assignments := db.assignments + [assignment];
      r := Ok(assignment);
    }

    method RemoveOperator(deviceId: string, operatorId: string)
      returns (r: Result<(), ApiError>, ghost pick: Option<nat>)
      modifies db
      ensures AnyActive(old(db.assignments), deviceId, operatorId, pick)
      ensures (db.State(), r) == Remove(old(db.State()), deviceId, operatorId, pick)
    {
      var assignment := FindActive(deviceId, operatorId);
      pick := assignment;
      if assignment.None? { return Err(NotFound), pick; }
      var a := db.assignments[assignment.value];
      db.assignments := db.assignments[assignment.value := a.(isActive := false)];
      r := Ok(());
    }
  }
}
