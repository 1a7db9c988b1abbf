/** sessions.service.ts: starting, moving and ending sessions in the table. */
module SessionsService {
  import opened Wrappers
  import opened Entities
  import opened Database
  import opened Transactions
  import Sessions

  class SessionsService {
    const db: Tables
    const bleEvents: BleEventsService

    ghost predicate Valid() {
      bleEvents.db == db
    }

    constructor (db: Tables, bleEvents: BleEventsService)
      requires bleEvents.db == db
      ensures Valid() && this.db == db
    {
      this.db, this.bleEvents := db, bleEvents;
    }

    /** The unordered lookup by session_id: some matching row, if there is one. */
    method FindAny(sid: string) returns (pick: Option<nat>)
      ensures Sessions.AnyWithId(db.sessions, sid, pick)
    {
      for i := 0 to |db.sessions|
        invariant forall k | 0 <= k < i :: db.sessions[k].sessionId != sid
      {
        if db.sessions[i].sessionId == sid { return Some(i); }
      }
      pick := None;
    }

    method GetActiveByDevice(device: string) returns (pick: Option<nat>)
      ensures Sessions.AnyOpenOnDevice(db.sessions, device, pick)
    {
      for i := 0 to |db.sessions|
        invariant forall k | 0 <= k < i :: !(db.sessions[k].deviceId == device && db.sessions[k].Open())
      {
        if db.sessions[i].deviceId == device && db.sessions[i].Open() { return Some(i); }
      }
      pick := None;
    }

    /** The ordered lookup: a scan that keeps the row with the greatest startedAt. */
    method FindBySessionId(sid: string) returns (r: Option<nat>)
      ensures r == Sessions.Latest(db.sessions, sid)
    {
      r := None;
      for i := 0 to |db.sessions|
        invariant r == Sessions.Latest(db.sessions[..i], sid)
      {
        assert db.sessions[..i + 1][..i] == db.sessions[..i];
        if db.sessions[i].sessionId == sid && (r.None? || db.sessions[r.value].startedAt <= db.sessions[i].startedAt) {
          r := Some(i);
        }
      }
      assert db.sessions[..|db.sessions|] == db.sessions;
    }

    method End(sid: string, reason: EndReason, now: int) returns (r: Result<Session, ApiError>)
      requires Valid()
      modifies db
      ensures (db.State(), r) == Sessions.End(old(db.State()), sid, reason, now)
    {
      var at := FindBySessionId(sid);
      if at.None? { return Err(NotFound); }
      var session := db.sessions[at.value];
      if session.endedAt.Some? { return Ok(session); }
      session := session.(endedAt := Some(now), endedReason := Some(reason));
      session := session.(state := Ending);
      db.SaveSession(at.value, session);
      bleEvents.RecordEvent(Sessions.EndedEvent(session));
      r := Ok(session);
    }

    method UpdateState(sid: string, state: SessionState) returns (r: Result<Session, ApiError>)
      modifies db
      ensures (db.State(), r) == Sessions.UpdateState(old(db.State()), sid, state)
    {
      var at := FindBySessionId(sid);
      if at.None? { return Err(NotFound); }
      var session := db.sessions[at.value];
      if session.endedAt.Some? { return Err(AlreadyEnded); }
      if state !in Sessions.Transitions(session.state) { return Err(InvalidTransition); }
      session := session.(state := state);
      db.SaveSession(at.value, session);
      r := Ok(session);
    }

    /** Close every open session of a device: one bulk update, sent through the caller's transaction
        when there is one. `sent` is false when the database rejected it. */
    method EndAllActive(device: string, reason: EndReason, now: int, manager: Transaction?)
      returns (affected: nat, sent: bool)
      requires manager != null ==> manager.db == db
      modifies db, manager
      ensures manager == null ==>
        sent && (db.State(), affected) == Sessions.EndAllActive(old(db.State()), device, reason, now)
      ensures manager != null ==>
        && (manager.State(), sent) == Execute(old(manager.State()), [Statement(EndOpen(device, reason, now), true)],
                                              manager.fault)
        && (sent ==> affected == Sessions.OpenCount(old(manager.State().View().sessions), device))
    {
      if manager == null {
        affected := db.EndOpenSessions(device, reason, now);
        sent := true;
      } else {
        affected := Sessions.OpenCount(manager.State().View().sessions, device);
        sent := manager.Send(EndOpen(device, reason, now));
      }
    }

    /** The partial unique index: would another open row of this session_id be rejected? */
    method IndexRejects(sid: string) returns (rejected: bool)
      ensures rejected <==> Sessions.HasOpen(db.sessions, sid)
    {
      for i := 0 to |db.sessions|
        invariant forall k | 0 <= k < i :: !(db.sessions[k].sessionId == sid && db.sessions[k].Open())
      {
        if db.sessions[i].sessionId == sid && db.sessions[i].Open() { return true; }
      }
      rejected := false;
    }

    /** End any other open session of the device. */
    method DisplaceOther(dto: Sessions.StartDto, now: int) returns (ghost active: Option<nat>)
      requires Valid()
      modifies db
      ensures Sessions.AnyOpenOnDevice(old(db.sessions), dto.deviceId, active)
      ensures db.State() ==
        if active.Some? && old(db.sessions)[active.value].sessionId != dto.sessionId
        then Sessions.End(old(db.State()), old(db.sessions)[active.value].sessionId, ByDisconnect, now).0
        else old(db.State())
    {
      var found := GetActiveByDevice(dto.deviceId);
      active := found;
      if found.Some? && db.sessions[found.value].sessionId != dto.sessionId {
        var _ := End(db.sessions[found.value].sessionId, ByDisconnect, now);
      }
    }

    /** The insert transaction: the session row and, when identity was given, its snapshot, together
        or not at all. */
    method Insert(dto: Sessions.StartDto, fault: Fault) returns (session: Session, ok: bool)
      modifies db
      ensures ok == fault.Commits? && session == Sessions.NewSession(dto, old(db.nextStart))
      ensures db.State() == if ok then Sessions.Insert(old(db.State()), dto) else old(db.State())
    {
      InsertIsAtomic(db.State(), dto, fault);
      session := Session(dto.sessionId, dto.deviceId, dto.operatorId, dto.ownerId, dto.identity, Idle,
                         db.nextStart, None, None);
      ghost var program := InsertProgram(db.State(), dto);
      ghost var first := [Statement(InsertSession(session), true)];
      ghost var rest := program[1..];
      assert program == first + rest;
      ExecuteAppend(Begin(db.State()), first, rest, fault);
      var manager := new Transaction(db, fault);
      ok := manager.Send(InsertSession(session));
      if ok && Sessions.HasIdentity(dto.identity) {
        ok := manager.Send(InsertSnapshot(Snapshot(dto.sessionId, dto.deviceId, dto.ownerId, dto.identity)));
      }
      if ok {
        ok := manager.Commit();
      } else {
        manager.Abandon();
      }
    }

    /** Idempotent for an open session; otherwise displaces the device's other session and inserts.
        `fault` is a database error of the insert's own; `ch` records what the lookups answered. */
    method Start(dto: Sessions.StartDto, now: int, fault: Fault)
      returns (r: Result<Session, ApiError>, ghost ch: Sessions.Choices)
      requires Valid()
      modifies db
      ensures Sessions.LegalChoices(old(db.State()), dto, ch) && (ch.insertFails <==> fault.Rejects?)
      ensures (db.State(), r) == Sessions.Start(old(db.State()), dto, now, ch)
    {
      hide Sessions.End, Sessions.Insert;
      ghost var s := db.State();
      var existing := FindAny(dto.sessionId);
      ch := Sessions.Choices(existing, SomeActive(db.sessions, dto.deviceId), existing, fault.Rejects?);
      if existing.Some? && db.sessions[existing.value].endedAt.None? {
        return Ok(db.sessions[existing.value]), ch;
      }
      ghost var active := DisplaceOther(dto, now);
      ch := ch.(active := active);
      assert db.State() == Sessions.Displace(s, dto, now, ch);
      DisplaceKeepsIds(s, dto, now, ch);
      var rejected := IndexRejects(dto.sessionId);
      var session, ok := Insert(dto, if rejected then Rejects(0) else fault);
      if ok { return Ok(session), ch; }
      var raced := FindAny(dto.sessionId);
      ch := ch.(raced := raced);
      if raced.Some? { return Ok(db.sessions[raced.value]), ch; }
      r := Err(DatabaseFailure);
    }
  }

  /** Ending a session renames none. */
  lemma DisplaceKeepsIds(s: Store, dto: Sessions.StartDto, now: int, ch: Sessions.Choices)
    requires Sessions.LegalChoices(s, dto, ch)
    ensures var s1 := Sessions.Displace(s, dto, now, ch);
      && |s1.sessions| == |s.sessions|
      && forall i | 0 <= i < |s.sessions| :: s1.sessions[i].sessionId == s.sessions[i].sessionId
  {}

  /** Some legal answer of the active-session lookup, for the record of a start that never asks. */
  ghost function SomeActive(rows: seq<Session>, device: string): (pick: Option<nat>)
    ensures Sessions.AnyOpenOnDevice(rows, device, pick)
  {
    if i: nat :| i < |rows| && rows[i].deviceId == device && rows[i].Open() then Some(i) else None
  }
}
