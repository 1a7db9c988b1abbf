/** The BLE session state machine, as functions of the session table. */
module Sessions {
  import opened Wrappers
  import opened Entities

  /** The states a session may move to from each state. */
  function Transitions(s: SessionState): set<SessionState> {
    match s
    case Idle => {Requested, Ending}
    case Requested => {Active, Idle, Ending}
    case Active => {Completed, Ending}
    case Completed => {Idle, Ending}
    case Ending => {}
  }

  datatype StartDto = StartDto(
    sessionId: string, deviceId: string, operatorId: string, ownerId: string, identity: Identity)

  predicate HasIdentity(i: Identity) {
    || Truthy(i.macAddress) || Truthy(i.fwVersion) || Truthy(i.hwVersion)
    || Truthy(i.bleVersion) || Truthy(i.tlsVersion)
  }

  // ----------------------------------------------------------------- lookups

  /** No row of the same session_id started later; of equal stamps the last row counts. */
  ghost predicate Newest(rows: seq<Session>, i: nat)
    requires i < |rows|
  {
    forall j | 0 <= j < |rows| && rows[j].sessionId == rows[i].sessionId ::
      rows[j].startedAt < rows[i].startedAt || (rows[j].startedAt == rows[i].startedAt && j <= i)
  }

  /** The row of a session_id with the greatest startedAt (the ordered lookup). */
  function Latest(rows: seq<Session>, sid: string): (r: Option<nat>)
    ensures r.None? ==> forall i | 0 <= i < |rows| :: rows[i].sessionId != sid
    ensures r.Some? ==> r.value < |rows| && rows[r.value].sessionId == sid && Newest(rows, r.value)
  {
    if rows == [] then None
    else
      var n := |rows| - 1;
      var best := Latest(rows[..n], sid);
      if rows[n].sessionId == sid && (best.None? || rows[best.value].startedAt <= rows[n].startedAt)
      then Some(n)
      else best
  }

  /** A legal answer of an unordered lookup by session_id: any match, or none if there is none. */
  predicate AnyWithId(rows: seq<Session>, sid: string, pick: Option<nat>) {
    && (pick.Some? ==> pick.value < |rows| && rows[pick.value].sessionId == sid)
    && (pick.None? ==> forall i | 0 <= i < |rows| :: rows[i].sessionId != sid)
  }

  /** A legal answer of the unordered lookup of a device's open session. */
  predicate AnyOpenOnDevice(rows: seq<Session>, device: string, pick: Option<nat>) {
    && (pick.Some? ==> pick.value < |rows| && rows[pick.value].deviceId == device && rows[pick.value].Open())
    && (pick.None? ==> forall i | 0 <= i < |rows| :: !(rows[i].deviceId == device && rows[i].Open()))
  }

  /** Whether the partial unique index would reject another open row of this session_id. */
  predicate HasOpen(rows: seq<Session>, sid: string) {
    exists i | 0 <= i < |rows| :: rows[i].sessionId == sid && rows[i].Open()
  }

  // -------------------------------------------------------------- operations

  function Ended(r: Session, reason: EndReason, now: int): Session {
    r.(endedAt := Some(now), endedReason := Some(reason), state := Ending)
  }

  function EndedEvent(r: Session): Event {
    Event(Server, SessionEnded, Some(AppToBe), Some(r.sessionId), None, None, None)
  }

  function End(s: Store, sid: string, reason: EndReason, now: int): (Store, Result<Session, ApiError>) {
    var at := Latest(s.sessions, sid);
    if at.None? then (s, Err(NotFound))
    else if !s.sessions[at.value].Open() then (s, Ok(s.sessions[at.value]))
    else
      var r := Ended(s.sessions[at.value], reason, now);
      (s.(sessions := s.sessions[at.value := r], events := s.events + [EndedEvent(r)]), Ok(r))
  }

  function UpdateState(s: Store, sid: string, state: SessionState): (Store, Result<Session, ApiError>) {
    var at := Latest(s.sessions, sid);
    if at.None? then (s, Err(NotFound))
    else
      var r := s.sessions[at.value];
      if !r.Open() then (s, Err(AlreadyEnded))
      else if state !in Transitions(r.state) then (s, Err(InvalidTransition))
      else (s.(sessions := s.sessions[at.value := r.(state := state)]), Ok(r.(state := state)))
  }

  /** The bulk update: every open row of the device is ended. */
  function EndOnDevice(rows: seq<Session>, device: string, reason: EndReason, now: int): (r: seq<Session>)
    ensures |r| == |rows|
    ensures forall i | 0 <= i < |rows| ::
      r[i] == if rows[i].deviceId == device && rows[i].Open() then Ended(rows[i], reason, now) else rows[i]
  {
    seq(|rows|, i requires 0 <= i < |rows| =>
      if rows[i].deviceId == device && rows[i].Open() then Ended(rows[i], reason, now) else rows[i])
  }

  /** How many open sessions a device has: the affected-row count of the bulk update. */
  function OpenCount(rows: seq<Session>, device: string): nat {
    if rows == [] then 0
    else
      var n := |rows| - 1;
      OpenCount(rows[..n], device) + (if rows[n].deviceId == device && rows[n].Open() then 1 else 0)
  }

  function EndAllActive(s: Store, device: string, reason: EndReason, now: int): (Store, nat) {
    (s.(sessions := EndOnDevice(s.sessions, device, reason, now)), OpenCount(s.sessions, device))
  }

  // ------------------------------------------------------------------- start

  /** Every choice the database makes during one start: the rows its three unordered
      lookups answer, and whether the insert transaction fails for a reason of its own. */
  datatype Choices = Choices(existing: Option<nat>, active: Option<nat>, raced: Option<nat>, insertFails: bool)

  predicate LegalChoices(s: Store, dto: StartDto, ch: Choices) {
    && AnyWithId(s.sessions, dto.sessionId, ch.existing)
    && AnyOpenOnDevice(s.sessions, dto.deviceId, ch.active)
    && AnyWithId(s.sessions, dto.sessionId, ch.raced)
  }

  function NewSession(dto: StartDto, stamp: nat): Session {
    Session(dto.sessionId, dto.deviceId, dto.operatorId, dto.ownerId, dto.identity, Idle, stamp, None, None)
  }

  function Insert(s: Store, dto: StartDto): Store {
    s.(sessions := s.sessions + [NewSession(dto, s.nextStart)],
       snapshots := if HasIdentity(dto.identity)
                    then s.snapshots + [Snapshot(dto.sessionId, dto.deviceId, dto.ownerId, dto.identity)]
                    else s.snapshots,
       nextStart := s.nextStart + 1)
  }

  /** The store once start has ended another open session of the device. */
  function Displace(s: Store, dto: StartDto, now: int, ch: Choices): Store
    requires LegalChoices(s, dto, ch)
  {
    if ch.active.Some? && s.sessions[ch.active.value].sessionId != dto.sessionId
    then End(s, s.sessions[ch.active.value].sessionId, ByDisconnect, now).0
    else s
  }

  function Start(s: Store, dto: StartDto, now: int, ch: Choices): (Store, Result<Session, ApiError>)
    requires LegalChoices(s, dto, ch)
  {
    if ch.existing.Some? && s.sessions[ch.existing.value].Open() then (s, Ok(s.sessions[ch.existing.value]))
    else
      var s1 := Displace(s, dto, now, ch);
      if !ch.insertFails && !HasOpen(s1.sessions, dto.sessionId) then
        (Insert(s1, dto), Ok(NewSession(dto, s1.nextStart)))
      else if ch.raced.Some? then (s1, Ok(s1.sessions[ch.raced.value]))
      else (s1, Err(DatabaseFailure))
  }
}
