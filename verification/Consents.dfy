/** The consent lifecycle, as functions of the store. */
module Consents {
  import opened Wrappers
  import opened Entities
  import opened Trails
  import Sessions
  import Transactions

  const FALLBACK_DECISION_NORMAL_MS := 120000
  const FALLBACK_DECISION_HIGH_MS := 60000
  const REQUEST_EXPIRED := "REQUEST_EXPIRED"
  const OPERATOR_DECLINED := "OPERATOR_DECLINED"
  const TAMPER_DETECTED := "TAMPER_DETECTED"
  const TAMPER_ABORTED := "TAMPER_ABORTED"

  // --------------------------------------------------------- decision window

  /** The decision window (ms) of a priority, from the device's settings when there is a device. */
  function DecisionTimeoutMs(priority: Option<string>, device: Option<Device>): int {
    var isHigh := priority.Some? && Lower(priority.value) == "high";
    if device.Some? then
      (if isHigh then device.value.consentDecisionHighSec else device.value.consentDecisionNormalSec) * 1000
    else if isHigh then FALLBACK_DECISION_HIGH_MS
    else FALLBACK_DECISION_NORMAL_MS
  }

  /** The stored deadline; rows that predate it fall back to expires_at, then to createdAt. */
  function DecisionDeadline(c: Consent): int {
    if c.decisionDeadlineMs.Some? then c.decisionDeadlineMs.value
    else if c.expiresAt.Some? then c.expiresAt.value
    else c.createdAt + DecisionTimeoutMs(c.priority, None)
  }

  predicate Overdue(c: Consent, now: int) {
    c.status.Pending? && now > DecisionDeadline(c)
  }

  // ----------------------------------------------------------------- lookups

  datatype Key = ById(id: string) | ByConsentId(id: string) | ByTxn(id: string)

  /** A uuid column compares regardless of the case of the given text; text columns exactly. */
  predicate Matches(c: Consent, k: Key) {
    match k
    case ById(x) => c.id == Lower(x)
    case ByConsentId(x) => c.consentId == Some(x)
    case ByTxn(x) => c.txnRef == x
  }

  function Find(rows: seq<Consent>, k: Key): (r: Option<nat>)
    ensures r.Some? ==> r.value < |rows| && Matches(rows[r.value], k)
    ensures r.None? ==> forall i | 0 <= i < |rows| :: !Matches(rows[i], k)
  {
    if rows == [] then None
    else if Matches(rows[|rows| - 1], k) then Some(|rows| - 1)
    else Find(rows[..|rows| - 1], k)
  }

  /** The row the poll, the detail read and the decision endpoint act on. */
  function Resolve(rows: seq<Consent>, key: string): Option<nat> {
    if IsUuid(key) then Find(rows, ById(key)) else Find(rows, ByConsentId(key))
  }

  /** The row an abort acts on: row id, then consent id, then transaction. */
  function AbortTarget(rows: seq<Consent>, key: string): Option<nat> {
    var byId := if IsUuid(key) then Find(rows, ById(key)) else None;
    var byConsent := if byId.Some? then byId else Find(rows, ByConsentId(key));
    if byConsent.Some? then byConsent else Find(rows, ByTxn(key))
  }

  /** A row the party check of the abort endpoint may read: its lookup is an unordered OR. */
  predicate PartyRow(rows: seq<Consent>, key: string, i: nat) {
    && i < |rows|
    && if IsUuid(key) then Matches(rows[i], ById(key))
       else Matches(rows[i], ByConsentId(key)) || Matches(rows[i], ByTxn(key))
  }

  // -------------------------------------------------------------- transitions

  /** Store a decided row and write its event and its audit row. */
  function Settle(s: Store, i: nat, c: Consent, e: Event, dto: AuditDto): Store
    requires i < |s.consents|
  {
    s.(consents := s.consents[i := c], events := s.events + [e], audits := s.audits + [LogRow(dto)])
  }

  function Expire(c: Consent): Consent {
    c.(status := Expired, abortedReason := Some(REQUEST_EXPIRED))
  }

  function ExpireRow(s: Store, i: nat, actorId: string, role: string, action: AuditAction): Store
    requires i < |s.consents|
  {
    var c := Expire(s.consents[i]);
    Settle(s, i, c, SettledEvent(c, ConsentExpired, c.abortedReason), ForConsent(action, System, actorId, role, c))
  }

  function SweepRow(s: Store, i: nat): Store
    requires i < |s.consents|
  {
    ExpireRow(s, i, "SYSTEM", "system", ExpiredBySweep(s.consents[i].txnRef))
  }

  /** The positions of the overdue pending rows, in table order. */
  function OverdueRows(rows: seq<Consent>, now: int): (r: seq<nat>)
    ensures forall k | 0 <= k < |r| :: r[k] < |rows|
  {
    if rows == [] then []
    else
      var n := |rows| - 1;
      OverdueRows(rows[..n], now) + (if Overdue(rows[n], now) then [n] else [])
  }

  function SweepRows(s: Store, list: seq<nat>): (r: Store)
    requires forall k | 0 <= k < |list| :: list[k] < |s.consents|
    ensures |r.consents| == |s.consents|
  {
    if list == [] then s
    else SweepRow(SweepRows(s, list[..|list| - 1]), list[|list| - 1])
  }

  function ExpireStalePending(s: Store, now: int): (Store, nat) {
    var list := OverdueRows(s.consents, now);
    (SweepRows(s, list), |list|)
  }

  /** A consent with a session must not belong to a session of another device. */
  predicate SessionConsistent(sessions: seq<Session>, sessionId: Option<string>, deviceId: Option<string>) {
    if !Truthy(sessionId) then true
    else
      var at := Sessions.Latest(sessions, sessionId.value);
      at.None? || !Truthy(deviceId) || sessions[at.value].deviceId == deviceId.value
  }

  /** The reason of a decision body, whose shape nothing validates: left out, null, or a text. */
  datatype Given = Absent | Null | Text(text: string)

  /** The reason a rejection stores: its default stands in for one left out, not for null. */
  function StoredReason(reason: Given): Option<string> {
    match reason
    case Absent => Some(OPERATOR_DECLINED)
    case Null => None
    case Text(text) => Some(text)
  }

  datatype Decision = Approval | Refusal(reason: Option<string>)

  function Decided(c: Consent, d: Decision, now: int): Consent {
    match d
    case Approval => c.(status := Approved, approvedAt := Some(now))
    case Refusal(reason) => c.(status := Rejected, abortedReason := reason, rejectedAt := Some(now))
  }

  function DecidedEvent(c: Consent, d: Decision): Event {
    match d
    case Approval => SettledEvent(c, ConsentApproved, None)
    case Refusal(reason) => SettledEvent(c, ConsentRejected, reason)
  }

  function DecidedAudit(c: Consent, d: Decision, actorId: string): AuditDto {
    match d
    case Approval => ForConsent(DecisionApproved(c.title), Approve, actorId, "owner", c)
    case Refusal(_) => ForConsent(DecisionRejected(c.title), Reject, actorId, "owner", c)
  }

  /** approve and reject: expire a late request first, then decide a pending one. */
  function Decide(s: Store, id: string, actorId: string, d: Decision, now: int)
    : (Store, Result<Consent, ApiError>)
  {
    var at := Find(s.consents, ById(id));
    if at.None? then (s, Err(NotFound))
    else
      var i := at.value;
      var c := s.consents[i];
      if Overdue(c, now) then
        (ExpireRow(s, i, actorId, "owner", ExpiredByWindow(c.txnRef)), Err(StatusIs(Expired)))
      else if !c.status.Pending? then (s, Err(StatusIs(c.status)))
      else if !SessionConsistent(s.sessions, c.sessionId, c.deviceId) then (s, Err(SessionMismatch))
      else
        var c' := Decided(c, d, now);
        (Settle(s, i, c', DecidedEvent(c', d), DecidedAudit(c', d, actorId)), Ok(c'))
  }

  datatype SubmitResponse = SubmitResponse(consentId: string, decision: string, decidedAt: int)

  /** POST /consent_response: resolve the row, decide it, report the stored decision time. */
  function Submit(s: Store, actorId: string, key: string, decision: string, reason: Given, now: int)
    : (Store, Result<SubmitResponse, ApiError>)
  {
    var at := Resolve(s.consents, key);
    if at.None? then (s, Err(NotFound))
    else if decision != "approved" && decision != "rejected" then (s, Err(InvalidDecision))
    else
      var d := if decision == "approved" then Approval else Refusal(StoredReason(reason));
      var (s', r) := Decide(s, s.consents[at.value].id, actorId, d, now);
      match r
      case Err(e) => (s', Err(e))
      case Ok(c) =>
        (s', Ok(SubmitResponse(PublicId(c), decision,
          if decision == "approved" then c.approvedAt.GetOr(now) else c.rejectedAt.GetOr(now))))
  }

  // ------------------------------------------------------------------- aborts

  predicate IsTamperReason(reason: string) {
    reason == TAMPER_DETECTED || reason == TAMPER_ABORTED
  }

  predicate IsSpecRejection(reason: string) {
    || reason == OPERATOR_DECLINED || reason == "INVALID_REQUEST"
    || reason == "ERR_DUPLICATE_TXN" || reason == "ERR_INVALID_PAYLOAD"
  }

  /** The terminal status and the event type an abort reason stands for. */
  function Classify(reason: string): (Status, EventType) {
    if IsTamperReason(reason) then (TamperAborted, ConsentTamperAborted)
    else if reason == REQUEST_EXPIRED then (Expired, ConsentExpired)
    else if IsSpecRejection(reason) then (Rejected, ConsentRejected)
    else (Rejected, ConsentAborted)
  }

  function Aborted(c: Consent, reason: string, now: int): Consent {
    var status := Classify(reason).0;
    c.(status := status,
       abortedReason := Some(reason),
       rejectedAt := if status.Rejected? && c.rejectedAt.None? then Some(now) else c.rejectedAt)
  }

  function AbortRow(s: Store, i: nat, reason: string, now: int): Store
    requires i < |s.consents|
  {
    var c := Aborted(s.consents[i], reason, now);
    Settle(s, i, c, SettledEvent(c, Classify(reason).1, c.abortedReason),
           ForConsent(SettledOutOfBand(c.status, c.txnRef), System, "SYSTEM", "system", c))
  }

  function MarkAborted(s: Store, key: string, reason: string, now: int): Store {
    var at := AbortTarget(s.consents, key);
    if at.None? || !s.consents[at.value].status.Pending? then s
    else AbortRow(s, at.value, reason, now)
  }

  /** The statements of one abort: the row is saved through the caller's manager when there is one,
      its two trail rows are written past it. */
  function AbortProgram(s: Store, key: string, reason: string, now: int, managed: bool)
    : seq<Transactions.Statement>
  {
    var at := AbortTarget(s.consents, key);
    if at.None? || !s.consents[at.value].status.Pending? then []
    else
      var c := Aborted(s.consents[at.value], reason, now);
      [Transactions.Statement(Transactions.SaveConsent(at.value, c), managed),
       Transactions.Statement(Transactions.AppendEvent(SettledEvent(c, Classify(reason).1, c.abortedReason)), false),
       Transactions.Statement(Transactions.AppendAudit(LogRow(
         ForConsent(SettledOutOfBand(c.status, c.txnRef), System, "SYSTEM", "system", c))), false)]
  }

  // ----------------------------------------------------------------- creation

  datatype CreateBody = CreateBody(
    txn: string,
    consentId: Option<string>,
    deviceId: string,
    ownerId: Option<string>,
    operatorId: Option<string>,
    title: string,
    priority: Option<string>,
    expiresAt: Option<int>,
    sessionId: Option<string>)

  function FindUser(users: seq<User>, id: string): (r: Option<User>)
    ensures r.Some? ==> r.value in users && r.value.id == id
    ensures r.None? ==> forall u | u in users :: u.id != id
  {
    if users == [] then None
    else if users[0].id == id then Some(users[0])
    else FindUser(users[1..], id)
  }

  function FindDevice(devices: seq<Device>, id: string): (r: Option<Device>)
    ensures r.Some? ==> r.value in devices && r.value.deviceId == id
    ensures r.None? ==> forall d | d in devices :: d.deviceId != id
  {
    if devices == [] then None
    else if devices[0].deviceId == id then Some(devices[0])
    else FindDevice(devices[1..], id)
  }

  predicate HasAssignment(rows: seq<Assignment>, deviceId: string, operatorId: string) {
    exists i | 0 <= i < |rows| ::
      rows[i].deviceId == deviceId && rows[i].operatorId == operatorId && rows[i].isActive
  }

  datatype Parties = Parties(owner: User, operator: User)

  function ValidateParties(cfg: Config, s: Store, ownerId: Option<string>, operatorId: Option<string>,
                           authUserId: string, deviceId: string): Result<Parties, ApiError>
  {
    var device := FindDevice(cfg.devices, deviceId);
    if device.None? || !device.value.isActive || device.value.ownerId.None? then Err(NotFound)
    else
      var owner := FindUser(cfg.users, device.value.ownerId.value);
      if owner.None? then Err(NotFound)
      else if Truthy(ownerId) && ownerId.value != owner.value.id then Err(Forbidden)
      else if !owner.value.role.Owner? then Err(BadParty)
      else if !Truthy(operatorId) then Err(BadParty)
      else
        var operator := FindUser(cfg.users, operatorId.value);
        if operator.None? then Err(NotFound)
        else if !operator.value.role.Operator? then Err(BadParty)
        else if operator.value.id != authUserId then Err(Forbidden)
        else if !HasAssignment(s.assignments, deviceId, operator.value.id) then Err(Forbidden)
        else if cfg.hardPin && (owner.value.id != "USR-001" || operator.value.id != "USR-002") then Err(BadParty)
        else Ok(Parties(owner.value, operator.value))
  }

  predicate HasPendingOn(rows: seq<Consent>, sessionId: string) {
    exists i | 0 <= i < |rows| :: rows[i].sessionId == Some(sessionId) && rows[i].status.Pending?
  }

  /** Whether a unique column of the table already holds a value of this row. */
  predicate Clashes(rows: seq<Consent>, c: Consent) {
    exists i | 0 <= i < |rows| ::
      || rows[i].id == c.id
      || rows[i].txnRef == c.txnRef
      || (c.consentId.Some? && rows[i].consentId == c.consentId)
  }

  /** The device row whose settings a new request's window is taken from. */
  function WindowDevice(cfg: Config, deviceId: string): Option<Device> {
    if deviceId != "" then FindDevice(cfg.devices, deviceId) else None
  }

  function NewConsent(cfg: Config, body: CreateBody, parties: Parties, newId: string, now: int): Consent {
    var priority := body.priority.GetOr("normal");
    Consent(newId, body.txn, body.consentId, body.title, Some(priority), body.expiresAt,
            Some(now + DecisionTimeoutMs(Some(priority), WindowDevice(cfg, body.deviceId))), now,
            body.sessionId, Some(body.deviceId), parties.owner.id, parties.operator.id,
            Pending, None, None, None)
  }

  function CreateConsentRequest(cfg: Config, s: Store, caller: string, body: CreateBody, newId: string, now: int)
    : (Store, Result<Consent, ApiError>)
  {
    var parties := ValidateParties(cfg, s, body.ownerId, body.operatorId, caller, body.deviceId);
    if parties.Err? then (s, Err(parties.error))
    else if !SessionConsistent(s.sessions, body.sessionId, Some(body.deviceId)) then (s, Err(SessionMismatch))
    else if Truthy(body.sessionId) && HasPendingOn(s.consents, body.sessionId.value) then (s, Err(SessionHasPending))
    else
      var c := NewConsent(cfg, body, parties.value, newId, now);
      if Clashes(s.consents, c) then (s, Err(DuplicateKey))
      else
        (s.(consents := s.consents + [c],
            audits := s.audits + [LogRow(ForConsent(RequestCreated(c.txnRef), System, caller, "operator", c))],
            events := s.events + [RequestedEvent(c)]),
         Ok(c))
  }

  // --------------------------------------------------------------------- poll

  /** The claims of the minted token; its signature is opaque. */
  datatype Token = Token(
    consentId: string, txn: string, deviceId: string, operatorId: string, decision: string, iat: int)

  datatype PollResponse = PollResponse(
    consentId: string,
    txn: string,
    decision: Option<string>,
    token: Option<Token>,
    payload: Option<string>,
    reason: Option<string>,
    decidedAt: Option<int>)

  function PollOf(cfg: Config, c: Consent, now: int): PollResponse {
    if c.status.Pending? then PollResponse(PublicId(c), c.txnRef, None, None, None, None, None)
    else
      var decision := if c.status.Approved? then "approved" else "rejected";
      var owner := FindUser(cfg.users, c.ownerId);
      PollResponse(
        PublicId(c), c.txnRef, Some(decision),
        Some(Token(PublicId(c), c.txnRef, c.deviceId.GetOr(""), c.operatorId, decision, now / 1000)),
        if c.status.Approved? && owner.Some? then owner.value.pin else None,
        if c.status.Approved? then None else Some(c.abortedReason.GetOr(OPERATOR_DECLINED)),
        if c.status.Approved? then c.approvedAt else c.rejectedAt)
  }

  /** The response without its token, whose issue time is the only thing a later poll changes. */
  function Untimed(r: PollResponse): PollResponse {
    r.(token := if r.token.Some? then Some(r.token.value.(iat := 0)) else None)
  }

  predicate IsParty(c: Consent, caller: string) {
    caller == "" || caller == c.ownerId || caller == c.operatorId
  }

  function Poll(cfg: Config, rows: seq<Consent>, key: string, caller: string, now: int)
    : Result<PollResponse, ApiError>
  {
    var at := Resolve(rows, key);
    if at.None? then Err(NotFound)
    else if !IsParty(rows[at.value], caller) then Err(Forbidden)
    else Ok(PollOf(cfg, rows[at.value], now))
  }
}
