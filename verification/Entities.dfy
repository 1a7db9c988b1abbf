/** The database tables and the values the services exchange. */
module Entities {
  import opened Wrappers

  // ---------------------------------------------------------------- consents

  /** The legal values of consent_requests.status. */
  datatype Status = Pending | Approved | Rejected | Expired | TamperAborted

  /** A consent_requests row: the request as filed, then its decision. */
  datatype Consent = Consent(
    id: string,
    txnRef: string,
    consentId: Option<string>,
    title: string,
    priority: Option<string>,
    expiresAt: Option<int>,
    decisionDeadlineMs: Option<int>,
    createdAt: int,
    sessionId: Option<string>,
    deviceId: Option<string>,
    ownerId: string,
    operatorId: string,
    status: Status,
    abortedReason: Option<string>,
    approvedAt: Option<int>,
    rejectedAt: Option<int>)

  // ---------------------------------------------------------------- sessions

  datatype SessionState = Idle | Requested | Active | Completed | Ending

  datatype EndReason =
    | ByCompletion | ByTamper | ByTimeout | ByError | ByDisconnect | ByUserAbort | ByOperatorDecline

  /** The DEVICE_IDENTITY values read in the handshake. */
  datatype Identity = Identity(
    fwVersion: Option<string>,
    hwVersion: Option<string>,
    macAddress: Option<string>,
    bleVersion: Option<string>,
    tlsVersion: Option<string>)

  /** A ble_sessions row. `startedAt` is the insertion stamp of the database clock. */
  datatype Session = Session(
    sessionId: string,
    deviceId: string,
    operatorId: string,
    ownerId: string,
    identity: Identity,
    state: SessionState,
    startedAt: nat,
    endedAt: Option<int>,
    endedReason: Option<EndReason>)
  {
    predicate Open() { endedAt.None? }
  }

  /** A device_identity_snapshots row. */
  datatype Snapshot = Snapshot(sessionId: string, deviceId: string, ownerId: string, identity: Identity)

  // ---------------------------------------------- tamper events, assignments

  datatype Reporter = Firmware | App

  datatype TamperEvent = TamperEvent(
    deviceId: string,
    sessionId: Option<string>,
    consentId: Option<string>,
    detectedAt: int,
    reportedBy: Reporter,
    notes: Option<string>)

  datatype Assignment = Assignment(deviceId: string, operatorId: string, isActive: bool, assignedBy: string)

  datatype Role = Owner | Operator

  datatype User = User(id: string, role: Role, pin: Option<string>)

  datatype Device = Device(
    deviceId: string,
    ownerId: Option<string>,
    isActive: bool,
    consentDecisionNormalSec: int,
    consentDecisionHighSec: int)

  // ------------------------------------------------------------------ trails

  datatype EventType =
    | ConsentRequested | ConsentApproved | ConsentRejected
    | ConsentExpired | ConsentAborted | ConsentTamperAborted
    | SessionEnded | TamperDetected | FcmPingSent
    | Other(name: string)

  datatype Direction = AppToFw | FwToApp | AppToBe | BeToApp

  /** Whether a row was written by the server itself or posted by a client. */
  datatype Origin = Server | Client

  /** A ble_event_audit row; its id is its position in the log. */
  datatype Event = Event(
    origin: Origin,
    eventType: EventType,
    direction: Option<Direction>,
    sessionId: Option<string>,
    consentId: Option<string>,
    txn: Option<string>,
    errorCode: Option<string>)

  datatype AuditType = Approve | Reject | Login | System

  /** The `action` column, as the text it renders. */
  datatype AuditAction =
    | RequestCreated(txn: string)
    | DecisionApproved(title: string)
    | DecisionRejected(title: string)
    | ExpiredBySweep(txn: string)
    | ExpiredByWindow(txn: string)
    | SettledOutOfBand(status: Status, txn: string)
    | LoggedIn(who: string)

  /** An audit_logs row. */
  datatype Audit = Audit(
    action: AuditAction,
    auditType: AuditType,
    actorId: Option<string>,
    actorRole: Option<string>,
    consentRequestId: Option<string>,
    consentId: Option<string>,
    txn: Option<string>,
    sessionId: Option<string>,
    deviceId: Option<string>)

  // ------------------------------------------------------------------- store

  /** Tables that no modelled call writes. */
  datatype Config = Config(users: seq<User>, devices: seq<Device>, hardPin: bool)

  /** The mutable tables, the next session insertion stamp and the server clock. */
  datatype Store = Store(
    consents: seq<Consent>,
    sessions: seq<Session>,
    snapshots: seq<Snapshot>,
    tampers: seq<TamperEvent>,
    assignments: seq<Assignment>,
    events: seq<Event>,
    audits: seq<Audit>,
    nextStart: nat,
    clock: int)

  function EmptyStore(start: int): Store {
    Store([], [], [], [], [], [], [], 0, start)
  }

  datatype ApiError =
    | NotFound
    | Forbidden
    | BadParty
    | SessionMismatch
    | SessionHasPending
    | StatusIs(status: Status)
    | InvalidDecision
    | DuplicateKey
    | AlreadyEnded
    | InvalidTransition
    | DatabaseFailure

  // -------------------------------------------------------------------- text

  /** JavaScript truthiness of an optional string. */
  predicate Truthy(s: Option<string>) {
    s.Some? && s.value != ""
  }

  function LowerChar(c: char): char {
    if 'A' <= c <= 'Z' then (c as int + 32) as char else c
  }

  function Lower(s: string): (r: string)
    ensures |r| == |s|
  {
    seq(|s|, i requires 0 <= i < |s| => LowerChar(s[i]))
  }

  predicate IsHex(c: char) {
    '0' <= c <= '9' || 'a' <= c <= 'f' || 'A' <= c <= 'F'
  }

  /** The UUID pattern every identifier lookup tests, 8-4-4-4-12 hex digits in either case. */
  predicate IsUuid(s: string) {
    && |s| == 36
    && forall i | 0 <= i < 36 ::
      if i == 8 || i == 13 || i == 18 || i == 23 then s[i] == '-' else IsHex(s[i])
  }
}
