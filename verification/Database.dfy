/** The shared database, its transactions, and the two trail services that append to it. */
module Database {
  import opened Wrappers
  import opened Entities
  import opened Trails
  import opened Transactions
  import Sessions

  /** The mutable tables; services share one of these. */
  class Tables {
    var consents: seq<Consent>
    var sessions: seq<Session>
    var snapshots: seq<Snapshot>
    var tampers: seq<TamperEvent>
    var assignments: seq<Assignment>
    var events: seq<Event>
    var audits: seq<Audit>
    var nextStart: nat
    var clock: int

    constructor (start: int)
      ensures State() == EmptyStore(start)
    {
      consents, sessions, snapshots, tampers, assignments := [], [], [], [], [];
      events, audits, nextStart, clock := [], [], 0, start;
    }

    function State(): Store
      reads this
    {
      Store(consents, sessions, snapshots, tampers, assignments, events, audits, nextStart, clock)
    }

    method SaveConsent(i: nat, c: Consent)
      requires i < |consents|
      modifies this`consents
      ensures consents == old(consents)[i := c]
    {
      consents := consents[i := c];
    }

    method SaveSession(i: nat, r: Session)
      requires i < |sessions|
      modifies this`sessions
      ensures sessions == old(sessions)[i := r]
    {
      sessions := sessions[i := r];
    }

    /** The bulk update of a device's open sessions, row by row, with its affected-row count. */
    method EndOpenSessions(device: string, reason: EndReason, at: int) returns (affected: nat)
      modifies this`sessions
      ensures (State(), affected) == Sessions.EndAllActive(old(State()), device, reason, at)
    {
      affected := 0;
      ghost var was := sessions;
      for i := 0 to |sessions|
        invariant |sessions| == |was|
        invariant forall k | 0 <= k < i :: sessions[k] == Sessions.EndOnDevice(was, device, reason, at)[k]
        invariant forall k | i <= k < |was| :: sessions[k] == was[k]
        invariant affected == Sessions.OpenCount(was[..i], device)
      {
        assert was[..i + 1][..i] == was[..i];
        var session := sessions[i];
        if session.deviceId == device && session.endedAt.None? {
          SaveSession(i, session.(endedAt := Some(at), endedReason := Some(reason), state := Ending));
          affected := affected + 1;
        }
      }
      assert was[..|was|] == was;
      assert sessions == Sessions.EndOnDevice(was, device, reason, at);
    }

    method Apply(w: Write)
      modifies this
      ensures State() == Perform(old(State()), w)
    {
      match w
      case InsertTamper(report) => tampers := tampers + [report];
      case InsertSession(row) => sessions, nextStart := sessions + [row], nextStart + 1;
      case InsertSnapshot(snapshot) => snapshots := snapshots + [snapshot];
      case SaveConsent(at, image) => if at < |consents| { SaveConsent(at, image); }
      case EndOpen(device, reason, now) => var _ := EndOpenSessions(device, reason, now);
      case AppendEvent(e) => events := events + [e];
      case AppendAudit(a) => audits := audits + [a];
    }
  }

  /** An open transaction. Statements sent through it wait for COMMIT and are what it reads; `fault`
      is the database's choice of the statement it rejects. */
  class Transaction {
    const db: Tables
    const fault: Fault
    var pending: seq<Write>

    constructor (db: Tables, fault: Fault)
      ensures this.db == db && this.fault == fault && State() == Begin(db.State())
    {
      this.db, this.fault, pending := db, fault, [];
    }

    function State(): Tx
      reads this, db
    {
      Tx(db.State(), pending)
    }

    /** Send one statement; false when the database rejects it. */
    method Send(w: Write) returns (ok: bool)
      modifies this
      ensures (State(), ok) == Execute(old(State()), [Statement(w, true)], fault)
    {
      assert [Statement(w, true)][1..] == [];
      if fault == Rejects(|pending|) { return false; }
      pending := pending + [w];
      ok := true;
    }

    /** Perform what was sent, in order, unless COMMIT is rejected. */
    method Commit() returns (ok: bool)
      modifies this, db
      ensures ok == fault.Commits?
      ensures db.State() == if ok then Transactions.Commit(old(State())) else Rollback(old(State()))
    {
      if fault.Rejects? { Abandon(); return false; }
      ghost var s := db.State();
      for k := 0 to |pending|
        invariant pending == old(pending)
        invariant db.State() == PerformAll(s, pending[..k])
      {
        assert pending[..k + 1][..k] == pending[..k];
        db.Apply(pending[k]);
      }
      assert pending[..|pending|] == pending;
      ok := true;
    }

    /** ROLLBACK: forget what was sent. */
    method Abandon()
      modifies this
      ensures State() == Begin(Rollback(old(State())))
    {
      pending := [];
    }
  }

  class BleEventsService {
    const db: Tables

    constructor (db: Tables)
      ensures this.db == db
    {
      this.db := db;
    }

    method RecordEvent(e: Event)
      modifies db`events
      ensures db.events == old(db.events) + [e]
    {
      db.events := db.events + [e];
    }
  }

  class AuditService {
    const db: Tables

    constructor (db: Tables)
      ensures this.db == db
    {
      this.db := db;
    }

    /** Business keys not given are copied from the related consent. */
    method Log(dto: AuditDto)
      modifies db`audits
      ensures db.audits == old(db.audits) + [LogRow(dto)]
      ensures var a, c := db.audits[|db.audits| - 1], dto.consentRequest;
        && a.consentId == (if dto.consentId.Some? then dto.consentId
             else if c.None? then None else if c.value.consentId.Some? then c.value.consentId else Some(c.value.id))
        && a.txn == (if dto.txn.Some? then dto.txn else if c.None? then None else Some(c.value.txnRef))
        && a.sessionId == (if dto.sessionId.Some? then dto.sessionId else if c.None? then None else c.value.sessionId)
        && a.deviceId == (if dto.deviceId.Some? then dto.deviceId else if c.None? then None else c.value.deviceId)
    {
      var consentId, txn, sessionId, deviceId := dto.consentId, dto.txn, dto.sessionId, dto.deviceId;
      var request: Option<string> := None;
      if dto.consentRequest.Some? {
        var c := dto.consentRequest.value;
        request := Some(c.id);
        if consentId.None? { consentId := Some(PublicId(c)); }
        if txn.None? { txn := Some(c.txnRef); }
        if sessionId.None? { sessionId := c.sessionId; }
        if deviceId.None? { deviceId := c.deviceId; }
      }
      db.audits := db.audits + [Audit(dto.action, dto.auditType, dto.actorId, dto.actorRole, request,
                                      consentId, txn, sessionId, deviceId)];
    }
  }
}
