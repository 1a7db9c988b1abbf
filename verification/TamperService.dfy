/** tamper.service.ts: the cascade as a transaction over three tables. */
module TamperService {
  import opened Wrappers
  import opened Entities
  import opened Database
  import opened Transactions
  import Consents
  import Tampers
  import ConsentCalls = ConsentService
  import SessionCalls = SessionsService

  class TamperService {
    const db: Tables
    const consents: ConsentCalls.ConsentService
    const sessions: SessionCalls.SessionsService
    const bleEvents: BleEventsService

    ghost predicate Valid() {
      && consents.db == db && consents.Valid()
      && sessions.db == db && sessions.Valid()
      && bleEvents.db == db
    }

    constructor (db: Tables, consents: ConsentCalls.ConsentService, sessions: SessionCalls.SessionsService,
                 bleEvents: BleEventsService)
      requires consents.db == db && consents.Valid() && sessions.db == db && sessions.Valid() && bleEvents.db == db
      ensures Valid() && this.db == db
    {
      this.db, this.consents, this.sessions, this.bleEvents := db, consents, sessions, bleEvents;
    }

    /** Store the report, abort the request it names and close the device's sessions, all through one
        manager; roll back on the first rejection. The report's event follows the commit. */
    method Log(report: TamperEvent, fault: Fault, now: int) returns (r: Result<TamperEvent, ApiError>)
      requires Valid()
      modifies db
      ensures (db.State(), r) == Tampers.Log(old(db.State()), report, fault, now)
    {
      hide Consents.AbortProgram, Perform, PerformAll;
      Tampers.CascadeByParts(db.State(), report, now, fault);
      r := Err(DatabaseFailure);
      var manager := new Transaction(db, fault);
      var ok := manager.Send(InsertTamper(report));
      if ok && Truthy(report.consentId) {
        ok := consents.MarkAborted(report.consentId.value, Consents.TAMPER_DETECTED, now, manager);
      }
      if ok {
        var _, sent := sessions.EndAllActive(report.deviceId, ByTamper, now, manager);
        ok := sent;
      }
      if !ok { manager.Abandon(); return; }
      ok := manager.Commit();
      if !ok { return; }
      bleEvents.RecordEvent(Tampers.DetectedEvent(report));
      r := Ok(report);
    }
  }
}
