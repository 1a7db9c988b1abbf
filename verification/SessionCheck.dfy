/** The session check of filing, approve and reject, said of the session table. */
module SessionCheck {
  import opened Wrappers
  import opened Entities
  import Consents
  import Sessions

  /** The newest session of this id is on another device. (Stamps of reachable tables are distinct, so
      that is the row with the greatest startedAt.) */
  ghost predicate NewestElsewhere(rows: seq<Session>, sid: string, device: string) {
    exists i: nat | i < |rows| :: rows[i].sessionId == sid && rows[i].deviceId != device && Sessions.Newest(rows, i)
  }

  /** A text is given: neither NULL nor empty. */
  ghost predicate Filled(t: Option<string>) {
    t.Some? && t.value != ""
  }

  ghost predicate Elsewhere(rows: seq<Session>, sessionId: Option<string>, deviceId: Option<string>) {
    Filled(sessionId) && Filled(deviceId) && NewestElsewhere(rows, sessionId.value, deviceId.value)
  }

  /** The check refuses exactly when session and device are given and the newest session of that id
      is on another device: an unknown session passes, and so does a request without either. */
  lemma RefusesIff(rows: seq<Session>, sessionId: Option<string>, deviceId: Option<string>)
    ensures !Consents.SessionConsistent(rows, sessionId, deviceId) <==> Elsewhere(rows, sessionId, deviceId)
  {
    if Filled(sessionId) {
      var at := Sessions.Latest(rows, sessionId.value);
      forall i: nat | i < |rows| && rows[i].sessionId == sessionId.value && Sessions.Newest(rows, i)
        ensures at == Some(i)
      {}
    }
  }
}
