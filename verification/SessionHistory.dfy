/** Starting, ending and moving sessions: idempotence, conservation, and the path each row takes. */
module SessionHistory {
  import opened Wrappers
  import opened Columns
  import opened Entities
  import opened Sessions
  import opened Protocol
  import opened SessionRuns
  import Consents
  import Tampers
  import Transactions

  // ------------------------------------------------------------------- start

  /** The row of an id that is open, when it has no other, is what a start of that id answers, leaving
      everything as it was. */
  ghost predicate OnlyRow(rows: seq<Session>, i: nat) {
    i < |rows| && forall j | 0 <= j < |rows| && rows[j].sessionId == rows[i].sessionId :: j == i
  }

  /** What start answers, whichever rows its lookups answer: a stored row of its id, and an error
      exactly when it inserts none and the id has none. */
  lemma StartAnswers(s: Store, dto: StartDto, now: int, ch: Choices)
    requires SessionsInv(s.sessions, s.nextStart) && LegalChoices(s, dto, ch)
    ensures var (s', r) := Start(s, dto, now, ch);
      && (r.Ok? <==>
        || |s'.sessions| == |s.sessions| + 1
        || exists i | 0 <= i < |s.sessions| :: s.sessions[i].sessionId == dto.sessionId)
      && (r.Ok? ==> r.value in s'.sessions && r.value.sessionId == dto.sessionId)
      && (r.Err? ==> r == Err(DatabaseFailure))
      && forall i: nat | OnlyRow(s.sessions, i) && s.sessions[i].sessionId == dto.sessionId && s.sessions[i].Open() ::
        s' == s && r == Ok(s.sessions[i])
  {
    var s1 := Displace(s, dto, now, ch);
    DisplaceFreesDevice(s, dto, now, ch);
    assert |s1.sessions| == |s.sessions|;
    forall i | 0 <= i < |s.sessions| ensures s1.sessions[i].sessionId == s.sessions[i].sessionId {
      assert RowAdvance(s.sessions[i], s1.sessions[i]);
    }
    hide SessionsInv, Displace;
  }

  /** Whichever rows its lookups answer, start does nothing when its session is already open on
      its device: no row, no snapshot, no end, no event. */
  lemma StartIsIdempotent(s: Store, dto: StartDto, now: int, ch: Choices, i: nat)
    requires SessionsInv(s.sessions, s.nextStart) && LegalChoices(s, dto, ch)
    requires i < |s.sessions| && s.sessions[i].Open()
    requires s.sessions[i].sessionId == dto.sessionId && s.sessions[i].deviceId == dto.deviceId
    ensures Start(s, dto, now, ch).0 == s
    ensures Start(s, dto, now, ch).1.Ok? && Start(s, dto, now, ch).1.value.sessionId == dto.sessionId
  {
    assert HasOpen(s.sessions, dto.sessionId);
    var a := ch.active.value;
    assert a == i;
  }

  /** Ending another id's session does not free this id. */
  lemma DisplaceKeepsId(s: Store, dto: StartDto, now: int, ch: Choices)
    requires SessionsInv(s.sessions, s.nextStart) && LegalChoices(s, dto, ch)
    ensures HasOpen(Displace(s, dto, now, ch).sessions, dto.sessionId) <==> HasOpen(s.sessions, dto.sessionId)
  {
    var s1 := Displace(s, dto, now, ch);
    assert |s1.sessions| == |s.sessions|;
    forall i | 0 <= i < |s.sessions| && s.sessions[i].sessionId == dto.sessionId
      ensures s1.sessions[i] == s.sessions[i] {}
    forall i | 0 <= i < |s.sessions| ensures s1.sessions[i].sessionId == s.sessions[i].sessionId {}
  }

  /** Start inserts exactly when no session of its id is open and the insert goes through; then the
      new row is the device's only open one and a snapshot is filed iff identity was given.
      Otherwise no row and no snapshot is added. */
  lemma StartInserts(s: Store, dto: StartDto, now: int, ch: Choices)
    requires SessionsInv(s.sessions, s.nextStart) && LegalChoices(s, dto, ch)
    ensures var (s', r) := Start(s, dto, now, ch);
      var n := |s.sessions|;
      && (|s'.sessions| == n + 1 <==> !HasOpen(s.sessions, dto.sessionId) && !ch.insertFails)
      && (|s'.sessions| == n + 1 ==>
        && r == Ok(s'.sessions[n]) && s'.nextStart == s.nextStart + 1
        && s'.sessions[n] == Session(dto.sessionId, dto.deviceId, dto.operatorId, dto.ownerId, dto.identity,
                                     Idle, s.nextStart, None, None)
        && (forall i | 0 <= i < n && s'.sessions[i].deviceId == dto.deviceId :: !s'.sessions[i].Open())
        && s'.snapshots == s.snapshots + (if SomeIdentity(dto.identity)
             then [Snapshot(dto.sessionId, dto.deviceId, dto.ownerId, dto.identity)] else []))
      && (|s'.sessions| != n + 1 ==> |s'.sessions| == n && s'.snapshots == s.snapshots)
  {
    DisplaceKeepsId(s, dto, now, ch);
    DisplaceFreesDevice(s, dto, now, ch);
    if ch.existing.Some? && s.sessions[ch.existing.value].Open() {
      assert HasOpen(s.sessions, dto.sessionId);
    }
  }

  /** What end does to an open session. */
  lemma EndOfOpenRow(s: Store, i: nat, reason: EndReason, now: int)
    requires SessionsInv(s.sessions, s.nextStart) && i < |s.sessions| && s.sessions[i].Open()
    ensures End(s, s.sessions[i].sessionId, reason, now)
      == (s.(sessions := s.sessions[i := Closed(s.sessions[i], reason, now)],
             events := s.events + [SessionEndEvent(s.sessions[i].sessionId)]), Ok(Closed(s.sessions[i], reason, now)))
  {
    LookupFindsOpenRow(s.sessions, s.nextStart, i);
  }

  /** All that start may do to an existing row: end the device's open session of another id as
      DISCONNECTED, writing the one SESSION_ENDED that goes with it. */
  lemma StartDisplacesOnly(s: Store, dto: StartDto, now: int, ch: Choices)
    requires SessionsInv(s.sessions, s.nextStart) && LegalChoices(s, dto, ch)
    ensures var s' := Start(s, dto, now, ch).0;
      && (forall i | 0 <= i < |s.sessions| && s'.sessions[i] != s.sessions[i] ::
        && s.sessions[i].deviceId == dto.deviceId && s.sessions[i].Open() && s.sessions[i].sessionId != dto.sessionId
        && s'.sessions[i] == Closed(s.sessions[i], ByDisconnect, now)
        && s'.events == s.events + [SessionEndEvent(s.sessions[i].sessionId)])
      && ((forall i | 0 <= i < |s.sessions| :: s'.sessions[i] == s.sessions[i]) ==> s'.events == s.events)
      && s'.consents == s.consents && s'.audits == s.audits
  {
    if ch.active.Some? {
      EndOfOpenRow(s, ch.active.value, ByDisconnect, now);
    }
    hide End, SessionsInv, LegalChoices;
  }

  // ---------------------------------------------------------------- end, update

  /** end closes the open session of its id, with its reason and one event, and is otherwise a no-op. */
  lemma EndIsExact(s: Store, sid: string, reason: EndReason, now: int)
    requires SessionsInv(s.sessions, s.nextStart)
    ensures var (s', r) := End(s, sid, reason, now);
      && (r.Err? <==> forall i | 0 <= i < |s.sessions| :: s.sessions[i].sessionId != sid)
      && (r.Err? ==> r == Err(NotFound))
      && ((forall i | 0 <= i < |s.sessions| :: s.sessions[i].sessionId == sid ==> !s.sessions[i].Open()) ==> s' == s)
      && (forall i | 0 <= i < |s.sessions| && s.sessions[i].sessionId == sid && s.sessions[i].Open() ::
        s' == s.(sessions := s.sessions[i := Closed(s.sessions[i], reason, now)],
                 events := s.events + [SessionEndEvent(sid)]))
      && (forall i: nat | i < |s.sessions| && s.sessions[i].sessionId == sid && Newest(s.sessions, i) ::
        r == Ok(s'.sessions[i]))
      && !HasOpen(s'.sessions, sid)
  {
    var s' := End(s, sid, reason, now).0;
    if HasOpen(s.sessions, sid) {
      var i :| 0 <= i < |s.sessions| && s.sessions[i].sessionId == sid && s.sessions[i].Open();
      EndOfOpenRow(s, i, reason, now);
      OpenIsNewest(s.sessions, s.nextStart, i);
      hide End, SessionsInv;
      assert forall j | 0 <= j < |s.sessions| && s.sessions[j].sessionId == sid && s.sessions[j].Open() :: j == i;
      assert forall j | 0 <= j < |s.sessions| && j != i :: s'.sessions[j] == s.sessions[j];
    }
  }

  /** updateState succeeds exactly when the id has an open session and the table allows the move,
      and then changes that session's state and nothing else. */
  lemma UpdateIsExact(s: Store, sid: string, state: SessionState)
    requires SessionsInv(s.sessions, s.nextStart)
    ensures var (s', r) := Sessions.UpdateState(s, sid, state);
      && (r.Ok? <==> exists i: nat | i < |s.sessions| :: s.sessions[i].sessionId == sid && s.sessions[i].Open()
                                                  && state in Transitions(s.sessions[i].state))
      && (r.Err? ==> s' == s)
      && (r == Err(NotFound) <==> forall i | 0 <= i < |s.sessions| :: s.sessions[i].sessionId != sid)
      && (r == Err(InvalidTransition) <==>
        exists i: nat | i < |s.sessions| :: s.sessions[i].sessionId == sid && s.sessions[i].Open()
                                            && state !in Transitions(s.sessions[i].state))
      && (r.Err? ==> r.error.NotFound? || r.error.InvalidTransition? || r.error.AlreadyEnded?)
      && (forall i: nat | r.Ok? && i < |s.sessions| && s.sessions[i].sessionId == sid && s.sessions[i].Open() ::
        && s' == s.(sessions := s.sessions[i := s.sessions[i].(state := state)])
        && r == Ok(s'.sessions[i]))
  {
    forall i: nat | i < |s.sessions| && s.sessions[i].sessionId == sid && s.sessions[i].Open()
      ensures Latest(s.sessions, sid) == Some(i)
    {
      LookupFindsOpenRow(s.sessions, s.nextStart, i);
    }
  }

  /** A start that ended a session and put none in its place. */
  ghost predicate EndsForNothing(s: Store, dto: StartDto, now: int, ch: Choices)
    requires LegalChoices(s, dto, ch)
  {
    var s' := Start(s, dto, now, ch).0;
    |s'.sessions| == |s.sessions| && s'.sessions != s.sessions
  }

  /** When one start, with the answers its lookups got, ends the device's session for nothing:
      exactly when that session has another id, the first lookup answered no open row, and the
      insert is refused. */
  lemma StartEndsForNothing(s: Store, dto: StartDto, now: int, ch: Choices)
    requires SessionsInv(s.sessions, s.nextStart) && LegalChoices(s, dto, ch)
    ensures EndsForNothing(s, dto, now, ch) <==>
      && ch.active.Some? && s.sessions[ch.active.value].sessionId != dto.sessionId
      && !(ch.existing.Some? && s.sessions[ch.existing.value].Open())
      && (ch.insertFails || HasOpen(s.sessions, dto.sessionId))
  {
    DisplaceKeepsId(s, dto, now, ch);
    if ch.active.Some? {
      LookupFindsOpenRow(s.sessions, s.nextStart, ch.active.value);
    }
  }

  /** Another id's session is open on the device. */
  ghost predicate OtherOpen(rows: seq<Session>, dto: StartDto) {
    exists i | 0 <= i < |rows| ::
      rows[i].deviceId == dto.deviceId && rows[i].Open() && rows[i].sessionId != dto.sessionId
  }

  ghost predicate HasEnded(rows: seq<Session>, sid: string) {
    exists i | 0 <= i < |rows| :: rows[i].sessionId == sid && !rows[i].Open()
  }

  ghost predicate HasRow(rows: seq<Session>, sid: string) {
    exists i | 0 <= i < |rows| :: rows[i].sessionId == sid
  }

  /** The position of an ended row of an id, when there is one. */
  ghost function SomeEnded(rows: seq<Session>, sid: string): (pick: Option<nat>)
    ensures pick.Some? <==> HasEnded(rows, sid)
    ensures pick.Some? ==> pick.value < |rows| && rows[pick.value].sessionId == sid && !rows[pick.value].Open()
  {
    if i: nat :| i < |rows| && rows[i].sessionId == sid && !rows[i].Open() then Some(i) else None
  }

  /** What a caller can tell beforehand. Without a database fault, a start can end a session for
      nothing exactly when another id's session is open on the device and its own id has both an
      open row and an ended one; if the insert may also fail, exactly when another id's session is
      open on the device and its own id has an ended row or no row at all. */
  lemma StartMayEndForNothing(s: Store, dto: StartDto, now: int)
    requires SessionsInv(s.sessions, s.nextStart)
    ensures (exists ch :: LegalChoices(s, dto, ch) && !ch.insertFails && EndsForNothing(s, dto, now, ch)) <==>
      OtherOpen(s.sessions, dto) && HasOpen(s.sessions, dto.sessionId) && HasEnded(s.sessions, dto.sessionId)
    ensures (exists ch :: LegalChoices(s, dto, ch) && EndsForNothing(s, dto, now, ch)) <==>
      OtherOpen(s.sessions, dto) && (HasEnded(s.sessions, dto.sessionId) || !HasRow(s.sessions, dto.sessionId))
  {
    hide SessionsInv, EndsForNothing;
    var rows, sid := s.sessions, dto.sessionId;
    forall ch | LegalChoices(s, dto, ch)
      ensures EndsForNothing(s, dto, now, ch) ==>
        OtherOpen(rows, dto) && (HasEnded(rows, sid) || !HasRow(rows, sid))
      ensures EndsForNothing(s, dto, now, ch) && !ch.insertFails ==>
        OtherOpen(rows, dto) && HasOpen(rows, sid) && HasEnded(rows, sid)
    {
      StartEndsForNothing(s, dto, now, ch);
    }
    if i: nat :| i < |rows| && rows[i].deviceId == dto.deviceId && rows[i].Open() && rows[i].sessionId != sid {
      var ended := SomeEnded(rows, sid);
      if ended.Some? || !HasRow(rows, sid) {
        StartEndsForNothing(s, dto, now, Choices(ended, Some(i), ended, true));
        assert LegalChoices(s, dto, Choices(ended, Some(i), ended, true));
      }
      if ended.Some? && HasOpen(rows, sid) {
        StartEndsForNothing(s, dto, now, Choices(ended, Some(i), ended, false));
        assert LegalChoices(s, dto, Choices(ended, Some(i), ended, false));
      }
    }
  }

  /** The bulk end: exactly the device's open rows are closed, at that time and for that reason. */
  lemma BulkCloses(s: Store, device: string, reason: EndReason, now: int)
    ensures var s' := EndAllActive(s, device, reason, now).0;
      && s' == s.(sessions := s'.sessions) && |s'.sessions| == |s.sessions|
      && forall i | 0 <= i < |s.sessions| ::
        s'.sessions[i] == if s.sessions[i].deviceId == device && s.sessions[i].endedAt.None?
          then Closed(s.sessions[i], reason, now) else s.sessions[i]
  {}

  // -------------------------------------------------------------- conservation

  ghost function EndedRows(rows: seq<Session>): nat {
    if rows == [] then 0
    else EndedRows(rows[..|rows| - 1]) + (if rows[|rows| - 1].Open() then 0 else 1)
  }

  /** The server's SESSION_ENDED events. */
  ghost function EndEvents(events: seq<Event>): nat {
    if events == [] then 0
    else
      var e := events[|events| - 1];
      EndEvents(events[..|events| - 1]) + (if e.origin.Server? && e.eventType.SessionEnded? then 1 else 0)
  }

  /** The count a step's committed bulk end returns. */
  ghost function BulkCount(s: Store, step: Step): nat {
    var device := BulkDevice(step);
    if device.Some? then EndAllActive(s, device.value, ByTamper, step.now).1 else 0
  }

  ghost function BulkTotal(cfg: Config, s: Store, steps: seq<Step>): nat
    requires ValidRun(cfg, s, steps)
  {
    if steps == [] then 0
    else BulkTotal(cfg, s, steps[..|steps| - 1])
         + BulkCount(Run(cfg, s, steps[..|steps| - 1]), steps[|steps| - 1])
  }

  lemma {:induction false} EndedRowsUpdate(rows: seq<Session>, i: nat, r: Session)
    requires i < |rows|
    ensures EndedRows(rows[i := r]) + (if rows[i].Open() then 0 else 1) == EndedRows(rows) + (if r.Open() then 0 else 1)
  {
    var n := |rows| - 1;
    if i < n {
      EndedRowsUpdate(rows[..n], i, r);
      assert rows[i := r][..n] == rows[..n][i := r];
    } else {
      assert rows[i := r][..n] == rows[..n];
    }
  }

  /** A bulk end ends as many rows as it reports, leaves its device without an open session and takes
      none from any other device. */
  lemma {:induction false} EndedRowsBulk(rows: seq<Session>, device: string, reason: EndReason, now: int)
    ensures EndedRows(EndOnDevice(rows, device, reason, now)) == EndedRows(rows) + OpenCount(rows, device)
    ensures forall other: string :: OpenCount(EndOnDevice(rows, device, reason, now), other)
                                 == (if other == device then 0 else OpenCount(rows, other))
  {
    if rows != [] {
      var n := |rows| - 1;
      EndedRowsBulk(rows[..n], device, reason, now);
      assert EndOnDevice(rows, device, reason, now)[..n] == EndOnDevice(rows[..n], device, reason, now);
    }
  }

  lemma EndEventsAppend(events: seq<Event>, e: Event)
    ensures EndEvents(events + [e])
      == EndEvents(events) + (if e.origin.Server? && e.eventType.SessionEnded? then 1 else 0)
  {
    assert (events + [e])[..|events|] == events;
  }

  lemma EndConserves(s: Store, sid: string, reason: EndReason, now: int)
    ensures var s' := End(s, sid, reason, now).0;
      EndedRows(s'.sessions) + EndEvents(s.events) == EndedRows(s.sessions) + EndEvents(s'.events)
  {
    var at := Latest(s.sessions, sid);
    if at.Some? && s.sessions[at.value].Open() {
      var r := Ended(s.sessions[at.value], reason, now);
      EndedRowsUpdate(s.sessions, at.value, r);
      EndEventsAppend(s.events, EndedEvent(r));
    }
  }

  lemma DisplaceConserves(s: Store, dto: StartDto, now: int, ch: Choices)
    requires LegalChoices(s, dto, ch)
    ensures var s' := Displace(s, dto, now, ch);
      EndedRows(s'.sessions) + EndEvents(s.events) == EndedRows(s.sessions) + EndEvents(s'.events)
  {
    if ch.active.Some? {
      EndConserves(s, s.sessions[ch.active.value].sessionId, ByDisconnect, now);
    }
  }

  lemma StartConserves(s: Store, dto: StartDto, now: int, ch: Choices)
    requires LegalChoices(s, dto, ch)
    ensures var s' := Start(s, dto, now, ch).0;
      EndedRows(s'.sessions) + EndEvents(s.events) == EndedRows(s.sessions) + EndEvents(s'.events)
  {
    hide Displace, Insert, LegalChoices, HasOpen, EndedRows, EndEvents;
    DisplaceConserves(s, dto, now, ch);
    InsertConserves(Displace(s, dto, now, ch), dto);
  }

  lemma InsertConserves(s: Store, dto: StartDto)
    ensures EndedRows(Insert(s, dto).sessions) == EndedRows(s.sessions) && Insert(s, dto).events == s.events
  {
    assert Insert(s, dto).sessions[..|s.sessions|] == s.sessions;
  }

  lemma UpdateConserves(s: Store, sid: string, state: SessionState)
    ensures EndedRows(Sessions.UpdateState(s, sid, state).0.sessions) == EndedRows(s.sessions)
  {
    var at := Latest(s.sessions, sid);
    if at.Some? {
      EndedRowsUpdate(s.sessions, at.value, s.sessions[at.value].(state := state));
    }
  }

  lemma {:induction false} SweepEndsNoSession(s: Store, list: seq<nat>)
    requires forall k | 0 <= k < |list| :: list[k] < |s.consents|
    ensures EndEvents(Consents.SweepRows(s, list).events) == EndEvents(s.events)
  {
    if list != [] {
      var mid := Consents.SweepRows(s, list[..|list| - 1]);
      SweepEndsNoSession(s, list[..|list| - 1]);
      var r := Consents.SweepRow(mid, list[|list| - 1]);
      EndEventsAppend(mid.events, r.events[|mid.events|]);
    }
  }

  /** At most one event was added and it is not the server's end of a session. */
  ghost predicate NoEndEvent(es: seq<Event>, es': seq<Event>) {
    || es' == es
    || (|es'| == |es| + 1 && es'[..|es|] == es && !(es'[|es|].origin.Server? && es'[|es|].eventType.SessionEnded?))
    || (|es'| == |es| + 2 && es'[..|es|] == es
        && !es'[|es|].eventType.SessionEnded? && !es'[|es| + 1].eventType.SessionEnded?)
  }

  lemma NoEndEventKeepsCount(es: seq<Event>, es': seq<Event>)
    requires NoEndEvent(es, es')
    ensures EndEvents(es') == EndEvents(es)
  {
    if |es'| == |es| + 1 { assert es' == es + [es'[|es|]]; }
    if |es'| == |es| + 2 {
      assert es' == (es + [es'[|es|]]) + [es'[|es| + 1]];
      EndEventsAppend(es, es'[|es|]);
      EndEventsAppend(es + [es'[|es|]], es'[|es| + 1]);
    }
  }

  lemma DecideEndsNothing(s: Store, id: string, actor: string, d: Consents.Decision, now: int)
    ensures NoEndEvent(s.events, Consents.Decide(s, id, actor, d, now).0.events)
  {}

  lemma AbortEndsNothing(s: Store, key: string, reason: string, now: int)
    ensures NoEndEvent(s.events, Consents.MarkAborted(s, key, reason, now).events)
  {}

  lemma CreateEndsNothing(cfg: Config, s: Store, caller: string, body: Consents.CreateBody, newId: string, now: int)
    ensures NoEndEvent(s.events, Consents.CreateConsentRequest(cfg, s, caller, body, newId, now).0.events)
  {}

  lemma TamperEndsNothing(s: Store, t: TamperEvent, fault: Transactions.Fault, now: int)
    ensures NoEndEvent(s.events, Tampers.Log(s, t, fault, now).0.events)
  {
    Tampers.LogOutcome(s, t, fault, now);
    hide Tampers.Log;
    if Truthy(t.consentId) {
      AbortEndsNothing(s, t.consentId.value, Consents.TAMPER_DETECTED, now);
      AbortEndsNothing(s.(tampers := s.tampers + [t]), t.consentId.value, Consents.TAMPER_DETECTED, now);
    }
  }

  /** Calls on consents, assignments and trails end no session. */
  lemma OtherCallsEndNothing(cfg: Config, s: Store, step: Step)
    requires Permitted(s, step) && !step.op.Sweep?
    requires !step.op.StartSession? && !step.op.EndSession?
    ensures NoEndEvent(s.events, Effect(cfg, s, step).events)
  {
    var op := step.op;
    if op.Create? {
      CreateEndsNothing(cfg, s, op.caller, op.body, op.newId, step.now);
    } else if op.Decide? {
      DecideEndsNothing(s, op.id, op.actorId, op.decision, step.now);
    } else if op.Submit? {
      var at := Consents.Resolve(s.consents, op.key);
      if at.Some? {
        DecideEndsNothing(s, s.consents[at.value].id, op.actorId, Consents.Approval, step.now);
        DecideEndsNothing(s, s.consents[at.value].id, op.actorId,
                          Consents.Refusal(Consents.StoredReason(op.reason)), step.now);
      }
    } else if op.Abort? {
      AbortEndsNothing(s, op.key, op.abortReason, step.now);
    } else if op.Tamper? {
      TamperEndsNothing(s, op.report, op.fault, step.now);
    }
  }

  lemma BulkConserves(cfg: Config, s: Store, step: Step)
    requires SessionsInv(s.sessions, s.nextStart) && Permitted(s, step) && BulkDevice(step).Some?
    ensures EndedRows(Effect(cfg, s, step).sessions) == EndedRows(s.sessions) + BulkCount(s, step)
  {
    BulkKeeps(cfg, s, step);
    var reason :| Effect(cfg, s, step).sessions == EndOnDevice(s.sessions, BulkDevice(step).value, reason, step.now);
    EndedRowsBulk(s.sessions, BulkDevice(step).value, reason, step.now);
  }

  lemma StepConserves(cfg: Config, s: Store, step: Step)
    requires SessionsInv(s.sessions, s.nextStart) && Permitted(s, step)
    ensures var s' := Apply(cfg, s, step);
      EndedRows(s'.sessions) + EndEvents(s.events) == EndedRows(s.sessions) + EndEvents(s'.events) + BulkCount(s, step)
  {
    var op := step.op;
    if op.StartSession? {
      StartConserves(s, op.dto, step.now, op.choices);
      hide Sessions.Start, EndedRows, EndEvents;
    } else if op.EndSession? {
      EndConserves(s, op.sessionId, op.endReason, step.now);
      hide Sessions.End, EndedRows, EndEvents;
    } else {
      OtherStepConserves(cfg, s, step);
      hide Effect, EndedRows, EndEvents, BulkCount;
    }
    hide SessionsInv, Permitted;
  }

  lemma OtherStepConserves(cfg: Config, s: Store, step: Step)
    requires SessionsInv(s.sessions, s.nextStart) && Permitted(s, step)
    requires !step.op.StartSession? && !step.op.EndSession?
    ensures var s' := Effect(cfg, s, step);
      && EndedRows(s'.sessions) == EndedRows(s.sessions) + BulkCount(s, step)
      && EndEvents(s'.events) == EndEvents(s.events)
  {
    var op := step.op;
    if op.Sweep? {
      SweepEndsNoSession(s, Consents.OverdueRows(s.consents, step.now));
    } else {
      OtherCallsEndNothing(cfg, s, step);
      NoEndEventKeepsCount(s.events, Effect(cfg, s, step).events);
    }
    if BulkDevice(step).Some? {
      BulkConserves(cfg, s, step);
      hide Effect;
    } else if op.UpdateSession? {
      UpdateConserves(s, op.sessionId, op.state);
    } else {
      OtherCallsLeaveSessions(cfg, s, step);
      hide Effect;
    }
    hide EndedRows, EndEvents;
  }

  /** Conservation of session ends over every run: each ended row was ended by one call of end,
      which wrote one server SESSION_ENDED event, or counted by one committed bulk end. */
  lemma {:induction false} EndsAreConserved(cfg: Config, start: int, steps: seq<Step>)
    requires ValidRun(cfg, EmptyStore(start), steps)
    ensures var s := Run(cfg, EmptyStore(start), steps);
      EndedRows(s.sessions) == EndEvents(s.events) + BulkTotal(cfg, EmptyStore(start), steps)
  {
    hide Effect, Permitted;
    if steps != [] {
      var s0, before := EmptyStore(start), steps[..|steps| - 1];
      EndsAreConserved(cfg, start, before);
      RunKeepsSessions(cfg, s0, before);
      StepConserves(cfg, Run(cfg, s0, before), steps[|steps| - 1]);
    }
  }

  // ------------------------------------------------------------------- history

  /** The states a row has had, one per store of the run since it was inserted. */
  ghost function History(cfg: Config, s: Store, steps: seq<Step>, i: nat): seq<SessionState>
    requires ValidRun(cfg, s, steps)
  {
    if steps == [] then []
    else
      var r := Run(cfg, s, steps);
      History(cfg, s, steps[..|steps| - 1], i) + (if i < |r.sessions| then [r.sessions[i].state] else [])
  }

  /** A walk from IDLE along the transition table, with stutters. */
  ghost predicate IsPath(p: seq<SessionState>) {
    && (p != [] ==> p[0].Idle?)
    && forall k | 1 <= k < |p| :: p[k] == p[k - 1] || p[k] in Transitions(p[k - 1])
  }

  lemma PathGrows(p: seq<SessionState>, st: SessionState)
    requires IsPath(p)
    requires if p == [] then st.Idle? else st == p[|p| - 1] || st in Transitions(p[|p| - 1])
    ensures IsPath(p + [st])
  {}

  /** Every row's history over every run is a path of the transition table, whatever ended or moved it. */
  lemma {:induction false} HistoryIsPath(cfg: Config, start: int, steps: seq<Step>, i: nat)
    requires ValidRun(cfg, EmptyStore(start), steps)
    ensures var p, r := History(cfg, EmptyStore(start), steps, i), Run(cfg, EmptyStore(start), steps);
      && IsPath(p)
      && (p == [] <==> |r.sessions| <= i)
      && (p != [] ==> p[|p| - 1] == r.sessions[i].state)
  {
    hide Effect, Permitted, SessionsInv, IsPath;
    assert IsPath([]) by { NoPath(); }
    if steps != [] {
      var s0, before := EmptyStore(start), steps[..|steps| - 1];
      var mid := Run(cfg, s0, before);
      HistoryIsPath(cfg, start, before, i);
      RunKeepsSessions(cfg, s0, before) by { NoSessions(start); }
      StepAdvances(cfg, mid, steps[|steps| - 1]);
      var r := Run(cfg, s0, steps);
      if i < |r.sessions| {
        assert i < |mid.sessions| ==> RowAdvance(mid.sessions[i], r.sessions[i]);
        PathGrows(History(cfg, s0, before, i), r.sessions[i].state);
      }
    }
  }

  /** A move that the table allows is the next state of the open row's history. */
  lemma MoveIsRecorded(cfg: Config, start: int, steps: seq<Step>, now: int, state: SessionState, i: nat)
    requires ValidRun(cfg, EmptyStore(start), steps) && i < |Run(cfg, EmptyStore(start), steps).sessions|
    requires Run(cfg, EmptyStore(start), steps).clock <= now
    requires var r := Run(cfg, EmptyStore(start), steps).sessions[i]; r.Open() && state in Transitions(r.state)
    ensures var sid := Run(cfg, EmptyStore(start), steps).sessions[i].sessionId;
      var more := steps + [Step(now, UpdateSession(sid, state))];
      && ValidRun(cfg, EmptyStore(start), more)
      && History(cfg, EmptyStore(start), more, i) == History(cfg, EmptyStore(start), steps, i) + [state]
  {
    hide Effect, Permitted, SessionsInv;
    var s := Run(cfg, EmptyStore(start), steps);
    var step := Step(now, UpdateSession(s.sessions[i].sessionId, state));
    assert (steps + [step])[..|steps|] == steps;
    RunKeepsSessions(cfg, EmptyStore(start), steps) by { NoSessions(start); }
    hide Run, ValidRun, History;
    MoveWrites(cfg, s, now, state, i);
  }

  lemma MoveWrites(cfg: Config, s: Store, now: int, state: SessionState, i: nat)
    requires SessionsInv(s.sessions, s.nextStart) && i < |s.sessions| && s.clock <= now
    requires s.sessions[i].Open() && state in Transitions(s.sessions[i].state)
    ensures var step := Step(now, UpdateSession(s.sessions[i].sessionId, state));
      && Permitted(s, step)
      && i < |Apply(cfg, s, step).sessions| && Apply(cfg, s, step).sessions[i].state == state
  {
    UpdateIsExact(s, s.sessions[i].sessionId, state);
    hide SessionsInv, Sessions.UpdateState;
  }

  lemma NoPath()
    ensures IsPath([])
  {}

  lemma NoSessions(start: int)
    ensures SessionsInv(EmptyStore(start).sessions, EmptyStore(start).nextStart)
  {}

  /** Ends are final over every run: an ended row is never written again. */
  lemma {:induction false} EndsAreFinal(cfg: Config, s: Store, steps: seq<Step>, i: nat)
    requires SessionsInv(s.sessions, s.nextStart) && ValidRun(cfg, s, steps)
    requires i < |s.sessions|
    ensures var r := Run(cfg, s, steps);
      && i < |r.sessions| && EndShape(r.sessions[i])
      && (!s.sessions[i].Open() ==> r.sessions[i] == s.sessions[i])
      && (s.sessions[i].state.Ending? ==> r.sessions[i].state.Ending?)
  {
    hide Effect, Permitted;
    if steps != [] {
      var before := steps[..|steps| - 1];
      EndsAreFinal(cfg, s, before, i);
      RunKeepsSessions(cfg, s, before);
      StepAdvances(cfg, Run(cfg, s, before), steps[|steps| - 1]);
    }
  }

  /** How often a path enters a state, its first state included. */
  ghost function Entries(p: seq<SessionState>, st: SessionState): nat {
    if p == [] then 0
    else
      var n := |p| - 1;
      Entries(p[..n], st) + (if p[n] == st && (n == 0 || p[n - 1] != st) then 1 else 0)
  }

  /** Along any path the consent phases are entered in turn: COMPLETED <= ACTIVE <= COMPLETED + 1
      and ACTIVE <= REQUESTED <= IDLE <= REQUESTED + 1, with the state saying which side holds. */
  lemma {:induction false} PhasesAlternate(p: seq<SessionState>)
    requires IsPath(p) && p != []
    ensures var idle, requested, active, completed :=
        Entries(p, Idle), Entries(p, Requested), Entries(p, Active), Entries(p, Completed);
      && completed <= active <= completed + 1
      && active <= requested <= idle <= requested + 1
      && (p[|p| - 1].Idle? ==> idle == requested + 1 && active == completed)
      && (p[|p| - 1].Requested? ==> idle == requested && active == completed && active < requested)
      && (p[|p| - 1].Active? ==> idle == requested && active == completed + 1)
      && (p[|p| - 1].Completed? ==> idle == requested && active == completed)
  {
    var n := |p| - 1;
    if n > 0 {
      PhasesAlternate(p[..n]);
      assert p[..n][n - 1] == p[n - 1];
    }
  }

  // ------------------------------------------------------------- reachability

  /** Whether n moves of the transition table lead from one state to another. */
  ghost predicate Reaches(a: SessionState, b: SessionState, n: nat)
    decreases n
  {
    if n == 0 then a == b else exists m :: m in Transitions(a) && Reaches(m, b, n - 1)
  }

  /** The fewest moves between two live states. */
  ghost function Distance(a: SessionState, b: SessionState): nat
    requires !a.Ending? && !b.Ending?
  {
    match (a, b)
    case (Idle, Idle) => 0
    case (Idle, Requested) => 1
    case (Idle, Active) => 2
    case (Idle, Completed) => 3
    case (Requested, Idle) => 1
    case (Requested, Requested) => 0
    case (Requested, Active) => 1
    case (Requested, Completed) => 2
    case (Active, Idle) => 2
    case (Active, Requested) => 3
    case (Active, Active) => 0
    case (Active, Completed) => 1
    case (Completed, Idle) => 1
    case (Completed, Requested) => 2
    case (Completed, Active) => 3
    case (Completed, Completed) => 0
  }

  /** How many moves may lead from one state to another. SESSION_ENDING is one move or more from any
      live state and leads nowhere. A live state reaches each live state in its distance and any even
      number of moves more, save that a phase past the request takes a whole round to come again: two
      moves more than the distance are too few there. */
  ghost predicate MoveLaw(a: SessionState, b: SessionState, n: nat) {
    if b.Ending? then a.Ending? == (n == 0)
    else
      && !a.Ending? && n >= Distance(a, b) && n % 2 == Distance(a, b) % 2
      && ((a.Active? || a.Completed?) && (b.Completed? || b == a) ==> n != Distance(a, b) + 2)
  }

  /** The law takes its first move along the table. */
  lemma LawFirstMove(a: SessionState, b: SessionState, n: nat)
    requires n > 0
    ensures MoveLaw(a, b, n) <==>
      || (Idle in Transitions(a) && MoveLaw(Idle, b, n - 1))
      || (Requested in Transitions(a) && MoveLaw(Requested, b, n - 1))
      || (Active in Transitions(a) && MoveLaw(Active, b, n - 1))
      || (Completed in Transitions(a) && MoveLaw(Completed, b, n - 1))
      || (Ending in Transitions(a) && MoveLaw(Ending, b, n - 1))
  {
    assert n % 2 == 1 - (n - 1) % 2;
  }

  /** Exactly that many moves do. */
  lemma {:induction false} ReachesExactly(a: SessionState, b: SessionState, n: nat)
    ensures Reaches(a, b, n) <==> MoveLaw(a, b, n)
    decreases n
  {
    if n > 0 {
      hide MoveLaw, Transitions;
      ReachesExactly(Idle, b, n - 1);
      ReachesExactly(Requested, b, n - 1);
      ReachesExactly(Active, b, n - 1);
      ReachesExactly(Completed, b, n - 1);
      ReachesExactly(Ending, b, n - 1);
      FirstMove(a, b, n);
      LawFirstMove(a, b, n);
    }
  }

  lemma FirstMove(a: SessionState, b: SessionState, n: nat)
    requires n > 0
    ensures Reaches(a, b, n) <==>
      || (Idle in Transitions(a) && Reaches(Idle, b, n - 1))
      || (Requested in Transitions(a) && Reaches(Requested, b, n - 1))
      || (Active in Transitions(a) && Reaches(Active, b, n - 1))
      || (Completed in Transitions(a) && Reaches(Completed, b, n - 1))
      || (Ending in Transitions(a) && Reaches(Ending, b, n - 1))
  {}

  lemma {:induction false} ReachesThen(a: SessionState, m: SessionState, b: SessionState, n: nat)
    requires Reaches(a, m, n) && b in Transitions(m)
    ensures Reaches(a, b, n + 1)
    decreases n
  {
    if n == 0 {
      assert Reaches(b, b, 0);
    } else {
      var next :| next in Transitions(a) && Reaches(next, m, n - 1);
      ReachesThen(next, m, b, n - 1);
    }
  }

  /** How often the state changes along a stretch of a path. */
  ghost function Changes(p: seq<SessionState>): nat {
    if |p| <= 1 then 0
    else Changes(p[..|p| - 1]) + (if p[|p| - 1] != p[|p| - 2] then 1 else 0)
  }

  /** Every stretch of a path is that many moves of the table. */
  lemma {:induction false} StretchReaches(p: seq<SessionState>, j: nat, k: nat)
    requires IsPath(p) && j <= k < |p|
    ensures Reaches(p[j], p[k], Changes(p[j..k + 1]))
  {
    if j < k {
      StretchReaches(p, j, k - 1);
      assert p[j..k + 1][..k - j] == p[j..k];
      if p[k] != p[k - 1] { ReachesThen(p[j], p[k - 1], p[k], Changes(p[j..k])); }
    }
  }

  /** Over every run, a session row that is ACTIVE at two moments and was not all the time between
      changed state an even number of times and at least four: it went the whole round. */
  lemma ActiveAgainAfterWholeRound(cfg: Config, start: int, steps: seq<Step>, i: nat, j: nat, k: nat)
    requires ValidRun(cfg, EmptyStore(start), steps)
    requires j <= k < |History(cfg, EmptyStore(start), steps, i)|
    requires History(cfg, EmptyStore(start), steps, i)[j].Active?
    requires History(cfg, EmptyStore(start), steps, i)[k].Active?
    ensures var n := Changes(History(cfg, EmptyStore(start), steps, i)[j..k + 1]);
      n == 0 || (n >= 4 && n % 2 == 0)
  {
    hide Run, ValidRun, History;
    var p := History(cfg, EmptyStore(start), steps, i);
    HistoryIsPath(cfg, start, steps, i);
    hide IsPath;
    StretchReaches(p, j, k);
    ReachesExactly(Active, Active, Changes(p[j..k + 1]));
  }

  /** Hence for every session row of every run. */
  lemma RowPhasesAlternate(cfg: Config, start: int, steps: seq<Step>, i: nat)
    requires ValidRun(cfg, EmptyStore(start), steps) && i < |Run(cfg, EmptyStore(start), steps).sessions|
    ensures var p := History(cfg, EmptyStore(start), steps, i);
      && Entries(p, Completed) <= Entries(p, Active) <= Entries(p, Completed) + 1
      && Entries(p, Active) <= Entries(p, Requested) <= Entries(p, Idle) <= Entries(p, Requested) + 1
  {
    HistoryIsPath(cfg, start, steps, i);
    PhasesAlternate(History(cfg, EmptyStore(start), steps, i));
  }
}
