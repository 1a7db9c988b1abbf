/** Requests split at their awaits: whole-row saves from objects read earlier, and the trail rows that
    follow each save. */
module Interleaving {
  import opened Entities
  import opened Trails
  import opened Consents
  import opened ConsentSteps

  /** What a call makes of the row object it read. */
  datatype Change =
    | ToDecide(decision: Decision, actorId: string, at: int)
    | ToExpireLate(actorId: string)
    | ToExpireSwept
    | ToAbort(reason: string, at: int)

  function Image(read: Consent, change: Change): Consent {
    match change
    case ToDecide(d, _, at) => Decided(read, d, at)
    case ToExpireLate(_) => Expire(read)
    case ToExpireSwept => Expire(read)
    case ToAbort(reason, at) => Aborted(read, reason, at)
  }

  function EventOf(c: Consent, change: Change): Event {
    match change
    case ToDecide(d, _, _) => DecidedEvent(c, d)
    case ToExpireLate(_) => SettledEvent(c, ConsentExpired, c.abortedReason)
    case ToExpireSwept => SettledEvent(c, ConsentExpired, c.abortedReason)
    case ToAbort(reason, _) => SettledEvent(c, Classify(reason).1, c.abortedReason)
  }

  function AuditOf(c: Consent, change: Change): Audit {
    LogRow(match change
      case ToDecide(d, actor, _) => DecidedAudit(c, d, actor)
      case ToExpireLate(actor) => ForConsent(ExpiredByWindow(c.txnRef), System, actor, "owner", c)
      case ToExpireSwept => ForConsent(ExpiredBySweep(c.txnRef), System, "SYSTEM", "system", c)
      case ToAbort(_, _) => ForConsent(SettledOutOfBand(c.status, c.txnRef), System, "SYSTEM", "system", c))
  }

  /** A row of one of the two trails. */
  datatype Entry = OfEvent(event: Event) | OfAudit(audit: Audit)

  /** What a call has to write after saving c, in its order: decisions audit first, the others last. */
  function Entries(c: Consent, change: Change): seq<Entry> {
    if change.ToDecide? then [OfAudit(AuditOf(c, change)), OfEvent(EventOf(c, change))]
    else [OfEvent(EventOf(c, change)), OfAudit(AuditOf(c, change))]
  }

  function FilingEntries(c: Consent, caller: string): seq<Entry> {
    [OfAudit(LogRow(ForConsent(RequestCreated(c.txnRef), System, caller, "operator", c))), OfEvent(RequestedEvent(c))]
  }

  /** A call in flight, holding the row object it read. A Saving task is about to write what its
      change makes of it; a sweep saves its snapshots one by one; `owed` are the trail rows a call
      has yet to write for its last save. */
  datatype Task =
    | Deciding(row: nat, read: Consent, decision: Decision, actorId: string)
    | Checking(row: nat, read: Consent, decision: Decision, actorId: string)
    | Aborting(row: nat, read: Consent, reason: string)
    | Saving(row: nat, read: Consent, change: Change)
    | Sweeping(todo: seq<(nat, Consent)>, owed: seq<Entry>)
    | Recording(owed: seq<Entry>)
    | Done
  {
    function Owes(): seq<Entry> {
      if Sweeping? || Recording? then owed else []
    }
  }

  /** The table, the calls in flight, and the rows they wrote to the two trails. */
  datatype Shared = Shared(rows: seq<Consent>, tasks: seq<Task>, trail: seq<Entry>)

  /** A table nobody is working on. */
  function NoCalls(rows: seq<Consent>): Shared {
    Shared(rows, [], [])
  }

  datatype Move =
    | File(filed: Consent, caller: string)
    | ReadToDecide(row: nat, decision: Decision, actorId: string)
    | ReadToAbort(row: nat, reason: string)
    | ReadToSweep(since: int)
    | CheckDecision(task: nat)
    | FinishCheck(task: nat, consistent: bool)
    | CheckAbort(task: nat)
    | Write(task: nat)
    | Record(task: nat)
    | Give(task: nat)

  datatype Tick = Tick(now: int, move: Move)

  /** The sweep's candidates: overdue pending rows with the objects read. */
  function Candidates(rows: seq<Consent>, now: int): (r: seq<(nat, Consent)>)
    ensures forall k | 0 <= k < |r| :: r[k].0 < |rows| && r[k].1 == rows[r[k].0] && r[k].1.status.Pending?
  {
    if rows == [] then []
    else
      var n := |rows| - 1;
      Candidates(rows[..n], now) + (if Overdue(rows[n], now) then [(n, rows[n])] else [])
  }

  /** A filed transaction is new (the unique index), and no call saves again or gives up while it owes
      a trail row. */
  ghost predicate Enabled(s: Shared, m: Move) {
    match m
    case File(c, _) => c.status.Pending? && RowShape(c) && !HasTxn(s.rows, c.txnRef)
    case ReadToDecide(row, _, _) => row < |s.rows|
    case ReadToAbort(row, _) => row < |s.rows|
    case ReadToSweep(_) => true
    case CheckDecision(t) => t < |s.tasks| && s.tasks[t].Deciding?
    case FinishCheck(t, _) => t < |s.tasks| && s.tasks[t].Checking?
    case CheckAbort(t) => t < |s.tasks| && s.tasks[t].Aborting?
    case Write(t) =>
      t < |s.tasks| && s.tasks[t].Owes() == []
      && (if s.tasks[t].Sweeping? then s.tasks[t].todo != [] && s.tasks[t].todo[0].0 < |s.rows|
          else s.tasks[t].Saving? && s.tasks[t].row < |s.rows|)
    case Record(t) => t < |s.tasks| && s.tasks[t].Owes() != []
    case Give(t) => t < |s.tasks| && s.tasks[t].Owes() == []
  }

  /** What a decision does once it has its row: expire it, refuse, or go on to the session check. */
  function AfterRead(t: Task, now: int): Task
    requires t.Deciding?
  {
    if Overdue(t.read, now) then Saving(t.row, t.read, ToExpireLate(t.actorId))
    else if !t.read.status.Pending? then Done
    else Checking(t.row, t.read, t.decision, t.actorId)
  }

  function Next(s: Shared, tick: Tick): Shared
    requires Enabled(s, tick.move)
  {
    match tick.move
    case File(c, caller) => s.(rows := s.rows + [c], tasks := s.tasks + [Recording(FilingEntries(c, caller))])
    case ReadToDecide(row, d, actor) => s.(tasks := s.tasks + [Deciding(row, s.rows[row], d, actor)])
    case ReadToAbort(row, reason) => s.(tasks := s.tasks + [Aborting(row, s.rows[row], reason)])
    case ReadToSweep(since) => s.(tasks := s.tasks + [Sweeping(Candidates(s.rows, since), [])])
    case CheckDecision(t) => s.(tasks := s.tasks[t := AfterRead(s.tasks[t], tick.now)])
    case FinishCheck(t, ok) =>
      var k := s.tasks[t];
      var next := if ok then Saving(k.row, k.read, ToDecide(k.decision, k.actorId, tick.now)) else Done;
      s.(tasks := s.tasks[t := next])
    case CheckAbort(t) =>
      var k := s.tasks[t];
      var next := if k.read.status.Pending? then Saving(k.row, k.read, ToAbort(k.reason, tick.now)) else Done;
      s.(tasks := s.tasks[t := next])
    case Write(t) =>
      var k := s.tasks[t];
      if k.Sweeping? then
        var c := Expire(k.todo[0].1);
        s.(rows := s.rows[k.todo[0].0 := c], tasks := s.tasks[t := Sweeping(k.todo[1..], Entries(c, ToExpireSwept))])
      else
        var c := Image(k.read, k.change);
        s.(rows := s.rows[k.row := c], tasks := s.tasks[t := Recording(Entries(c, k.change))])
    case Record(t) =>
      var k := s.tasks[t];
      s.(tasks := s.tasks[t := k.(owed := k.owed[1..])], trail := s.trail + [k.owed[0]])
    case Give(t) => s.(tasks := s.tasks[t := Done])
  }

  // --------------------------------------------------------------- invariant

  /** A snapshot is an earlier version of its row, however stale. */
  ghost predicate EarlierVersion(rows: seq<Consent>, row: nat, read: Consent) {
    row < |rows| && SameRequest(rows[row], read) && RowShape(read)
  }

  ghost predicate TaskInv(rows: seq<Consent>, t: Task) {
    match t
    case Deciding(row, read, _, _) => EarlierVersion(rows, row, read)
    case Checking(row, read, _, _) => EarlierVersion(rows, row, read) && read.status.Pending?
    case Aborting(row, read, _) => EarlierVersion(rows, row, read)
    case Saving(row, read, _) => EarlierVersion(rows, row, read) && read.status.Pending?
    case Sweeping(todo, _) =>
      forall k | 0 <= k < |todo| :: EarlierVersion(rows, todo[k].0, todo[k].1) && todo[k].1.status.Pending?
    case Recording(_) => true
    case Done => true
  }

  ghost predicate SharedInv(s: Shared) {
    && (forall i | 0 <= i < |s.rows| :: RowShape(s.rows[i]))
    && (forall t | 0 <= t < |s.tasks| :: TaskInv(s.rows, s.tasks[t]))
  }

  /** The table across a move: requests keep their identity and never return to PENDING. */
  ghost predicate RowsKept(rows: seq<Consent>, rows': seq<Consent>) {
    && |rows| <= |rows'|
    && forall i | 0 <= i < |rows| ::
      && SameRequest(rows[i], rows'[i]) && (!rows[i].status.Pending? ==> !rows'[i].status.Pending?)
  }

  /** Snapshots outlive any change of the table. */
  lemma TaskSurvives(rows: seq<Consent>, rows': seq<Consent>, t: Task)
    requires RowsKept(rows, rows') && TaskInv(rows, t)
    ensures TaskInv(rows', t)
  {}

  /** Any change of a pending row object settles it. */
  lemma ImageSettles(read: Consent, change: Change)
    requires read.status.Pending? && RowShape(read)
    ensures Settles(read, Image(read, change))
  {}

  /** Writing what a change makes of an object over any version of its row. */
  lemma WriteKeeps(rows: seq<Consent>, row: nat, read: Consent, change: Change)
    requires EarlierVersion(rows, row, read) && read.status.Pending?
    ensures RowsKept(rows, rows[row := Image(read, change)]) && RowShape(Image(read, change))
  {
    ImageSettles(read, change);
  }

  lemma NextKeepsRows(s: Shared, tick: Tick)
    requires SharedInv(s) && Enabled(s, tick.move)
    ensures RowsKept(s.rows, Next(s, tick).rows)
    ensures forall i | 0 <= i < |Next(s, tick).rows| :: RowShape(Next(s, tick).rows[i])
  {
    if tick.move.Write? {
      var k := s.tasks[tick.move.task];
      assert TaskInv(s.rows, k);
      if k.Sweeping? {
        WriteKeeps(s.rows, k.todo[0].0, k.todo[0].1, ToExpireSwept);
      } else {
        WriteKeeps(s.rows, k.row, k.read, k.change);
      }
      hide Image;
    }
  }

  /** Every task after a move is legal for the table before it. */
  lemma NextTask(s: Shared, tick: Tick, t: nat)
    requires SharedInv(s) && Enabled(s, tick.move) && t < |Next(s, tick).tasks|
    ensures TaskInv(s.rows, Next(s, tick).tasks[t])
  {
    if t < |s.tasks| { assert TaskInv(s.rows, s.tasks[t]); }
  }

  lemma NextKeepsInv(s: Shared, tick: Tick)
    requires SharedInv(s) && Enabled(s, tick.move)
    ensures SharedInv(Next(s, tick))
  {
    NextKeepsRows(s, tick);
    var s' := Next(s, tick);
    forall t | 0 <= t < |s'.tasks| ensures TaskInv(s'.rows, s'.tasks[t]) {
      NextTask(s, tick, t);
      TaskSurvives(s.rows, s'.rows, s'.tasks[t]);
    }
  }

  // --------------------------------------------------------------------- runs

  ghost predicate Schedule(s: Shared, ticks: seq<Tick>)
    decreases |ticks|, 0
  {
    ticks == [] ||
    (Schedule(s, ticks[..|ticks| - 1]) && Enabled(After(s, ticks[..|ticks| - 1]), ticks[|ticks| - 1].move))
  }

  ghost function After(s: Shared, ticks: seq<Tick>): Shared
    requires Schedule(s, ticks)
    decreases |ticks|, 1
  {
    if ticks == [] then s else Next(After(s, ticks[..|ticks| - 1]), ticks[|ticks| - 1])
  }

  /** Under arbitrary interleaving every row keeps its shape and its request, and no decided
      request is ever pending again. */
  lemma {:induction false} RowsAreRobust(s: Shared, ticks: seq<Tick>)
    requires SharedInv(s) && Schedule(s, ticks)
    ensures SharedInv(After(s, ticks)) && RowsKept(s.rows, After(s, ticks).rows)
  {
    if ticks != [] {
      RowsAreRobust(s, ticks[..|ticks| - 1]);
      var mid := After(s, ticks[..|ticks| - 1]);
      NextKeepsInv(mid, ticks[|ticks| - 1]);
      NextKeepsRows(mid, ticks[|ticks| - 1]);
    }
  }

  /** Extending a schedule by one move. */
  lemma Extend(s: Shared, ticks: seq<Tick>, tick: Tick, mid: Shared, next: Shared)
    requires Schedule(s, ticks) && After(s, ticks) == mid
    requires Enabled(mid, tick.move) && Next(mid, tick) == next
    ensures Schedule(s, ticks + [tick]) && After(s, ticks + [tick]) == next
  {
    assert (ticks + [tick])[..|ticks|] == ticks;
  }

  function TamperAbort(now: int): Change { ToAbort(TAMPER_DETECTED, now) }

  function ApprovalBy(actor: string, now: int): Change { ToDecide(Approval, actor, now) }

  /** An abort and an approval have both read the pending row and are about to save. */
  lemma BothAboutToSave(c: Consent, actor: string, now: int) returns (ticks: seq<Tick>)
    requires c.status.Pending? && now <= DecisionDeadline(c)
    ensures Schedule(NoCalls([c]), ticks)
    ensures After(NoCalls([c]), ticks)
      == Shared([c], [Saving(0, c, TamperAbort(now)), Saving(0, c, ApprovalBy(actor, now))], [])
  {
    var s := NoCalls([c]);
    var s1 := Shared([c], [Aborting(0, c, TAMPER_DETECTED)], []);
    ticks := [Tick(now, ReadToAbort(0, TAMPER_DETECTED))];
    Extend(s, [], ticks[0], s, s1);
    assert [] + [ticks[0]] == ticks;
    var s2 := Shared([c], [Aborting(0, c, TAMPER_DETECTED), Deciding(0, c, Approval, actor)], []);
    ticks := Extended(s, ticks, Tick(now, ReadToDecide(0, Approval, actor)), s1, s2);
    var s3 := Shared([c], [Aborting(0, c, TAMPER_DETECTED), Checking(0, c, Approval, actor)], []);
    ticks := Extended(s, ticks, Tick(now, CheckDecision(1)), s2, s3);
    var s4 := Shared([c], [Aborting(0, c, TAMPER_DETECTED), Saving(0, c, ApprovalBy(actor, now))], []);
    ticks := Extended(s, ticks, Tick(now, FinishCheck(1, true)), s3, s4);
    ticks := Extended(s, ticks, Tick(now, CheckAbort(0)), s4,
      Shared([c], [Saving(0, c, TamperAbort(now)), Saving(0, c, ApprovalBy(actor, now))], []));
  }

  lemma Extended(s: Shared, ticks: seq<Tick>, tick: Tick, mid: Shared, next: Shared) returns (more: seq<Tick>)
    requires Schedule(s, ticks) && After(s, ticks) == mid
    requires Enabled(mid, tick.move) && Next(mid, tick) == next
    ensures more == ticks + [tick] && Schedule(s, more) && After(s, more) == next
  {
    more := ticks + [tick];
    Extend(s, ticks, tick, mid, next);
  }

  /** Decisions are not final here: from any pending request still in its window there is a
      schedule that leaves it TAMPER_ABORTED and, one save later, APPROVED. */
  lemma DecisionsMayBeOverwritten(c: Consent, actor: string, now: int) returns (ticks: seq<Tick>, last: Tick)
    requires c.status.Pending? && now <= DecisionDeadline(c)
    ensures Schedule(NoCalls([c]), ticks) && Schedule(NoCalls([c]), ticks + [last])
    ensures After(NoCalls([c]), ticks).rows == [Aborted(c, TAMPER_DETECTED, now)]
    ensures After(NoCalls([c]), ticks + [last]).rows == [Decided(c, Approval, now)]
    ensures var abort, approval := TamperAbort(now), ApprovalBy(actor, now);
      After(NoCalls([c]), ticks + [last]).tasks
        == [Recording(Entries(Image(c, abort), abort)), Recording(Entries(Image(c, approval), approval))]
  {
    var s := NoCalls([c]);
    var abort, approval := TamperAbort(now), ApprovalBy(actor, now);
    var before := BothAboutToSave(c, actor, now);
    hide Entries;
    var s1 := Shared([Image(c, abort)], [Recording(Entries(Image(c, abort), abort)), Saving(0, c, approval)], []);
    var s0 := Shared([c], [Saving(0, c, abort), Saving(0, c, approval)], []);
    ticks := Extended(s, before, Tick(now, Write(0)), s0, s1);
    last := Tick(now, Write(1));
    Extend(s, ticks, last, s1, Shared([Image(c, approval)],
      [Recording(Entries(Image(c, abort), abort)), Recording(Entries(Image(c, approval), approval))], []));
  }
}
