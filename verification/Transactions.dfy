/** Database transactions: statements sent through a transaction's manager wait for COMMIT,
    statements sent on another connection are durable at once. */
module Transactions {
  import opened Wrappers
  import opened Entities
  import Sessions

  /** A statement that changes a table. */
  datatype Write =
    | InsertTamper(report: TamperEvent)
    | InsertSession(row: Session)
    | InsertSnapshot(snapshot: Snapshot)
    | SaveConsent(at: nat, image: Consent)
    | EndOpen(deviceId: string, reason: EndReason, now: int)
    | AppendEvent(event: Event)
    | AppendAudit(audit: Audit)
  {
    /** Whether it writes one of the two trails. */
    predicate OnTrail() { AppendEvent? || AppendAudit? }
  }

  function Perform(s: Store, w: Write): Store {
    match w
    case InsertTamper(t) => s.(tampers := s.tampers + [t])
    case InsertSession(row) => s.(sessions := s.sessions + [row], nextStart := s.nextStart + 1)
    case InsertSnapshot(snapshot) => s.(snapshots := s.snapshots + [snapshot])
    case SaveConsent(at, image) =>
      if at < |s.consents| then s.(consents := s.consents[at := image]) else s
    case EndOpen(device, reason, now) => Sessions.EndAllActive(s, device, reason, now).0
    case AppendEvent(e) => s.(events := s.events + [e])
    case AppendAudit(a) => s.(audits := s.audits + [a])
  }

  function PerformAll(s: Store, ws: seq<Write>): Store {
    if ws == [] then s else Perform(PerformAll(s, ws[..|ws| - 1]), ws[|ws| - 1])
  }

  /** A write, and whether it is sent through the manager. */
  datatype Statement = Statement(write: Write, managed: bool)

  /** The tables every connection reads, and the statements the open transaction holds back. */
  datatype Tx = Tx(durable: Store, pending: seq<Write>) {
    /** What the transaction itself reads. */
    function View(): Store { PerformAll(durable, pending) }
  }

  function Begin(s: Store): Tx {
    Tx(s, [])
  }

  function Commit(x: Tx): Store {
    x.View()
  }

  function Rollback(x: Tx): Store {
    x.durable
  }

  function Send(x: Tx, st: Statement): Tx {
    if st.managed then x.(pending := x.pending + [st.write]) else x.(durable := Perform(x.durable, st.write))
  }

  function SendAll(x: Tx, program: seq<Statement>): Tx {
    if program == [] then x else Send(SendAll(x, program[..|program| - 1]), program[|program| - 1])
  }

  /** Which of a transaction's own statements the database rejects, if any: counted from 0, COMMIT
      being the one after the last. Writes on other connections do not fail the caller. */
  datatype Fault = Commits | Rejects(statement: nat)

  /** Run a program until the database rejects one of its managed statements. */
  function Execute(x: Tx, program: seq<Statement>, fault: Fault): (Tx, bool)
    decreases |program|
  {
    if program == [] then (x, true)
    else if program[0].managed && fault == Rejects(|x.pending|) then (x, false)
    else Execute(Send(x, program[0]), program[1..], fault)
  }

  /** A transaction on a store: commit when every statement and COMMIT itself is accepted. */
  function Transact(s: Store, program: seq<Statement>, fault: Fault): (Store, bool) {
    var (x, ok) := Execute(Begin(s), program, fault);
    if ok && fault.Commits? then (Commit(x), true) else (Rollback(x), false)
  }

  // ------------------------------------------------------------ what is undone

  /** No table write bypasses the manager. */
  ghost predicate TablesManaged(program: seq<Statement>) {
    forall k | 0 <= k < |program| && !program[k].managed :: program[k].write.OnTrail()
  }

  /** The tables are written through the manager, the trails are not. */
  ghost predicate Disciplined(program: seq<Statement>) {
    TablesManaged(program) && forall k | 0 <= k < |program| && program[k].managed :: !program[k].write.OnTrail()
  }

  /** All tables as before; the trails only grew. */
  ghost predicate TrailsOnly(s: Store, s': Store) {
    s' == s.(events := s'.events, audits := s'.audits) && s.events <= s'.events && s.audits <= s'.audits
  }

  lemma TrailsOnlyTransitive(a: Store, b: Store, c: Store)
    requires TrailsOnly(a, b) && TrailsOnly(b, c)
    ensures TrailsOnly(a, c)
  {}

  /** Wherever such a program is cut off, rolling back restores every table and leaves the trail rows
      written so far. */
  lemma {:induction false} RollbackRestores(s: Store, program: seq<Statement>)
    requires TablesManaged(program)
    ensures TrailsOnly(s, Rollback(SendAll(Begin(s), program)))
  {
    if program != [] {
      var before, last := program[..|program| - 1], program[|program| - 1];
      RollbackRestores(s, before);
      assert last == program[|program| - 1];
      TrailsOnlyTransitive(s, SendAll(Begin(s), before).durable, SendAll(Begin(s), program).durable);
    }
  }

  /** A store on which a table write shows. */
  function Exposing(w: Write): (s: Store)
    requires !w.OnTrail()
    ensures !TrailsOnly(s, Perform(s, w))
  {
    match w
    case InsertTamper(_) => EmptyStore(0)
    case InsertSession(_) => EmptyStore(0)
    case InsertSnapshot(_) => EmptyStore(0)
    case SaveConsent(at, image) =>
      var s := EmptyStore(0).(consents := seq(at + 1, _ => image.(createdAt := image.createdAt + 1)));
      assert Perform(s, w).consents[at] != s.consents[at];
      s
    case EndOpen(device, _, _) =>
      var open := Session("", device, "", "", Identity(None, None, None, None, None), Idle, 0, None, None);
      var s := EmptyStore(0).(sessions := [open]);
      assert Perform(s, w).sessions[0] != s.sessions[0];
      s
  }

  /** The first table write that bypasses the manager survives a rollback right after it. */
  lemma {:induction false} UnmanagedWriteLeaks(program: seq<Statement>, k: nat) returns (s: Store, at: nat)
    requires k < |program| && !program[k].managed && !program[k].write.OnTrail()
    ensures at <= |program| && !TrailsOnly(s, Rollback(SendAll(Begin(s), program[..at])))
  {
    if j :| 0 <= j < k && !program[j].managed && !program[j].write.OnTrail() {
      s, at := UnmanagedWriteLeaks(program, j);
    } else {
      s, at := Exposing(program[k].write), k + 1;
      RollbackRestores(s, program[..k]);
      assert program[..at][..k] == program[..k];
    }
  }

  /** Exactly which programs a rollback undoes, whatever the store and wherever they are cut off:
      those that send every table write through the manager. */
  lemma RollbackRestoresIff(program: seq<Statement>)
    ensures (forall s, at: nat | at <= |program| :: TrailsOnly(s, Rollback(SendAll(Begin(s), program[..at]))))
      <==> TablesManaged(program)
  {
    if TablesManaged(program) {
      forall s, at: nat | at <= |program| ensures TrailsOnly(s, Rollback(SendAll(Begin(s), program[..at]))) {
        RollbackRestores(s, program[..at]);
      }
    } else {
      var k :| 0 <= k < |program| && !program[k].managed && !program[k].write.OnTrail();
      var s, at := UnmanagedWriteLeaks(program, k);
    }
  }

  /** A rollback leaves exactly the writes that bypassed the manager, for any program. */
  lemma {:induction false} RollbackLeavesUnmanaged(s: Store, program: seq<Statement>)
    ensures Rollback(SendAll(Begin(s), program)) == PerformAll(s, Unmanaged(program))
  {
    if program != [] {
      var before, last := program[..|program| - 1], program[|program| - 1];
      RollbackLeavesUnmanaged(s, before);
      assert (Unmanaged(before) + [last.write])[..|Unmanaged(before)|] == Unmanaged(before);
    }
  }

  function Unmanaged(program: seq<Statement>): seq<Write> {
    if program == [] then []
    else
      var before, last := Unmanaged(program[..|program| - 1]), program[|program| - 1];
      if last.managed then before else before + [last.write]
  }

  /** The writes of a program, in its own order. */
  function Writes(program: seq<Statement>): seq<Write> {
    seq(|program|, k requires 0 <= k < |program| => program[k].write)
  }

  /** A trail write and a write of a table do not disturb each other. */
  lemma TrailCommutes(s: Store, trail: Write, table: Write)
    requires trail.OnTrail() && !table.OnTrail()
    ensures Perform(Perform(s, trail), table) == Perform(Perform(s, table), trail)
  {}

  lemma {:induction false} TrailCommutesAll(s: Store, trail: Write, tables: seq<Write>)
    requires trail.OnTrail() && forall k | 0 <= k < |tables| :: !tables[k].OnTrail()
    ensures PerformAll(Perform(s, trail), tables) == Perform(PerformAll(s, tables), trail)
  {
    if tables != [] {
      var before, last := tables[..|tables| - 1], tables[|tables| - 1];
      TrailCommutesAll(s, trail, before);
      TrailCommutes(PerformAll(s, before), trail, last);
    }
  }

  /** Holding the table writes back until COMMIT makes no difference to a disciplined program: it
      leaves what its writes leave when performed one after the other. */
  lemma {:induction false} CommitIsSequential(s: Store, program: seq<Statement>)
    requires Disciplined(program)
    ensures Commit(SendAll(Begin(s), program)) == PerformAll(s, Writes(program))
    ensures forall w | w in SendAll(Begin(s), program).pending :: !w.OnTrail()
  {
    if program == [] {
      assert Writes(program) == [];
    } else {
      var n := |program| - 1;
      var before, last := program[..n], program[n];
      CommitIsSequential(s, before);
      assert Writes(program)[..n] == Writes(before);
      assert last == program[n];
      var x := SendAll(Begin(s), before);
      if last.managed {
        assert (x.pending + [last.write])[..|x.pending|] == x.pending;
      } else {
        TrailCommutesAll(x.durable, last.write, x.pending);
      }
    }
  }

  /** A run of a program stops at the end or in front of one of its statements. */
  lemma {:induction false} ExecuteStops(x: Tx, program: seq<Statement>, fault: Fault) returns (at: nat)
    ensures at <= |program| && Execute(x, program, fault).0 == SendAll(x, program[..at])
    ensures Execute(x, program, fault).1 <==> at == |program|
    ensures at < |program| ==> program[at].managed
    ensures fault.Commits? ==> at == |program|
    decreases |program|
  {
    if program == [] || (program[0].managed && fault == Rejects(|x.pending|)) {
      at := 0;
    } else {
      var rest := ExecuteStops(Send(x, program[0]), program[1..], fault);
      at := 1 + rest;
      SendFirst(x, program[..at]);
      assert program[..at][1..] == program[1..][..rest];
    }
  }

  lemma {:induction false} SendFirst(x: Tx, program: seq<Statement>)
    requires program != []
    ensures SendAll(x, program) == SendAll(Send(x, program[0]), program[1..])
  {
    var n := |program| - 1;
    if n == 0 {
      assert program[..n] == [];
    } else {
      SendFirst(x, program[..n]);
      assert program[1..][..n - 1] == program[..n][1..];
    }
  }

  /** Runs of programs compose. */
  lemma {:induction false} ExecuteAppend(x: Tx, a: seq<Statement>, b: seq<Statement>, fault: Fault)
    ensures var (y, ok) := Execute(x, a, fault);
      Execute(x, a + b, fault) == if ok then Execute(y, b, fault) else (y, false)
    decreases |a|
  {
    if a == [] {
      assert a + b == b;
    } else {
      ExecuteAppend(Send(x, a[0]), a[1..], b, fault);
      assert (a + b)[1..] == a[1..] + b;
    }
  }

  lemma ExecuteOne(x: Tx, st: Statement, fault: Fault)
    ensures Execute(x, [st], fault) ==
      if st.managed && fault == Rejects(|x.pending|) then (x, false) else (Send(x, st), true)
  {
    assert [st][1..] == [];
  }

  /** A managed statement followed by two writes past the manager. */
  ghost predicate SaveThenTrail(p: seq<Statement>) {
    |p| == 3 && p[0].managed && !p[1].managed && !p[2].managed
  }

  /** Run inside a transaction, the save waits for COMMIT and the other two do not. */
  lemma ExecuteSaveThenTrail(x: Tx, p: seq<Statement>, fault: Fault)
    requires SaveThenTrail(p)
    ensures Execute(x, p, fault) ==
      if fault == Rejects(|x.pending|) then (x, false)
      else (Tx(Perform(Perform(x.durable, p[1].write), p[2].write), x.pending + [p[0].write]), true)
  {
    if fault != Rejects(|x.pending|) {
      var y := Send(x, p[0]);
      assert Execute(Send(Send(y, p[1]), p[2]), p[1..][1..][1..], fault).1;
      assert Execute(Send(y, p[1]), p[1..][1..], fault) == Execute(Send(Send(y, p[1]), p[2]), p[1..][1..][1..], fault);
    }
  }

  /** All or nothing, for every disciplined program and every rejected statement: either everything
      was performed, in order, or no table changed and the trails only grew. */
  lemma TransactIsAtomic(s: Store, program: seq<Statement>, fault: Fault)
    requires Disciplined(program)
    ensures var (s', ok) := Transact(s, program, fault);
      && (ok <==> fault.Commits?)
      && (ok ==> s' == PerformAll(s, Writes(program)))
      && (!ok ==> TrailsOnly(s, s'))
  {
    var at := ExecuteStops(Begin(s), program, fault);
    RollbackRestores(s, program[..at]);
    CommitIsSequential(s, program);
    assert program[..|program|] == program;
  }

  lemma {:induction false} AllManaged(program: seq<Statement>)
    requires forall k | 0 <= k < |program| :: program[k].managed
    ensures Unmanaged(program) == []
  {
    if program != [] {
      assert program[|program| - 1].managed;
      AllManaged(program[..|program| - 1]);
    }
  }

  // ----------------------------------------------------------- a session insert

  /** The statements of an insert: the row and, when identity was given, its snapshot. */
  function InsertProgram(s: Store, dto: Sessions.StartDto): seq<Statement> {
    [Statement(InsertSession(Sessions.NewSession(dto, s.nextStart)), true)]
    + (if Sessions.HasIdentity(dto.identity)
       then [Statement(InsertSnapshot(Snapshot(dto.sessionId, dto.deviceId, dto.ownerId, dto.identity)), true)] else [])
  }

  /** A session and its snapshot are inserted together or not at all. */
  lemma InsertIsAtomic(s: Store, dto: Sessions.StartDto, fault: Fault)
    ensures Transact(s, InsertProgram(s, dto), fault)
      == if fault.Commits? then (Sessions.Insert(s, dto), true) else (s, false)
  {
    var program := InsertProgram(s, dto);
    TransactIsAtomic(s, program, fault);
    if fault.Commits? {
      var row := program[0].write;
      assert PerformAll(s, [row]) == Perform(s, row) by { assert [row][..0] == []; }
      if Sessions.HasIdentity(dto.identity) {
        assert Writes(program) == [row] + [program[1].write];
        assert ([row] + [program[1].write])[..1] == [row];
      } else {
        assert Writes(program) == [row];
      }
    } else {
      var at := ExecuteStops(Begin(s), program, fault);
      RollbackLeavesUnmanaged(s, program[..at]);
      AllManaged(program[..at]);
    }
  }
}
