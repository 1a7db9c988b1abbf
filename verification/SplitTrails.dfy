/** The trails under interleaved calls: one terminal pair per save. */
module SplitTrails {
  import opened Wrappers
  import opened Entities
  import opened Trails
  import opened Consents
  import opened ConsentSteps
  import opened Interleaving
  import opened Overlaps

  /** An entry of one of the two trails (`audit` says which) about the end of a transaction. */
  ghost predicate Terminal(e: Entry, txn: string, audit: bool) {
    if audit then e.OfAudit? && e.audit.txn == Some(txn) && !e.audit.action.RequestCreated?
    else e.OfEvent? && BelongsTo(e.event, txn) && !e.event.eventType.ConsentRequested?
  }

  ghost function Count(es: seq<Entry>, txn: string, audit: bool): nat {
    if es == [] then 0
    else Count(es[..|es| - 1], txn, audit) + (if Terminal(es[|es| - 1], txn, audit) then 1 else 0)
  }

  /** What all calls in flight have yet to write about a transaction. */
  ghost function Owed(tasks: seq<Task>, txn: string, audit: bool): nat {
    if tasks == [] then 0
    else Owed(tasks[..|tasks| - 1], txn, audit) + Count(tasks[|tasks| - 1].Owes(), txn, audit)
  }

  /** Written and owed together. */
  ghost function Total(s: Shared, txn: string, audit: bool): nat {
    Count(s.trail, txn, audit) + Owed(s.tasks, txn, audit)
  }

  lemma CountOne(e: Entry, txn: string, audit: bool)
    ensures Count([e], txn, audit) == if Terminal(e, txn, audit) then 1 else 0
  {
    assert [e][..0] == [];
  }

  lemma {:induction false} CountAppend(a: seq<Entry>, b: seq<Entry>, txn: string, audit: bool)
    ensures Count(a + b, txn, audit) == Count(a, txn, audit) + Count(b, txn, audit)
  {
    if b == [] {
      assert a + b == a;
    } else {
      assert (a + b)[..|a + b| - 1] == a + b[..|b| - 1];
      CountAppend(a, b[..|b| - 1], txn, audit);
    }
  }

  lemma {:induction false} OwedUpdate(tasks: seq<Task>, t: nat, k: Task, txn: string, audit: bool)
    requires t < |tasks|
    ensures Owed(tasks[t := k], txn, audit) + Count(tasks[t].Owes(), txn, audit)
      == Owed(tasks, txn, audit) + Count(k.Owes(), txn, audit)
  {
    var n := |tasks| - 1;
    if t < n {
      OwedUpdate(tasks[..n], t, k, txn, audit);
      assert tasks[t := k][..n] == tasks[..n][t := k];
    } else {
      assert tasks[t := k][..n] == tasks[..n];
    }
  }

  lemma OwedAppend(tasks: seq<Task>, k: Task, txn: string, audit: bool)
    ensures Owed(tasks + [k], txn, audit) == Owed(tasks, txn, audit) + Count(k.Owes(), txn, audit)
  {
    assert (tasks + [k])[..|tasks|] == tasks;
  }

  /** A saved request owes one terminal row to each trail, under its own transaction. */
  lemma EntriesCount(read: Consent, change: Change, txn: string, audit: bool)
    ensures var c := Image(read, change);
      Count(Entries(c, change), txn, audit) == if c.txnRef == txn then 1 else 0
  {
    var es := Entries(Image(read, change), change);
    assert es == [es[0]] + [es[1]];
    CountAppend([es[0]], [es[1]], txn, audit);
    CountOne(es[0], txn, audit);
    CountOne(es[1], txn, audit);
  }

  /** A filed request owes none. */
  lemma FilingCount(c: Consent, caller: string, txn: string, audit: bool)
    ensures Count(FilingEntries(c, caller), txn, audit) == 0
  {
    var es := FilingEntries(c, caller);
    assert es == [es[0]] + [es[1]];
    CountAppend([es[0]], [es[1]], txn, audit);
    CountOne(es[0], txn, audit);
    CountOne(es[1], txn, audit);
  }

  /** The transaction a move saves a request of. */
  ghost predicate SavesTxn(s: Shared, m: Move, txn: string)
    requires Enabled(s, m)
  {
    Target(s, m).Some? && Target(s, m).value < |s.rows| && s.rows[Target(s, m).value].txnRef == txn
  }

  lemma CountNone(txn: string, audit: bool)
    ensures Count([], txn, audit) == 0
  {}

  /** A new call owes no terminal row. */
  lemma NewCallTotal(s: Shared, tick: Tick, txn: string, audit: bool)
    requires Enabled(s, tick.move) && |Next(s, tick).tasks| > |s.tasks|
    ensures Total(Next(s, tick), txn, audit) == Total(s, txn, audit)
  {
    hide Count, Owed, Terminal;
    var m, k := tick.move, Next(s, tick).tasks[|s.tasks|];
    if m.File? { FilingCount(m.filed, m.caller, txn, audit); }
    CountNone(txn, audit);
    OwedAppend(s.tasks, k, txn, audit);
  }

  /** A trail write takes an entry from what is owed. */
  lemma RecordTotal(s: Shared, tick: Tick, txn: string, audit: bool)
    requires Enabled(s, tick.move) && tick.move.Record?
    ensures Total(Next(s, tick), txn, audit) == Total(s, txn, audit)
  {
    hide Count, Owed, Terminal;
    var t := tick.move.task;
    var owed := s.tasks[t].Owes();
    assert owed == [owed[0]] + owed[1..];
    CountAppend([owed[0]], owed[1..], txn, audit);
    CountAppend(s.trail, [owed[0]], txn, audit);
    OwedUpdate(s.tasks, t, Next(s, tick).tasks[t], txn, audit);
  }

  /** A call at work, or giving up, owes nothing before and after. */
  lemma WorkTotal(s: Shared, tick: Tick, txn: string, audit: bool)
    requires Enabled(s, tick.move)
    requires tick.move.CheckDecision? || tick.move.FinishCheck? || tick.move.CheckAbort? || tick.move.Give?
    ensures Total(Next(s, tick), txn, audit) == Total(s, txn, audit)
  {
    hide Count, Owed, Terminal;
    var t := tick.move.task;
    OwedUpdate(s.tasks, t, Next(s, tick).tasks[t], txn, audit);
    assert s.tasks[t].Owes() == [] && Next(s, tick).tasks[t].Owes() == [];
  }

  lemma SaveTotal(s: Shared, tick: Tick, txn: string, audit: bool)
    requires SharedInv(s) && Enabled(s, tick.move) && tick.move.Write?
    ensures Total(Next(s, tick), txn, audit)
      == Total(s, txn, audit) + (if SavesTxn(s, tick.move, txn) then 1 else 0)
  {
    hide Count, Owed, Terminal, SavesTxn, SharedInv;
    var t := tick.move.task;
    SaveOwes(s, tick, txn, audit);
    CountNone(txn, audit);
    OwedUpdate(s.tasks, t, Next(s, tick).tasks[t], txn, audit);
    hide Entries, Image;
  }

  /** Each move takes entries from owed to written, or adds one owed terminal entry per trail for the
      request it saves. */
  lemma StepTotal(s: Shared, tick: Tick, txn: string, audit: bool)
    requires SharedInv(s) && Enabled(s, tick.move)
    ensures Total(Next(s, tick), txn, audit)
      == Total(s, txn, audit) + (if SavesTxn(s, tick.move, txn) then 1 else 0)
  {
    hide Total, SharedInv;
    var m := tick.move;
    if m.Write? {
      SaveTotal(s, tick, txn, audit);
    } else if m.Record? {
      RecordTotal(s, tick, txn, audit);
    } else if m.CheckDecision? || m.FinishCheck? || m.CheckAbort? || m.Give? {
      WorkTotal(s, tick, txn, audit);
    } else {
      NewCallTotal(s, tick, txn, audit);
    }
    hide Next;
  }

  lemma SaveOwes(s: Shared, tick: Tick, txn: string, audit: bool)
    requires SharedInv(s) && Enabled(s, tick.move) && tick.move.Write?
    ensures s.tasks[tick.move.task].Owes() == []
    ensures Count(Next(s, tick).tasks[tick.move.task].Owes(), txn, audit)
      == if SavesTxn(s, tick.move, txn) then 1 else 0
  {
    var k := s.tasks[tick.move.task];
    assert TaskInv(s.rows, k);
    EntriesCount(if k.Sweeping? then k.todo[0].1 else k.read, Made(s, tick.move), txn, audit);
  }

  // ------------------------------------------------------------------ schedules

  ghost predicate DistinctTxns(rows: seq<Consent>) {
    forall i, j | 0 <= i < j < |rows| :: rows[i].txnRef != rows[j].txnRef
  }

  /** A table of pending requests, as filed. */
  ghost predicate Filed(rows: seq<Consent>) {
    AllShaped(rows) && DistinctTxns(rows) && forall i | 0 <= i < |rows| :: rows[i].status.Pending?
  }

  lemma NextKeepsTxns(s: Shared, tick: Tick)
    requires SharedInv(s) && Enabled(s, tick.move) && DistinctTxns(s.rows)
    ensures DistinctTxns(Next(s, tick).rows)
  {
    NextKeepsRows(s, tick);
    var rows := Next(s, tick).rows;
    forall i | 0 <= i < |s.rows| ensures rows[i].txnRef == s.rows[i].txnRef {
      assert SameRequest(s.rows[i], rows[i]);
    }
    if tick.move.File? { assert rows == s.rows + [tick.move.filed]; }
  }

  lemma {:induction false} TxnsStayDistinct(rows: seq<Consent>, ticks: seq<Tick>)
    requires AllShaped(rows) && DistinctTxns(rows) && Schedule(NoCalls(rows), ticks)
    ensures DistinctTxns(After(NoCalls(rows), ticks).rows)
  {
    if ticks != [] {
      TxnsStayDistinct(rows, ticks[..|ticks| - 1]);
      RowsAreRobust(NoCalls(rows), ticks[..|ticks| - 1]);
      NextKeepsTxns(After(NoCalls(rows), ticks[..|ticks| - 1]), ticks[|ticks| - 1]);
    }
  }

  /** In every schedule the terminal entries written or owed about a request, in either trail, are as
      many as its saves, and nothing is written or owed about a transaction nobody filed. */
  lemma {:induction false} EntriesCountSaves(rows: seq<Consent>, ticks: seq<Tick>, txn: string, audit: bool)
    requires AllShaped(rows) && DistinctTxns(rows) && Schedule(NoCalls(rows), ticks)
    ensures var s := After(NoCalls(rows), ticks);
      && (!HasTxn(s.rows, txn) ==> Total(s, txn, audit) == 0)
      && forall i: nat | i < |s.rows| && s.rows[i].txnRef == txn ::
        Total(s, txn, audit) == Saves(NoCalls(rows), ticks, i)
  {
    if ticks != [] {
      var s0, before, last := NoCalls(rows), ticks[..|ticks| - 1], ticks[|ticks| - 1];
      var mid, s := After(s0, before), After(s0, ticks);
      EntriesCountSaves(rows, before, txn, audit);
      RowsAreRobust(s0, before);
      TxnsStayDistinct(rows, before);
      StepTotal(mid, last, txn, audit);
      NextKeepsRows(mid, last);
      hide Total, Next, SharedInv, AllShaped;
      forall i | 0 <= i < |mid.rows| ensures s.rows[i].txnRef == mid.rows[i].txnRef {
        assert SameRequest(mid.rows[i], s.rows[i]);
      }
      if !HasTxn(s.rows, txn) {
        NoTxnBefore(mid, s, txn);
      }
      forall i: nat | i < |s.rows| && s.rows[i].txnRef == txn
        ensures Total(s, txn, audit) == Saves(s0, ticks, i)
      {
        CountAtRow(rows, ticks, txn, i);
      }
    }
  }

  lemma NoTxnBefore(mid: Shared, s: Shared, txn: string)
    requires |mid.rows| <= |s.rows| && !HasTxn(s.rows, txn)
    requires forall i | 0 <= i < |mid.rows| :: s.rows[i].txnRef == mid.rows[i].txnRef
    ensures !HasTxn(mid.rows, txn)
  {
    forall i | 0 <= i < |mid.rows| ensures mid.rows[i].txnRef != txn { assert s.rows[i].txnRef != txn; }
  }

  /** Seen from its row: the last move saved the transaction iff it saved the row. */
  lemma CountAtRow(rows: seq<Consent>, ticks: seq<Tick>, txn: string, i: nat)
    requires AllShaped(rows) && DistinctTxns(rows) && Schedule(NoCalls(rows), ticks) && ticks != []
    requires i < |After(NoCalls(rows), ticks).rows| && After(NoCalls(rows), ticks).rows[i].txnRef == txn
    ensures var before, last := ticks[..|ticks| - 1], ticks[|ticks| - 1];
      var mid := After(NoCalls(rows), before);
      && (SavesTxn(mid, last.move, txn) <==> Target(mid, last.move) == Some(i))
      && (i < |mid.rows| ==> mid.rows[i].txnRef == txn)
      && (i >= |mid.rows| ==> !HasTxn(mid.rows, txn) && Saves(NoCalls(rows), before, i) == 0)
  {
    var s0, before, last := NoCalls(rows), ticks[..|ticks| - 1], ticks[|ticks| - 1];
    var mid := After(s0, before);
    RowsAreRobust(s0, before);
    TxnsStayDistinct(rows, before);
    NextKeepsRows(mid, last);
    if last.move.Write? { var _ := SaverReadPending(mid, last.move); }
    if i < |mid.rows| {
      assert SameRequest(mid.rows[i], Next(mid, last).rows[i]);
    } else {
      assert last.move.File?;
      NotSavedYet(rows, before, i);
    }
  }

  // -------------------------------------------------------------------- at rest

  /** No call is between a save and its trail writes. */
  ghost predicate Resting(s: Shared) {
    forall t | 0 <= t < |s.tasks| :: s.tasks[t].Owes() == []
  }

  lemma {:induction false} RestOwesNothing(tasks: seq<Task>, txn: string, audit: bool)
    requires forall t | 0 <= t < |tasks| :: tasks[t].Owes() == []
    ensures Owed(tasks, txn, audit) == 0
  {
    if tasks != [] { RestOwesNothing(tasks[..|tasks| - 1], txn, audit); }
  }

  /** Each trail has one terminal entry for a decided request and none for a pending one. */
  ghost predicate TrailsFit(s: Shared) {
    forall i, audit: bool | 0 <= i < |s.rows| ::
      Count(s.trail, s.rows[i].txnRef, audit) == if s.rows[i].status.Pending? then 0 else 1
  }

  /** At rest, a request's trail counts its saves, and it was saved iff it is decided. */
  lemma CountAtRest(rows: seq<Consent>, ticks: seq<Tick>, i: nat, audit: bool)
    requires Filed(rows) && Schedule(NoCalls(rows), ticks) && Resting(After(NoCalls(rows), ticks))
    requires i < |After(NoCalls(rows), ticks).rows|
    ensures var s, n := After(NoCalls(rows), ticks), Saves(NoCalls(rows), ticks, i);
      && Count(s.trail, s.rows[i].txnRef, audit) == n
      && (s.rows[i].status.Pending? <==> n == 0)
  {
    var s := After(NoCalls(rows), ticks);
    EntriesCountSaves(rows, ticks, s.rows[i].txnRef, audit);
    RestOwesNothing(s.tasks, s.rows[i].txnRef, audit);
    RowIsLastSave(rows, ticks, i);
    if Saves(NoCalls(rows), ticks, i) > 0 { SavedIsDecided(rows, ticks, i); }
  }

  /** Trail lock-step with split calls: once the calls have written what they owe, each trail has one
      terminal entry per decided request and none for a pending one exactly when the schedule saved no
      row twice, that is, overwrote no decision. */
  lemma TrailsFitIff(rows: seq<Consent>, ticks: seq<Tick>)
    requires Filed(rows) && Schedule(NoCalls(rows), ticks) && Resting(After(NoCalls(rows), ticks))
    ensures TrailsFit(After(NoCalls(rows), ticks)) <==> NoneSavedTwice(NoCalls(rows), ticks)
    ensures TrailsFit(After(NoCalls(rows), ticks)) <==> NoOverwrite(NoCalls(rows), ticks)
  {
    var s0, s := NoCalls(rows), After(NoCalls(rows), ticks);
    OverwritesIffSavedTwice(rows, ticks);
    forall i: nat, audit: bool | i < |s.rows|
      ensures Count(s.trail, s.rows[i].txnRef, audit) == Saves(s0, ticks, i)
      ensures s.rows[i].status.Pending? <==> Saves(s0, ticks, i) == 0
    {
      CountAtRest(rows, ticks, i, audit);
    }
    forall row: nat | row >= |s.rows| ensures Saves(s0, ticks, row) == 0 { NotSavedYet(rows, ticks, row); }
    hide Count, Saves, After, Schedule, NoOverwrite;
    if TrailsFit(s) {
      forall row: nat ensures Saves(s0, ticks, row) <= 1 {
        if row < |s.rows| { assert Count(s.trail, s.rows[row].txnRef, true) <= 1; }
      }
    }
  }

  // ------------------------------------------------------------------ contents

  /** Every terminal entry about the request in the list is one its last change called for. */
  ghost predicate FromChange(es: seq<Entry>, c: Consent, change: Change) {
    forall k, audit: bool | 0 <= k < |es| && Terminal(es[k], c.txnRef, audit) :: es[k] in Entries(c, change)
  }

  ghost predicate AllFromChange(s: Shared, c: Consent, change: Change) {
    FromChange(s.trail, c, change) && forall t | 0 <= t < |s.tasks| :: FromChange(s.tasks[t].Owes(), c, change)
  }

  lemma {:induction false} NoneCounted(es: seq<Entry>, c: Consent, change: Change)
    requires forall audit: bool :: Count(es, c.txnRef, audit) == 0
    ensures FromChange(es, c, change)
  {
    if es != [] {
      var n := |es| - 1;
      forall audit: bool ensures Count(es[..n], c.txnRef, audit) == 0 && !Terminal(es[n], c.txnRef, audit) {
        assert Count(es, c.txnRef, audit) == 0;
      }
      NoneCounted(es[..n], c, change);
      assert forall k | 0 <= k < n :: es[..n][k] == es[k];
    }
  }

  lemma {:induction false} NoneOwed(tasks: seq<Task>, txn: string, audit: bool, t: nat)
    requires t < |tasks| && Owed(tasks, txn, audit) == 0
    ensures Count(tasks[t].Owes(), txn, audit) == 0
  {
    if t < |tasks| - 1 { NoneOwed(tasks[..|tasks| - 1], txn, audit, t); }
  }

  /** Where nothing is written or owed, anything fits. */
  lemma NothingYet(s: Shared, c: Consent, change: Change)
    requires forall audit: bool :: Total(s, c.txnRef, audit) == 0
    ensures AllFromChange(s, c, change)
  {
    forall audit: bool ensures Count(s.trail, c.txnRef, audit) == 0 && Owed(s.tasks, c.txnRef, audit) == 0 {
      assert Total(s, c.txnRef, audit) == 0;
    }
    NoneCounted(s.trail, c, change);
    forall t: nat | t < |s.tasks| ensures FromChange(s.tasks[t].Owes(), c, change) {
      forall audit: bool ensures Count(s.tasks[t].Owes(), c.txnRef, audit) == 0 {
        NoneOwed(s.tasks, c.txnRef, audit, t);
      }
      NoneCounted(s.tasks[t].Owes(), c, change);
    }
  }

  /** Entries of another request's save, or of a filing, are not about this one. */
  lemma ForeignEntries(c: Consent, change: Change, other: Consent, made: Change)
    requires other.txnRef != c.txnRef
    ensures FromChange(Entries(other, made), c, change)
  {}

  lemma NothingFits(c: Consent, change: Change)
    ensures FromChange([], c, change)
  {}

  lemma FilingEntriesFit(c: Consent, change: Change, filed: Consent, caller: string)
    ensures FromChange(FilingEntries(filed, caller), c, change)
  {}

  /** A move that does not save the request leaves its entries those of its last change. */
  lemma OtherMoveFits(s: Shared, tick: Tick, c: Consent, change: Change)
    requires SharedInv(s) && Enabled(s, tick.move) && !SavesTxn(s, tick.move, c.txnRef)
    requires AllFromChange(s, c, change)
    ensures AllFromChange(Next(s, tick), c, change)
  {
    var m, s' := tick.move, Next(s, tick);
    if m.Record? {
      hide FromChange;
      FitsAppend(s.trail, s.tasks[m.task].Owes(), c, change);
    } else {
      hide FromChange;
      forall t: nat | t < |s'.tasks| ensures FromChange(s'.tasks[t].Owes(), c, change) {
        if t < |s.tasks| { assert FromChange(s.tasks[t].Owes(), c, change); }
        NothingFits(c, change);
        if m.File? && t == |s.tasks| { FilingEntriesFit(c, change, m.filed, m.caller); }
        if m.Write? && t == m.task {
          assert TaskInv(s.rows, s.tasks[t]);
          var k := s.tasks[t];
          var read := if k.Sweeping? then k.todo[0].1 else k.read;
          ForeignEntries(c, change, Image(read, Made(s, m)), Made(s, m));
        }
      }
    }
  }

  lemma FitsAppend(trail: seq<Entry>, owed: seq<Entry>, c: Consent, change: Change)
    requires FromChange(trail, c, change) && FromChange(owed, c, change) && owed != []
    ensures FromChange(trail + [owed[0]], c, change) && FromChange(owed[1..], c, change)
  {}

  /** The entries of a request saved once are those its save called for. */
  lemma {:induction false} EntriesAreOfTheSave(rows: seq<Consent>, ticks: seq<Tick>, i: nat)
    requires AllShaped(rows) && DistinctTxns(rows) && Schedule(NoCalls(rows), ticks)
    requires i < |After(NoCalls(rows), ticks).rows| && Saves(NoCalls(rows), ticks, i) == 1
    ensures LastChange(NoCalls(rows), ticks, i).Some?
    ensures var s := After(NoCalls(rows), ticks);
      AllFromChange(s, s.rows[i], LastChange(NoCalls(rows), ticks, i).value)
  {
    var s0, before, last := NoCalls(rows), ticks[..|ticks| - 1], ticks[|ticks| - 1];
    var mid, s := After(s0, before), After(s0, ticks);
    var c := s.rows[i];
    RowsAreRobust(s0, before);
    SaveDecides(mid, last);
    CountAtRow(rows, ticks, c.txnRef, i);
    if Target(mid, last.move) == Some(i) {
      var _ := SaverReadPending(mid, last.move);
      forall audit: bool ensures Total(mid, c.txnRef, audit) == 0 {
        EntriesCountSaves(rows, before, c.txnRef, audit);
      }
      NothingYet(mid, c, Made(mid, last.move));
      SaveFits(mid, last, i);
    } else {
      SavedIsDecided(rows, before, i);
      EntriesAreOfTheSave(rows, before, i);
      OtherMoveFits(mid, last, c, LastChange(s0, before, i).value);
    }
  }

  lemma SaveFits(s: Shared, tick: Tick, i: nat)
    requires SharedInv(s) && Enabled(s, tick.move) && Target(s, tick.move) == Some(i) && i < |s.rows|
    requires AllFromChange(s, Next(s, tick).rows[i], Made(s, tick.move))
    ensures AllFromChange(Next(s, tick), Next(s, tick).rows[i], Made(s, tick.move))
  {
    var c, change := Next(s, tick).rows[i], Made(s, tick.move);
    forall t: nat | t < |s.tasks| ensures FromChange(Next(s, tick).tasks[t].Owes(), c, change) {
      assert FromChange(s.tasks[t].Owes(), c, change);
    }
  }

  /** An event and an audit row that tell the end of this very row. */
  ghost predicate EndPair(c: Consent, e: Event, a: Audit) {
    Mirror(e, a, c) && TypeMatchesStatus(e.eventType, c) && e.errorCode == c.abortedReason
  }

  lemma MadePair(c: Consent, change: Change)
    requires MadeBy(c, change)
    ensures EndPair(c, EventOf(c, change), AuditOf(c, change))
  {}

  lemma {:induction false} SomeCounted(es: seq<Entry>, txn: string, audit: bool) returns (k: nat)
    requires Count(es, txn, audit) > 0
    ensures k < |es| && Terminal(es[k], txn, audit)
  {
    k := |es| - 1;
    if !Terminal(es[k], txn, audit) {
      k := SomeCounted(es[..k], txn, audit);
    }
  }

  /** And what is written fits too: at rest, after a schedule that saved no row twice, a decided
      request has one terminal event and one terminal audit row, and both tell its stored state. */
  lemma PairTellsRow(rows: seq<Consent>, ticks: seq<Tick>, i: nat) returns (e: Event, a: Audit)
    requires Filed(rows) && Schedule(NoCalls(rows), ticks) && Resting(After(NoCalls(rows), ticks))
    requires NoneSavedTwice(NoCalls(rows), ticks)
    requires i < |After(NoCalls(rows), ticks).rows| && !After(NoCalls(rows), ticks).rows[i].status.Pending?
    ensures var s := After(NoCalls(rows), ticks);
      && Count(s.trail, s.rows[i].txnRef, false) == 1 && Count(s.trail, s.rows[i].txnRef, true) == 1
      && OfEvent(e) in s.trail && OfAudit(a) in s.trail && EndPair(s.rows[i], e, a)
  {
    var s := After(NoCalls(rows), ticks);
    var c := s.rows[i];
    CountAtRest(rows, ticks, i, false);
    CountAtRest(rows, ticks, i, true);
    assert Saves(NoCalls(rows), ticks, i) == 1;
    EntriesAreOfTheSave(rows, ticks, i);
    RowIsLastSave(rows, ticks, i);
    var change := LastChange(NoCalls(rows), ticks, i).value;
    hide Schedule, After, Saves, LastChange;
    MadePair(c, change);
    e, a := EventOf(c, change), AuditOf(c, change);
    hide EventOf, AuditOf, MadeBy;
    var k := SomeCounted(s.trail, c.txnRef, false);
    var l := SomeCounted(s.trail, c.txnRef, true);
    assert s.trail[k] in Entries(c, change) && s.trail[l] in Entries(c, change);
  }

  /** The trail rows all calls have yet to write. */
  ghost function Backlog(tasks: seq<Task>): nat {
    if tasks == [] then 0 else Backlog(tasks[..|tasks| - 1]) + |tasks[|tasks| - 1].Owes()|
  }

  lemma {:induction false} BacklogUpdate(tasks: seq<Task>, t: nat, k: Task)
    requires t < |tasks|
    ensures Backlog(tasks[t := k]) + |tasks[t].Owes()| == Backlog(tasks) + |k.Owes()|
  {
    var n := |tasks| - 1;
    if t < n {
      BacklogUpdate(tasks[..n], t, k);
      assert tasks[t := k][..n] == tasks[..n][t := k];
    } else {
      assert tasks[t := k][..n] == tasks[..n];
    }
  }

  /** Every schedule can be run to rest without another save. */
  lemma {:induction false} RunToRest(s0: Shared, ticks: seq<Tick>) returns (more: seq<Tick>)
    requires Schedule(s0, ticks)
    ensures Schedule(s0, more) && Resting(After(s0, more)) && After(s0, more).rows == After(s0, ticks).rows
    ensures NoOverwrite(s0, more) <==> NoOverwrite(s0, ticks)
    decreases Backlog(After(s0, ticks).tasks)
  {
    var s := After(s0, ticks);
    if t: nat :| t < |s.tasks| && s.tasks[t].Owes() != [] {
      var tick := Tick(0, Record(t));
      var next := Extended(s0, ticks, tick, s, Next(s, tick));
      assert next[..|ticks|] == ticks;
      BacklogUpdate(s.tasks, t, Next(s, tick).tasks[t]);
      more := RunToRest(s0, next);
    } else {
      more := ticks;
    }
  }

  /** The overwriting schedule, run to rest, leaves an approved request whose trails do not fit. */
  lemma OverwritingBreaksTrails(c: Consent, actor: string, now: int) returns (ticks: seq<Tick>)
    requires c.status.Pending? && RowShape(c) && now <= DecisionDeadline(c)
    ensures Schedule(NoCalls([c]), ticks) && Resting(After(NoCalls([c]), ticks))
    ensures After(NoCalls([c]), ticks).rows == [Decided(c, Approval, now)]
    ensures !TrailsFit(After(NoCalls([c]), ticks))
  {
    var overwriting, last := DecisionsMayBeOverwritten(c, actor, now);
    ticks := overwriting + [last];
    var s := After(NoCalls([c]), ticks);
    assert ticks[..|overwriting|] == overwriting;
    assert After(NoCalls([c]), overwriting).rows[0] != s.rows[0];
    RowsAreRobust(NoCalls([c]), overwriting);
    SaveDecides(After(NoCalls([c]), overwriting), last);
    assert !NoOverwrite(NoCalls([c]), ticks);
    ticks := RunToRest(NoCalls([c]), ticks);
    TrailsFitIff([c], ticks);
  }
}
