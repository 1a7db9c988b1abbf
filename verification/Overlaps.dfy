/** Exactly which schedules of interleaved calls overwrite a decision. */
module Overlaps {
  import opened Wrappers
  import opened Entities
  import opened Consents
  import opened ConsentSteps
  import opened Interleaving

  /** The row a move saves, if it is a save. */
  ghost function Target(s: Shared, m: Move): Option<nat>
    requires Enabled(s, m)
  {
    if !m.Write? then None
    else if s.tasks[m.task].Sweeping? then Some(s.tasks[m.task].todo[0].0)
    else Some(s.tasks[m.task].row)
  }

  /** The call has read this object of a row and may still save the row. */
  ghost predicate Holds(t: Task, row: nat, read: Consent) {
    match t
    case Deciding(r, o, _, _) => r == row && o == read
    case Checking(r, o, _, _) => r == row && o == read
    case Aborting(r, o, _) => r == row && o == read
    case Saving(r, o, _) => r == row && o == read
    case Sweeping(todo, _) => (row, read) in todo
    case Recording(_) => false
    case Done => false
  }

  // ------------------------------------------------------------------ one move

  /** A call holds nothing it did not hold before the move, unless the move made it. */
  lemma NextHolds(s: Shared, tick: Tick, t: nat, row: nat, read: Consent)
    requires Enabled(s, tick.move) && t < |Next(s, tick).tasks| && Holds(Next(s, tick).tasks[t], row, read)
    ensures t < |s.tasks| ==> Holds(s.tasks[t], row, read)
    ensures t >= |s.tasks| ==> row < |s.rows| && s.rows[row] == read && Next(s, tick).rows == s.rows
  {}

  /** A save decides the row it hits and leaves the others. */
  lemma SaveDecides(s: Shared, tick: Tick)
    requires SharedInv(s) && Enabled(s, tick.move)
    ensures var rows := Next(s, tick).rows;
      && |s.rows| <= |rows|
      && forall i | 0 <= i < |s.rows| ::
        if Target(s, tick.move) == Some(i) then !rows[i].status.Pending? else rows[i] == s.rows[i]
  {
    if tick.move.Write? { assert TaskInv(s.rows, s.tasks[tick.move.task]); }
  }

  /** A call about to save has read its row pending. */
  lemma SaverReadPending(s: Shared, m: Move) returns (read: Consent)
    requires SharedInv(s) && Enabled(s, m) && Target(s, m).Some?
    ensures Holds(s.tasks[m.task], Target(s, m).value, read) && read.status.Pending?
    ensures Target(s, m).value < |s.rows|
  {
    var k := s.tasks[m.task];
    assert TaskInv(s.rows, k);
    read := if k.Sweeping? then k.todo[0].1 else k.read;
    if k.Sweeping? { assert k.todo[0] in k.todo; }
  }

  // ------------------------------------------------------------------ schedules

  /** Whether some call saved the row after call t had started. */
  ghost predicate SavedSince(s: Shared, ticks: seq<Tick>, t: nat, row: nat)
    requires Schedule(s, ticks)
  {
    ticks != [] &&
    var before, last := ticks[..|ticks| - 1], ticks[|ticks| - 1];
    var mid := After(s, before);
    t < |mid.tasks| && (SavedSince(s, before, t, row) || Target(mid, last.move) == Some(row))
  }

  /** How often a row was saved. */
  ghost function Saves(s: Shared, ticks: seq<Tick>, row: nat): nat
    requires Schedule(s, ticks)
  {
    if ticks == [] then 0
    else
      var before, last := ticks[..|ticks| - 1], ticks[|ticks| - 1];
      Saves(s, before, row) + (if Target(After(s, before), last.move) == Some(row) then 1 else 0)
  }

  /** No save lands on a row that is already decided. */
  ghost predicate NoOverwrite(s: Shared, ticks: seq<Tick>)
    requires Schedule(s, ticks)
  {
    ticks == [] ||
    var before, last := ticks[..|ticks| - 1], ticks[|ticks| - 1];
    var mid := After(s, before);
    && NoOverwrite(s, before)
    && match Target(mid, last.move)
       case None => true
       case Some(row) => row < |mid.rows| && mid.rows[row].status.Pending?
  }

  /** No two calls overlap on a row: none saves it after another did so since the first one started. */
  ghost predicate NoOverlap(s: Shared, ticks: seq<Tick>)
    requires Schedule(s, ticks)
  {
    ticks == [] ||
    var before, last := ticks[..|ticks| - 1], ticks[|ticks| - 1];
    && NoOverlap(s, before)
    && match Target(After(s, before), last.move)
       case None => true
       case Some(row) => !SavedSince(s, before, last.move.task, row)
  }

  /** Whatever the schedule, and for every call in flight and every object it holds, a sweep's list
      included: the row is still that object unless some call saved it after this one started, and
      it is still pending exactly when it was read pending and none did. */
  lemma {:induction false} HeldRow(rows: seq<Consent>, ticks: seq<Tick>, t: nat, row: nat, read: Consent)
    requires AllShaped(rows) && Schedule(NoCalls(rows), ticks)
    requires t < |After(NoCalls(rows), ticks).tasks| && Holds(After(NoCalls(rows), ticks).tasks[t], row, read)
    ensures var s, since := After(NoCalls(rows), ticks), SavedSince(NoCalls(rows), ticks, t, row);
      && row < |s.rows|
      && (!since ==> s.rows[row] == read)
      && (s.rows[row].status.Pending? <==> read.status.Pending? && !since)
  {
    if ticks != [] {
      var s0, before, last := NoCalls(rows), ticks[..|ticks| - 1], ticks[|ticks| - 1];
      var mid := After(s0, before);
      RowsAreRobust(s0, before);
      NextHolds(mid, last, t, row, read);
      SaveDecides(mid, last);
      if t < |mid.tasks| { HeldRow(rows, before, t, row, read); }
    }
  }

  /** A schedule overwrites no decision exactly when no two of its calls overlap on a row. */
  lemma {:induction false} OverwritesIffOverlap(rows: seq<Consent>, ticks: seq<Tick>)
    requires AllShaped(rows) && Schedule(NoCalls(rows), ticks)
    ensures NoOverwrite(NoCalls(rows), ticks) <==> NoOverlap(NoCalls(rows), ticks)
  {
    if ticks != [] {
      var s0, before, last := NoCalls(rows), ticks[..|ticks| - 1], ticks[|ticks| - 1];
      var mid := After(s0, before);
      OverwritesIffOverlap(rows, before);
      RowsAreRobust(s0, before);
      if Target(mid, last.move).Some? {
        var read := SaverReadPending(mid, last.move);
        HeldRow(rows, before, last.move.task, Target(mid, last.move).value, read);
      }
    }
  }

  lemma {:induction false} SavedSinceIsASave(s: Shared, ticks: seq<Tick>, t: nat, row: nat)
    requires Schedule(s, ticks) && SavedSince(s, ticks, t, row)
    ensures Saves(s, ticks, row) > 0
  {
    var before := ticks[..|ticks| - 1];
    if SavedSince(s, before, t, row) { SavedSinceIsASave(s, before, t, row); }
  }

  /** A saved row is decided. */
  lemma {:induction false} SavedIsDecided(rows: seq<Consent>, ticks: seq<Tick>, row: nat)
    requires AllShaped(rows) && Schedule(NoCalls(rows), ticks) && Saves(NoCalls(rows), ticks, row) > 0
    ensures var s := After(NoCalls(rows), ticks); row < |s.rows| && !s.rows[row].status.Pending?
  {
    var s0, before, last := NoCalls(rows), ticks[..|ticks| - 1], ticks[|ticks| - 1];
    var mid := After(s0, before);
    RowsAreRobust(s0, before);
    SaveDecides(mid, last);
    if Target(mid, last.move) == Some(row) {
      var _ := SaverReadPending(mid, last.move);
    } else {
      SavedIsDecided(rows, before, row);
    }
  }

  ghost predicate NoneSavedTwice(s: Shared, ticks: seq<Tick>)
    requires Schedule(s, ticks)
  {
    forall row: nat :: Saves(s, ticks, row) <= 1
  }

  /** One more tick saves one more row, or none. */
  lemma SavedTwiceStep(s: Shared, ticks: seq<Tick>)
    requires Schedule(s, ticks) && ticks != []
    ensures var before, last := ticks[..|ticks| - 1], ticks[|ticks| - 1];
      var at := Target(After(s, before), last.move);
      NoneSavedTwice(s, ticks) <==> NoneSavedTwice(s, before) && (at.Some? ==> Saves(s, before, at.value) == 0)
  {
    var before, last := ticks[..|ticks| - 1], ticks[|ticks| - 1];
    var at := Target(After(s, before), last.move);
    forall row: nat ensures Saves(s, ticks, row) == Saves(s, before, row) + (if at == Some(row) then 1 else 0) {}
    if NoneSavedTwice(s, ticks) {
      forall row: nat ensures Saves(s, before, row) <= 1 { assert Saves(s, ticks, row) <= 1; }
    }
  }

  /** Seen from the rows: a schedule overwrites no decision exactly when it saves no row twice. */
  lemma {:induction false} OverwritesIffSavedTwice(rows: seq<Consent>, ticks: seq<Tick>)
    requires AllShaped(rows) && Schedule(NoCalls(rows), ticks)
    ensures NoOverwrite(NoCalls(rows), ticks) <==> NoneSavedTwice(NoCalls(rows), ticks)
  {
    if ticks != [] {
      var s0, before, last := NoCalls(rows), ticks[..|ticks| - 1], ticks[|ticks| - 1];
      var mid := After(s0, before);
      OverwritesIffSavedTwice(rows, before);
      SavedTwiceStep(s0, ticks);
      RowsAreRobust(s0, before);
      var at := Target(mid, last.move);
      if at.Some? {
        var read := SaverReadPending(mid, last.move);
        HeldRow(rows, before, last.move.task, at.value, read);
        if Saves(s0, before, at.value) > 0 {
          SavedIsDecided(rows, before, at.value);
        } else if SavedSince(s0, before, last.move.task, at.value) {
          SavedSinceIsASave(s0, before, last.move.task, at.value);
        }
      }
    }
  }

  /** Hence decisions are final in every schedule without overlaps: a request decided after the
      first n moves is never written again. */
  lemma {:induction false} DecisionsAreFinalWithoutOverlap(rows: seq<Consent>, ticks: seq<Tick>, n: nat, i: nat)
    requires AllShaped(rows) && Schedule(NoCalls(rows), ticks) && NoOverlap(NoCalls(rows), ticks)
    requires n <= |ticks|
    ensures Schedule(NoCalls(rows), ticks[..n])
    ensures var s, s' := After(NoCalls(rows), ticks[..n]), After(NoCalls(rows), ticks);
      i < |s.rows| && !s.rows[i].status.Pending? ==> i < |s'.rows| && s'.rows[i] == s.rows[i]
  {
    if n == |ticks| {
      assert ticks[..n] == ticks;
    } else {
      var s0, before, last := NoCalls(rows), ticks[..|ticks| - 1], ticks[|ticks| - 1];
      assert before[..n] == ticks[..n];
      DecisionsAreFinalWithoutOverlap(rows, before, n, i);
      OverwritesIffOverlap(rows, ticks);
      RowsAreRobust(s0, before);
      SaveDecides(After(s0, before), last);
    }
  }

  // ------------------------------------------------------------------ last saves

  /** The change a save makes. */
  ghost function Made(s: Shared, m: Move): Change
    requires Enabled(s, m) && Target(s, m).Some?
  {
    if s.tasks[m.task].Sweeping? then ToExpireSwept else s.tasks[m.task].change
  }

  /** The change the last save of a row made, if it was saved. */
  ghost function LastChange(s: Shared, ticks: seq<Tick>, row: nat): Option<Change>
    requires Schedule(s, ticks)
  {
    if ticks == [] then None
    else
      var before, last := ticks[..|ticks| - 1], ticks[|ticks| - 1];
      var mid := After(s, before);
      if Target(mid, last.move) == Some(row) then Some(Made(mid, last.move)) else LastChange(s, before, row)
  }

  /** The row is what this change makes of some pending version of it. */
  ghost predicate MadeBy(c: Consent, change: Change) {
    exists read: Consent :: read.status.Pending? && RowShape(read) && SameRequest(c, read) && c == Image(read, change)
  }

  lemma SaveMakes(s: Shared, tick: Tick)
    requires SharedInv(s) && Enabled(s, tick.move) && Target(s, tick.move).Some?
    ensures Target(s, tick.move).value < |s.rows|
    ensures MadeBy(Next(s, tick).rows[Target(s, tick.move).value], Made(s, tick.move))
  {
    var read := SaverReadPending(s, tick.move);
    var row := Target(s, tick.move).value;
    assert TaskInv(s.rows, s.tasks[tick.move.task]);
    var c := Next(s, tick).rows[row];
    assert c == Image(read, Made(s, tick.move)) && SameRequest(c, read) && RowShape(read);
  }

  /** In every schedule a saved row is what its last save made of a pending version of it, and a row
      never saved is as it was found or filed. */
  lemma {:induction false} RowIsLastSave(rows: seq<Consent>, ticks: seq<Tick>, row: nat)
    requires AllShaped(rows) && Schedule(NoCalls(rows), ticks) && row < |After(NoCalls(rows), ticks).rows|
    ensures LastChange(NoCalls(rows), ticks, row).None? <==> Saves(NoCalls(rows), ticks, row) == 0
    ensures var c := After(NoCalls(rows), ticks).rows[row];
      match LastChange(NoCalls(rows), ticks, row)
      case Some(change) => MadeBy(c, change)
      case None => if row < |rows| then c == rows[row] else c.status.Pending?
  {
    if ticks != [] {
      var s0, before, last := NoCalls(rows), ticks[..|ticks| - 1], ticks[|ticks| - 1];
      var mid := After(s0, before);
      RowsAreRobust(s0, before);
      SaveDecides(mid, last);
      if Target(mid, last.move).Some? { SaveMakes(mid, last); }
      hide MadeBy;
      if row < |mid.rows| {
        RowIsLastSave(rows, before, row);
      } else {
        NotSavedYet(rows, before, row);
      }
    }
  }

  /** A row that is not in the table yet was not saved. */
  lemma NotSavedYet(rows: seq<Consent>, ticks: seq<Tick>, row: nat)
    requires AllShaped(rows) && Schedule(NoCalls(rows), ticks) && row >= |After(NoCalls(rows), ticks).rows|
    ensures Saves(NoCalls(rows), ticks, row) == 0 && LastChange(NoCalls(rows), ticks, row).None? && row >= |rows|
  {
    if Saves(NoCalls(rows), ticks, row) > 0 { SavedIsDecided(rows, ticks, row); }
    LastChangeIsASave(NoCalls(rows), ticks, row);
    RowsAreRobust(NoCalls(rows), ticks);
  }

  lemma {:induction false} LastChangeIsASave(s: Shared, ticks: seq<Tick>, row: nat)
    requires Schedule(s, ticks)
    ensures LastChange(s, ticks, row).None? <==> Saves(s, ticks, row) == 0
  {
    if ticks != [] { LastChangeIsASave(s, ticks[..|ticks| - 1], row); }
  }

  /** Whatever the schedule, a row is rejected without a reason exactly when its last save was that of
      a rejection with a null reason, or it was found so and never saved. */
  lemma UnreasonedIffLastSave(rows: seq<Consent>, ticks: seq<Tick>, row: nat)
    requires AllShaped(rows) && Schedule(NoCalls(rows), ticks) && row < |After(NoCalls(rows), ticks).rows|
    ensures Unreasoned(After(NoCalls(rows), ticks).rows[row]) <==>
      match LastChange(NoCalls(rows), ticks, row)
      case Some(change) => change.ToDecide? && change.decision == Refusal(None)
      case None => row < |rows| && Unreasoned(rows[row])
  {
    RowIsLastSave(rows, ticks, row);
  }
}
