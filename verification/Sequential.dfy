/** A call that nobody interrupts does what the atomic call does. */
module Sequential {
  import opened Wrappers
  import opened Entities
  import opened Consents
  import opened ConsentSteps
  import opened Interleaving
  import Filings
  import Sweep

  ghost function EventsIn(trail: seq<Entry>): seq<Event> {
    if trail == [] then []
    else
      var before, e := EventsIn(trail[..|trail| - 1]), trail[|trail| - 1];
      if e.OfEvent? then before + [e.event] else before
  }

  ghost function AuditsIn(trail: seq<Entry>): seq<Audit> {
    if trail == [] then []
    else
      var before, e := AuditsIn(trail[..|trail| - 1]), trail[|trail| - 1];
      if e.OfAudit? then before + [e.audit] else before
  }

  /** A schedule on the stored requests came to rest where the atomic call leaves them, and wrote what
      it appends to the trails. */
  ghost predicate Matches(s: Store, r: Store, after: Shared) {
    && after.rows == r.consents
    && r.events == s.events + EventsIn(after.trail) && r.audits == s.audits + AuditsIn(after.trail)
    && forall t | 0 <= t < |after.tasks| :: after.tasks[t].Owes() == []
  }

  lemma InTrail(trail: seq<Entry>, e: Entry)
    ensures EventsIn(trail + [e]) == if e.OfEvent? then EventsIn(trail) + [e.event] else EventsIn(trail)
    ensures AuditsIn(trail + [e]) == if e.OfAudit? then AuditsIn(trail) + [e.audit] else AuditsIn(trail)
  {
    assert (trail + [e])[..|trail|] == trail;
  }

  /** What one save owes, event and audit row. */
  lemma InEntries(trail: seq<Entry>, c: Consent, change: Change)
    ensures var both := trail + [Entries(c, change)[0]] + [Entries(c, change)[1]];
      && EventsIn(both) == EventsIn(trail) + [EventOf(c, change)]
      && AuditsIn(both) == AuditsIn(trail) + [AuditOf(c, change)]
  {
    var es := Entries(c, change);
    InTrail(trail, es[0]);
    InTrail(trail + [es[0]], es[1]);
  }

  /** A lone call that saved, and has its two trail rows to write. */
  lemma RecordBoth(s0: Shared, ticks: seq<Tick>, rows: seq<Consent>, es: seq<Entry>) returns (more: seq<Tick>)
    requires Schedule(s0, ticks) && |es| == 2 && After(s0, ticks) == Shared(rows, [Recording(es)], [])
    ensures Schedule(s0, more) && After(s0, more) == Shared(rows, [Recording([])], [es[0]] + [es[1]])
  {
    hide Schedule, After;
    assert [] + [es[0]] == [es[0]] && es[1..] == [es[1]] && es[1..][1..] == [];
    var half := Shared(rows, [Recording(es[1..])], [es[0]]);
    more := Extended(s0, ticks, Tick(0, Record(0)), Shared(rows, [Recording(es)], []), half);
    more := Extended(s0, more, Tick(0, Record(0)), half, Shared(rows, [Recording([])], [es[0]] + [es[1]]));
  }

  /** A lone call about to save, run to its end. */
  lemma SaveAndRecord(s0: Shared, ticks: seq<Tick>, rows: seq<Consent>, row: nat, read: Consent, change: Change)
    returns (more: seq<Tick>)
    requires Schedule(s0, ticks) && After(s0, ticks) == Shared(rows, [Saving(row, read, change)], [])
    requires row < |rows|
    ensures Schedule(s0, more)
    ensures var c := Image(read, change);
      After(s0, more) == Shared(rows[row := c], [Recording([])], [Entries(c, change)[0]] + [Entries(c, change)[1]])
  {
    var c := Image(read, change);
    var es := Entries(c, change);
    assert |es| == 2;
    hide Image, Entries, Schedule, After;
    more := Extended(s0, ticks, Tick(0, Write(0)), Shared(rows, [Saving(row, read, change)], []),
                     Shared(rows[row := c], [Recording(es)], []));
    more := RecordBoth(s0, more, rows[row := c], es);
  }

  /** A save of a lone call, matched with the atomic write of its row and its pair. */
  lemma SaveMatches(s: Store, r: Store, row: nat, read: Consent, change: Change, ticks: seq<Tick>)
    returns (more: seq<Tick>)
    requires Schedule(NoCalls(s.consents), ticks) && row < |s.consents|
    requires After(NoCalls(s.consents), ticks) == Shared(s.consents, [Saving(row, read, change)], [])
    requires var c := Image(read, change);
      && r.consents == s.consents[row := c]
      && r.events == s.events + [EventOf(c, change)] && r.audits == s.audits + [AuditOf(c, change)]
    ensures Schedule(NoCalls(s.consents), more) && Matches(s, r, After(NoCalls(s.consents), more))
  {
    more := SaveAndRecord(NoCalls(s.consents), ticks, s.consents, row, read, change);
    InEntries([], Image(read, change), change);
    hide Image, Entries, EventOf, AuditOf, Schedule, After;
    assert [] + [Entries(Image(read, change), change)[0]] == [Entries(Image(read, change), change)[0]];
  }

  lemma NothingDone(s0: Shared)
    ensures Schedule(s0, []) && After(s0, []) == s0
  {}

  /** A call that ends without a save leaves everything as it was. */
  lemma EndsMatching(s: Store, ticks: seq<Tick>)
    requires Schedule(NoCalls(s.consents), ticks)
    requires After(NoCalls(s.consents), ticks) == Shared(s.consents, [Done], [])
    ensures Matches(s, s, After(NoCalls(s.consents), ticks))
  {
    assert s.events + [] == s.events && s.audits + [] == s.audits;
  }

  /** What the atomic decision leaves, by what the call found. */
  lemma DecideLeaves(s: Store, i: nat, id: string, actor: string, d: Decision, now: int)
    requires Find(s.consents, ById(id)) == Some(i)
    ensures var c, r := s.consents[i], Consents.Decide(s, id, actor, d, now).0;
      if Overdue(c, now) then Saved(s, r, i, ToExpireLate(actor))
      else if c.status.Pending? && SessionConsistent(s.sessions, c.sessionId, c.deviceId)
      then Saved(s, r, i, ToDecide(d, actor, now))
      else r == s
  {}

  /** The store after one save of the i-th request and its two trail rows. */
  ghost predicate Saved(s: Store, r: Store, i: nat, change: Change)
    requires i < |s.consents|
  {
    var c := Image(s.consents[i], change);
    && r.consents == s.consents[i := c]
    && r.events == s.events + [EventOf(c, change)] && r.audits == s.audits + [AuditOf(c, change)]
  }

  /** A lone decision has read its row and checked its window. */
  lemma DecisionReads(rows: seq<Consent>, i: nat, actor: string, d: Decision, now: int) returns (ticks: seq<Tick>)
    requires i < |rows|
    ensures Schedule(NoCalls(rows), ticks)
    ensures After(NoCalls(rows), ticks) == Shared(rows, [AfterRead(Deciding(i, rows[i], d, actor), now)], [])
  {
    NothingDone(NoCalls(rows));
    hide Schedule, After, AfterRead;
    var reading := Shared(rows, [Deciding(i, rows[i], d, actor)], []);
    ticks := Extended(NoCalls(rows), [], Tick(now, ReadToDecide(i, d, actor)), NoCalls(rows), reading);
    ticks := Extended(NoCalls(rows), ticks, Tick(now, CheckDecision(0)), reading,
                      Shared(rows, [AfterRead(Deciding(i, rows[i], d, actor), now)], []));
  }

  /** And has had its session checked. */
  lemma DecisionChecked(rows: seq<Consent>, i: nat, actor: string, d: Decision, now: int, ok: bool, before: seq<Tick>)
    returns (ticks: seq<Tick>)
    requires i < |rows| && Schedule(NoCalls(rows), before)
    requires After(NoCalls(rows), before) == Shared(rows, [Checking(i, rows[i], d, actor)], [])
    ensures Schedule(NoCalls(rows), ticks)
    ensures After(NoCalls(rows), ticks)
      == Shared(rows, [if ok then Saving(i, rows[i], ToDecide(d, actor, now)) else Done], [])
  {
    hide Schedule, After;
    ticks := Extended(NoCalls(rows), before, Tick(now, FinishCheck(0, ok)),
                      Shared(rows, [Checking(i, rows[i], d, actor)], []),
                      Shared(rows, [if ok then Saving(i, rows[i], ToDecide(d, actor, now)) else Done], []));
  }

  /** A lone decision: read, window check, session check, save, audit row, event. */
  lemma DecideAlone(s: Store, i: nat, id: string, actor: string, d: Decision, now: int) returns (ticks: seq<Tick>)
    requires Find(s.consents, ById(id)) == Some(i)
    ensures Schedule(NoCalls(s.consents), ticks)
    ensures Matches(s, Consents.Decide(s, id, actor, d, now).0, After(NoCalls(s.consents), ticks))
  {
    var c, r := s.consents[i], Consents.Decide(s, id, actor, d, now).0;
    DecideLeaves(s, i, id, actor, d, now);
    hide Schedule, After, Consents.Decide, Matches, SessionConsistent, Image, EventOf, AuditOf, Overdue;
    ticks := DecisionReads(s.consents, i, actor, d, now);
    if Overdue(c, now) {
      ticks := SaveMatches(s, r, i, c, ToExpireLate(actor), ticks);
    } else if !c.status.Pending? {
      EndsMatching(s, ticks);
    } else {
      var ok := SessionConsistent(s.sessions, c.sessionId, c.deviceId);
      ticks := DecisionChecked(s.consents, i, actor, d, now, ok, ticks);
      if ok { ticks := SaveMatches(s, r, i, c, ToDecide(d, actor, now), ticks); } else { EndsMatching(s, ticks); }
    }
  }

  lemma AbortLeaves(s: Store, key: string, reason: string, now: int)
    requires AbortTarget(s.consents, key).Some?
    ensures var i, r := AbortTarget(s.consents, key).value, MarkAborted(s, key, reason, now);
      if s.consents[i].status.Pending? then Saved(s, r, i, ToAbort(reason, now)) else r == s
  {}

  /** A lone abort: read, check, save, event, audit row. */
  lemma AbortAlone(s: Store, key: string, reason: string, now: int) returns (ticks: seq<Tick>)
    requires AbortTarget(s.consents, key).Some?
    ensures Schedule(NoCalls(s.consents), ticks)
    ensures Matches(s, MarkAborted(s, key, reason, now), After(NoCalls(s.consents), ticks))
  {
    var i := AbortTarget(s.consents, key).value;
    var s0, rows, c, r := NoCalls(s.consents), s.consents, s.consents[i], MarkAborted(s, key, reason, now);
    AbortLeaves(s, key, reason, now);
    NothingDone(s0);
    hide Schedule, After, MarkAborted, Matches, Image, EventOf, AuditOf, AbortTarget;
    var reading := Shared(rows, [Aborting(i, c, reason)], []);
    ticks := Extended(s0, [], Tick(now, ReadToAbort(i, reason)), s0, reading);
    if c.status.Pending? {
      ticks := Extended(s0, ticks, Tick(now, CheckAbort(0)), reading,
                        Shared(rows, [Saving(i, c, ToAbort(reason, now))], []));
      ticks := SaveMatches(s, r, i, c, ToAbort(reason, now), ticks);
    } else {
      ticks := Extended(s0, ticks, Tick(now, CheckAbort(0)), reading, Shared(rows, [Done], []));
      EndsMatching(s, ticks);
    }
  }

  /** What the atomic filing leaves, in the terms of a lone one. */
  lemma FilingLeaves(cfg: Config, s: Store, caller: string, body: CreateBody, newId: string, now: int)
    requires CreateConsentRequest(cfg, s, caller, body, newId, now).1.Ok?
    ensures var (r, filed) := CreateConsentRequest(cfg, s, caller, body, newId, now);
      var c, es := filed.value, FilingEntries(filed.value, caller);
      && c.status.Pending? && RowShape(c) && !HasTxn(s.consents, c.txnRef)
      && |es| == 2 && es[0].OfAudit? && es[1].OfEvent?
      && r.consents == s.consents + [c]
      && r.events == s.events + [es[1].event] && r.audits == s.audits + [es[0].audit]
  {
    Filings.FilingWrites(cfg, s, caller, body, newId, now);
    Filings.FilingRefusals(cfg, s, caller, body, newId, now);
    hide CreateConsentRequest, Filings.PartiesPass;
    var c := CreateConsentRequest(cfg, s, caller, body, newId, now).1.value;
    forall j | 0 <= j < |s.consents| ensures s.consents[j].txnRef != c.txnRef {
      assert s.consents[j] in s.consents;
    }
  }

  /** The moves of a filing that nobody interrupts. */
  lemma FileMoves(rows: seq<Consent>, c: Consent, caller: string, now: int) returns (ticks: seq<Tick>)
    requires c.status.Pending? && RowShape(c) && !HasTxn(rows, c.txnRef)
    ensures Schedule(NoCalls(rows), ticks)
    ensures var es := FilingEntries(c, caller);
      After(NoCalls(rows), ticks) == Shared(rows + [c], [Recording([])], [es[0]] + [es[1]])
  {
    var s0, es := NoCalls(rows), FilingEntries(c, caller);
    NothingDone(s0);
    assert |es| == 2;
    hide Schedule, After, FilingEntries, RowShape, HasTxn;
    ticks := Extended(s0, [], Tick(now, File(c, caller)), s0, Shared(rows + [c], [Recording(es)], []));
    ticks := RecordBoth(s0, ticks, rows + [c], es);
  }

  /** A lone filing that goes through: the row, its audit row, its event. */
  lemma FileAlone(cfg: Config, s: Store, caller: string, body: CreateBody, newId: string, now: int)
    returns (ticks: seq<Tick>)
    requires CreateConsentRequest(cfg, s, caller, body, newId, now).1.Ok?
    ensures Schedule(NoCalls(s.consents), ticks)
    ensures Matches(s, CreateConsentRequest(cfg, s, caller, body, newId, now).0, After(NoCalls(s.consents), ticks))
  {
    FilingLeaves(cfg, s, caller, body, newId, now);
    hide CreateConsentRequest, FilingEntries, RowShape, HasTxn, Schedule, After, Matches;
    var (r, filed) := CreateConsentRequest(cfg, s, caller, body, newId, now);
    ticks := FileMoves(s.consents, filed.value, caller, now);
    FiledMatches(s, r, filed.value, FilingEntries(filed.value, caller), After(NoCalls(s.consents), ticks));
  }

  lemma FiledMatches(s: Store, r: Store, c: Consent, es: seq<Entry>, after: Shared)
    requires |es| == 2 && es[0].OfAudit? && es[1].OfEvent?
    requires r.consents == s.consents + [c]
    requires r.events == s.events + [es[1].event] && r.audits == s.audits + [es[0].audit]
    requires after == Shared(s.consents + [c], [Recording([])], [es[0]] + [es[1]])
    ensures Matches(s, r, after)
  {
    InTrail([], es[0]);
    InTrail([es[0]], es[1]);
    assert [] + [es[0]] == [es[0]];
    assert EventsIn(after.trail) == [es[1].event] && AuditsIn(after.trail) == [es[0].audit];
  }

  // ---------------------------------------------------------------------- sweep

  /** The sweep's snapshots are the overdue rows, in the order of its list. */
  lemma {:induction false} CandidatesAreOverdue(rows: seq<Consent>, now: int)
    ensures |Candidates(rows, now)| == |OverdueRows(rows, now)|
    ensures forall k | 0 <= k < |OverdueRows(rows, now)| :: Candidates(rows, now)[k].0 == OverdueRows(rows, now)[k]
  {
    if rows != [] { CandidatesAreOverdue(rows[..|rows| - 1], now); }
  }

  /** A lone sweep, from one expiry to the next: the save, its event, its audit row. */
  lemma SweepMoves(s0: Shared, before: seq<Tick>, rows: seq<Consent>, todo: seq<(nat, Consent)>, trail: seq<Entry>)
    returns (ticks: seq<Tick>)
    requires Schedule(s0, before) && After(s0, before) == Shared(rows, [Sweeping(todo, [])], trail)
    requires todo != [] && todo[0].0 < |rows|
    ensures Schedule(s0, ticks)
    ensures var c := Expire(todo[0].1);
      After(s0, ticks) == Shared(rows[todo[0].0 := c], [Sweeping(todo[1..], [])],
        trail + [Entries(c, ToExpireSwept)[0]] + [Entries(c, ToExpireSwept)[1]])
  {
    var c := Expire(todo[0].1);
    var es, rows' := Entries(c, ToExpireSwept), rows[todo[0].0 := c];
    assert |es| == 2 && es[1..] == [es[1]] && es[1..][1..] == [];
    hide Schedule, After, Expire, Entries;
    var saved := Shared(rows', [Sweeping(todo[1..], es)], trail);
    ticks := Extended(s0, before, Tick(0, Write(0)), Shared(rows, [Sweeping(todo, [])], trail), saved);
    var half := Shared(rows', [Sweeping(todo[1..], es[1..])], trail + [es[0]]);
    ticks := Extended(s0, ticks, Tick(0, Record(0)), saved, half);
    ticks := Extended(s0, ticks, Tick(0, Record(0)), half,
                      Shared(rows', [Sweeping(todo[1..], [])], trail + [es[0]] + [es[1]]));
  }

  /** The atomic sweep after one expiry more. */
  lemma SweepLeaves(s: Store, list: seq<nat>, k: nat)
    requires k < |list| && (forall j | 0 <= j < |list| :: list[j] < |s.consents|)
    requires forall a, b | 0 <= a < b < |list| :: list[a] != list[b]
    ensures var mid, r, c := SweepRows(s, list[..k]), SweepRows(s, list[..k + 1]), Expire(s.consents[list[k]]);
      && r.consents == mid.consents[list[k] := c]
      && r.events == mid.events + [EventOf(c, ToExpireSwept)]
      && r.audits == mid.audits + [AuditOf(c, ToExpireSwept)]
  {
    assert list[..k + 1][..k] == list[..k];
    Sweep.SweepRowsTable(s, list[..k]);
    assert list[k] !in list[..k];
  }

  /** Where a lone sweep stands after its first k expiries. */
  ghost predicate SweptSoFar(s: Store, now: int, k: nat, after: Shared, trail: seq<Entry>) {
    var list, todo := OverdueRows(s.consents, now), Candidates(s.consents, now);
    && k <= |list| == |todo|
    && (forall j | 0 <= j < k :: list[..k][j] < |s.consents|)
    && var r := SweepRows(s, list[..k]);
       && after == Shared(r.consents, [Sweeping(todo[k..], [])], trail)
       && r.events == s.events + EventsIn(trail) && r.audits == s.audits + AuditsIn(trail)
  }

  lemma {:induction false} SweepPrefix(s: Store, now: int, k: nat) returns (ticks: seq<Tick>, trail: seq<Entry>)
    requires k <= |OverdueRows(s.consents, now)|
    ensures Schedule(NoCalls(s.consents), ticks)
    ensures SweptSoFar(s, now, k, After(NoCalls(s.consents), ticks), trail)
  {
    var s0, list, todo := NoCalls(s.consents), OverdueRows(s.consents, now), Candidates(s.consents, now);
    CandidatesAreOverdue(s.consents, now);
    if k == 0 {
      trail := [];
      NothingDone(s0);
      hide Schedule, After;
      assert list[..0] == [] && todo[0..] == todo;
      assert s.events + [] == s.events && s.audits + [] == s.audits;
      ticks := Extended(s0, [], Tick(now, ReadToSweep(now)), s0, Shared(s.consents, [Sweeping(todo, [])], []));
    } else {
      ticks, trail := SweepPrefix(s, now, k - 1);
      ticks, trail := SweepOne(s, now, k - 1, ticks, trail);
    }
  }

  /** The trail after the next expiry. */
  ghost function Expiring(trail: seq<Entry>, read: Consent): seq<Entry> {
    var es := Entries(Expire(read), ToExpireSwept);
    trail + [es[0]] + [es[1]]
  }

  lemma SweepNext(s: Store, now: int, k: nat, mid: Shared, trail: seq<Entry>)
    requires k < |OverdueRows(s.consents, now)| && SweptSoFar(s, now, k, mid, trail)
    ensures k < |Candidates(s.consents, now)|
    ensures var rest := Candidates(s.consents, now)[k..];
      && rest[0].0 < |mid.rows| && mid == Shared(mid.rows, [Sweeping(rest, [])], trail)
      && var more := Expiring(trail, rest[0].1);
         SweptSoFar(s, now, k + 1,
                    Shared(mid.rows[rest[0].0 := Expire(rest[0].1)], [Sweeping(rest[1..], [])], more), more)
  {
    hide SweepRows, OverdueRows, Candidates, Expire, Entries, EventOf, AuditOf, EventsIn, AuditsIn;
    var list, todo := OverdueRows(s.consents, now), Candidates(s.consents, now);
    Sweep.OverdueRowsExact(s.consents, now);
    CandidatesAreOverdue(s.consents, now);
    SweepLeaves(s, list, k);
    assert todo[k..][0] == todo[k] && todo[k..][1..] == todo[k + 1..];
    InEntries(trail, Expire(todo[k].1), ToExpireSwept);
  }

  lemma SweepOne(s: Store, now: int, k: nat, before: seq<Tick>, trail: seq<Entry>)
    returns (ticks: seq<Tick>, more: seq<Entry>)
    requires k < |OverdueRows(s.consents, now)| && Schedule(NoCalls(s.consents), before)
    requires SweptSoFar(s, now, k, After(NoCalls(s.consents), before), trail)
    ensures Schedule(NoCalls(s.consents), ticks)
    ensures SweptSoFar(s, now, k + 1, After(NoCalls(s.consents), ticks), more)
  {
    var mid := After(NoCalls(s.consents), before);
    SweepNext(s, now, k, mid, trail);
    hide Schedule, After, SweptSoFar, OverdueRows, Candidates, Expire, Entries;
    var rest := Candidates(s.consents, now)[k..];
    ticks := SweepMoves(NoCalls(s.consents), before, mid.rows, rest, trail);
    more := Expiring(trail, rest[0].1);
  }

  /** A lone sweep: list, then save and record each. */
  lemma SweepAlone(s: Store, now: int) returns (ticks: seq<Tick>)
    ensures Schedule(NoCalls(s.consents), ticks)
    ensures Matches(s, ExpireStalePending(s, now).0, After(NoCalls(s.consents), ticks))
  {
    var list := OverdueRows(s.consents, now);
    var trail: seq<Entry>;
    ticks, trail := SweepPrefix(s, now, |list|);
    assert list[..|list|] == list;
  }
}
