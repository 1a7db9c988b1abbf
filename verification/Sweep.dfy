/** The expiry sweep: exactly the overdue requests expire, each once. */
module Sweep {
  import opened Wrappers
  import opened Entities
  import opened Columns
  import opened Trails
  import opened Consents
  import opened ConsentSteps

  ghost function PendingCount(rows: seq<Consent>): nat {
    if rows == [] then 0
    else PendingCount(rows[..|rows| - 1]) + (if rows[|rows| - 1].status.Pending? then 1 else 0)
  }

  ghost function ExpiredEvents(events: seq<Event>): nat {
    if events == [] then 0
    else ExpiredEvents(events[..|events| - 1])
         + (if events[|events| - 1].origin.Server? && events[|events| - 1].eventType.ConsentExpired? then 1 else 0)
  }

  /** The pointwise description of a sweep. */
  ghost predicate SweptTable(rows: seq<Consent>, rows': seq<Consent>, now: int) {
    && |rows'| == |rows|
    && forall i | 0 <= i < |rows|  ::
      rows'[i] == if rows[i].status.Pending? && now > DecisionDeadline(rows[i])
        then rows[i].(status := Expired, abortedReason := Some("REQUEST_EXPIRED")) else rows[i]
  }

  /** The candidate list holds the overdue positions and no other, each once. */
  lemma {:induction false} OverdueRowsExact(rows: seq<Consent>, now: int)
    ensures forall i :: i in OverdueRows(rows, now) <==> 0 <= i < |rows| && Overdue(rows[i], now)
    ensures forall a, b | 0 <= a < b < |OverdueRows(rows, now)| ::
      OverdueRows(rows, now)[a] != OverdueRows(rows, now)[b]
  {
    if rows != [] {
      var n := |rows| - 1;
      OverdueRowsExact(rows[..n], now);
      var before := OverdueRows(rows[..n], now);
      assert forall i | 0 <= i < n :: rows[..n][i] == rows[i];
      if Overdue(rows[n], now) {
        assert OverdueRows(rows, now) == before + [n];
        assert OverdueRows(rows, now)[|before|] == n;
      }
    }
  }

  /** What the loop over a duplicate-free list does to the table, and what it leaves alone. */
  lemma {:induction false} SweepRowsTable(s: Store, list: seq<nat>)
    requires forall k | 0 <= k < |list| :: list[k] < |s.consents|
    requires forall a, b | 0 <= a < b < |list| :: list[a] != list[b]
    ensures var r := SweepRows(s, list);
      && r == s.(consents := r.consents, events := r.events, audits := r.audits)
      && forall i | 0 <= i < |s.consents| :: r.consents[i] == if i in list then Expire(s.consents[i]) else s.consents[i]
  {
    if list != [] {
      var before, last := list[..|list| - 1], list[|list| - 1];
      SweepRowsTable(s, before);
      assert list == before + [last];
      assert last !in before;
    }
  }

  /** The pair of rows that expiring c in a sweep writes. */
  ghost function SweepEvent(c: Consent): Event {
    EndEvent(c, ConsentExpired, Some("REQUEST_EXPIRED"))
  }

  ghost function SweepAudit(c: Consent): Audit {
    AuditRow(c, ExpiredBySweep(c.txnRef), System, "SYSTEM", "system")
  }

  /** One expiry, seen from the trail of a transaction. */
  lemma SweepRowTrail(s: Store, i: nat, txn: string)
    requires i < |s.consents|
    ensures var r, c := SweepRow(s, i), s.consents[i];
      && EventsFor(r.events, txn) == EventsFor(s.events, txn) + (if c.txnRef == txn then [SweepEvent(c)] else [])
      && AuditsFor(r.audits, txn) == AuditsFor(s.audits, txn) + (if c.txnRef == txn then [SweepAudit(c)] else [])
  {
    EventsForAppend(s.events, SweepEvent(s.consents[i]), txn);
    AuditsForAppend(s.audits, SweepAudit(s.consents[i]), txn);
  }

  /** The trail of a transaction gained the expiry of c, or nothing. */
  ghost predicate Gained(s: Store, r: Store, c: Consent, expired: bool) {
    && EventsFor(r.events, c.txnRef) == EventsFor(s.events, c.txnRef) + (if expired then [SweepEvent(c)] else [])
    && AuditsFor(r.audits, c.txnRef) == AuditsFor(s.audits, c.txnRef) + (if expired then [SweepAudit(c)] else [])
  }

  lemma GainedStep(s: Store, mid: Store, last: nat, c: Consent, before: bool)
    requires last < |mid.consents| && Gained(s, mid, c, before)
    requires mid.consents[last].txnRef == c.txnRef ==> !before && mid.consents[last] == c
    ensures Gained(s, SweepRow(mid, last), c, before || mid.consents[last].txnRef == c.txnRef)
  {
    SweepRowTrail(mid, last, c.txnRef);
  }

  /** What the loop does to the trail of one request: one entry if it is listed, none otherwise. */
  lemma {:induction false} SweepRowsTrail(s: Store, list: seq<nat>, i: nat)
    requires KeysUnique(s.consents) && i < |s.consents|
    requires forall k | 0 <= k < |list| :: list[k] < |s.consents|
    requires forall a, b | 0 <= a < b < |list| :: list[a] != list[b]
    ensures Gained(s, SweepRows(s, list), s.consents[i], i in list)
  {
    if list != [] {
      var before, last := list[..|list| - 1], list[|list| - 1];
      assert list == before + [last];
      assert last !in before;
      SweepRowsTrail(s, before, i);
      SweepRowsTable(s, before);
      TxnIsKey(s.consents, i, last);
      GainedStep(s, SweepRows(s, before), last, s.consents[i], i in before);
    }
  }

  /** The loop only appends, one expiry event per listed row. */
  lemma {:induction false} SweepRowsAppends(s: Store, list: seq<nat>)
    requires forall k | 0 <= k < |list| :: list[k] < |s.consents|
    ensures var r := SweepRows(s, list);
      && s.events <= r.events && s.audits <= r.audits
      && ExpiredEvents(r.events) == ExpiredEvents(s.events) + |list|
  {
    if list != [] {
      var before, last := list[..|list| - 1], list[|list| - 1];
      SweepRowsAppends(s, before);
      var mid := SweepRows(s, before);
      var e := SweepEvent(mid.consents[last]);
      assert (mid.events + [e])[..|mid.events|] == mid.events;
    }
  }

  lemma {:induction false} SweepRowsKnown(s: Store, list: seq<nat>)
    requires forall k | 0 <= k < |list| :: list[k] < |s.consents|
    requires TrailsKnown(s)
    ensures TrailsKnown(SweepRows(s, list))
  {
    if list != [] {
      var before, last := list[..|list| - 1], list[|list| - 1];
      SweepRowsKnown(s, before);
      var mid := SweepRows(s, before);
      var c := mid.consents[last];
      KnownAfterAppend(mid, SweepRow(mid, last), SweepEvent(c), SweepAudit(c), c.txnRef, last);
    }
  }

  /** The drop in pending rows is the number of overdue ones. */
  lemma {:induction false} OverdueCount(rows: seq<Consent>, rows': seq<Consent>, now: int)
    requires SweptTable(rows, rows', now)
    ensures |OverdueRows(rows, now)| == PendingCount(rows) - PendingCount(rows')
  {
    if rows != [] {
      var n := |rows| - 1;
      OverdueCount(rows[..n], rows'[..n], now);
    }
  }

  lemma {:induction false} NoneOverdue(rows: seq<Consent>, now: int)
    requires forall i | 0 <= i < |rows| :: !Overdue(rows[i], now)
    ensures OverdueRows(rows, now) == []
  {
    if rows != [] {
      NoneOverdue(rows[..|rows| - 1], now);
    }
  }

  /** Sweep exactness, for any table whatever its rows: afterwards nothing pending is past its
      deadline, exactly the overdue pending rows changed (to EXPIRED / REQUEST_EXPIRED), the count
      returned is the drop in pending rows and the number of expiry events added, and sweeping
      again at the same time returns 0 and changes nothing. */
  lemma SweepExact(s: Store, now: int)
    ensures var (s', n) := ExpireStalePending(s, now);
      && SweptTable(s.consents, s'.consents, now)
      && s' == s.(consents := s'.consents, events := s'.events, audits := s'.audits)
      && (forall c | c in s'.consents && c.status.Pending? :: now <= DecisionDeadline(c))
      && n == PendingCount(s.consents) - PendingCount(s'.consents)
      && n == ExpiredEvents(s'.events) - ExpiredEvents(s.events)
      && ExpireStalePending(s', now) == (s', 0)
  {
    var list := OverdueRows(s.consents, now);
    OverdueRowsExact(s.consents, now);
    SweepRowsTable(s, list);
    SweepRowsAppends(s, list);
    var s' := SweepRows(s, list);
    OverdueCount(s.consents, s'.consents, now);
    NoneOverdue(s'.consents, now);
  }

  /** The pair a sweep writes for a request tells the expired row. */
  lemma SweepPair(c: Consent)
    requires c.status.Pending? && RowShape(c)
    ensures Settles(c, Expire(c)) && SettledPair(Expire(c), SweepEvent(c), SweepAudit(c))
  {}

  /** A sweep is a legal effect on the consents and their trails. */
  lemma SweepEffect(s: Store, now: int)
    requires ConsentsInv(s)
    ensures ConsentEffect(s, ExpireStalePending(s, now).0, None)
  {
    var list := OverdueRows(s.consents, now);
    OverdueRowsExact(s.consents, now);
    SweepRowsTable(s, list);
    SweepRowsKnown(s, list);
    var s' := SweepRows(s, list);
    forall i | 0 <= i < |s.consents|
      ensures s'.consents[i] == s.consents[i] || Settles(s.consents[i], s'.consents[i])
      ensures TrailStep(s, s', i, false)
    {
      SweepRowsTrail(s, list, i);
      if i in list { SweepPair(s.consents[i]); }
    }
  }
}
