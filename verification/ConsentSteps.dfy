/** What any single step may do to the consent table and to the trail of each consent. */
module ConsentSteps {
  import opened Wrappers
  import opened Entities
  import opened Trails
  import opened Consents

  // -------------------------------------------------------------- row shapes

  /** Two versions of one request: everything but the decision columns agrees. */
  ghost predicate SameRequest(a: Consent, b: Consent) {
    b == a.(status := b.status, abortedReason := b.abortedReason,
            approvedAt := b.approvedAt, rejectedAt := b.rejectedAt)
  }

  /** Which decision columns are set in which status. A rejected row may lack a reason. */
  ghost predicate RowShape(c: Consent) {
    && (c.approvedAt.Some? <==> c.status.Approved?)
    && (c.rejectedAt.Some? <==> c.status.Rejected?)
    && (c.status.Pending? || c.status.Approved? ==> c.abortedReason.None?)
    && (c.status.Expired? ==> c.abortedReason == Some(REQUEST_EXPIRED))
    && (c.status.TamperAborted? ==> c.abortedReason.Some? && IsTamperReason(c.abortedReason.value))
  }

  ghost predicate Unreasoned(c: Consent) {
    c.status.Rejected? && c.abortedReason.None?
  }

  /** A pending request becomes a well-shaped decided one. */
  ghost predicate Settles(c: Consent, c': Consent) {
    c.status.Pending? && !c'.status.Pending? && SameRequest(c, c') && RowShape(c')
  }

  ghost predicate KeysUnique(rows: seq<Consent>) {
    && (forall i | 0 <= i < |rows| :: IsUuid(rows[i].id) && Lower(rows[i].id) == rows[i].id)
    && (forall i, j | 0 <= i < j < |rows| ::
      && rows[i].id != rows[j].id
      && rows[i].txnRef != rows[j].txnRef
      && (rows[i].consentId.Some? ==> rows[i].consentId != rows[j].consentId))
  }

  ghost predicate OnePendingPerSession(rows: seq<Consent>) {
    forall i, j | 0 <= i < j < |rows| ::
      rows[i].status.Pending? && rows[j].status.Pending? && Truthy(rows[i].sessionId)
      ==> rows[i].sessionId != rows[j].sessionId
  }

  ghost predicate HasTxn(rows: seq<Consent>, txn: string) {
    exists i | 0 <= i < |rows| :: rows[i].txnRef == txn
  }

  /** Every protocol event and every keyed audit row is about a stored request. */
  ghost predicate TrailsKnown(s: Store) {
    && (forall k | 0 <= k < |s.events| && s.events[k].origin.Server? && IsConsentEvent(s.events[k].eventType) ::
      s.events[k].txn.Some? && HasTxn(s.consents, s.events[k].txn.value))
    && (forall k | 0 <= k < |s.audits| :: s.audits[k].txn.Some? ==> HasTxn(s.consents, s.audits[k].txn.value))
  }

  ghost predicate ConsentsInv(s: Store) {
    && AllShaped(s.consents)
    && KeysUnique(s.consents)
    && OnePendingPerSession(s.consents)
    && TrailsKnown(s)
  }

  // ------------------------------------------------------------ trail entries

  /** The pair of rows written when a request was decided. Settled out of band, its reason decides
      both its status and whether the event is a rejection or an abort. Decided by a decision call,
      its stamp is not past its deadline. */
  ghost predicate SettledPair(c: Consent, e: Event, a: Audit) {
    && Mirror(e, a, c)
    && TypeMatchesStatus(e.eventType, c)
    && e.errorCode == c.abortedReason
    && (a.action.SettledOutOfBand? ==>
      && a.action.status == c.status && c.abortedReason.Some?
      && (c.status.TamperAborted? <==> IsTamperReason(c.abortedReason.value))
      && (c.status.Expired? <==> c.abortedReason == Some(REQUEST_EXPIRED))
      && (e.eventType.ConsentRejected? <==> IsSpecRejection(c.abortedReason.value)))
    && (e.eventType.ConsentAborted? ==> a.action.SettledOutOfBand?)
    && (a.action.DecisionApproved? ==> c.approvedAt.Some? && c.approvedAt.value <= DecisionDeadline(c))
    && (a.action.DecisionRejected? ==> c.rejectedAt.Some? && c.rejectedAt.value <= DecisionDeadline(c))
  }

  /** The pair a rolled-back cascade leaves behind. */
  ghost predicate OrphanPair(c: Consent, e: Event, a: Audit) {
    Mirror(e, a, c) && e.eventType.ConsentTamperAborted? && e.errorCode == Some(TAMPER_DETECTED)
  }

  ghost predicate RequestedPair(c: Consent, e: Event, a: Audit) {
    Mirror(e, a, c) && e.eventType.ConsentRequested? && e.errorCode.None?
  }

  ghost predicate Grew<T>(xs: seq<T>, ys: seq<T>) {
    |ys| == |xs| + 1 && ys[..|xs|] == xs
  }

  /** The trail of one stored request across a step. */
  ghost predicate TrailStep(s: Store, s': Store, i: nat, orphaned: bool)
    requires i < |s.consents| <= |s'.consents|
  {
    var c, c', txn := s.consents[i], s'.consents[i], s.consents[i].txnRef;
    var es, es' := EventsFor(s.events, txn), EventsFor(s'.events, txn);
    var au, au' := AuditsFor(s.audits, txn), AuditsFor(s'.audits, txn);
    if c' != c then !orphaned && Grew(es, es') && Grew(au, au') && SettledPair(c', es'[|es|], au'[|au|])
    else if orphaned then
      c.status.Pending? && Grew(es, es') && Grew(au, au') && OrphanPair(c, es'[|es|], au'[|au|])
    else es' == es && au' == au
  }

  /** A row that may join the table. */
  ghost predicate FreshRow(rows: seq<Consent>, c: Consent) {
    && c.status.Pending? && RowShape(c) && IsUuid(c.id) && Lower(c.id) == c.id
    && !Clashes(rows, c)
    && (Truthy(c.sessionId) ==> !HasPendingOn(rows, c.sessionId.value))
  }

  /** The consent table across a step: rows stay or settle, and at most one fresh row is added. */
  ghost predicate RowsAdvance(rows: seq<Consent>, rows': seq<Consent>) {
    && |rows| <= |rows'| <= |rows| + 1
    && (forall i | 0 <= i < |rows| :: rows'[i] == rows[i] || Settles(rows[i], rows'[i]))
    && (|rows'| > |rows| ==> FreshRow(rows, rows'[|rows|]))
  }

  /** The trail of a request that a step files. */
  ghost predicate FirstEntry(s: Store, s': Store, c: Consent) {
    var au, au' := AuditsFor(s.audits, c.txnRef), AuditsFor(s'.audits, c.txnRef);
    && EventsFor(s'.events, c.txnRef) == EventsFor(s.events, c.txnRef) + [RequestedEvent(c)]
    && Grew(au, au') && RequestedPair(c, RequestedEvent(c), au'[|au|])
  }

  /** The effect of any step on the consents and their trails; `orphan` names the request, if any,
      about which a rolled-back cascade wrote. */
  ghost predicate ConsentEffect(s: Store, s': Store, orphan: Option<nat>) {
    && RowsAdvance(s.consents, s'.consents)
    && (forall i | 0 <= i < |s.consents| :: TrailStep(s, s', i, orphan == Some(i)))
    && (|s'.consents| > |s.consents| ==> FirstEntry(s, s', s'.consents[|s.consents|]))
    && TrailsKnown(s')
  }

  // --------------------------------------------------------- the basic moves

  /** Any two rows with one transaction are the same row. */
  lemma TxnIsKey(rows: seq<Consent>, i: nat, j: nat)
    requires KeysUnique(rows) && i < |rows| && j < |rows|
    ensures rows[i].txnRef == rows[j].txnRef <==> i == j
  {}

  /** Settling one row is a legal effect when the pair written tells its new state. */
  lemma SettleEffect(s: Store, i: nat, c: Consent, e: Event, dto: AuditDto)
    requires ConsentsInv(s) && i < |s.consents| && Settles(s.consents[i], c)
    requires BelongsTo(e, c.txnRef) && SettledPair(c, e, LogRow(dto))
    ensures ConsentEffect(s, Settle(s, i, c, e, dto), None)
  {
    var s' := Settle(s, i, c, e, dto);
    KnownAfterAppend(s, s', e, LogRow(dto), c.txnRef, i);
    forall j | 0 <= j < |s.consents| ensures TrailStep(s, s', j, false) {
      TxnIsKey(s.consents, i, j);
      EventsForAppend(s.events, e, s.consents[j].txnRef);
      AuditsForAppend(s.audits, LogRow(dto), s.consents[j].txnRef);
    }
  }

  /** Rows written about a stored request keep the trails known. */
  lemma KnownAfterAppend(s: Store, s': Store, e: Event, a: Audit, txn: string, i: nat)
    requires TrailsKnown(s) && s'.events == s.events + [e] && s'.audits == s.audits + [a]
    requires e.txn == Some(txn) && a.txn == Some(txn)
    requires |s.consents| <= |s'.consents|
    requires forall k | 0 <= k < |s.consents| :: s'.consents[k].txnRef == s.consents[k].txnRef
    requires i < |s'.consents| && s'.consents[i].txnRef == txn
    ensures TrailsKnown(s')
  {
    forall t | HasTxn(s.consents, t) ensures HasTxn(s'.consents, t) {
      var k :| 0 <= k < |s.consents| && s.consents[k].txnRef == t;
      assert s'.consents[k].txnRef == t;
    }
    assert HasTxn(s'.consents, txn);
  }

  // -------------------------------------------------------------- invariants

  ghost predicate AllShaped(rows: seq<Consent>) {
    forall i | 0 <= i < |rows| :: RowShape(rows[i])
  }

  /** Settling rows changes no key and frees sessions rather than taking them. */
  lemma SettlingKeepsTable(rows: seq<Consent>, rows': seq<Consent>)
    requires |rows'| == |rows| && forall i | 0 <= i < |rows| :: rows'[i] == rows[i] || Settles(rows[i], rows'[i])
    requires AllShaped(rows) && KeysUnique(rows) && OnePendingPerSession(rows)
    ensures AllShaped(rows') && KeysUnique(rows') && OnePendingPerSession(rows')
  {
    forall i | 0 <= i < |rows| ensures SameRequest(rows[i], rows'[i]) {}
  }

  lemma FreshRowKeepsTable(rows: seq<Consent>, c: Consent)
    requires FreshRow(rows, c)
    requires AllShaped(rows) && KeysUnique(rows) && OnePendingPerSession(rows)
    ensures AllShaped(rows + [c]) && KeysUnique(rows + [c]) && OnePendingPerSession(rows + [c])
  {
    forall i | 0 <= i < |rows|
      ensures rows[i].id != c.id && rows[i].txnRef != c.txnRef
      ensures c.consentId.Some? ==> rows[i].consentId != c.consentId
    {}
  }

  lemma AdvanceKeepsTable(rows: seq<Consent>, rows': seq<Consent>)
    requires RowsAdvance(rows, rows')
    requires AllShaped(rows) && KeysUnique(rows) && OnePendingPerSession(rows)
    ensures AllShaped(rows') && KeysUnique(rows') && OnePendingPerSession(rows')
  {
    var kept := rows'[..|rows|];
    SettlingKeepsTable(rows, kept);
    if |rows'| > |rows| {
      var c := rows'[|rows|];
      assert FreshRow(kept, c) by {
        forall i | 0 <= i < |rows| ensures SameRequest(rows[i], kept[i]) {}
      }
      FreshRowKeepsTable(kept, c);
      assert rows' == kept + [c];
    } else {
      assert rows' == kept;
    }
  }
}
