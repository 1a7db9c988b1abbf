/** What a poll answers, column by column. */
module Polls {
  import opened Wrappers
  import opened Entities
  import opened Consents
  import opened ConsentSteps
  import Decisions

  /** The reason a poll tells for a request that was not approved: the stored one, or the default
      where none is stored. */
  ghost function ToldReason(c: Consent): string {
    if c.status.Expired? then "REQUEST_EXPIRED"
    else if c.abortedReason.Some? then c.abortedReason.value
    else "OPERATOR_DECLINED"
  }

  /** The answer about a decided request: ids, verdict, claims, and what goes with the verdict. */
  ghost predicate Tells(cfg: Config, p: PollResponse, c: Consent, now: int) {
    var verdict := if c.status.Approved? then "approved" else "rejected";
    var publicId := if c.consentId.Some? then c.consentId.value else c.id;
    && p.consentId == publicId && p.txn == c.txnRef && p.decision == Some(verdict)
    && p.token == Some(Token(publicId, c.txnRef, if c.deviceId.Some? then c.deviceId.value else "",
                             c.operatorId, verdict, now / 1000))
    && p.reason == (if c.status.Approved? then None else Some(ToldReason(c)))
    && p.decidedAt == (if c.status.Approved? then c.approvedAt else c.rejectedAt)
    && (!c.status.Approved? ==> p.payload.None?)
    && (c.status.Approved? ==> forall u | u in cfg.users && u.id == c.ownerId :: p.payload == u.pin)
    && ((forall u | u in cfg.users :: u.id != c.ownerId) ==> p.payload.None?)
  }

  /** Nothing but the two ids. */
  ghost predicate TellsNothing(p: PollResponse, c: Consent) {
    && p.consentId == (if c.consentId.Some? then c.consentId.value else c.id) && p.txn == c.txnRef
    && p.decision.None? && p.token.None? && p.payload.None? && p.reason.None? && p.decidedAt.None?
  }

  ghost predicate UserIdsUnique(cfg: Config) {
    forall u, v | u in cfg.users && v in cfg.users && u.id == v.id :: u == v
  }

  /** Whoever polls whatever key: not found for a key that names no request, forbidden for anyone but
      the two parties, and otherwise the request's verdict, or nothing while it is pending. */
  lemma PollAnswers(cfg: Config, s: Store, key: string, caller: string, now: int)
    requires ConsentsInv(s) && UserIdsUnique(cfg)
    ensures var r := Poll(cfg, s.consents, key, caller, now);
      && (r == Err(NotFound) <==> forall i | 0 <= i < |s.consents| :: !Decisions.Named(s.consents[i], key))
      && forall i: nat | i < |s.consents| && Decisions.Named(s.consents[i], key) ::
        var c := s.consents[i];
        if caller !in {"", c.ownerId, c.operatorId} then r == Err(Forbidden)
        else r.Ok? && if c.status.Pending? then TellsNothing(r.value, c) else Tells(cfg, r.value, c, now)
  {
    Decisions.ResolvesNamed(s, key);
    hide Resolve, Decisions.Named, KeysUnique, OnePendingPerSession, TrailsKnown;
  }
}
