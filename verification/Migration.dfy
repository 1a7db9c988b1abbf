/** Migration 003: the ordered UPDATEs that translate legacy consent statuses. */
module Migration {
  import opened Wrappers
  import opened Entities
  import opened Consents

  /** The two columns the migration reads, NULL as None. */
  datatype LegacyRow = LegacyRow(status: Option<string>, abortedReason: Option<string>)

  const PENDING := "PENDING_OWNER_APPROVAL"
  const APPROVED := "APPROVED"
  const REJECTED := "REJECTED"
  const EXPIRED := "EXPIRED"
  const TAMPER := "TAMPER_ABORTED"

  /** The text the running server stores for a status. */
  function StatusText(s: Status): string {
    match s
    case Pending => PENDING
    case Approved => APPROVED
    case Rejected => REJECTED
    case Expired => EXPIRED
    case TamperAborted => TAMPER
  }

  predicate InSpecSet(status: string) {
    status == PENDING || status == APPROVED || status == REJECTED || status == EXPIRED || status == TAMPER
  }

  predicate IsLegacy(status: string) {
    || status == "pending" || status == "new" || status == "approved"
    || status == "rejected" || status == "aborted"
  }

  // ------------------------------------------------------------- the UPDATEs

  /** The UPDATE statements, in file order. */
  datatype Pass = PendingPass | ApprovedPass | ExpiredPass | TamperPass | RejectedPass | NullPass

  const PASSES := [PendingPass, ApprovedPass, ExpiredPass, TamperPass, RejectedPass, NullPass]

  /** The WHERE clause; a comparison with NULL selects nothing. */
  predicate Selects(p: Pass, r: LegacyRow) {
    match p
    case PendingPass => r.status == Some("pending") || r.status == Some("new")
    case ApprovedPass => r.status == Some("approved")
    case ExpiredPass => r.status == Some("aborted") && r.abortedReason == Some(REQUEST_EXPIRED)
    case TamperPass =>
      && r.status == Some("aborted")
      && (r.abortedReason == Some(TAMPER_DETECTED) || r.abortedReason == Some(TAMPER_ABORTED))
    case RejectedPass => r.status == Some("rejected") || r.status == Some("aborted")
    case NullPass => r.status.None?
  }

  function Target(p: Pass): string {
    match p
    case PendingPass => PENDING
    case ApprovedPass => APPROVED
    case ExpiredPass => EXPIRED
    case TamperPass => TAMPER
    case RejectedPass => REJECTED
    case NullPass => PENDING
  }

  function UpdateRow(p: Pass, r: LegacyRow): LegacyRow {
    if Selects(p, r) then r.(status := Some(Target(p))) else r
  }

  /** A row after the first passes of a list. */
  function UpdatedBy(passes: seq<Pass>, r: LegacyRow): LegacyRow {
    if passes == [] then r else UpdateRow(passes[|passes| - 1], UpdatedBy(passes[..|passes| - 1], r))
  }

  predicate MeetsCheck(r: LegacyRow) {
    r.status.Some? && InSpecSet(r.status.value)
  }

  /** One UPDATE over the whole table. */
  method UpdateWhere(rows: array<LegacyRow>, p: Pass)
    modifies rows
    ensures forall i | 0 <= i < rows.Length :: rows[i] == UpdateRow(p, old(rows[i]))
  {
    for i := 0 to rows.Length
      invariant forall k | 0 <= k < i :: rows[k] == UpdateRow(p, old(rows[k]))
      invariant forall k | i <= k < rows.Length :: rows[k] == old(rows[k])
    {
      if Selects(p, rows[i]) {
        rows[i] := rows[i].(status := Some(Target(p)));
      }
    }
  }

  /** The transaction: all passes in order, then the CHECK, whose failure undoes them. The table is
      translated row by row exactly when every status is a legacy or a specified one (or NULL). */
  method Migrate(rows: array<LegacyRow>) returns (ok: bool)
    modifies rows
    ensures ok <==> forall i | 0 <= i < rows.Length :: Known(old(rows[i]))
    ensures ok ==> forall i | 0 <= i < rows.Length :: rows[i] == Translate(old(rows[i])) && MeetsCheck(rows[i])
    ensures !ok ==> rows[..] == old(rows[..])
  {
    ghost var was := rows[..];
    var saved := new LegacyRow[rows.Length](i requires 0 <= i < rows.Length reads rows => rows[i]);
    for n := 0 to |PASSES|
      invariant forall i | 0 <= i < rows.Length :: rows[i] == UpdatedBy(PASSES[..n], was[i])
      invariant saved[..] == was
    {
      UpdateWhere(rows, PASSES[n]);
      assert PASSES[..n + 1][..n] == PASSES[..n];
    }
    assert PASSES[..|PASSES|] == PASSES;
    forall r: LegacyRow ensures UpdatedBy(PASSES, r) == Translate(r) && (MeetsCheck(Translate(r)) <==> Known(r)) {
      PassesTranslate(r);
      TranslateMeetsCheck(r);
    }
    ok := true;
    for i := 0 to rows.Length
      invariant ok <==> forall k | 0 <= k < i :: MeetsCheck(rows[k])
    {
      ok := ok && MeetsCheck(rows[i]);
    }
    if !ok {
      for i := 0 to rows.Length
        invariant forall k | 0 <= k < i :: rows[k] == was[k]
        invariant saved[..] == was
      {
        rows[i] := saved[i];
      }
    }
  }

  // ------------------------------------------------------- what they amount to

  /** A status the migration accepts. */
  predicate Known(r: LegacyRow) {
    r.status.None? || IsLegacy(r.status.value) || InSpecSet(r.status.value)
  }

  /** The translation of one row: pending and NULL, approved, rejected, and aborted by its reason. */
  function Translate(r: LegacyRow): LegacyRow {
    var status :=
      if r.status.None? || r.status == Some("pending") || r.status == Some("new") then Some(PENDING)
      else if r.status == Some("approved") then Some(APPROVED)
      else if r.status == Some("rejected") then Some(REJECTED)
      else if r.status == Some("aborted") then
        Some(if r.abortedReason.None? then REJECTED else StatusText(Classify(r.abortedReason.value).0))
      else r.status;
    r.(status := status)
  }

  /** Texts that differ, by length or by first letter. */
  lemma TextsDiffer()
    ensures forall a, b | IsLegacy(a) && InSpecSet(b) :: a != b
    ensures REQUEST_EXPIRED != TAMPER_DETECTED && REQUEST_EXPIRED != TAMPER_ABORTED
  {
    assert PENDING[0] == 'P' && APPROVED[0] == 'A' && REJECTED[0] == 'R' && EXPIRED[0] == 'E' && TAMPER[0] == 'T';
    assert "pending"[0] == 'p' && "new"[0] == 'n' && "rejected"[0] == 'r';
    assert "approved"[0] == 'a' && "aborted"[0] == 'a';
    assert REQUEST_EXPIRED[0] == 'R' && TAMPER_DETECTED[0] == 'T' && TAMPER_ABORTED[0] == 'T';
  }

  lemma LegacyTextsDiffer()
    ensures "pending" != "new" && "pending" != "approved" && "pending" != "rejected" && "pending" != "aborted"
    ensures "new" != "approved" && "new" != "rejected" && "new" != "aborted"
    ensures "approved" != "rejected" && "approved" != "aborted" && "rejected" != "aborted"
  {
    assert "pending"[0] == 'p' && "aborted"[0] == 'a' && "rejected"[0] == 'r' && "approved"[0] == 'a';
  }

  /** The ordered passes are the per-row translation, for every row whatever its columns: legacy
      aborted rows get the very status the running server gives the same reason. */
  lemma PassesTranslate(r: LegacyRow)
    ensures UpdatedBy(PASSES, r) == Translate(r)
  {
    TextsDiffer();
    LegacyTextsDiffer();
    var r1 := UpdateRow(PendingPass, r);
    var r2 := UpdateRow(ApprovedPass, r1);
    var r3 := UpdateRow(ExpiredPass, r2);
    var r4 := UpdateRow(TamperPass, r3);
    var r5 := UpdateRow(RejectedPass, r4);
    Unroll(r);
    assert UpdatedBy(PASSES, r) == UpdateRow(NullPass, r5);
  }

  lemma Unroll(r: LegacyRow)
    ensures UpdatedBy(PASSES, r) == UpdateRow(NullPass, UpdateRow(RejectedPass, UpdateRow(TamperPass,
      UpdateRow(ExpiredPass, UpdateRow(ApprovedPass, UpdateRow(PendingPass, r))))))
  {
    var l1: seq<Pass> := [] + [PendingPass];
    var l2, l3 := l1 + [ApprovedPass], l1 + [ApprovedPass] + [ExpiredPass];
    var l4, l5 := l3 + [TamperPass], l3 + [TamperPass] + [RejectedPass];
    Append([], PendingPass, r);
    Append(l1, ApprovedPass, r);
    Append(l2, ExpiredPass, r);
    Append(l3, TamperPass, r);
    Append(l4, RejectedPass, r);
    Append(l5, NullPass, r);
    assert l5 + [NullPass] == PASSES;
  }

  lemma Append(passes: seq<Pass>, p: Pass, r: LegacyRow)
    ensures UpdatedBy(passes + [p], r) == UpdateRow(p, UpdatedBy(passes, r))
  {
    assert (passes + [p])[..|passes|] == passes;
  }

  /** The result meets the CHECK exactly for the statuses the migration knows. */
  lemma TranslateMeetsCheck(r: LegacyRow)
    ensures MeetsCheck(Translate(r)) <==> Known(r)
  {
    TextsDiffer();
  }

  /** Running the passes again changes nothing. */
  lemma PassesAreIdempotent(r: LegacyRow)
    ensures UpdatedBy(PASSES, UpdatedBy(PASSES, r)) == UpdatedBy(PASSES, r)
  {
    TextsDiffer();
    LegacyTextsDiffer();
    PassesTranslate(r);
    PassesTranslate(Translate(r));
  }

  /** The migration agrees with the running server: a legacy aborted row ends in the status
      markAborted gives a pending request for the same reason. */
  lemma AgreesWithMarkAborted(reason: string, c: Consent, now: int)
    ensures UpdatedBy(PASSES, LegacyRow(Some("aborted"), Some(reason))).status
      == Some(StatusText(Aborted(c, reason, now).status))
  {
    PassesTranslate(LegacyRow(Some("aborted"), Some(reason)));
    LegacyTextsDiffer();
  }

  /** The order matters: folding the leftovers first loses every expiry and tamper verdict. */
  lemma OrderMatters(r: LegacyRow)
    requires r.status == Some("aborted") && r.abortedReason.Some?
    ensures UpdatedBy([RejectedPass] + PASSES, r) == UpdatedBy(PASSES, r)
      <==> Classify(r.abortedReason.value).0.Rejected?
  {
    TextsDiffer();
    LegacyTextsDiffer();
    Prepend(RejectedPass, PASSES, r);
    PassesTranslate(r);
    PassesTranslate(r.(status := Some(REJECTED)));
    assert REJECTED[0] == 'R' && EXPIRED[0] == 'E' && TAMPER[0] == 'T';
  }

  lemma {:induction false} Prepend(p: Pass, passes: seq<Pass>, r: LegacyRow)
    ensures UpdatedBy([p] + passes, r) == UpdatedBy(passes, UpdateRow(p, r))
  {
    if passes == [] {
      assert [p] + passes == [p];
      assert [p][..0] == [];
    } else {
      assert ([p] + passes)[..|passes|] == [p] + passes[..|passes| - 1];
      Prepend(p, passes[..|passes| - 1], r);
    }
  }
}
