/** When the several identifier lookups of a consent agree. */
module Identifiers {
  import opened Wrappers
  import opened Entities
  import opened Consents
  import opened ConsentSteps
  import PollStability

  /** Whatever the poll, the detail read or the decision endpoint resolves, the abort resolves to
      the same row, and no other row answers to that key in those lookups. */
  lemma ResolvedRowIsAborted(rows: seq<Consent>, key: string)
    requires KeysUnique(rows) && Resolve(rows, key).Some?
    ensures AbortTarget(rows, key) == Resolve(rows, key)
    ensures forall i | 0 <= i < |rows| ::
      Matches(rows[i], if IsUuid(key) then ById(key) else ByConsentId(key)) ==> Resolve(rows, key) == Some(i)
  {}

  /** Whatever the party check lets through, the abort resolves. */
  lemma CheckedKeyResolves(rows: seq<Consent>, key: string, i: nat)
    requires PartyRow(rows, key, i)
    ensures AbortTarget(rows, key).Some?
  {}

  /** One text is the consent id of one request and the transaction of another. */
  ghost predicate Ambiguous(rows: seq<Consent>, key: string) {
    exists a: nat, b: nat | a < |rows| && b < |rows| && a != b ::
      rows[a].consentId == Some(key) && rows[b].txnRef == key
  }

  /** The abort endpoint is sure to act on the row it checked. */
  ghost predicate ActsOnChecked(rows: seq<Consent>, key: string) {
    forall i: nat | PartyRow(rows, key, i) :: AbortTarget(rows, key) == Some(i)
  }

  /** Exactly when that holds: the key is UUID-shaped, or it is not at once the consent id of one
      request and the transaction of another. */
  lemma ActsOnCheckedIff(rows: seq<Consent>, key: string)
    requires KeysUnique(rows)
    ensures ActsOnChecked(rows, key) <==> IsUuid(key) || !Ambiguous(rows, key)
  {
    if !IsUuid(key) {
      if a: nat, b: nat :| a < |rows| && b < |rows| && a != b
                           && rows[a].consentId == Some(key) && rows[b].txnRef == key
      {
        assert PartyRow(rows, key, a) && PartyRow(rows, key, b);
      } else {
        forall i: nat | PartyRow(rows, key, i) ensures AbortTarget(rows, key) == Some(i) {
          if rows[i].consentId == Some(key) { PollStability.FindIs(rows, ByConsentId(key), i); }
          if rows[i].txnRef == key { PollStability.FindIs(rows, ByTxn(key), i); }
        }
      }
    } else {
      forall i: nat | PartyRow(rows, key, i) ensures AbortTarget(rows, key) == Some(i) {
        PollStability.FindIs(rows, ById(key), i);
      }
    }
  }

  /** Coherence of a whole table: every key acts on the row it was checked on iff no request's
      transaction is another request's consent id, UUID-shaped texts aside. */
  lemma TableCoherentIff(rows: seq<Consent>)
    requires KeysUnique(rows)
    ensures (forall key :: ActsOnChecked(rows, key)) <==>
      forall a: nat, b: nat | a < |rows| && b < |rows| && a != b ::
        rows[a].consentId == Some(rows[b].txnRef) ==> IsUuid(rows[b].txnRef)
  {
    forall key ensures ActsOnChecked(rows, key) <==> IsUuid(key) || !Ambiguous(rows, key) {
      ActsOnCheckedIff(rows, key);
    }
    if forall key :: ActsOnChecked(rows, key) {
      forall a: nat, b: nat | a < |rows| && b < |rows| && a != b && rows[a].consentId == Some(rows[b].txnRef)
        ensures IsUuid(rows[b].txnRef)
      {
        assert ActsOnChecked(rows, rows[b].txnRef);
        assert Ambiguous(rows, rows[b].txnRef);
      }
    }
  }

  const HEX_DIGITS := "0123456789abcdefABCDEF"

  /** A UUID-shaped text: 36 characters, dashes in four places and hex digits of either case elsewhere. */
  lemma UuidShape(s: string)
    ensures IsUuid(s) <==>
      && |s| == 36 && s[8] == s[13] == s[18] == s[23] == '-'
      && forall i | 0 <= i < 36 && i !in {8, 13, 18, 23} :: s[i] in HEX_DIGITS
  {
    forall c: char ensures IsHex(c) <==> c in HEX_DIGITS { HexDigits(c); }
  }

  lemma HexDigits(c: char)
    ensures IsHex(c) <==> c in HEX_DIGITS
  {
    assert HEX_DIGITS == "0123456789" + "abcdef" + "ABCDEF";
    if IsHex(c) {
      var k := if c <= '9' then c as int - 48 else if c <= 'F' then c as int - 65 + 16 else c as int - 97 + 10;
      assert HEX_DIGITS[k] == c;
    }
  }

  /** The letter case of a row id does not matter to any lookup. */
  lemma IdsIgnoreCase(rows: seq<Consent>, key: string)
    requires IsUuid(key)
    ensures IsUuid(Lower(key)) && Lower(Lower(key)) == Lower(key)
    ensures Resolve(rows, Lower(key)) == Resolve(rows, key)
    ensures forall i: nat :: PartyRow(rows, Lower(key), i) <==> PartyRow(rows, key, i)
  {
    assert Lower(Lower(key)) == Lower(key);
    SameIdLookup(rows, Lower(key), key);
  }

  lemma {:induction false} SameIdLookup(rows: seq<Consent>, a: string, b: string)
    requires Lower(a) == Lower(b)
    ensures Find(rows, ById(a)) == Find(rows, ById(b))
  {
    if rows != [] { SameIdLookup(rows[..|rows| - 1], a, b); }
  }
}
