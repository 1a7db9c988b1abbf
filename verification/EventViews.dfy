/** Reading the protocol trail back: replay order and the rendering of event types. */
module EventViews {
  import opened Wrappers
  import opened Entities

  // ------------------------------------------------------------------ replay

  /** The rows of one session, or of every session when none is asked for, in log order. */
  function Matching(events: seq<Event>, sessionId: Option<string>): seq<Event> {
    if events == [] then []
    else
      var n := |events| - 1;
      Matching(events[..n], sessionId)
        + (if sessionId.None? || events[n].sessionId == sessionId then [events[n]] else [])
  }

  /** The positions in the log of what a selection shows: rising, and exactly those of the session. */
  lemma {:induction false} MatchingExact(events: seq<Event>, sessionId: Option<string>) returns (at: seq<nat>)
    ensures |at| == |Matching(events, sessionId)|
    ensures forall k | 0 <= k < |at| :: at[k] < |events| && Matching(events, sessionId)[k] == events[at[k]]
    ensures forall j, k | 0 <= j < k < |at| :: at[j] < at[k]
    ensures forall i: nat | i < |events| ::
      i in at <==> sessionId.None? || (events[i].sessionId.Some? && events[i].sessionId.value == sessionId.value)
  {
    at := [];
    if events != [] {
      var n := |events| - 1;
      at := MatchingExact(events[..n], sessionId);
      assert forall i | 0 <= i < n :: events[..n][i] == events[i];
      if sessionId.None? || events[n].sessionId == sessionId { at := at + [n]; }
    }
  }

  function Take(events: seq<Event>, limit: nat): seq<Event> {
    if |events| <= limit then events else events[..limit]
  }

  function Reverse(events: seq<Event>): (r: seq<Event>)
    ensures |r| == |events|
    ensures forall i | 0 <= i < |events| :: r[i] == events[|events| - 1 - i]
  {
    if events == [] then [] else [events[|events| - 1]] + Reverse(events[..|events| - 1])
  }

  /** The last entries of a log, in log order. */
  function Tail(events: seq<Event>, limit: nat): seq<Event> {
    if |events| <= limit then events else events[|events| - limit..]
  }

  /** Rows in insertion order, at most `limit` (id ASC, take). */
  function ListBySession(events: seq<Event>, sessionId: string, limit: nat): seq<Event> {
    Take(Matching(events, Some(sessionId)), limit)
  }

  /** Rows newest first, at most `limit` (id DESC, take); an empty session id asks for all. */
  function ListAudit(events: seq<Event>, limit: nat, sessionId: Option<string>): seq<Event> {
    Take(Reverse(Matching(events, if Truthy(sessionId) then sessionId else None)), limit)
  }

  /** The audit screen shows the newest `limit` matching rows, latest first: read backwards it is
      the tail of the replay. */
  lemma AuditIsReversedTail(events: seq<Event>, limit: nat, sessionId: Option<string>)
    ensures ListAudit(events, limit, sessionId)
      == Reverse(Tail(Matching(events, if Truthy(sessionId) then sessionId else None), limit))
  {
    var all := Matching(events, if Truthy(sessionId) then sessionId else None);
    assert |ListAudit(events, limit, sessionId)| == |Reverse(Tail(all, limit))|;
  }

  /** Rows appended later never change what a full replay page shows; a short page only grows. */
  lemma {:induction false} ReplayIsStable(events: seq<Event>, more: seq<Event>, sessionId: string, limit: nat)
    ensures Matching(events, Some(sessionId)) <= Matching(events + more, Some(sessionId))
    ensures ListBySession(events, sessionId, limit) <= ListBySession(events + more, sessionId, limit)
    ensures |ListBySession(events, sessionId, limit)| == limit ==>
      ListBySession(events + more, sessionId, limit) == ListBySession(events, sessionId, limit)
    decreases |more|
  {
    if more == [] {
      assert events + more == events;
    } else {
      var n := |more| - 1;
      assert (events + more)[..|events| + n] == events + more[..n];
      ReplayIsStable(events, more[..n], sessionId, limit);
    }
  }

  // --------------------------------------------------------------- rendering

  function UpperChar(c: char): char {
    if 'a' <= c <= 'z' then (c as int - 32) as char else c
  }

  /** Capitals and small letters correspond one to one, and nothing else changes case. */
  lemma CaseIsPaired(c: char)
    ensures 'A' <= c <= 'Z' ==> 'a' <= LowerChar(c) <= 'z' && UpperChar(LowerChar(c)) == c
    ensures 'a' <= c <= 'z' ==> 'A' <= UpperChar(c) <= 'Z' && LowerChar(UpperChar(c)) == c
    ensures !('A' <= c <= 'Z') ==> LowerChar(c) == c
    ensures !('a' <= c <= 'z') ==> UpperChar(c) == c
  {}

  /** split('_') */
  function Split(s: string): (r: seq<string>)
    ensures |r| >= 1
  {
    if s == "" then [""]
    else
      var r := Split(s[1..]);
      if s[0] == '_' then [""] + r else [[s[0]] + r[0]] + r[1..]
  }

  /** join(' ') */
  function Join(parts: seq<string>): string
    requires |parts| >= 1
  {
    if |parts| == 1 then parts[0] else parts[0] + " " + Join(parts[1..])
  }

  function Capitalise(w: string): string {
    if w == "" then w else [UpperChar(w[0])] + w[1..]
  }

  function CapitaliseAll(parts: seq<string>): (r: seq<string>)
    ensures |r| == |parts|
  {
    if parts == [] then [] else [Capitalise(parts[0])] + CapitaliseAll(parts[1..])
  }

  /** SESSION_ESTABLISHED becomes "Session Established". */
  function Humanize(eventType: string): string {
    Join(CapitaliseAll(Split(Lower(eventType))))
  }

  function RestoreChar(c: char): char {
    if c == ' ' then '_' else UpperChar(c)
  }

  /** Upper-case the text and put the underscores back. */
  function Restore(t: string): (r: string)
    ensures |r| == |t|
    ensures forall i | 0 <= i < |t| :: r[i] == RestoreChar(t[i])
  {
    seq(|t|, i requires 0 <= i < |t| => RestoreChar(t[i]))
  }

  predicate IsEventText(s: string) {
    forall i | 0 <= i < |s| :: 'A' <= s[i] <= 'Z' || '0' <= s[i] <= '9' || s[i] == '_'
  }

  lemma RestoreConcat(a: string, b: string)
    ensures Restore(a + b) == Restore(a) + Restore(b)
  {}

  /** Capitals do not survive restoring, so they do not matter. */
  lemma {:induction false} CapitalsDoNotMatter(parts: seq<string>)
    requires |parts| >= 1
    ensures Restore(Join(CapitaliseAll(parts))) == Restore(Join(parts))
  {
    assert Restore(Capitalise(parts[0])) == Restore(parts[0]);
    if |parts| > 1 {
      var caps := CapitaliseAll(parts);
      CapitalsDoNotMatter(parts[1..]);
      assert caps[0] == Capitalise(parts[0]) && caps[1..] == CapitaliseAll(parts[1..]);
      RestoreConcat(caps[0] + " ", Join(caps[1..]));
      RestoreConcat(caps[0], " ");
      RestoreConcat(parts[0] + " ", Join(parts[1..]));
      RestoreConcat(parts[0], " ");
    }
  }

  /** Splitting at underscores and joining with spaces only replaces the separators. */
  lemma {:induction false} JoinSplit(s: string)
    ensures Restore(Join(Split(s))) == Restore(s)
  {
    if s != "" {
      JoinSplit(s[1..]);
      var r := Split(s[1..]);
      RestoreConcat([s[0]], s[1..]);
      assert s == [s[0]] + s[1..];
      JoinSplitStep(s);
      if s[0] == '_' {
        RestoreConcat(" ", Join(r));
      } else {
        RestoreConcat([s[0]], Join(r));
      }
      hide Split, Join;
    }
  }

  lemma JoinSplitStep(s: string)
    requires s != ""
    ensures Join(Split(s)) == [if s[0] == '_' then ' ' else s[0]] + Join(Split(s[1..]))
  {
    var r := Split(s[1..]);
    if s[0] == '_' {
      assert Split(s)[1..] == r;
    } else {
      assert Split(s)[0] == [s[0]] + r[0] && Split(s)[1..] == r[1..];
    }
  }

  /** Rendering loses nothing on event types: the text can be restored from what is shown. */
  lemma RenderingRoundTrip(s: string)
    requires IsEventText(s)
    ensures Restore(Humanize(s)) == s
  {
    CapitalsDoNotMatter(Split(Lower(s)));
    JoinSplit(Lower(s));
    assert Restore(Lower(s)) == s;
  }

  /** So no two event types look the same. */
  lemma RenderingIsInjective(a: string, b: string)
    requires IsEventText(a) && IsEventText(b) && Humanize(a) == Humanize(b)
    ensures a == b
  {
    RenderingRoundTrip(a);
    RenderingRoundTrip(b);
  }

  /** A text with each underscore a space and each word capitalised; `first` says whether a word
      begins here. */
  ghost function Titled(t: string, first: bool): string {
    if t == "" then ""
    else [if t[0] == '_' then ' ' else if first then UpperChar(t[0]) else t[0]] + Titled(t[1..], t[0] == '_')
  }

  lemma {:induction false} TitledAt(t: string, first: bool)
    ensures |Titled(t, first)| == |t|
    ensures forall i: nat | i < |t| :: Titled(t, first)[i] == TitledChar(t, first, i)
  {
    if t != "" {
      TitledAt(t[1..], t[0] == '_');
      forall i: nat | i < |t| ensures Titled(t, first)[i] == TitledChar(t, first, i) {
        if i > 0 { assert Titled(t[1..], t[0] == '_')[i - 1] == TitledChar(t[1..], t[0] == '_', i - 1); }
      }
    }
  }

  ghost function TitledChar(t: string, first: bool, i: nat): char
    requires i < |t|
  {
    if t[i] == '_' then ' '
    else if (if i == 0 then first else t[i - 1] == '_') then UpperChar(t[i])
    else t[i]
  }

  /** Position by position: what is shown is as long as the event type, each underscore a space, each
      word begun with a capital and every other letter small. */
  lemma HumanizeExact(s: string)
    ensures |Humanize(s)| == |s|
    ensures forall i: nat | i < |s| :: Humanize(s)[i] == TitledChar(Lower(s), true, i)
  {
    JoinedParts(Lower(s));
    TitledAt(Lower(s), true);
  }

  /** Splitting, capitalising and joining capitalises words; the first part may be the rest of a word
      that began earlier. */
  lemma {:induction false} JoinedParts(t: string)
    ensures Join(CapitaliseAll(Split(t))) == Titled(t, true)
    ensures Join([Split(t)[0]] + CapitaliseAll(Split(t)[1..])) == Titled(t, false)
  {
    if t != "" {
      JoinedParts(t[1..]);
      JoinedStep(t);
      hide Join, Split, CapitaliseAll;
    }
  }

  /** One character more at the front. */
  lemma JoinedStep(t: string)
    requires t != ""
    ensures var rest, c := Split(t[1..]), t[0];
      && Join(CapitaliseAll(Split(t))) ==
        (if c == '_' then " " + Join(CapitaliseAll(rest))
         else [UpperChar(c)] + Join([rest[0]] + CapitaliseAll(rest[1..])))
      && Join([Split(t)[0]] + CapitaliseAll(Split(t)[1..])) ==
        (if c == '_' then " " + Join(CapitaliseAll(rest)) else [c] + Join([rest[0]] + CapitaliseAll(rest[1..])))
  {
    var rest, c := Split(t[1..]), t[0];
    if c == '_' {
      assert Split(t) == [""] + rest;
      assert CapitaliseAll(Split(t))[1..] == CapitaliseAll(rest);
    } else {
      assert Split(t) == [[c] + rest[0]] + rest[1..];
      var tail := CapitaliseAll(rest[1..]);
      assert CapitaliseAll(Split(t)) == [[UpperChar(c)] + rest[0]] + tail;
      JoinPrefix([UpperChar(c)], rest[0], tail);
      JoinPrefix([c], rest[0], tail);
    }
  }

  lemma JoinPrefix(p: string, w: string, tail: seq<string>)
    ensures Join([p + w] + tail) == p + Join([w] + tail)
  {
    assert ([p + w] + tail)[1..] == tail && ([w] + tail)[1..] == tail;
  }
}
