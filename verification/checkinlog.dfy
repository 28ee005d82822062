/**
 The check-in history page (`CheckInLogPage`): the search filter over the
 check-ins and the choice between the empty state and the table.
 */
module CheckInLog {
  import opened Js
  import opened Types

  /** The attendee name contains the query, both lower-cased. */
  predicate NameMatches(c: CheckIn, query: string) {
    Includes(ToLower(c.userName), ToLower(query))
  }

  /** The ticket number's text contains the query exactly as typed. */
  predicate TicketMatches(c: CheckIn, query: string) {
    Includes(NumberToString(c.ticketNumber), query)
  }

  /** The search predicate of the history table. */
  predicate Matches(c: CheckIn, query: string)
    ensures Matches(c, query) <==>
      || (exists i: nat :: OccursAt(ToLower(c.userName), ToLower(query), i))
      || (exists i: nat :: OccursAt(NumberToString(c.ticketNumber), query, i))
  {
    IncludesIffOccurs(ToLower(c.userName), ToLower(query));
    IncludesIffOccurs(NumberToString(c.ticketNumber), query);
    NameMatches(c, query) || TicketMatches(c, query)
  }

  /** `xs` is `ys` with some elements left out, order kept. */
  predicate IsSubsequence(xs: seq<CheckIn>, ys: seq<CheckIn>)
    decreases |ys|
  {
    || |xs| == 0
    || (|ys| > 0 && ((xs[0] == ys[0] && IsSubsequence(xs[1..], ys[1..])) || IsSubsequence(xs, ys[1..])))
  }

  /** `filteredCheckIns`. */
  function FilterCheckIns(checkIns: seq<CheckIn>, query: string): (r: seq<CheckIn>)
    ensures IsSubsequence(r, checkIns)
    ensures forall k :: 0 <= k < |r| ==> Matches(r[k], query)
    ensures forall i :: 0 <= i < |checkIns| && Matches(checkIns[i], query) ==> checkIns[i] in r
    decreases |checkIns|
  {
    if |checkIns| == 0 then []
    else
      var rest := FilterCheckIns(checkIns[1..], query);
      assert forall i :: 1 <= i < |checkIns| ==> checkIns[i] == checkIns[1..][i - 1];
      if Matches(checkIns[0], query) then
        assert ([checkIns[0]] + rest)[1..] == rest;
        [checkIns[0]] + rest
      else rest
  }

  /** The history page: the empty state without an event, otherwise the
      header count and the filtered rows. */
  datatype LogView = NoEventFound | History(eventName: string, attendeeCount: nat, rows: seq<CheckIn>)

  function CheckInLogPage(event: Option<Event>, checkIns: seq<CheckIn>, query: string): (v: LogView)
    ensures v.NoEventFound? <==> event.None?
    ensures v.History? ==> v.eventName == event.value.name && v.rows == FilterCheckIns(checkIns, query)
    ensures v.History? ==> v.attendeeCount == |checkIns|
  {
    match event
    case None => NoEventFound
    case Some(e) => History(e.name, |checkIns|, FilterCheckIns(checkIns, query))
  }

  /** The filter keeps every matching record as often as the input holds it,
      and drops every other record. */
  lemma {:induction false} FilterKeepsEveryCopy(checkIns: seq<CheckIn>, query: string)
    ensures forall x :: multiset(FilterCheckIns(checkIns, query))[x]
                        == (if Matches(x, query) then multiset(checkIns)[x] else 0)
    decreases |checkIns|
  {
    if |checkIns| > 0 {
      FilterKeepsEveryCopy(checkIns[1..], query);
      assert checkIns == [checkIns[0]] + checkIns[1..];
      assert multiset(checkIns) == multiset{checkIns[0]} + multiset(checkIns[1..]);
      if Matches(checkIns[0], query) {
        assert FilterCheckIns(checkIns, query) == [checkIns[0]] + FilterCheckIns(checkIns[1..], query);
      } else {
        assert FilterCheckIns(checkIns, query) == FilterCheckIns(checkIns[1..], query);
      }
    }
  }

  /** The empty string occurs in every string. */
  lemma IncludesEmpty(s: string)
    ensures Includes(s, "")
  {
    assert StartsWith(s, "");
  }

  /** An empty search keeps every check-in, in order. */
  lemma {:induction false} EmptyQueryKeepsAll(checkIns: seq<CheckIn>)
    ensures FilterCheckIns(checkIns, "") == checkIns
    decreases |checkIns|
  {
    if |checkIns| > 0 {
      IncludesEmpty(ToLower(checkIns[0].userName));
      assert ToLower("") == "";
      assert Matches(checkIns[0], "");
      assert FilterCheckIns(checkIns, "") == [checkIns[0]] + FilterCheckIns(checkIns[1..], "");
      EmptyQueryKeepsAll(checkIns[1..]);
      assert checkIns == [checkIns[0]] + checkIns[1..];
    }
  }

  /** The header count does not depend on the search. */
  lemma CountIgnoresQuery(event: Option<Event>, checkIns: seq<CheckIn>, q1: string, q2: string)
    requires event.Some?
    ensures CheckInLogPage(event, checkIns, q1).attendeeCount == CheckInLogPage(event, checkIns, q2).attendeeCount
  {
  }

  lemma ToLowerIdempotent(s: string)
    ensures ToLower(ToLower(s)) == ToLower(s)
  {
  }

  /** The name test ignores the case of the query. */
  lemma NameMatchIgnoresCase(c: CheckIn, query: string)
    ensures NameMatches(c, query) == NameMatches(c, ToLower(query))
  {
    ToLowerIdempotent(query);
  }

  /** The ticket test does not: a NaN ticket's text "NaN" is found by "NaN"
      but not by "nan". */
  lemma TicketMatchKeepsCase(c: CheckIn)
    requires c.ticketNumber == NaN
    ensures TicketMatches(c, "NaN") && !TicketMatches(c, "nan")
  {
    assert StartsWith("NaN", "NaN");
    assert !StartsWith("NaN", "nan") by {
      assert "NaN"[0] != "nan"[0];
    }
  }
}
