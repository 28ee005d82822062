/**
 The in-memory store (`lib/data.ts`): one optional active event and the list
 of check-ins in arrival order. The source keeps it in a process-wide object
 behind asynchronous accessors; here it is an immutable value that every
 operation takes and, when it changes it, returns.
 */
module Data {
  import opened Js
  import opened Types

  datatype Store = Store(event: Option<Event>, checkIns: seq<CheckIn>)

  /** The store as first created: no event, no check-ins. */
  const InitialStore: Store := Store(None, [])

  /** `getEvent`. */
  function GetEvent(db: Store): Option<Event> {
    db.event
  }

  /** The active event is the one last imported: none before the first import,
      and adding a check-in never changes it. */
  lemma GetEventTracksImports(db: Store, eventData: Event, draft: Draft)
    ensures GetEvent(InitialStore) == None
    ensures GetEvent(SetEvent(db, eventData).0) == Some(eventData)
    ensures GetEvent(AddCheckIn(db, draft).0) == GetEvent(db)
  {
  }

  /* ---------------------------------------------------------------------- */
  /* setEvent                                                               */
  /* ---------------------------------------------------------------------- */

  /** `setEvent`: the imported event becomes the active one and every earlier
      check-in is dropped; the event is handed back to the caller. */
  function SetEvent(db: Store, eventData: Event): (r: (Store, Event))
    ensures r.0.event == Some(eventData) && r.0.checkIns == []
    ensures r.1 == eventData
  {
    (Store(Some(eventData), []), eventData)
  }

  /* ---------------------------------------------------------------------- */
  /* addCheckIn                                                             */
  /* ---------------------------------------------------------------------- */

  /** `Math.max` over the ids of a non-empty list. */
  function MaxId(checkIns: seq<CheckIn>): (m: int)
    requires |checkIns| > 0
    ensures exists i :: 0 <= i < |checkIns| && checkIns[i].id == m
    ensures forall i :: 0 <= i < |checkIns| ==> checkIns[i].id <= m
    decreases |checkIns|
  {
    if |checkIns| == 1 then checkIns[0].id
    else
      var rest := MaxId(checkIns[1..]);
      assert forall i :: 1 <= i < |checkIns| ==> checkIns[i] == checkIns[1..][i - 1];
      if checkIns[0].id >= rest then checkIns[0].id else rest
  }

  /** The id the next check-in receives: 1 for an empty list, otherwise one
      more than the largest id present. */
  function NextId(checkIns: seq<CheckIn>): (id: int)
    ensures forall i :: 0 <= i < |checkIns| ==> checkIns[i].id < id
    ensures |checkIns| == 0 ==> id == 1
    ensures |checkIns| > 0 ==> exists i :: 0 <= i < |checkIns| && checkIns[i].id == id - 1
  {
    if |checkIns| > 0 then MaxId(checkIns) + 1 else 1
  }

  /** `addCheckIn`: numbers the draft and appends it. There is no duplicate
      test here; that is the caller's business. */
  function AddCheckIn(db: Store, draft: Draft): (r: (Store, CheckIn))
    ensures r.0.event == db.event
    ensures r.0.checkIns == db.checkIns + [r.1]
    ensures r.1.eventId == draft.eventId && r.1.ticketNumber == draft.ticketNumber
    ensures r.1.userName == draft.userName && r.1.checkInTime == draft.checkInTime
    ensures forall i :: 0 <= i < |db.checkIns| ==> db.checkIns[i].id < r.1.id
    ensures |db.checkIns| == 0 ==> r.1.id == 1
    ensures r.1.id == NextId(db.checkIns)
  {
    var c := CheckIn(NextId(db.checkIns), draft.eventId, draft.ticketNumber, draft.userName, draft.checkInTime);
    (db.(checkIns := db.checkIns + [c]), c)
  }

  /** Ids grow strictly along the list, so they are pairwise distinct. */
  predicate IdsAscending(checkIns: seq<CheckIn>) {
    forall i, j :: 0 <= i < j < |checkIns| ==> checkIns[i].id < checkIns[j].id
  }

  /** Appending through `AddCheckIn` keeps ids ascending, hence distinct. */
  lemma AddCheckInKeepsIdsAscending(db: Store, draft: Draft)
    requires IdsAscending(db.checkIns)
    ensures IdsAscending(AddCheckIn(db, draft).0.checkIns)
    ensures forall i, j :: 0 <= i < j < |AddCheckIn(db, draft).0.checkIns| ==>
      AddCheckIn(db, draft).0.checkIns[i].id != AddCheckIn(db, draft).0.checkIns[j].id
  {
    var after := AddCheckIn(db, draft).0.checkIns;
    forall i, j | 0 <= i < j < |after|
      ensures after[i].id < after[j].id
    {
      if j < |db.checkIns| {
        assert after[i] == db.checkIns[i] && after[j] == db.checkIns[j];
      } else {
        assert after[i] == db.checkIns[i];
      }
    }
  }

  /** The store itself does not refuse a repeat: adding the same draft twice
      leaves two records for the same event and ticket. */
  lemma AddCheckInAcceptsRepeats(db: Store, draft: Draft)
    ensures var (db1, first) := AddCheckIn(db, draft);
      var (db2, second) := AddCheckIn(db1, draft);
      && db2.checkIns == db.checkIns + [first, second]
      && first.eventId == second.eventId && first.ticketNumber == second.ticketNumber
      && first.id < second.id
  {
    var (db1, first) := AddCheckIn(db, draft);
    var (db2, second) := AddCheckIn(db1, draft);
    assert db1.checkIns[|db.checkIns|] == first;
  }

  /** Once a new event is imported the next check-in is numbered 1 again. */
  lemma SetEventRestartsIds(db: Store, eventData: Event, draft: Draft)
    ensures AddCheckIn(SetEvent(db, eventData).0, draft).1.id == 1
    ensures AddCheckIn(SetEvent(db, eventData).0, draft).0.checkIns
         == [AddCheckIn(SetEvent(db, eventData).0, draft).1]
  {
  }

  /* ---------------------------------------------------------------------- */
  /* isTicketCheckedIn                                                      */
  /* ---------------------------------------------------------------------- */

  /** Some record of `checkIns` is for `eventId` and, by `===`, for `ticketNumber`. */
  function AnyFor(checkIns: seq<CheckIn>, eventId: int, ticketNumber: Number): (b: bool)
    ensures b <==> exists i :: 0 <= i < |checkIns| && checkIns[i].eventId == eventId
                                && StrictEquals(checkIns[i].ticketNumber, ticketNumber)
    decreases |checkIns|
  {
    if |checkIns| == 0 then false
    else
      assert forall i :: 1 <= i < |checkIns| ==> checkIns[i] == checkIns[1..][i - 1];
      (checkIns[0].eventId == eventId && StrictEquals(checkIns[0].ticketNumber, ticketNumber))
      || AnyFor(checkIns[1..], eventId, ticketNumber)
  }

  /** `isTicketCheckedIn`. */
  function IsTicketCheckedIn(db: Store, eventId: int, ticketNumber: Number): bool {
    AnyFor(db.checkIns, eventId, ticketNumber)
  }

  /** After an import nothing counts as checked in. */
  lemma SetEventForgetsCheckIns(db: Store, eventData: Event, eventId: int, ticketNumber: Number)
    ensures !IsTicketCheckedIn(SetEvent(db, eventData).0, eventId, ticketNumber)
  {
  }

  /** A NaN ticket number never counts as checked in, whatever the store holds. */
  lemma NaNNeverCheckedIn(db: Store, eventId: int)
    ensures !IsTicketCheckedIn(db, eventId, NaN)
  {
  }

  /* ---------------------------------------------------------------------- */
  /* getCheckIns                                                            */
  /* ---------------------------------------------------------------------- */

  /** Newest first: check-in times never increase along the list. */
  predicate NewestFirst(checkIns: seq<CheckIn>) {
    forall i, j :: 0 <= i < j < |checkIns| ==> checkIns[i].checkInTime >= checkIns[j].checkInTime
  }

  /** The records of `checkIns` made at instant `t`, in list order. */
  function AtTime(checkIns: seq<CheckIn>, t: int): seq<CheckIn>
    decreases |checkIns|
  {
    if |checkIns| == 0 then []
    else (if checkIns[0].checkInTime == t then [checkIns[0]] else []) + AtTime(checkIns[1..], t)
  }

  /** Puts `c` into a newest-first list ahead of every record no newer than it. */
  function InsertNewest(c: CheckIn, sorted: seq<CheckIn>): (r: seq<CheckIn>)
    requires NewestFirst(sorted)
    ensures NewestFirst(r)
    ensures multiset(r) == multiset(sorted) + multiset{c}
    ensures forall k :: 0 <= k < |r| ==> r[k] == c || r[k] in sorted
    decreases |sorted|
  {
    if |sorted| == 0 || sorted[0].checkInTime <= c.checkInTime then [c] + sorted
    else
      var rest := InsertNewest(c, sorted[1..]);
      PrependOlder(c, sorted, rest);
      [sorted[0]] + rest
  }

  /** The step of `InsertNewest` that keeps the head of the list in front. */
  lemma PrependOlder(c: CheckIn, sorted: seq<CheckIn>, rest: seq<CheckIn>)
    requires NewestFirst(sorted) && |sorted| > 0 && sorted[0].checkInTime > c.checkInTime
    requires NewestFirst(rest)
    requires multiset(rest) == multiset(sorted[1..]) + multiset{c}
    requires forall k :: 0 <= k < |rest| ==> rest[k] == c || rest[k] in sorted[1..]
    ensures NewestFirst([sorted[0]] + rest)
    ensures multiset([sorted[0]] + rest) == multiset(sorted) + multiset{c}
    ensures forall k :: 0 <= k < |[sorted[0]] + rest| ==> ([sorted[0]] + rest)[k] == c || ([sorted[0]] + rest)[k] in sorted
  {
    assert sorted == [sorted[0]] + sorted[1..];
    var r := [sorted[0]] + rest;
    forall k | 0 <= k < |rest|
      ensures rest[k].checkInTime <= sorted[0].checkInTime && (rest[k] == c || rest[k] in sorted)
    {
      if rest[k] != c {
        var m :| 0 <= m < |sorted[1..]| && sorted[1..][m] == rest[k];
        assert sorted[m + 1] == rest[k];
      }
    }
    forall i, j | 0 <= i < j < |r|
      ensures r[i].checkInTime >= r[j].checkInTime
    {
      assert r[j] == rest[j - 1];
      if i > 0 {
        assert r[i] == rest[i - 1];
      }
    }
  }

  /** Insertion sort, newest first; a record is placed ahead of the equally
      old records that follow it, as the stable `Array.prototype.sort` does. */
  function SortNewestFirst(checkIns: seq<CheckIn>): (r: seq<CheckIn>)
    ensures NewestFirst(r)
    ensures multiset(r) == multiset(checkIns)
    decreases |checkIns|
  {
    if |checkIns| == 0 then []
    else
      assert checkIns == [checkIns[0]] + checkIns[1..];
      InsertNewest(checkIns[0], SortNewestFirst(checkIns[1..]))
  }

  /** `getCheckIns`: a sorted copy; the store is not touched. */
  function GetCheckIns(db: Store): (r: seq<CheckIn>)
    ensures NewestFirst(r)
    ensures multiset(r) == multiset(db.checkIns)
  {
    SortNewestFirst(db.checkIns)
  }

  lemma AtTimeCons(x: CheckIn, xs: seq<CheckIn>, t: int)
    ensures AtTime([x] + xs, t) == (if x.checkInTime == t then [x] else []) + AtTime(xs, t)
  {
    assert ([x] + xs)[1..] == xs;
  }

  lemma {:induction false} InsertNewestStable(c: CheckIn, sorted: seq<CheckIn>, t: int)
    requires NewestFirst(sorted)
    ensures AtTime(InsertNewest(c, sorted), t) == AtTime([c] + sorted, t)
    decreases |sorted|
  {
    if |sorted| > 0 && sorted[0].checkInTime > c.checkInTime {
      InsertNewestStable(c, sorted[1..], t);
      StableStep(c, sorted, InsertNewest(c, sorted[1..]), t);
    }
  }

  /** One step of `InsertNewestStable`: passing an older-than-`c` head in front. */
  lemma StableStep(c: CheckIn, sorted: seq<CheckIn>, rest: seq<CheckIn>, t: int)
    requires |sorted| > 0 && sorted[0].checkInTime > c.checkInTime
    requires AtTime(rest, t) == AtTime([c] + sorted[1..], t)
    ensures AtTime([sorted[0]] + rest, t) == AtTime([c] + sorted, t)
  {
    var s0 := sorted[0];
    AtTimeCons(s0, rest, t);
    AtTimeCons(c, sorted[1..], t);
    AtTimeCons(c, sorted, t);
    AtTimeCons(s0, sorted[1..], t);
    assert sorted == [s0] + sorted[1..];
  }

  /** Sorting keeps equally old records in their stored order: for every
      instant, the records made then appear in the same order before and after. */
  lemma {:induction false} SortNewestFirstStable(checkIns: seq<CheckIn>, t: int)
    ensures AtTime(SortNewestFirst(checkIns), t) == AtTime(checkIns, t)
    decreases |checkIns|
  {
    if |checkIns| > 0 {
      SortNewestFirstStable(checkIns[1..], t);
      InsertNewestStable(checkIns[0], SortNewestFirst(checkIns[1..]), t);
      assert ([checkIns[0]] + SortNewestFirst(checkIns[1..]))[1..] == SortNewestFirst(checkIns[1..]);
    }
  }

  /** Records made at the same instant come out in ascending id order. */
  predicate TiesByAscendingId(checkIns: seq<CheckIn>) {
    forall i, j :: 0 <= i < j < |checkIns| && checkIns[i].checkInTime == checkIns[j].checkInTime
      ==> checkIns[i].id < checkIns[j].id
  }

  lemma {:induction false} InsertNewestTies(c: CheckIn, sorted: seq<CheckIn>)
    requires NewestFirst(sorted) && TiesByAscendingId(sorted)
    requires forall k :: 0 <= k < |sorted| ==> c.id < sorted[k].id
    ensures TiesByAscendingId(InsertNewest(c, sorted))
    decreases |sorted|
  {
    if |sorted| > 0 && sorted[0].checkInTime > c.checkInTime {
      var tail := sorted[1..];
      assert forall k :: 0 <= k < |tail| ==> tail[k] == sorted[k + 1];
      InsertNewestTies(c, tail);
      TiesBehindHead(c, sorted, InsertNewest(c, tail));
    }
  }

  /** The step of `InsertNewestTies` that keeps the head of the list in front. */
  lemma TiesBehindHead(c: CheckIn, sorted: seq<CheckIn>, rest: seq<CheckIn>)
    requires |sorted| > 0 && sorted[0].checkInTime > c.checkInTime
    requires TiesByAscendingId(sorted) && TiesByAscendingId(rest)
    requires forall k :: 0 <= k < |rest| ==> rest[k] == c || rest[k] in sorted[1..]
    ensures TiesByAscendingId([sorted[0]] + rest)
  {
    var r := [sorted[0]] + rest;
    forall i, j | 0 <= i < j < |r| && r[i].checkInTime == r[j].checkInTime
      ensures r[i].id < r[j].id
    {
      if i == 0 {
        var x := rest[j - 1];
        assert r[j] == x;
        if x != c {
          var m :| 0 <= m < |sorted| - 1 && sorted[1..][m] == x;
          assert sorted[m + 1] == x;
        }
      } else {
        assert r[i] == rest[i - 1] && r[j] == rest[j - 1];
      }
    }
  }

  lemma {:induction false} SortNewestFirstTies(checkIns: seq<CheckIn>)
    requires IdsAscending(checkIns)
    ensures TiesByAscendingId(SortNewestFirst(checkIns))
    decreases |checkIns|
  {
    if |checkIns| > 0 {
      var tail := checkIns[1..];
      assert IdsAscending(tail);
      SortNewestFirstTies(tail);
      var sortedTail := SortNewestFirst(tail);
      forall k | 0 <= k < |sortedTail|
        ensures checkIns[0].id < sortedTail[k].id
      {
        assert sortedTail[k] in multiset(tail);
        var m :| 0 <= m < |tail| && tail[m] == sortedTail[k];
        assert tail[m] == checkIns[m + 1];
      }
      InsertNewestTies(checkIns[0], sortedTail);
    }
  }

  /** `getCheckIns` on a store numbered by `addCheckIn`: newest first, equally
      old records in ascending id (arrival) order, nothing lost or added. */
  lemma GetCheckInsOrder(db: Store, t: int)
    requires IdsAscending(db.checkIns)
    ensures TiesByAscendingId(GetCheckIns(db))
    ensures AtTime(GetCheckIns(db), t) == AtTime(db.checkIns, t)
  {
    SortNewestFirstTies(db.checkIns);
    SortNewestFirstStable(db.checkIns, t);
  }
}
