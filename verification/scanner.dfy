/**
 The scan pipeline (`processDecodedText`): refuse when no event is loaded,
 validate the text, refuse a ticket already recorded for the active event,
 otherwise record it.

 The source calls `getEvent`, `isTicketCheckedIn` and `addCheckIn` without
 `await`, so taken literally it tests promises, which are always truthy. The
 model gives those calls their evidently intended awaited meaning and threads
 the store through explicitly: each function takes the store before the scan
 and returns the store after it. The moment of the scan, `new Date()` in the
 source, is the parameter `now`.
 */
module Scanner {
  import opened Js
  import opened Types
  import opened Actions
  import opened Data

  const NoEventLoaded: string := "No event loaded. Please import an event first."

  /** `ProcessScanResult`; `ticketNumber` is absent on the early rejections. */
  datatype ScanResult = ScanResult(success: bool, message: string, ticketNumber: Option<Number>)

  /** The answer of one scan together with the store it leaves behind. */
  datatype Scan = Scan(result: ScanResult, db: Store)

  function AlreadyCheckedIn(ticket: Number): string {
    "Ticket #" + NumberToString(ticket) + " has already been checked in."
  }

  function CheckedInMessage(ticket: Number): string {
    "Ticket #" + NumberToString(ticket) + " checked in successfully!"
  }

  /** The attendee name recorded for a ticket. */
  function UserName(ticket: Number): string {
    "User #" + NumberToString(ticket)
  }

  /** `processDecodedText` as written (awaits supplied). A ticket field without
      leading digits reaches the store as NaN, and since `NaN === NaN` is false
      the duplicate test never fires for it. */
  function ProcessAsWritten(db: Store, decodedText: string, now: int): (s: Scan)
    ensures s.db.event == db.event
    ensures !s.result.success ==> s.db == db
    ensures s.result.success <==> |s.db.checkIns| == |db.checkIns| + 1
    ensures db.event.None? ==> s.result == ScanResult(false, NoEventLoaded, None)
    ensures db.event.Some? ==>
      var validation := ValidateQrCode(decodedText, db.event.value.id);
      && (!validation.success ==> s.result == ScanResult(false, validation.message, None))
      && (validation.success ==>
            var ticket := validation.ticketNumber.value;
            && (IsTicketCheckedIn(db, db.event.value.id, ticket) ==>
                  s.result == ScanResult(false, AlreadyCheckedIn(ticket), Some(ticket)))
            && (!IsTicketCheckedIn(db, db.event.value.id, ticket) ==>
                  && s.result == ScanResult(true, CheckedInMessage(ticket), Some(ticket))
                  && s.db.checkIns[..|db.checkIns|] == db.checkIns
                  && var added := s.db.checkIns[|db.checkIns|];
                  && added.eventId == db.event.value.id && added.ticketNumber == ticket
                  && added.userName == UserName(ticket) && added.checkInTime == now
                  && added.id == NextId(db.checkIns)))
  {
    match GetEvent(db)
    case None => Scan(ScanResult(false, NoEventLoaded, None), db)
    case Some(current) =>
      var validation := ValidateQrCode(decodedText, current.id);
      if !validation.success || validation.ticketNumber.None? then
        Scan(ScanResult(false, validation.message, None), db)
      else
        var ticket := validation.ticketNumber.value;
        if IsTicketCheckedIn(db, current.id, ticket) then
          Scan(ScanResult(false, AlreadyCheckedIn(ticket), Some(ticket)), db)
        else
          var (after, _) := AddCheckIn(db, Draft(current.id, ticket, UserName(ticket), now));
          Scan(ScanResult(true, CheckedInMessage(ticket), Some(ticket)), after)
  }

  /** The validator accepted the text but its ticket field holds no number. */
  predicate NaNTicket(validation: Validation) {
    validation.success && validation.ticketNumber == Some(NaN)
  }

  /** The pipeline with the NaN ticket refused as a malformed QR code; on every
      other input it is `ProcessAsWritten`. */
  function ProcessDecodedText(db: Store, decodedText: string, now: int): (s: Scan)
    ensures s.db.event == db.event
    ensures !s.result.success ==> s.db == db
    ensures s.result.success <==> |s.db.checkIns| == |db.checkIns| + 1
    ensures db.event.None? ==> s.result == ScanResult(false, NoEventLoaded, None)
    ensures db.event.Some? ==>
      var validation := ValidateQrCode(decodedText, db.event.value.id);
      && (!validation.success ==> s.result == ScanResult(false, validation.message, None))
      && (NaNTicket(validation) ==> s.result == ScanResult(false, InvalidFormat, None))
    ensures db.event.Some? ==>
      var validation := ValidateQrCode(decodedText, db.event.value.id);
      (&& validation.success && validation.ticketNumber.Some? && validation.ticketNumber.value.Finite?
       && !IsTicketCheckedIn(db, db.event.value.id, validation.ticketNumber.value)) ==> s.result.success
    ensures s.result.success ==>
      && db.event.Some?
      && var validation := ValidateQrCode(decodedText, db.event.value.id);
      && validation.success
      && validation.ticketNumber.Some? && validation.ticketNumber.value.Finite?
      && var ticket := validation.ticketNumber.value;
      && !IsTicketCheckedIn(db, db.event.value.id, ticket)
      && s.result == ScanResult(true, CheckedInMessage(ticket), Some(ticket))
      && s.db.checkIns[..|db.checkIns|] == db.checkIns
      && var added := s.db.checkIns[|db.checkIns|];
      && added.eventId == db.event.value.id && added.ticketNumber == ticket
      && added.userName == UserName(ticket) && added.checkInTime == now
      && added.id == NextId(db.checkIns)
  {
    if db.event.Some? && NaNTicket(ValidateQrCode(decodedText, db.event.value.id)) then
      Scan(ScanResult(false, InvalidFormat, None), db)
    else
      ProcessAsWritten(db, decodedText, now)
  }

  /** The correction changes nothing but the NaN ticket: on every other text
      the corrected pipeline answers and records as the source does. */
  lemma CorrectionOnlyForNaN(db: Store, decodedText: string, now: int)
    requires db.event.Some? ==> !NaNTicket(ValidateQrCode(decodedText, db.event.value.id))
    ensures ProcessDecodedText(db, decodedText, now) == ProcessAsWritten(db, decodedText, now)
  {
  }

  /** A ticket the validator accepted but the store already holds for the
      active event is refused with its number, and nothing is recorded. */
  lemma DuplicateRejected(db: Store, decodedText: string, now: int)
    requires db.event.Some?
    requires ValidateQrCode(decodedText, db.event.value.id).success
    requires ValidateQrCode(decodedText, db.event.value.id).ticketNumber.value.Finite?
    requires IsTicketCheckedIn(db, db.event.value.id, ValidateQrCode(decodedText, db.event.value.id).ticketNumber.value)
    ensures var ticket := ValidateQrCode(decodedText, db.event.value.id).ticketNumber.value;
      ProcessDecodedText(db, decodedText, now) == Scan(ScanResult(false, AlreadyCheckedIn(ticket), Some(ticket)), db)
  {
  }

  /** At most one record per (event, ticket) pair, tickets compared as values. */
  predicate AtMostOnce(checkIns: seq<CheckIn>) {
    forall i, j :: 0 <= i < j < |checkIns| ==>
      !(checkIns[i].eventId == checkIns[j].eventId && checkIns[i].ticketNumber == checkIns[j].ticketNumber)
  }

  /** Appending a record whose pair the list does not hold yet keeps pairs unique. */
  lemma AtMostOnceAppend(xs: seq<CheckIn>, x: CheckIn)
    requires AtMostOnce(xs)
    requires x.ticketNumber.Finite?
    requires !AnyFor(xs, x.eventId, x.ticketNumber)
    ensures AtMostOnce(xs + [x])
  {
    var ys := xs + [x];
    forall i, j | 0 <= i < j < |ys|
      ensures !(ys[i].eventId == ys[j].eventId && ys[i].ticketNumber == ys[j].ticketNumber)
    {
      assert ys[i] == xs[i];
      if j == |xs| {
        assert ys[j] == x;
      } else {
        assert ys[j] == xs[j];
      }
    }
  }

  /** Scans run one after another never record a pair twice. */
  lemma ProcessKeepsAtMostOnce(db: Store, decodedText: string, now: int)
    requires AtMostOnce(db.checkIns)
    ensures AtMostOnce(ProcessDecodedText(db, decodedText, now).db.checkIns)
  {
    var s := ProcessDecodedText(db, decodedText, now);
    if s.result.success {
      var n := |db.checkIns|;
      var added := s.db.checkIns[n];
      assert s.db.checkIns == s.db.checkIns[..n] + [added];
      AtMostOnceAppend(db.checkIns, added);
    }
  }

  /** Scanning an accepted text again is refused as already checked in, and
      the second scan records nothing. */
  lemma SecondScanRejected(db: Store, decodedText: string, now1: int, now2: int)
    requires ProcessDecodedText(db, decodedText, now1).result.success
    ensures var first := ProcessDecodedText(db, decodedText, now1);
      var ticket := first.result.ticketNumber.value;
      ProcessDecodedText(first.db, decodedText, now2)
        == Scan(ScanResult(false, AlreadyCheckedIn(ticket), Some(ticket)), first.db)
  {
    var first := ProcessDecodedText(db, decodedText, now1);
    var n := |db.checkIns|;
    assert first.db.checkIns[n].eventId == db.event.value.id;
    assert StrictEquals(first.db.checkIns[n].ticketNumber, first.result.ticketNumber.value);
  }

  /** Every stored check-in belongs to the active event. */
  predicate ForActiveEvent(db: Store) {
    forall i :: 0 <= i < |db.checkIns| ==> db.event.Some? && db.checkIns[i].eventId == db.event.value.id
  }

  /** The store as first created meets every invariant kept below. */
  lemma InitialStoreInvariants()
    ensures GetEvent(InitialStore) == None
    ensures ForActiveEvent(InitialStore) && IdsAscending(InitialStore.checkIns) && AtMostOnce(InitialStore.checkIns)
  {
  }

  /** Importing an event and scanning both keep the check-ins tied to the
      active event, and keep ids ascending. */
  lemma StoreInvariants(db: Store, eventData: Event, decodedText: string, now: int)
    ensures ForActiveEvent(SetEvent(db, eventData).0) && IdsAscending(SetEvent(db, eventData).0.checkIns)
    ensures ForActiveEvent(db) ==> ForActiveEvent(ProcessDecodedText(db, decodedText, now).db)
    ensures IdsAscending(db.checkIns) ==> IdsAscending(ProcessDecodedText(db, decodedText, now).db.checkIns)
  {
    var s := ProcessDecodedText(db, decodedText, now);
    if s.result.success {
      var ticket := s.result.ticketNumber.value;
      var draft := Draft(db.event.value.id, ticket, UserName(ticket), now);
      assert s.db.checkIns == AddCheckIn(db, draft).0.checkIns;
      if IdsAscending(db.checkIns) {
        AddCheckInKeepsIdsAscending(db, draft);
      }
    }
  }

  /** Two events with different ids render to different texts. */
  lemma DistinctIdsRenderDistinctly(a: int, b: int)
    requires a != b
    ensures IntToString(a) != IntToString(b)
  {
    ParseIntToString(a);
    ParseIntToString(b);
  }

  /** After a new event is imported, a text accepted for the old event is
      refused as being for a different event, not as already checked in. */
  lemma ImportIsolatesOldTickets(db: Store, oldId: int, eventData: Event, decodedText: string, now: int)
    requires ValidateQrCode(decodedText, oldId).success
    requires eventData.id != oldId
    ensures ProcessDecodedText(SetEvent(db, eventData).0, decodedText, now)
         == Scan(ScanResult(false, DifferentEvent, None), SetEvent(db, eventData).0)
  {
    DistinctIdsRenderDistinctly(oldId, eventData.id);
  }

  /* ---------------------------------------------------------------------- */
  /* the NaN ticket, as written                                             */
  /* ---------------------------------------------------------------------- */

  /** As written, a text whose ticket field holds no number is admitted on
      every scan, leaving two records for the same event and ticket. */
  lemma AsWrittenAdmitsNaNTwice(db: Store, decodedText: string, now1: int, now2: int)
    requires db.event.Some?
    ensures NaNTicket(ValidateQrCode(decodedText, db.event.value.id)) ==>
      var first := ProcessAsWritten(db, decodedText, now1);
      var second := ProcessAsWritten(first.db, decodedText, now2);
      && first.result.success && second.result.success
      && |second.db.checkIns| == |db.checkIns| + 2
      && !AtMostOnce(second.db.checkIns)
  {
    if NaNTicket(ValidateQrCode(decodedText, db.event.value.id)) {
      var first := ProcessAsWritten(db, decodedText, now1);
      var second := ProcessAsWritten(first.db, decodedText, now2);
      NaNNeverCheckedIn(db, db.event.value.id);
      NaNNeverCheckedIn(first.db, db.event.value.id);
      var n := |db.checkIns|;
      assert first.db.checkIns == db.checkIns + [first.db.checkIns[n]];
      assert second.db.checkIns == first.db.checkIns + [second.db.checkIns[n + 1]];
      assert second.db.checkIns[n] == first.db.checkIns[n];
      assert second.db.checkIns[n].eventId == second.db.checkIns[n + 1].eventId;
      assert second.db.checkIns[n].ticketNumber == NaN == second.db.checkIns[n + 1].ticketNumber;
    }
  }

  /** A well-formed text for the active event whose ticket field starts with
      neither white space, a sign nor a digit is accepted with a NaN ticket. */
  lemma NaNTicketFields(event: string, ticket: string, timestamp: string, signature: string, id: int)
    requires ColonFree(event) && ColonFree(ticket) && ColonFree(timestamp) && ColonFree(signature)
    requires event == IntToString(id) && timestamp != "" && StartsWith(signature, DemoSignaturePrefix)
    requires |ticket| > 0 && !IsJsWhiteSpace(ticket[0]) && !IsDigit(ticket[0])
    requires ticket[0] != '-' && ticket[0] != '+'
    ensures NaNTicket(ValidateQrCode(Join([event, ticket, timestamp, signature], ':'), id))
  {
    var fields := [event, ticket, timestamp, signature];
    assert fields + [] == fields;
    ValidateFields(event, ticket, timestamp, signature, [], id);
    ParseIntNoDigits(ticket);
  }

  /** Such texts exist: "7:abc:1:demo-hmac-x" for event 7. */
  lemma NaNTicketExample()
    ensures NaNTicket(ValidateQrCode(Join(["7", "abc", "1", "demo-hmac-x"], ':'), 7))
  {
    assert IntToString(7) == "7";
    assert "demo-hmac-x"[..|DemoSignaturePrefix|] == DemoSignaturePrefix;
    NaNTicketFields("7", "abc", "1", "demo-hmac-x", 7);
  }

  /** With the correction the same text is refused every time and nothing is recorded. */
  lemma NaNTicketRefused(db: Store, decodedText: string, now: int)
    requires db.event.Some?
    ensures NaNTicket(ValidateQrCode(decodedText, db.event.value.id)) ==>
      ProcessDecodedText(db, decodedText, now) == Scan(ScanResult(false, InvalidFormat, None), db)
  {
  }
}
