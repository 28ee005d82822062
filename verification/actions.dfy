/**
 The ticket validator (`validateQrCode`). A scanned text is read as
 `event:ticket:timestamp:signature`; three gates are tried in order (format,
 event, signature) and the first that fails decides the message. The
 validator reads neither the store nor the clock: it takes the text and the
 active event's id and returns a verdict, and recording the check-in is left
 to its caller.
 */
module Actions {
  import opened Js
  import opened Types

  /** `QR_DATA_TTL_MS`, five minutes. The expiry test that would consult it is
      disabled, so nothing below depends on it or on the timestamp field. */
  const QrDataTtlMs: int := 5 * 60 * 1000

  /** The placeholder signature test accepts any fourth field with this prefix. */
  const DemoSignaturePrefix: string := "demo-hmac-"

  const InvalidFormat: string := "Invalid QR code format."
  const DifferentEvent: string := "QR code is for a different event."
  const InvalidSignature: string := "Invalid ticket signature."

  /** The validator's answer; `ticketNumber` is `null` on every rejection. */
  datatype Validation = Validation(success: bool, message: string, ticketNumber: Option<Number>)

  function Rejection(message: string): Validation {
    Validation(false, message, None)
  }

  /** The four destructured fields all exist and none is the empty string. */
  predicate WellFormed(fields: seq<string>) {
    |fields| >= 4 && fields[0] != "" && fields[1] != "" && fields[2] != "" && fields[3] != ""
  }

  /** The verdict on `qrData` for the event whose id is `currentEventId`. */
  function ValidateQrCode(qrData: string, currentEventId: int): (r: Validation)
    ensures r.success ==>
      var fields := Split(qrData, ':');
      && WellFormed(fields)
      && fields[0] == IntToString(currentEventId)
      && StartsWith(fields[3], DemoSignaturePrefix)
      && r.ticketNumber == Some(ParseInt(fields[1]))
      && r.message == "Ticket #" + fields[1] + " is valid."
    ensures !r.success ==>
      r.ticketNumber == None && r.message in {InvalidFormat, DifferentEvent, InvalidSignature}
    ensures |Split(qrData, ':')| < 4 ==> r == Rejection(InvalidFormat)
    ensures !r.success && r.message == InvalidFormat ==> !WellFormed(Split(qrData, ':'))
    ensures !r.success && r.message == DifferentEvent ==>
      var fields := Split(qrData, ':');
      WellFormed(fields) && fields[0] != IntToString(currentEventId)
    ensures !r.success && r.message == InvalidSignature ==>
      var fields := Split(qrData, ':');
      && WellFormed(fields) && fields[0] == IntToString(currentEventId)
      && !StartsWith(fields[3], DemoSignaturePrefix)
    ensures var fields := Split(qrData, ':');
      (WellFormed(fields) && fields[0] == IntToString(currentEventId)
       && StartsWith(fields[3], DemoSignaturePrefix)) ==> r.success
  {
    var fields := Split(qrData, ':');
    if !WellFormed(fields) then Rejection(InvalidFormat)
    else if IntToString(currentEventId) != fields[0] then Rejection(DifferentEvent)
    else if !StartsWith(fields[3], DemoSignaturePrefix) then Rejection(InvalidSignature)
    else Validation(true, "Ticket #" + fields[1] + " is valid.", Some(ParseInt(fields[1])))
  }

  predicate ColonFree(s: string) {
    ':' !in s
  }

  /** The verdict on a text assembled from colon-free fields: format first,
      then the exact text of the event id, then the signature prefix; fields
      after the fourth play no part. */
  lemma ValidateFields(event: string, ticket: string, timestamp: string, signature: string,
                       extra: seq<string>, currentEventId: int)
    requires ColonFree(event) && ColonFree(ticket) && ColonFree(timestamp) && ColonFree(signature)
    requires forall i :: 0 <= i < |extra| ==> ColonFree(extra[i])
    ensures var r := ValidateQrCode(Join([event, ticket, timestamp, signature] + extra, ':'), currentEventId);
      if event == "" || ticket == "" || timestamp == "" || signature == "" then
        r == Rejection(InvalidFormat)
      else if event != IntToString(currentEventId) then
        r == Rejection(DifferentEvent)
      else if !StartsWith(signature, DemoSignaturePrefix) then
        r == Rejection(InvalidSignature)
      else
        r == Validation(true, "Ticket #" + ticket + " is valid.", Some(ParseInt(ticket)))
  {
    var fields := [event, ticket, timestamp, signature] + extra;
    assert forall i :: 0 <= i < |fields| ==> ':' !in fields[i] by {
      ColonFreeFields(event, ticket, timestamp, signature, extra);
    }
    SplitJoin(fields, ':');
    var text := Join(fields, ':');
    ValidateBySplit(text, fields, currentEventId);
    FirstFour(event, ticket, timestamp, signature, extra);
    var r := ValidateQrCode(text, currentEventId);
    if event == "" || ticket == "" || timestamp == "" || signature == "" {
      assert r == Rejection(InvalidFormat);
    } else if event != IntToString(currentEventId) {
      assert r == Rejection(DifferentEvent);
    } else if !StartsWith(signature, DemoSignaturePrefix) {
      assert r == Rejection(InvalidSignature);
    }
  }

  lemma FirstFour(event: string, ticket: string, timestamp: string, signature: string,
                  extra: seq<string>)
    ensures var fields := [event, ticket, timestamp, signature] + extra;
      |fields| >= 4 && fields[0] == event && fields[1] == ticket
      && fields[2] == timestamp && fields[3] == signature
  {
  }

  lemma ColonFreeFields(event: string, ticket: string, timestamp: string, signature: string,
                        extra: seq<string>)
    requires ColonFree(event) && ColonFree(ticket) && ColonFree(timestamp) && ColonFree(signature)
    requires forall i :: 0 <= i < |extra| ==> ColonFree(extra[i])
    ensures var fields := [event, ticket, timestamp, signature] + extra;
      forall i :: 0 <= i < |fields| ==> ':' !in fields[i]
  {
    var fields := [event, ticket, timestamp, signature] + extra;
    forall i | 0 <= i < |fields|
      ensures ':' !in fields[i]
    {
      if i >= 4 {
        assert fields[i] == extra[i - 4];
      }
    }
  }

  /** The verdict depends on the text only through its split fields. */
  lemma ValidateBySplit(qrData: string, fields: seq<string>, currentEventId: int)
    requires Split(qrData, ':') == fields && |fields| >= 4
    ensures var r := ValidateQrCode(qrData, currentEventId);
      if fields[0] == "" || fields[1] == "" || fields[2] == "" || fields[3] == "" then
        r == Rejection(InvalidFormat)
      else if fields[0] != IntToString(currentEventId) then
        r == Rejection(DifferentEvent)
      else if !StartsWith(fields[3], DemoSignaturePrefix) then
        r == Rejection(InvalidSignature)
      else
        r == Validation(true, "Ticket #" + fields[1] + " is valid.", Some(ParseInt(fields[1])))
  {
  }

  /** Appending further `:`-separated text to a text that already has four
      fields leaves the verdict as it was. */
  lemma ExtraFieldsIgnored(qrData: string, more: string, currentEventId: int)
    requires |Split(qrData, ':')| >= 4
    ensures ValidateQrCode(qrData + ":" + more, currentEventId) == ValidateQrCode(qrData, currentEventId)
  {
    SplitAppend(qrData, ':', more);
  }

  /** The timestamp field is only tested for being non-empty: any two non-empty
      timestamps give the same verdict. */
  lemma TimestampIgnored(event: string, ticket: string, t1: string, t2: string, signature: string,
                         currentEventId: int)
    requires ColonFree(event) && ColonFree(ticket) && ColonFree(signature)
    requires ColonFree(t1) && ColonFree(t2) && t1 != "" && t2 != ""
    ensures ValidateQrCode(Join([event, ticket, t1, signature], ':'), currentEventId)
         == ValidateQrCode(Join([event, ticket, t2, signature], ':'), currentEventId)
  {
    assert [event, ticket, t1, signature] + [] == [event, ticket, t1, signature];
    assert [event, ticket, t2, signature] + [] == [event, ticket, t2, signature];
    ValidateFields(event, ticket, t1, signature, [], currentEventId);
    ValidateFields(event, ticket, t2, signature, [], currentEventId);
  }

  /** The event gate compares text, not numbers: a well-formed text whose event
      field carries a leading zero ("07" for event 7) is always for a
      different event. */
  lemma LeadingZeroEventRejected(qrData: string, currentEventId: int)
    requires WellFormed(Split(qrData, ':'))
    requires |Split(qrData, ':')[0]| >= 2 && Split(qrData, ':')[0][0] == '0'
    ensures ValidateQrCode(qrData, currentEventId) == Rejection(DifferentEvent)
  {
    LeadingZeroIsNoRendering(currentEventId, Split(qrData, ':')[0]);
  }
}
