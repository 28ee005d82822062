/**
 The ticket issuer (`GET /api/qrcode/generate`): checks its two query
 parameters against the active event and mints
 `eventNumber:ticketNumber:timestamp:digest`. The keyed HMAC-SHA256 digest
 (section 2 of RFC 2104 over SHA-256) is not computed here: the route takes
 the signing function `sign`, already keyed with the shared secret, and all
 the model uses of it is that it answers 64 lowercase hexadecimal digits.
 The clock reading `Date.now()` is the parameter `now`. The route reads the
 store but returns no new one: issuing never changes it.
 */
module Route {
  import opened Js
  import opened Types
  import opened Actions
  import opened Data
  import opened Scanner

  const MissingParameters: string := "eventNumber and ticketNumber are required"
  const EventMismatch: string := "Event number does not match current event"

  /** The route's answer: the minted token, or an error with its HTTP status. */
  datatype Issue = Issued(token: string) | BadRequest(status: int, error: string)

  predicate IsLowerHexDigit(c: char) {
    '0' <= c <= '9' || 'a' <= c <= 'f'
  }

  /** The shape of `digest("hex")` for SHA-256: 64 lowercase hexadecimal digits. */
  predicate IsHexDigest(h: string) {
    |h| == 64 && forall i :: 0 <= i < |h| ==> IsLowerHexDigit(h[i])
  }

  /** `sign` behaves like the keyed HMAC-SHA256 digest as far as its output alphabet goes. */
  ghost predicate HexSigner(sign: string -> string) {
    forall m :: IsHexDigest(sign(m))
  }

  /** A query parameter that is present and not the empty string. */
  predicate Present(param: Option<string>) {
    param.Some? && param.value != ""
  }

  /** The signed part of a token: event, ticket and timestamp, `:`-joined. */
  function Payload(eventNumber: string, ticketNumber: string, now: nat): string {
    eventNumber + ":" + ticketNumber + ":" + IntToString(now)
  }

  /** `GET`: parameter check, event check, then the signed token. */
  function IssueToken(db: Store, eventNumber: Option<string>, ticketNumber: Option<string>,
                      now: nat, sign: string -> string): (r: Issue)
    ensures !Present(eventNumber) || !Present(ticketNumber) ==> r == BadRequest(400, MissingParameters)
    ensures Present(eventNumber) && Present(ticketNumber)
            && (db.event.None? || eventNumber.value != IntToString(db.event.value.id))
            ==> r == BadRequest(400, EventMismatch)
    ensures r.Issued? ==>
      && db.event.Some? && eventNumber == Some(IntToString(db.event.value.id))
      && Present(ticketNumber)
      && StartsWith(r.token, Payload(eventNumber.value, ticketNumber.value, now) + ":")
    ensures Present(eventNumber) && Present(ticketNumber)
            && db.event.Some? && eventNumber.value == IntToString(db.event.value.id)
            ==> var data := Payload(eventNumber.value, ticketNumber.value, now);
                r == Issued(data + ":" + sign(data))
  {
    if !Present(eventNumber) || !Present(ticketNumber) then
      BadRequest(400, MissingParameters)
    else if GetEvent(db).None? || IntToString(GetEvent(db).value.id) != eventNumber.value then
      BadRequest(400, EventMismatch)
    else
      var data := Payload(eventNumber.value, ticketNumber.value, now);
      assert (data + ":" + sign(data))[..|data + ":"|] == data + ":";
      Issued(data + ":" + sign(data))
  }

  /** Four `:`-free fields joined by `:` in the order the route writes them. */
  lemma JoinFour(a: string, b: string, c: string, d: string)
    ensures Join([a, b, c, d], ':') == a + ":" + b + ":" + c + ":" + d
  {
    assert [a, b, c, d][1..] == [b, c, d];
    assert [b, c, d][1..] == [c, d];
    assert [c, d][1..] == [d];
    assert Join([c, d], ':') == c + ":" + d;
    assert Join([b, c, d], ':') == b + ":" + (c + ":" + d);
    assert Join([a, b, c, d], ':') == a + ":" + (b + ":" + (c + ":" + d));
  }

  lemma HexIsColonFree(h: string)
    requires IsHexDigest(h)
    ensures ':' !in h
  {
  }

  /** When the ticket number holds no `:`, the token splits back into exactly
      the event number, the ticket number, the timestamp, and the digest of
      the first three joined by `:`. */
  lemma IssuedTokenFields(db: Store, eventNumber: Option<string>, ticketNumber: Option<string>,
                          now: nat, sign: string -> string)
    requires HexSigner(sign)
    requires IssueToken(db, eventNumber, ticketNumber, now, sign).Issued?
    requires ':' !in ticketNumber.value
    ensures var token := IssueToken(db, eventNumber, ticketNumber, now, sign).token;
      Split(token, ':') == [eventNumber.value, ticketNumber.value, IntToString(now),
                            sign(Payload(eventNumber.value, ticketNumber.value, now))]
  {
    var e, t, ts := eventNumber.value, ticketNumber.value, IntToString(now);
    var h := sign(Payload(e, t, now));
    HexIsColonFree(h);
    JoinFour(e, t, ts, h);
    SplitJoin([e, t, ts, h], ':');
  }

  /** An issued token whose ticket number holds no `:` gets past the format and
      event gates of the validator for the same active event, and is then
      refused by the signature gate: a hexadecimal digest never starts with
      "demo-hmac-". */
  lemma IssuedTokenFailsValidation(db: Store, eventNumber: Option<string>, ticketNumber: Option<string>,
                                   now: nat, sign: string -> string)
    requires HexSigner(sign)
    requires IssueToken(db, eventNumber, ticketNumber, now, sign).Issued?
    requires ':' !in ticketNumber.value
    ensures ValidateQrCode(IssueToken(db, eventNumber, ticketNumber, now, sign).token, db.event.value.id)
         == Rejection(InvalidSignature)
  {
    var e, t, ts := eventNumber.value, ticketNumber.value, IntToString(now);
    var h := sign(Payload(e, t, now));
    var token := IssueToken(db, eventNumber, ticketNumber, now, sign).token;
    IssuedTokenFields(db, eventNumber, ticketNumber, now, sign);
    var fields := [e, t, ts, h];
    assert Split(token, ':') == fields;
    assert e == IntToString(db.event.value.id) && t != "" && ts != "" && |h| == 64;
    assert !StartsWith(h, DemoSignaturePrefix) by {
      assert !IsLowerHexDigit(DemoSignaturePrefix[2]);
    }
    ValidateBySplit(token, fields, db.event.value.id);
  }

  /** Hence a scan of such a token is refused and records nothing. */
  lemma IssuedTokenNeverAdmitted(db: Store, eventNumber: Option<string>, ticketNumber: Option<string>,
                                 now: nat, sign: string -> string, scanTime: int)
    requires HexSigner(sign)
    requires IssueToken(db, eventNumber, ticketNumber, now, sign).Issued?
    requires ':' !in ticketNumber.value
    ensures ProcessDecodedText(db, IssueToken(db, eventNumber, ticketNumber, now, sign).token, scanTime)
         == Scan(ScanResult(false, InvalidSignature, None), db)
  {
    IssuedTokenFailsValidation(db, eventNumber, ticketNumber, now, sign);
  }

  /** A ticket number that holds `:` can carry fields of its own: asking for
      ticket "5:0:demo-hmac-x" yields a token the validator accepts as ticket 5. */
  lemma ColonInTicketNumberPasses(db: Store, now: nat, sign: string -> string)
    requires HexSigner(sign)
    requires db.event.Some?
    ensures var eventNumber := IntToString(db.event.value.id);
      var r := IssueToken(db, Some(eventNumber), Some("5:0:demo-hmac-x"), now, sign);
      && r.Issued?
      && ValidateQrCode(r.token, db.event.value.id).success
      && ValidateQrCode(r.token, db.event.value.id).ticketNumber == Some(Finite(5))
  {
    assert "5:0:demo-hmac-x" == "5" + ":" + "0" + ":" + "demo-hmac-x";
    assert "demo-hmac-x"[..|DemoSignaturePrefix|] == DemoSignaturePrefix;
    SmuggledTicketIssued(db, "5", "0", "demo-hmac-x", now, sign);
    assert ParseInt("5") == Finite(5) by {
      assert IntToString(5) == "5";
      ParseIntToString(5);
    }
  }

  /** The issuer side of the smuggling: asking for ticket `t:z:sig` issues a
      token whose first four fields are the event number, `t`, `z` and `sig`. */
  lemma SmuggledTicketIssued(db: Store, t: string, z: string, sig: string, now: nat, sign: string -> string)
    requires HexSigner(sign)
    requires db.event.Some?
    requires ColonFree(t) && ColonFree(z) && ColonFree(sig)
    requires t != "" && z != "" && StartsWith(sig, DemoSignaturePrefix)
    ensures var r := IssueToken(db, Some(IntToString(db.event.value.id)), Some(t + ":" + z + ":" + sig), now, sign);
      && r.Issued?
      && ValidateQrCode(r.token, db.event.value.id) == Validation(true, "Ticket #" + t + " is valid.", Some(ParseInt(t)))
  {
    var id := db.event.value.id;
    var e, ts := IntToString(id), IntToString(now);
    var ticket := t + ":" + z + ":" + sig;
    var h := sign(Payload(e, ticket, now));
    HexIsColonFree(h);
    var r := IssueToken(db, Some(e), Some(ticket), now, sign);
    assert r.token == e + ":" + ticket + ":" + (ts + ":" + h);
    SmuggledFieldsValidate(id, t, z, sig, ts, h);
  }

  /** A ticket parameter of the form `t:z:sig` puts its own three fields in
      the ticket, timestamp and signature positions of the token; the real
      timestamp and digest come after the fourth field and play no part. */
  lemma SmuggledFieldsValidate(id: int, t: string, z: string, sig: string, ts: string, h: string)
    requires ColonFree(t) && ColonFree(z) && ColonFree(sig) && ':' !in ts && ':' !in h
    requires t != "" && z != "" && StartsWith(sig, DemoSignaturePrefix)
    ensures ValidateQrCode(IntToString(id) + ":" + (t + ":" + z + ":" + sig) + ":" + (ts + ":" + h), id)
         == Validation(true, "Ticket #" + t + " is valid.", Some(ParseInt(t)))
  {
    var e := IntToString(id);
    var fields := [e, t, z, sig];
    var q := Join(fields, ':');
    Regroup(e, t, z, sig, ts + ":" + h);
    assert fields + [] == fields;
    ValidateFields(e, t, z, sig, [], id);
    SplitJoin(fields, ':');
    ExtraFieldsIgnored(q, ts + ":" + h, id);
  }

  /** The token text regrouped as the four leading fields and the rest. */
  lemma Regroup(e: string, t: string, z: string, sig: string, rest: string)
    ensures e + ":" + (t + ":" + z + ":" + sig) + ":" + rest == Join([e, t, z, sig], ':') + ":" + rest
  {
    JoinFour(e, t, z, sig);
  }
}
