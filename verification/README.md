# SwiftCheck ticket validation and check-in, modelled in Dafny

SwiftCheck is an event check-in tool. An organiser imports one event. Tickets
are handed out as QR codes whose text is `event:ticket:timestamp:signature`.
Staff scan the codes, and each scan is admitted or refused. This project
models the part of the program that decides those outcomes:

- `js.dfy` (module `Js`): the JavaScript built-ins that the core leans on,
  as far as the core uses them. These are `split` on one character,
  `startsWith`, `includes`, `toLowerCase`, integer `toString` and
  `parseInt(_, 10)`. A JavaScript number is an integer or NaN (`Js.Number`),
  and `===` is `Js.StrictEquals`, under which NaN equals nothing.
- `types.dfy` (module `Types`): the event and check-in records.
- `actions.dfy` (module `Actions`): the validator `validateQrCode`.
- `data.dfy` (module `Data`): the in-memory store, made of the active event
  and the check-in list, with `getEvent`, `setEvent`, `addCheckIn`,
  `isTicketCheckedIn` and `getCheckIns`.
- `scanner.dfy` (module `Scanner`): the scan pipeline `processDecodedText`.
- `route.dfy` (module `Route`): the ticket issuer `GET /api/qrcode/generate`.
- `dashboard.dfy`, `checkinlog.dfy` and `appshell.dfy`: the small pure
  computations inside the dashboard, the check-in history page and the header
  of the application shell.

The store is an immutable value. Every operation that changes it takes the
old store and returns the new one. The source keeps the store in a
process-wide object behind `async` accessors, and `processDecodedText` calls
`getEvent`, `isTicketCheckedIn` and `addCheckIn` without `await`. Taken
literally, those calls test promises, which are always truthy. The model gives
them their evidently intended awaited meaning; this assumption is also stated
at the head of `scanner.dfy`. The clock (`Date.now()`, `new Date()`) becomes a
parameter `now`. The keyed HMAC-SHA256 digest becomes a parameter `sign`. The
only fact the model uses about `sign` is that it answers 64 lowercase
hexadecimal digits (`Route.HexSigner`).

The code departs from what a signed, single-use ticket check would do in four
ways, and the model follows the code:

- The validator does not check an HMAC. It accepts any fourth field that
  starts with `demo-hmac-`.
- There is no expiry check. The five-minute constant is declared but never
  used.
- The duplicate test and the append are two separate steps, with no atomic
  test-and-set between them.
- "No active event" gets its own message, separate from an event mismatch.

Two consequences are proved, not merely noted:

- A token minted by the issuer, whose ticket number holds no `:`, is always
  refused as "Invalid ticket signature." (`Route.IssuedTokenFailsValidation`
  and `Route.IssuedTokenNeverAdmitted`).
- A ticket number that does hold `:` lets the requester choose the validated
  fields (`Route.ColonInTicketNumberPasses`).

## Model

| member | source | states |
|---|---|---|
| Js.Split | src/lib/actions.ts:45 | `split(':')` gives at least one part, no part holds the separator, and joining the parts with it gives back the text |
| Js.StrictEquals | src/lib/data.ts:62 | `===` on numbers holds exactly when both sides are the same number and that number is not NaN |
| Js.SplitJoin | src/lib/actions.ts:45 | splitting undoes joining whenever no part holds the separator, so a text built from colon-free fields splits back into exactly those fields |
| Js.SplitAppend | src/lib/actions.ts:45 | splitting at one separator splits the two sides independently: fields after the fourth cannot change the first four |
| Js.IncludesIffOccurs | src/app/check-in-log/page.tsx:28-29 | `includes` holds exactly when the query occurs at some position of the text |
| Js.NatToString | src/lib/actions.ts:51 | the decimal rendering of a natural number is a non-empty digit string whose value is the number and which has no superfluous leading zero |
| Js.IntToString | src/lib/actions.ts:51 | `toString` of an integer is digits, with a leading minus sign for negatives, and never holds `:` |
| Js.TrimStart | src/lib/actions.ts:70 | `parseInt` skips exactly the leading ECMAScript white space and stops at the first other character |
| Js.DigitPrefix | src/lib/actions.ts:70 | `parseInt` reads the longest run of decimal digits after the sign |
| Js.ParseInt | src/lib/actions.ts:70 | `parseInt(_, 10)` is NaN exactly when no decimal digit follows the leading white space and optional sign, and a negative result comes only from a leading minus sign |
| Js.ParseIntDigits | src/lib/actions.ts:70 | `parseInt` of a non-empty digit string is the value of the digits |
| Js.ParseIntMinus | src/lib/actions.ts:70 | `parseInt` of a text that starts with `-` is NaN without following digits, else the negated value of the digit run after the sign |
| Js.ParseIntNegatedDigits | src/lib/actions.ts:70 | `parseInt` of `-` followed by a non-empty digit string is the negated value of the digits |
| Js.ParseIntToString | src/lib/actions.ts:70 | `parseInt` reads back every integer that `toString` writes |
| Js.ParseIntNoDigits | src/lib/actions.ts:70 | `parseInt` of a text that starts with neither white space, a sign nor a digit is NaN |
| Js.LeadingZeroIsNoRendering | src/lib/actions.ts:51 | no integer renders as a text of two or more characters that starts with `0` |
| Actions.ValidateQrCode | src/lib/actions.ts:43-76 | a text with fewer than four `:`-separated fields, or an empty one among the first four, gives "Invalid QR code format."; "QR code is for a different event." only when the fields are well formed and the first is not the event id's text; "Invalid ticket signature." only when, in addition, the first matches and the fourth lacks the `demo-hmac-` prefix; when all three gates pass the text is accepted, with `parseInt` of the second field and "Ticket #<field> is valid."; every failure carries no ticket number |
| Actions.ValidateFields | src/lib/actions.ts:45-70 | for a text assembled from colon-free fields: a missing or empty field gives "Invalid QR code format.", else a first field that is not the id's text gives "QR code is for a different event.", else a fourth field without the prefix gives "Invalid ticket signature.", else success; extra fields play no part |
| Actions.ExtraFieldsIgnored | src/lib/actions.ts:45 | appending `:`-separated text to a text that already has four fields leaves the verdict unchanged |
| Actions.TimestampIgnored | src/lib/actions.ts:61-67 | any two non-empty timestamps give the same verdict, because no expiry test is made |
| Actions.LeadingZeroEventRejected | src/lib/actions.ts:51-53 | the event check compares text, so an event field like "07" is refused as a different event for every id |
| Data.SetEvent | src/lib/data.ts:52-58 | the imported event becomes the active one, the check-in list is emptied, and the event is returned |
| Data.GetEventTracksImports | src/lib/data.ts:33-36 | `getEvent` gives no event on the store as first created, the imported event after `setEvent`, and the same event before and after `addCheckIn` |
| Data.MaxId | src/lib/data.ts:46 | `Math.max` over the ids is one of the ids and at least every id |
| Data.NextId | src/lib/data.ts:46 | the new id is 1 for an empty list, otherwise one more than an existing id, and larger than every existing id |
| Data.AddCheckIn | src/lib/data.ts:44-50 | exactly one record is appended after the earlier ones, which are kept in order; it carries the draft's fields and the id `NextId` gives (1 for an empty list, otherwise the largest id plus one); the event is unchanged |
| Data.AddCheckInKeepsIdsAscending | src/lib/data.ts:46-48 | appending keeps ids strictly increasing along the list, hence pairwise distinct |
| Data.AddCheckInAcceptsRepeats | src/lib/data.ts:44-50 | the store makes no duplicate test: adding the same draft twice leaves two records for the same event and ticket |
| Data.SetEventRestartsIds | src/lib/data.ts:44-58 | after an import the next check-in is the only one and gets id 1 |
| Data.AnyFor | src/lib/data.ts:60-63 | `isTicketCheckedIn` holds exactly when some stored record has the event id and, by `===`, the ticket number |
| Data.SetEventForgetsCheckIns | src/lib/data.ts:52-63 | after an import no ticket counts as checked in |
| Data.NaNNeverCheckedIn | src/lib/data.ts:62 | a NaN ticket number never counts as checked in, whatever the store holds |
| Data.InsertNewest | src/lib/data.ts:41 | inserting into a newest-first list keeps it newest first and adds exactly that record |
| Data.SortNewestFirst | src/lib/data.ts:41 | the sort returns a permutation of its input ordered by check-in time, newest first |
| Data.GetCheckIns | src/lib/data.ts:38-42 | `getCheckIns` returns a permutation of the stored list, newest first, and leaves the store as it was |
| Data.SortNewestFirstStable | src/lib/data.ts:41 | the sort is stable: for every instant, the records made then keep their stored order |
| Data.GetCheckInsOrder | src/lib/data.ts:38-42 | on a store numbered by `addCheckIn`, records with equal times come out in ascending id order |
| Scanner.ProcessAsWritten | src/lib/scanner.ts:15-52 | the pipeline as written (awaits supplied): no event gives "No event loaded. Please import an event first."; a validator refusal passes its message on; an accepted ticket already recorded for the active event is refused as already checked in; any other accepted ticket, NaN included, is admitted and appended with the next id, the active event's id, the ticket number, "User #n" and the scan time; the event never changes, a failure leaves the store unchanged, and success holds exactly when the list grows by one |
| Scanner.ProcessDecodedText | src/lib/scanner.ts:15-52 | the corrected pipeline: as written, except that an accepted text whose ticket number is NaN is refused as "Invalid QR code format."; an accepted ticket with a number, not yet recorded for the active event, is admitted; a failure leaves the store unchanged; success holds exactly when the list grows by one; the new record has the next id, the active event's id, the validated number, "User #n" and the scan time |
| Scanner.CorrectionOnlyForNaN | src/lib/scanner.ts:15-52 | on every text that is not an accepted NaN ticket, the corrected pipeline gives the same answer and the same store as the pipeline as written |
| Scanner.DuplicateRejected | src/lib/scanner.ts:29-35 | a ticket already recorded for the active event is refused as "Ticket #n has already been checked in." with its number, and nothing is recorded |
| Scanner.ProcessKeepsAtMostOnce | src/lib/scanner.ts:29-42 | if the store holds at most one record per (event, ticket) pair before a scan, it still does afterwards |
| Scanner.InitialStoreInvariants | src/lib/data.ts:18-23 | the store as first created has no event and no check-ins, so it meets the invariants that imports and scans keep: check-ins tied to the active event, ascending ids, at most one record per pair |
| Scanner.SecondScanRejected | src/lib/scanner.ts:29-42 | scanning an admitted text again is refused as already checked in and records nothing |
| Scanner.StoreInvariants | src/lib/scanner.ts:37-42 | imports and scans keep every stored check-in tied to the active event and keep ids ascending |
| Scanner.ImportIsolatesOldTickets | src/lib/actions.ts:51-53 | after importing an event with another id, a text accepted for the old event is refused as a different event, not as already checked in |
| Scanner.AsWrittenAdmitsNaNTwice | src/lib/scanner.ts:23-42 | as written, a validated text whose ticket number is NaN is admitted on two consecutive scans, so the store ends with two records for the same pair |
| Scanner.NaNTicketFields | src/lib/actions.ts:45-70 | every well-formed text for the active event whose ticket field starts with neither white space, a sign nor a digit is accepted, and its ticket number is NaN |
| Scanner.NaNTicketExample | src/lib/actions.ts:70 | "7:abc:1:demo-hmac-x" for event 7 passes validation with ticket number NaN |
| Scanner.NaNTicketRefused | src/lib/scanner.ts:23-25 | in the corrected pipeline such a text is refused as "Invalid QR code format." and nothing is recorded |
| Route.IssueToken | src/app/api/qrcode/generate/route.ts:7-34 | a missing or empty parameter gives 400 "eventNumber and ticketNumber are required"; no event or another event's number gives 400 "Event number does not match current event"; present parameters naming the active event always issue exactly `eventNumber:ticketNumber:timestamp` followed by `:` and the digest of that payload |
| Route.IssuedTokenFields | src/app/api/qrcode/generate/route.ts:27-34 | when the ticket number holds no `:`, the token splits back into exactly the event number, the ticket number, the timestamp, and the digest of the first three joined by `:` |
| Route.IssuedTokenFailsValidation | src/lib/actions.ts:51-58 | such a token passes the format and event gates for the same active event and is refused by the signature gate |
| Route.IssuedTokenNeverAdmitted | src/lib/scanner.ts:21-25 | scanning such a token is refused with "Invalid ticket signature." and leaves the store unchanged |
| Route.ColonInTicketNumberPasses | src/app/api/qrcode/generate/route.ts:28 | asking for ticket "5:0:demo-hmac-x" yields a token the validator accepts as ticket 5 |
| Route.SmuggledTicketIssued | src/app/api/qrcode/generate/route.ts:27-34 | asking for a ticket of the form `t:z:sig`, with non-empty `t` and `z` and `sig` starting with `demo-hmac-`, issues a token that the validator accepts as ticket `parseInt(t)` |
| Route.SmuggledFieldsValidate | src/lib/actions.ts:45-70 | a text whose first four fields are the event id's text, `t`, `z` and such a `sig` is accepted whatever follows them |
| Dashboard.RecentCheckIns | src/app/page.tsx:39 | the recent list is the first min(5, n) check-ins, in the given order |
| Dashboard.DashboardPage | src/app/page.tsx:102-174 | with no event only the empty state is shown; otherwise remaining plus count is the seat total, over capacity holds exactly when count exceeds seats, the shown remainder is never negative and is 0 once the count reaches the seats, the note is "Over capacity" or the locale-formatted remainder followed by " seats left", the status is "Overbooked" exactly when over capacity and "Good" otherwise, and the alert shows exactly when over capacity |
| Dashboard.AdmissionTakesASeat | src/app/page.tsx:113-115 | an admission through the scanner raises the count by one, takes one seat off the shown remainder while any is left, and never lifts an overbooked status |
| CheckInLog.FilterCheckIns | src/app/check-in-log/page.tsx:27-30 | the filtered list is an order-preserving subsequence of the input; it holds only matching check-ins, and every matching one |
| CheckInLog.FilterKeepsEveryCopy | src/app/check-in-log/page.tsx:27-30 | the filter keeps each matching record as many times as the input holds it, and no copy of any other record |
| CheckInLog.Matches | src/app/check-in-log/page.tsx:28-29 | a check-in matches exactly when the lower-cased query occurs in its lower-cased name, or the query as typed occurs in the text of its ticket number |
| CheckInLog.CheckInLogPage | src/app/check-in-log/page.tsx:34-59 | with no event the empty state is shown; otherwise the header count is the unfiltered number of check-ins and the rows are the filtered ones |
| CheckInLog.EmptyQueryKeepsAll | src/app/check-in-log/page.tsx:27-30 | the empty query keeps every check-in, in order |
| CheckInLog.CountIgnoresQuery | src/app/check-in-log/page.tsx:59 | the header count does not depend on the query |
| CheckInLog.NameMatchIgnoresCase | src/app/check-in-log/page.tsx:28 | the name test gives the same answer for a query and its lower-case form |
| CheckInLog.TicketMatchKeepsCase | src/app/check-in-log/page.tsx:29 | the ticket test uses the query as typed: "NaN" finds a NaN ticket and "nan" does not |
| AppShell.HeaderTitle | src/components/layout/app-shell.tsx:129-149 | each of the six known routes gets its fixed title, other paths under `/display-qr` get "Your Ticket", all else gets "SwiftCheck", and no title is empty |
| AppShell.TitleIdentifiesPath | src/components/layout/app-shell.tsx:129-149 | each title determines its kind of path in both directions: a fixed title comes only from its own route, "Your Ticket" exactly from `/display-qr` paths, and "SwiftCheck" exactly from everything else |

## Findings

| source | as written | input that shows it | evidently intended | confidence | as-written member | corrected member |
|---|---|---|---|---|---|---|
| src/lib/scanner.ts:23-42 | `parseInt` of a ticket field without leading digits is NaN. The validator still reports success. NaN passes the `=== null` guard, and the `===` duplicate test never matches NaN, so the same token is admitted on every scan | "7:abc:1:demo-hmac-x" scanned twice while event 7 is active | a ticket field that holds no number is refused, so each token is admitted at most once | high, not executed | Scanner.ProcessAsWritten (shown by Scanner.AsWrittenAdmitsNaNTwice) | Scanner.ProcessDecodedText (Scanner.NaNTicketRefused, Scanner.ProcessKeepsAtMostOnce) |

The corrected pipeline refuses such a text with the validator's own format
message. On every other input it is identical to the pipeline as written.

## Left out

- HMAC-SHA256 and the secret key: the keyed digest is the parameter `sign`, and only the shape of its output (64 lowercase hex digits) is assumed.
- Asynchrony, `unstable_cache` and the global object that hold the store (src/lib/data.ts:11-30): the store is an explicit value.
- The missing `await`s in src/lib/scanner.ts:16,29,37: the model assumes the awaited behaviour, as stated above.
- Concurrency: the source has no locking, and only sequential scans are modelled. Two overlapping scans of one ticket could both pass the duplicate test; that is not modelled.
- The commented-out expiry check (src/lib/actions.ts:62-67): it is not active, so `QrDataTtlMs` is declared and unused, as in the source.
- The `catch` branch of `validateQrCode`: with a string text and a numeric id nothing in the `try` can throw, so that branch is unreachable in the model.
- Js.ToLower: folds only the ASCII letters A-Z, while `toLowerCase` also lower-cases other Unicode letters; names and queries outside ASCII may match differently.
- Js.IntToString: does not model the exponent notation JavaScript uses for magnitudes of 1e21 and above, or non-integer event ids.
- Js.ParseInt: reads digits into an unbounded integer, while JavaScript rounds numbers beyond 2^53 to the nearest double.
- Check-in times are integer milliseconds; the ISO-8601 strings the source stores, and the `Date` parsing in the sort comparator, are not modelled (an unparsable date would give NaN there).
- The `storage` event dispatched after a check-in (src/lib/scanner.ts:45): a UI notification with no effect on the store.
- Dashboard.DashboardPage: the remainder in the note goes through `toLocaleString`, whose digit grouping depends on the runtime's locale ("1,500" in en-US); the model takes that formatting as the parameter `formatCount` and promises nothing about its text.
- The dashboard's percentage of capacity (a floating-point figure), and all date formatting.
- The `isClient` early return of the pages: a rendering detail before hydration.
- The display URL that the issuer builds around the token (src/app/api/qrcode/generate/route.ts:36-41), and the fetch in the ticket form.
- The camera and file scanners (src/components/scan/qr-scanner.tsx, qr-file-scanner.tsx): the camera scanner repeats the pipeline with slightly different messages, and the pipeline is modelled once.
- `fetchEventData`, the import page, the QR image page, the seat-suggestion flow and the presentation components.
