/**
 The capacity figures of the dashboard page (`DashboardPage`) and its list of
 recent arrivals (`RecentCheckIns`). The percentage of capacity, a
 floating-point figure, and all date formatting are not modelled. Counts on
 the page go through `toLocaleString`, whose digit grouping depends on the
 runtime's locale; it is the parameter `formatCount`.
 */
module Dashboard {
  import opened Js
  import opened Types
  import opened Data
  import opened Scanner

  /** How many arrivals the recent list shows. */
  const RecentLimit: nat := 5

  const Overbooked: string := "Overbooked"
  const Good: string := "Good"

  /** What the page shows: the empty state, or the figures. */
  datatype View =
    | EmptyState
    | Figures(
        checkInCount: nat,
        seatsRemaining: int,
        isOverCapacity: bool,
        remainingShown: int,
        remainingNote: string,
        status: string,
        capacityAlert: bool,
        recent: seq<CheckIn>)

  /** `checkIns.slice(0, 5)`. */
  function RecentCheckIns(checkIns: seq<CheckIn>): (r: seq<CheckIn>)
    ensures |r| <= RecentLimit && (|checkIns| >= RecentLimit ==> |r| == RecentLimit)
    ensures |checkIns| < RecentLimit ==> r == checkIns
    ensures r == checkIns[..|r|]
  {
    if |checkIns| <= RecentLimit then checkIns else checkIns[..RecentLimit]
  }

  /** The page for the active event (if any) and its check-ins. */
  function DashboardPage(event: Option<Event>, checkIns: seq<CheckIn>, formatCount: int -> string): (v: View)
    ensures v.EmptyState? <==> event.None?
    ensures v.Figures? ==>
      var total := event.value.totalSeats;
      && v.checkInCount == |checkIns|
      && v.seatsRemaining + v.checkInCount == total
      && (v.isOverCapacity <==> |checkIns| > total)
      && v.remainingShown >= 0
      && (|checkIns| >= total ==> v.remainingShown == 0)
      && (|checkIns| < total ==> v.remainingShown == v.seatsRemaining)
      && v.status in {Overbooked, Good} && (v.status == Overbooked <==> v.isOverCapacity)
      && v.capacityAlert == v.isOverCapacity
      && v.remainingNote == (if v.isOverCapacity then "Over capacity"
                             else formatCount(v.seatsRemaining) + " seats left")
      && v.recent == RecentCheckIns(checkIns)
  {
    match event
    case None => EmptyState
    case Some(e) =>
      var count := |checkIns|;
      var remaining := e.totalSeats - count;
      var over := count > e.totalSeats;
      Figures(
        count,
        remaining,
        over,
        if remaining > 0 then remaining else 0,
        if over then "Over capacity" else formatCount(remaining) + " seats left",
        if over then Overbooked else Good,
        over,
        RecentCheckIns(checkIns))
  }

  /** One more admission through the scanner takes one seat off the shown
      remainder while any is left, and never lifts an overbooked status. */
  lemma AdmissionTakesASeat(db: Store, decodedText: string, now: int, formatCount: int -> string)
    requires db.event.Some?
    ensures ProcessDecodedText(db, decodedText, now).result.success ==>
      var before := DashboardPage(db.event, db.checkIns, formatCount);
      var after := DashboardPage(db.event, ProcessDecodedText(db, decodedText, now).db.checkIns, formatCount);
      && after.checkInCount == before.checkInCount + 1
      && after.remainingShown == (if before.remainingShown > 0 then before.remainingShown - 1 else 0)
      && (before.isOverCapacity ==> after.isOverCapacity)
  {
  }
}
