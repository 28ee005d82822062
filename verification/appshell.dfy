/**
 The page header of the application shell (`getHeaderTitle`): a fixed title
 for each known route, "Your Ticket" under `/display-qr`, and the product
 name otherwise.
 */
module AppShell {
  import opened Js

  const DisplayQrPrefix: string := "/display-qr"

  /** The known routes and their titles. */
  const FixedTitles: map<string, string> := map[
    "/" := "Event Dashboard",
    "/check-in-log" := "Check-in Log",
    "/import" := "Import Event",
    "/scan" := "Scan Ticket",
    "/generate-qr" := "Generate Ticket",
    "/seat-availability" := "Seat Availability Tool"
  ]

  /** `getHeaderTitle`. */
  function HeaderTitle(pathname: string): (title: string)
    ensures |title| > 0
    ensures pathname in FixedTitles ==> title == FixedTitles[pathname]
    ensures pathname !in FixedTitles && StartsWith(pathname, DisplayQrPrefix) ==> title == "Your Ticket"
    ensures pathname !in FixedTitles && !StartsWith(pathname, DisplayQrPrefix) ==> title == "SwiftCheck"
  {
    if pathname == "/" then "Event Dashboard"
    else if pathname == "/check-in-log" then "Check-in Log"
    else if pathname == "/import" then "Import Event"
    else if pathname == "/scan" then "Scan Ticket"
    else if pathname == "/generate-qr" then "Generate Ticket"
    else if pathname == "/seat-availability" then "Seat Availability Tool"
    else if StartsWith(pathname, DisplayQrPrefix) then "Your Ticket"
    else "SwiftCheck"
  }

  /** Each title names one kind of path, in both directions: a fixed title
      comes only from its own route, "Your Ticket" exactly from paths under
      `/display-qr`, and "SwiftCheck" exactly from everything else. */
  lemma TitleIdentifiesPath(pathname: string)
    ensures forall route :: route in FixedTitles ==>
      (HeaderTitle(pathname) == FixedTitles[route] <==> pathname == route)
    ensures HeaderTitle(pathname) == "Your Ticket" <==> StartsWith(pathname, DisplayQrPrefix)
    ensures HeaderTitle(pathname) == "SwiftCheck"
        <==> pathname !in FixedTitles && !StartsWith(pathname, DisplayQrPrefix)
  {
    if StartsWith(pathname, DisplayQrPrefix) {
      assert pathname[1] == DisplayQrPrefix[1] == 'd';
      assert pathname !in FixedTitles;
    }
  }
}
