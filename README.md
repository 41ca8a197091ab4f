# Car navigation core, modelled in Dafny

This project models the sequential logic of a Streamlit car-navigation app
(`app.py`). In that app the user enters a start, optional waypoints and an end,
either as place names or as coordinates. The app geocodes the places, asks a
routing service for one or more routes and shows them. The user picks a route
and sees a summary, a turn-by-turn table and, optionally, fuel stations near
the route.

The model covers the parts of the app that are plain logic:

- `duration.dfy`, module `Duration`: `format_duration`, with seconds as an
  integer. It also has a reader for the text it produces, which gives a
  round-trip lemma.
- `routing.dfy`, module `Routing`: the route records, the `lon,lat;lon,lat`
  path string that `get_route` sends, and the "no route" cases of `get_route`.
  It also has the stable sort by duration that `main` applies, where a missing
  duration counts as infinity.
- `itinerary.dfy`, module `Itinerary`: `create_route_details_df`, with the
  instruction precedence of each step and the nested leg/step loop. That loop
  is a method proved against a flattening function.
- `fuel_query.dfy`, module `FuelQuery`: the selection of path points for the
  fuel-station query (`points[::len // 50]` above 50 points).
- `session.dfy`, module `Session`: the session record and the actions that
  change it.
  - Waypoints: add, delete, cancel, and clearing in coordinate mode.
  - Choosing a route.
  - "Get Route", as the class `Session` whose methods update its fields. Each
    method's ensures gives the whole new state in terms of the old one;
    `GetRoute` is proved equal to the pure `Submit` function on a
    `SessionState` value.
- `text.dfy` and `wrappers.dfy`: decimal digits, `join`/`split`, `strip`, and
  `Option`.

External services are parameters of the model:
- the geocoder is a function `string -> Option<Coordinate>`;
- the router is a function `(string, bool) -> Option<seq<Route>>`.

Decoded polyline points are a plain sequence.

## Model

| member | source | states |
|---|---|---|
| Duration.FormatDuration | app.py:100-109 | the text of a count of seconds: "0s" for none or zero, otherwise the divmod units that are positive (the seconds also when nothing else was written) as "<H>h <M>m <S>s", stripped; its properties are the lemmas below, and `ParseDuration` reads it back |
| Duration.ToClockDecomposes | app.py:103-104 | the two divmods give hours, minutes in [0,60) and seconds in [0,60) with hours*3600 + minutes*60 + seconds equal to the count; hours are negative exactly when the count is |
| Duration.FormatDurationZero | app.py:102 | None and 0 both give exactly "0s" |
| Duration.FormatDurationUnits | app.py:105-108 | for a non-zero count, the h unit appears iff hours > 0, the m unit iff minutes > 0, and the s unit iff seconds > 0 or neither of the others was written |
| Duration.FormatDurationTrimmed | app.py:105-109 | the text is never empty, has no whitespace at either end, and never has two spaces in a row |
| Duration.FormatDurationRoundTrip | app.py:100-109 | for a count of zero or more, reading the units back from the text gives the divmod clock, and so the original count |
| Duration.FormatDurationReadsBack | app.py:100-109 | for any integer count, reading back gives the divmod clock except that negative hours (which are not written) read as 0 |
| Duration.FormatDurationExample3725 | app.py:100-109 | 3725 seconds is "1h 2m 5s" |
| Duration.FormatDurationExample3600 | app.py:100-109 | 3600 seconds is "1h" (zero minutes and seconds are dropped) |
| Duration.FormatDurationExample65 | app.py:100-109 | 65 seconds is "1m 5s" |
| Duration.FormatDurationExample45 | app.py:100-109 | 45 seconds is "45s" |
| Text.DecimalRoundTrip | app.py:106-108 | the decimal text of a natural number (as `int(...)` inside an f-string prints it) is non-empty, all digits, without a leading zero, and reads back as the number |
| Text.SplitJoin | app.py:44 | splitting a join on the separator gives back the parts when no part holds the separator |
| Text.JoinSplit | app.py:44 | joining the fields of a split gives back the text |
| Routing.Fields | app.py:44 | one `lon,lat` field per coordinate, in input order |
| Routing.PathString | app.py:44 | the `lon,lat` fields of the coordinates joined by ';'; `PathStringFields` proves it splits back into them |
| Routing.PathStringFields | app.py:44 | the path string splits on ';' into exactly one field per coordinate, in order, and each field splits on ',' into its longitude and latitude |
| Routing.FetchRoutes | app.py:40-55 | the answer is a non-empty route list exactly as the router sent it for this path string and alternatives flag; it is None when the router failed or sent an empty list |
| Routing.InsertByDuration | app.py:300 | inserting a route adds exactly that route to the multiset of routes |
| Routing.InsertKeepsSorted | app.py:300 | inserting into a list sorted by duration (missing duration last) keeps it sorted |
| Routing.SortByDuration | app.py:300 | the result is sorted ascending by duration with a missing duration last, and is a permutation of the input |
| Routing.SortIsStable | app.py:300 | for every duration, the routes with that duration keep their relative order (the sort is stable) |
| Routing.InsertKeepsOthersInOrder | app.py:300 | inserting a route leaves the order of the routes with any other duration unchanged |
| Routing.MissingDurationsLast | app.py:300 | after sorting, no route with a duration comes after one without |
| Routing.SortExample | app.py:300 | durations [300, 100, 100, 50] are ordered 50, the first 100, the second 100, 300 |
| Itinerary.Instruction | app.py:165-178 | the instruction of one step by the source's precedence (Depart, New Name, Arrive before the last leg, Arrive on the last leg, any other type); each case is stated by the lemmas below |
| Itinerary.CreateRouteDetails | app.py:154-188 | one row per step over all legs, numbered 1..N without gaps across legs, row k being the instruction and time of the k-th step in leg-then-step order |
| Itinerary.FlattenLength | app.py:157-186 | the listed steps of the first n legs number the sum of those legs' step counts |
| Itinerary.FlattenAt | app.py:157-186 | step j of leg i is listed at position (steps of legs before i) + j |
| Itinerary.FlattenPrefix | app.py:157-186 | the steps of the first m legs are listed before any step of a later leg |
| Itinerary.FlattenInLegOrder | app.py:158-159 | each listed step belongs to the leg it is listed with, and leg indices never decrease down the table |
| Itinerary.InstructionIgnoresLegUnlessArrive | app.py:165-178 | only an "Arrive" step's instruction depends on its leg's position in the route |
| Itinerary.InstructionTextOnlyOnFinalArrival | app.py:170-173 | the router's instruction text matters only for an "Arrive" step on the last leg |
| Itinerary.WaypointArrivalNumbered | app.py:170-171 | arriving at the end of leg i < last reads "You have arrived at Waypoint " + digits + ".", the digits reading back as i + 1 |
| Itinerary.FinalArrivalInstruction | app.py:172-173 | arriving on the last leg gives the router's text, or the fixed final-destination sentence when there is none |
| Itinerary.RoadNameShown | app.py:166-178 | a step that is not an arrival and has a road name ends with that name |
| Itinerary.GenericInstruction | app.py:174-178 | other maneuvers start with the type, are the bare type when there is neither modifier nor road, and are empty only when type, modifier and road all are |
| Itinerary.GenericInstructionWords | app.py:174-178 | any other maneuver is the type, the modifier and "onto <road>", in that order, joined by single spaces, with each empty part left out |
| Itinerary.GenericInstructionExamples | app.py:174-178 | "Turn Left onto Main St", "Turn onto Main St" and "Turn Left" |
| Itinerary.InstructionExamples | app.py:165-178 | "Depart on Main St", "Depart", "You have arrived at Waypoint 1.", the router text "X", the final-destination sentence, and "Continue onto " for a nameless road |
| FuelQuery.Stride | app.py:68 | `s[::step]`; its indices and length are stated by `StrideIndices` and `StrideLength` |
| FuelQuery.Downsample | app.py:65-68 | the path as it is up to 50 points, otherwise `points[::len // 50]`; stated by `ShortPathUnchanged` and `LongPathStrided` |
| FuelQuery.StrideIndices | app.py:68 | `s[::step]` keeps exactly the elements at indices 0, step, 2*step, ... in order, and as many as there are such indices below \|s\| |
| FuelQuery.StrideLength | app.py:68 | `s[::step]` has ⌈\|s\|/step⌉ elements |
| FuelQuery.ShortPathUnchanged | app.py:65-66 | a path of at most 50 points is used as it is |
| FuelQuery.LongPathStrided | app.py:65-68 | above 50 points, the step is n // 50 >= 1, the result keeps the points at multiples of the step in order, starts with the first point, and has ⌈n/step⌉ points, between 50 and 99 |
| FuelQuery.QueryPoints | app.py:60-68 | an empty decoded path gives no query; otherwise the query has between 1 and n points and starts with the first point of the path |
| FuelQuery.Example120 | app.py:65-68 | 120 points give every second point, 60 in all, ending with point 118 |
| FuelQuery.Example99 | app.py:65-68 | 99 points are all kept (the step is 1) |
| Session.Geocode | app.py:23-38 | an empty place name is never looked up and is not found; any other name gets the geocoder's answer |
| Session.GeocodeAll | app.py:283-291 | geocodes the places in order and stops at the first one not found; characterised by `GeocodeAllFound` and `GeocodeAllFirstFailure` |
| Session.GeocodeAllFound | app.py:283-286 | geocoding the places succeeds iff every place is found, and then yields one coordinate per place in order, each the geocoder's answer for it |
| Session.GeocodeAllFirstFailure | app.py:283-290 | the failure names the first place not found |
| Session.GeocodeStopsAtFirstFailure | app.py:283-290 | places after the first failure are never looked at: geocoders that agree up to it give the same outcome |
| Session.Submit | app.py:277-308 | the session and notices after "Get Route": place names saved first, then geocoding, then routing only with two or more coordinates; its outcomes are stated by the `Submit*` lemmas and `Session.Session.GetRoute` is proved equal to it |
| Session.SubmitKeepsValid | app.py:277-308 | "Get Route" keeps the selected index inside the route list and at least two coordinates while routes exist, and leaves the waypoint list and add-input flag unchanged |
| Session.SubmitGeocodeFailure | app.py:280-308 | when place k is the first not found, the router is never consulted, routes, selection and coordinates are unchanged, the place names are replaced, and the notices are "could not find place k" then "need start and end" |
| Session.SubmitRouted | app.py:296-303 | when the router returns routes they are stored sorted, stable and as a permutation, index 0 is selected, the coordinates are the geocoded ones (one per place), and there is no notice |
| Session.SubmitNoRoute | app.py:296-306 | when every place is found but the router returns nothing, the routes are cleared, everything else except the place names is unchanged, and "no routes found" is shown |
| Session.SubmitMisalignsPlaces | app.py:280-308 | after a trip with two waypoints, a "Get Route" with an empty end field keeps the old routes and four coordinates next to only two place names, which `create_map` (app.py lines 124-125) indexes past the end |
| Session.SubmitCorrected | app.py:277-308 | "Get Route" with the place names kept as they were unless routes are stored, otherwise the same as `Submit`; `SubmitCorrectedKeepsAligned` proves it keeps one name per coordinate |
| Session.SubmitCorrectedKeepsAligned | app.py:277-308 | with the place names saved only together with the coordinates, the session stays valid and keeps one name per coordinate while routes are shown |
| Session.RemoveAt | app.py:216 | `pop(i)` removes exactly entry i: entries before i stay, later ones shift down by one, and the multiset loses only that entry |
| Session.Session.constructor | app.py:11-20 | a new session has no routes, index 0, no coordinates, no places, no waypoints, and the add-input hidden (its flag is set on first use, app.py lines 220-221) |
| Session.Session.OpenAddInput | app.py:224-226 | the add-input is shown and nothing else changes |
| Session.Session.ConfirmAdd | app.py:234-241 | a non-empty name is appended and the input hidden; an empty name changes nothing |
| Session.Session.CancelAdd | app.py:244-245 | the add-input is hidden and the list is unchanged |
| Session.Session.RemoveDestination | app.py:215-216 | the waypoint list loses exactly entry i and nothing else changes |
| Session.Session.UseCoordinateMode | app.py:250-252 | the waypoint list becomes empty and nothing else changes |
| Session.Session.SelectRoute | app.py:316-318 | the selected index becomes the chosen route and nothing else changes |
| Session.Session.GetRoute | app.py:277-308 | the geocoding loop with its early exit, then the routing call, leave the session and notices exactly as `Submit` describes, and keep it valid |

## Left out

- HTTP calls to the geocoding, routing and Overpass services. The geocoder and the router are function parameters. Transport, HTTP and parse errors of the geocoder and router are the `None` answer; the Overpass error branches (504, other status, network) only choose the message shown.
- The Overpass query text and the `", "`-joined point string: plain templating of the downsampled points.
- Polyline decoding is a third-party library: decoded points are an input sequence.
- Streamlit widgets, `st.rerun`, messages as rendered text, and the folium map, markers, lines and bounds. The map's labelling of coordinate i with place name i is stated only as the alignment predicate.
- Floating point: distances in km, fuel needed and cost, ETA date arithmetic, map centre.
- Duration.FormatDuration: durations are integers; fractional seconds, as OSRM may send, are not modelled. For example, the source shows 60.5 seconds as "1m 0s" (the 0.5 seconds are positive but print as 0), which the integer model cannot produce.
- Session.Submit: the error messages that `get_coords` and `get_route` show themselves on a transport, HTTP or parse error (app.py:35, 37, 52, 54) are not among the notices; only the messages `main` shows are.
- Session.SubmitGeocodeFailure: when the place fails because of a geocoder error rather than an empty answer, the source first shows "Error calling Nominatim API" or "Could not find coordinates" (app.py:35, 37); the notices list only the two messages `main` adds.
- Session.SubmitNoRoute: when the router fails with an error (OSRM answers "no route" with HTTP 400), the source first shows "Error calling OSRM API" or "Could not find a route" (app.py:52, 54); the notices list only "no routes found".
- Routing.Coordinate: coordinates are the text Python prints for the floats; float formatting is not modelled.
- Itinerary.Instruction: the maneuver type and modifier arrive already normalised; `replace('_', ' ').title()` and the `'unknown'` default for a missing type are not modelled.
- Itinerary.CreateRouteDetails: the distance column is left out (a float printed with two decimals).
- Reading `config.ini` and its fallback defaults.
- Session.Session.SelectRoute: the chooser is only shown for more than one route; the method accepts any index into the route list.
- The selected route's summary and the route chooser labels only format floats and call `format_duration`.

Behaviour of app.py worth knowing, which the model keeps:
- An empty place name is not rejected before any service call. `get_coords` answers "not found" for it without a request, so the trip is cancelled as a geocoding failure naming the empty place, followed by the "start and end" warning.
- A geocoding failure does not clear the route state. The previous routes, selection and coordinates stay, and the place names are replaced (see Findings).
- The downsampled path is not kept at or under 50 points. With step `n // 50`, anything from 50 to 99 points is kept (`FuelQuery.LongPathStrided`).
- The waypoint arrival text ends with a period.

## Findings

| source | as written | input that shows it | evidently intended | confidence | as-written member | corrected member |
|---|---|---|---|---|---|---|
| app.py:281-308 | the place names are saved before geocoding, but routes and coordinates are only replaced when routing succeeds; `create_map` then reads `place_names[i + 1]` for every inner coordinate | a trip with two waypoints is shown (4 coordinates, 4 names); the waypoints are removed and "Get Route" is pressed with an empty end field: 2 names against 4 coordinates, and `place_names[2]` is out of range | save the place names together with the coordinates, only when routes are stored | not executed | Session.SubmitMisalignsPlaces | Session.SubmitCorrected |
