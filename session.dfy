/** The session state that `main` keeps between reruns, and the user actions
    that change it: the waypoint list (add, remove, cancel, coordinate mode),
    choosing a route, and "Get Route", which geocodes the places in order,
    stops at the first one not found, asks the router for routes and stores
    them sorted by duration. */
module Session {
  import opened Wrappers
  import opened Routing

  /** What "Get Route" starts from: the start and end place names, or the two
      coordinates typed in coordinate mode. */
  datatype TripInput =
    | ByPlaceName(startPlace: string, endPlace: string)
    | ByCoordinates(startCoord: Coordinate, endCoord: Coordinate)

  /** The messages `main` itself shows on "Get Route". */
  datatype Notice = PlaceNotFound(place: string) | NeedStartAndEnd | NoRoutesFound

  /** The outcome of geocoding a list of places. */
  datatype Geocoded = Found(coords: seq<Coordinate>) | NotFound(place: string)

  /** `get_coords`: an empty name is never looked up; otherwise the geocoding
      service answers with a coordinate or nothing. */
  function Geocode(geocoder: string -> Option<Coordinate>, place: string): Option<Coordinate> {
    if place == "" then None else geocoder(place)
  }

  /** Geocoding the places in order, giving up at the first one not found. */
  function GeocodeAll(geocoder: string -> Option<Coordinate>, places: seq<string>): Geocoded
    decreases |places|
  {
    if places == [] then Found([])
    else
      match Geocode(geocoder, places[0])
      case None => NotFound(places[0])
      case Some(c) =>
        match GeocodeAll(geocoder, places[1..])
        case Found(cs) => Found([c] + cs)
        case NotFound(p) => NotFound(p)
  }

  /** All places are found exactly when each one is, and then the coordinates
      are theirs, one per place, in order. */
  lemma {:induction false} GeocodeAllFound(geocoder: string -> Option<Coordinate>, places: seq<string>)
    ensures GeocodeAll(geocoder, places).Found?
        <==> forall i :: 0 <= i < |places| ==> Geocode(geocoder, places[i]).Some?
    ensures var g := GeocodeAll(geocoder, places);
      g.Found? ==> |g.coords| == |places|
                   && forall i :: 0 <= i < |places| ==> Geocode(geocoder, places[i]) == Some(g.coords[i])
    decreases |places|
  {
    if places != [] {
      GeocodeAllFound(geocoder, places[1..]);
      assert forall i :: 1 <= i < |places| ==> places[i] == places[1..][i - 1];
    }
  }

  /** The place reported is the first one not found. */
  lemma {:induction false} GeocodeAllFirstFailure(geocoder: string -> Option<Coordinate>, places: seq<string>, k: nat)
    requires k < |places| && Geocode(geocoder, places[k]).None?
    requires forall j :: 0 <= j < k ==> Geocode(geocoder, places[j]).Some?
    ensures GeocodeAll(geocoder, places) == NotFound(places[k])
    decreases k
  {
    if k > 0 {
      assert Geocode(geocoder, places[0]).Some?;
      GeocodeAllFirstFailure(geocoder, places[1..], k - 1);
    }
  }

  /** Places after the first failure are never looked at: two geocoders that
      agree up to it give the same outcome. */
  lemma GeocodeStopsAtFirstFailure(g1: string -> Option<Coordinate>, g2: string -> Option<Coordinate>,
                                   places: seq<string>, k: nat)
    requires k < |places| && Geocode(g1, places[k]).None?
    requires forall j :: 0 <= j < k ==> Geocode(g1, places[j]).Some?
    requires forall j :: 0 <= j <= k ==> Geocode(g1, places[j]) == Geocode(g2, places[j])
    ensures GeocodeAll(g1, places) == GeocodeAll(g2, places) == NotFound(places[k])
  {
    GeocodeAllFirstFailure(g1, places, k);
    GeocodeAllFirstFailure(g2, places, k);
  }

  /** The place names saved for the map: start, waypoints, end; or the generic
      names of coordinate mode. */
  function TripPlaces(input: TripInput, destinations: seq<string>): seq<string> {
    match input
    case ByPlaceName(s, e) => [s] + destinations + [e]
    case ByCoordinates(_, _) => ["Start", "End"]
  }

  function Locate(input: TripInput, destinations: seq<string>, geocoder: string -> Option<Coordinate>): Geocoded {
    match input
    case ByPlaceName(_, _) => GeocodeAll(geocoder, TripPlaces(input, destinations))
    case ByCoordinates(s, e) => Found([s, e])
  }

  // ------------------------------------------------------------------ state

  /** The fields of `st.session_state` this model keeps. */
  datatype SessionState = SessionState(
    routes: seq<Route>,
    selectedRouteIndex: nat,
    allCoords: seq<Coordinate>,
    allPlaces: seq<string>,
    destinations: seq<string>,
    showAddDestinationInput: bool)

  /** Whenever routes are shown, the selected index names one of them and
      there are coordinates for the start and end markers. */
  predicate ValidState(st: SessionState) {
    st.routes != [] ==> st.selectedRouteIndex < |st.routes| && |st.allCoords| >= 2
  }

  /** The map labels coordinate i with place name i, so while routes are shown
      there must be one saved name per saved coordinate. */
  predicate Aligned(st: SessionState) {
    st.routes != [] ==> |st.allPlaces| == |st.allCoords|
  }

  datatype Submission = Submission(state: SessionState, notices: seq<Notice>)

  /** "Get Route", as the source does it. The place names are saved before any
      geocoding; routes, selected index and coordinates change only when the
      router is called (at least two coordinates), and the coordinates only
      when it returns routes. */
  function Submit(st: SessionState, input: TripInput, alternatives: bool,
                  geocoder: string -> Option<Coordinate>,
                  router: (string, bool) -> Option<seq<Route>>): Submission
  {
    var placed := st.(allPlaces := TripPlaces(input, st.destinations));
    var located := Locate(input, st.destinations, geocoder);
    var coords := if located.Found? then located.coords else [];
    var notices := if located.NotFound? then [PlaceNotFound(located.place)] else [];
    if |coords| >= 2 then
      match FetchRoutes(router, coords, alternatives)
      case Some(rs) =>
        Submission(placed.(routes := SortByDuration(rs), selectedRouteIndex := 0, allCoords := coords), notices)
      case None =>
        Submission(placed.(routes := []), notices + [NoRoutesFound])
    else
      Submission(placed, notices + [NeedStartAndEnd])
  }

  /** Whether "Get Route" ends with routes from the router. */
  predicate Routed(st: SessionState, input: TripInput, alternatives: bool,
                   geocoder: string -> Option<Coordinate>,
                   router: (string, bool) -> Option<seq<Route>>)
  {
    var located := Locate(input, st.destinations, geocoder);
    located.Found? && |located.coords| >= 2 && FetchRoutes(router, located.coords, alternatives).Some?
  }

  lemma LocateFound(input: TripInput, destinations: seq<string>, geocoder: string -> Option<Coordinate>)
    ensures var located := Locate(input, destinations, geocoder);
      located.Found? ==> |located.coords| == |TripPlaces(input, destinations)| >= 2
  {
    if input.ByPlaceName? {
      GeocodeAllFound(geocoder, TripPlaces(input, destinations));
    }
  }

  /** "Get Route" keeps the session valid and never touches the waypoint list. */
  lemma SubmitKeepsValid(st: SessionState, input: TripInput, alternatives: bool,
                         geocoder: string -> Option<Coordinate>,
                         router: (string, bool) -> Option<seq<Route>>)
    requires ValidState(st)
    ensures var s := Submit(st, input, alternatives, geocoder, router).state;
      && ValidState(s)
      && s.destinations == st.destinations
      && s.showAddDestinationInput == st.showAddDestinationInput
  {
    var located := Locate(input, st.destinations, geocoder);
    var sub := Submit(st, input, alternatives, geocoder, router);
    if Routed(st, input, alternatives, geocoder, router) {
      var rs := FetchRoutes(router, located.coords, alternatives).value;
      assert sub.state.routes == SortByDuration(rs);
      assert sub.state.allCoords == located.coords;
      SortKeepsLength(rs);
    } else {
      assert sub.state.routes == [] || sub.state.routes == st.routes;
      assert sub.state.allCoords == st.allCoords;
    }
  }

  lemma SortKeepsLength(rs: seq<Route>)
    ensures |SortByDuration(rs)| == |rs|
  {
    assert |multiset(SortByDuration(rs))| == |multiset(rs)|;
  }

  /** When a place is not found, no routing call is made (the router does not
      matter) and the routes, the selection and the coordinates stay as they
      were; only the place names are replaced. The first place not found is
      reported, followed by the request for a start and an end. */
  lemma SubmitGeocodeFailure(st: SessionState, startPlace: string, endPlace: string, alternatives: bool,
                             geocoder: string -> Option<Coordinate>,
                             router: (string, bool) -> Option<seq<Route>>,
                             otherRouter: (string, bool) -> Option<seq<Route>>, k: nat)
    requires var places := [startPlace] + st.destinations + [endPlace];
      && k < |places| && Geocode(geocoder, places[k]).None?
      && forall j :: 0 <= j < k ==> Geocode(geocoder, places[j]).Some?
    ensures var input := ByPlaceName(startPlace, endPlace);
      var places := [startPlace] + st.destinations + [endPlace];
      var sub := Submit(st, input, alternatives, geocoder, router);
      && sub == Submit(st, input, alternatives, geocoder, otherRouter)
      && sub.state == st.(allPlaces := places)
      && sub.notices == [PlaceNotFound(places[k]), NeedStartAndEnd]
  {
    GeocodeAllFirstFailure(geocoder, [startPlace] + st.destinations + [endPlace], k);
  }

  /** When the router returns routes, they are stored sorted by duration
      (stably, a missing duration last), the first is selected, and the
      coordinates are the places' coordinates in order. */
  lemma SubmitRouted(st: SessionState, input: TripInput, alternatives: bool,
                     geocoder: string -> Option<Coordinate>,
                     router: (string, bool) -> Option<seq<Route>>)
    requires Routed(st, input, alternatives, geocoder, router)
    ensures var sub := Submit(st, input, alternatives, geocoder, router);
      var coords := Locate(input, st.destinations, geocoder).coords;
      var rs := FetchRoutes(router, coords, alternatives).value;
      && sub.notices == []
      && sub.state.selectedRouteIndex == 0
      && sub.state.allCoords == coords
      && |sub.state.allPlaces| == |coords|
      && SortedByDuration(sub.state.routes)
      && multiset(sub.state.routes) == multiset(rs) && sub.state.routes != []
      && (forall d :: WithDuration(sub.state.routes, d) == WithDuration(rs, d))
      && sub.state.destinations == st.destinations
  {
    var coords := Locate(input, st.destinations, geocoder).coords;
    var rs := FetchRoutes(router, coords, alternatives).value;
    LocateFound(input, st.destinations, geocoder);
    forall d ensures WithDuration(SortByDuration(rs), d) == WithDuration(rs, d) {
      SortIsStable(rs, d);
    }
    SortKeepsLength(rs);
  }

  /** When every place is found but the router returns no route, the routes
      are cleared; the selection and the coordinates stay as they were. */
  lemma SubmitNoRoute(st: SessionState, input: TripInput, alternatives: bool,
                      geocoder: string -> Option<Coordinate>,
                      router: (string, bool) -> Option<seq<Route>>)
    requires Locate(input, st.destinations, geocoder).Found?
    requires !Routed(st, input, alternatives, geocoder, router)
    ensures var sub := Submit(st, input, alternatives, geocoder, router);
      && sub.state == st.(allPlaces := TripPlaces(input, st.destinations), routes := [])
      && sub.notices == [NoRoutesFound]
  {
    LocateFound(input, st.destinations, geocoder);
  }

  // -------------------------------------------------------------- finding

  /** As written, a trip with two waypoints followed by a "Get Route" whose end
      field is empty leaves the old routes and their four coordinates on
      screen next to two place names. */
  lemma SubmitMisalignsPlaces(st: SessionState, startPlace: string, alternatives: bool,
                              geocoder: string -> Option<Coordinate>,
                              router: (string, bool) -> Option<seq<Route>>)
    requires st.routes != [] && |st.allCoords| == 4 && |st.allPlaces| == 4 && st.destinations == []
    ensures Aligned(st)
    ensures var s := Submit(st, ByPlaceName(startPlace, ""), alternatives, geocoder, router).state;
      s.routes == st.routes && |s.allPlaces| == 2 && |s.allCoords| == 4 && !Aligned(s)
  {
    var places := [startPlace] + st.destinations + [""];
    assert places == [startPlace, ""];
    if Geocode(geocoder, startPlace).None? {
      GeocodeAllFirstFailure(geocoder, places, 0);
    } else {
      GeocodeAllFirstFailure(geocoder, places, 1);
    }
  }

  /** "Get Route" with the place names saved together with the coordinates,
      only when routes are stored, as the all-or-nothing update intends. */
  function SubmitCorrected(st: SessionState, input: TripInput, alternatives: bool,
                           geocoder: string -> Option<Coordinate>,
                           router: (string, bool) -> Option<seq<Route>>): Submission
  {
    var sub := Submit(st, input, alternatives, geocoder, router);
    if Routed(st, input, alternatives, geocoder, router) then sub
    else Submission(sub.state.(allPlaces := st.allPlaces), sub.notices)
  }

  /** The corrected update keeps the session valid and keeps one place name
      per coordinate while routes are shown. */
  lemma SubmitCorrectedKeepsAligned(st: SessionState, input: TripInput, alternatives: bool,
                                    geocoder: string -> Option<Coordinate>,
                                    router: (string, bool) -> Option<seq<Route>>)
    requires ValidState(st) && Aligned(st)
    ensures var s := SubmitCorrected(st, input, alternatives, geocoder, router).state;
      ValidState(s) && Aligned(s)
  {
    SubmitKeepsValid(st, input, alternatives, geocoder, router);
    if Routed(st, input, alternatives, geocoder, router) {
      SubmitRouted(st, input, alternatives, geocoder, router);
    }
  }

  // --------------------------------------------------------- waypoint list

  /** `list.pop(i)`: the list without its entry at index i. */
  function RemoveAt(s: seq<string>, i: nat): (r: seq<string>)
    requires i < |s|
    ensures |r| == |s| - 1
    ensures forall j :: 0 <= j < i ==> r[j] == s[j]
    ensures forall j :: i <= j < |r| ==> r[j] == s[j + 1]
    ensures multiset(r) + multiset{s[i]} == multiset(s)
  {
    assert s == s[..i] + [s[i]] + s[i + 1..];
    s[..i] + s[i + 1..]
  }

  // ---------------------------------------------------------------- class

  class Session {
    var routes: seq<Route>
    var selectedRouteIndex: nat
    var allCoords: seq<Coordinate>
    var allPlaces: seq<string>
    var destinations: seq<string>
    var showAddDestinationInput: bool

    function Snapshot(): SessionState
      reads this
    {
      SessionState(routes, selectedRouteIndex, allCoords, allPlaces, destinations, showAddDestinationInput)
    }

    predicate Valid()
      reads this
    {
      ValidState(Snapshot())
    }

    /** The defaults set when the session starts: no routes, index 0, no waypoints,
        the add-input hidden. */
    constructor ()
      ensures Valid()
      ensures Snapshot() == SessionState([], 0, [], [], [], false)
    {
      routes := [];
      selectedRouteIndex := 0;
      allCoords := [];
      allPlaces := [];
      destinations := [];
      showAddDestinationInput := false;
    }

    /** "Add Destination": show the input for a new waypoint. */
    method OpenAddInput()
      requires Valid()
      modifies this
      ensures Valid()
      ensures Snapshot() == old(Snapshot()).(showAddDestinationInput := true)
    {
      showAddDestinationInput := true;
    }

    /** "Add": a non-empty name is appended and the input hidden; an empty
        name changes nothing (a warning is shown). */
    method ConfirmAdd(name: string) returns (added: bool)
      requires Valid()
      modifies this
      ensures Valid()
      ensures added <==> name != ""
      ensures Snapshot() == if added
        then old(Snapshot()).(destinations := old(destinations) + [name], showAddDestinationInput := false)
        else old(Snapshot())
    {
      added := name != "";
      if added {
        destinations := destinations + [name];
        showAddDestinationInput := false;
      }
    }

    /** "Cancel": hide the input, list unchanged. */
    method CancelAdd()
      requires Valid()
      modifies this
      ensures Valid()
      ensures Snapshot() == old(Snapshot()).(showAddDestinationInput := false)
    {
      showAddDestinationInput := false;
    }

    /** The delete button of entry i. */
    method RemoveDestination(i: nat)
      requires Valid() && i < |destinations|
      modifies this
      ensures Valid()
      ensures Snapshot() == old(Snapshot()).(destinations := RemoveAt(old(destinations), i))
    {
      destinations := destinations[..i] + destinations[i + 1..];
    }

    /** Coordinate mode has no waypoints: the list is emptied. */
    method UseCoordinateMode()
      requires Valid()
      modifies this
      ensures Valid()
      ensures Snapshot() == old(Snapshot()).(destinations := [])
    {
      destinations := [];
    }

    /** The route chooser, offered only over the stored routes. */
    method SelectRoute(i: nat)
      requires Valid() && i < |routes|
      modifies this
      ensures Valid()
      ensures Snapshot() == old(Snapshot()).(selectedRouteIndex := i)
    {
      selectedRouteIndex := i;
    }

    /** "Get Route". */
    method GetRoute(input: TripInput, alternatives: bool,
                    geocoder: string -> Option<Coordinate>,
                    router: (string, bool) -> Option<seq<Route>>) returns (notices: seq<Notice>)
      requires Valid()
      modifies this
      ensures Valid()
      ensures Submission(Snapshot(), notices) == Submit(old(Snapshot()), input, alternatives, geocoder, router)
    {
      ghost var before := Snapshot();
      var coords: seq<Coordinate> := [];
      notices := [];
      match input {
        case ByPlaceName(startPlace, endPlace) =>
          var places := [startPlace] + destinations + [endPlace];
          allPlaces := places;
          var validTrip := true;
          var i := 0;
          while i < |places|
            invariant 0 <= i <= |places| && validTrip && notices == []
            invariant |coords| == i
            invariant forall j :: 0 <= j < i ==> Geocode(geocoder, places[j]) == Some(coords[j])
          {
            var c := Geocode(geocoder, places[i]);
            if c.Some? {
              coords := coords + [c.value];
            } else {
              notices := [PlaceNotFound(places[i])];
              validTrip := false;
              break;
            }
            i := i + 1;
          }
          if validTrip {
            GeocodeAllFound(geocoder, places);
            assert GeocodeAll(geocoder, places) == Found(coords);
          } else {
            GeocodeAllFirstFailure(geocoder, places, i);
            coords := [];
          }
        case ByCoordinates(startCoord, endCoord) =>
          coords := [startCoord, endCoord];
          allPlaces := ["Start", "End"];
      }
      if |coords| >= 2 {
        var fetched := FetchRoutes(router, coords, alternatives);
        if fetched.Some? {
          routes := SortByDuration(fetched.value);
          selectedRouteIndex := 0;
          allCoords := coords;
        } else {
          routes := [];
          notices := notices + [NoRoutesFound];
        }
      } else {
        notices := notices + [NeedStartAndEnd];
      }
      SubmitKeepsValid(before, input, alternatives, geocoder, router);
    }
  }
}
