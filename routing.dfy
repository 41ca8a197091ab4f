/** The routing client (`get_route`) and the ordering of the routes it returns:
    the coordinate path string sent to the router, the "no route" cases, and the
    stable sort by duration that `main` applies. */
module Routing {
  import opened Wrappers
  import opened Text

  /** The text of a longitude or latitude as Python prints a float: it never
      holds the two separators of the path string. */
  type Numeral = s: string | ',' !in s && ';' !in s

  /** A (longitude, latitude) pair, in the order the router expects. */
  datatype Coordinate = Coordinate(lon: Numeral, lat: Numeral)

  /** One step of a leg: the maneuver type and modifier (already normalised
      by `.replace('_', ' ').title()`), the road name ("" when absent), the
      router's own instruction text when it sent one, and the duration in seconds. */
  datatype Step = Step(maneuverType: string, modifier: string, roadName: string,
                       instruction: Option<string>, duration: int)

  /** One candidate route: its duration in seconds when the router gave one,
      and its legs, each a sequence of steps. */
  datatype Route = Route(duration: Option<int>, legs: seq<seq<Step>>)

  // ------------------------------------------------------------ the path string

  /** `f"{lon},{lat}"` */
  function Field(c: Coordinate): string {
    c.lon + "," + c.lat
  }

  function Fields(coords: seq<Coordinate>): (r: seq<string>)
    ensures |r| == |coords|
    ensures forall i :: 0 <= i < |coords| ==> r[i] == Field(coords[i])
  {
    seq(|coords|, i requires 0 <= i < |coords| => Field(coords[i]))
  }

  /** `";".join(f"{lon},{lat}" for lon, lat in coords_list)` */
  function PathString(coords: seq<Coordinate>): string {
    Join(Fields(coords), ';')
  }

  /** The path string has one ';'-separated field per coordinate, in input order,
      and each field splits on ',' into the longitude and the latitude. */
  lemma PathStringFields(coords: seq<Coordinate>)
    requires |coords| >= 1
    ensures Split(PathString(coords), ';') == Fields(coords)
    ensures forall i :: 0 <= i < |coords| ==> Split(Field(coords[i]), ',') == [coords[i].lon, coords[i].lat]
  {
    var fs := Fields(coords);
    forall i | 0 <= i < |fs| ensures ';' !in fs[i] {
      assert fs[i] == coords[i].lon + [','] + coords[i].lat;
    }
    SplitJoin(fs, ';');
    forall i | 0 <= i < |coords|
      ensures Split(Field(coords[i]), ',') == [coords[i].lon, coords[i].lat]
    {
      var c := coords[i];
      SplitAfterField(c.lon, ',', c.lat);
      SplitOfPlain(c.lat, ',');
      assert Field(c) == c.lon + [','] + c.lat;
    }
  }

  // ------------------------------------------------------------- fetching

  /** `get_route`: the router answers the path string with a route list, or
      with None for a transport or HTTP error or a malformed answer. An empty
      or missing route list is no route either. */
  function FetchRoutes(router: (string, bool) -> Option<seq<Route>>,
                       coords: seq<Coordinate>, alternatives: bool): (r: Option<seq<Route>>)
    ensures r.Some? ==> r.value != [] && router(PathString(coords), alternatives) == r
    ensures r.None? ==> router(PathString(coords), alternatives) in {None, Some([])}
  {
    var answer := router(PathString(coords), alternatives);
    if answer.Some? && answer.value != [] then answer else None
  }

  // --------------------------------------------------------------- ordering

  /** The sort key `r.get('duration', float('inf'))`: a missing duration is
      larger than every duration. */
  predicate DurationLe(a: Option<int>, b: Option<int>) {
    b.None? || (a.Some? && a.value <= b.value)
  }

  predicate SortedByDuration(rs: seq<Route>) {
    forall i, j :: 0 <= i < j < |rs| ==> DurationLe(rs[i].duration, rs[j].duration)
  }

  /** The routes of `rs` with duration `d`, in order. */
  function WithDuration(rs: seq<Route>, d: Option<int>): seq<Route>
    decreases |rs|
  {
    if rs == [] then []
    else (if rs[0].duration == d then [rs[0]] else []) + WithDuration(rs[1..], d)
  }

  /** Puts `r` in front of the first route whose duration is not smaller. */
  function InsertByDuration(r: Route, rs: seq<Route>): (res: seq<Route>)
    ensures multiset(res) == multiset(rs) + multiset{r}
    decreases |rs|
  {
    if rs == [] || DurationLe(r.duration, rs[0].duration) then [r] + rs
    else
      assert rs == [rs[0]] + rs[1..];
      [rs[0]] + InsertByDuration(r, rs[1..])
  }

  lemma {:induction false} InsertKeepsSorted(r: Route, rs: seq<Route>)
    requires SortedByDuration(rs)
    ensures SortedByDuration(InsertByDuration(r, rs))
    decreases |rs|
  {
    if rs == [] || DurationLe(r.duration, rs[0].duration) {
      assert forall j :: 0 <= j < |rs| ==> DurationLe(r.duration, rs[j].duration);
    } else {
      InsertKeepsSorted(r, rs[1..]);
      var tail := InsertByDuration(r, rs[1..]);
      forall k | 0 <= k < |tail| ensures DurationLe(rs[0].duration, tail[k].duration) {
        assert tail[k] in multiset(tail);
        if tail[k] != r {
          assert tail[k] in multiset(rs[1..]);
        }
      }
    }
  }

  /** Python's stable `list.sort(key=...)` on the routes: the result is in
      ascending order of duration and holds the same routes. */
  function SortByDuration(rs: seq<Route>): (res: seq<Route>)
    ensures SortedByDuration(res)
    ensures multiset(res) == multiset(rs)
    decreases |rs|
  {
    if rs == [] then []
    else
      assert rs == [rs[0]] + rs[1..];
      var tail := SortByDuration(rs[1..]);
      InsertKeepsSorted(rs[0], tail);
      InsertByDuration(rs[0], tail)
  }

  lemma {:induction false} InsertKeepsOthersInOrder(r: Route, rs: seq<Route>, d: Option<int>)
    ensures WithDuration(InsertByDuration(r, rs), d)
         == (if r.duration == d then [r] else []) + WithDuration(rs, d)
    decreases |rs|
  {
    if rs == [] || DurationLe(r.duration, rs[0].duration) {
      assert ([r] + rs)[1..] == rs;
    } else {
      var tail := InsertByDuration(r, rs[1..]);
      InsertKeepsOthersInOrder(r, rs[1..], d);
      assert ([rs[0]] + tail)[1..] == tail;
      assert rs[0].duration != r.duration;
    }
  }

  /** The sort is stable: the routes of any one duration keep their order. */
  lemma {:induction false} SortIsStable(rs: seq<Route>, d: Option<int>)
    ensures WithDuration(SortByDuration(rs), d) == WithDuration(rs, d)
    decreases |rs|
  {
    if rs != [] {
      SortIsStable(rs[1..], d);
      InsertKeepsOthersInOrder(rs[0], SortByDuration(rs[1..]), d);
    }
  }

  /** Routes without a duration come after every route that has one. */
  lemma MissingDurationsLast(rs: seq<Route>, i: nat, j: nat)
    requires i < j < |SortByDuration(rs)|
    requires SortByDuration(rs)[i].duration.None?
    ensures SortByDuration(rs)[j].duration.None?
  {
  }

  lemma SortExampleLastTwo(c: Route, d: Route)
    requires c == Route(Some(100), [[]]) && d == Route(Some(50), [])
    ensures SortByDuration([c, d]) == [d, c]
  {
    assert [d][1..] == [];
    assert SortByDuration([d]) == [d];
    assert InsertByDuration(c, [d]) == [d] + InsertByDuration(c, []);
    assert [c, d][1..] == [d];
  }

  lemma SortExampleLastThree(b: Route, c: Route, d: Route)
    requires b == Route(Some(100), []) && c == Route(Some(100), [[]]) && d == Route(Some(50), [])
    ensures SortByDuration([b, c, d]) == [d, b, c]
  {
    SortExampleLastTwo(c, d);
    assert [d, c][1..] == [c];
    assert InsertByDuration(b, [c]) == [b, c];
    assert [b, c, d][1..] == [c, d];
  }

  lemma InsertExample(a: Route, b: Route, c: Route, d: Route)
    requires a == Route(Some(300), []) && b == Route(Some(100), [])
    requires c == Route(Some(100), [[]]) && d == Route(Some(50), [])
    ensures InsertByDuration(a, [d, b, c]) == [d, b, c, a]
  {
    assert [c][1..] == [];
    assert InsertByDuration(a, [c]) == [c, a];
    assert [b, c][1..] == [c];
    assert InsertByDuration(a, [b, c]) == [b, c, a];
    assert [d, b, c][1..] == [b, c];
  }

  /** The order of the source's example: durations 300, 100, 100, 50 come out
      as 50, 100, 100, 300 with the two routes of 100 seconds in their old order. */
  lemma SortExample(a: Route, b: Route, c: Route, d: Route)
    requires a == Route(Some(300), []) && b == Route(Some(100), [])
    requires c == Route(Some(100), [[]]) && d == Route(Some(50), [])
    ensures SortByDuration([a, b, c, d]) == [d, b, c, a]
  {
    SortExampleLastThree(b, c, d);
    InsertExample(a, b, c, d);
    assert [a, b, c, d][1..] == [b, c, d];
  }
}
