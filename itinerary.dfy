/** `create_route_details_df`: the turn-by-turn table of a route. Legs are
    walked in order and the steps of each leg in order, one running step
    number across all legs; each step's instruction is chosen by a fixed
    precedence of maneuver types. */
module Itinerary {
  import opened Wrappers
  import opened Text
  import opened Duration
  import opened Routing

  const WaypointArrival := "You have arrived at Waypoint "
  const FinalArrival := "You have arrived at your final destination."

  /** The instruction of a step on leg `legIndex` of a route with `legCount` legs. */
  function Instruction(step: Step, legIndex: nat, legCount: nat): string {
    if step.maneuverType == "Depart" then
      if step.roadName != "" then "Depart on " + step.roadName else "Depart"
    else if step.maneuverType == "New Name" then
      "Continue onto " + step.roadName
    else if step.maneuverType == "Arrive" && legIndex < legCount - 1 then
      WaypointArrival + Decimal(legIndex + 1) + "."
    else if step.maneuverType == "Arrive" then
      step.instruction.GetOr(FinalArrival)
    else
      JoinWords([step.maneuverType, step.modifier]
                + (if step.roadName != "" then ["onto " + step.roadName] else []))
  }

  /** One row of the table; the distance column (a float printed with two
      decimals) is not part of this model. */
  datatype Row = Row(number: nat, instruction: string, time: string)

  /** A step together with the index of the leg it belongs to. */
  datatype Located = Located(leg: nat, step: Step)

  function LegSteps(legs: seq<seq<Step>>, i: nat): (r: seq<Located>)
    requires i < |legs|
    ensures |r| == |legs[i]|
    ensures forall j :: 0 <= j < |r| ==> r[j] == Located(i, legs[i][j])
  {
    seq(|legs[i]|, j requires 0 <= j < |legs[i]| => Located(i, legs[i][j]))
  }

  /** The steps of the first `n` legs, in leg-then-step order. */
  function FlattenUpTo(legs: seq<seq<Step>>, n: nat): seq<Located>
    requires n <= |legs|
  {
    if n == 0 then [] else FlattenUpTo(legs, n - 1) + LegSteps(legs, n - 1)
  }

  /** All steps of a route, in the order the table lists them. */
  function Flatten(legs: seq<seq<Step>>): seq<Located> {
    FlattenUpTo(legs, |legs|)
  }

  /** The number of steps over all legs. */
  function TotalSteps(legs: seq<seq<Step>>): nat {
    if legs == [] then 0 else TotalSteps(legs[..|legs| - 1]) + |legs[|legs| - 1]|
  }

  function RowFor(number: nat, at: Located, legCount: nat): Row {
    Row(number, Instruction(at.step, at.leg, legCount), FormatDuration(Some(at.step.duration)))
  }

  /** The table: one row per step, numbered 1, 2, ... across leg boundaries. */
  method CreateRouteDetails(route: Route) returns (rows: seq<Row>)
    ensures |rows| == |Flatten(route.legs)| == TotalSteps(route.legs)
    ensures forall k :: 0 <= k < |rows| ==> rows[k].number == k + 1
    ensures forall k :: 0 <= k < |rows| ==> rows[k] == RowFor(k + 1, Flatten(route.legs)[k], |route.legs|)
  {
    var legs := route.legs;
    rows := [];
    var totalSteps := 1;
    var legIndex := 0;
    while legIndex < |legs|
      invariant 0 <= legIndex <= |legs|
      invariant totalSteps == |rows| + 1
      invariant |rows| == |FlattenUpTo(legs, legIndex)|
      invariant forall k :: 0 <= k < |rows| ==> rows[k] == RowFor(k + 1, FlattenUpTo(legs, legIndex)[k], |legs|)
    {
      var leg := legs[legIndex];
      ghost var done := FlattenUpTo(legs, legIndex);
      ghost var here := LegSteps(legs, legIndex);
      var j := 0;
      while j < |leg|
        invariant 0 <= j <= |leg|
        invariant totalSteps == |rows| + 1
        invariant |rows| == |done| + j
        invariant forall k :: 0 <= k < |rows| ==> rows[k] == RowFor(k + 1, (done + here)[k], |legs|)
      {
        var step := leg[j];
        var instruction := Instruction(step, legIndex, |legs|);
        var row := Row(totalSteps, instruction, FormatDuration(Some(step.duration)));
        assert (done + here)[|rows|] == Located(legIndex, step);
        assert row == RowFor(|rows| + 1, (done + here)[|rows|], |legs|);
        rows := rows + [row];
        totalSteps := totalSteps + 1;
        j := j + 1;
      }
      assert FlattenUpTo(legs, legIndex + 1) == done + here;
      legIndex := legIndex + 1;
    }
    FlattenLength(legs, |legs|);
    assert legs[..|legs|] == legs;
  }

  // ----------------------------------------------------------- the row order

  lemma {:induction false} FlattenLength(legs: seq<seq<Step>>, n: nat)
    requires n <= |legs|
    ensures |FlattenUpTo(legs, n)| == TotalSteps(legs[..n])
    decreases n
  {
    if n > 0 {
      FlattenLength(legs, n - 1);
      assert legs[..n][..n - 1] == legs[..n - 1];
    }
  }

  /** Step `j` of leg `i` is listed right after the steps of the legs before it. */
  lemma {:induction false} FlattenAt(legs: seq<seq<Step>>, i: nat, j: nat)
    requires i < |legs| && j < |legs[i]|
    ensures TotalSteps(legs[..i]) + j < |Flatten(legs)|
    ensures Flatten(legs)[TotalSteps(legs[..i]) + j] == Located(i, legs[i][j])
  {
    FlattenPrefix(legs, i + 1, |legs|);
    FlattenLength(legs, i);
  }

  lemma {:induction false} FlattenPrefix(legs: seq<seq<Step>>, m: nat, n: nat)
    requires m <= n <= |legs|
    ensures |FlattenUpTo(legs, m)| <= |FlattenUpTo(legs, n)|
    ensures FlattenUpTo(legs, n)[..|FlattenUpTo(legs, m)|] == FlattenUpTo(legs, m)
    decreases n - m
  {
    if m < n {
      FlattenPrefix(legs, m, n - 1);
    }
  }

  /** Every listed step belongs to the leg it names, and legs never go backwards. */
  lemma {:induction false} FlattenInLegOrder(legs: seq<seq<Step>>, n: nat)
    requires n <= |legs|
    ensures forall k :: 0 <= k < |FlattenUpTo(legs, n)| ==>
      FlattenUpTo(legs, n)[k].leg < n && FlattenUpTo(legs, n)[k].step in legs[FlattenUpTo(legs, n)[k].leg]
    ensures forall k, k' :: 0 <= k < k' < |FlattenUpTo(legs, n)| ==>
      FlattenUpTo(legs, n)[k].leg <= FlattenUpTo(legs, n)[k'].leg
    decreases n
  {
    if n > 0 {
      FlattenInLegOrder(legs, n - 1);
    }
  }

  // ---------------------------------------------------------- instructions

  /** Only an "Arrive" step's instruction depends on where its leg lies in the route. */
  lemma InstructionIgnoresLegUnlessArrive(step: Step, i: nat, n: nat, i': nat, n': nat)
    requires step.maneuverType != "Arrive"
    ensures Instruction(step, i, n) == Instruction(step, i', n')
  {
  }

  /** The router's own instruction text is used only on the final leg's arrival. */
  lemma InstructionTextOnlyOnFinalArrival(step: Step, i: nat, n: nat, other: Option<string>)
    requires !(step.maneuverType == "Arrive" && i >= n - 1)
    ensures Instruction(step.(instruction := other), i, n) == Instruction(step, i, n)
  {
  }

  /** Arriving at the end of a leg that is not the last names waypoint i + 1,
      and that number reads back from the text. */
  lemma WaypointArrivalNumbered(step: Step, i: nat, n: nat)
    requires step.maneuverType == "Arrive" && i < n - 1
    ensures var r := Instruction(step, i, n);
      && |WaypointArrival| < |r| - 1
      && r[..|WaypointArrival|] == WaypointArrival && r[|r| - 1] == '.'
      && AllDigits(r[|WaypointArrival|..|r| - 1])
      && DigitsValue(r[|WaypointArrival|..|r| - 1]) == i + 1
  {
    var r := Instruction(step, i, n);
    assert r[|WaypointArrival|..|r| - 1] == Decimal(i + 1);
    DecimalRoundTrip(i + 1);
  }

  /** Arriving on the last leg shows the router's text, or the fixed sentence without one. */
  lemma FinalArrivalInstruction(step: Step, i: nat, n: nat)
    requires step.maneuverType == "Arrive" && i >= n - 1
    ensures Instruction(step, i, n) == if step.instruction.Some? then step.instruction.value else FinalArrival
  {
  }

  /** A named road always ends the instruction of a step that is not an arrival. */
  lemma RoadNameShown(step: Step, i: nat, n: nat)
    requires step.roadName != "" && step.maneuverType != "Arrive"
    ensures var r := Instruction(step, i, n); var name := step.roadName;
      |name| < |r| && r[|r| - |name|..] == name
  {
    var r := Instruction(step, i, n);
    var name := step.roadName;
    if step.maneuverType == "Depart" {
      assert r == "Depart on " + name;
      assert r[|r| - |name|..] == name;
    } else if step.maneuverType == "New Name" {
      assert r == "Continue onto " + name;
      assert r[|r| - |name|..] == name;
    } else {
      var parts := [step.maneuverType, step.modifier] + ["onto " + name];
      assert r == Join(NonEmpty(parts), ' ');
      NonEmptyKeepsLast(parts);
      JoinEndsWithLast(NonEmpty(parts), ' ');
      var last := "onto " + name;
      assert r[|r| - |last|..] == last;
      assert r[|r| - |name|..] == last[|last| - |name|..];
    }
  }

  /** Any other maneuver reads "<Type> <Modifier> onto <road>" with the empty
      parts left out: it starts with the type, is the bare type when there is
      neither modifier nor road, and is empty only when all three are. */
  lemma GenericInstruction(step: Step, i: nat, n: nat)
    requires step.maneuverType !in {"Depart", "New Name", "Arrive"}
    ensures var r := Instruction(step, i, n); var t := step.maneuverType;
      && (t != "" ==> |t| <= |r| && r[..|t|] == t)
      && (step.modifier == "" && step.roadName == "" ==> r == t)
      && (r == "" <==> t == "" && step.modifier == "" && step.roadName == "")
  {
    var t := step.maneuverType;
    var parts := [t, step.modifier] + (if step.roadName != "" then ["onto " + step.roadName] else []);
    var r := Instruction(step, i, n);
    assert r == JoinWords(parts);
    JoinWordsEmpty(parts);
    assert (forall k :: 0 <= k < |parts| ==> parts[k] == "")
       <==> (t == "" && step.modifier == "" && step.roadName == "") by {
      assert parts[0] == t && parts[1] == step.modifier;
      if step.roadName != "" {
        assert parts[2] == "onto " + step.roadName;
      }
    }
    if t != "" {
      assert NonEmpty(parts)[0] == t;
      JoinStartsWithFirst(NonEmpty(parts), ' ');
    }
    if step.modifier == "" && step.roadName == "" {
      assert parts == [t, ""];
      assert NonEmpty(parts) == (if t == "" then [] else [t]) + NonEmpty([""]);
      assert NonEmpty([""]) == [] + NonEmpty([]);
    }
  }

  /** The generic instruction in full: the type, the modifier and "onto <road>",
      in that order, separated by single spaces, each left out when empty. */
  lemma GenericInstructionWords(step: Step, i: nat, n: nat)
    requires step.maneuverType !in {"Depart", "New Name", "Arrive"}
    ensures var r := Instruction(step, i, n);
      var t := step.maneuverType; var m := step.modifier; var road := step.roadName;
      var tail := if road == "" then "" else "onto " + road;
      var mt := if m == "" then tail else if tail == "" then m else m + " " + tail;
      r == (if t == "" then mt else if mt == "" then t else t + " " + mt)
  {
    var t := step.maneuverType;
    var m := step.modifier;
    var road := step.roadName;
    var tail := if road == "" then [] else ["onto " + road];
    assert Instruction(step, i, n) == JoinWords([t] + ([m] + tail)) by {
      assert [t, m] + tail == [t] + ([m] + tail);
    }
    if road != "" {
      JoinWordsCons("onto " + road, []);
    }
    if m == "" {
      JoinWordsSkipsEmpty(tail);
    } else {
      JoinWordsCons(m, tail);
    }
    if t == "" {
      JoinWordsSkipsEmpty([m] + tail);
    } else {
      JoinWordsCons(t, [m] + tail);
    }
  }

  /** The generic instruction with and without its modifier and road. */
  lemma GenericInstructionExamples()
    ensures Instruction(Step("Turn", "Left", "Main St", None, 0), 0, 1) == "Turn Left onto Main St"
    ensures Instruction(Step("Turn", "", "Main St", None, 0), 0, 1) == "Turn onto Main St"
    ensures Instruction(Step("Turn", "Left", "", None, 0), 0, 1) == "Turn Left"
  {
    GenericInstructionWords(Step("Turn", "Left", "Main St", None, 0), 0, 1);
    GenericInstructionWords(Step("Turn", "", "Main St", None, 0), 0, 1);
    GenericInstructionWords(Step("Turn", "Left", "", None, 0), 0, 1);
  }

  /** The worked cases of the source's behaviour. */
  lemma InstructionExamples()
    ensures Instruction(Step("Depart", "", "Main St", None, 0), 0, 1) == "Depart on Main St"
    ensures Instruction(Step("Depart", "", "", None, 0), 0, 1) == "Depart"
    ensures Instruction(Step("Arrive", "", "", None, 0), 0, 2) == "You have arrived at Waypoint 1."
    ensures Instruction(Step("Arrive", "", "", Some("X"), 0), 1, 2) == "X"
    ensures Instruction(Step("Arrive", "", "", None, 0), 1, 2) == FinalArrival
    ensures Instruction(Step("New Name", "", "", None, 0), 0, 1) == "Continue onto "
  {
    assert Decimal(1) == "1";
  }
}
