/** Directions, trains, rail lines and the traversal step that moves a train
    one segment along its line (metro.go). */
module Route {
  import opened Wrappers
  import opened Errors

  /** Go declares the direction as a plain integer type, so values other than
      the two named constants are representable. */
  type RouteDirection = int

  const Outbound: RouteDirection := 0
  const Inbound: RouteDirection := 1

  /** The direction taken after reaching a terminus: Outbound turns Inbound and
      every other value, Inbound included, turns Outbound. */
  function Next(rd: RouteDirection): (r: RouteDirection)
    ensures r == Outbound || r == Inbound
    ensures r == Inbound <==> rd == Outbound
  {
    if rd == Outbound then Inbound else Outbound
  }

  /** On the two named directions, Next swaps them and is its own inverse. */
  lemma NextInvolution(rd: RouteDirection)
    requires rd == Outbound || rd == Inbound
    ensures Next(rd) != rd
    ensures Next(Next(rd)) == rd
  {
  }

  datatype Train = Train(
    Name: string,
    CurrentSegmentName: string,
    LineName: string,
    Direction: RouteDirection)

  /** A line with, per direction, the ordered segments it passes through.
      StationNames is informational: traversal ignores it. */
  datatype RailLine = RailLine(
    Name: string,
    StationNames: seq<string>,
    Route: map<RouteDirection, seq<string>>)

  /** The route of a line in one direction; a missing entry reads as an empty
      route, as a Go map lookup yields a nil slice. */
  function RouteFor(rl: RailLine, d: RouteDirection): seq<string>
  {
    if d in rl.Route then rl.Route[d] else []
  }

  /** The last position of x in s, if any. */
  function LastIndexOf<T(==)>(s: seq<T>, x: T): (r: Option<nat>)
    ensures r.None? <==> x !in s
    ensures r.Some? ==> r.value < |s| && s[r.value] == x
    ensures r.Some? ==> forall j :: r.value < j < |s| ==> s[j] != x
    decreases |s|
  {
    if |s| == 0 then None
    else if s[|s| - 1] == x then Some(|s| - 1)
    else LastIndexOf(s[..|s| - 1], x)
  }

  /** The state of `train` after one step along `rl`, or why there is none.
      The line is read only, never changed.

      A train on another line is refused before any route is read. Otherwise
      the train's segment is looked up in the route of its direction, and when
      it occurs more than once its LAST occurrence counts. The train moves to
      the following segment in the same direction; from the final segment it
      turns (Next) and moves to the first segment of the opposite route, which
      must not be empty. */
  function NextSegment(rl: RailLine, train: Train): (r: Result<Train, ErrorKind>)
    ensures r == Failure(WrongLine) <==> train.LineName != rl.Name
    ensures r == Failure(NotFound) <==>
      train.LineName == rl.Name && train.CurrentSegmentName !in RouteFor(rl, train.Direction)
    ensures r == Failure(InvalidRoute) <==>
      var route := RouteFor(rl, train.Direction);
      && train.LineName == rl.Name
      && train.CurrentSegmentName in route
      && route[|route| - 1] == train.CurrentSegmentName
      && RouteFor(rl, Next(train.Direction)) == []
    ensures r.Success? ==>
      && r.value.Name == train.Name
      && r.value.LineName == train.LineName
      && (r.value.Direction == train.Direction || r.value.Direction == Next(train.Direction))
      && r.value.CurrentSegmentName in RouteFor(rl, r.value.Direction)
  {
    if train.LineName != rl.Name then Failure(WrongLine)
    else
      var route := RouteFor(rl, train.Direction);
      match LastIndexOf(route, train.CurrentSegmentName)
      case None => Failure(NotFound)
      case Some(i) =>
        if i + 1 < |route| then
          Success(train.(CurrentSegmentName := route[i + 1]))
        else
          var turned := Next(train.Direction);
          var back := RouteFor(rl, turned);
          if |back| == 0 then Failure(InvalidRoute)
          else Success(train.(Direction := turned, CurrentSegmentName := back[0]))
  }

  /** The step as the package computes it: a full scan of the route that
      remembers one past the latest match (0 meaning no match), then the
      terminus check and, after a turn, the re-check of the new route. */
  method ScanNextSegment(rl: RailLine, train: Train) returns (r: Result<Train, ErrorKind>)
    ensures r == NextSegment(rl, train)
  {
    if train.LineName != rl.Name {
      return Failure(WrongLine);
    }
    var route := RouteFor(rl, train.Direction);
    var nextIdx: nat := 0;
    for sIdx := 0 to |route|
      invariant nextIdx <= sIdx
      invariant nextIdx == 0 ==> forall j :: 0 <= j < sIdx ==> route[j] != train.CurrentSegmentName
      invariant nextIdx > 0 ==> route[nextIdx - 1] == train.CurrentSegmentName
      invariant forall j :: nextIdx <= j < sIdx ==> route[j] != train.CurrentSegmentName
    {
      if route[sIdx] == train.CurrentSegmentName {
        nextIdx := sIdx + 1;
      }
    }
    if nextIdx == 0 {
      return Failure(NotFound);
    }
    var direction := train.Direction;
    if nextIdx >= |route| {
      direction := Next(direction);
      nextIdx := 0;
    }
    var newRoute := RouteFor(rl, direction);
    if nextIdx >= |newRoute| {
      return Failure(InvalidRoute);
    }
    r := Success(train.(Direction := direction, CurrentSegmentName := newRoute[nextIdx]));
  }

  /** Away from the terminus the train moves to the segment after the last
      occurrence of its current one, keeping its direction. */
  lemma NextSegmentAdvances(rl: RailLine, train: Train, i: nat)
    requires train.LineName == rl.Name
    requires i + 1 < |RouteFor(rl, train.Direction)|
    requires RouteFor(rl, train.Direction)[i] == train.CurrentSegmentName
    requires forall j :: i < j < |RouteFor(rl, train.Direction)| ==>
      RouteFor(rl, train.Direction)[j] != train.CurrentSegmentName
    ensures NextSegment(rl, train) ==
      Success(train.(CurrentSegmentName := RouteFor(rl, train.Direction)[i + 1]))
  {
  }

  /** At the final segment of its route the train turns and moves to the first
      segment of the opposite route; with no such segment the step fails. */
  lemma NextSegmentTurns(rl: RailLine, train: Train)
    requires train.LineName == rl.Name
    requires |RouteFor(rl, train.Direction)| > 0
    requires RouteFor(rl, train.Direction)[|RouteFor(rl, train.Direction)| - 1] == train.CurrentSegmentName
    ensures var back := RouteFor(rl, Next(train.Direction));
      NextSegment(rl, train) ==
        if back == [] then Failure(InvalidRoute)
        else Success(train.(Direction := Next(train.Direction), CurrentSegmentName := back[0]))
  {
  }

  /** A train whose direction has no route on its line is not found on it:
      the empty route holds no segment. */
  lemma AbsentRouteNotFound(rl: RailLine, train: Train)
    requires train.LineName == rl.Name && train.Direction !in rl.Route
    ensures NextSegment(rl, train) == Failure(NotFound)
  {
  }

  /** A train at the end of its route on a line without a route in the
      opposite direction cannot turn: the step fails with InvalidRoute. */
  lemma TurnOntoAbsentRoute(rl: RailLine, train: Train)
    requires train.LineName == rl.Name && train.Direction in rl.Route
    requires |rl.Route[train.Direction]| > 0
    requires rl.Route[train.Direction][|rl.Route[train.Direction]| - 1] == train.CurrentSegmentName
    requires Next(train.Direction) !in rl.Route
    ensures NextSegment(rl, train) == Failure(InvalidRoute)
  {
  }

  /** The segments of a route are pairwise distinct. */
  predicate NoDuplicates(s: seq<string>) {
    forall i, j :: 0 <= i < j < |s| ==> s[i] != s[j]
  }

  /** On a route without repeated segments, a train at the i-th segment that
      is not the last moves to the (i+1)-th. */
  lemma NextSegmentAlongDistinctRoute(rl: RailLine, train: Train, i: nat)
    requires train.LineName == rl.Name
    requires NoDuplicates(RouteFor(rl, train.Direction))
    requires i + 1 < |RouteFor(rl, train.Direction)|
    requires RouteFor(rl, train.Direction)[i] == train.CurrentSegmentName
    ensures NextSegment(rl, train) ==
      Success(train.(CurrentSegmentName := RouteFor(rl, train.Direction)[i + 1]))
  {
    NextSegmentAdvances(rl, train, i);
  }

  /** A segment repeated in a route resolves to its last occurrence: on the
      route A, B, A, C a train at A moves to C, not to B. */
  lemma LastOccurrenceWins()
    ensures var rl := RailLine("L", [], map[Outbound := ["A", "B", "A", "C"]]);
      NextSegment(rl, Train("T", "A", "L", Outbound)) == Success(Train("T", "C", "L", Outbound))
  {
    var rl := RailLine("L", [], map[Outbound := ["A", "B", "A", "C"]]);
    NextSegmentAdvances(rl, Train("T", "A", "L", Outbound), 2);
  }

  /** A line fit to run trains: both named directions have a route. */
  predicate ServesBothWays(rl: RailLine) {
    RouteFor(rl, Outbound) != [] && RouteFor(rl, Inbound) != []
  }

  /** A train whose direction is a named one and whose segment lies on the
      route of that direction. */
  predicate PlacedOn(rl: RailLine, train: Train) {
    && train.LineName == rl.Name
    && (train.Direction == Outbound || train.Direction == Inbound)
    && train.CurrentSegmentName in RouteFor(rl, train.Direction)
  }

  /** On a line that serves both ways, a placed train always has a next state
      and is placed again there, so it runs back and forth for ever. */
  lemma NextSegmentKeepsPlaced(rl: RailLine, train: Train)
    requires ServesBothWays(rl)
    requires PlacedOn(rl, train)
    ensures NextSegment(rl, train).Success?
    ensures PlacedOn(rl, NextSegment(rl, train).value)
  {
    NextInvolution(train.Direction);
  }
}
