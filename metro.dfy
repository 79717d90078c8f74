/** The aggregate that owns the network and the fleet, and its tick: one
    fail-fast pass that advances every train by one step (metro.go). */
module Metro {
  import opened Wrappers
  import opened Errors
  import opened Network
  import opened Route

  /** What a tick reports. The two wrapping kinds keep the line and train
      names the package adds to the underlying sentinel error. */
  datatype TickError =
    | Cancelled
    | LineLookup(lineName: string, trainName: string, kind: ErrorKind)
    | Traversal(lineName: string, trainName: string, kind: ErrorKind)

  /** The position of the first line called `name`, if any. */
  function FirstLineIndex(lines: seq<RailLine>, name: string): (r: Option<nat>)
    ensures r.None? <==> forall j :: 0 <= j < |lines| ==> lines[j].Name != name
    ensures r.Some? ==> r.value < |lines| && lines[r.value].Name == name
    ensures r.Some? ==> forall j :: 0 <= j < r.value ==> lines[j].Name != name
    decreases |lines|
  {
    if |lines| == 0 then None
    else if lines[0].Name == name then Some(0)
    else match FirstLineIndex(lines[1..], name)
      case None => None
      case Some(i) => Some(i + 1)
  }

  /** The line a train names: the first one with that name, or NotFound. */
  function LineByName(lines: seq<RailLine>, name: string): (r: Result<RailLine, ErrorKind>)
    ensures r.Failure? <==> forall l :: l in lines ==> l.Name != name
    ensures r.Failure? ==> r.error == NotFound
    ensures r.Success? ==> r.value in lines && r.value.Name == name
    ensures r.Success? ==>
      exists i :: 0 <= i < |lines| && lines[i] == r.value && (forall j :: 0 <= j < i ==> lines[j].Name != name)
  {
    match FirstLineIndex(lines, name)
    case None => Failure(NotFound)
    case Some(i) => Success(lines[i])
  }

  /** One train's part of a tick, apart from the cancellation checkpoint: look
      up its line, then step along it, wrapping either error with names. */
  function StepTrain(lines: seq<RailLine>, train: Train): (r: Result<Train, TickError>)
    ensures r.Success? ==> r.value.Name == train.Name && r.value.LineName == train.LineName
    ensures r.Failure? ==> !r.error.Cancelled?
    ensures r.Failure? && r.error.LineLookup? ==>
      r.error == LineLookup(train.LineName, train.Name, NotFound)
    ensures r.Failure? && r.error.Traversal? ==>
      r.error.lineName == train.LineName && r.error.trainName == train.Name
  {
    match LineByName(lines, train.LineName)
    case Failure(e) => Failure(LineLookup(train.LineName, train.Name, e))
    case Success(line) =>
      match NextSegment(line, train)
      case Failure(e) => Failure(Traversal(line.Name, train.Name, e))
      case Success(next) => Success(next)
  }

  /** A train steps exactly when its line is found and the line's step
      succeeds, and it then takes the state that step gives; a traversal
      error carries the kind the line's step reported, never WrongLine. (Kept out of
      StepTrain's own contract so that the tick's proofs stay small.) */
  lemma StepTrainOnLine(lines: seq<RailLine>, train: Train)
    ensures var l := LineByName(lines, train.LineName);
      StepTrain(lines, train).Success? <==> l.Success? && NextSegment(l.value, train).Success?
    ensures var l := LineByName(lines, train.LineName);
      StepTrain(lines, train).Success? ==> StepTrain(lines, train).value == NextSegment(l.value, train).value
    ensures var l := LineByName(lines, train.LineName);
      StepTrain(lines, train).Failure? && StepTrain(lines, train).error.Traversal? ==>
        && l.Success?
        && NextSegment(l.value, train) == Failure(StepTrain(lines, train).error.kind)
        && StepTrain(lines, train).error.kind != WrongLine
  {
  }

  /** Where a tick that has reached train `i` stops: the first index from `i`
      on at which cancellation is observed or the train cannot step, or the
      fleet size when there is none. `cancelAt` is the first checkpoint at
      which the context is seen to be done. */
  function HaltFrom(lines: seq<RailLine>, trains: seq<Train>, cancelAt: nat, i: nat): (k: nat)
    requires i <= |trains|
    ensures i <= k <= |trains|
    ensures cancelAt < i || k <= cancelAt
    ensures forall j {:trigger StepTrain(lines, trains[j])} :: i <= j < k ==> StepTrain(lines, trains[j]).Success?
    ensures k < |trains| ==> k == cancelAt || StepTrain(lines, trains[k]).Failure?
    decreases |trains| - i
  {
    if i == |trains| then i
    else if i == cancelAt || StepTrain(lines, trains[i]).Failure? then i
    else HaltFrom(lines, trains, cancelAt, i + 1)
  }

  /** The index at which a whole tick stops. */
  function Halt(lines: seq<RailLine>, trains: seq<Train>, cancelAt: nat): (k: nat)
    ensures k <= |trains|
    ensures k <= cancelAt
    ensures forall j {:trigger StepTrain(lines, trains[j])} :: 0 <= j < k ==> StepTrain(lines, trains[j]).Success?
    ensures k < |trains| ==> k == cancelAt || StepTrain(lines, trains[k]).Failure?
  {
    HaltFrom(lines, trains, cancelAt, 0)
  }

  /** The error a tick returns: none when it ran to the end, cancellation when
      that was observed at the stopping index, otherwise that train's error. */
  function TickOutcome(lines: seq<RailLine>, trains: seq<Train>, cancelAt: nat): (r: Option<TickError>)
    ensures r.None? <==> Halt(lines, trains, cancelAt) == |trains|
    ensures r == Some(Cancelled) <==> cancelAt == Halt(lines, trains, cancelAt) < |trains|
    ensures r.Some? && r != Some(Cancelled) ==>
      Halt(lines, trains, cancelAt) < |trains| &&
      r.value == StepTrain(lines, trains[Halt(lines, trains, cancelAt)]).error
  {
    var k := Halt(lines, trains, cancelAt);
    if k == |trains| then None
    else if k == cancelAt then Some(Cancelled)
    else Some(StepTrain(lines, trains[k]).error)
  }

  /** A tick that has reached train `i` without stopping passes it when the
      train is not cancelled and can step. */
  lemma HaltFromPasses(lines: seq<RailLine>, trains: seq<Train>, cancelAt: nat, i: nat)
    requires i < |trains| && i != cancelAt && StepTrain(lines, trains[i]).Success?
    ensures HaltFrom(lines, trains, cancelAt, i + 1) == HaltFrom(lines, trains, cancelAt, i)
  {
  }

  /** A tick that has reached train `i` stops there, with the error of that
      checkpoint, when cancellation is observed or the train cannot step. */
  lemma HaltFromStops(lines: seq<RailLine>, trains: seq<Train>, cancelAt: nat, i: nat)
    requires i < |trains| && HaltFrom(lines, trains, cancelAt, i) == Halt(lines, trains, cancelAt)
    requires i == cancelAt || StepTrain(lines, trains[i]).Failure?
    ensures Halt(lines, trains, cancelAt) == i
    ensures TickOutcome(lines, trains, cancelAt) ==
      if i == cancelAt then Some(Cancelled) else Some(StepTrain(lines, trains[i]).error)
  {
  }

  /** A tick that has passed every train reports no error. */
  lemma HaltFromEnd(lines: seq<RailLine>, trains: seq<Train>, cancelAt: nat)
    requires HaltFrom(lines, trains, cancelAt, |trains|) == Halt(lines, trains, cancelAt)
    ensures Halt(lines, trains, cancelAt) == |trains|
    ensures TickOutcome(lines, trains, cancelAt) == None
  {
  }

  /** A train after its step, or unchanged when it cannot step. */
  function Advanced(lines: seq<RailLine>, train: Train): Train {
    match StepTrain(lines, train)
    case Success(next) => next
    case Failure(_) => train
  }

  /** The fleet after a tick has overwritten its first `k` trains. */
  function Progress(lines: seq<RailLine>, trains: seq<Train>, k: nat): (r: seq<Train>)
    requires k <= |trains|
    ensures |r| == |trains|
    decreases k
  {
    if k == 0 then trains
    else Progress(lines, trains, k - 1)[k - 1 := Advanced(lines, trains[k - 1])]
  }

  /** After overwriting the first `k` trains, those hold their step results
      (or themselves, if they cannot step) and the others are as they were. */
  lemma {:induction false} ProgressAt(lines: seq<RailLine>, trains: seq<Train>, k: nat)
    requires k <= |trains|
    ensures forall j :: 0 <= j < k ==> Progress(lines, trains, k)[j] == Advanced(lines, trains[j])
    ensures forall j :: k <= j < |trains| ==> Progress(lines, trains, k)[j] == trains[j]
    decreases k
  {
    if k > 0 {
      ProgressAt(lines, trains, k - 1);
    }
  }

  /** Up to the stopping index every train steps, so the overwritten trains
      are exactly the step results. */
  lemma TickProgress(lines: seq<RailLine>, trains: seq<Train>, cancelAt: nat)
    ensures var k := Halt(lines, trains, cancelAt);
      && (forall j :: 0 <= j < k ==> Progress(lines, trains, k)[j] == StepTrain(lines, trains[j]).value)
      && (forall j :: k <= j < |trains| ==> Progress(lines, trains, k)[j] == trains[j])
  {
    ProgressAt(lines, trains, Halt(lines, trains, cancelAt));
  }

  /** A tick succeeds exactly when no checkpoint observes cancellation and
      every train of the fleet can step. */
  lemma TickSucceedsIff(lines: seq<RailLine>, trains: seq<Train>, cancelAt: nat)
    ensures TickOutcome(lines, trains, cancelAt).None? <==>
      cancelAt >= |trains| && forall j :: 0 <= j < |trains| ==> StepTrain(lines, trains[j]).Success?
  {
  }

  /** Cancellation seen at the first checkpoint stops the tick before any
      train is processed. */
  lemma CancelledTickProcessesNothing(lines: seq<RailLine>, trains: seq<Train>)
    requires |trains| > 0
    ensures Halt(lines, trains, 0) == 0
    ensures TickOutcome(lines, trains, 0) == Some(Cancelled)
  {
  }

  /** Every train is placed on its line and every line it names serves both
      ways. */
  predicate FleetPlaced(lines: seq<RailLine>, trains: seq<Train>) {
    forall j :: 0 <= j < |trains| ==>
      && LineByName(lines, trains[j].LineName).Success?
      && ServesBothWays(LineByName(lines, trains[j].LineName).value)
      && PlacedOn(LineByName(lines, trains[j].LineName).value, trains[j])
  }

  /** A placed fleet, absent cancellation, ticks successfully and is placed
      again afterwards: the trains keep shuttling along their lines. */
  lemma PlacedFleetKeepsRunning(lines: seq<RailLine>, trains: seq<Train>, cancelAt: nat)
    requires FleetPlaced(lines, trains)
    requires cancelAt >= |trains|
    ensures Halt(lines, trains, cancelAt) == |trains|
    ensures FleetPlaced(lines, seq(|trains|, j requires 0 <= j < |trains| => StepTrain(lines, trains[j]).value))
  {
    forall j | 0 <= j < |trains|
      ensures StepTrain(lines, trains[j]).Success?
      ensures var t := StepTrain(lines, trains[j]).value;
        && LineByName(lines, t.LineName).Success?
        && ServesBothWays(LineByName(lines, t.LineName).value)
        && PlacedOn(LineByName(lines, t.LineName).value, t)
    {
      NextSegmentKeepsPlaced(LineByName(lines, trains[j].LineName).value, trains[j]);
    }
    TickSucceedsIff(lines, trains, cancelAt);
  }

  /** The network and its fleet. Lines, stations and the map are read during
      a tick; only the trains, held in place in an array, are overwritten. */
  class Metro {
    var Map: RailNetworkMap
    var Stations: seq<Station>
    var Lines: seq<RailLine>
    var Trains: array<Train>

    /** The aggregate as its caller populates it; nothing is validated. */
    constructor (networkMap: RailNetworkMap, stations: seq<Station>, lines: seq<RailLine>, trains: seq<Train>)
      ensures Map == networkMap && Stations == stations && Lines == lines
      ensures fresh(Trains) && Trains[..] == trains
    {
      Map := networkMap;
      Stations := stations;
      Lines := lines;
      Trains := new Train[|trains|](j requires 0 <= j < |trains| => trains[j]);
    }

    /** The first line whose name matches, found by a scan that returns at the
        first match. */
    method GetLineByName(name: string) returns (r: Result<RailLine, ErrorKind>)
      ensures r == LineByName(Lines, name)
    {
      for i := 0 to |Lines|
        invariant forall j :: 0 <= j < i ==> Lines[j].Name != name
      {
        if Lines[i].Name == name {
          return Success(Lines[i]);
        }
      }
      return Failure(NotFound);
    }

    /** One train's part of a tick: look up its line, step along it, and wrap
        either error with the line and train names. */
    method AdvanceTrain(train: Train) returns (r: Result<Train, TickError>)
      ensures r == StepTrain(Lines, train)
    {
      var line := GetLineByName(train.LineName);
      if line.Failure? {
        return Failure(LineLookup(train.LineName, train.Name, line.error));
      }
      var next := ScanNextSegment(line.value, train);
      if next.Failure? {
        return Failure(Traversal(line.value.Name, train.Name, next.error));
      }
      r := Success(next.value);
    }

    /** Advances the trains in order until cancellation is observed or a train
        cannot step. `cancelAt` is the first per-train checkpoint at which the
        context is done (no checkpoint follows the last train). The trains
        before the stopping index hold their next state, the rest are as they
        were; nothing else changes. */
    method Tick(cancelAt: nat) returns (err: Option<TickError>)
      modifies Trains
      ensures var k := Halt(Lines, old(Trains[..]), cancelAt);
        && (forall j :: 0 <= j < k ==> Trains[j] == StepTrain(Lines, old(Trains[j])).value)
        && (forall j :: k <= j < Trains.Length ==> Trains[j] == old(Trains[j]))
      ensures err == TickOutcome(Lines, old(Trains[..]), cancelAt)
      ensures Map == old(Map) && Stations == old(Stations) && Lines == old(Lines)
    {
      ghost var before := Trains[..];
      for i := 0 to Trains.Length
        invariant HaltFrom(Lines, before, cancelAt, i) == Halt(Lines, before, cancelAt)
        invariant Trains[..] == Progress(Lines, before, i)
      {
        ProgressAt(Lines, before, i);
        if i == cancelAt {
          HaltFromStops(Lines, before, cancelAt, i);
          TickProgress(Lines, before, cancelAt);
          return Some(Cancelled);
        }
        var next := AdvanceTrain(Trains[i]);
        if next.Failure? {
          HaltFromStops(Lines, before, cancelAt, i);
          TickProgress(Lines, before, cancelAt);
          return Some(next.error);
        }
        HaltFromPasses(Lines, before, cancelAt, i);
        Trains[i] := next.value;
        assert Trains[..] == Progress(Lines, before, i)[i := Advanced(Lines, before[i])];
      }
      HaltFromEnd(Lines, before, cancelAt);
      TickProgress(Lines, before, cancelAt);
      return None;
    }
  }
}
