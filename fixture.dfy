/** The demonstration network the server binary ticks: one line "urmi" out
    along segment_0..segment_2 and back along segment_5..segment_3, with one
    train starting at segment_0 outbound (cmd/metrosrv/metrosrv.go). */
module Fixture {
  import opened Wrappers
  import opened Network
  import opened Route
  import opened Metro

  const Urmi: RailLine := RailLine(
    "urmi",
    ["station_0", "station_1"],
    map[
      Outbound := ["segment_0", "segment_1", "segment_2"],
      Inbound := ["segment_5", "segment_4", "segment_3"]])

  const Train0: Train := Train("train_0", "segment_0", "urmi", Outbound)

  const DemoMap: RailNetworkMap := RailNetworkMap(
    map[
      "segment_0" := TrackSegment("segment_0"),
      "segment_1" := TrackSegment("segment_1"),
      "segment_2" := TrackSegment("segment_2"),
      "segment_3" := TrackSegment("segment_0"),
      "segment_4" := TrackSegment("segment_1"),
      "segment_5" := TrackSegment("segment_2")],
    [
      OneToOne("segment_0", "segment_1"),
      OneToOne("segment_1", "segment_2"),
      OneToOne("segment_5", "segment_4"),
      OneToOne("segment_4", "segment_3")])

  const DemoStations: seq<Station> := [
    Station("station_0", [
      Platform("station_0_platform_0", "segment_0"),
      Platform("station_0_platform_1", "segment_3")]),
    Station("station_1", [
      Platform("station_1_platform_0", "segment_2"),
      Platform("station_1_platform_1", "segment_5")])]

  /** Every junction of the demonstration map obeys the arity rule. */
  lemma DemoConnectionsValid()
    ensures forall c :: c in DemoMap.Connections ==> ValidConnection(c)
  {
  }

  /** The demonstration train visits segment_1, segment_2, turns to
      segment_5, then segment_4, segment_3, and turns back to segment_0
      outbound: the cycle closes after six steps. */
  lemma DemoCycle()
    ensures NextSegment(Urmi, Train0) == Success(Train0.(CurrentSegmentName := "segment_1"))
    ensures NextSegment(Urmi, Train0.(CurrentSegmentName := "segment_1")) ==
      Success(Train0.(CurrentSegmentName := "segment_2"))
    ensures NextSegment(Urmi, Train0.(CurrentSegmentName := "segment_2")) ==
      Success(Train0.(CurrentSegmentName := "segment_5", Direction := Inbound))
    ensures NextSegment(Urmi, Train0.(CurrentSegmentName := "segment_5", Direction := Inbound)) ==
      Success(Train0.(CurrentSegmentName := "segment_4", Direction := Inbound))
    ensures NextSegment(Urmi, Train0.(CurrentSegmentName := "segment_4", Direction := Inbound)) ==
      Success(Train0.(CurrentSegmentName := "segment_3", Direction := Inbound))
    ensures NextSegment(Urmi, Train0.(CurrentSegmentName := "segment_3", Direction := Inbound)) ==
      Success(Train0)
  {
    NextSegmentAlongDistinctRoute(Urmi, Train0, 0);
    NextSegmentAlongDistinctRoute(Urmi, Train0.(CurrentSegmentName := "segment_1"), 1);
    NextSegmentTurns(Urmi, Train0.(CurrentSegmentName := "segment_2"));
    NextSegmentAlongDistinctRoute(Urmi, Train0.(CurrentSegmentName := "segment_5", Direction := Inbound), 0);
    NextSegmentAlongDistinctRoute(Urmi, Train0.(CurrentSegmentName := "segment_4", Direction := Inbound), 1);
    NextSegmentTurns(Urmi, Train0.(CurrentSegmentName := "segment_3", Direction := Inbound));
  }

  /** The same six steps as the demonstration metro takes them, with the line
      looked up by name. */
  lemma DemoFleetSteps()
    ensures StepTrain([Urmi], Train0) == Success(Train0.(CurrentSegmentName := "segment_1"))
    ensures StepTrain([Urmi], Train0.(CurrentSegmentName := "segment_1")) ==
      Success(Train0.(CurrentSegmentName := "segment_2"))
    ensures StepTrain([Urmi], Train0.(CurrentSegmentName := "segment_2")) ==
      Success(Train0.(CurrentSegmentName := "segment_5", Direction := Inbound))
    ensures StepTrain([Urmi], Train0.(CurrentSegmentName := "segment_5", Direction := Inbound)) ==
      Success(Train0.(CurrentSegmentName := "segment_4", Direction := Inbound))
    ensures StepTrain([Urmi], Train0.(CurrentSegmentName := "segment_4", Direction := Inbound)) ==
      Success(Train0.(CurrentSegmentName := "segment_3", Direction := Inbound))
    ensures StepTrain([Urmi], Train0.(CurrentSegmentName := "segment_3", Direction := Inbound)) ==
      Success(Train0)
  {
    DemoCycle();
    assert LineByName([Urmi], "urmi") == Success(Urmi);
  }

  /** One uncancelled tick of a one-train metro on the demonstration line:
      it reports no error and leaves the train at its next state. */
  method DemoTick(m: Metro, t: Train, next: Train) returns (err: Option<TickError>)
    requires m.Lines == [Urmi] && m.Trains.Length == 1 && m.Trains[0] == t
    requires StepTrain([Urmi], t) == Success(next)
    modifies m.Trains
    ensures err == None
    ensures m.Lines == [Urmi] && m.Trains.Length == 1 && m.Trains[0] == next
  {
    assert m.Trains[..] == [t];
    err := m.Tick(1);
  }

  /** Six uncancelled ticks of the demonstration metro all succeed, as the
      server loop, which stops at the first error, needs, and bring its train
      back to where it started. */
  method DemoSixTicks() returns (m: Metro, errs: seq<Option<TickError>>)
    ensures errs == [None, None, None, None, None, None]
    ensures m.Trains.Length == 1 && m.Trains[0] == Train0
  {
    m := new Metro(DemoMap, DemoStations, [Urmi], [Train0]);
    DemoFleetSteps();
    var e1 := DemoTick(m, Train0, Train0.(CurrentSegmentName := "segment_1"));
    var e2 := DemoTick(m, Train0.(CurrentSegmentName := "segment_1"), Train0.(CurrentSegmentName := "segment_2"));
    var e3 := DemoTick(m, Train0.(CurrentSegmentName := "segment_2"),
      Train0.(CurrentSegmentName := "segment_5", Direction := Inbound));
    var e4 := DemoTick(m, Train0.(CurrentSegmentName := "segment_5", Direction := Inbound),
      Train0.(CurrentSegmentName := "segment_4", Direction := Inbound));
    var e5 := DemoTick(m, Train0.(CurrentSegmentName := "segment_4", Direction := Inbound),
      Train0.(CurrentSegmentName := "segment_3", Direction := Inbound));
    var e6 := DemoTick(m, Train0.(CurrentSegmentName := "segment_3", Direction := Inbound), Train0);
    errs := [e1, e2, e3, e4, e5, e6];
  }
}
