# metro — traversal core in Dafny

This project models how the `metro` package moves trains around a rail network.

- Each rail line has an ordered route of track segments per direction.
- A train is a name, the line it belongs to, its current segment and its direction.
- One traversal step moves a train to the segment after its current one. At the end of the route it turns round and moves to the start of the opposite route.
- A tick of the `Metro` aggregate applies that step to every train of the fleet, in order. It stops at the first train that cannot step, or where cancellation is observed. Trains already advanced keep their new state; later trains are untouched.

Modules, one per component:

- `Wrappers` (`wrappers.dfy`): `Option` and `Result`, the model of Go's `(value, error)` returns.
- `Errors` (`errors.dfy`): the three sentinel errors `NotFound`, `WrongLine`, `InvalidRoute`.
- `Network` (`network.dfy`): segments, connections, platforms and stations as plain data. It also holds the connection-arity rule `ValidConnection` that the code documents but never enforces, and the three connection helpers of the server binary.
- `Route` (`route.dfy`): `RouteDirection` and `Next`, `Train`, `RailLine`, and the step itself. The step is a pure specification function `NextSegment` plus the method `ScanNextSegment`, which performs the package's full last-match scan and is proved equal to it.
- `Metro` (`metro.go`'s aggregate, `metro.dfy`): line lookup and the tick. The class `Metro` keeps the fleet in an `array<Train>` that `Tick` overwrites in place. Its specification functions are `StepTrain`, `HaltFrom`/`Halt` (the stopping index), `Progress` (the fleet with its first k trains overwritten, the loop's state) and `TickOutcome`.
- `Fixture` (`fixture.dfy`): the demonstration network of the server binary. It proves that the single train there is back at `segment_0` outbound after six steps, both on the pure step and through six calls of `Tick`.

Modelling decisions:

- `RouteDirection` is an `int`, as in Go. `Outbound` is 0 and `Inbound` is 1. `Next` maps 0 to 1 and every other value to 0, which is the Go `default` branch. The two named constants read as a two-valued enumeration; the model follows the code, which admits any integer.
- A route missing from a line's map reads as the empty sequence (`RouteFor`), as a Go nil slice does.
- Cancellation is the parameter `cancelAt`. It is the index of the first per-train checkpoint at which the context is seen to be done. A context stays done once it is done, so one index describes every observation. A value of `|Trains|` or more means cancellation is never observed. The cancellation checkpoint comes before each train, including the first. No checkpoint follows the last train, so `cancelAt == |Trains|` is a successful tick.
- Wrapped tick errors keep the error kind and the line and train names (`TickError`). The message text is not modelled.

## Model

| member | source | states |
|---|---|---|
| Route.Next | metro.go:41-55 | the result is always Outbound or Inbound, and it is Inbound exactly when the input is Outbound |
| Route.NextInvolution | metro.go:43-50 | on the two named directions, Next changes the direction and applying it twice gives the original |
| Route.AbsentRouteNotFound | metro.go:71-78 | a train whose direction is missing from its line's route map reads the empty route and fails with NotFound |
| Route.TurnOntoAbsentRoute | metro.go:80-87 | a train at the final entry of its route, on a line whose route map lacks the opposite direction, fails with InvalidRoute |
| Route.LastIndexOf | metro.go:69-78 | none exactly when the element does not occur; otherwise an in-bounds index holding it, after which it never occurs again |
| Route.NextSegment | metro.go:64-91 | WrongLine iff the line names differ; NotFound iff the names match and the segment is not on the current route; InvalidRoute iff the segment's last occurrence is the route's final entry and the opposite route is empty; on success the name and line are kept, the direction is kept or turned, and the new segment lies on the route of the new direction |
| Route.ScanNextSegment | metro.go:64-91 | the full scan that remembers one past the latest match, then the terminus check and the re-check after turning, returns exactly NextSegment's result |
| Route.NextSegmentAdvances | metro.go:71-90 | when i is the last occurrence of the current segment and not the final index, the train moves to entry i+1 with every other field unchanged |
| Route.NextSegmentTurns | metro.go:80-90 | at the route's final entry the train turns to Next(direction) and moves to entry 0 of the opposite route, or fails with InvalidRoute when that route is empty or absent |
| Route.NextSegmentAlongDistinctRoute | metro.go:71-90 | on a route without repeated segments, a train at non-final entry i moves to entry i+1 in the same direction |
| Route.LastOccurrenceWins | metro.go:71-75 | on the route A, B, A, C a train at A moves to C: a repeated segment resolves to its last occurrence |
| Route.NextSegmentKeepsPlaced | metro.go:64-91 | on a line with routes in both directions, a train with a named direction standing on its route always steps, and stands on the route of its new direction afterwards |
| Network.ValidConnectionKinds | metro.go:30-39 | the arity rule (the predicate ValidConnection, stating the three bounds of the comment) admits exactly one-to-one, two-to-one and one-to-two connections |
| Network.OneToOne | cmd/metrosrv/metrosrv.go:131-133 | builds a connection that satisfies the arity rule, with the given single input and output |
| Network.TwoToOne | cmd/metrosrv/metrosrv.go:134-136 | builds a merge that satisfies the arity rule |
| Network.OneToTwo | cmd/metrosrv/metrosrv.go:137-139 | builds a split that satisfies the arity rule |
| Metro.FirstLineIndex | metro.go:120-127 | none exactly when no line has the name; otherwise a line with that name, before which no line has it |
| Metro.LineByName | metro.go:120-127 | fails, always with NotFound, exactly when no line of the list has the name; otherwise returns the first line of the list with that name |
| Metro.Metro.GetLineByName | metro.go:120-127 | the scan with early return gives exactly LineByName over the aggregate's lines, so the first match |
| Metro.StepTrain | metro.go:140-150 | a step keeps the train's name and line; it never reports cancellation; a failed lookup is LineLookup with the train's line and name and NotFound; a failed traversal carries the train's line and name |
| Metro.StepTrainOnLine | metro.go:140-150 | a train steps exactly when its line is found and NextSegment succeeds on that line, and it then takes exactly NextSegment's result; a failed traversal carries the error kind NextSegment reported on the found line, which is never WrongLine |
| Metro.Metro.AdvanceTrain | metro.go:140-150 | the lookup by scan followed by the full segment scan, with both errors wrapped, returns exactly StepTrain over the aggregate's lines |
| Metro.HaltFrom | metro.go:133-151 | the stopping index from i lies between i and the fleet size; every train before it steps and none of those checkpoints is the cancelling one; if it is below the fleet size, cancellation is observed there or that train fails |
| Metro.Halt | metro.go:133-151 | the same facts for the whole tick, from index 0 |
| Metro.TickOutcome | metro.go:133-153 | the tick reports no error exactly when it reaches the end of the fleet, reports cancellation exactly when it stops at the cancelling checkpoint, and otherwise reports the wrapped error of the train at the stopping index |
| Metro.HaltFromPasses | metro.go:133-151 | a tick that reaches train i, where cancellation is not observed and the train can step, stops where it would have stopped from i+1 |
| Metro.HaltFromStops | metro.go:134-148 | a tick that reaches train i and observes cancellation there or finds that the train cannot step stops at i, and reports cancellation or that train's wrapped error respectively |
| Metro.HaltFromEnd | metro.go:133-153 | a tick that passes every train stops at the fleet size and reports no error |
| Metro.ProgressAt | metro.go:133-151 | after the loop has overwritten the first k trains, each of them holds its step result (or itself when it cannot step) and every later train is as it was |
| Metro.TickProgress | metro.go:133-153 | up to the stopping index every overwritten train is exactly its StepTrain result, and the trains from the stopping index on are untouched |
| Metro.TickSucceedsIff | metro.go:133-153 | a tick succeeds iff no checkpoint observes cancellation and every train of the fleet can step |
| Metro.CancelledTickProcessesNothing | metro.go:133-138 | cancellation at the first checkpoint stops at index 0 with the cancellation error, before any train is touched |
| Metro.PlacedFleetKeepsRunning | metro.go:133-153 | a fleet of placed trains on lines serving both directions ticks to the end without cancellation, and is again a placed fleet afterwards |
| Metro.Metro.constructor | metro.go:110-118 | the aggregate holds the given map, stations, lines and, in a fresh array, the given fleet |
| Metro.Metro.Tick | metro.go:129-154 | with k the stopping index, trains before k hold their StepTrain result, trains from k on are unchanged, the error is TickOutcome, and map, stations and lines are untouched |
| Fixture.DemoConnectionsValid | cmd/metrosrv/metrosrv.go:82-90 | every connection of the demonstration map satisfies the arity rule |
| Fixture.DemoCycle | cmd/metrosrv/metrosrv.go:110-128 | the demonstration train goes segment_1, segment_2, turns to segment_5, then segment_4, segment_3, and turns back to segment_0 outbound |
| Fixture.DemoFleetSteps | cmd/metrosrv/metrosrv.go:110-128 | the same six steps of the demonstration train, taken with its line looked up by name in the metro's line list |
| Fixture.DemoTick | cmd/metrosrv/metrosrv.go:54-57 | one uncancelled tick of the one-train demonstration metro reports no error and moves the train to its next state |
| Fixture.DemoSixTicks | cmd/metrosrv/metrosrv.go:46-67 | six uncancelled ticks of the demonstration metro each report no error, so the server loop would go on, and leave its one train where it started |

## Left out

- The `sync.RWMutex` of `Metro` (metro.go:111, 130-131) exists only for concurrency. `Tick` is one sequential method.
- `context.Context` (metro.go:134-138) is replaced by the abstract `cancelAt` index described above. `ctx.Err()` becomes the single `Cancelled` error.
- `fmt.Errorf` message texts (metro.go:142, 147) are not modelled. Only the wrapped kind and the line and train names are kept.
- The zero `Train{}` that `NextSegment` returns beside an error is not modelled. Every caller discards it.
- The server binary's timer loop, signal handling and logging are not modelled. Only its connection helpers and its demonstration network appear.
- `errors.go` is a file of three sentinel values. It appears as the `ErrorKind` datatype.
- Segments, connections, stations, platforms and a line's station names are kept as plain data. Traversal never reads them.
- ValidConnection is stated and proved of the helpers and of the demonstration map. The package never checks it, and neither does the model.
- Go slices and maps are reference values, but the core never writes a line or a route. The model therefore keeps lines as values, and only the fleet as an array that is updated in place.
