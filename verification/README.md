# Elevator kata — a verified model of its sequential core

The Go elevator kata has two packages. `elevator` runs one car: the car
admits destination floors, schedules stops, and an animation loop moves it
floor by floor until nothing is scheduled. `controller` runs a group of cars
and sends every hall call to the best-ranked car. Both packages wrap a small
amount of plain sequential logic in goroutines, channels and locks. This
project models that logic as pure Dafny functions on immutable records and
proves what it does.

- `int32.dfy`, module `Int32`: Go's `int32(x)` conversion. It is used where
  the car compares or bounds its `int32` floor.
- `elevator.dfy`, module `Elevator`: the car record, and its transitions
  `New`, `RequestDestinationFloor` (with `canTakeRequest` and
  `scheduleStop`), `stopElevator`, one iteration of `animate` (`Tick`, which
  includes `descheduleStop`), the whole loop with its 100000-iteration
  ceiling (`Run`, `Animate`), and the `GetLocation` snapshot (`Location`).
- `elevator_lemmas.dfy`, module `ElevatorLemmas`: theorems relating several
  transitions.
  - A tick moves one floor, never leaves the building, and deschedules the
    floor it reaches.
  - A car whose stops all lie ahead of it visits each of them once, in
    travel order, and comes to rest on the last one.
  - The two ways in which the code as written can end an animation only at
    the ceiling.
- `controller.dfy`, module `Controller`: building a group, the ranking of
  `PickElevator`, its argmax, and one dispatch step of `Start`. The argmax
  appears twice: once as the literal loops and once as a recursive
  reference that the loops are proved to agree with.
- `scenarios.dfy`, module `Scenarios`: the situations of the repository's
  tests, stated and proved as facts about the model.

A panic of the Go program is the outcome `Crash(fault)` of type `Result`.
The panics modelled are:
- `make` with a negative length;
- a slice index out of range: scheduling a floor outside the building, or
  picking from an empty group; also the tick's read of the flag of the floor
  reached in a building without floors (`Tick`). That read cannot be reached
  from a new car, because `scheduleStop` has already panicked on every floor
  of such a building;
- the "went cuckoo" panic after 100000 loop iterations.

Signalling `startAnimation` is the flag `Admission.startAnimation`. Each
`visitedFloors` send is one element appended to `Motion.visits`.

What the proofs expose about the code as written:
- Accepting a floor that is already scheduled raises the count without
  setting a new flag. The count then never returns to zero, and the
  animation can only end in the ceiling panic (`RepeatedRequestNeverFinishes`).
- An idle car below the top floor accepts a request for its own floor. It
  turns `Up` and leaves that floor on its first tick, before it checks the
  flag. The stop is never visited (`CurrentFloorRequestNeverFinishes`). At
  the top floor the same request is served: the car cannot move up, stays,
  and visits its own floor (`CurrentFloorRequestAtTopDelivers`).
- The ceiling test runs after the loop and is `i >= 100000`. So a run that
  empties its last stop on iteration 100000 still panics (`RunAtCeiling`).
- The ranking favours moving cars that are farther from the call
  (`FartherRanksHigher`).

The model keeps this behaviour rather than correcting it:
- Besides the "went cuckoo" ceiling panic (`elevator/elevator.go:191`), the
  code also panics on a negative size passed to `make`, on an admitted floor
  outside the building, and on an empty group.
- The tests expect every accepted floor to be visited eventually ("eventually
  stops in the requested floor", `elevator/elevator_test.go:33`, and
  "eventually stops in each requested floor", `elevator/elevator_test.go:42`).
  The code breaks this for the first two requests above.

## Model

| member | source | states |
|---|---|---|
| Int32.ToInt32 | src/github.com/fordaz/elevator-kata/elevator/elevator.go:173 | the result is an `int32`, congruent to the input modulo 2^32, equal to it when it already fits, and never above a non-negative input |
| Elevator.Location | src/github.com/fordaz/elevator-kata/elevator/elevator.go:78-83 | the snapshot is exactly the car's floor, state and direction |
| Elevator.New | src/github.com/fordaz/elevator-kata/elevator/elevator.go:54-67 | panics exactly when `numFloors` is negative; otherwise the car is valid, at floor 0, `Stopped`, facing `Up`, with every stop flag cleared and a count of 0 |
| Elevator.CanTakeRequest | src/github.com/fordaz/elevator-kata/elevator/elevator.go:103-115 | a stopped car takes every floor, a moving car takes exactly the floors strictly ahead of it in its direction, and every other state takes none |
| Elevator.ScheduleStop | src/github.com/fordaz/elevator-kata/elevator/elevator.go:117-134 | panics exactly for a floor outside the flags; otherwise the set of scheduled floors gains that floor, the count rises by one even when the floor was already set, and floor, id and building are kept |
| Elevator.RequestDestinationFloor | src/github.com/fordaz/elevator-kata/elevator/elevator.go:70-76 | accepted exactly when `canTakeRequest` holds; a rejection changes nothing; an acceptance schedules the floor; only the 0-to-1 step of the count starts the animation, sets `Moving` and turns `Up` exactly when the floor is not below the car; any other acceptance keeps state and direction; validity is preserved |
| Elevator.StopElevator | src/github.com/fordaz/elevator-kata/elevator/elevator.go:136-147 | the car is left `Stopped` with count 0 and every flag cleared, on the same floor and facing the same way |
| Elevator.Tick | src/github.com/fordaz/elevator-kata/elevator/elevator.go:172-187 | for a valid car, the tick panics exactly in a building without floors; otherwise it moves at most one floor and stays inside the building; direction, state and building are unchanged; validity is preserved |
| Elevator.NextFloor | src/github.com/fordaz/elevator-kata/elevator/elevator.go:172-183 | going up, the car moves one floor exactly when it is below the `int32` top floor, and otherwise stays; going down, it moves one floor exactly when it is above floor 0, and otherwise stays |
| ElevatorLemmas.TickDeschedules | src/github.com/fordaz/elevator-kata/elevator/elevator.go:149-155 | the floor reached loses its flag; if the flag was set, the count drops by one and exactly that floor is emitted; otherwise count, flags and visits are unchanged |
| ElevatorLemmas.TickMovesOneFloor | src/github.com/fordaz/elevator-kata/elevator/elevator.go:172-183 | in a building whose top floor fits an `int32`, a tick moves exactly one floor in the car's direction, except going down at floor 0 and going up at the top floor, where the car stays |
| Elevator.Run | src/github.com/fordaz/elevator-kata/elevator/elevator.go:170-194 | a loop that ends without panicking leaves the car idle, with direction, id and building unchanged; the only panic a valid car in a building with floors can reach is the ceiling; validity is preserved |
| Elevator.Animate | src/github.com/fordaz/elevator-kata/elevator/elevator.go:168-195 | a whole `animate` call that returns leaves the car idle and facing the same way; for a valid car in a building with floors, the only panic is the ceiling |
| ElevatorLemmas.RunAtCeiling | src/github.com/fordaz/elevator-kata/elevator/elevator.go:190-192 | once the counter has reached 100000 the run panics with the ceiling, whatever the count, including a count that the last iteration brought to zero |
| ElevatorLemmas.RunFinishes | src/github.com/fordaz/elevator-kata/elevator/elevator.go:190-194 | with no count left and the counter below 100000, the loop exits and `stopElevator` resets the car without emitting a visit |
| ElevatorLemmas.TickKeepsDeliverable | src/github.com/fordaz/elevator-kata/elevator/elevator.go:172-187 | a tick keeps a car whose stops are all ahead of it in that condition, with one count per stop, and while stops remain it uses up one floor of travel room |
| ElevatorLemmas.RunDelivers | src/github.com/fordaz/elevator-kata/elevator/elevator.go:170-194 | with enough iterations left, the loop from such a car ends normally; its visits are the scheduled floors, each nearest-first; and the car rests on the last floor visited |
| ElevatorLemmas.DeliveredInOrder | src/github.com/fordaz/elevator-kata/elevator/elevator.go:154 | such a visit sequence contains exactly the scheduled floors, each once, strictly increasing going up and strictly decreasing going down |
| ElevatorLemmas.AnimateDelivers | src/github.com/fordaz/elevator-kata/elevator/elevator.go:168-195 | in a building of at most 100000 floors, `animate` on such a car returns, visits every scheduled floor exactly once in travel order, and leaves the car idle on the last floor it visited |
| ElevatorLemmas.IdleIsDeliverable | src/github.com/fordaz/elevator-kata/elevator/elevator.go:136-147 | a car at rest with nothing scheduled, as `stopElevator` leaves it, satisfies the delivery invariant |
| ElevatorLemmas.AcceptKeepsDeliverable | src/github.com/fordaz/elevator-kata/elevator/elevator.go:117-134 | accepting a floor that is neither scheduled nor the current floor keeps every stop ahead of the car with one count per stop |
| ElevatorLemmas.SurplusNeverFinishes | src/github.com/fordaz/elevator-kata/elevator/elevator.go:170-192 | while the count exceeds the number of set flags, the loop always ends in the ceiling panic |
| ElevatorLemmas.StrandedNeverFinishes | src/github.com/fordaz/elevator-kata/elevator/elevator.go:172-192 | a scheduled stop behind the car is never reached, so the loop ends in the ceiling panic |
| ElevatorLemmas.RepeatedRequestNeverFinishes | src/github.com/fordaz/elevator-kata/elevator/elevator.go:122-123 | after an accepted request for a floor already scheduled, the next animation ends in the ceiling panic |
| ElevatorLemmas.CurrentFloorRequestNeverFinishes | src/github.com/fordaz/elevator-kata/elevator/elevator.go:125-131 | an idle car below the top floor, asked for its own floor, accepts it, turns `Up`, and its animation ends in the ceiling panic |
| ElevatorLemmas.CurrentFloorRequestAtTopDelivers | src/github.com/fordaz/elevator-kata/elevator/elevator.go:125-131 | an idle car at or above the top floor, asked for its own floor, accepts it, turns `Up`, and its animation returns with that floor as its only visit and the car resting on it |
| Controller.NewGroup | src/github.com/fordaz/elevator-kata/controller/controller.go:36-50 | panics exactly for a negative group size, or for a non-empty group in a building with a negative number of floors; otherwise car `k` is a new car with id `k` |
| Controller.Rank | src/github.com/fordaz/elevator-kata/controller/controller.go:118-145 | every rank is at least 0; a car that is not moving ranks 0; a moving car ranks at least 1 and so outranks every car that is not moving |
| Controller.RankMeasuresApproach | src/github.com/fordaz/elevator-kata/controller/controller.go:124-143 | a moving car that approaches the call in the requested direction ranks one plus its distance; any other moving car ranks exactly 1 |
| Controller.FartherRanksHigher | src/github.com/fordaz/elevator-kata/controller/controller.go:130-143 | between two such approaching cars, the higher rank goes to the one farther away, and only to it |
| Controller.PickIsUnique | src/github.com/fordaz/elevator-kata/controller/controller.go:149-154 | at most one index has a maximal rank with every earlier index strictly lower |
| Controller.Best | src/github.com/fordaz/elevator-kata/controller/controller.go:147-154 | the reference argmax: a maximal rank, and the lowest index holding it |
| Controller.Pick | src/github.com/fordaz/elevator-kata/controller/controller.go:147-161 | panics exactly for an empty group; otherwise the index picked has a maximal rank, and every lower index ranks strictly less |
| Controller.PickElevator | src/github.com/fordaz/elevator-kata/controller/controller.go:113-162 | the literal loops, with the -1 sentinel and the fallback to index 0, agree with the reference pick; they panic exactly for an empty group; the fallback is dead for a non-empty group, since every rank is at least 0 |
| Controller.PickPrefersMoving | src/github.com/fordaz/elevator-kata/controller/controller.go:126-154 | if any car is moving, a moving car is picked; if none is, car 0 is picked |
| Controller.Dispatch | src/github.com/fordaz/elevator-kata/controller/controller.go:57-61 | the step panics exactly for an empty group, or when the picked car accepts a floor outside its building; otherwise only the picked car changes, it changes as `RequestDestinationFloor` says, and every car stays valid |
| Controller.DispatchPicksBySnapshot | src/github.com/fordaz/elevator-kata/controller/controller.go:120-122 | the car picked depends only on what the cars report through `GetLocation` |
| Controller.DispatchKeepsLocations | src/github.com/fordaz/elevator-kata/controller/controller.go:57-61 | a dispatch moves no car; every car but the picked one reports the same location as before; a started car reports `Moving`; a rejected floor leaves every location unchanged |
| Scenarios.SingleRequest | src/github.com/fordaz/elevator-kata/elevator/elevator_test.go:32-40 | a new car asked for floor 1 accepts, and its animation visits floor 1 |
| Scenarios.TwoRequests | src/github.com/fordaz/elevator-kata/elevator/elevator_test.go:41-52 | floors 3 and 6 are both accepted, and the animation visits 3 and then 6 |
| Scenarios.ClimbToThree | src/github.com/fordaz/elevator-kata/elevator/elevator_test.go:53-61 | three ticks bring that car to floor 3, where it visits 3 |
| Scenarios.RejectBehind | src/github.com/fordaz/elevator-kata/elevator/elevator_test.go:63-66 | at floor 3 going up, floor 2 is rejected without change, and the rest of the run visits 6 |
| Scenarios.NewGroupOfTwo | src/github.com/fordaz/elevator-kata/controller/controller_test.go:15-18 | a group of two cars starts with both cars idle on floor 0 |
| Scenarios.GroupSingleCall | src/github.com/fordaz/elevator-kata/controller/controller_test.go:23-30 | a call from floor 2 goes to car 0, which visits floor 2 |
| Scenarios.GroupTwoCalls | src/github.com/fordaz/elevator-kata/controller/controller_test.go:32-41 | calls from floors 5 and then 2 both go to car 0, since after the first call it is the only moving car |
| Scenarios.BusyCarZeroDelivers | src/github.com/fordaz/elevator-kata/controller/controller_test.go:37-40 | that car visits 2 and then 5, and rests at floor 5 |
| Scenarios.GroupRoundTrip | src/github.com/fordaz/elevator-kata/controller/controller_test.go:43-54 | a later call from floor 3 goes to car 0 at floor 5, which turns down and visits 3 |

## Left out

- Goroutines, channels and `select` (`Elevator.Start`, both `Shutdown`s, `ElevatorsGroup.Start`'s loop, `RequestElevator`'s channel send): the model is single-threaded.
  - One dispatch step is `Dispatch`.
  - A request is handed to it directly.
  - Starting an animation is the `startAnimation` flag, which the caller follows with `Animate`.
- Interleaving requests with a running animation: no scheduler is modelled. `Tick` and `RequestDestinationFloor` can be composed by hand, as `RejectBehind` does, but `Run` assumes that no request arrives during the run.
- `sync.RWMutex` and `sync/atomic`: every transition is atomic.
- `time.Sleep`, `CheckVisitedFloor` and every timeout: they are wall-clock behaviour with no sequential meaning.
- `fmt.Printf` logging.
- Overflow of Go's 64-bit `int` (request floors, the stop count, rank arithmetic near ±2^63) is not modelled. The `int32` conversions of the car's floor are modelled.
- `Direction` is a string type in Go, so a request could carry any string. The model has only `Up` and `Down`.
- The states `Hold`, `Panic` and `OutOfService` exist only so that admission can reject them. No transition enters them.
- ElevatorLemmas.AnimateDelivers: stated only for buildings of at most 100000 floors, because a longer trip can legitimately reach the iteration ceiling.
- ElevatorLemmas.AcceptKeepsDeliverable: stated only for buildings whose top floor fits an `int32`. In a larger building the `int32` conversion in `scheduleStop` can choose the wrong direction.
