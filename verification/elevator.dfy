/** One elevator car (elevator/elevator.go): its state record, the admission
    rule for destination requests, scheduling a stop, one iteration of the
    animation loop, the whole loop with its iteration ceiling, and the reset
    that ends it.

    Every transition is a pure function on an immutable `Car`. A run-time
    panic of the Go program (a slice index out of range, a negative slice
    length, the "went cuckoo" ceiling) is the outcome `Crash(fault)`. */
module Elevator {
  import Int32

  /** Number of loop iterations after which `animate` panics. */
  const Ceiling: nat := 100000

  datatype Direction = Up | Down

  /** `Hold`, `Panic` and `OutOfService` are declared by the program but no
      transition ever enters them; they exist so that admission can reject
      them. */
  datatype State = Stopped | Hold | Panic | OutOfService | Moving

  datatype Fault =
    | NegativeLength     // make() with a negative length
    | IndexOutOfRange    // a slice index outside [0, len)
    | IterationCeiling   // the animation loop ran 100000 iterations

  datatype Result<T> = Ok(value: T) | Crash(fault: Fault)

  /** `stops[i]` is the flag `scheduledStops[i] == 1`; `count` is
      `numScheduledStops`, which the program keeps separately from the flags
      and which need not equal the number of flags set. */
  datatype Car = Car(
    id: int,
    floor: int,
    direction: Direction,
    state: State,
    numFloors: int,
    stops: seq<bool>,
    count: int)

  /** What `GetLocation` hands out, and all the dispatcher ever reads. */
  datatype Snapshot = Snapshot(floor: int, state: State, direction: Direction)

  /** The outcome of `RequestDestinationFloor`: whether the floor was
      accepted, the car afterwards, and whether the car was signalled to start
      its animation loop. */
  datatype Admission = Admission(accepted: bool, car: Car, startAnimation: bool)

  /** A car together with the visit notifications it has emitted so far. */
  datatype Motion = Motion(car: Car, visits: seq<int>)

  /** The floors whose stop flag is set. */
  function StopSet(stops: seq<bool>): set<int>
  {
    set i | 0 <= i < |stops| && stops[i]
  }

  /** The facts every reachable car satisfies: one flag per floor, the floor
      an `int32` inside the building (floor 0 of a building without floors),
      and a stop count never below the number of flags set. */
  predicate Valid(c: Car)
  {
    && c.numFloors == |c.stops|
    && 0 <= c.floor <= Int32.MaxInt32
    && (c.floor < c.numFloors || c.floor == 0)
    && c.count >= |StopSet(c.stops)|
  }

  /** A car at rest with nothing scheduled. */
  predicate Idle(c: Car)
  {
    c.state == Stopped && c.count == 0 && StopSet(c.stops) == {}
  }

  /** Floor `d` lies strictly beyond `floor` when travelling in `dir`. */
  predicate Ahead(dir: Direction, floor: int, d: int)
  {
    if dir == Up then d > floor else d < floor
  }

  /** The highest floor the animation loop moves up to: `int32(numFloors-1)`. */
  function TopFloor(c: Car): int
  {
    Int32.ToInt32(c.numFloors - 1)
  }

  /** `GetLocation`: the car's floor, state and direction, and nothing else. */
  function Location(c: Car): (s: Snapshot)
    ensures s.floor == c.floor && s.state == c.state && s.direction == c.direction
  {
    Snapshot(c.floor, c.state, c.direction)
  }

  /** `New`: a car on the ground floor, stopped, facing up, nothing scheduled.
      `make([]int, numFloors)` panics on a negative length. */
  function New(id: int, numFloors: int): (r: Result<Car>)
    ensures r.Crash? <==> numFloors < 0
    ensures r.Ok? ==> var c := r.value;
      && Valid(c) && Idle(c)
      && c.id == id && c.floor == 0 && c.direction == Up
      && c.numFloors == numFloors
      && forall i :: 0 <= i < |c.stops| ==> !c.stops[i]
  {
    if numFloors < 0 then Crash(NegativeLength)
    else Ok(Car(id, 0, Up, Stopped, numFloors, seq(numFloors, _ => false), 0))
  }

  /** `canTakeRequest`: a stopped car takes any floor, a moving car only a
      floor strictly ahead of it, and a car in any other state none. */
  function CanTakeRequest(c: Car, d: int): (ok: bool)
    ensures ok <==> c.state == Stopped || (c.state == Moving && Ahead(c.direction, c.floor, d))
  {
    if c.state == Stopped then true
    else if c.state == Moving && c.direction == Up then c.floor + 1 <= d
    else if c.state == Moving && c.direction == Down then c.floor - 1 >= d
    else false
  }

  /** `scheduleStop`: set the flag and bump the count, whether or not the flag
      was already set; on the count's step from 0 to 1 start moving, upwards
      unless the floor lies below the car. */
  function ScheduleStop(c: Car, d: int): (r: Result<Admission>)
    ensures r.Crash? <==> !(0 <= d < |c.stops|)
    ensures r.Ok? ==> var a := r.value;
      && a.accepted
      && StopSet(a.car.stops) == StopSet(c.stops) + {d}
      && |StopSet(a.car.stops)| == |StopSet(c.stops)| + (if d in StopSet(c.stops) then 0 else 1)
      && |a.car.stops| == |c.stops|
      && a.car.count == c.count + 1
      && a.car.floor == c.floor && a.car.id == c.id && a.car.numFloors == c.numFloors
  {
    if !(0 <= d < |c.stops|) then Crash(IndexOutOfRange)
    else
      var stops := c.stops[d := true];
      var count := c.count + 1;
      assert StopSet(stops) == StopSet(c.stops) + {d};
      assert d in StopSet(c.stops) ==> StopSet(stops) == StopSet(c.stops);
      assert d !in StopSet(c.stops) ==> |StopSet(stops)| == |StopSet(c.stops)| + 1;
      if count == 1 then
        var dir := if Int32.ToInt32(d) >= c.floor then Up else Down;
        Ok(Admission(true, c.(stops := stops, count := count, state := Moving, direction := dir), true))
      else
        Ok(Admission(true, c.(stops := stops, count := count), false))
  }

  /** `RequestDestinationFloor`: admit or reject, then schedule. A rejection
      changes nothing; an admitted floor outside the building panics. */
  function RequestDestinationFloor(c: Car, d: int): (r: Result<Admission>)
    ensures r.Crash? <==> CanTakeRequest(c, d) && !(0 <= d < |c.stops|)
    ensures r.Ok? ==> (r.value.accepted <==> CanTakeRequest(c, d))
    ensures r.Ok? && !r.value.accepted ==> r.value.car == c && !r.value.startAnimation
    ensures r.Ok? && r.value.accepted ==> var c' := r.value.car;
      && StopSet(c'.stops) == StopSet(c.stops) + {d}
      && |StopSet(c'.stops)| == |StopSet(c.stops)| + (if d in StopSet(c.stops) then 0 else 1)
      && |c'.stops| == |c.stops|
      && c'.count == c.count + 1
      && c'.floor == c.floor && c'.id == c.id && c'.numFloors == c.numFloors
      && (r.value.startAnimation <==> c.count == 0)
    ensures r.Ok? && r.value.startAnimation ==> var c' := r.value.car;
      && c'.state == Moving
      && (c'.direction == Up <==> Int32.ToInt32(d) >= c.floor)
      && (d <= Int32.MaxInt32 ==> (c'.direction == Up <==> d >= c.floor))
    ensures r.Ok? && !r.value.startAnimation ==>
      r.value.car.state == c.state && r.value.car.direction == c.direction
    ensures r.Ok? && Valid(c) ==> Valid(r.value.car)
  {
    if CanTakeRequest(c, d) then ScheduleStop(c, d)
    else Ok(Admission(false, c, false))
  }

  /** `stopElevator`: back to `Stopped` with every stop cleared and the count
      zeroed; floor and direction are kept. */
  function StopElevator(c: Car): (r: Car)
    ensures Idle(r)
    ensures forall i :: 0 <= i < |r.stops| ==> !r.stops[i]
    ensures |r.stops| == |c.stops|
    ensures r.floor == c.floor && r.direction == c.direction
    ensures r.id == c.id && r.numFloors == c.numFloors
    ensures Valid(c) ==> Valid(r)
  {
    c.(state := Stopped, count := 0, stops := seq(|c.stops|, _ => false))
  }

  /** The floor after the move at the top of one loop iteration: one floor in
      the car's direction, unless it is already at the top floor going up or
      at floor 0 (or below) going down, where it stays. */
  function NextFloor(c: Car): (f: int)
    ensures c.direction == Up ==> (f == c.floor + 1 <==> c.floor < TopFloor(c))
    ensures c.direction == Down ==> (f == c.floor - 1 <==> c.floor > 0)
    ensures c.direction == Up ==> f == c.floor || f == c.floor + 1
    ensures c.direction == Down ==> f == c.floor || f == c.floor - 1
  {
    if c.direction == Up && c.floor < TopFloor(c) then c.floor + 1
    else if c.direction == Down && c.floor > 0 then c.floor - 1
    else c.floor
  }

  /** One iteration of `animate`'s loop body: move one floor in the current
      direction unless at the end of the shaft, then, if the floor reached is
      scheduled, deschedule it and emit a visit for it (`descheduleStop`).
      Reading the flag of a floor outside the slice panics. What descheduling
      does to the stops, the count and the visits is stated separately, by
      `ElevatorLemmas.TickDeschedules`. */
  function Tick(m: Motion): (r: Result<Motion>)
    ensures Valid(m.car) ==> (r.Ok? <==> m.car.numFloors >= 1)
    ensures r.Ok? ==> var c, c' := m.car, r.value.car;
      && 0 <= c'.floor < |c.stops|
      && -1 <= c'.floor - c.floor <= 1
      && c'.direction == c.direction && c'.state == c.state
      && c'.id == c.id && c'.numFloors == c.numFloors
      && |c'.stops| == |c.stops|
    ensures r.Ok? && Valid(m.car) ==> Valid(r.value.car)
  {
    var c := m.car;
    var f := NextFloor(c);
    if !(0 <= f < |c.stops|) then Crash(IndexOutOfRange)
    else if c.stops[f] then
      var stops := c.stops[f := false];
      assert StopSet(stops) == StopSet(c.stops) - {f};
      Ok(Motion(c.(floor := f, stops := stops, count := c.count - 1), m.visits + [f]))
    else
      assert StopSet(c.stops) == StopSet(c.stops) - {f};
      Ok(Motion(c.(floor := f), m.visits))
  }

  /** `animate`'s loop from iteration `i` on, with the visits it emits:
      iterate while stops are counted and fewer than `Ceiling` iterations have
      run, panic if the counter has reached the ceiling (even when the last
      iteration emptied the count), otherwise reset the car. */
  function Run(c: Car, i: nat): (r: Result<Motion>)
    decreases Ceiling - i
    ensures r.Ok? ==> var c' := r.value.car;
      && Idle(c')
      && c'.direction == c.direction && c'.id == c.id && c'.numFloors == c.numFloors
      && |c'.stops| == |c.stops|
    ensures r.Ok? && Valid(c) ==> Valid(r.value.car)
    ensures r.Crash? && Valid(c) && c.numFloors >= 1 ==> r.fault == IterationCeiling
  {
    if c.count > 0 && i < Ceiling then
      match Tick(Motion(c, []))
      case Crash(e) => Crash(e)
      case Ok(m) =>
        match Run(m.car, i + 1)
        case Crash(e) => Crash(e)
        case Ok(rest) => Ok(Motion(rest.car, m.visits + rest.visits))
    else if i >= Ceiling then Crash(IterationCeiling)
    else Ok(Motion(StopElevator(c), []))
  }

  /** One whole run of `animate`, started with the iteration counter at 0. */
  function Animate(c: Car): (r: Result<Motion>)
    ensures r.Ok? ==> Idle(r.value.car) && r.value.car.direction == c.direction
    ensures r.Ok? && Valid(c) ==> Valid(r.value.car)
    ensures r.Crash? && Valid(c) && c.numFloors >= 1 ==> r.fault == IterationCeiling
  {
    Run(c, 0)
  }
}
