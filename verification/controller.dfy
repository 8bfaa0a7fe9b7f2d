/** The dispatcher of a group of cars (controller/controller.go): building the
    group, ranking the cars for a hall request from their location snapshots,
    picking the best-ranked car, and forwarding the request's floor to it. */
module Controller {
  import opened Elevator

  /** A hall call: the floor it was made on and the direction asked for. */
  datatype Request = Request(floor: int, direction: Direction)

  /** The group after one dispatch step: the cars, the index that was picked,
      and the picked car's answer to the forwarded floor. */
  datatype Dispatched = Dispatched(
    cars: seq<Car>,
    picked: nat,
    accepted: bool,
    startAnimation: bool)

  /** A car is coming towards the calling floor in the direction asked for:
      going down from above it, or going up from below or level with it. */
  predicate Approaching(req: Request, s: Snapshot)
  {
    && s.direction == req.direction
    && (if s.direction == Down then s.floor > req.floor else s.floor <= req.floor)
  }

  /** `New`: cars numbered 0 .. n-1, each a new car of the building.
      `make` panics on a negative group size, and so does every car's own
      `make` on a negative number of floors once there is a car to build. */
  function NewGroup(n: int, numFloors: int): (r: Result<seq<Car>>)
    ensures r.Crash? <==> n < 0 || (n > 0 && numFloors < 0)
    ensures r.Ok? ==> |r.value| == n
    ensures r.Ok? ==> forall k :: 0 <= k < |r.value| ==>
      && Valid(r.value[k]) && Idle(r.value[k])
      && r.value[k].id == k && r.value[k].floor == 0 && r.value[k].direction == Up
      && r.value[k].numFloors == numFloors
  {
    if n < 0 then Crash(NegativeLength)
    else if n > 0 && numFloors < 0 then Crash(NegativeLength)
    else Ok(seq(n, k requires 0 <= k < n => New(k, numFloors).value))
  }

  /** The rank `PickElevator` gives one car: one point for moving, plus the
      floor gap when the car moves in the requested direction towards the
      calling floor. */
  function Rank(req: Request, s: Snapshot): (r: int)
    ensures r >= 0
    ensures s.state != Moving ==> r == 0
    ensures s.state == Moving ==> r >= 1
  {
    var moving := s.state == Moving;
    var gap := s.floor - req.floor;
    var sameDirection := req.direction == s.direction;
    var above := gap >= 1;
    var goingDown := s.direction == Down;
    var r0 := if moving then 1 else 0;
    var r1 := if moving && above && sameDirection && goingDown then r0 + gap else r0;
    if moving && !above && sameDirection && !goingDown then r1 + -1 * gap else r1
  }

  function Ranks(req: Request, snaps: seq<Snapshot>): seq<int>
  {
    seq(|snaps|, k requires 0 <= k < |snaps| => Rank(req, snaps[k]))
  }

  /** What each car reports through `GetLocation`. */
  function Snapshots(cars: seq<Car>): seq<Snapshot>
  {
    seq(|cars|, k requires 0 <= k < |cars| => Location(cars[k]))
  }

  /** `k` is a maximal rank, and the first index holding it. */
  predicate IsPick(ranks: seq<int>, k: int)
  {
    && 0 <= k < |ranks|
    && (forall j :: 0 <= j < |ranks| ==> ranks[j] <= ranks[k])
    && (forall j :: 0 <= j < k ==> ranks[j] < ranks[k])
  }

  /** The first index of a maximal rank, found from the left. */
  function Best(ranks: seq<int>): (k: nat)
    requires |ranks| > 0
    ensures IsPick(ranks, k)
    decreases |ranks|
  {
    if |ranks| == 1 then 0
    else
      var b := Best(ranks[..|ranks| - 1]);
      assert forall j :: 0 <= j < |ranks| - 1 ==> ranks[..|ranks| - 1][j] == ranks[j];
      if ranks[|ranks| - 1] > ranks[b] then |ranks| - 1 else b
  }

  /** At most one index is a pick. */
  lemma PickIsUnique(ranks: seq<int>, k1: int, k2: int)
    requires IsPick(ranks, k1) && IsPick(ranks, k2)
    ensures k1 == k2
  {
    assert ranks[k1] == ranks[k2];
  }

  /** The picker's choice as a function: the first best-ranked car; an empty
      group panics on `elevators[0]`. */
  function Pick(req: Request, snaps: seq<Snapshot>): (r: Result<nat>)
    ensures r.Crash? <==> |snaps| == 0
    ensures r.Ok? ==> IsPick(Ranks(req, snaps), r.value)
  {
    if |snaps| == 0 then Crash(IndexOutOfRange)
    else Ok(Best(Ranks(req, snaps)))
  }

  /** `PickElevator` as written: rank every car, keep the first strictly
      larger rank starting from -1, fall back to index 0 when nothing beat
      -1, and index the group with the result. */
  method PickElevator(req: Request, snaps: seq<Snapshot>) returns (r: Result<nat>)
    ensures r.Crash? <==> |snaps| == 0
    ensures r.Ok? ==> IsPick(Ranks(req, snaps), r.value)
    ensures r == Pick(req, snaps)
  {
    var ranks: seq<int> := [];
    var i := 0;
    while i < |snaps|
      invariant 0 <= i <= |snaps|
      invariant ranks == Ranks(req, snaps[..i])
    {
      var s := snaps[i];
      var rank := 0;
      var moving := s.state == Moving;
      if moving {
        rank := rank + 1;
      }
      var gap := s.floor - req.floor;
      var sameDirection := req.direction == s.direction;
      var above := gap >= 1;
      var goingDown := s.direction == Down;
      if moving && above && sameDirection && goingDown {
        rank := rank + gap;
      }
      if moving && !above && sameDirection && !goingDown {
        rank := rank + -1 * gap;
      }
      assert snaps[..i + 1] == snaps[..i] + [s];
      ranks := ranks + [rank];
      i := i + 1;
    }
    assert snaps[..i] == snaps;

    var maxRanked := -1;
    var maxRanking := -1;
    i := 0;
    while i < |ranks|
      invariant 0 <= i <= |ranks|
      invariant -1 <= maxRanked < i
      invariant maxRanked == -1 <==> i == 0
      invariant maxRanked == -1 ==> maxRanking == -1
      invariant maxRanked >= 0 ==> maxRanking == ranks[maxRanked]
      invariant forall j :: 0 <= j < i ==> ranks[j] <= maxRanking
      invariant forall j :: 0 <= j < maxRanked ==> ranks[j] < maxRanking
      invariant i > 0 ==> maxRanking >= 0
    {
      if ranks[i] > maxRanking {
        maxRanked := i;
        maxRanking := ranks[i];
      }
      i := i + 1;
    }

    // Every rank is at least 0, so the fallback only fires for an empty group.
    assert |snaps| > 0 ==> maxRanking >= 0;
    if maxRanking == -1 {
      maxRanked := 0;
    }

    if !(0 <= maxRanked < |snaps|) {
      return Crash(IndexOutOfRange);
    }
    PickIsUnique(ranks, maxRanked, Best(ranks));
    r := Ok(maxRanked);
  }

  /** One turn of `Start`'s loop: pick a car from the snapshots and forward
      the request's floor to that car alone. */
  function Dispatch(cars: seq<Car>, req: Request): (r: Result<Dispatched>)
    ensures r.Crash? <==>
      || |cars| == 0
      || (var k := Pick(req, Snapshots(cars)).value;
          CanTakeRequest(cars[k], req.floor) && !(0 <= req.floor < |cars[k].stops|))
    ensures r.Ok? ==> var d := r.value;
      && |d.cars| == |cars|
      && d.picked < |cars|
      && IsPick(Ranks(req, Snapshots(cars)), d.picked)
      && (forall j :: 0 <= j < |cars| && j != d.picked ==> d.cars[j] == cars[j])
      && RequestDestinationFloor(cars[d.picked], req.floor)
           == Ok(Admission(d.accepted, d.cars[d.picked], d.startAnimation))
    ensures r.Ok? && (forall j :: 0 <= j < |cars| ==> Valid(cars[j])) ==>
      forall j :: 0 <= j < |r.value.cars| ==> Valid(r.value.cars[j])
  {
    match Pick(req, Snapshots(cars))
    case Crash(e) => Crash(e)
    case Ok(k) =>
      match RequestDestinationFloor(cars[k], req.floor)
      case Crash(e) => Crash(e)
      case Ok(a) => Ok(Dispatched(cars[k := a.car], k, a.accepted, a.startAnimation))
  }

  /** How far the car is from the calling floor. */
  function Distance(req: Request, s: Snapshot): nat
  {
    if s.floor >= req.floor then s.floor - req.floor else req.floor - s.floor
  }

  /** The rank in closed form: a moving car coming towards the call in the
      requested direction scores one plus its distance, any other moving car
      scores one, and a car that is not moving scores nothing. */
  lemma RankMeasuresApproach(req: Request, s: Snapshot)
    ensures s.state != Moving ==> Rank(req, s) == 0
    ensures s.state == Moving && Approaching(req, s) ==> Rank(req, s) == 1 + Distance(req, s)
    ensures s.state == Moving && !Approaching(req, s) ==> Rank(req, s) == 1
  {
  }

  /** Among cars moving towards the call in the requested direction, the one
      farther away ranks higher: the heuristic favours distance, not
      proximity. */
  lemma FartherRanksHigher(req: Request, a: Snapshot, b: Snapshot)
    requires a.state == Moving && Approaching(req, a)
    requires b.state == Moving && Approaching(req, b)
    ensures Rank(req, a) > Rank(req, b) <==> Distance(req, a) > Distance(req, b)
  {
    RankMeasuresApproach(req, a);
    RankMeasuresApproach(req, b);
  }

  /** If any car is moving the picked car is moving; if none is, every rank
      is 0 and the tie-break picks car 0. */
  lemma PickPrefersMoving(req: Request, snaps: seq<Snapshot>)
    requires |snaps| > 0
    ensures (exists j :: 0 <= j < |snaps| && snaps[j].state == Moving) ==>
      snaps[Pick(req, snaps).value].state == Moving
    ensures (forall j :: 0 <= j < |snaps| ==> snaps[j].state != Moving) ==>
      Pick(req, snaps) == Ok(0)
  {
    var ranks, k := Ranks(req, snaps), Pick(req, snaps).value;
    if j :| 0 <= j < |snaps| && snaps[j].state == Moving {
      assert ranks[j] >= 1 && ranks[k] >= ranks[j];
    }
    if k > 0 {
      assert ranks[0] < ranks[k];
    }
  }

  /** A dispatch reads the cars only through their snapshots: two groups that
      report the same locations get the same car picked. */
  lemma DispatchPicksBySnapshot(cars1: seq<Car>, cars2: seq<Car>, req: Request)
    requires Snapshots(cars1) == Snapshots(cars2)
    requires Dispatch(cars1, req).Ok? && Dispatch(cars2, req).Ok?
    ensures Dispatch(cars1, req).value.picked == Dispatch(cars2, req).value.picked
  {
    PickIsUnique(Ranks(req, Snapshots(cars1)), Dispatch(cars1, req).value.picked,
      Dispatch(cars2, req).value.picked);
  }

  /** What the next dispatch will see: forwarding a floor never moves a car,
      every car but the picked one reports the same location as before, and
      a rejected floor leaves every location as it was. */
  lemma DispatchKeepsLocations(cars: seq<Car>, req: Request)
    requires Dispatch(cars, req).Ok?
    ensures var d := Dispatch(cars, req).value;
      && |Snapshots(d.cars)| == |Snapshots(cars)|
      && (forall j :: 0 <= j < |cars| ==> Snapshots(d.cars)[j].floor == Snapshots(cars)[j].floor)
      && (forall j :: 0 <= j < |cars| && j != d.picked ==> Snapshots(d.cars)[j] == Snapshots(cars)[j])
      && (d.startAnimation ==> Snapshots(d.cars)[d.picked].state == Moving)
      && (!d.accepted ==> Snapshots(d.cars) == Snapshots(cars))
  {
    var d := Dispatch(cars, req).value;
    if !d.accepted {
      assert d.cars[d.picked] == cars[d.picked];
      assert forall j :: 0 <= j < |cars| ==> Snapshots(d.cars)[j] == Snapshots(cars)[j];
    }
  }
}
