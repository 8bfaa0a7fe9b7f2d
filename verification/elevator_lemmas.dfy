/** Properties of a car's animation that relate several transitions: the
    floor arithmetic of one tick, the conditions under which a run delivers
    every scheduled stop, and the two ways the literal program can only end a
    run at the iteration ceiling. */
module ElevatorLemmas {
  import Int32
  import opened Elevator

  /** Every scheduled stop lies strictly ahead of the car. */
  predicate AllAhead(c: Car)
  {
    forall j :: j in StopSet(c.stops) ==> Ahead(c.direction, c.floor, j)
  }

  /** A car from which a run visits everything it has scheduled: all stops
      ahead, one count per stop, and moving whenever anything is counted. */
  predicate Deliverable(c: Car)
  {
    && AllAhead(c)
    && c.count == |StopSet(c.stops)|
    && (c.count > 0 ==> c.state == Moving)
  }

  /** Floors the car can still travel in its direction. */
  function Room(c: Car): int
  {
    if c.direction == Up then c.numFloors - 1 - c.floor else c.floor
  }

  /** `v` visits the floors of `s` one at a time, each the nearest in
      travel order among those still to come. */
  predicate Delivered(dir: Direction, s: set<int>, v: seq<int>)
    decreases |v|
  {
    if v == [] then s == {}
    else
      && v[0] in s
      && (forall x :: x in s - {v[0]} ==> Ahead(dir, v[0], x))
      && Delivered(dir, s - {v[0]}, v[1..])
  }

  /** Where a car that started at `floor` is after visiting `v`. */
  function LastFloor(floor: int, v: seq<int>): int
  {
    if v == [] then floor else v[|v| - 1]
  }

  /** A stop the car has already passed, or is sitting on but about to move
      away from: the tick moves before it looks at the flags. */
  predicate Behind(c: Car, j: int)
  {
    if c.direction == Up then j < c.floor || (j == c.floor && c.floor < TopFloor(c))
    else j > c.floor || (j == c.floor && c.floor > 0)
  }

  /** The three ways one pass of the loop test can go: take another turn and
      prepend its visit to the rest of the run, stop at the ceiling, or finish
      and reset the car. */
  lemma RunUnfolds(c: Car, i: nat)
    requires c.count > 0 && i < Ceiling && Tick(Motion(c, [])).Ok?
    ensures var t := Tick(Motion(c, [])).value;
      var rest := Run(t.car, i + 1);
      Run(c, i) == if rest.Ok? then Ok(Motion(rest.value.car, t.visits + rest.value.visits)) else rest
  {
  }

  lemma RunAtCeiling(c: Car, i: nat)
    requires i >= Ceiling
    ensures Run(c, i) == Crash(IterationCeiling)
  {
  }

  lemma RunFinishes(c: Car, i: nat)
    requires c.count <= 0 && i < Ceiling
    ensures Run(c, i) == Ok(Motion(StopElevator(c), []))
  {
  }

  /** `descheduleStop` as one tick performs it: the floor reached loses its
      flag; if the flag was set the count drops by one and the floor is
      emitted as a visit, otherwise neither changes. */
  lemma TickDeschedules(m: Motion)
    requires Tick(m).Ok?
    ensures var c, c' := m.car, Tick(m).value.car;
      && StopSet(c'.stops) == StopSet(c.stops) - {c'.floor}
      && (c'.floor in StopSet(c.stops) ==>
            && c'.count == c.count - 1
            && |StopSet(c'.stops)| == |StopSet(c.stops)| - 1
            && Tick(m).value.visits == m.visits + [c'.floor])
      && (c'.floor !in StopSet(c.stops) ==>
            && c'.count == c.count
            && StopSet(c'.stops) == StopSet(c.stops)
            && Tick(m).value.visits == m.visits)
  {
    var c, f := m.car, NextFloor(m.car);
    if c.stops[f] {
      assert StopSet(c.stops[f := false]) == StopSet(c.stops) - {f};
    } else {
      assert f !in StopSet(c.stops);
    }
  }

  /** In a building whose top floor fits an `int32`, a tick moves exactly one
      floor in the car's direction, except at floor 0 going down and at the
      top floor going up, where the car stays put; it never leaves the
      building. */
  lemma TickMovesOneFloor(m: Motion)
    requires Valid(m.car) && 1 <= m.car.numFloors <= Int32.MaxInt32 + 1
    ensures Tick(m).Ok?
    ensures var c, f := m.car, Tick(m).value.car.floor;
      && 0 <= f <= c.numFloors - 1
      && (c.direction == Up ==> f == if c.floor < c.numFloors - 1 then c.floor + 1 else c.floor)
      && (c.direction == Down ==> f == if c.floor > 0 then c.floor - 1 else c.floor)
  {
    assert TopFloor(m.car) == m.car.numFloors - 1;
  }

  /** A tick keeps a deliverable car deliverable, and while anything is
      scheduled it uses up one floor of room. */
  lemma TickKeepsDeliverable(m: Motion)
    requires Valid(m.car) && Deliverable(m.car)
    requires 1 <= m.car.numFloors <= Int32.MaxInt32 + 1
    ensures Tick(m).Ok?
    ensures Deliverable(Tick(m).value.car)
    ensures m.car.count > 0 ==> Room(Tick(m).value.car) == Room(m.car) - 1
  {
    var c := m.car;
    TickMovesOneFloor(m);
    TickDeschedules(m);
    var c' := Tick(m).value.car;
    if c.count > 0 {
      assert StopSet(c.stops) != {};
      var j :| j in StopSet(c.stops);
      assert Ahead(c.direction, c.floor, j);
      assert c'.floor == if c.direction == Up then c.floor + 1 else c.floor - 1;
    }
    forall j | j in StopSet(c'.stops)
      ensures Ahead(c'.direction, c'.floor, j)
    {
      assert j in StopSet(c.stops) && j != c'.floor;
    }
  }

  /** From a deliverable car with enough iterations left, the loop ends
      without a panic and its visits are exactly the scheduled floors, each
      once, in travel order. */
  lemma {:induction false} RunDelivers(c: Car, i: nat)
    requires Valid(c) && Deliverable(c)
    requires 1 <= c.numFloors <= Int32.MaxInt32 + 1
    requires i + Room(c) < Ceiling
    ensures Run(c, i).Ok?
    ensures Delivered(c.direction, StopSet(c.stops), Run(c, i).value.visits)
    ensures Run(c, i).value.car.floor == LastFloor(c.floor, Run(c, i).value.visits)
    decreases Ceiling - i
  {
    if c.count == 0 {
      RunFinishes(c, i);
    } else {
      var t := Tick(Motion(c, []));
      TickKeepsDeliverable(Motion(c, []));
      var c' := t.value.car;
      assert i + 1 + Room(c') < Ceiling;
      RunDelivers(c', i + 1);
      RunStepDelivers(c, i);
    }
  }

  /** One turn of the loop extends the delivery of the rest of the run by the
      floor the tick reached, when that floor was scheduled. */
  lemma RunStepDelivers(c: Car, i: nat)
    requires c.count > 0 && i < Ceiling && Tick(Motion(c, [])).Ok?
    requires var c' := Tick(Motion(c, [])).value.car;
      && AllAhead(c')
      && Run(c', i + 1).Ok?
      && Delivered(c'.direction, StopSet(c'.stops), Run(c', i + 1).value.visits)
      && Run(c', i + 1).value.car.floor == LastFloor(c'.floor, Run(c', i + 1).value.visits)
    requires StopSet(c.stops) != {}
    ensures Run(c, i).Ok?
    ensures Delivered(c.direction, StopSet(c.stops), Run(c, i).value.visits)
    ensures Run(c, i).value.car.floor == LastFloor(c.floor, Run(c, i).value.visits)
  {
    var t := Tick(Motion(c, [])).value;
    var c' := t.car;
    RunUnfolds(c, i);
    TickDeschedules(Motion(c, []));
    var rest := Run(c', i + 1).value.visits;
    DeliveredAfterTick(c'.direction, StopSet(c.stops), c'.floor, t.visits, StopSet(c'.stops), rest);
    if rest == [] {
      assert StopSet(c'.stops) == {};
      assert c'.floor in StopSet(c.stops);
      assert t.visits + rest == [c'.floor];
    } else {
      assert (t.visits + rest)[|t.visits + rest| - 1] == rest[|rest| - 1];
    }
  }

  /** What one tick adds to a delivery: nothing when the floor reached was not
      scheduled, that floor in front of the rest when it was. */
  lemma DeliveredAfterTick(dir: Direction, s: set<int>, f: int, tv: seq<int>, s': set<int>, rest: seq<int>)
    requires s' == s - {f}
    requires forall x :: x in s' ==> Ahead(dir, f, x)
    requires tv == if f in s then [f] else []
    requires Delivered(dir, s', rest)
    ensures Delivered(dir, s, tv + rest)
  {
    if f in s {
      assert ([f] + rest)[1..] == rest;
    } else {
      assert s' == s && tv + rest == rest;
    }
  }

  /** A delivery visits exactly the floors of `s`, each once, in strictly
      increasing order going up and strictly decreasing order going down. */
  lemma {:induction false} DeliveredInOrder(dir: Direction, s: set<int>, v: seq<int>)
    requires Delivered(dir, s, v)
    ensures |v| == |s|
    ensures forall k :: 0 <= k < |v| ==> v[k] in s
    ensures forall j :: j in s ==> j in v
    ensures forall k, l :: 0 <= k < l < |v| ==> Ahead(dir, v[k], v[l])
    decreases |v|
  {
    if v != [] {
      var f, s', w := v[0], s - {v[0]}, v[1..];
      DeliveredInOrder(dir, s', w);
      assert v == [f] + w;
      forall k, l | 0 <= k < l < |v|
        ensures Ahead(dir, v[k], v[l])
      {
        assert v[l] == w[l - 1] && v[l] in s';
      }
      forall j | j in s
        ensures j in v
      {
        if j != f {
          assert j in w;
        }
      }
    }
  }

  /** The whole `animate` call: a deliverable car in a building of at most
      `Ceiling` floors visits every scheduled floor once, in travel order, and
      comes to rest, idle, on the last floor it visited. */
  lemma AnimateDelivers(c: Car)
    requires Valid(c) && Deliverable(c)
    requires 1 <= c.numFloors <= Ceiling
    ensures Animate(c).Ok?
    ensures Idle(Animate(c).value.car)
    ensures var v := Animate(c).value.visits;
      && |v| == |StopSet(c.stops)|
      && (forall j :: j in StopSet(c.stops) <==> j in v)
      && (forall k, l :: 0 <= k < l < |v| ==> Ahead(c.direction, v[k], v[l]))
      && Animate(c).value.car.floor == LastFloor(c.floor, v)
  {
    RunDelivers(c, 0);
    DeliveredInOrder(c.direction, StopSet(c.stops), Animate(c).value.visits);
  }

  /** A car at rest with nothing scheduled is trivially deliverable. */
  lemma IdleIsDeliverable(c: Car)
    requires Idle(c)
    ensures Deliverable(c)
  {
  }

  /** An idle car asked for any other floor of the building accepts, starts
      moving towards it and becomes deliverable; a moving deliverable car
      that accepts a floor not yet scheduled stays deliverable. */
  lemma AcceptKeepsDeliverable(c: Car, d: int)
    requires Valid(c) && Deliverable(c)
    requires c.numFloors <= Int32.MaxInt32 + 1
    requires d !in StopSet(c.stops) && d != c.floor
    requires RequestDestinationFloor(c, d).Ok?
    requires RequestDestinationFloor(c, d).value.accepted
    ensures Deliverable(RequestDestinationFloor(c, d).value.car)
  {
    var c' := RequestDestinationFloor(c, d).value.car;
    assert |StopSet(c.stops) + {d}| == |StopSet(c.stops)| + 1;
    forall j | j in StopSet(c'.stops)
      ensures Ahead(c'.direction, c'.floor, j)
    {
      if c.count == 0 {
        assert j == d;
      } else {
        assert CanTakeRequest(c, d);
      }
    }
  }

  /** A count above the number of flags set survives every tick, so the loop
      never sees a zero count and the run ends at the ceiling. */
  lemma {:induction false} SurplusNeverFinishes(c: Car, i: nat)
    requires Valid(c) && 1 <= c.numFloors
    requires c.count > |StopSet(c.stops)|
    ensures Run(c, i) == Crash(IterationCeiling)
    decreases Ceiling - i
  {
    if i < Ceiling {
      var t := Tick(Motion(c, []));
      assert t.Ok?;
      var c' := t.value.car;
      TickDeschedules(Motion(c, []));
      assert Valid(c') && 1 <= c'.numFloors && c'.count > |StopSet(c'.stops)|;
      SurplusNeverFinishes(c', i + 1);
      RunUnfolds(c, i);
    } else {
      RunAtCeiling(c, i);
    }
  }

  /** A scheduled stop behind the car is never reached again: its flag stays
      set, so the count never reaches zero and the run ends at the ceiling. */
  lemma {:induction false} StrandedNeverFinishes(c: Car, j: int, i: nat)
    requires Valid(c) && j in StopSet(c.stops) && Behind(c, j)
    ensures Run(c, i) == Crash(IterationCeiling)
    decreases Ceiling - i
  {
    assert |StopSet(c.stops)| >= 1;
    if i < Ceiling {
      var t := Tick(Motion(c, []));
      assert t.Ok?;
      var c' := t.value.car;
      assert c'.floor == NextFloor(c);
      assert Valid(c') && j in StopSet(c'.stops) && Behind(c', j);
      StrandedNeverFinishes(c', j, i + 1);
      RunUnfolds(c, i);
    } else {
      RunAtCeiling(c, i);
    }
  }

  /** An accepted request for a floor that is already scheduled leaves the
      count one above the flags, so the next animation cannot end normally. */
  lemma RepeatedRequestNeverFinishes(c: Car, d: int)
    requires Valid(c) && d in StopSet(c.stops)
    requires RequestDestinationFloor(c, d).Ok? && RequestDestinationFloor(c, d).value.accepted
    ensures Animate(RequestDestinationFloor(c, d).value.car) == Crash(IterationCeiling)
  {
    var c' := RequestDestinationFloor(c, d).value.car;
    assert StopSet(c'.stops) == StopSet(c.stops);
    SurplusNeverFinishes(c', 0);
  }

  /** An idle car below the top floor asked for its own floor accepts, turns
      to `Up` and leaves the floor on its first tick, so the stop is never
      visited and the animation cannot end normally. */
  lemma CurrentFloorRequestNeverFinishes(c: Car)
    requires Valid(c) && Idle(c) && c.floor < TopFloor(c)
    ensures RequestDestinationFloor(c, c.floor).Ok?
    ensures RequestDestinationFloor(c, c.floor).value.accepted
    ensures RequestDestinationFloor(c, c.floor).value.car.direction == Up
    ensures Animate(RequestDestinationFloor(c, c.floor).value.car) == Crash(IterationCeiling)
  {
    var c' := RequestDestinationFloor(c, c.floor).value.car;
    assert c.floor in StopSet(c'.stops);
    StrandedNeverFinishes(c', c.floor, 0);
  }

  /** The other half of the request for the car's own floor: an idle car at
      (or, in a building too tall for an `int32`, above) the top floor
      accepts, turns `Up`, stays put on its first tick, visits its own floor
      there and comes to rest on it. */
  lemma CurrentFloorRequestAtTopDelivers(c: Car)
    requires Valid(c) && Idle(c) && c.numFloors >= 1 && c.floor >= TopFloor(c)
    ensures RequestDestinationFloor(c, c.floor).Ok?
    ensures RequestDestinationFloor(c, c.floor).value.accepted
    ensures RequestDestinationFloor(c, c.floor).value.car.direction == Up
    ensures Animate(RequestDestinationFloor(c, c.floor).value.car).Ok?
    ensures Animate(RequestDestinationFloor(c, c.floor).value.car).value.visits == [c.floor]
    ensures Animate(RequestDestinationFloor(c, c.floor).value.car).value.car.floor == c.floor
  {
    var c' := RequestDestinationFloor(c, c.floor).value.car;
    assert c'.count == 1 && c.floor in StopSet(c'.stops);
    var m := Motion(c', []);
    assert NextFloor(c') == c.floor;
    TickDeschedules(m);
    var t := Tick(m).value;
    assert t.car.count == 0 && t.visits == [c.floor];
    RunFinishes(t.car, 1);
    RunUnfolds(c', 0);
  }
}
