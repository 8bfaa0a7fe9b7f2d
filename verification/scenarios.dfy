/** The situations the repository's tests exercise (elevator/elevator_test.go
    and controller/controller_test.go), restated as facts about the model:
    a ten-floor building, one car or a group of two. */
module Scenarios {
  import opened Elevator
  import opened ElevatorLemmas
  import opened Controller

  /** The only sequence of two floors going up that covers `{a, b}`. */
  lemma TwoFloorsUp(v: seq<int>, a: int, b: int)
    requires a < b
    requires |v| == 2 && (forall j :: j in {a, b} <==> j in v)
    requires forall k, l :: 0 <= k < l < |v| ==> Ahead(Up, v[k], v[l])
    ensures v == [a, b]
  {
    assert v[0] in v && v[1] in v;
    assert a in v && b in v;
    assert Ahead(Up, v[0], v[1]);
  }

  /** The stop flags of a ten-floor building with the floors of `s` set. */
  function Flags(s: set<int>): seq<bool>
  {
    seq(10, k => k in s)
  }

  /** The car of the two-request tests: new, then asked for 3 and 6. */
  function TwoRequestsCar(): Car
  {
    Car(1, 0, Up, Moving, 10, Flags({3, 6}), 2)
  }

  /** Floors 3 and 6 are both accepted, the car moves up, and its animation
      visits 3 and then 6. */
  lemma TwoRequests()
    ensures var c := New(1, 10).value;
      var a1 := RequestDestinationFloor(c, 3);
      && a1.Ok? && a1.value.accepted && a1.value.startAnimation
      && var a2 := RequestDestinationFloor(a1.value.car, 6);
      && a2.Ok? && a2.value.accepted && !a2.value.startAnimation
      && a2.value.car == TwoRequestsCar()
      && Animate(TwoRequestsCar()).Ok?
      && Animate(TwoRequestsCar()).value.visits == [3, 6]
  {
    var c := New(1, 10).value;
    var c1 := RequestDestinationFloor(c, 3).value.car;
    assert c1.stops == Flags({3});
    var c2 := RequestDestinationFloor(c1, 6).value.car;
    assert c2.stops == Flags({3, 6});
    IdleIsDeliverable(c);
    AcceptKeepsDeliverable(c, 3);
    assert StopSet(c1.stops) == {3};
    AcceptKeepsDeliverable(c1, 6);
    assert StopSet(c2.stops) == {3, 6};
    AnimateDelivers(c2);
    TwoFloorsUp(Animate(c2).value.visits, 3, 6);
  }

  /** The two-request car once the stop at floor 3 has been served. */
  function AtThree(): Car
  {
    Car(1, 3, Up, Moving, 10, Flags({6}), 1)
  }

  /** Three ticks bring the two-request car up to floor 3 and visit it. */
  lemma ClimbToThree()
    ensures Tick(Motion(TwoRequestsCar(), [])) == Ok(Motion(TwoRequestsCar().(floor := 1), []))
    ensures Tick(Motion(TwoRequestsCar().(floor := 1), [])) == Ok(Motion(TwoRequestsCar().(floor := 2), []))
    ensures Tick(Motion(TwoRequestsCar().(floor := 2), [])) == Ok(Motion(AtThree(), [3]))
  {
    assert TopFloor(TwoRequestsCar()) == 9;
    assert Flags({3, 6})[3 := false] == Flags({6});
    assert [] + [3] == [3];
  }

  /** At floor 3, moving up, a request for floor 2 is rejected and changes
      nothing, and the rest of the same run visits floor 6. */
  lemma RejectBehind()
    ensures RequestDestinationFloor(AtThree(), 2) == Ok(Admission(false, AtThree(), false))
    ensures Run(AtThree(), 3).Ok? && Run(AtThree(), 3).value.visits == [6]
  {
    var c3 := AtThree();
    assert StopSet(c3.stops) == {6};
    RunDelivers(c3, 3);
    var v := Run(c3, 3).value.visits;
    assert 6 in v;
    assert v == [v[0]];
  }

  /** A car of the ten-floor building at rest on `floor`, facing `dir`. */
  function IdleCar(id: int, floor: int, dir: Direction): Car
  {
    Car(id, floor, dir, Stopped, 10, Flags({}), 0)
  }

  /** A group of two cars in ten floors, as the controller tests build it:
      both on the ground floor, facing up, nothing scheduled. */
  lemma NewGroupOfTwo()
    ensures NewGroup(2, 10) == Ok([IdleCar(0, 0, Up), IdleCar(1, 0, Up)])
  {
    assert seq(10, _ => false) == Flags({});
    var g := NewGroup(2, 10).value;
    assert g == [g[0], g[1]];
  }

  /** A dispatch to a group whose car 1 is idle and whose car 0 is either idle
      or the only moving car goes to car 0. */
  lemma PicksCarZero(c0: Car, req: Request)
    requires c0.state == Stopped || c0.state == Moving
    ensures Pick(req, Snapshots([c0, IdleCar(1, 0, Up)])) == Ok(0)
  {
    var s := Snapshots([c0, IdleCar(1, 0, Up)]);
    PickPrefersMoving(req, s);
    if c0.state == Moving {
      assert s[0].state == Moving;
    }
  }

  /** An idle car asked for one floor of the building, away from its own,
      turns towards it and, when animated, visits that floor alone and rests
      there. */
  lemma ServesOneFloor(c: Car, d: int)
    requires c == IdleCar(c.id, c.floor, c.direction) && 0 <= c.floor < 10
    requires 0 <= d < 10 && d != c.floor
    ensures var a := RequestDestinationFloor(c, d);
      && a.Ok? && a.value.accepted && a.value.startAnimation
      && a.value.car == Car(c.id, c.floor, if d >= c.floor then Up else Down, Moving, 10, Flags({d}), 1)
      && Animate(a.value.car).Ok?
      && Animate(a.value.car).value.visits == [d]
      && Animate(a.value.car).value.car.floor == d
  {
    assert StopSet(c.stops) == {};
    IdleIsDeliverable(c);
    AcceptKeepsDeliverable(c, d);
    var c1 := RequestDestinationFloor(c, d).value.car;
    assert c1.stops == Flags({d});
    AnimateDelivers(c1);
    var v := Animate(c1).value.visits;
    assert StopSet(c1.stops) == {d};
    assert d in v;
    assert v == [v[0]];
  }

  /** A new car asked for floor 1 accepts, starts its animation, and the
      animation visits floor 1 alone. */
  lemma SingleRequest()
    ensures var c := New(1, 10).value;
      var a := RequestDestinationFloor(c, 1);
      && a.Ok? && a.value.accepted && a.value.startAnimation
      && Animate(a.value.car).Ok?
      && Animate(a.value.car).value.visits == [1]
  {
    assert seq(10, _ => false) == Flags({});
    assert New(1, 10) == Ok(IdleCar(1, 0, Up));
    ServesOneFloor(IdleCar(1, 0, Up), 1);
  }

  /** One call from floor 2: both cars are idle, so car 0 is picked; it
      accepts, starts, and its animation visits floor 2. */
  lemma GroupSingleCall()
    ensures var d := Dispatch(NewGroup(2, 10).value, Request(2, Down));
      && d.Ok? && d.value.picked == 0 && d.value.accepted && d.value.startAnimation
      && Animate(d.value.cars[0]).Ok?
      && Animate(d.value.cars[0]).value.visits == [2]
  {
    NewGroupOfTwo();
    PicksCarZero(IdleCar(0, 0, Up), Request(2, Down));
    ServesOneFloor(IdleCar(0, 0, Up), 2);
  }

  /** Car 0 of the group after the calls from floors 5 and 2, dispatched one
      after the other before any car moves. */
  function BusyCarZero(): Car
  {
    Car(0, 0, Up, Moving, 10, Flags({2, 5}), 2)
  }

  /** Calls from floors 5 and 2: car 0 takes the first and, being the only
      moving car, outranks car 1 for the second as well, which it accepts. */
  lemma GroupTwoCalls()
    ensures var d1 := Dispatch(NewGroup(2, 10).value, Request(5, Down));
      && d1.Ok? && d1.value.picked == 0 && d1.value.accepted
      && var d2 := Dispatch(d1.value.cars, Request(2, Down));
      && d2.Ok? && d2.value.picked == 0 && d2.value.accepted
      && d2.value.cars == [BusyCarZero(), IdleCar(1, 0, Up)]
  {
    NewGroupOfTwo();
    var c0 := IdleCar(0, 0, Up);
    PicksCarZero(c0, Request(5, Down));
    ServesOneFloor(c0, 5);
    var c1 := RequestDestinationFloor(c0, 5).value.car;
    PicksCarZero(c1, Request(2, Down));
    assert Flags({5})[2 := true] == Flags({2, 5});
  }

  /** The busy car 0 visits 2 and then 5, and comes to rest at floor 5. */
  lemma BusyCarZeroDelivers()
    ensures Animate(BusyCarZero()).Ok?
    ensures Animate(BusyCarZero()).value.visits == [2, 5]
    ensures Animate(BusyCarZero()).value.car == IdleCar(0, 5, Up)
  {
    var c := BusyCarZero();
    assert StopSet(c.stops) == {2, 5};
    assert Deliverable(c);
    AnimateDelivers(c);
    TwoFloorsUp(Animate(c).value.visits, 2, 5);
    var r := Animate(c).value.car;
    assert r.stops == Flags({});
  }

  /** After the two calls have been served, a call from floor 3 finds both
      cars idle and goes to car 0, resting at floor 5, which turns down and
      visits floor 3. */
  lemma GroupRoundTrip()
    ensures var d := Dispatch([IdleCar(0, 5, Up), IdleCar(1, 0, Up)], Request(3, Down));
      && d.Ok? && d.value.picked == 0 && d.value.accepted && d.value.startAnimation
      && d.value.cars[0].direction == Down
      && Animate(d.value.cars[0]).Ok?
      && Animate(d.value.cars[0]).value.visits == [3]
  {
    PicksCarZero(IdleCar(0, 5, Up), Request(3, Down));
    ServesOneFloor(IdleCar(0, 5, Up), 3);
  }
}
