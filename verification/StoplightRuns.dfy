/** Safety and progress of the intersection over all runs (kern/asst1/stoplight.c). */
module StoplightRuns {
  import opened Options
  import opened Stoplight
  import opened StoplightProof

  /** Cars about to arrive at an empty intersection. */
  ghost predicate Start(s: State)
  {
    && Sized(s) && (forall c :: c in s.cars ==>
         s.cars[c].dir < 4 && 1 <= s.cars[c].turn <= 3 && s.cars[c].pc == Arr0 && s.cars[c].i == 0)
    && s.num == 0 && s.numSem == None
    && forall d: nat :: d < 4 ==>
         !s.region[d] && s.acc[d] == None && s.qSem[d] == None && s.lanes[d] == s.arrived[d] == s.entered[d] == []
  }

  lemma StartInv(s: State)
    requires Start(s)
    ensures Inv(s)
  {
    assert Cars(s);
    assert CountedCars(s) == {} && CountedThrough(s) == {};
    forall d: nat | d < 4
      ensures LaneOk(s, d) && RegionOk(s, d)
    {
    }
  }

  /** s' is where the cars are after moving one at a time in this order, whatever the order. */
  ghost predicate Reaches(s: State, order: seq<nat>, s': State)
    decreases |order|
  {
    if order == [] then s' == s else Ready(s, order[0]) && Reaches(Step(s, order[0]), order[1..], s')
  }

  lemma {:induction false} ReachesInv(s: State, order: seq<nat>, s': State)
    requires Inv(s) && Reaches(s, order, s')
    ensures Inv(s')
    decreases |order|
  {
    if order != [] {
      StepKeeps(s, order[0]);
      ReachesInv(Step(s, order[0]), order[1..], s');
    }
  }

  lemma {:induction false} ReachesOn(s: State, o1: seq<nat>, s1: State, o2: seq<nat>, s2: State)
    requires Reaches(s, o1, s1) && Reaches(s1, o2, s2)
    ensures Reaches(s, o1 + o2, s2)
    decreases |o1|
  {
    hide Held, Exclusive, Numbers, Lanes, Enabled, Step, WF;
    if o1 == [] {
      assert o1 + o2 == o2;
    } else {
      assert (o1 + o2)[1..] == o1[1..] + o2;
      ReachesOn(Step(s, o1[0]), o1[1..], s1, o2, s2);
    }
  }

  // ----- safety -----

  ghost predicate InIntersection(s: State, c: nat)
    requires Cars(s)
  {
    c in s.cars && exists r: nat :: r < 4 && Occupies(s.cars[c], r)
  }

  /** The cars inside that go straight or left. */
  ghost function ThroughInside(s: State): set<nat>
    requires Cars(s)
  {
    set c | c in s.cars && s.cars[c].turn != RIGHT && InIntersection(s, c)
  }

  lemma InsideCounted(k: Car, r: nat)
    requires WF(k) && k.turn != RIGHT && Occupies(k, r)
    ensures Counted(k) || (SawRoom(k) && HoldsNum(k))
  {
  }

  lemma AtMostThree(s: State)
    requires Inv(s)
    ensures |ThroughInside(s)| <= 3
  {
    ThroughCounted(s);
    if x :| x in s.cars && SawRoom(s.cars[x]) {
      NumbersNow(s, x);
      ThroughWith(s, x);
      SubsetSize(ThroughInside(s), CountedThrough(s) + {x});
    } else {
      ThroughWithout(s);
      SubsetSize(ThroughInside(s), CountedThrough(s));
    }
  }

  lemma ThroughWith(s: State, x: nat)
    requires Inv(s) && x in s.cars && SawRoom(s.cars[x])
    ensures ThroughInside(s) <= CountedThrough(s) + {x}
  {
    hide WF, Held, Exclusive, Numbers, Lanes, Counted, SawRoom, HoldsNum, Occupies;
    forall c | c in ThroughInside(s)
      ensures c in CountedThrough(s) || c == x
    {
      var r: nat :| r < 4 && Occupies(s.cars[c], r);
      InsideCounted(s.cars[c], r);
      if !Counted(s.cars[c]) { OneSawRoom(s, c, x); }
    }
  }

  lemma ThroughWithout(s: State)
    requires Inv(s) && !exists x :: x in s.cars && SawRoom(s.cars[x])
    ensures ThroughInside(s) <= CountedThrough(s)
  {
    hide WF, Held, Exclusive, Numbers, Lanes, Counted, SawRoom, HoldsNum, Occupies;
    forall c | c in ThroughInside(s)
      ensures c in CountedThrough(s)
    {
      var r: nat :| r < 4 && Occupies(s.cars[c], r);
      InsideCounted(s.cars[c], r);
    }
  }

  /**
   In every state of every run: no region holds two cars, no more than three
   cars going straight or left are inside, and the cars of a lane leave it in
   the order they arrived.
   */
  lemma IntersectionSafe(s0: State, order: seq<nat>, s: State)
    requires Start(s0) && Reaches(s0, order, s)
    ensures Sized(s) && Cars(s) && |ThroughInside(s)| <= 3
    ensures forall r: nat, c, e ::
              r < 4 && c in s.cars && e in s.cars && Occupies(s.cars[c], r) && Occupies(s.cars[e], r) ==> c == e
    ensures forall d: nat :: d < 4 ==> s.entered[d] <= s.arrived[d]
  {
    hide Reaches, Start, WF, Held, Exclusive, Numbers, Lanes, ThroughInside, InLane, First, Occupies;
    StartInv(s0);
    ReachesInv(s0, order, s);
    AtMostThree(s);
    forall r: nat, c, e | r < 4 && c in s.cars && e in s.cars && Occupies(s.cars[c], r) && Occupies(s.cars[e], r)
      ensures c == e
    {
      RegionNow(s, r);
    }
    forall d: nat | d < 4
      ensures s.entered[d] <= s.arrived[d]
    {
      LaneNow(s, d);
    }
  }

  // ----- progress -----

  /** The car wants a region that is taken. */
  ghost predicate Stuck(s: State, c: nat)
    requires Sized(s) && Cars(s) && c in s.cars
  {
    s.cars[c].pc in {M0, M1, MX} && s.region[RegionAt(s.cars[c].dir, s.cars[c].i + 1)]
  }

  /** A car stuck in region r waits for the region before it, where there is another car. */
  lemma StuckBehind(s: State, c: nat, r: nat) returns (e: nat)
    requires Inv(s) && c in s.cars && r < 4 && Occupies(s.cars[c], r) && Stuck(s, c)
    ensures e in s.cars && Occupies(s.cars[e], (r + 3) % 4) && e != c && s.cars[c].turn != RIGHT
    ensures forall x: nat :: x < 4 && Occupies(s.cars[c], x) ==> x == r
  {
    RouteGoesRound(s.cars[c].dir, s.cars[c].i);
    RegionNow(s, (r + 3) % 4);
    hide Held, Exclusive, Numbers, Lanes;
    e :| e in s.cars && Occupies(s.cars[e], (r + 3) % 4);
  }

  /** The car is in region r and in no other, and turns left or goes straight. */
  ghost predicate OnlyIn(s: State, c: nat, r: nat)
    requires Cars(s)
  {
    c in s.cars && s.cars[c].turn != RIGHT && Occupies(s.cars[c], r) && forall x: nat ::
        x < 4 && Occupies(s.cars[c], x) ==> x == r
  }

  ghost predicate AllStuck(s: State)
    requires Sized(s) && Cars(s)
  {
    forall e, r: nat :: e in s.cars && r < 4 && Occupies(s.cars[e], r) ==> Stuck(s, e)
  }

  lemma NextStuck(s: State, c: nat, r: nat) returns (e: nat)
    requires Inv(s) && AllStuck(s) && c in s.cars && r < 4 && Occupies(s.cars[c], r)
    ensures OnlyIn(s, c, r) && e in s.cars && Occupies(s.cars[e], if r == 0 then 3 else r - 1)
  {
    hide WF, Held, Exclusive, Numbers, Lanes, Occupies, Stuck;
    e := StuckBehind(s, c, r);
    assert (r + 3) % 4 == if r == 0 then 3 else r - 1;
  }

  lemma NotAllStuck(s: State, c: nat, r: nat)
    requires Inv(s) && c in s.cars && r < 4 && Occupies(s.cars[c], r)
    ensures !AllStuck(s)
  {
    if AllStuck(s) {
      hide WF, Held, Exclusive, Numbers, Lanes, Occupies, AllStuck, OnlyIn;
      var c1 := NextStuck(s, c, r);
      var r1 := if r == 0 then 3 else r - 1;
      var c2 := NextStuck(s, c1, r1);
      var r2 := if r1 == 0 then 3 else r1 - 1;
      var c3 := NextStuck(s, c2, r2);
      var r3 := if r2 == 0 then 3 else r2 - 1;
      var c4 := NextStuck(s, c3, r3);
      FourApart(s, c, c1, c2, c3, r, r1, r2, r3);
    }
  }

  lemma FourApart(s: State, c: nat, c1: nat, c2: nat, c3: nat, r: nat, r1: nat, r2: nat, r3: nat)
    requires Inv(s) && r < 4 && r1 < 4 && r2 < 4 && r3 < 4
    requires OnlyIn(s, c, r) && OnlyIn(s, c1, r1) && OnlyIn(s, c2, r2) && OnlyIn(s, c3, r3)
    ensures r in {r1, r2, r3} || r1 in {r2, r3} || r2 == r3
  {
    hide WF, Held, Exclusive, Numbers, Lanes, Occupies;
    assert {c, c1, c2, c3} <= ThroughInside(s);
    FourInside(s, c, c1, c2, c3);
  }

  /** Whenever there are cars inside, one of them wants no region that is taken: it can go on or leave. */
  lemma SomeoneCanGo(s: State, c: nat)
    requires Inv(s) && InIntersection(s, c)
    ensures exists e :: InIntersection(s, e) && !Stuck(s, e)
  {
    hide WF, Held, Exclusive, Numbers, Lanes, Occupies, Stuck;
    var r: nat :| r < 4 && Occupies(s.cars[c], r);
    NotAllStuck(s, c, r);
    var e, x: nat :| e in s.cars && x < 4 && Occupies(s.cars[e], x) && !Stuck(s, e);
    assert InIntersection(s, e);
  }

  lemma FourInside(s: State, c: nat, c1: nat, c2: nat, c3: nat)
    requires Inv(s) && {c, c1, c2, c3} <= ThroughInside(s)
    ensures c in {c1, c2, c3} || c1 in {c2, c3} || c2 == c3
  {
    AtMostThree(s);
    SubsetSize({c, c1, c2, c3}, ThroughInside(s));
  }

  // ----- semaphores: no circular wait -----

  /** A car that holds a lane's semaphore waits for nothing. */
  lemma QueueHolderRuns(s: State, d: nat, x: nat)
    requires Inv(s) && d < 4 && s.qSem[d] == Some(x)
    ensures x in s.cars && Enabled(s, x)
  {
    hide Exclusive, Numbers, Lanes, HoldsNum, HoldsAccess;
    assert x in s.cars && HoldsQueue(s.cars[x], d);
  }

  /** A car that holds a region's access semaphore waits for its lane's at most. */
  lemma AccessHolderRuns(s: State, r: nat, x: nat) returns (y: nat)
    requires Inv(s) && r < 4 && s.acc[r] == Some(x)
    ensures y in s.cars && Enabled(s, y)
  {
    HoldsOf(s, r, x);
    hide Held, Exclusive, Numbers, Lanes, HoldsNum, HoldsQueue;
    if Enabled(s, x) {
      y := x;
    } else {
      var d := s.cars[x].dir;
      y := s.qSem[d].value;
      QueueHolderRuns(s, d, y);
    }
  }

  lemma HoldsOf(s: State, r: nat, x: nat)
    requires Inv(s) && r < 4 && s.acc[r] == Some(x)
    ensures x in s.cars && HoldsAccess(s.cars[x], r)
  {
    hide Exclusive, Numbers, Lanes, HoldsNum, HoldsQueue, HoldsAccess, WF;
  }

  /** A car that holds numcars_sem waits for an access semaphore or its lane's at most. */
  lemma NumHolderRuns(s: State, x: nat) returns (y: nat)
    requires Inv(s) && s.numSem == Some(x)
    ensures y in s.cars && Enabled(s, y)
  {
    HeldNowOf(s, x);
    hide Held, Exclusive, Numbers, Lanes, HoldsQueue, HoldsAccess;
    if Enabled(s, x) {
      y := x;
    } else {
      var k := s.cars[x];
      if k.pc == A4 {
        y := AccessHolderRuns(s, k.dir, s.acc[k.dir].value);
      } else {
        y := s.qSem[k.dir].value;
        QueueHolderRuns(s, k.dir, y);
      }
    }
  }

  lemma HeldNowOf(s: State, x: nat)
    requires Inv(s) && s.numSem == Some(x)
    ensures x in s.cars && HoldsNum(s.cars[x])
  {
    hide Exclusive, Numbers, Lanes, HoldsNum, HoldsQueue, HoldsAccess, WF;
  }

  /** While a car is still on its way, some car can take a step: the semaphores never lock up. */
  lemma NoDeadlock(s: State, c: nat) returns (y: nat)
    requires Inv(s) && c in s.cars && s.cars[c].pc != Done
    ensures y in s.cars && Enabled(s, y)
  {
    hide Held, Exclusive, Numbers, Lanes, HoldsNum, HoldsQueue, HoldsAccess;
    if Enabled(s, c) {
      y := c;
    } else {
      var k, e := s.cars[c], Chosen(s, c);
      if e.num == Take && s.numSem.Some? {
        y := NumHolderRuns(s, s.numSem.value);
      } else if e.access == Take && s.acc[AccessOf(k)].Some? {
        y := AccessHolderRuns(s, AccessOf(k), s.acc[AccessOf(k)].value);
      } else {
        y := s.qSem[k.dir].value;
        QueueHolderRuns(s, k.dir, y);
      }
    }
  }
}
