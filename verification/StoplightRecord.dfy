/** What each car has done by the time it is done: its route, region by region (kern/asst1/stoplight.c). */
module StoplightRecord {
  import opened Options
  import opened Stoplight
  import opened StoplightProof
  import opened StoplightRuns

  /** What can be seen to happen: to the lanes, the regions and num_cars. */
  datatype Event =
    | Joined(lane: nat) | Departed(lane: nat) | Marked(region: nat) | Cleared(region: nat) | CountUp | CountDown

  ghost function RegionEvent(s: State, s': State, r: nat): seq<Event>
    requires Sized(s) && Sized(s') && r < 4
  {
    if s'.region[r] == s.region[r] then [] else if s'.region[r] then [Marked(r)] else [Cleared(r)]
  }

  ghost function LaneEvent(s: State, s': State, d: nat): seq<Event>
    requires Sized(s) && Sized(s') && d < 4
  {
    if |s'.lanes[d]| > |s.lanes[d]| then [Joined(d)] else if |s'.lanes[d]| < |s.lanes[d]| then [Departed(d)] else []
  }

  ghost function RegionEvents(s: State, s': State): seq<Event>
    requires Sized(s) && Sized(s')
  {
    RegionEvent(s, s', 0) + RegionEvent(s, s', 1) + RegionEvent(s, s', 2) + RegionEvent(s, s', 3)
  }

  ghost function LaneEvents(s: State, s': State): seq<Event>
    requires Sized(s) && Sized(s')
  {
    LaneEvent(s, s', 0) + LaneEvent(s, s', 1) + LaneEvent(s, s', 2) + LaneEvent(s, s', 3)
  }

  /** The events between a state and the next. */
  ghost function Seen(s: State, s': State): seq<Event>
    requires Sized(s) && Sized(s')
  {
    RegionEvents(s, s') + LaneEvents(s, s')
    + if s'.num > s.num then [CountUp] else if s'.num < s.num then [CountDown] else []
  }

  // ----- what a route asks for -----

  /**
   In the intersection, region i of the row of the routing table reached: each
   region is marked while the one before is still the car's own.
   */
  function Crossing(row: seq<nat>, i: nat): seq<Event>
    requires 1 <= i < |row| && forall j :: 1 <= j <= i ==> row[j] >= 10
  {
    if i == 1 then [Joined(row[0]), Marked(row[1] - 10), Departed(row[0]), CountUp]
    else Crossing(row, i - 1) + [Marked(row[i] - 10), Cleared(row[i - 1] - 10)]
  }

  /** All a car does: into the intersection, from region to region, and out. */
  function Passage(dir: nat, turn: nat): seq<Event>
    requires dir < 4 && 1 <= turn <= 3
  {
    RouteRegions(dir, turn);
    var row, n := Route(dir, turn), Regions(turn);
    Crossing(row, n) + [Cleared(row[n] - 10), CountDown]
  }

  /** Up to region i of its route. */
  function UpTo(dir: nat, turn: nat, i: nat): seq<Event>
    requires dir < 4 && 1 <= turn <= 3 && 1 <= i <= Regions(turn)
  {
    RouteRegions(dir, turn);
    Crossing(Route(dir, turn), i)
  }

  /** What a car has done when it is at this place. */
  function Trail(k: Car): seq<Event>
    requires WF(k)
  {
    match k.pc
    case Arr0 => []
    case Arr1 => []
    case A6 => [Joined(k.dir), Marked(k.dir)]
    case A7 => [Joined(k.dir), Marked(k.dir)]
    case R4 => [Joined(k.dir), Marked(k.dir)]
    case R5 => [Joined(k.dir), Marked(k.dir)]
    case R6 => [Joined(k.dir), Marked(k.dir), Departed(k.dir)]
    case R7 => [Joined(k.dir), Marked(k.dir), Departed(k.dir)]
    case AX => if k.i == 0 then [Joined(k.dir)] else UpTo(k.dir, k.turn, 1)
    case AN => if k.i == 0 then [Joined(k.dir)] else UpTo(k.dir, k.turn, 1)
    case M0 => UpTo(k.dir, k.turn, k.i)
    case M1 => UpTo(k.dir, k.turn, k.i)
    case MX => UpTo(k.dir, k.turn, k.i)
    case M2 => UpTo(k.dir, k.turn, k.i - 1) + [Marked(RegionAt(k.dir, k.i))]
    case M3 => UpTo(k.dir, k.turn, k.i)
    case L0 => UpTo(k.dir, k.turn, k.i)
    case L1 => UpTo(k.dir, k.turn, k.i)
    case L2 => UpTo(k.dir, k.turn, k.i) + [Cleared(RegionAt(k.dir, k.i))]
    case L3 => UpTo(k.dir, k.turn, k.i) + [Cleared(RegionAt(k.dir, k.i))]
    case Done => Passage(k.dir, k.turn)
    case _ => [Joined(k.dir)]
  }

  /** The events of one step, as the step says. */
  function Acts(k: Car, e: Effect): seq<Event>
    requires WF(k)
  {
    (match e.mark case Same => [] case Set => [Marked(MarkOf(k))] case Clear => [Cleared(MarkOf(k))])
    + (match e.lane case Stay => [] case Join => [Joined(k.dir)] case Leave => [Departed(k.dir)])
    + if e.dnum > 0 then [CountUp] else if e.dnum < 0 then [CountDown] else []
  }

  lemma UpToFirst(dir: nat, turn: nat)
    requires dir < 4 && 1 <= turn <= 3
    ensures UpTo(dir, turn, 1) == [Joined(dir), Marked(dir), Departed(dir), CountUp]
  {
  }

  lemma UpToNext(dir: nat, turn: nat, i: nat)
    requires dir < 4 && 1 <= turn <= 3 && 2 <= i <= Regions(turn)
    ensures UpTo(dir, turn, i) == UpTo(dir, turn, i - 1) + [Marked(RegionAt(dir, i))] + [Cleared(RegionAt(dir, i - 1))]
  {
    RouteRegions(dir, turn);
  }

  lemma PassageIs(dir: nat, turn: nat)
    requires dir < 4 && 1 <= turn <= 3
    ensures Passage(dir, turn)
            == UpTo(dir, turn, Regions(turn)) + [Cleared(RegionAt(dir, Regions(turn)))] + [CountDown]
  {
    RouteRegions(dir, turn);
  }

  /** Every step adds to what a car has done just what its place then says. */
  lemma ActTrail(k: Car, room: bool, first: bool, vacant: bool)
    requires WF(k) && k.pc != Done
    ensures var e := Act(k, room, first, vacant);
            WF(After(k, e)) && Trail(After(k, e)) == Trail(k) + Acts(k, e)
  {
    hide Trail, Acts, Act;
    ActWF(k, room, first, vacant);
    if k.pc in {M0, M1, M2, M3, MX, L0, L1, L2, L3} {
      InsideTrail(k, room, first, vacant);
    } else if k.pc in {A0, A1, A2, A3, A4, A5, A6, A7, AX, AN} {
      EnteringTrail(k, room, first, vacant);
    } else {
      RightTrail(k, room, first, vacant);
    }
  }

  lemma EnteringTrail(k: Car, room: bool, first: bool, vacant: bool)
    requires WF(k) && k.pc in {A0, A1, A2, A3, A4, A5, A6, A7, AX, AN}
    requires WF(After(k, Act(k, room, first, vacant)))
    ensures var e := Act(k, room, first, vacant); Trail(After(k, e)) == Trail(k) + Acts(k, e)
  {
    hide Crossing, Passage, UpTo, RegionAt, Route;
    UpToFirst(k.dir, k.turn);
  }

  lemma RightTrail(k: Car, room: bool, first: bool, vacant: bool)
    requires WF(k) && k.pc in {Arr0, Arr1, R0, R1, R2, R3, R4, R5, R6, R7}
    requires WF(After(k, Act(k, room, first, vacant)))
    ensures var e := Act(k, room, first, vacant); Trail(After(k, e)) == Trail(k) + Acts(k, e)
  {
    hide Crossing, Passage, UpTo, RegionAt, Route;
    UpToFirst(k.dir, k.turn);
  }

  lemma InsideTrail(k: Car, room: bool, first: bool, vacant: bool)
    requires WF(k) && k.pc in {M0, M1, M2, M3, MX, L0, L1, L2, L3}
    requires WF(After(k, Act(k, room, first, vacant)))
    ensures var e := Act(k, room, first, vacant); Trail(After(k, e)) == Trail(k) + Acts(k, e)
  {
    hide Crossing, Passage, UpTo, RegionAt, Route;
    PassageIs(k.dir, k.turn);
    if k.pc == M2 {
      UpToNext(k.dir, k.turn, k.i);
    }
  }

  // ----- one step of a run -----

  lemma SeenRegion(s: State, c: nat, r: nat)
    requires Ready(s, c) && r < 4
    ensures Sized(Step(s, c))
    ensures var k, e := s.cars[c], Chosen(s, c);
            RegionEvent(s, Step(s, c), r)
            == if e.mark == Same || r != MarkOf(k) then [] else if e.mark == Set then [Marked(r)] else [Cleared(r)]
  {
    hide WF, Act, Held, Exclusive, Numbers, Lanes, AccessOf, MarkOf, Occupies, HoldsAccess;
    OnlyOne(s, c);
    RegionNow(s, r);
    ActMark(s.cars[c], s.num < 3, IsFirst(s, c), Vacant(s, c), r);
  }

  lemma SeenLane(s: State, c: nat, d: nat)
    requires Ready(s, c) && d < 4
    ensures Sized(Step(s, c))
    ensures var k, e := s.cars[c], Chosen(s, c);
            LaneEvent(s, Step(s, c), d)
            == if e.lane == Stay || d != k.dir then [] else if e.lane == Join then [Joined(d)] else [Departed(d)]
  {
    hide WF, Act, Held, Exclusive, Numbers, Lanes, AccessOf, MarkOf, InLane, First;
    OnlyOne(s, c);
    LaneNow(s, d);
    ActLane(s.cars[c], s.num < 3, IsFirst(s, c), Vacant(s, c));
  }

  lemma SeenRegions(s: State, c: nat)
    requires Ready(s, c)
    ensures Sized(Step(s, c))
    ensures var e, m := Chosen(s, c), MarkOf(s.cars[c]);
            RegionEvents(s, Step(s, c))
            == match e.mark case Same => [] case Set => [Marked(m)] case Clear => [Cleared(m)]
  {
    hide WF, Act, Held, Exclusive, Numbers, Lanes, MarkOf, RegionEvent, Step, Chosen;
    SeenRegion(s, c, 0);
    SeenRegion(s, c, 1);
    SeenRegion(s, c, 2);
    SeenRegion(s, c, 3);
  }

  lemma SeenLanes(s: State, c: nat)
    requires Ready(s, c)
    ensures Sized(Step(s, c))
    ensures var e, d := Chosen(s, c), s.cars[c].dir;
            LaneEvents(s, Step(s, c))
            == match e.lane case Stay => [] case Join => [Joined(d)] case Leave => [Departed(d)]
  {
    DirBelow(s.cars[c]);
    hide WF, Act, Held, Exclusive, Numbers, Lanes, LaneEvent, Step, Chosen;
    SeenLane(s, c, 0);
    SeenLane(s, c, 1);
    SeenLane(s, c, 2);
    SeenLane(s, c, 3);
  }

  /** What can be seen is what the step says. */
  lemma SeenIs(s: State, c: nat)
    requires Ready(s, c)
    ensures Sized(Step(s, c)) && Seen(s, Step(s, c)) == Acts(s.cars[c], Chosen(s, c))
  {
    hide WF, Act, Held, Exclusive, Numbers, Lanes, AccessOf, MarkOf, RegionEvents, LaneEvents;
    SeenRegions(s, c);
    SeenLanes(s, c);
  }

  lemma DirBelow(k: Car)
    requires WF(k)
    ensures k.dir < 4
  {
  }

  // ----- whole runs -----

  /** What car c is seen to do in a run. */
  ghost function Record(s: State, order: seq<nat>, s': State, c: nat): seq<Event>
    requires Reaches(s, order, s')
    decreases |order|
  {
    if order == [] then []
    else
      OnlyOne(s, order[0]);
      (if order[0] == c then Seen(s, Step(s, c)) else []) + Record(Step(s, order[0]), order[1..], s', c)
  }

  lemma {:induction false} RecordGrows(s: State, order: seq<nat>, s': State, c: nat)
    requires Inv(s) && Reaches(s, order, s') && c in s.cars
    ensures c in s'.cars && WF(s.cars[c]) && WF(s'.cars[c])
    ensures s'.cars[c].dir == s.cars[c].dir && s'.cars[c].turn == s.cars[c].turn
    ensures Trail(s'.cars[c]) == Trail(s.cars[c]) + Record(s, order, s', c)
    decreases |order|
  {
    hide WF, Act, Held, Exclusive, Numbers, Lanes, Trail, Seen, Step, Enabled;
    if order != [] {
      StepKeeps(s, order[0]);
      StepGrows(s, order[0], c);
      RecordGrows(Step(s, order[0]), order[1..], s', c);
    }
  }

  lemma StepGrows(s: State, x: nat, c: nat)
    requires Ready(s, x) && c in s.cars
    ensures Sized(s) && Cars(s) && Sized(Step(s, x)) && Cars(Step(s, x))
    ensures var s' := Step(s, x);
            && c in s'.cars && s'.cars[c].dir == s.cars[c].dir && s'.cars[c].turn == s.cars[c].turn
            && Trail(s'.cars[c]) == Trail(s.cars[c]) + if x == c then Seen(s, s') else []
  {
    hide WF, Act, Held, Exclusive, Numbers, Lanes, Trail, Seen, Acts, Step;
    OnlyOne(s, x);
    if x == c {
      SeenIs(s, c);
      ActTrail(s.cars[c], s.num < 3, IsFirst(s, c), Vacant(s, c));
    }
  }

  /**
   In every run a car has done what its place says, and a car that is done has
   marked the regions of its row of the routing table, in order, each while the
   one before was still its own, and has been counted in and out.
   */
  lemma RouteTaken(s0: State, order: seq<nat>, s: State, c: nat)
    requires Start(s0) && Reaches(s0, order, s) && c in s0.cars
    ensures c in s.cars && WF(s.cars[c]) && Record(s0, order, s, c) == Trail(s.cars[c])
    ensures s.cars[c].pc == Done ==> s0.cars[c].dir < 4 && 1 <= s0.cars[c].turn <= 3
                                     && Record(s0, order, s, c) == Passage(s0.cars[c].dir, s0.cars[c].turn)
  {
    hide Inv, WF, Reaches, Trail, Passage, Start;
    StartInv(s0);
    StartTrail(s0, c);
    RecordGrows(s0, order, s, c);
    DoneTrail(s.cars[c]);
  }

  lemma StartTrail(s: State, c: nat)
    requires Start(s) && c in s.cars
    ensures WF(s.cars[c]) && Trail(s.cars[c]) == []
  {
  }

  lemma DoneTrail(k: Car)
    requires WF(k)
    ensures k.dir < 4 && 1 <= k.turn <= 3 && (k.pc == Done ==> Trail(k) == Passage(k.dir, k.turn))
  {
  }

  // ----- num_cars -----

  ghost function Inside(s: State): set<nat>
    requires Cars(s)
  {
    set c | c in s.cars && InIntersection(s, c)
  }

  /** Cars turning right that are in their region and not yet counted in. */
  ghost function Entering(s: State): set<nat>
  {
    set c | c in s.cars && s.cars[c].pc in {R4, R5, R6, R7}
  }

  /** Cars that have cleared their last region and are not yet counted out. */
  ghost function Leaving(s: State): set<nat>
  {
    set c | c in s.cars && s.cars[c].pc in {L2, L3}
  }

  lemma CarCounted(k: Car)
    requires WF(k) && !HoldsNum(k)
    ensures var inside := exists r: nat :: r < 4 && Occupies(k, r);
            && (Counted(k) <==> (inside && k.pc !in {R4, R5, R6, R7}) || k.pc in {L2, L3})
            && (k.pc in {R4, R5, R6, R7} ==> inside && k.turn == RIGHT) && (k.pc in {L2, L3} ==> !inside)
  {
    if k.pc in {R4, R5, R6} {
      assert Occupies(k, k.dir);
    } else if k.pc in {M0, M1, MX, M2, M3, L0, L1} {
      assert Occupies(k, RegionAt(k.dir, k.i));
    }
  }

  /**
   Whenever numcars_sem is free, every car inside that goes straight or left is
   counted in num_cars, which is the number of cars inside if and only if as
   many cars are still to be counted in as are still to be counted out.
   */
  lemma NumCarsExact(s: State)
    requires Inv(s) && s.numSem.None?
    ensures ThroughInside(s) <= CountedCars(s) && s.num == |Inside(s)| - |Entering(s)| + |Leaving(s)|
    ensures s.num == |Inside(s)| <==> |Entering(s)| == |Leaving(s)|
  {
    hide WF, Held, Exclusive, Lanes, Counted, Occupies, HoldsNum;
    forall c | c in s.cars
      ensures Counted(s.cars[c]) <==> (c in Inside(s) && c !in Entering(s)) || c in Leaving(s)
      ensures c in Entering(s) ==> c in Inside(s) && s.cars[c].turn == RIGHT
      ensures c in Leaving(s) ==> c !in Inside(s)
    {
      HeldNow(s, c, c);
      CarCounted(s.cars[c]);
    }
    assert CountedCars(s) == (Inside(s) - Entering(s)) + Leaving(s);
    assert Entering(s) <= Inside(s) && Leaving(s) !! Inside(s);
    assert Inside(s) == (Inside(s) - Entering(s)) + Entering(s);
  }

  /** One car, number 0, turning right, with the intersection to itself. */
  ghost predicate Lone(s: State, pc: Pc)
  {
    Inv(s) && s.cars.Keys == {0} && s.cars[0].turn == RIGHT && s.cars[0].pc == pc && s.numSem.None? && s.num == 0
  }

  function Ahead(pc: Pc): Pc
  {
    match pc
    case Arr0 => Arr1
    case Arr1 => R0
    case R0 => R1
    case R1 => R2
    case R2 => R3
    case _ => R4
  }

  /** It is first in its lane, its region is vacant, and no one else holds a semaphore. */
  lemma LoneSees(s: State)
    requires 0 in s.cars && Lone(s, s.cars[0].pc)
    ensures var k := s.cars[0];
            && (InLane(k) ==> IsFirst(s, 0)) && (k.pc == R3 ==> Vacant(s, 0))
            && (!HoldsQueue(k, k.dir) ==> s.qSem[k.dir].None?) && (!HoldsAccess(k, k.dir) ==> s.acc[k.dir].None?)
  {
    var k := s.cars[0];
    hide Numbers;
    RegionNow(s, k.dir);
    LaneNow(s, k.dir);
    if s.lanes[k.dir] != [] {
      assert s.lanes[k.dir][0] in s.lanes[k.dir];
    }
    if s.qSem[k.dir].Some? { QueueNow(s, 0, k.dir, s.qSem[k.dir].value); }
    if s.acc[k.dir].Some? { AccessNow(s, 0, k.dir, s.acc[k.dir].value); }
  }

  lemma LoneStep(s: State, pc: Pc)
    requires Lone(s, pc) && pc in {Arr0, Arr1, R0, R1, R2, R3}
    ensures Ready(s, 0) && Lone(Step(s, 0), Ahead(pc))
  {
    LoneSees(s);
    hide Held, Exclusive, Numbers, Lanes, IsFirst, Vacant;
    StepKeeps(s, 0);
  }

  /** It gets as far as its region. */
  lemma {:induction false} LoneEnters(s: State, pc: Pc, order: seq<nat>)
    requires Lone(s, pc) && pc in {Arr0, Arr1, R0, R1, R2, R3, R4}
    requires order == Zeros(match pc case Arr0 => 6 case Arr1 => 5 case R0 => 4 case R1 => 3 case R2 => 2 case R3 => 1
                            case _ => 0)
    ensures exists s' :: Reaches(s, order, s') && Lone(s', R4)
    decreases |order|
  {
    hide Held, Exclusive, Numbers, Lanes, Step, Enabled, WF;
    if pc == R4 {
      assert Reaches(s, order, s);
    } else {
      LoneStep(s, pc);
      LoneEnters(Step(s, 0), Ahead(pc), order[1..]);
      var s' :| Reaches(Step(s, 0), order[1..], s') && Lone(s', R4);
      assert Reaches(s, order, s');
    }
  }

  function Zeros(n: nat): seq<nat>
  {
    seq(n, i => 0)
  }

  function Alone(): State
  {
    State(map[0 := Car(0, RIGHT, 0, Arr0)], [false, false, false, false], 0, None, [None, None, None, None],
          [None, None, None, None], [[], [], [], []], [[], [], [], []], [[], [], [], []])
  }

  /** A run after which a car is inside, num_cars is 0 and its semaphore free. */
  lemma InsideUncounted()
    ensures Start(Alone())
    ensures exists order, s :: Reaches(Alone(), order, s) && Cars(s) && s.numSem.None? && s.num == 0 && Inside(s) == {0}
  {
    var s0 := Alone();
    assert Start(s0);
    StartInv(s0);
    assert Lone(s0, Arr0);
    hide Reaches, Start;
    LoneEnters(s0, Arr0, Zeros(6));
    var s :| Reaches(s0, Zeros(6), s) && Lone(s, R4);
    LoneInside(s);
  }

  lemma LoneInside(s: State)
    requires Lone(s, R4)
    ensures Cars(s) && Inside(s) == {0}
  {
    hide Held, Exclusive, Numbers, Lanes;
    assert Occupies(s.cars[0], s.cars[0].dir);
  }
}
