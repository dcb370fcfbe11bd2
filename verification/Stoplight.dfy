/**
 The intersection as a state machine over any number of cars
 (kern/asst1/stoplight.c). A step of a car is one P, or what it does next up to
 and including a V; the semaphores are binary and record who holds them.
 */
module Stoplight {
  import opened Options

  /** Where a car is in approachintersection, gostraightorleft or turnright. */
  datatype Pc =
    | Arr0 | Arr1
    | A0 | A1 | A2 | A3 | A4 | A5 | A6 | A7 | AX | AN
    | M0 | M1 | M2 | M3 | MX
    | L0 | L1 | L2 | L3
    | R0 | R1 | R2 | R3 | R4 | R5 | R6 | R7
    | Done

  const LEFT := 1
  const STRAIGHT := 2
  const RIGHT := 3

  /** i is the car's index into its route. */
  datatype Car = Car(dir: nat, turn: nat, i: nat, pc: Pc)

  /** arrived and entered record, lane by lane, the cars that queued up and those that left the queue. */
  datatype State = State(
    cars: map<nat, Car>, region: seq<bool>, num: int,
    numSem: Option<nat>, acc: seq<Option<nat>>, qSem: seq<Option<nat>>,
    lanes: seq<seq<nat>>, arrived: seq<seq<nat>>, entered: seq<seq<nat>>)

  // ----- routes -----

  /** How many regions a turn crosses. */
  function Regions(turn: nat): nat
  {
    if turn == RIGHT then 1 else if turn == STRAIGHT then 2 else 3
  }

  /** The routing table's entry for a car, less the 10 that marks regions: its i-th region. */
  function RegionAt(dir: nat, i: nat): (r: nat)
    requires dir < 4 && 1 <= i <= 3
    ensures r < 4
  {
    if i == 1 then dir else if i == 2 then (dir + 3) % 4 else (dir + 2) % 4
  }

  /** router: a row of the routing table, where regions are numbered from 10. */
  function Route(dir: nat, turn: nat): seq<nat>
  {
    var dest := (dir + turn) % 4;
    if turn == STRAIGHT then [dir, dir + 10, (dir + 3) % 4 + 10, dest]
    else if turn == RIGHT then [dir, dir + 10, dest]
    else [dir, dir + 10, (dir + 3) % 4 + 10, (dir + 2) % 4 + 10, dest]
  }

  /** A route is its regions between where the car comes from and its destination, which is elsewhere. */
  lemma RouteRegions(dir: nat, turn: nat)
    requires dir < 4 && 1 <= turn <= 3
    ensures var row := Route(dir, turn); var dest := (dir + turn) % 4;
            && |row| == Regions(turn) + 2 && row[0] == dir != dest && row[|row| - 1] == dest
            && forall i :: 1 <= i <= Regions(turn) ==> row[i] == RegionAt(dir, i) + 10 && row[i] != dest
  {
  }

  /** Each region of a route is the one before the last, going round. */
  lemma RouteGoesRound(dir: nat, i: nat)
    requires dir < 4 && 1 <= i <= 2
    ensures RegionAt(dir, i + 1) == (RegionAt(dir, i) + 3) % 4 && RegionAt(dir, i + 1) != RegionAt(dir, i)
  {
  }

  // ----- what a place in the code implies -----

  predicate WF(k: Car)
  {
    && k.dir < 4 && 1 <= k.turn <= 3
    && match k.pc
       case Arr0 => k.i == 0
       case Arr1 => k.i == 0
       case A0 => k.turn != RIGHT && k.i == 0
       case A1 => k.turn != RIGHT && k.i == 0
       case A2 => k.turn != RIGHT && k.i == 0
       case A3 => k.turn != RIGHT && k.i == 0
       case A4 => k.turn != RIGHT && k.i == 0
       case A5 => k.turn != RIGHT && k.i == 0
       case A6 => k.turn != RIGHT && k.i == 0
       case A7 => k.turn != RIGHT && k.i == 0
       case AX => k.turn != RIGHT && k.i <= 1
       case AN => k.turn != RIGHT && k.i <= 1
       case M0 => k.turn != RIGHT && 1 <= k.i < Regions(k.turn)
       case M1 => k.turn != RIGHT && 1 <= k.i < Regions(k.turn)
       case MX => k.turn != RIGHT && 1 <= k.i < Regions(k.turn)
       case M2 => k.turn != RIGHT && 2 <= k.i <= Regions(k.turn)
       case M3 => k.turn != RIGHT && 2 <= k.i <= Regions(k.turn)
       case L0 => k.i == Regions(k.turn)
       case L1 => k.i == Regions(k.turn)
       case L2 => k.i == Regions(k.turn)
       case L3 => k.i == Regions(k.turn)
       case Done => true
       case _ => k.turn == RIGHT && k.i == 0
  }

  predicate HoldsNum(k: Car)
  {
    k.pc in {A1, A2, A3, A4, A5, A6, A7, AX, AN, L3, R7}
  }

  predicate HoldsQueue(k: Car, d: nat)
  {
    k.dir == d && k.pc in {Arr1, A3, A7, R1, R5}
  }

  predicate HoldsAccess(k: Car, r: nat)
    requires WF(k)
  {
    match k.pc
    case A5 => r == k.dir
    case A6 => r == k.dir
    case A7 => r == k.dir
    case AX => r == k.dir
    case M1 => r == RegionAt(k.dir, k.i + 1)
    case MX => r == RegionAt(k.dir, k.i + 1)
    case M2 => r == RegionAt(k.dir, k.i)
    case M3 => r == RegionAt(k.dir, k.i)
    case L1 => r == RegionAt(k.dir, k.i)
    case R3 => r == k.dir
    case _ => false
  }

  /** The car is in region r. */
  predicate Occupies(k: Car, r: nat)
    requires WF(k)
  {
    match k.pc
    case A6 => r == k.dir
    case A7 => r == k.dir
    case AX => k.i == 1 && r == k.dir
    case AN => k.i == 1 && r == k.dir
    case M0 => r == RegionAt(k.dir, k.i)
    case M1 => r == RegionAt(k.dir, k.i)
    case MX => r == RegionAt(k.dir, k.i)
    case M2 => r == RegionAt(k.dir, k.i) || r == RegionAt(k.dir, k.i - 1)
    case M3 => r == RegionAt(k.dir, k.i)
    case L0 => r == RegionAt(k.dir, k.i)
    case L1 => r == RegionAt(k.dir, k.i)
    case R4 => r == k.dir
    case R5 => r == k.dir
    case R6 => r == k.dir
    case R7 => r == k.dir
    case _ => false
  }

  /** num_cars counts the car. */
  predicate Counted(k: Car)
  {
    (k.pc in {AX, AN} && k.i == 1) || k.pc in {M0, M1, M2, M3, MX, L0, L1, L2, L3}
  }

  predicate InLane(k: Car)
  {
    k.pc in {A0, A1, A2, A3, A4, A5, A6, A7, R0, R1, R2, R3, R4, R5} || (k.pc in {AX, AN} && k.i == 0)
  }

  /** The car has seen that it is first in its lane. */
  predicate First(k: Car)
  {
    k.pc in {A4, A5, A6, A7, R2, R3, R4, R5}
  }

  /** The car has seen that there is room. */
  predicate SawRoom(k: Car)
  {
    k.pc in {A2, A3, A4, A5, A6, A7}
  }

  // ----- steps -----

  /** What a step does to a semaphore: nothing, a P, or a V. */
  datatype SemOp = Keep | Take | Give

  datatype Mark = Same | Set | Clear

  datatype LaneOp = Stay | Join | Leave

  /**
   A step: where the car goes, what it does to numcars_sem, to its lane's
   semaphore and to the access semaphore of the region AccessOf, whether it
   marks or clears the region MarkOf, joins or leaves its lane, and by how much
   it changes num_cars.
   */
  datatype Effect = Effect(pc: Pc, i: nat, num: SemOp, queue: SemOp, access: SemOp, mark: Mark, lane: LaneOp, dnum: int)

  function AccessOf(k: Car): (r: nat)
    requires WF(k)
    ensures r < 4
  {
    match k.pc
    case M0 => RegionAt(k.dir, k.i + 1)
    case M1 => RegionAt(k.dir, k.i + 1)
    case MX => RegionAt(k.dir, k.i + 1)
    case M3 => RegionAt(k.dir, k.i)
    case L0 => RegionAt(k.dir, k.i)
    case L1 => RegionAt(k.dir, k.i)
    case _ => k.dir
  }

  function MarkOf(k: Car): (r: nat)
    requires WF(k)
    ensures r < 4
  {
    match k.pc
    case M1 => RegionAt(k.dir, k.i + 1)
    case M2 => RegionAt(k.dir, k.i - 1)
    case L1 => RegionAt(k.dir, k.i)
    case _ => k.dir
  }

  function Go(pc: Pc, i: nat): Effect
  {
    Effect(pc, i, Keep, Keep, Keep, Same, Stay, 0)
  }

  /** What the car goes on with once it is in a region of its route. */
  function Inside(k: Car): Pc
  {
    if k.i == Regions(k.turn) then L0 else M0
  }

  /**
   The next step of a car that sees, where it looks: whether num_cars is below
   three, whether it is first in its lane, whether the region is vacant.
   */
  function Act(k: Car, room: bool, first: bool, vacant: bool): Effect
    requires WF(k)
  {
    match k.pc
    case Arr0 => Go(Arr1, 0).(queue := Take)
    case Arr1 => Go(if k.turn == RIGHT then R0 else A0, 0).(lane := Join, queue := Give)
    case A0 => Go(A1, 0).(num := Take)
    case A1 => if room then Go(A2, 0) else Go(A0, 0).(num := Give)
    case A2 => Go(A3, 0).(queue := Take)
    case A3 => Go(if first then A4 else AN, 0).(queue := Give)
    case A4 => Go(A5, 0).(access := Take)
    case A5 => if vacant then Go(A6, 0).(mark := Set) else Go(AX, 0)
    case A6 => Go(A7, 0).(queue := Take)
    case A7 => Go(AX, 1).(lane := Leave, queue := Give, dnum := 1)
    case AX => Go(AN, k.i).(access := Give)
    case AN => Go(if k.i == 0 then A0 else Inside(k), k.i).(num := Give)
    case M0 => Go(M1, k.i).(access := Take)
    case M1 => if vacant then Go(M2, k.i + 1).(mark := Set) else Go(MX, k.i)
    case MX => Go(M0, k.i).(access := Give)
    case M2 => Go(M3, k.i).(mark := Clear)
    case M3 => Go(Inside(k), k.i).(access := Give)
    case L0 => Go(L1, k.i).(access := Take)
    case L1 => Go(L2, k.i).(mark := Clear, access := Give)
    case L2 => Go(L3, k.i).(num := Take)
    case L3 => Go(Done, k.i).(dnum := -1, num := Give)
    case R0 => Go(R1, 0).(queue := Take)
    case R1 => Go(if first then R2 else R0, 0).(queue := Give)
    case R2 => Go(R3, 0).(access := Take)
    case R3 => if vacant then Go(R4, 0).(mark := Set, access := Give) else Go(R0, 0).(access := Give)
    case R4 => Go(R5, 0).(queue := Take)
    case R5 => Go(R6, 0).(lane := Leave, queue := Give)
    case R6 => Go(R7, 0).(num := Take)
    case R7 => Go(L0, 1).(dnum := 1, num := Give)
    case Done => Go(Done, k.i)
  }

  ghost predicate Sized(s: State)
  {
    |s.region| == |s.acc| == |s.qSem| == |s.lanes| == |s.arrived| == |s.entered| == 4
  }

  ghost predicate IsFirst(s: State, c: nat)
    requires Sized(s) && c in s.cars && WF(s.cars[c])
  {
    var lane := s.lanes[s.cars[c].dir];
    lane != [] && lane[0] == c
  }

  ghost predicate Vacant(s: State, c: nat)
    requires Sized(s) && c in s.cars && WF(s.cars[c])
  {
    !s.region[MarkOf(s.cars[c])]
  }

  /** The step car c takes in state s. */
  ghost function Chosen(s: State, c: nat): Effect
    requires Sized(s) && c in s.cars && WF(s.cars[c])
  {
    Act(s.cars[c], s.num < 3, IsFirst(s, c), Vacant(s, c))
  }

  /** A P goes through only when the semaphore is free. */
  ghost predicate Enabled(s: State, c: nat)
    requires Sized(s) && c in s.cars && WF(s.cars[c])
  {
    var k, e := s.cars[c], Chosen(s, c);
    && k.pc != Done
    && (e.num == Take ==> s.numSem.None?)
    && (e.queue == Take ==> s.qSem[k.dir].None?)
    && (e.access == Take ==> s.acc[AccessOf(k)].None?)
  }

  function Sem(o: Option<nat>, op: SemOp, c: nat): Option<nat>
  {
    match op case Keep => o case Take => Some(c) case Give => None
  }

  /** One step of car c. */
  ghost function Step(s: State, c: nat): State
    requires Sized(s) && c in s.cars && WF(s.cars[c])
  {
    var k, e := s.cars[c], Chosen(s, c);
    var d, r, m := k.dir, AccessOf(k), MarkOf(k);
    State(
      s.cars[c := k.(pc := e.pc, i := e.i)],
      if e.mark == Same then s.region else s.region[m := e.mark == Set],
      s.num + e.dnum,
      Sem(s.numSem, e.num, c),
      s.acc[r := Sem(s.acc[r], e.access, c)],
      s.qSem[d := Sem(s.qSem[d], e.queue, c)],
      if e.lane == Join then s.lanes[d := s.lanes[d] + [c]]
      else if e.lane == Leave && s.lanes[d] != [] then s.lanes[d := s.lanes[d][1..]]
      else s.lanes,
      if e.lane == Join then s.arrived[d := s.arrived[d] + [c]] else s.arrived,
      if e.lane == Leave && s.lanes[d] != [] then s.entered[d := s.entered[d] + [s.lanes[d][0]]] else s.entered)
  }

  // ----- the invariant -----

  ghost predicate Cars(s: State)
  {
    forall c :: c in s.cars ==> WF(s.cars[c])
  }

  /** The semaphores are held by just the cars whose place says so. */
  ghost predicate Held(s: State)
    requires Sized(s) && Cars(s)
  {
    && (forall c :: s.numSem == Some(c) <==> c in s.cars && HoldsNum(s.cars[c]))
    && (forall d: nat, c :: d < 4 ==> (s.qSem[d] == Some(c) <==> c in s.cars && HoldsQueue(s.cars[c], d)))
    && (forall r: nat, c :: r < 4 ==> (s.acc[r] == Some(c) <==> c in s.cars && HoldsAccess(s.cars[c], r)))
  }

  /** Region r is marked just when a car is in it, and never are two. */
  ghost predicate RegionOk(s: State, r: nat)
    requires Sized(s) && Cars(s) && r < 4
  {
    && (forall c :: c in s.cars && Occupies(s.cars[c], r) ==> s.region[r])
    && (s.region[r] ==> exists c :: c in s.cars && Occupies(s.cars[c], r))
    && (forall c, e :: c in s.cars && e in s.cars && Occupies(s.cars[c], r) && Occupies(s.cars[e], r) ==> c == e)
  }

  ghost predicate Exclusive(s: State)
    requires Sized(s) && Cars(s)
  {
    forall r: nat :: r < 4 ==> RegionOk(s, r)
  }

  ghost function CountedCars(s: State): set<nat>
  {
    set c | c in s.cars && Counted(s.cars[c])
  }

  ghost function CountedThrough(s: State): set<nat>
  {
    set c | c in s.cars && Counted(s.cars[c]) && s.cars[c].turn != RIGHT
  }

  /** num_cars is right, and cars going straight or left never fill more than three places of it. */
  ghost predicate Numbers(s: State)
  {
    && s.num == |CountedCars(s)|
    && |CountedThrough(s)| <= 3
    && forall c :: c in s.cars && SawRoom(s.cars[c]) ==> s.num < 3
  }

  ghost predicate Different(q: seq<nat>)
  {
    forall i, j :: 0 <= i < j < |q| ==> q[i] != q[j]
  }

  /** A lane holds the cars still waiting in it, in the order they came. */
  ghost predicate LaneOk(s: State, d: nat)
    requires Sized(s) && d < 4
  {
    && (forall c :: c in s.lanes[d] <==> c in s.cars && s.cars[c].dir == d && InLane(s.cars[c]))
    && Different(s.lanes[d])
    && (forall c :: c in s.cars && s.cars[c].dir == d && First(s.cars[c]) ==> s.lanes[d] != [] && s.lanes[d][0] == c)
    && s.arrived[d] == s.entered[d] + s.lanes[d]
  }

  ghost predicate Lanes(s: State)
    requires Sized(s)
  {
    forall d: nat :: d < 4 ==> LaneOk(s, d)
  }

  ghost predicate Inv(s: State)
  {
    Sized(s) && Cars(s) && Held(s) && Exclusive(s) && Numbers(s) && Lanes(s)
  }
}
