/** The bound of three is reached: there is room in the intersection for three cars at once (kern/asst1/stoplight.c). */
module StoplightFull {
  import opened Options
  import opened Stoplight
  import opened StoplightProof
  import opened StoplightRuns

  /** The car holds no semaphore, and is neither in lane d nor in region d. */
  ghost predicate Aside(k: Car, d: nat)
    requires WF(k)
  {
    && !HoldsNum(k) && (forall e: nat :: e < 4 ==> !HoldsQueue(k, e)) && (forall r: nat :: r < 4 ==> !HoldsAccess(k, r))
    && (k.dir == d ==> !InLane(k)) && !Occupies(k, d)
  }

  /** Car c, going straight or left, has its lane and first region to itself, and no one else holds a semaphore. */
  ghost predicate Solo(s: State, c: nat, pc: Pc)
  {
    && Inv(s) && c in s.cars && s.cars[c].turn != RIGHT && s.cars[c].pc == pc
    && (pc == AX || pc == AN ==> s.cars[c].i == 1)
    && forall e :: e in s.cars && e != c ==> Aside(s.cars[e], s.cars[c].dir)
  }

  /** The way in, when nothing stands in it. */
  function Ahead(pc: Pc): Pc
  {
    match pc
    case Arr0 => Arr1
    case Arr1 => A0
    case A0 => A1
    case A1 => A2
    case A2 => A3
    case A3 => A4
    case A4 => A5
    case A5 => A6
    case A6 => A7
    case A7 => AX
    case AX => AN
    case _ => M0
  }

  function ToGo(pc: Pc): nat
  {
    match pc
    case Arr0 => 12
    case Arr1 => 11
    case A0 => 10
    case A1 => 9
    case A2 => 8
    case A3 => 7
    case A4 => 6
    case A5 => 5
    case A6 => 4
    case A7 => 3
    case AX => 2
    case AN => 1
    case _ => 0
  }

  predicate OnTheWay(pc: Pc)
  {
    pc in {Arr0, Arr1, A0, A1, A2, A3, A4, A5, A6, A7, AX, AN}
  }

  lemma SoloSems(s: State, c: nat, pc: Pc)
    requires Solo(s, c, pc)
    ensures var k := s.cars[c];
            && (!HoldsNum(k) ==> s.numSem.None?) && (!HoldsQueue(k, k.dir) ==> s.qSem[k.dir].None?)
            && (!HoldsAccess(k, k.dir) ==> s.acc[k.dir].None?)
  {
    hide Exclusive, Numbers, Lanes, HoldsNum, HoldsQueue, HoldsAccess, InLane, Occupies;
    var k := s.cars[c];
    if s.numSem.Some? { HeldNow(s, c, s.numSem.value); }
    if s.qSem[k.dir].Some? { QueueNow(s, c, k.dir, s.qSem[k.dir].value); }
    if s.acc[k.dir].Some? { AccessNow(s, c, k.dir, s.acc[k.dir].value); }
  }

  lemma SoloSees(s: State, c: nat, pc: Pc)
    requires Solo(s, c, pc)
    ensures var k := s.cars[c]; (InLane(k) ==> IsFirst(s, c)) && (pc == A5 ==> Vacant(s, c))
  {
    hide Held, Numbers, HoldsNum, HoldsQueue, HoldsAccess;
    var k := s.cars[c];
    RegionNow(s, k.dir);
    LaneNow(s, k.dir);
    if s.lanes[k.dir] != [] {
      assert s.lanes[k.dir][0] in s.lanes[k.dir];
    }
  }

  /** What a car on its way in does when it sees no one in it. */
  lemma ActAhead(k: Car, room: bool, first: bool, vacant: bool)
    requires WF(k) && k.turn != RIGHT && OnTheWay(k.pc) && (k.pc == AX || k.pc == AN ==> k.i == 1)
    requires (k.pc == A1 ==> room) && (InLane(k) ==> first) && (k.pc == A5 ==> vacant)
    ensures var e := Act(k, room, first, vacant);
            && e.pc == Ahead(k.pc) && (e.pc == AX || e.pc == AN || e.pc == M0 ==> e.i == 1)
            && (e.pc != AX ==> e.dnum == 0)
            && (e.num == Take ==> !HoldsNum(k)) && (e.queue == Take ==> !HoldsQueue(k, k.dir))
            && (e.access == Take ==> AccessOf(k) == k.dir && !HoldsAccess(k, k.dir))
  {
  }

  lemma SoloStep(s: State, c: nat, pc: Pc)
    requires Solo(s, c, pc) && OnTheWay(pc) && (pc == A1 ==> s.num < 3)
    ensures Sized(s) && c in s.cars && WF(s.cars[c])
    ensures Ready(s, c) && Solo(Step(s, c), c, Ahead(pc)) && (Ahead(pc) != AX ==> Step(s, c).num == s.num)
    ensures c in Step(s, c).cars && SameBut(s, Step(s, c), c) && (Ahead(pc) == M0 ==> Step(s, c).cars[c].i == 1)
  {
    hide WF, Act, Held, Exclusive, Numbers, Lanes, IsFirst, Vacant, Aside, HoldsNum, HoldsQueue, HoldsAccess, InLane,
        Occupies, AccessOf, MarkOf, Ahead;
    SoloSems(s, c, pc);
    SoloSees(s, c, pc);
    ActAhead(s.cars[c], s.num < 3, IsFirst(s, c), Vacant(s, c));
    StepKeeps(s, c);
    OnlyOne(s, c);
  }

  /** The other cars have not moved. */
  ghost predicate SameBut(s: State, s': State, c: nat)
  {
    && s'.cars.Keys == s.cars.Keys && c in s.cars && s'.cars[c].dir == s.cars[c].dir
    && s'.cars[c].turn == s.cars[c].turn
    && forall e :: e in s.cars && e != c ==> s'.cars[e] == s.cars[e]
  }

  /** A car with nothing in its way gets into its first region, while fewer than three are counted. */
  lemma {:induction false} SoloEnters(s: State, c: nat, pc: Pc) returns (order: seq<nat>, s': State)
    requires Solo(s, c, pc) && (OnTheWay(pc) || pc == M0) && (pc == M0 ==> s.cars[c].i == 1)
    requires ToGo(pc) >= ToGo(A1) ==> s.num < 3
    ensures Reaches(s, order, s') && Solo(s', c, M0) && s'.cars[c].i == 1 && SameBut(s, s', c)
    decreases ToGo(pc)
  {
    hide Inv, WF, Sized, Enabled, Step, Aside;
    if pc == M0 {
      order, s' := [], s;
    } else {
      SoloStep(s, c, pc);
      order, s' := SoloEnters(Step(s, c), c, Ahead(pc));
      assert ([c] + order)[1..] == order;
      order := [c] + order;
    }
  }

  /** Three cars going straight, one from each of three directions. */
  function Three(): State
  {
    State(map[0 := Car(0, STRAIGHT, 0, Arr0), 1 := Car(1, STRAIGHT, 0, Arr0), 2 := Car(2, STRAIGHT, 0, Arr0)],
          [false, false, false, false], 0, None, [None, None, None, None], [None, None, None, None],
          [[], [], [], []], [[], [], [], []], [[], [], [], []])
  }

  /** Cars 0 up to n are in their first regions, and those from n on have not arrived. */
  ghost predicate FirstIn(s: State, n: nat)
  {
    && Inv(s) && s.cars.Keys == {0, 1, 2}
    && forall c: nat :: c < 3 ==> s.cars[c] == if c < n then Car(c, STRAIGHT, 1, M0) else Car(c, STRAIGHT, 0, Arr0)
  }

  lemma FirstCount(s: State, n: nat)
    requires FirstIn(s, n) && n < 3
    ensures s.num < 3
  {
    hide Held, Exclusive, Lanes, WF;
    assert CountedCars(s) <= {0, 1};
    SubsetSize(CountedCars(s), {0, 1});
  }

  lemma FirstSolo(s: State, n: nat)
    requires FirstIn(s, n) && n < 3
    ensures Solo(s, n, Arr0)
  {
    hide Held, Exclusive, Numbers, Lanes;
    forall e | e in s.cars && e != n
      ensures Aside(s.cars[e], n)
    {
    }
  }

  lemma NextIn(s: State, n: nat) returns (order: seq<nat>, s': State)
    requires FirstIn(s, n) && n < 3
    ensures Reaches(s, order, s') && FirstIn(s', n + 1)
  {
    hide Inv, FirstIn, Solo, SameBut, Reaches;
    FirstCount(s, n);
    FirstSolo(s, n);
    order, s' := SoloEnters(s, n, Arr0);
    FirstNext(s, s', n);
  }

  lemma FirstNext(s: State, s': State, n: nat)
    requires FirstIn(s, n) && n < 3 && Solo(s', n, M0) && s'.cars[n].i == 1 && SameBut(s, s', n)
    ensures FirstIn(s', n + 1)
  {
    hide Held, Exclusive, Numbers, Lanes, Aside, WF;
  }

  /** There is a run after which three cars going straight are in the intersection. */
  lemma ThreeInside() returns (order: seq<nat>, s: State)
    ensures Start(Three()) && Reaches(Three(), order, s) && Cars(s) && |ThroughInside(s)| == 3
  {
    var s0 := Three();
    assert Start(s0);
    StartInv(s0);
    assert FirstIn(s0, 0);
    hide Inv, Reaches, Start, ThroughInside, Three, Cars;
    var o1, s1 := NextIn(s0, 0);
    var o2, s2 := NextIn(s1, 1);
    var o3, s3 := NextIn(s2, 2);
    ReachesOn(s0, o1, s1, o2, s2);
    ReachesOn(s0, o1 + o2, s2, o3, s3);
    order, s := o1 + o2 + o3, s3;
    AllIn(s);
  }

  lemma AllIn(s: State)
    requires FirstIn(s, 3)
    ensures Cars(s) && |ThroughInside(s)| == 3
  {
    hide Held, Exclusive, Numbers, Lanes;
    forall c: nat | c < 3
      ensures InIntersection(s, c)
    {
      assert Occupies(s.cars[c], c);
    }
    assert ThroughInside(s) == {0, 1, 2};
  }
}
