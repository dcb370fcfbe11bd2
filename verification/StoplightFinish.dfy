/** From wherever a run has come to, every car can still get through (kern/asst1/stoplight.c). */
module StoplightFinish {
  import opened Options
  import opened Sums
  import opened Stoplight
  import opened StoplightProof
  import opened StoplightRuns

  // ----- runs -----

  ghost predicate CanReach(s: State, s': State)
  {
    exists order :: Reaches(s, order, s')
  }

  lemma CanGoOn(s: State, s1: State, s2: State)
    requires CanReach(s, s1) && CanReach(s1, s2)
    ensures CanReach(s, s2)
  {
    hide Reaches;
    var o1 :| Reaches(s, o1, s1);
    var o2 :| Reaches(s1, o2, s2);
    ReachesOn(s, o1, s1, o2, s2);
  }

  lemma CanStay(s: State)
    ensures CanReach(s, s)
  {
    assert Reaches(s, [], s);
  }

  lemma CanStep(s: State, c: nat)
    requires Ready(s, c)
    ensures CanReach(s, Step(s, c)) && Inv(Step(s, c))
  {
    hide Held, Exclusive, Numbers, Lanes, Enabled, Step, WF;
    StepKeeps(s, c);
    assert Reaches(Step(s, c), [], Step(s, c));
    assert [c][1..] == [];
    assert Reaches(s, [c], Step(s, c));
  }

  // ----- how far a car has to go -----

  /** Where a car on region i of its route stands. */
  function OnRegion(i: nat): nat
  {
    if i <= 1 then 33 else 29
  }

  /** Waiting in vain does not count: it goes down only towards the far side. */
  function Weight(k: Car): nat
  {
    match k.pc
    case Arr0 => 40
    case Arr1 => 39
    case A6 => 37
    case A7 => 36
    case AX => if k.i == 1 then 35 else 38
    case AN => if k.i == 1 then 34 else 38
    case M0 => OnRegion(k.i)
    case M1 => OnRegion(k.i)
    case MX => OnRegion(k.i)
    case M2 => if k.i <= 2 then 32 else 28
    case M3 => if k.i <= 2 then 31 else 27
    case L0 => 20
    case L1 => 19
    case L2 => 18
    case L3 => 17
    case R4 => 37
    case R5 => 36
    case R6 => 35
    case R7 => 34
    case Done => 0
    case _ => 38
  }

  /** Steps until the car holds no semaphore. */
  function ToRelease(k: Car): nat
  {
    match k.pc
    case Arr1 => 1
    case A1 => 9
    case A2 => 8
    case A3 => 7
    case A4 => 6
    case A5 => 5
    case A6 => 4
    case A7 => 3
    case AX => 2
    case AN => 1
    case M1 => 3
    case M2 => 2
    case M3 => 1
    case MX => 1
    case L1 => 1
    case L3 => 1
    case R1 => 1
    case R3 => 1
    case R5 => 1
    case R7 => 1
    case _ => 0
  }

  /** Steps until the car gets on. */
  function ToNext(k: Car): nat
  {
    match k.pc
    case A0 => 6
    case A1 => 5
    case A2 => 4
    case A3 => 3
    case A4 => 2
    case A5 => 1
    case R0 => 4
    case R1 => 3
    case R2 => 2
    case R3 => 1
    case M0 => 2
    case M1 => 1
    case _ => 0
  }

  lemma ActWeight(k: Car, room: bool, first: bool, vacant: bool)
    requires WF(k)
    ensures var k' := After(k, Act(k, room, first, vacant));
            Weight(k') <= Weight(k) && (ToRelease(k) > 0 ==> ToRelease(k') < ToRelease(k))
  {
  }

  /** The region the car is to enter. */
  function Ahead(k: Car): (r: nat)
    requires WF(k)
    ensures r < 4
  {
    if k.pc in {M0, M1} then RegionAt(k.dir, k.i + 1) else k.dir
  }

  /** Nothing is in the way of the car; vacant says so of the region ahead. */
  predicate Unhindered(k: Car, room: bool, first: bool, vacant: bool)
  {
    match k.pc
    case Arr0 => true
    case L0 => true
    case L2 => true
    case R4 => true
    case R6 => true
    case M0 => vacant
    case M1 => vacant
    case _ => ToNext(k) > 0 && first && vacant && (k.pc in {R0, R1, R2, R3} || room)
  }

  /** It gets on, or comes a step nearer to it and changes nothing that others look at. */
  lemma ActUnhindered(k: Car, room: bool, first: bool, vacant: bool, look: bool)
    requires WF(k) && Unhindered(k, room, first, vacant) && (MarkOf(k) == Ahead(k) ==> look == vacant)
    ensures var e := Act(k, room, first, look); var k' := After(k, e);
            && k.pc != Done && WF(k')
            && (Weight(k') < Weight(k)
                || (Unhindered(k', room, first, vacant) && Weight(k') == Weight(k) && ToNext(k') < ToNext(k)
                    && e.mark == Same && e.lane == Stay && e.dnum == 0 && Ahead(k') == Ahead(k)))
  {
  }

  // ----- sums -----

  ghost function Weights(s: State): map<nat, nat>
  {
    map c | c in s.cars :: Weight(s.cars[c])
  }

  ghost function Releases(s: State): map<nat, nat>
  {
    map c | c in s.cars :: ToRelease(s.cars[c])
  }

  lemma StepSums(s: State, c: nat)
    requires Ready(s, c)
    ensures c in Step(s, c).cars && Step(s, c).cars[c] == After(s.cars[c], Chosen(s, c))
    ensures Sum(Weights(Step(s, c))) == Sum(Weights(s)) - Weight(s.cars[c]) + Weight(Step(s, c).cars[c])
    ensures Sum(Releases(Step(s, c))) == Sum(Releases(s)) - ToRelease(s.cars[c]) + ToRelease(Step(s, c).cars[c])
  {
    hide Weight, ToRelease, Held, Exclusive, Numbers, Lanes, Act, WF, Step;
    OnlyOne(s, c);
    var s' := Step(s, c);
    assert Weights(s') == Weights(s)[c := Weight(s'.cars[c])];
    assert Releases(s') == Releases(s)[c := ToRelease(s'.cars[c])];
    SumUpdate(Weights(s), c, Weight(s'.cars[c]));
    SumUpdate(Releases(s), c, ToRelease(s'.cars[c]));
  }

  // ----- letting all semaphores go -----

  ghost predicate NoneHeld(s: State)
    requires Sized(s)
  {
    s.numSem == None && forall d: nat :: d < 4 ==> s.qSem[d] == None && s.acc[d] == None
  }

  lemma HoldersRelease(k: Car, r: nat)
    requires WF(k)
    ensures HoldsNum(k) || HoldsQueue(k, r) || HoldsAccess(k, r) ==> ToRelease(k) > 0
    ensures ToRelease(k) > 0 ==> HoldsNum(k) || HoldsQueue(k, k.dir) || exists x: nat :: x < 4 && HoldsAccess(k, x)
  {
    if k.pc in {M1, MX} {
      assert HoldsAccess(k, RegionAt(k.dir, k.i + 1));
    } else if k.pc in {M2, M3, L1} {
      assert HoldsAccess(k, RegionAt(k.dir, k.i));
    } else if k.pc == R3 {
      assert HoldsAccess(k, k.dir);
    }
  }

  /** Some car that holds a semaphore can go on: first those of lanes, then those of regions, then the counter's. */
  lemma SomeHolder(s: State) returns (c: nat)
    requires Inv(s) && !NoneHeld(s)
    ensures Ready(s, c) && ToRelease(s.cars[c]) > 0
  {
    if d: nat :| d < 4 && s.qSem[d].Some? {
      c := s.qSem[d].value;
      QueueHolderRuns(s, d, c);
      QueueNow(s, c, d, c);
      HoldersRelease(s.cars[c], d);
    } else if r: nat :| r < 4 && s.acc[r].Some? {
      c := s.acc[r].value;
      HoldsOf(s, r, c);
      AccessHolderFree(s, c, r);
      HoldersRelease(s.cars[c], r);
    } else {
      c := s.numSem.value;
      HeldNowOf(s, c);
      NumHolderFree(s, c);
      HoldersRelease(s.cars[c], 0);
    }
  }

  lemma AccessHolderFree(s: State, c: nat, r: nat)
    requires Inv(s) && c in s.cars && r < 4 && HoldsAccess(s.cars[c], r) && forall d: nat :: d < 4 ==> s.qSem[d] == None
    ensures Enabled(s, c)
  {
    hide Held, Exclusive, Numbers, Lanes;
  }

  lemma NumHolderFree(s: State, c: nat)
    requires Inv(s) && c in s.cars && HoldsNum(s.cars[c]) && forall d: nat :: d < 4 ==>
               s.qSem[d] == None && s.acc[d] == None
    ensures Enabled(s, c)
  {
    hide Held, Exclusive, Numbers, Lanes;
  }

  lemma {:induction false} Release(s: State) returns (s': State)
    requires Inv(s)
    ensures CanReach(s, s') && Inv(s') && NoneHeld(s') && Sum(Weights(s')) <= Sum(Weights(s))
    decreases Sum(Releases(s))
  {
    hide Held, Exclusive, Numbers, Lanes, Enabled, Step, Weight, ToRelease, Act, Weights, Releases, CanReach, WF;
    if NoneHeld(s) {
      CanStay(s);
      s' := s;
    } else {
      var c := SomeHolder(s);
      CanStep(s, c);
      StepSums(s, c);
      ActWeight(s.cars[c], s.num < 3, IsFirst(s, c), Vacant(s, c));
      var s1 := Step(s, c);
      s' := Release(s1);
      CanGoOn(s, s1, s');
    }
  }

  // ----- getting one car on -----

  /** Nobody else holds a semaphore. */
  ghost predicate Alone(s: State, c: nat)
    requires Sized(s)
  {
    && (s.numSem == None || s.numSem == Some(c))
    && forall d: nat :: d < 4 ==>
         (s.qSem[d] == None || s.qSem[d] == Some(c)) && (s.acc[d] == None || s.acc[d] == Some(c))
  }

  ghost predicate Promising(s: State, c: nat)
    requires Sized(s) && c in s.cars && WF(s.cars[c])
  {
    Alone(s, c) && Unhindered(s.cars[c], s.num < 3, IsFirst(s, c), !s.region[Ahead(s.cars[c])])
  }

  lemma AloneReady(s: State, c: nat)
    requires Inv(s) && c in s.cars && Alone(s, c) && s.cars[c].pc != Done
    ensures Ready(s, c)
  {
    hide Held, Exclusive, Numbers, Lanes, Act, HoldsNum, HoldsQueue, HoldsAccess, AccessOf, MarkOf, Occupies;
    var k := s.cars[c];
    ActWF(k, s.num < 3, IsFirst(s, c), Vacant(s, c));
    ActNum(k, s.num < 3, IsFirst(s, c), Vacant(s, c));
    ActQueue(k, s.num < 3, IsFirst(s, c), Vacant(s, c), k.dir);
    ActAccess(k, s.num < 3, IsFirst(s, c), Vacant(s, c), AccessOf(k));
    HeldNow(s, c, c);
    QueueNow(s, c, k.dir, c);
    AccessNow(s, c, AccessOf(k), c);
  }

  lemma PromiseKept(s: State, c: nat)
    requires Ready(s, c) && WF(s.cars[c]) && Promising(s, c)
    ensures var s' := Step(s, c);
            && Sized(s') && c in s'.cars && WF(s'.cars[c])
            && (Weight(s'.cars[c]) < Weight(s.cars[c])
                || (Promising(s', c) && Weight(s'.cars[c]) == Weight(s.cars[c])
                    && ToNext(s'.cars[c]) < ToNext(s.cars[c])))
  {
    hide Held, Exclusive, Numbers, Lanes, Act, AccessOf, Weight, ToNext, Unhindered, Ahead, MarkOf, WF;
    OnlyOne(s, c);
    var k := s.cars[c];
    ActUnhindered(k, s.num < 3, IsFirst(s, c), !s.region[Ahead(k)], Vacant(s, c));
  }

  lemma {:induction false} Advance(s: State, c: nat) returns (s': State)
    requires Inv(s) && c in s.cars && Promising(s, c)
    ensures CanReach(s, s') && Inv(s') && Sum(Weights(s')) < Sum(Weights(s))
    decreases ToNext(s.cars[c])
  {
    hide Held, Exclusive, Numbers, Lanes, Enabled, Step, Weight, ToNext, Act, Weights, Releases, CanReach, WF, Alone;
    NotDone(s.cars[c], s.num < 3, IsFirst(s, c), !s.region[Ahead(s.cars[c])]);
    AloneReady(s, c);
    CanStep(s, c);
    StepSums(s, c);
    PromiseKept(s, c);
    s' := Step(s, c);
    if Weight(s'.cars[c]) >= Weight(s.cars[c]) {
      var s1 := s';
      s' := Advance(s1, c);
      CanGoOn(s, s1, s');
    }
  }

  lemma NotDone(k: Car, room: bool, first: bool, vacant: bool)
    requires Unhindered(k, room, first, vacant)
    ensures k.pc != Done
  {
  }

  // ----- somebody can always get on -----

  predicate AtRest(k: Car)
  {
    k.pc in {Arr0, A0, M0, L0, L2, R0, R2, R4, R6, Done}
  }

  lemma RestsWhenFree(s: State, c: nat)
    requires Inv(s) && NoneHeld(s) && c in s.cars
    ensures AtRest(s.cars[c])
  {
    hide Held, Exclusive, Numbers, Lanes, HoldsNum, HoldsQueue, HoldsAccess;
    var k := s.cars[c];
    HoldersRelease(k, 0);
    HeldNow(s, c, c);
    QueueNow(s, c, k.dir, c);
    forall x: nat | x < 4 ensures !HoldsAccess(k, x) { AccessNow(s, c, x, c); }
  }

  lemma SomeonePromising(s: State, x: nat) returns (c: nat)
    requires Inv(s) && NoneHeld(s) && x in s.cars && s.cars[x].pc != Done
    ensures c in s.cars && Promising(s, c)
  {
    hide Held, Exclusive, Numbers, Lanes, WF, Occupies;
    forall y | y in s.cars ensures AtRest(s.cars[y]) { RestsWhenFree(s, y); }
    if y :| y in s.cars && s.cars[y].pc in {Arr0, L0, L2, R4, R6} {
      c := y;
    } else if y :| y in s.cars && s.cars[y].pc == M0 {
      c := InsidePromising(s, y);
    } else {
      c := OutsidePromising(s, x);
    }
  }

  /** With cars inside, one of them wants a region that is vacant. */
  lemma InsidePromising(s: State, y: nat) returns (c: nat)
    requires Inv(s) && NoneHeld(s) && y in s.cars && s.cars[y].pc == M0
    requires forall z :: z in s.cars ==> s.cars[z].pc in {A0, M0, R0, R2, Done}
    ensures c in s.cars && Promising(s, c)
  {
    hide Held, Exclusive, Numbers, Lanes;
    assert Occupies(s.cars[y], RegionAt(s.cars[y].dir, s.cars[y].i));
    assert InIntersection(s, y);
    SomeoneCanGo(s, y);
    c :| InIntersection(s, c) && !Stuck(s, c);
  }

  /** With nobody inside, the first car of a lane is in nobody's way. */
  lemma OutsidePromising(s: State, x: nat) returns (c: nat)
    requires Inv(s) && NoneHeld(s) && x in s.cars && s.cars[x].pc != Done
    requires forall z :: z in s.cars ==> s.cars[z].pc in {A0, R0, R2, Done}
    ensures c in s.cars && Promising(s, c)
  {
    hide Held, Exclusive, Numbers, Lanes, Occupies, RegionOk;
    var d := s.cars[x].dir;
    EmptyInside(s, d);
    LaneNow(s, d);
    assert x in s.lanes[d];
    c := s.lanes[d][0];
    assert c in s.lanes[d];
  }

  lemma EmptyInside(s: State, d: nat)
    requires Inv(s) && d < 4 && forall z :: z in s.cars ==> s.cars[z].pc in {A0, R0, R2, Done}
    ensures !s.region[d] && s.num < 3
  {
    hide Held, Exclusive, Lanes;
    assert CountedCars(s) == {};
    RegionNow(s, d);
  }

  // ----- everybody -----

  ghost predicate AllDone(s: State)
  {
    forall c :: c in s.cars ==> s.cars[c].pc == Done
  }

  lemma {:induction false} Finish(s: State) returns (s': State)
    requires Inv(s)
    ensures CanReach(s, s') && Inv(s') && AllDone(s')
    decreases Sum(Weights(s))
  {
    hide Held, Exclusive, Numbers, Lanes, WF, Weights, CanReach, Promising, NoneHeld;
    var s1 := Release(s);
    if AllDone(s1) {
      s' := s1;
    } else {
      var x :| x in s1.cars && s1.cars[x].pc != Done;
      var c := SomeonePromising(s1, x);
      var s2 := Advance(s1, c);
      s' := Finish(s2);
      CanGoOn(s, s1, s2);
      CanGoOn(s, s2, s');
    }
  }

  /** No run blocks the intersection for good: whatever happened, some order of steps takes every car through. */
  lemma CanAlwaysFinish(s0: State, order: seq<nat>, s: State)
    requires Start(s0) && Reaches(s0, order, s)
    ensures exists s' :: CanReach(s, s') && AllDone(s')
  {
    hide Reaches, Inv, Start, CanReach;
    StartInv(s0);
    ReachesInv(s0, order, s);
    var s' := Finish(s);
  }
}
