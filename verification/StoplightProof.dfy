/** The intersection is safe in every interleaving (kern/asst1/stoplight.c). */
module StoplightProof {
  import opened Options
  import opened Stoplight

  ghost function After(k: Car, e: Effect): Car
  {
    k.(pc := e.pc, i := e.i)
  }

  // ----- each step says the truth about what it does -----

  lemma ActWF(k: Car, room: bool, first: bool, vacant: bool)
    requires WF(k)
    ensures WF(After(k, Act(k, room, first, vacant)))
  {
  }

  lemma ActNum(k: Car, room: bool, first: bool, vacant: bool)
    requires WF(k)
    ensures var e := Act(k, room, first, vacant); var k' := After(k, e);
            match e.num
            case Keep => HoldsNum(k') == HoldsNum(k)
            case Take => HoldsNum(k') && !HoldsNum(k)
            case Give => !HoldsNum(k') && HoldsNum(k)
  {
  }

  lemma ActQueue(k: Car, room: bool, first: bool, vacant: bool, d: nat)
    requires WF(k)
    ensures var e := Act(k, room, first, vacant); var k' := After(k, e);
            match e.queue
            case Keep => HoldsQueue(k', d) == HoldsQueue(k, d)
            case Take => HoldsQueue(k', d) == (d == k.dir) && !HoldsQueue(k, d)
            case Give => !HoldsQueue(k', d) && HoldsQueue(k, d) == (d == k.dir)
  {
  }

  lemma ActAccess(k: Car, room: bool, first: bool, vacant: bool, r: nat)
    requires WF(k) && WF(After(k, Act(k, room, first, vacant)))
    ensures var e := Act(k, room, first, vacant); var k' := After(k, e);
            match e.access
            case Keep => HoldsAccess(k', r) == HoldsAccess(k, r)
            case Take => HoldsAccess(k', r) == (r == AccessOf(k)) && !HoldsAccess(k, r)
            case Give => !HoldsAccess(k', r) && HoldsAccess(k, r) == (r == AccessOf(k))
  {
  }

  lemma ActMark(k: Car, room: bool, first: bool, vacant: bool, r: nat)
    requires WF(k) && WF(After(k, Act(k, room, first, vacant)))
    ensures var e := Act(k, room, first, vacant); var k' := After(k, e);
            match e.mark
            case Same => Occupies(k', r) == Occupies(k, r)
            case Set => vacant && Occupies(k', r) == (Occupies(k, r) || r == MarkOf(k)) && HoldsAccess(k, MarkOf(k))
            case Clear => Occupies(k', r) == (Occupies(k, r) && r != MarkOf(k)) && Occupies(k, MarkOf(k))
  {
  }

  lemma ActCount(k: Car, room: bool, first: bool, vacant: bool)
    requires WF(k)
    ensures var e := Act(k, room, first, vacant); var k' := After(k, e);
            && -1 <= e.dnum <= 1
            && (e.dnum == 0 ==> Counted(k') == Counted(k))
            && (e.dnum == 1 ==>
                 Counted(k') && !Counted(k) && HoldsNum(k) && (k.turn != RIGHT ==> SawRoom(k)) && !SawRoom(k'))
            && (e.dnum == -1 ==> !Counted(k') && Counted(k) && HoldsNum(k) && !SawRoom(k'))
            && (SawRoom(k') ==> SawRoom(k) || room)
            && (SawRoom(k) ==> HoldsNum(k))
  {
  }

  lemma ActLane(k: Car, room: bool, first: bool, vacant: bool)
    requires WF(k)
    ensures var e := Act(k, room, first, vacant); var k' := After(k, e);
            && (e.lane == Stay ==> InLane(k') == InLane(k))
            && (e.lane == Join ==> InLane(k') && !InLane(k))
            && (e.lane == Leave ==> !InLane(k') && InLane(k) && First(k))
            && (First(k') ==> First(k) || first)
            && (First(k') ==> e.lane == Stay)
  {
  }

  // ----- what every step keeps -----

  ghost predicate Ready(s: State, c: nat)
  {
    Inv(s) && c in s.cars && Enabled(s, c)
  }

  /** Only car c moves, and it keeps to its route. */
  lemma OnlyOne(s: State, c: nat)
    requires Ready(s, c)
    ensures Sized(s) && Cars(s) && WF(s.cars[c])
    ensures var s' := Step(s, c);
            && Sized(s') && s'.cars.Keys == s.cars.Keys
            && (forall e :: e in s.cars && e != c ==> s'.cars[e] == s.cars[e])
            && s'.cars[c] == After(s.cars[c], Chosen(s, c)) && WF(s'.cars[c]) && Cars(s')
  {
    hide WF, Act, Held, Exclusive, Numbers, Lanes, AccessOf, MarkOf;
    var k := s.cars[c];
    ActWF(k, s.num < 3, IsFirst(s, c), Vacant(s, c));
  }

  lemma NumHeld(s: State, c: nat, x: nat)
    requires Ready(s, c) && Cars(Step(s, c))
    ensures var s' := Step(s, c); s'.numSem == Some(x) <==> x in s'.cars && HoldsNum(s'.cars[x])
  {
    hide WF, Act, Held, Exclusive, Numbers, Lanes, AccessOf, MarkOf, HoldsNum;
    OnlyOne(s, c);
    HeldNow(s, c, x);
    var k := s.cars[c];
    ActNum(k, s.num < 3, IsFirst(s, c), Vacant(s, c));
  }

  lemma HeldNow(s: State, c: nat, x: nat)
    requires Inv(s) && c in s.cars
    ensures s.numSem == Some(x) <==> x in s.cars && HoldsNum(s.cars[x])
    ensures s.numSem == Some(c) <==> HoldsNum(s.cars[c])
  {
    hide WF, Exclusive, Numbers, Lanes, HoldsNum, HoldsAccess, HoldsQueue;
  }

  lemma QueueHeld(s: State, c: nat, d: nat, x: nat)
    requires Ready(s, c) && Cars(Step(s, c)) && d < 4
    ensures Sized(Step(s, c))
    ensures var s' := Step(s, c); s'.qSem[d] == Some(x) <==> x in s'.cars && HoldsQueue(s'.cars[x], d)
  {
    hide WF, Act, Held, Exclusive, Numbers, Lanes, AccessOf, MarkOf, HoldsQueue;
    OnlyOne(s, c);
    QueueNow(s, c, d, x);
    var k := s.cars[c];
    ActQueue(k, s.num < 3, IsFirst(s, c), Vacant(s, c), d);
  }

  lemma QueueNow(s: State, c: nat, d: nat, x: nat)
    requires Inv(s) && c in s.cars && d < 4
    ensures s.qSem[d] == Some(x) <==> x in s.cars && HoldsQueue(s.cars[x], d)
    ensures s.qSem[d] == Some(c) <==> HoldsQueue(s.cars[c], d)
  {
    hide WF, Exclusive, Numbers, Lanes, HoldsNum, HoldsAccess, HoldsQueue;
  }

  lemma AccessHeld(s: State, c: nat, r: nat, x: nat)
    requires Ready(s, c) && Cars(Step(s, c)) && r < 4
    ensures Sized(Step(s, c))
    ensures var s' := Step(s, c); s'.acc[r] == Some(x) <==> x in s'.cars && HoldsAccess(s'.cars[x], r)
  {
    hide WF, Act, Held, Exclusive, Numbers, Lanes, AccessOf, MarkOf, HoldsAccess;
    OnlyOne(s, c);
    AccessNow(s, c, r, x);
    var k := s.cars[c];
    ActAccess(k, s.num < 3, IsFirst(s, c), Vacant(s, c), r);
  }

  lemma AccessNow(s: State, c: nat, r: nat, x: nat)
    requires Inv(s) && c in s.cars && r < 4
    ensures s.acc[r] == Some(x) <==> x in s.cars && HoldsAccess(s.cars[x], r)
    ensures s.acc[r] == Some(c) <==> HoldsAccess(s.cars[c], r)
  {
    hide WF, Exclusive, Numbers, Lanes, HoldsNum, HoldsAccess, HoldsQueue;
  }

  lemma StepHeld(s: State, c: nat)
    requires Ready(s, c)
    ensures Sized(Step(s, c)) && Cars(Step(s, c)) && Held(Step(s, c))
  {
    hide WF, Step, Inv, Enabled, HoldsNum, HoldsQueue, HoldsAccess;
    OnlyOne(s, c);
    var s' := Step(s, c);
    forall x: nat ensures s'.numSem == Some(x) <==> x in s'.cars && HoldsNum(s'.cars[x]) { NumHeld(s, c, x); }
    forall d: nat, x: nat | d < 4
      ensures s'.qSem[d] == Some(x) <==> x in s'.cars && HoldsQueue(s'.cars[x], d)
    {
      QueueHeld(s, c, d, x);
    }
    forall r: nat, x: nat | r < 4
      ensures s'.acc[r] == Some(x) <==> x in s'.cars && HoldsAccess(s'.cars[x], r)
    {
      AccessHeld(s, c, r, x);
    }
  }

  // ----- regions -----

  lemma RegionNow(s: State, r: nat)
    requires Inv(s) && r < 4
    ensures RegionOk(s, r)
  {
    hide WF, Held, Numbers, Lanes, Occupies;
  }

  lemma MarkNow(s: State, c: nat, r: nat)
    requires Ready(s, c) && Cars(Step(s, c)) && r < 4
    ensures Sized(Step(s, c)) && c in Step(s, c).cars
    ensures var s', m, e := Step(s, c), MarkOf(s.cars[c]), Chosen(s, c);
            match e.mark
            case Same => s'.region[r] == s.region[r] && Occupies(s'.cars[c], r) == Occupies(s.cars[c], r)
            case Set =>
              && s'.region[r] == (s.region[r] || r == m) && !s.region[m]
              && Occupies(s'.cars[c], r) == (Occupies(s.cars[c], r) || r == m)
            case Clear =>
              && s'.region[r] == (s.region[r] && r != m) && Occupies(s.cars[c], m)
              && Occupies(s'.cars[c], r) == (Occupies(s.cars[c], r) && r != m)
  {
    hide WF, Act, Held, Exclusive, Numbers, Lanes, AccessOf, MarkOf, Occupies, HoldsAccess;
    OnlyOne(s, c);
    var k := s.cars[c];
    ActMark(k, s.num < 3, IsFirst(s, c), Vacant(s, c), r);
  }

  lemma StepRegion(s: State, c: nat, r: nat)
    requires Ready(s, c) && Cars(Step(s, c)) && r < 4
    ensures Sized(Step(s, c)) && RegionOk(Step(s, c), r)
  {
    hide WF, Inv, Enabled, Step, Act, Chosen, MarkOf, Occupies;
    OnlyOne(s, c);
    RegionNow(s, r);
    RegionNow(s, MarkOf(s.cars[c]));
    MarkNow(s, c, r);
    var s' := Step(s, c);
    if s'.region[r] {
      if Occupies(s'.cars[c], r) {
        assert c in s'.cars;
      } else {
        var e :| e in s.cars && Occupies(s.cars[e], r);
        assert e in s'.cars && Occupies(s'.cars[e], r);
      }
    }
  }

  lemma StepExclusive(s: State, c: nat)
    requires Ready(s, c)
    ensures Sized(Step(s, c)) && Cars(Step(s, c)) && Exclusive(Step(s, c))
  {
    hide WF, Step, Inv, Enabled, Occupies;
    OnlyOne(s, c);
    var s' := Step(s, c);
    forall r: nat | r < 4 ensures RegionOk(s', r) { StepRegion(s, c, r); }
  }

  // ----- numbers -----

  lemma CountNow(s: State, c: nat)
    requires Ready(s, c)
    ensures c in Step(s, c).cars
    ensures var k, k', e := s.cars[c], Step(s, c).cars[c], Chosen(s, c);
            && Step(s, c).num == s.num + e.dnum && k'.turn == k.turn
            && -1 <= e.dnum <= 1
            && (e.dnum == 0 ==> Counted(k') == Counted(k))
            && (e.dnum == 1 ==>
                 Counted(k') && !Counted(k) && HoldsNum(k) && (k.turn != RIGHT ==> SawRoom(k)) && !SawRoom(k'))
            && (e.dnum == -1 ==> !Counted(k') && Counted(k) && HoldsNum(k) && !SawRoom(k'))
            && (SawRoom(k') ==> SawRoom(k) || s.num < 3)
  {
    hide WF, Act, Held, Exclusive, Numbers, Lanes, AccessOf, MarkOf, Counted, SawRoom, HoldsNum;
    OnlyOne(s, c);
    var k := s.cars[c];
    ActCount(k, s.num < 3, IsFirst(s, c), Vacant(s, c));
  }

  lemma CountSets(s: State, c: nat)
    requires Ready(s, c)
    ensures var s', e := Step(s, c), Chosen(s, c);
            CountedCars(s') == (if e.dnum == 1 then CountedCars(s) + {c}
                                else if e.dnum == -1 then CountedCars(s) - {c} else CountedCars(s))
    ensures var s', e, right := Step(s, c), Chosen(s, c), s.cars[c].turn == RIGHT;
            CountedThrough(s') == (if e.dnum == 1 && !right then CountedThrough(s) + {c}
                                   else if e.dnum == -1 then CountedThrough(s) - {c} else CountedThrough(s))
  {
    hide WF, Inv, Enabled, Step, Chosen, Counted, SawRoom, HoldsNum;
    OnlyOne(s, c);
    CountNow(s, c);
  }

  lemma OneSawRoom(s: State, c: nat, x: nat)
    requires Inv(s) && c in s.cars && x in s.cars && HoldsNum(s.cars[c]) && SawRoom(s.cars[x])
    ensures x == c
  {
    hide Held, Exclusive, Numbers, Lanes;
    HeldNow(s, c, x);
  }

  lemma ThroughCounted(s: State)
    ensures |CountedThrough(s)| <= |CountedCars(s)|
  {
    assert CountedThrough(s) <= CountedCars(s);
    SubsetSize(CountedThrough(s), CountedCars(s));
  }

  lemma {:induction false} SubsetSize(a: set<nat>, b: set<nat>)
    requires a <= b
    ensures |a| <= |b|
  {
    if a != {} {
      var x :| x in a;
      SubsetSize(a - {x}, b - {x});
    }
  }

  lemma StepNumbers(s: State, c: nat)
    requires Ready(s, c)
    ensures Numbers(Step(s, c))
  {
    hide WF, Inv, Enabled, Step, Chosen, Counted, SawRoom, HoldsNum, CountedCars, CountedThrough;
    OnlyOne(s, c);
    CountNow(s, c);
    CountSets(s, c);
    ThroughCounted(s);
    NumbersNow(s, c);
    InBoth(s, c);
    var s', e := Step(s, c), Chosen(s, c);
    forall x | x in s'.cars && SawRoom(s'.cars[x])
      ensures s'.num < 3
    {
      NumbersNow(s, x);
      if e.dnum != 0 { OneSawRoomOf(s, c, x, e); }
    }
  }

  lemma InBoth(s: State, c: nat)
    requires c in s.cars
    ensures Counted(s.cars[c]) <==> c in CountedCars(s)
    ensures Counted(s.cars[c]) && s.cars[c].turn != RIGHT <==> c in CountedThrough(s)
  {
  }

  lemma NumbersNow(s: State, x: nat)
    requires Inv(s) && x in s.cars
    ensures s.num == |CountedCars(s)| && |CountedThrough(s)| <= 3 && (SawRoom(s.cars[x]) ==> s.num < 3)
  {
    hide WF, Held, Exclusive, Lanes, Counted, SawRoom, CountedCars, CountedThrough;
  }

  /** While a car changes num_cars, no other has seen room. */
  lemma OneSawRoomOf(s: State, c: nat, x: nat, e: Effect)
    requires Ready(s, c) && e == Chosen(s, c) && e.dnum != 0 && x in s.cars && x in Step(s, c).cars
    ensures !SawRoom(Step(s, c).cars[x])
  {
    hide WF, Enabled, Step, Chosen, Counted, SawRoom, HoldsNum, Held, Exclusive, Numbers, Lanes;
    OnlyOne(s, c);
    CountNow(s, c);
    if x != c && SawRoom(s.cars[x]) {
      OneSawRoom(s, c, x);
    }
  }

  // ----- lanes -----

  lemma LaneNow(s: State, d: nat)
    requires Inv(s) && d < 4
    ensures LaneOk(s, d)
  {
    hide WF, Held, Exclusive, Numbers, LaneOk;
  }

  /** What the step of car c does to lane d. */
  lemma LaneMove(s: State, c: nat, d: nat)
    requires Ready(s, c) && d < 4
    ensures Sized(s) && c in s.cars && WF(s.cars[c]) && Sized(Step(s, c)) && c in Step(s, c).cars
    ensures var k, k', e, s' := s.cars[c], Step(s, c).cars[c], Chosen(s, c), Step(s, c);
            && (First(k') ==> (First(k) || IsFirst(s, c)) && e.lane == Stay)
            && (k.dir != d || e.lane == Stay ==>
                 s'.lanes[d] == s.lanes[d] && s'.arrived[d] == s.arrived[d] && s'.entered[d] == s.entered[d])
            && (e.lane == Stay ==> InLane(k') == InLane(k))
            && (e.lane == Join ==> InLane(k') && !InLane(k))
            && (e.lane == Leave ==> !InLane(k') && InLane(k) && First(k))
            && (k.dir == d && e.lane == Join ==>
                  s'.lanes[d] == s.lanes[d] + [c] && s'.arrived[d] == s.arrived[d] + [c]
                      && s'.entered[d] == s.entered[d])
            && (k.dir == d && e.lane == Leave && s.lanes[d] != [] ==>
                  s'.lanes[d] == s.lanes[d][1..] && s'.arrived[d] == s.arrived[d]
                      && s'.entered[d] == s.entered[d] + [s.lanes[d][0]])
  {
    hide WF, Act, Held, Exclusive, Numbers, Lanes, AccessOf, MarkOf, InLane, First, IsFirst;
    OnlyOne(s, c);
    ActLane(s.cars[c], s.num < 3, IsFirst(s, c), Vacant(s, c));
  }

  lemma StepLane(s: State, c: nat, d: nat)
    requires Ready(s, c) && d < 4
    ensures Sized(Step(s, c)) && LaneOk(Step(s, c), d)
  {
    hide WF, Inv, Enabled, Step, Act, Chosen, InLane, First, Cars;
    OnlyOne(s, c);
    LaneNow(s, d);
    LaneMove(s, c, d);
    var s', e, k := Step(s, c), Chosen(s, c), s.cars[c];
    if k.dir == d && e.lane == Join {
      JoinOk(s.lanes[d], c);
      assert s'.arrived[d] == s'.entered[d] + s'.lanes[d];
    } else if k.dir == d && e.lane == Leave {
      LeaveOk(s.lanes[d]);
      assert s'.arrived[d] == s'.entered[d] + s'.lanes[d];
    }
  }

  lemma JoinOk(q: seq<nat>, c: nat)
    requires Different(q) && c !in q
    ensures Different(q + [c]) && forall x :: x in q + [c] <==> x in q || x == c
  {
  }

  lemma LeaveOk(q: seq<nat>)
    requires Different(q) && q != []
    ensures Different(q[1..]) && forall x :: x in q[1..] <==> x in q && x != q[0]
  {
    assert q == [q[0]] + q[1..];
  }

  lemma StepLanes(s: State, c: nat)
    requires Ready(s, c)
    ensures Sized(Step(s, c)) && Lanes(Step(s, c))
  {
    hide Inv, Enabled, Step, LaneOk, WF;
    OnlyOne(s, c);
    forall d: nat | d < 4 ensures LaneOk(Step(s, c), d) { StepLane(s, c, d); }
  }

  // ----- every step, every run -----

  lemma StepKeeps(s: State, c: nat)
    requires Ready(s, c)
    ensures Inv(Step(s, c))
  {
    hide Enabled, Step, WF, Held, Exclusive, Numbers, Lanes;
    OnlyOne(s, c);
    StepHeld(s, c);
    StepExclusive(s, c);
    StepNumbers(s, c);
    StepLanes(s, c);
  }
}
