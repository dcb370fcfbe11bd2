/** From wherever a run has come to, every animal can still eat its four meals (kern/asst1/catlock.c). */
module CatMouseFinish {
  import opened Options
  import opened Sums
  import opened CatMouse
  import opened CatMouseProof

  // ----- runs -----

  ghost predicate CanReach(s: State, s': State)
  {
    exists order :: Reaches(s, order, s')
  }

  lemma CanGoOn(s: State, s1: State, s2: State)
    requires CanReach(s, s1) && CanReach(s1, s2)
    ensures CanReach(s, s2)
  {
    hide Reaches;
    var o1 :| Reaches(s, o1, s1);
    var o2 :| Reaches(s1, o2, s2);
    ReachesOn(s, o1, s1, o2, s2);
  }

  lemma CanStay(s: State)
    ensures CanReach(s, s)
  {
    assert Reaches(s, [], s);
  }

  lemma CanStep(s: State, a: nat, coin: bool)
    requires Ready(s, a, coin)
    ensures CanReach(s, Step(s, a, coin)) && Inv(Step(s, a, coin))
  {
    StepKeeps(s, a, coin);
    hide Ready, Step;
    assert Reaches(Step(s, a, coin), [], Step(s, a, coin));
    assert [(a, coin)][1..] == [];
    assert Reaches(s, [(a, coin)], Step(s, a, coin));
  }

  // ----- how far an animal has to go -----

  /** Waiting in vain does not count: it goes down only towards the next meal. */
  function Weight(k: Animal): nat
  {
    if k.pc == Done then 0
    else
      10 * (if k.iter < 4 then 4 - k.iter else 0) +
      match k.pc
      case AskBowl => 7
      case Sit => 6
      case LetGo => 5
      case Eat => 4
      case Clear => 3
      case FreeBowl => 2
      case Leave => 1
      case _ => 8
  }

  /** Steps until the mutex is let go. */
  function ToRelease(k: Animal): nat
  {
    match k.pc
    case Look => 4
    case AskBowl => 3
    case Sit => 2
    case LetGo => 1
    case Clear => 4
    case FreeBowl => 3
    case Leave => 2
    case Unlock => 1
    case _ => 0
  }

  /** Steps until the animal has a bowl to itself, or is done. */
  function ToBowl(k: Animal): nat
  {
    match k.pc case Top => 3 case Ask => 2 case Look => 1 case _ => 0
  }

  lemma ActWeight(k: Animal, quiet: bool, free0: bool, free1: bool, coin: bool)
    requires RightCount(k)
    ensures var k' := After(k, Act(k, quiet, free0, free1, coin));
            && Weight(k') <= Weight(k)
            && (HoldsMutex(k) ==> ToRelease(k') < ToRelease(k))
            && (k.pc == Eat || (k.pc == Top && k.iter == 4) || (k.pc == Look && quiet && (free0 || free1)) ==>
                 Weight(k') < Weight(k))
            && (k.pc == Ask || (k.pc == Top && k.iter < 4) ==> k'.pc in {Ask, Look} && ToBowl(k') < ToBowl(k))
  {
  }

  ghost function Weights(s: State): map<nat, nat>
  {
    map a | a in s.animals :: Weight(s.animals[a])
  }

  lemma StepWeight(s: State, a: nat, coin: bool)
    requires Ready(s, a, coin)
    ensures a in Step(s, a, coin).animals && Step(s, a, coin).animals.Keys == s.animals.Keys
    ensures Sum(Weights(Step(s, a, coin))) == Sum(Weights(s)) - Weight(s.animals[a])
            + Weight(Step(s, a, coin).animals[a])
    ensures Step(s, a, coin).animals[a] == After(s.animals[a], Chosen(s, a, coin)) && RightCount(s.animals[a])
  {
    hide Weight, Locks, Act;
    OnlyOne(s, a, coin);
    CountsNow(s, a);
    var s' := Step(s, a, coin);
    assert Weights(s') == Weights(s)[a := Weight(s'.animals[a])];
    SumUpdate(Weights(s), a, Weight(s'.animals[a]));
  }

  // ----- letting the mutex go -----

  /** Whoever holds the mutex can go on. */
  lemma HolderReady(s: State, a: nat)
    requires Inv(s) && s.mutex == Some(a)
    ensures Ready(s, a, false) && HoldsMutex(s.animals[a])
  {
    assert a in s.animals && HoldsMutex(s.animals[a]);
    if s.animals[a].pc == AskBowl {
      BowlNeverBlocks(s, a, false);
    }
  }

  lemma {:induction false} Release(s: State) returns (s': State)
    requires Inv(s)
    ensures CanReach(s, s') && Inv(s') && s'.mutex == None && Sum(Weights(s')) <= Sum(Weights(s))
    decreases match s.mutex case None => 0 case Some(a) => if a in s.animals then ToRelease(s.animals[a]) + 1 else 0
  {
    hide Locks, Counts, Enabled, Step, Weight, Act, Weights, CanReach, RightCount;
    if s.mutex == None {
      CanStay(s);
      s' := s;
    } else {
      var a := s.mutex.value;
      HolderReady(s, a);
      CanStep(s, a, false);
      StepWeight(s, a, false);
      HolderStep(s, a);
      var s1 := Step(s, a, false);
      s' := Release(s1);
      CanGoOn(s, s1, s');
    }
  }

  lemma HolderStep(s: State, a: nat)
    requires Ready(s, a, false) && s.mutex == Some(a) && HoldsMutex(s.animals[a])
    ensures var s' := Step(s, a, false); a in s'.animals && Weight(s'.animals[a]) <= Weight(s.animals[a])
    ensures var s' := Step(s, a, false);
              s'.mutex == None || (s'.mutex == Some(a) && ToRelease(s'.animals[a]) < ToRelease(s.animals[a]))
  {
    var k := s.animals[a];
    CountsNow(s, a);
    ActWeight(k, Quiet(s, a), !s.bowl[0], !s.bowl[1], false);
    ActMutex(k, Quiet(s, a), !s.bowl[0], !s.bowl[1], false);
    hide Weight, RightCount, Locks, Counts, Act;
  }

  // ----- getting one animal on -----

  /** With the mutex free or its own, this animal gets its bowl, or leaves it, without waiting. */
  ghost predicate Promising(s: State, a: nat)
    requires Sized(s) && a in s.animals
  {
    && (s.mutex == None || s.mutex == Some(a))
    && (s.animals[a].pc == Eat
        || (s.animals[a].pc in {Top, Ask, Look} && s.cats == s.mice == 0 && !s.bowl[0] && !s.bowl[1]))
  }

  lemma PromisingReady(s: State, a: nat)
    requires Inv(s) && a in s.animals && Promising(s, a)
    ensures Ready(s, a, false)
  {
    MutexNow(s, a, a);
  }

  lemma PromiseKept(s: State, a: nat)
    requires Ready(s, a, false) && Promising(s, a)
    ensures var s' := Step(s, a, false);
            && Sized(s') && a in s'.animals
            && (Weight(s'.animals[a]) < Weight(s.animals[a])
                || (Promising(s', a) && Weight(s'.animals[a]) == Weight(s.animals[a])
                    && ToBowl(s'.animals[a]) < ToBowl(s.animals[a])))
  {
    StepKeeps(s, a, false);
    CountsNow(s, a);
    hide Locks, Counts;
  }

  lemma {:induction false} Advance(s: State, a: nat) returns (s': State)
    requires Inv(s) && a in s.animals && Promising(s, a)
    ensures CanReach(s, s') && Inv(s') && Sum(Weights(s')) < Sum(Weights(s))
    decreases ToBowl(s.animals[a])
  {
    hide Locks, Counts, Enabled, Step, Weight, Act, Weights, CanReach, RightCount, Promising;
    PromisingReady(s, a);
    CanStep(s, a, false);
    StepWeight(s, a, false);
    PromiseKept(s, a);
    s' := Step(s, a, false);
    if Weight(s'.animals[a]) >= Weight(s.animals[a]) {
      var s1 := s';
      s' := Advance(s1, a);
      CanGoOn(s, s1, s');
    }
  }

  /** With the mutex free somebody can be brought on. */
  lemma SomeonePromising(s: State, x: nat) returns (a: nat)
    requires Inv(s) && s.mutex == None && x in s.animals && s.animals[x].pc != Done
    ensures a in s.animals && Promising(s, a)
  {
    forall y | y in s.animals
      ensures !HoldsMutex(s.animals[y])
    {
      MutexNow(s, y, y);
    }
    if y :| y in s.animals && s.animals[y].pc == Eat {
      a := y;
    } else {
      a := x;
      assert Eaters(s, true) == {} && Eaters(s, false) == {};
      FlagNow(s, 0);
      FlagNow(s, 1);
    }
  }

  // ----- everybody -----

  ghost predicate AllDone(s: State)
  {
    forall a :: a in s.animals ==> s.animals[a].pc == Done
  }

  lemma {:induction false} Finish(s: State) returns (s': State)
    requires Inv(s)
    ensures CanReach(s, s') && Inv(s') && AllDone(s')
    decreases Sum(Weights(s))
  {
    hide Inv, Weights, CanReach, Promising;
    var s1 := Release(s);
    if AllDone(s1) {
      s' := s1;
    } else {
      var x :| x in s1.animals && s1.animals[x].pc != Done;
      var a := SomeonePromising(s1, x);
      var s2 := Advance(s1, a);
      s' := Finish(s2);
      CanGoOn(s, s1, s2);
      CanGoOn(s, s2, s');
    }
  }

  /** No run paints the animals into a corner: whatever happened, some order of steps lets everyone finish. */
  lemma CanAlwaysFinish(s0: State, order: seq<(nat, bool)>, s: State)
    requires Start(s0) && Reaches(s0, order, s)
    ensures exists s' :: CanReach(s, s') && AllDone(s')
  {
    hide Reaches, Inv, Start, CanReach;
    StartInv(s0);
    ReachesInv(s0, order, s);
    var s' := Finish(s);
  }
}
