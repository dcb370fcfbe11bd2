/** No cat eats while a mouse eats, in any interleaving (kern/asst1/catlock.c). */
module CatMouseProof {
  import opened Options
  import opened CatMouse

  // ----- each step says the truth about what it does -----

  lemma ActMutex(k: Animal, quiet: bool, free0: bool, free1: bool, coin: bool)
    ensures var e := Act(k, quiet, free0, free1, coin); var k' := After(k, e);
            match e.mutex
            case Keep => HoldsMutex(k') == HoldsMutex(k)
            case Take => HoldsMutex(k') && !HoldsMutex(k)
            case Give => !HoldsMutex(k') && HoldsMutex(k)
  {
  }

  lemma ActLock(k: Animal, quiet: bool, free0: bool, free1: bool, coin: bool, b: nat)
    ensures var e := Act(k, quiet, free0, free1, coin); var k' := After(k, e);
            match e.lock
            case Keep => HoldsBowl(k', b) == HoldsBowl(k, b)
            case Take => HoldsBowl(k', b) == (b == k.bowl) && !HoldsBowl(k, b)
            case Give => !HoldsBowl(k', b) && HoldsBowl(k, b) == (b == k.bowl)
  {
  }

  lemma ActMark(k: Animal, quiet: bool, free0: bool, free1: bool, coin: bool, b: nat)
    ensures var e := Act(k, quiet, free0, free1, coin); var k' := After(k, e);
            match e.mark
            case Same => AtBowl(k', b) == AtBowl(k, b)
            case Set => AtBowl(k', b) == (b == k.bowl) && !AtBowl(k, b) && HoldsMutex(k) && HoldsBowl(k, k.bowl)
                && SawVacancy(k)
            case Wipe => !AtBowl(k', b) && AtBowl(k, b) == (b == k.bowl) && HoldsMutex(k) && HoldsBowl(k, k.bowl)
  {
  }

  lemma ActCount(k: Animal, quiet: bool, free0: bool, free1: bool, coin: bool)
    requires k.bowl < 2
    ensures var e := Act(k, quiet, free0, free1, coin); var k' := After(k, e);
            && e.bowl < 2 && -1 <= e.dcount <= 1
            && (e.dcount == 0 ==> Counted(k') == Counted(k))
            && (e.dcount == 1 ==> Counted(k') && !Counted(k) && SawVacancy(k))
            && (e.dcount == -1 ==> !Counted(k') && Counted(k))
            && (e.dcount != 0 ==> HoldsMutex(k) && !SawVacancy(k'))
            && (SawVacancy(k') ==>
                 (SawVacancy(k) && e.bowl == k.bowl) || (quiet && (if e.bowl == 0 then free0 else free1)))
            && (SawVacancy(k) ==> HoldsMutex(k))
            && (RightCount(k) ==> RightCount(k'))
  {
  }

  // ----- what every step keeps -----

  ghost predicate Ready(s: State, a: nat, coin: bool)
  {
    Inv(s) && a in s.animals && Enabled(s, a, coin)
  }

  ghost predicate Quiet(s: State, a: nat)
    requires a in s.animals
  {
    (if s.animals[a].cat then s.mice else s.cats) == 0
  }

  lemma OnlyOne(s: State, a: nat, coin: bool)
    requires Ready(s, a, coin)
    ensures var s' := Step(s, a, coin);
            && Sized(s) && Sized(s') && s'.animals.Keys == s.animals.Keys
            && (forall x :: x in s.animals && x != a ==> s'.animals[x] == s.animals[x])
            && s'.animals[a] == After(s.animals[a], Chosen(s, a, coin))
  {
    hide Act, Locks, Counts;
    ActCount(s.animals[a], Quiet(s, a), !s.bowl[0], !s.bowl[1], coin);
  }

  lemma MutexNow(s: State, a: nat, x: nat)
    requires Inv(s) && a in s.animals
    ensures s.mutex == Some(x) <==> x in s.animals && HoldsMutex(s.animals[x])
    ensures s.mutex == Some(a) <==> HoldsMutex(s.animals[a])
  {
    hide Counts, HoldsMutex, HoldsBowl, AtBowl;
  }

  lemma MutexHeld(s: State, a: nat, coin: bool, x: nat)
    requires Ready(s, a, coin)
    ensures var s' := Step(s, a, coin); s'.mutex == Some(x) <==> x in s'.animals && HoldsMutex(s'.animals[x])
  {
    hide Act, Locks, Counts, HoldsMutex, After;
    OnlyOne(s, a, coin);
    MutexNow(s, a, x);
    ActMutex(s.animals[a], Quiet(s, a), !s.bowl[0], !s.bowl[1], coin);
  }

  lemma BowlNow(s: State, a: nat, b: nat, x: nat)
    requires Inv(s) && a in s.animals && b < 2
    ensures s.bowlLock[b] == Some(x) <==> x in s.animals && HoldsBowl(s.animals[x], b)
    ensures s.bowlLock[b] == Some(a) <==> HoldsBowl(s.animals[a], b)
    ensures x in s.animals && AtBowl(s.animals[x], b) ==> s.bowl[b] && HoldsBowl(s.animals[x], b)
    ensures AtBowl(s.animals[a], b) ==> s.bowl[b] && HoldsBowl(s.animals[a], b)
  {
    hide Counts, HoldsMutex, HoldsBowl, AtBowl;
    FlagNow(s, b);
    AtHolds(s.animals[a], b);
    if x in s.animals { AtHolds(s.animals[x], b); }
  }

  lemma AtHolds(k: Animal, b: nat)
    ensures AtBowl(k, b) ==> HoldsBowl(k, b)
  {
  }

  lemma LockHeld(s: State, a: nat, coin: bool, b: nat, x: nat)
    requires Ready(s, a, coin) && b < 2
    ensures Sized(Step(s, a, coin))
    ensures var s' := Step(s, a, coin); s'.bowlLock[b] == Some(x) <==> x in s'.animals && HoldsBowl(s'.animals[x], b)
  {
    hide Act, Locks, Counts, HoldsBowl, After, AtBowl;
    OnlyOne(s, a, coin);
    BowlNow(s, a, b, x);
    ActLock(s.animals[a], Quiet(s, a), !s.bowl[0], !s.bowl[1], coin, b);
  }

  lemma FlagNow(s: State, b: nat)
    requires Inv(s) && b < 2
    ensures FlagOk(s, b)
  {
    hide Counts, HoldsMutex, HoldsBowl, AtBowl;
  }

  lemma FlagKept(s: State, a: nat, coin: bool, b: nat)
    requires Ready(s, a, coin) && b < 2
    ensures Sized(Step(s, a, coin)) && FlagOk(Step(s, a, coin), b)
  {
    hide Act, Locks, Counts, HoldsBowl, After, AtBowl, HoldsMutex, SawVacancy;
    OnlyOne(s, a, coin);
    FlagNow(s, b);
    var s', e, k := Step(s, a, coin), Chosen(s, a, coin), s.animals[a];
    ActMark(k, Quiet(s, a), !s.bowl[0], !s.bowl[1], coin, b);
    if e.mark == Wipe && b == k.bowl {
      forall x | x in s'.animals
        ensures !AtBowl(s'.animals[x], b)
      {
        if x != a { BowlNow(s, a, b, x); }
      }
    } else if s'.bowl[b] {
      if e.mark == Set && b == k.bowl {
        assert AtBowl(s'.animals[a], b);
      } else {
        var x :| x in s.animals && AtBowl(s.animals[x], b);
        assert AtBowl(s'.animals[x], b);
      }
    }
  }

  lemma StepLocks(s: State, a: nat, coin: bool)
    requires Ready(s, a, coin)
    ensures Sized(Step(s, a, coin)) && Locks(Step(s, a, coin))
  {
    hide Act, Inv, Enabled, Step, HoldsBowl, After, AtBowl, HoldsMutex;
    OnlyOne(s, a, coin);
    var s' := Step(s, a, coin);
    forall x: nat
      ensures s'.mutex == Some(x) <==> x in s'.animals && HoldsMutex(s'.animals[x])
    {
      MutexHeld(s, a, coin, x);
    }
    forall b: nat, x: nat | b < 2
      ensures s'.bowlLock[b] == Some(x) <==> x in s'.animals && HoldsBowl(s'.animals[x], b)
    {
      LockHeld(s, a, coin, b, x);
    }
    forall b: nat | b < 2 ensures FlagOk(s', b) { FlagKept(s, a, coin, b); }
  }

  // ----- counters -----

  lemma CountNow(s: State, a: nat, coin: bool)
    requires Ready(s, a, coin)
    ensures a in Step(s, a, coin).animals
    ensures var s', k, k', e := Step(s, a, coin), s.animals[a], Step(s, a, coin).animals[a], Chosen(s, a, coin);
            && k'.cat == k.cat && -1 <= e.dcount <= 1
            && s'.cats == (if k.cat then s.cats + e.dcount else s.cats)
            && s'.mice == (if k.cat then s.mice else s.mice + e.dcount)
            && (e.dcount == 0 ==> Counted(k') == Counted(k))
            && (e.dcount == 1 ==> Counted(k') && !Counted(k) && SawVacancy(k))
            && (e.dcount == -1 ==> !Counted(k') && Counted(k))
            && (e.dcount != 0 || e.mark != Same ==> HoldsMutex(k)) && (e.dcount != 0 ==> !SawVacancy(k'))
            && (RightCount(k) ==> RightCount(k'))
            && (SawVacancy(k') && SawVacancy(k) ==> k'.bowl == k.bowl)
            && (SawVacancy(k') && !SawVacancy(k) ==> Quiet(s, a) && !s.bowl[k'.bowl])
            && (e.mark != Same ==> e.dcount != 0 || !SawVacancy(k'))
  {
    hide Act, Locks, Counts, Counted, SawVacancy, HoldsMutex, RightCount, AtBowl, HoldsBowl;
    OnlyOne(s, a, coin);
    ActCount(s.animals[a], Quiet(s, a), !s.bowl[0], !s.bowl[1], coin);
    ActMark(s.animals[a], Quiet(s, a), !s.bowl[0], !s.bowl[1], coin, 0);
    ActMarkCount(s.animals[a], Quiet(s, a), !s.bowl[0], !s.bowl[1], coin);
  }

  lemma ActMarkCount(k: Animal, quiet: bool, free0: bool, free1: bool, coin: bool)
    ensures var e := Act(k, quiet, free0, free1, coin);
            && (e.mark != Same ==> e.dcount != 0 || !SawVacancy(After(k, e)))
            && (SawVacancy(After(k, e)) && SawVacancy(k) ==> e.bowl == k.bowl)
  {
  }

  lemma CountSets(s: State, a: nat, coin: bool, cat: bool)
    requires Ready(s, a, coin)
    ensures var e := Chosen(s, a, coin);
            Eaters(Step(s, a, coin), cat) ==
              if s.animals[a].cat != cat || e.dcount == 0 then Eaters(s, cat)
              else if e.dcount == 1 then Eaters(s, cat) + {a} else Eaters(s, cat) - {a}
    ensures a in Eaters(s, cat) <==> s.animals[a].cat == cat && Counted(s.animals[a])
  {
    hide Inv, Enabled, Step, Chosen, Counted, SawVacancy, HoldsMutex, RightCount, After, Quiet;
    OnlyOne(s, a, coin);
    CountNow(s, a, coin);
  }

  lemma CountsNow(s: State, x: nat)
    requires Inv(s) && x in s.animals
    ensures s.cats == |Eaters(s, true)| && s.mice == |Eaters(s, false)| && (s.cats == 0 || s.mice == 0)
    ensures RightCount(s.animals[x]) && (SawVacancy(s.animals[x]) ==> !s.bowl[s.animals[x].bowl] && Quiet(s, x))
  {
    hide Locks, Counted, SawVacancy, RightCount, Eaters;
  }

  lemma StepCount(s: State, a: nat, coin: bool)
    requires Ready(s, a, coin)
    ensures var s' := Step(s, a, coin);
              s'.cats == |Eaters(s', true)| && s'.mice == |Eaters(s', false)| && (s'.cats == 0 || s'.mice == 0)
  {
    hide Inv, Enabled, Step, Chosen, Counted, SawVacancy, HoldsMutex, RightCount, After, Eaters;
    OnlyOne(s, a, coin);
    CountNow(s, a, coin);
    CountsNow(s, a);
    CountSets(s, a, coin, true);
    CountSets(s, a, coin, false);
  }

  lemma StepSaw(s: State, a: nat, coin: bool, x: nat)
    requires Ready(s, a, coin) && x in s.animals
    ensures var s' := Step(s, a, coin);
            && Sized(s') && x in s'.animals && RightCount(s'.animals[x])
            && (SawVacancy(s'.animals[x]) ==> !s'.bowl[s'.animals[x].bowl] && Quiet(s', x))
  {
    hide Enabled, Counted, HoldsMutex, RightCount, After, Eaters, Locks, Counts, Act, SawVacancy;
    OnlyOne(s, a, coin);
    CountNow(s, a, coin);
    CountsNow(s, a);
    CountsNow(s, x);
    if x != a && SawVacancy(s.animals[x]) {
      SawHolds(s.animals[x]);
      MutexNow(s, a, x);
    }
  }

  lemma SawHolds(k: Animal)
    requires SawVacancy(k)
    ensures HoldsMutex(k)
  {
  }

  lemma StepKeeps(s: State, a: nat, coin: bool)
    requires Ready(s, a, coin)
    ensures Inv(Step(s, a, coin))
  {
    hide Enabled, Step, Locks, RightCount, SawVacancy, Eaters, Act, After;
    OnlyOne(s, a, coin);
    StepLocks(s, a, coin);
    StepCount(s, a, coin);
    var s' := Step(s, a, coin);
    forall x | x in s'.animals
      ensures RightCount(s'.animals[x]) && (SawVacancy(s'.animals[x]) ==> !s'.bowl[s'.animals[x].bowl] && Quiet(s', x))
    {
      StepSaw(s, a, coin, x);
    }
  }

  // ----- every run -----

  /** Everyone hungry, nothing held. */
  ghost predicate Start(s: State)
  {
    && Sized(s) && s.mutex == None && s.bowlLock[0] == s.bowlLock[1] == None && !s.bowl[0] && !s.bowl[1]
    && s.cats == s.mice == 0
    && forall a :: a in s.animals ==> s.animals[a].pc == Top && s.animals[a].iter == s.animals[a].meals == 0
  }

  lemma StartInv(s: State)
    requires Start(s)
    ensures Inv(s)
  {
    assert Eaters(s, true) == {} && Eaters(s, false) == {};
  }

  /** s' is where the animals are after these steps, each with a coin toss, in whatever order. */
  ghost predicate Reaches(s: State, order: seq<(nat, bool)>, s': State)
    decreases |order|
  {
    if order == [] then s' == s
    else Ready(s, order[0].0, order[0].1) && Reaches(Step(s, order[0].0, order[0].1), order[1..], s')
  }

  lemma {:induction false} ReachesInv(s: State, order: seq<(nat, bool)>, s': State)
    requires Inv(s) && Reaches(s, order, s')
    ensures Inv(s')
    decreases |order|
  {
    if order != [] {
      StepKeeps(s, order[0].0, order[0].1);
      ReachesInv(Step(s, order[0].0, order[0].1), order[1..], s');
    }
  }

  lemma {:induction false} ReachesOn(s: State, o1: seq<(nat, bool)>, s1: State, o2: seq<(nat, bool)>, s2: State)
    requires Reaches(s, o1, s1) && Reaches(s1, o2, s2)
    ensures Reaches(s, o1 + o2, s2)
    decreases |o1|
  {
    hide Locks, Counts, Enabled, Step;
    if o1 == [] {
      assert o1 + o2 == o2;
    } else {
      assert (o1 + o2)[1..] == o1[1..] + o2;
      ReachesOn(Step(s, o1[0].0, o1[0].1), o1[1..], s1, o2, s2);
    }
  }

  /** The meals counted are the rounds with a meal, and the one just eaten. */
  predicate MealsRight(k: Animal)
  {
    k.meals == k.iter + if k.pc in {Clear, FreeBowl, Leave} then 1 else 0
  }

  ghost predicate AllRight(s: State)
  {
    forall a :: a in s.animals ==> MealsRight(s.animals[a])
  }

  lemma ActMeals(k: Animal, quiet: bool, free0: bool, free1: bool, coin: bool)
    requires MealsRight(k)
    ensures MealsRight(After(k, Act(k, quiet, free0, free1, coin)))
  {
  }

  lemma StepMeals(s: State, a: nat, coin: bool)
    requires Ready(s, a, coin) && AllRight(s)
    ensures Sized(s) && AllRight(Step(s, a, coin))
  {
    hide Act, Locks, Counts, MealsRight, After;
    OnlyOne(s, a, coin);
    ActMeals(s.animals[a], Quiet(s, a), !s.bowl[0], !s.bowl[1], coin);
  }

  lemma {:induction false} ReachesMeals(s: State, order: seq<(nat, bool)>, s': State)
    requires Inv(s) && AllRight(s) && Reaches(s, order, s')
    ensures AllRight(s')
    decreases |order|
  {
    hide Locks, Counts, Step, Enabled, AllRight;
    if order != [] {
      StepKeeps(s, order[0].0, order[0].1);
      StepMeals(s, order[0].0, order[0].1);
      ReachesMeals(Step(s, order[0].0, order[0].1), order[1..], s');
    }
  }

  ghost function Eating(s: State, cat: bool): set<nat>
  {
    set a | a in s.animals && s.animals[a].cat == cat && s.animals[a].pc == Eat
  }

  /** Both eat, and from one bowl. */
  predicate SameMeal(k: Animal, l: Animal)
  {
    k.pc == l.pc == Eat && k.bowl == l.bowl
  }

  /**
   In every state of every run no cat eats while a mouse eats, no two animals
   eat from one bowl, and whoever is done has eaten four times.
   */
  lemma PeaceAtDinner(s0: State, order: seq<(nat, bool)>, s: State)
    requires Start(s0) && Reaches(s0, order, s)
    ensures Eating(s, true) == {} || Eating(s, false) == {}
    ensures forall x, y :: x in s.animals && y in s.animals && SameMeal(s.animals[x], s.animals[y]) ==> x == y
    ensures forall x :: x in s.animals && s.animals[x].pc == Done ==> s.animals[x].meals == 4
  {
    StartMeals(s0);
    hide Reaches, Start, Locks, Counts;
    StartInv(s0);
    ReachesInv(s0, order, s);
    ReachesMeals(s0, order, s);
    EatingApart(s);
    forall x | x in s.animals && s.animals[x].pc == Done
      ensures s.animals[x].meals == 4
    {
      CountsNow(s, x);
    }
    forall x, y | x in s.animals && y in s.animals && SameMeal(s.animals[x], s.animals[y])
      ensures x == y
    {
      BowlNow(s, x, s.animals[x].bowl, y);
    }
  }

  lemma StartMeals(s: State)
    requires Start(s)
    ensures AllRight(s)
  {
  }

  lemma EatingApart(s: State)
    requires Inv(s)
    ensures Eating(s, true) == {} || Eating(s, false) == {}
  {
    hide Locks, RightCount, SawVacancy;
    assert Eating(s, true) <= Eaters(s, true) && Eating(s, false) <= Eaters(s, false);
  }

  /** Whenever the mutex is free the counters are the numbers of animals eating. */
  lemma CountersExact(s: State)
    requires Inv(s) && s.mutex == None
    ensures s.cats == |Eating(s, true)| && s.mice == |Eating(s, false)|
  {
    forall a | a in s.animals
      ensures Counted(s.animals[a]) <==> s.animals[a].pc == Eat
    {
      MutexNow(s, a, a);
    }
    assert Eating(s, true) == Eaters(s, true) && Eating(s, false) == Eaters(s, false);
  }

  /** The lock of a bowl an animal has chosen is free. */
  lemma BowlNeverBlocks(s: State, a: nat, coin: bool)
    requires Inv(s) && a in s.animals && s.animals[a].pc == AskBowl
    ensures Enabled(s, a, coin)
  {
    hide Eaters, RightCount;
    var b := s.animals[a].bowl;
    CountsNow(s, a);
    if s.bowlLock[b].Some? {
      var x := s.bowlLock[b].value;
      BowlNow(s, a, b, x);
      MutexNow(s, a, x);
    }
  }
}
