/** Both bowls can be in use at once, by two of a kind (kern/asst1/catlock.c). */
module CatMouseFull {
  import opened Options
  import opened CatMouse
  import opened CatMouseProof

  /** Two cats; animal a is at pc, and the other one is not in the mutex: it is hungry or eating. */
  ghost predicate Solo(s: State, a: nat, pc: Pc)
  {
    && Inv(s) && a < 2 && s.animals.Keys == {0, 1} && s.animals[0].cat && s.animals[1].cat
    && s.animals[a].pc == pc && s.animals[a].iter == 0 && s.animals[1 - a].pc in {Top, Eat}
  }

  /** The other cat has not moved. */
  ghost predicate OtherSame(s: State, s': State, a: nat)
  {
    a < 2 && 1 - a in s.animals && 1 - a in s'.animals && s'.animals[1 - a] == s.animals[1 - a]
  }

  function Ahead(pc: Pc): Pc
  {
    match pc
    case Top => Ask
    case Ask => Look
    case Look => AskBowl
    case AskBowl => Sit
    case Sit => LetGo
    case _ => Eat
  }

  function ToGo(pc: Pc): nat
  {
    match pc
    case Top => 6
    case Ask => 5
    case Look => 4
    case AskBowl => 3
    case Sit => 2
    case LetGo => 1
    case _ => 0
  }

  predicate OnTheWay(pc: Pc)
  {
    pc in {Top, Ask, Look, AskBowl, Sit, LetGo}
  }

  /** No mouse eats, a bowl is vacant, and the mutex is free unless this cat has it. */
  lemma SoloSees(s: State, a: nat, pc: Pc)
    requires Solo(s, a, pc) && OnTheWay(pc)
    ensures s.mice == 0 && (pc == Ask ==> s.mutex.None?) && (pc == Look ==> !s.bowl[0] || !s.bowl[1])
  {
    hide SawVacancy, RightCount;
    assert Eaters(s, false) == {};
    if s.mutex.Some? { MutexNow(s, a, s.mutex.value); }
    FlagNow(s, 0);
    FlagNow(s, 1);
  }

  lemma SoloStep(s: State, a: nat, pc: Pc)
    requires Solo(s, a, pc) && OnTheWay(pc)
    ensures Ready(s, a, false) && Solo(Step(s, a, false), a, Ahead(pc)) && OtherSame(s, Step(s, a, false), a)
  {
    SoloSees(s, a, pc);
    if pc == AskBowl { BowlNeverBlocks(s, a, false); }
    hide Locks, Counts;
    assert Enabled(s, a, false);
    StepKeeps(s, a, false);
    OnlyOne(s, a, false);
  }

  /** It gets to eat. */
  lemma {:induction false} SoloEats(s: State, a: nat, pc: Pc) returns (order: seq<(nat, bool)>, s': State)
    requires Solo(s, a, pc) && (OnTheWay(pc) || pc == Eat)
    ensures Reaches(s, order, s') && Solo(s', a, Eat) && OtherSame(s, s', a)
    decreases ToGo(pc)
  {
    hide Locks, Counts, Step, Enabled;
    if pc == Eat {
      order, s' := [], s;
    } else {
      SoloStep(s, a, pc);
      order, s' := SoloEats(Step(s, a, false), a, Ahead(pc));
      assert ([(a, false)] + order)[1..] == order;
      order := [(a, false)] + order;
    }
  }

  /** Two hungry cats. */
  function Two(): State
  {
    State(map[0 := Animal(true, 0, 0, Top, 0), 1 := Animal(true, 0, 0, Top, 0)], None, [None, None], [false, false],
        0, 0)
  }

  lemma TwoStart()
    ensures Start(Two()) && Solo(Two(), 0, Top)
  {
    StartInv(Two());
    hide Inv;
  }

  lemma SecondStart(s: State)
    requires Solo(s, 0, Eat) && OtherSame(Two(), s, 0)
    ensures Solo(s, 1, Top)
  {
    hide Inv;
  }

  /** There is a run after which both are eating, each from its own bowl. */
  lemma TwoEating() returns (order: seq<(nat, bool)>, s: State)
    ensures Start(Two()) && Reaches(Two(), order, s) && Eating(s, true) == {0, 1}
    ensures 0 in s.animals && 1 in s.animals && s.animals[0].bowl != s.animals[1].bowl
  {
    hide Solo, Two, Start, Reaches, Eating, OtherSame;
    TwoStart();
    var o1, s1 := SoloEats(Two(), 0, Top);
    SecondStart(s1);
    var o2, s2 := SoloEats(s1, 1, Top);
    ReachesOn(Two(), o1, s1, o2, s2);
    order, s := o1 + o2, s2;
    BothEat(s1, s);
  }

  lemma BothEat(s1: State, s: State)
    requires Solo(s1, 0, Eat) && Solo(s, 1, Eat) && OtherSame(s1, s, 1)
    ensures Eating(s, true) == {0, 1} && 0 in s.animals && 1 in s.animals && s.animals[0].bowl != s.animals[1].bowl
  {
    hide Locks, Counts;
    BowlNow(s, 0, s.animals[0].bowl, 1);
    BowlNow(s, 1, s.animals[0].bowl, 0);
  }
}
