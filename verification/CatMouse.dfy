/**
 Cats, mice and two bowls as a state machine over any number of animals
 (kern/asst1/catlock.c). A step is one lock operation or what an animal does
 between two of them.
 */
module CatMouse {
  import opened Options

  /**
   At the top of the loop, asking for the mutex, looking, asking for a bowl's
   lock, taking the bowl, letting the mutex go, eating, giving the bowl back in
   three steps, and releasing the mutex at the end of a round.
   */
  datatype Pc = Top | Ask | Look | AskBowl | Sit | LetGo | Eat | Clear | FreeBowl | Leave | Unlock | Done

  /** iter is the loop counter; meals counts meals eaten. */
  datatype Animal = Animal(cat: bool, iter: nat, bowl: nat, pc: Pc, meals: nat)

  datatype State = State(
    animals: map<nat, Animal>, mutex: Option<nat>, bowlLock: seq<Option<nat>>, bowl: seq<bool>, cats: int, mice: int)

  datatype SemOp = Keep | Take | Give

  datatype Mark = Same | Set | Wipe

  /**
   Where the animal goes, which bowl it chose, what it does to the mutex, to
   its bowl's lock and flag, and to the counters.
   */
  datatype Effect = Effect(pc: Pc, bowl: nat, mutex: SemOp, lock: SemOp, mark: Mark, dcount: int, diter: nat,
      dmeals: nat)

  function Go(k: Animal, pc: Pc): Effect
  {
    Effect(pc, k.bowl, Keep, Keep, Same, 0, 0, 0)
  }

  /** The vacant bowl, or a random one of two. */
  function Pick(free0: bool, free1: bool, coin: bool): nat
  {
    if free0 && free1 then (if coin then 1 else 0) else if free0 then 0 else 1
  }

  /**
   quiet: none of the other kind is eating; free0, free1: the bowl is vacant;
   coin: the random choice between two vacant bowls.
   */
  function Act(k: Animal, quiet: bool, free0: bool, free1: bool, coin: bool): Effect
  {
    match k.pc
    case Top => Go(k, if k.iter < 4 then Ask else Done)
    case Ask => Go(k, Look).(mutex := Take)
    case Look =>
      if quiet && (free0 || free1) then Go(k, AskBowl).(bowl := Pick(free0, free1, coin)) else Go(k, Unlock)
    case AskBowl => Go(k, Sit).(lock := Take)
    case Sit => Go(k, LetGo).(mark := Set, dcount := 1)
    case LetGo => Go(k, Eat).(mutex := Give)
    case Eat => Go(k, Clear).(mutex := Take, dmeals := 1)
    case Clear => Go(k, FreeBowl).(mark := Wipe)
    case FreeBowl => Go(k, Leave).(lock := Give)
    case Leave => Go(k, Unlock).(dcount := -1, diter := 1)
    case Unlock => Go(k, Top).(mutex := Give)
    case Done => Go(k, Done)
  }

  function After(k: Animal, e: Effect): Animal
  {
    k.(pc := e.pc, bowl := e.bowl, iter := k.iter + e.diter, meals := k.meals + e.dmeals)
  }

  ghost predicate Sized(s: State)
  {
    |s.bowlLock| == |s.bowl| == 2 && forall a :: a in s.animals ==> s.animals[a].bowl < 2
  }

  ghost function Chosen(s: State, a: nat, coin: bool): Effect
    requires Sized(s) && a in s.animals
  {
    var k := s.animals[a];
    Act(k, (if k.cat then s.mice else s.cats) == 0, !s.bowl[0], !s.bowl[1], coin)
  }

  /** A lock is acquired only when nobody holds it. */
  ghost predicate Enabled(s: State, a: nat, coin: bool)
    requires Sized(s) && a in s.animals
  {
    var k, e := s.animals[a], Chosen(s, a, coin);
    k.pc != Done && (e.mutex == Take ==> s.mutex.None?) && (e.lock == Take ==> s.bowlLock[k.bowl].None?)
  }

  function Sem(o: Option<nat>, op: SemOp, a: nat): Option<nat>
  {
    match op case Keep => o case Take => Some(a) case Give => None
  }

  ghost function Step(s: State, a: nat, coin: bool): State
    requires Sized(s) && a in s.animals
  {
    var k, e := s.animals[a], Chosen(s, a, coin);
    State(
      s.animals[a := After(k, e)],
      Sem(s.mutex, e.mutex, a),
      s.bowlLock[k.bowl := Sem(s.bowlLock[k.bowl], e.lock, a)],
      if e.mark == Same then s.bowl else s.bowl[k.bowl := e.mark == Set],
      if k.cat then s.cats + e.dcount else s.cats,
      if k.cat then s.mice else s.mice + e.dcount)
  }

  // ----- the invariant -----

  predicate HoldsMutex(k: Animal)
  {
    k.pc in {Look, AskBowl, Sit, LetGo, Clear, FreeBowl, Leave, Unlock}
  }

  predicate HoldsBowl(k: Animal, b: nat)
  {
    k.bowl == b && k.pc in {Sit, LetGo, Eat, Clear, FreeBowl}
  }

  /** The flag of bowl b is up for this animal. */
  predicate AtBowl(k: Animal, b: nat)
  {
    k.bowl == b && k.pc in {LetGo, Eat, Clear}
  }

  /** The eating counter of its kind counts the animal. */
  predicate Counted(k: Animal)
  {
    k.pc in {LetGo, Eat, Clear, FreeBowl, Leave}
  }

  /** The animal has seen that the other kind is not eating and that its bowl is vacant. */
  predicate SawVacancy(k: Animal)
  {
    k.pc in {AskBowl, Sit}
  }

  predicate RightCount(k: Animal)
  {
    if k.pc in {Top, Unlock} then k.iter <= 4 else if k.pc == Done then k.iter == 4 else k.iter < 4
  }

  ghost function Eaters(s: State, cat: bool): set<nat>
  {
    set a | a in s.animals && s.animals[a].cat == cat && Counted(s.animals[a])
  }

  /** The flag of a bowl is up just when an animal is at it. */
  ghost predicate FlagOk(s: State, b: nat)
    requires Sized(s) && b < 2
  {
    && (forall a :: a in s.animals && AtBowl(s.animals[a], b) ==> s.bowl[b])
    && (s.bowl[b] ==> exists a :: a in s.animals && AtBowl(s.animals[a], b))
  }

  ghost predicate Locks(s: State)
    requires Sized(s)
  {
    && (forall a :: s.mutex == Some(a) <==> a in s.animals && HoldsMutex(s.animals[a]))
    && (forall b: nat, a :: b < 2 ==> (s.bowlLock[b] == Some(a) <==> a in s.animals && HoldsBowl(s.animals[a], b)))
    && (forall b: nat :: b < 2 ==> FlagOk(s, b))
  }

  ghost predicate Counts(s: State)
    requires Sized(s)
  {
    && s.cats == |Eaters(s, true)| && s.mice == |Eaters(s, false)| && (s.cats == 0 || s.mice == 0)
    && forall a :: a in s.animals ==>
         && RightCount(s.animals[a])
         && (SawVacancy(s.animals[a]) ==>
              !s.bowl[s.animals[a].bowl] && (if s.animals[a].cat then s.mice else s.cats) == 0)
  }

  ghost predicate Inv(s: State)
  {
    Sized(s) && Locks(s) && Counts(s)
  }
}
