/** What each animal has done by the time it is done: four meals (kern/asst1/catlock.c). */
module CatMouseRecord {
  import opened Options
  import opened CatMouse
  import opened CatMouseProof

  /** What can be seen to happen: to a bowl's flag and to the counter of cats or of mice eating. */
  datatype Event = Took(bowl: nat) | Gave(bowl: nat) | Up(cat: bool) | Down(cat: bool)

  ghost function FlagEvent(s: State, s': State, b: nat): seq<Event>
    requires Sized(s) && Sized(s') && b < 2
  {
    if s'.bowl[b] == s.bowl[b] then [] else if s'.bowl[b] then [Took(b)] else [Gave(b)]
  }

  function CountEvent(n: int, n': int, cat: bool): seq<Event>
  {
    if n' > n then [Up(cat)] else if n' < n then [Down(cat)] else []
  }

  /** The events between a state and the next. */
  ghost function Seen(s: State, s': State): seq<Event>
    requires Sized(s) && Sized(s')
  {
    FlagEvent(s, s', 0) + FlagEvent(s, s', 1) + CountEvent(s.cats, s'.cats, true) + CountEvent(s.mice, s'.mice, false)
  }

  /** One meal: a bowl taken and counted, the same bowl given back, and counted off. */
  function Meal(cat: bool, b: nat): seq<Event>
  {
    [Took(b), Up(cat), Gave(b), Down(cat)]
  }

  /** n meals, one after the other, each from one of the two bowls. */
  ghost predicate Meals(t: seq<Event>, cat: bool, n: nat)
    decreases n
  {
    if n == 0 then t == []
    else exists rest, b: nat :: b < 2 && t == rest + Meal(cat, b) && Meals(rest, cat, n - 1)
  }

  /** What an animal has done of the meal it is at. */
  function Part(k: Animal): seq<Event>
  {
    if k.pc in {LetGo, Eat, Clear} then [Took(k.bowl), Up(k.cat)]
    else if k.pc in {FreeBowl, Leave} then [Took(k.bowl), Up(k.cat), Gave(k.bowl)]
    else []
  }

  /** As many meals as the loop has gone round with one, and what is done of the next. */
  ghost predicate Trail(k: Animal, t: seq<Event>)
  {
    exists eaten :: t == eaten + Part(k) && Meals(eaten, k.cat, k.iter)
  }

  /** The events of one step, as the step says. */
  function Acts(k: Animal, e: Effect): seq<Event>
  {
    (match e.mark case Same => [] case Set => [Took(k.bowl)] case Wipe => [Gave(k.bowl)])
    + if e.dcount > 0 then [Up(k.cat)] else if e.dcount < 0 then [Down(k.cat)] else []
  }

  lemma SeenFlag(s: State, a: nat, coin: bool, b: nat)
    requires Ready(s, a, coin) && b < 2
    ensures Sized(Step(s, a, coin))
    ensures var k, e := s.animals[a], Chosen(s, a, coin);
            FlagEvent(s, Step(s, a, coin), b)
            == if e.mark == Same || b != k.bowl then [] else if e.mark == Set then [Took(b)] else [Gave(b)]
  {
    hide Act, Locks, Counts, HoldsBowl, After, AtBowl, HoldsMutex, SawVacancy, RightCount;
    OnlyOne(s, a, coin);
    FlagNow(s, b);
    CountsNow(s, a);
    ActMark(s.animals[a], Quiet(s, a), !s.bowl[0], !s.bowl[1], coin, b);
  }

  /** What can be seen is what the step says. */
  lemma SeenIs(s: State, a: nat, coin: bool)
    requires Ready(s, a, coin)
    ensures Sized(Step(s, a, coin)) && Seen(s, Step(s, a, coin)) == Acts(s.animals[a], Chosen(s, a, coin))
  {
    hide Act, Locks, Counts, After, FlagEvent;
    OnlyOne(s, a, coin);
    SeenFlag(s, a, coin, 0);
    SeenFlag(s, a, coin, 1);
  }

  /** Every step adds to what an animal has done just what its place then says. */
  lemma ActTrail(k: Animal, quiet: bool, free0: bool, free1: bool, coin: bool, t: seq<Event>)
    requires k.bowl < 2 && Trail(k, t) && k.pc != Done
    ensures var e := Act(k, quiet, free0, free1, coin); Trail(After(k, e), t + Acts(k, e))
  {
    hide Meals;
    var e := Act(k, quiet, free0, free1, coin);
    var k' := After(k, e);
    var eaten :| t == eaten + Part(k) && Meals(eaten, k.cat, k.iter);
    if k.pc == Leave {
      MealsMore(eaten, k.cat, k.iter, k.bowl);
      assert t + Acts(k, e) == (eaten + Meal(k.cat, k.bowl)) + Part(k');
    } else {
      assert t + Acts(k, e) == eaten + Part(k');
    }
  }

  lemma MealsMore(t: seq<Event>, cat: bool, n: nat, b: nat)
    requires Meals(t, cat, n) && b < 2
    ensures Meals(t + Meal(cat, b), cat, n + 1)
  {
  }

  // ----- whole runs -----

  /** What animal x is seen to do in a run. */
  ghost function Record(s: State, order: seq<(nat, bool)>, s': State, x: nat): seq<Event>
    requires Reaches(s, order, s')
    decreases |order|
  {
    if order == [] then []
    else
      OnlyOne(s, order[0].0, order[0].1);
      var s1 := Step(s, order[0].0, order[0].1);
      (if order[0].0 == x then Seen(s, s1) else []) + Record(s1, order[1..], s', x)
  }

  lemma StepGrows(s: State, a: nat, coin: bool, x: nat, t: seq<Event>)
    requires Ready(s, a, coin) && x in s.animals && Trail(s.animals[x], t)
    ensures Sized(s) && Sized(Step(s, a, coin))
    ensures var s' := Step(s, a, coin);
            && x in s'.animals && s'.animals[x].cat == s.animals[x].cat
            && Trail(s'.animals[x], t + if a == x then Seen(s, s') else [])
  {
    hide Act, Locks, Counts, Trail, Seen, Acts, Step;
    OnlyOne(s, a, coin);
    if a == x {
      SeenIs(s, a, coin);
      ActTrail(s.animals[a], Quiet(s, a), !s.bowl[0], !s.bowl[1], coin, t);
    } else {
      assert t + [] == t;
    }
  }

  lemma {:induction false} RecordGrows(s: State, order: seq<(nat, bool)>, s': State, x: nat, t: seq<Event>)
    requires Inv(s) && Reaches(s, order, s') && x in s.animals && Trail(s.animals[x], t)
    ensures x in s'.animals && s'.animals[x].cat == s.animals[x].cat
    ensures Trail(s'.animals[x], t + Record(s, order, s', x))
    decreases |order|
  {
    hide Act, Locks, Counts, Trail, Seen, Step, Enabled;
    if order == [] {
      assert t + [] == t;
    } else {
      StepKeeps(s, order[0].0, order[0].1);
      StepGrows(s, order[0].0, order[0].1, x, t);
      var s1 := Step(s, order[0].0, order[0].1);
      var seen := if order[0].0 == x then Seen(s, s1) else [];
      RecordGrows(s1, order[1..], s', x, t + seen);
      assert t + seen + Record(s1, order[1..], s', x) == t + (seen + Record(s1, order[1..], s', x));
    }
  }

  /** In every run, an animal that is done has eaten four meals, each taken, counted, given back and counted off. */
  lemma FourMeals(s0: State, order: seq<(nat, bool)>, s: State, x: nat)
    requires Start(s0) && Reaches(s0, order, s)
    ensures x in s0.animals ==> x in s.animals && Trail(s.animals[x], Record(s0, order, s, x))
    ensures x in s0.animals && s.animals[x].pc == Done ==> Meals(Record(s0, order, s, x), s0.animals[x].cat, 4)
  {
    hide Inv, Reaches, Meals, Trail, Start, Eaters, SawVacancy, Quiet;
    if x in s0.animals {
      StartInv(s0);
      StartTrail(s0, x);
      RecordGrows(s0, order, s, x, []);
      ReachesInv(s0, order, s);
      CountsNow(s, x);
      assert [] + Record(s0, order, s, x) == Record(s0, order, s, x);
      if s.animals[x].pc == Done { DoneTrail(s.animals[x], Record(s0, order, s, x)); }
    }
  }

  lemma DoneTrail(k: Animal, t: seq<Event>)
    requires Trail(k, t) && k.pc == Done && RightCount(k)
    ensures Meals(t, k.cat, 4)
  {
    hide Meals;
    var eaten :| t == eaten + Part(k) && Meals(eaten, k.cat, k.iter);
    assert t == eaten;
  }

  lemma StartTrail(s: State, x: nat)
    requires Start(s) && x in s.animals
    ensures Trail(s.animals[x], [])
  {
    assert Meals([], s.animals[x].cat, 0);
    assert [] + Part(s.animals[x]) == [];
  }
}
