/**
 What the states of a run owe to the steps that led there: who is a zombie, in
 which order threads get their turn, and how far a semaphore has come
 (kern/thread/thread.c, kern/thread/synch.c).
 */
module ThreadsHistory {
  import opened Options
  import opened Threads
  import opened ThreadsProof
  import opened ThreadsRuns

  // ----- one step -----

  /** u is there and not dead. */
  ghost predicate Alive(s: State, u: nat)
  {
    u in s.runq || u in s.sleepers || s.cur == Some(u)
  }

  /**
   The current thread, if there is one, did something that leaves it at p: only
   it may have stopped running, others may have joined the run queue at its end.
   */
  ghost predicate Moves(s: State, s': State, p: Pc)
  {
    && s'.zombies == s.zombies && s.runq <= s'.runq && (s'.cur.Some? ==> s'.cur == s.cur)
    && s'.pc == (if s.cur.Some? then s.pc[s.cur.value := p] else s.pc)
    && forall u :: Alive(s', u) <==> Alive(s, u)
  }

  lemma WakeMoves(s: State, a: Addr)
    requires s.cur.Some? ==> s.cur.value in s.pc
    ensures Moves(s, Wake(s, a), if s.cur.Some? then s.pc[s.cur.value] else Running)
  {
    var s' := Wake(s, a);
    forall u
      ensures Alive(s', u) <==> Alive(s, u)
    {
      WakeSorts(s.sleepers, s.addr, a, u);
    }
    hide Waiting, NotWaiting;
    if s.cur.Some? { assert s.pc[s.cur.value := s.pc[s.cur.value]] == s.pc; }
  }

  lemma SleepMoves(s: State, a: Addr, p: Pc)
    requires s.cur.Some?
    ensures Moves(s, Sleep(s, a, p), p)
  {
  }

  lemma MovesOn(s: State, s1: State, s2: State, p: Pc, q: Pc)
    requires Moves(s, s1, p) && Moves(s1, s2, q) && s1.cur == s.cur
    ensures Moves(s, s2, q)
  {
    hide Alive;
    if s.cur.Some? { assert s.pc[s.cur.value := p][s.cur.value := q] == s.pc[s.cur.value := q]; }
  }

  /** Only what no place depends on has changed. */
  lemma AsideMoves(s: State, s': State, p: Pc)
    requires s'.cur == s.cur && s'.runq == s.runq && s'.sleepers == s.sleepers && s'.zombies == s.zombies
    requires s'.pc == if s.cur.Some? then s.pc[s.cur.value := p] else s.pc
    ensures Moves(s, s', p)
  {
  }

  ghost function AfterP(s: State, x: nat): Pc
  {
    if x in s.count && s.count[x] == 0 then InP(x) else Running
  }

  ghost function AfterAcquire(s: State, l: nat): Pc
  {
    if l in s.holder && s.holder[l].Some? then InAcquire(l) else Running
  }

  lemma PMoves(s: State, x: nat)
    requires s.cur.Some? && x in s.count && x in s.ps
    ensures Moves(s, DoP(s, x), AfterP(s, x))
  {
    hide Moves;
    if s.count[x] == 0 {
      SleepMoves(s, SemAddr(x), InP(x));
    } else {
      AsideMoves(s, DoP(s, x), Running);
    }
  }

  lemma AcquireMoves(s: State, l: nat)
    requires s.cur.Some? && l in s.holder
    ensures Moves(s, DoAcquire(s, l), AfterAcquire(s, l))
  {
    hide Moves;
    if s.holder[l].Some? {
      SleepMoves(s, LockAddr(l), InAcquire(l));
    } else {
      AsideMoves(s, DoAcquire(s, l), Running);
    }
  }

  /** A running thread's bookkeeping, then a wakeup. */
  lemma AsideWakes(s: State, s1: State, a: Addr)
    requires s.cur.Some? ==> s.cur.value in s.pc && s.pc[s.cur.value] == Running
    requires s1.cur == s.cur && s1.runq == s.runq && s1.sleepers == s.sleepers && s1.zombies == s.zombies
             && s1.pc == s.pc
    ensures Moves(s, Wake(s1, a), Running)
  {
    hide Moves, Wake;
    if s.cur.Some? { assert s.pc[s.cur.value := Running] == s.pc; }
    AsideMoves(s, s1, Running);
    WakeMoves(s1, a);
    MovesOn(s, s1, Wake(s1, a), Running, Running);
  }

  lemma WaitMoves(s: State, c: nat, l: nat)
    requires s.cur.Some? && s.cur.value in s.pc && s.pc[s.cur.value] == Running
    ensures Moves(s, DoWait(s, c, l), InWait(c, l))
  {
    hide Moves, Wake, Sleep;
    var s1 := s.(holder := s.holder[l := None]);
    AsideWakes(s, s1, LockAddr(l));
    WakeSame(s1, LockAddr(l));
    SleepMoves(DoRelease(s, l), CvAddr(c), InWait(c, l));
    MovesOn(s, DoRelease(s, l), DoWait(s, c, l), Running, InWait(c, l));
  }

  lemma SignalMoves(s: State, c: nat)
    requires s.sleepers != [] && s.cur.Some? && s.cur.value in s.pc && s.pc[s.cur.value] == Running
    ensures Moves(s, DoSignal(s, c), Running)
  {
    assert s.pc[s.cur.value := Running] == s.pc;
    assert s.sleepers == [s.sleepers[0]] + s.sleepers[1..];
  }

  lemma YieldMoves(s: State)
    requires s.cur.Some?
    ensures Moves(s, DoYield(s), InYield)
  {
  }

  ghost function AfterResumed(s: State): Pc
    requires CanGoOn(s)
  {
    match s.pc[s.cur.value]
    case InP(x) => AfterP(s, x)
    case InAcquire(l) => AfterAcquire(s, l)
    case InWait(_, l) => AfterAcquire(s, l)
    case _ => Running
  }

  lemma ResumedMoves(s: State)
    requires CanGoOn(s)
    ensures Moves(s, Resumed(s), AfterResumed(s))
  {
    hide Moves, Wake, Sleep;
    var t := s.cur.value;
    var woken := s.(addr := s.addr - {t});
    assert s.pc[t := s.pc[t]] == s.pc;
    AsideMoves(s, woken, s.pc[t]);
    match s.pc[t]
    case InP(x) =>
      PMoves(woken, x);
      MovesOn(s, woken, Resumed(s), s.pc[t], AfterResumed(s));
    case InAcquire(l) =>
      AcquireMoves(woken, l);
      MovesOn(s, woken, Resumed(s), s.pc[t], AfterResumed(s));
    case InWait(c, l) =>
      var after := Wake(woken, LockAddr(l));
      WakeMoves(woken, LockAddr(l));
      WakeSame(woken, LockAddr(l));
      MovesOn(s, woken, after, s.pc[t], s.pc[t]);
      AcquireMoves(after, l);
      MovesOn(s, after, Resumed(s), s.pc[t], AfterResumed(s));
    case New => AsideMoves(s, Resumed(s), Running);
    case InYield => AsideMoves(s, Resumed(s), Running);
  }

  ghost predicate Ordinary(op: Op)
  {
    !op.OpFork? && !op.OpExit? && !op.OpDispatch?
  }

  /** Where the step leaves the current thread. */
  ghost function After(s: State, op: Op): Pc
  {
    match op
    case OpP(x) => AfterP(s, x)
    case OpAcquire(l) => AfterAcquire(s, l)
    case OpWait(c, l) => InWait(c, l)
    case OpYield => InYield
    case _ => Running
  }

  lemma StepMoves(s: State, op: Op)
    requires Inv(s) && Enabled(s, op) && Ordinary(op)
    ensures Moves(s, Step(s, op), After(s, op))
  {
    Ready(s);
    hide Core, Moves, Wake, Sleep, Everyone;
    match op
    case OpP(x) => PMoves(s, x);
    case OpV(x) => AsideWakes(s, s.(count := s.count[x := s.count[x] + 1], vs := s.vs[x := s.vs[x] + 1]), SemAddr(x));
    case OpAcquire(l) => AcquireMoves(s, l);
    case OpRelease(l) => AsideWakes(s, s.(holder := s.holder[l := None]), LockAddr(l));
    case OpWait(c, l) => WaitMoves(s, c, l);
    case OpSignal(c, _) => SignalMoves(s, c);
    case OpBroadcast(c, _) => AsideWakes(s, s, CvAddr(c));
    case OpYield => YieldMoves(s);
  }

  lemma DispatchMoves(s: State)
    requires Inv(s) && Enabled(s, OpDispatch)
    ensures Parked(s, s.runq[0]) && CanGoOn(Picked(s))
    ensures Moves(Picked(s), Step(s, OpDispatch), AfterResumed(Picked(s)))
  {
    Ready(s);
    PickedCore(s);
    hide Core, Moves, Resumed, Everyone;
    ResumedMoves(Picked(s));
  }

  // ----- zombies -----

  /**
   Kept beside a run: the threads that have run since they were made, and those
   that exited since the last switch to a thread that had run before.
   */
  datatype Past = Past(ran: set<nat>, dead: seq<nat>)

  ghost function Next(h: Past, s: State, op: Op): Past
    requires Enabled(s, op)
  {
    match op
    case OpFork(t) => h.(ran := h.ran - {t})
    case OpExit => h.(dead := h.dead + [s.cur.value])
    case OpDispatch => Past(h.ran + {s.runq[0]}, if s.runq[0] in h.ran then [] else h.dead)
    case _ => h
  }

  ghost function PastOf(s: State, ops: seq<Op>, s': State, h: Past): Past
    requires Reaches(s, ops, s')
    decreases |ops|
  {
    if ops == [] then h else PastOf(Step(s, ops[0]), ops[1..], s', Next(h, s, ops[0]))
  }

  /** A thread that is not dead is new exactly when it has not run yet; the zombies are the dead. */
  ghost predicate Tells(s: State, h: Past)
  {
    && s.zombies == h.dead
    && (s.cur.Some? ==> s.cur.value in h.ran)
    && forall u :: u in s.runq || u in s.sleepers ==> u in s.pc && (s.pc[u] == New <==> u !in h.ran)
  }

  lemma MovesTell(s: State, s': State, p: Pc, h: Past)
    requires Tells(s, h) && Moves(s, s', p) && p != New && (s.cur.Some? ==> s.cur.value !in s.runq + s.sleepers)
    ensures Tells(s', h)
  {
    forall u | u in s'.runq || u in s'.sleepers
      ensures u in s'.pc && (s'.pc[u] == New <==> u !in h.ran)
    {
      assert Alive(s', u);
      assert Alive(s, u);
    }
  }

  lemma PickedTells(s: State, h: Past)
    requires Inv(s) && Enabled(s, OpDispatch) && Tells(s, h)
    ensures s.runq[0] in s.pc && Tells(Picked(s), Next(h, s, OpDispatch))
    ensures Picked(s).cur.Some? && Picked(s).cur.value !in Picked(s).runq + Picked(s).sleepers
  {
    PickedCore(s);
    hide Core;
    InvPlaced(s);
    PickedPlaced(s);
    CurrentApart(Picked(s));
    assert s.runq[0] in s.runq;
  }

  lemma ForkTells(s: State, t: nat, h: Past)
    requires Placed(s) && t !in Everyone(s) && Tells(s, h)
    ensures Tells(DoFork(s, t), h.(ran := h.ran - {t}))
  {
    ForkPlaced(s, t);
    hide Placed, Everyone;
  }

  lemma StepTells(s: State, op: Op, h: Past)
    requires Inv(s) && Enabled(s, op) && Tells(s, h)
    ensures Tells(Step(s, op), Next(h, s, op))
  {
    hide Core, Everyone, Tells, Moves, Placed;
    InvPlaced(s);
    if s.cur.Some? { CurrentApart(s); }
    match op
    case OpFork(t) => ForkTells(s, t, h);
    case OpExit => ExitTells(s, h);
    case OpDispatch =>
      PickedTells(s, h);
      DispatchMoves(s);
      MovesTell(Picked(s), Step(s, op), AfterResumed(Picked(s)), Next(h, s, op));
    case _ =>
      StepMoves(s, op);
      MovesTell(s, Step(s, op), After(s, op), h);
  }

  lemma ExitTells(s: State, h: Past)
    requires s.cur.Some? && Tells(s, h)
    ensures Tells(DoExit(s), h.(dead := h.dead + [s.cur.value]))
  {
  }

  lemma {:induction false} RunTells(s: State, ops: seq<Op>, s': State, h: Past)
    requires Inv(s) && Reaches(s, ops, s') && Tells(s, h)
    ensures Tells(s', PastOf(s, ops, s', h))
    decreases |ops|
  {
    hide Core, Tells, Step, Next;
    if ops != [] {
      StepKeeps(s, ops[0]);
      StepTells(s, ops[0], h);
      RunTells(Step(s, ops[0]), ops[1..], s', Next(h, s, ops[0]));
    }
  }

  /**
   In every run the zombies are exactly the threads that exited since the last
   switch to a thread that had run before, and the others are counted.
   */
  lemma ZombiesExact(init: map<nat, nat>, locks: set<nat>, ops: seq<Op>, s: State)
    requires Reaches(Boot(init, locks), ops, s)
    ensures s.zombies == PastOf(Boot(init, locks), ops, s, Past({0}, [])).dead
    ensures |Everyone(s)| == s.numthreads + |s.zombies|
  {
    var s0 := Boot(init, locks);
    assert Tells(s0, Past({0}, []));
    BootInv(init, locks);
    ReachesInv(s0, ops, s);
    hide Reaches, Step, Core, Everyone;
    RunTells(s0, ops, s, Past({0}, []));
    Counted(s);
  }

  /** Right after a switch to a thread that has run before, none of the dead is left; a new thread leaves them. */
  lemma Exorcised(s: State, h: Past)
    requires Inv(s) && Enabled(s, OpDispatch) && Tells(s, h)
    ensures var s' := Step(s, OpDispatch);
            if s.runq[0] in h.ran then s'.zombies == [] && |Everyone(s')| == s'.numthreads
            else s'.zombies == s.zombies
    ensures Everyone(Step(s, OpDispatch)) == if s.runq[0] in h.ran then Everyone(s) - multiset(s.zombies)
            else Everyone(s)
  {
    hide Core, Step, Tells, Everyone;
    var s' := Step(s, OpDispatch);
    StepKeeps(s, OpDispatch);
    StepTells(s, OpDispatch, h);
    HeadTells(s, h);
    HeadTells(s', Next(h, s, OpDispatch));
    NobodyLost(s, OpDispatch);
    Counted(s');
  }

  lemma HeadTells(s: State, h: Past)
    requires Tells(s, h)
    ensures s.zombies == h.dead
    ensures s.runq != [] ==> s.runq[0] in s.pc && (s.pc[s.runq[0]] == New <==> s.runq[0] !in h.ran)
  {
    assert s.runq != [] ==> s.runq[0] in s.runq;
  }

  lemma Counted(s: State)
    requires Inv(s)
    ensures |Everyone(s)| == s.numthreads + |s.zombies|
  {
    InvPlaced(s);
    hide Core;
  }

  // ----- semaphores -----

  /** How many of the steps are a V, or a call of P, on semaphore x. */
  function Calls(ops: seq<Op>, op: Op): nat
  {
    if ops == [] then 0 else (if ops[0] == op then 1 else 0) + Calls(ops[1..], op)
  }

  /** The threads that have called P on x and not yet come out of it. */
  ghost function InsideP(s: State, x: nat): set<nat>
  {
    set t | t in s.pc && s.pc[t] == InP(x)
  }

  /** A thread inside a primitive is not dead. */
  ghost predicate NoneStray(s: State)
  {
    forall t :: t in s.pc && s.pc[t] != Running ==> Alive(s, t)
  }

  /** After v calls of V on x and p of P. */
  ghost predicate Tally(s: State, x: nat, v: nat, p: nat)
  {
    x in s.vs && x in s.ps && s.vs[x] == v && s.ps[x] + |InsideP(s, x)| == p
  }

  lemma MovesStray(s: State, s': State, p: Pc)
    requires NoneStray(s) && Moves(s, s', p)
    ensures NoneStray(s')
  {
  }

  /** One thread's place changes. */
  lemma InsideChanges(s: State, s': State, t: nat, p: Pc, x: nat)
    requires s'.pc == s.pc[t := p]
    ensures |InsideP(s', x)| == |InsideP(s, x) - {t}| + if p == InP(x) then 1 else 0
    ensures |InsideP(s, x) - {t}| == |InsideP(s, x)| - if t in InsideP(s, x) then 1 else 0
  {
    assert InsideP(s', x) == InsideP(s, x) - {t} + if p == InP(x) then {t} else {};
  }

  lemma WakeSems(s: State, a: Addr)
    ensures var s' := Wake(s, a); s'.count == s.count && s'.init == s.init && s'.vs == s.vs && s'.ps == s.ps
  {
  }

  lemma PSems(s: State, x: nat)
    requires s.cur.Some? && x in s.count && x in s.ps
    ensures var s' := DoP(s, x); s'.init == s.init && s'.vs == s.vs && s'.ps == Completed(s, Some(x))
  {
  }

  lemma AcquireSems(s: State, l: nat)
    requires s.cur.Some? && l in s.holder
    ensures var s' := DoAcquire(s, l); s'.init == s.init && s'.vs == s.vs && s'.ps == s.ps
  {
  }

  lemma ResumedSems(s: State)
    requires CanGoOn(s)
    ensures var s', p := Resumed(s), s.pc[s.cur.value];
            && s'.vs == s.vs && s'.init == s.init && s'.ps == Completed(s, if p.InP? then Some(p.sem) else None)
  {
    hide Wake, DoP, DoAcquire;
    var t := s.cur.value;
    var woken := s.(addr := s.addr - {t});
    match s.pc[t]
    case InP(x) => PSems(woken, x);
    case InAcquire(l) => AcquireSems(woken, l);
    case InWait(_, l) =>
      WakeSems(woken, LockAddr(l));
      WakeSame(woken, LockAddr(l));
      AcquireSems(Wake(woken, LockAddr(l)), l);
    case _ =>
  }

  /** What a step does to the numbers of Vs and of Ps that have completed. */
  lemma StepSems(s: State, op: Op)
    requires Inv(s) && Enabled(s, op)
    ensures Step(s, op).vs == if op.OpV? && op.sem in s.vs then s.vs[op.sem := s.vs[op.sem] + 1] else s.vs
    ensures Step(s, op).init == s.init && (op.OpDispatch? ==> s.runq[0] in s.pc)
    ensures Step(s, op).ps ==
            Completed(s, if op.OpP? then Some(op.sem) else if op.OpDispatch? then Awaited(s) else None)
  {
    hide Inv, Everyone, Wake, Resumed, DoP, DoAcquire, Parked, Moves;
    Ready(s);
    match op
    case OpP(x) => PSems(s, x);
    case OpV(x) => WakeSems(s.(count := s.count[x := s.count[x] + 1], vs := s.vs[x := s.vs[x] + 1]), SemAddr(x));
    case OpAcquire(l) => AcquireSems(s, l);
    case OpRelease(l) => WakeSems(s.(holder := s.holder[l := None]), LockAddr(l));
    case OpWait(c, l) => WakeSems(s.(holder := s.holder[l := None]), LockAddr(l));
    case OpBroadcast(c, _) => WakeSems(s, CvAddr(c));
    case OpDispatch => DispatchMoves(s); ResumedSems(Picked(s));
    case _ =>
  }

  /** The semaphore on which the thread at the head of the run queue is in P. */
  ghost function Awaited(s: State): Option<nat>
    requires s.runq != [] && s.runq[0] in s.pc
  {
    if s.pc[s.runq[0]].InP? then Some(s.pc[s.runq[0]].sem) else None
  }

  ghost function Completed(s: State, x: Option<nat>): map<nat, nat>
  {
    if x.Some? && x.value in s.ps && x.value in s.count && s.count[x.value] > 0
    then s.ps[x.value := s.ps[x.value] + 1] else s.ps
  }

  lemma MovesPlace(s: State, s': State, p: Pc, x: nat)
    requires Moves(s, s', p) && (s.cur.Some? ==> s.cur.value in s.pc)
    ensures |InsideP(s', x)| == |InsideP(s, x)| + if s.cur.None? then 0
              else (if p == InP(x) then 1 else 0) - if s.pc[s.cur.value] == InP(x) then 1 else 0
  {
    if s.cur.Some? {
      InsideChanges(s, s', s.cur.value, p, x);
    }
  }

  lemma ForkStray(s: State, t: nat, x: nat)
    requires Placed(s) && t !in Everyone(s) && NoneStray(s)
    ensures NoneStray(DoFork(s, t)) && |InsideP(DoFork(s, t), x)| == |InsideP(s, x)|
  {
    ForkPlaced(s, t);
    hide Placed, Everyone;
    var s' := DoFork(s, t);
    assert t in s'.runq;
    assert forall u :: Alive(s, u) ==> Alive(s', u);
    InsideChanges(s, s', t, New, x);
  }

  lemma ExitStray(s: State, x: nat)
    requires Inv(s) && s.cur.Some? && NoneStray(s)
    ensures NoneStray(DoExit(s)) && |InsideP(DoExit(s), x)| == |InsideP(s, x)|
  {
    hide Core;
    assert InsideP(DoExit(s), x) == InsideP(s, x);
  }

  lemma PickedStray(s: State, x: nat)
    requires s.cur.None? && s.runq != [] && s.runq[0] in s.pc && NoneStray(s)
    ensures NoneStray(Picked(s)) && InsideP(Picked(s), x) == InsideP(s, x)
  {
    assert s.runq == [s.runq[0]] + s.runq[1..];
  }

  lemma StepInside(s: State, op: Op, x: nat)
    requires Inv(s) && Enabled(s, op) && NoneStray(s)
    ensures NoneStray(Step(s, op)) && (op.OpDispatch? ==> s.runq[0] in s.pc)
    ensures |InsideP(Step(s, op), x)| == |InsideP(s, x)|
              + (if op == OpP(x) && AfterP(s, x) == InP(x) then 1 else 0)
              - (if op == OpDispatch && s.pc[s.runq[0]] == InP(x) && AfterP(s, x) == Running then 1 else 0)
  {
    hide Core, Everyone, Moves, InsideP, Wake, Sleep, Resumed, NoneStray, Placed;
    InvPlaced(s);
    match op
    case OpFork(t) => ForkStray(s, t, x);
    case OpExit => ExitStray(s, x);
    case OpDispatch =>
      DispatchMoves(s);
      PickedStray(s, x);
      MovesStray(Picked(s), Step(s, op), AfterResumed(Picked(s)));
      MovesPlace(Picked(s), Step(s, op), AfterResumed(Picked(s)), x);
    case _ =>
      hide Step;
      StepMoves(s, op);
      MovesStray(s, Step(s, op), After(s, op));
      MovesPlace(s, Step(s, op), After(s, op), x);
  }

  lemma StepTally(s: State, op: Op, x: nat, v: nat, p: nat)
    requires Inv(s) && Enabled(s, op) && NoneStray(s) && x in s.count && Tally(s, x, v, p)
    ensures NoneStray(Step(s, op)) && x in Step(s, op).count
    ensures Tally(Step(s, op), x, v + if op == OpV(x) then 1 else 0, p + if op == OpP(x) then 1 else 0)
  {
    hide Core, Everyone, NoneStray, Step, InsideP;
    StepSems(s, op);
    StepInside(s, op, x);
    StepKeeps(s, op);
    Ready(s);
    Ready(Step(s, op));
  }

  lemma {:induction false} RunTally(s: State, ops: seq<Op>, s': State, x: nat, v: nat, p: nat)
    requires Inv(s) && Reaches(s, ops, s') && NoneStray(s) && x in s.count && Tally(s, x, v, p)
    ensures x in s'.count && s'.init == s.init && Tally(s', x, v + Calls(ops, OpV(x)), p + Calls(ops, OpP(x)))
    decreases |ops|
  {
    hide Core, Step, Tally, NoneStray;
    if ops != [] {
      StepKeeps(s, ops[0]);
      StepTally(s, ops[0], x, v, p);
      StepSems(s, ops[0]);
      RunTally(Step(s, ops[0]), ops[1..], s', x,
               v + if ops[0] == OpV(x) then 1 else 0, p + if ops[0] == OpP(x) then 1 else 0);
    }
  }

  /** In every run a semaphore's count is what it started with, and the Vs, less the Ps that have come back. */
  lemma SemaphoreExact(init: map<nat, nat>, locks: set<nat>, ops: seq<Op>, s: State, x: nat)
    requires Reaches(Boot(init, locks), ops, s) && x in init
    ensures x in s.count && s.count[x] == init[x] + Calls(ops, OpV(x)) - (Calls(ops, OpP(x)) - |InsideP(s, x)|)
  {
    var s0 := Boot(init, locks);
    BootInv(init, locks);
    assert InsideP(s0, x) == {};
    assert Tally(s0, x, 0, 0) && NoneStray(s0);
    NoLostWakeups(init, locks, ops, s);
    hide Reaches, Step, Core, On, Everyone;
    RunTally(s0, ops, s, x, 0, 0);
  }

  // ----- turns -----

  /** Who joins the run queue joins at its end; who is dispatched was at its head. */
  lemma QueueOrder(s: State, op: Op)
    requires Inv(s) && Enabled(s, op)
    ensures (if op.OpDispatch? then s.runq[1..] else s.runq) <= Step(s, op).runq
  {
    hide Core, Everyone;
    match op
    case OpFork(_) =>
    case OpExit =>
    case OpDispatch => hide Resumed; DispatchMoves(s);
    case _ => hide Step; StepMoves(s, op);
  }

  /** The threads a run dispatches, in order. */
  ghost function Dispatched(s: State, ops: seq<Op>, s': State): seq<nat>
    requires Reaches(s, ops, s')
    decreases |ops|
  {
    if ops == [] then []
    else (if ops[0].OpDispatch? then [s.runq[0]] else []) + Dispatched(Step(s, ops[0]), ops[1..], s')
  }

  /** The thread at place k of the run queue gets the (k+1)-th turn, whatever happens meanwhile. */
  lemma {:induction false} TurnComes(s: State, ops: seq<Op>, s': State, k: nat)
    requires Inv(s) && Reaches(s, ops, s') && k < |s.runq| && k < |Dispatched(s, ops, s')|
    ensures Dispatched(s, ops, s')[k] == s.runq[k]
    decreases |ops|
  {
    hide Core, Step, Enabled;
    if ops != [] {
      var s1 := Step(s, ops[0]);
      StepKeeps(s, ops[0]);
      QueueOrder(s, ops[0]);
      if !ops[0].OpDispatch? {
        TurnComes(s1, ops[1..], s', k);
      } else if k > 0 {
        assert s1.runq[k - 1] == s.runq[k];
        TurnComes(s1, ops[1..], s', k - 1);
      }
    }
  }

  /** A thread that yields runs again when everyone runnable at that time has had a turn, and not before. */
  lemma YieldedTurn(s: State, ops: seq<Op>, s': State)
    requires Inv(s) && Enabled(s, OpYield) && Reaches(Step(s, OpYield), ops, s')
    requires |s.runq| < |Dispatched(Step(s, OpYield), ops, s')|
    ensures Step(s, OpYield).cur == None && Step(s, OpYield).runq == s.runq + [s.cur.value]
    ensures Dispatched(Step(s, OpYield), ops, s')[..|s.runq| + 1] == s.runq + [s.cur.value]
  {
    hide Core, Step, Reaches, Dispatched, Everyone;
    YieldGoesLast(s);
    StepKeeps(s, OpYield);
    var s1 := Step(s, OpYield);
    forall k | 0 <= k <= |s.runq|
      ensures Dispatched(s1, ops, s')[k] == s1.runq[k]
    {
      TurnComes(s1, ops, s', k);
    }
  }

  lemma YieldGoesLast(s: State)
    requires Inv(s) && Enabled(s, OpYield)
    ensures Step(s, OpYield).cur == None && Step(s, OpYield).runq == s.runq + [s.cur.value]
  {
    hide Core;
  }
}
