/** Whole runs of the thread system, and what its primitives promise (kern/thread/thread.c, kern/thread/synch.c). */
module ThreadsRuns {
  import opened Options
  import opened Threads
  import opened ThreadsProof

  datatype Op =
    | OpP(sem: nat) | OpV(sem: nat) | OpAcquire(lock: nat) | OpRelease(lock: nat)
    | OpWait(cv: nat, lock: nat) | OpSignal(cv: nat, lock: nat) | OpBroadcast(cv: nat, lock: nat)
    | OpFork(thread: nat) | OpExit | OpYield | OpDispatch

  /**
   When a step can be taken without an assertion failing. V may also come from
   an interrupt handler, so it needs no current thread; the dispatcher runs
   when there is none.
   */
  ghost predicate Enabled(s: State, op: Op)
  {
    match op
    case OpP(x) => s.cur.Some? && x in s.count
    case OpV(x) => x in s.count
    case OpAcquire(l) => s.cur.Some? && l in s.holder && s.holder[l] != s.cur
    case OpRelease(l) => s.cur.Some? && l in s.holder && s.holder[l] == s.cur
    case OpWait(c, l) => s.cur.Some? && l in s.holder && s.holder[l] == s.cur
    case OpSignal(c, l) => s.cur.Some? && l in s.holder && s.holder[l] == s.cur && s.sleepers != []
    case OpBroadcast(c, l) => s.cur.Some? && l in s.holder && s.holder[l] == s.cur
    case OpFork(t) => s.cur.Some? && t !in Everyone(s)
    case OpExit => s.cur.Some?
    case OpYield => s.cur.Some?
    case OpDispatch => s.cur.None? && s.runq != []
  }

  lemma Ready(s: State)
    requires Inv(s)
    ensures s.count.Keys == s.ps.Keys == s.vs.Keys
    ensures s.runq != [] ==> Parked(s, s.runq[0])
  {
  }

  ghost function Step(s: State, op: Op): State
    requires Inv(s) && Enabled(s, op)
  {
    Ready(s);
    match op
    case OpP(x) => DoP(s, x)
    case OpV(x) => DoV(s, x)
    case OpAcquire(l) => DoAcquire(s, l)
    case OpRelease(l) => DoRelease(s, l)
    case OpWait(c, l) => DoWait(s, c, l)
    case OpSignal(c, _) => DoSignal(s, c)
    case OpBroadcast(c, _) => DoBroadcast(s, c)
    case OpFork(t) => DoFork(s, t)
    case OpExit => DoExit(s)
    case OpYield => DoYield(s)
    case OpDispatch => DoDispatch(s)
  }

  /** Every step keeps every thread in one place, every wakeup and every semaphore unit. */
  lemma StepKeeps(s: State, op: Op)
    requires Inv(s) && Enabled(s, op)
    ensures Inv(Step(s, op))
  {
    Ready(s);
    hide Core, Everyone, Wake;
    match op
    case OpP(x) => PKeeps(s, x);
    case OpV(x) => VKeeps(s, x);
        WakeSame(s.(count := s.count[x := s.count[x] + 1], vs := s.vs[x := s.vs[x] + 1]), SemAddr(x));
    case OpAcquire(l) => AcquireKeeps(s, l);
    case OpRelease(l) => ReleaseKeeps(s, l); WakeSame(s.(holder := s.holder[l := None]), LockAddr(l));
    case OpWait(c, l) => WaitKeeps(s, c, l);
    case OpSignal(c, _) => SignalKeeps(s, c);
    case OpBroadcast(c, _) => WakeSpurious(s, CvAddr(c)); WakeSame(s, CvAddr(c));
    case OpFork(t) => ForkKeeps(s, t);
    case OpExit => ExitKeeps(s);
    case OpYield => YieldKeeps(s);
    case OpDispatch => DispatchKeeps(s);
  }

  /** After boot: one thread, semaphores with their starting counts, locks free. */
  function Boot(init: map<nat, nat>, locks: set<nat>): State
  {
    State(Some(0), [], [], [], 1, map[], map[0 := Running], init, map l | l in locks :: None,
          init, map x | x in init :: 0, map x | x in init :: 0)
  }

  lemma BootInv(init: map<nat, nat>, locks: set<nat>)
    ensures Inv(Boot(init, locks))
  {
  }

  /** s' is what some run of steps from s leads to. */
  ghost predicate Reaches(s: State, ops: seq<Op>, s': State)
    decreases |ops|
  {
    if ops == [] then s' == s
    else Inv(s) && Enabled(s, ops[0]) && Reaches(Step(s, ops[0]), ops[1..], s')
  }

  lemma {:induction false} ReachesInv(s: State, ops: seq<Op>, s': State)
    requires Inv(s) && Reaches(s, ops, s')
    ensures Inv(s')
    decreases |ops|
  {
    if ops != [] {
      StepKeeps(s, ops[0]);
      ReachesInv(Step(s, ops[0]), ops[1..], s');
    }
  }

  /** A run goes one step further. */
  lemma {:induction false} ReachesStep(s: State, ops: seq<Op>, s1: State, op: Op)
    requires Reaches(s, ops, s1) && Inv(s1) && Enabled(s1, op)
    ensures Reaches(s, ops + [op], Step(s1, op))
    decreases |ops|
  {
    hide Inv, Step, Enabled;
    if ops == [] {
      assert (ops + [op])[1..] == [];
    } else {
      assert (ops + [op])[1..] == ops[1..] + [op];
      ReachesStep(Step(s, ops[0]), ops[1..], s1, op);
    }
  }

  /**
   In every state a run from boot leads to: a thread is in exactly one of the
   four places it can be, a sleeper on a semaphore finds its count at zero, a
   sleeper on a lock finds it held, and no semaphore has lost or gained a unit.
   */
  lemma NoLostWakeups(init: map<nat, nat>, locks: set<nat>, ops: seq<Op>, s: State)
    requires Reaches(Boot(init, locks), ops, s)
    ensures forall t :: Everyone(s)[t] <= 1
    ensures s.numthreads == (if s.cur.Some? then 1 else 0) + |s.runq| + |s.sleepers|
    ensures forall t, x :: t in s.sleepers && On(s.addr, t, SemAddr(x)) ==> x in s.count && s.count[x] == 0
    ensures forall t, l :: t in s.sleepers && On(s.addr, t, LockAddr(l)) ==> l in s.holder && s.holder[l].Some?
    ensures forall x :: x in s.count ==>
              x in s.ps && x in s.init && x in s.vs && s.count[x] + s.ps[x] == s.init[x] + s.vs[x]
  {
    BootInv(init, locks);
    ReachesInv(Boot(init, locks), ops, s);
    hide Reaches, Everyone, Step;
    forall t | t in s.sleepers
      ensures Asleep(s, t)
    {
    }
  }

  // ----- threads -----

  lemma SleepEveryone(s: State, a: Addr, p: Pc)
    requires s.cur.Some?
    ensures Everyone(Sleep(s, a, p)) == Everyone(s)
  {
    var t := s.cur.value;
    assert multiset(s.sleepers + [t]) == multiset(s.sleepers) + multiset{t};
  }

  lemma WakeEveryone(s: State, a: Addr)
    ensures Everyone(Wake(s, a)) == Everyone(s)
  {
    WakeSplits(s.sleepers, s.addr, a);
    hide Waiting, NotWaiting;
    assert multiset(Wake(s, a).runq) == multiset(s.runq) + multiset(Waiting(s.sleepers, s.addr, a));
  }

  lemma PEveryone(s: State, x: nat)
    requires s.cur.Some? && x in s.count && x in s.ps
    ensures Everyone(DoP(s, x)) == Everyone(s)
  {
    if s.count[x] == 0 { SleepEveryone(s, SemAddr(x), InP(x)); }
  }

  lemma AcquireEveryone(s: State, l: nat)
    requires s.cur.Some? && l in s.holder
    ensures Everyone(DoAcquire(s, l)) == Everyone(s)
  {
    if s.holder[l].Some? { SleepEveryone(s, LockAddr(l), InAcquire(l)); }
  }

  lemma EveryoneSame(s: State, s': State)
    requires s'.cur == s.cur && s'.runq == s.runq && s'.sleepers == s.sleepers && s'.zombies == s.zombies
    ensures Everyone(s') == Everyone(s)
  {
  }

  lemma VEveryone(s: State, x: nat)
    requires x in s.count && x in s.vs
    ensures Everyone(DoV(s, x)) == Everyone(s)
  {
    var r := s.(count := s.count[x := s.count[x] + 1], vs := s.vs[x := s.vs[x] + 1]);
    EveryoneSame(s, r);
    WakeEveryone(r, SemAddr(x));
  }

  lemma ReleaseEveryone(s: State, l: nat)
    ensures Everyone(DoRelease(s, l)) == Everyone(s)
  {
    var r := s.(holder := s.holder[l := None]);
    EveryoneSame(s, r);
    WakeEveryone(r, LockAddr(l));
  }

  lemma ResumedEveryone(s: State)
    requires CanGoOn(s)
    ensures Everyone(Resumed(s)) == Everyone(s)
  {
    hide Wake, Everyone, DoP, DoAcquire;
    var t := s.cur.value;
    var woken := s.(addr := s.addr - {t});
    EveryoneSame(s, woken);
    EveryoneSame(s, s.(pc := s.pc[t := Running]));
    match s.pc[t]
    case InP(x) => PEveryone(woken, x);
    case InAcquire(l) => AcquireEveryone(woken, l);
    case InWait(c, l) =>
      WakeEveryone(woken, LockAddr(l));
      WakeSame(woken, LockAddr(l));
      AcquireEveryone(Wake(woken, LockAddr(l)), l);
    case New =>
    case InYield =>
  }

  lemma PickedEveryone(s: State)
    requires s.cur.None? && s.runq != [] && s.runq[0] in s.pc
    ensures Everyone(Picked(s)) == if s.pc[s.runq[0]] == New then Everyone(s) else Everyone(s) - multiset(s.zombies)
  {
    var t := s.runq[0];
    assert s.runq == [t] + s.runq[1..];
    assert multiset(s.runq) == multiset{t} + multiset(s.runq[1..]);
  }

  lemma DispatchEveryone(s: State)
    requires Inv(s) && s.cur.None? && s.runq != []
    ensures Parked(s, s.runq[0]) && s.count.Keys == s.ps.Keys
    ensures Everyone(DoDispatch(s)) == if s.pc[s.runq[0]] == New then Everyone(s) else Everyone(s) - multiset(s.zombies)
  {
    hide Resumed, Everyone, Placed;
    PickedCore(s);
    PickedEveryone(s);
    ResumedEveryone(Picked(s));
  }

  lemma ForkEveryone(s: State, t: nat)
    ensures Everyone(DoFork(s, t)) == Everyone(s) + multiset{t}
  {
    assert multiset(s.runq + [t]) == multiset(s.runq) + multiset{t};
  }

  lemma LeaveEveryone(s: State)
    requires s.cur.Some?
    ensures Everyone(DoExit(s)) == Everyone(s) && Everyone(DoYield(s)) == Everyone(s)
  {
    assert multiset(s.zombies + [s.cur.value]) == multiset(s.zombies) + multiset{s.cur.value};
    assert multiset(s.runq + [s.cur.value]) == multiset(s.runq) + multiset{s.cur.value};
  }

  /** Threads appear only by thread_fork; they disappear when exorcise destroys the dead, all of them. */
  lemma NobodyLost(s: State, op: Op)
    requires Inv(s) && Enabled(s, op)
    ensures op.OpFork? ==> Everyone(Step(s, op)) == Everyone(s) + multiset{op.thread}
    ensures op.OpDispatch? ==> s.runq[0] in s.pc
    ensures op.OpDispatch? && s.pc[s.runq[0]] == New ==> Everyone(Step(s, op)) == Everyone(s)
    ensures op.OpDispatch? && s.pc[s.runq[0]] != New ==> Everyone(Step(s, op)) == Everyone(s) - multiset(s.zombies)
    ensures !op.OpFork? && !op.OpDispatch? ==> Everyone(Step(s, op)) == Everyone(s)
  {
    hide Inv, Core, Placed, Parked, Everyone, Wake, DoP, DoV, DoAcquire, DoRelease, DoSignal, DoDispatch, Sleep,
        DoFork, DoExit, DoYield, DoBroadcast, DoWait;
    Ready(s);
    InvPlaced(s);
    match op
    case OpP(x) => PEveryone(s, x);
    case OpV(x) => VEveryone(s, x);
    case OpAcquire(l) => AcquireEveryone(s, l);
    case OpRelease(l) => ReleaseEveryone(s, l);
    case OpWait(c, l) => WaitEveryone(s, c, l);
    case OpSignal(c, _) => SignalPlaced(s, c);
    case OpBroadcast(c, _) => BroadcastEveryone(s, c);
    case OpFork(t) => ForkEveryone(s, t);
    case OpExit => LeaveEveryone(s);
    case OpYield => LeaveEveryone(s);
    case OpDispatch => DispatchEveryone(s);
  }

  lemma WaitEveryone(s: State, c: nat, l: nat)
    requires s.cur.Some?
    ensures Everyone(DoWait(s, c, l)) == Everyone(s)
  {
    hide Everyone, DoRelease, Sleep;
    ReleaseEveryone(s, l);
    ReleaseCur(s, l);
    SleepEveryone(DoRelease(s, l), CvAddr(c), InWait(c, l));
  }

  lemma BroadcastEveryone(s: State, c: nat)
    ensures Everyone(DoBroadcast(s, c)) == Everyone(s)
  {
    hide Everyone, Wake;
    WakeEveryone(s, CvAddr(c));
  }

  lemma ReleaseCur(s: State, l: nat)
    ensures DoRelease(s, l).cur == s.cur
  {
  }

  lemma InvPlaced(s: State)
    requires Inv(s)
    ensures Placed(s)
  {
  }

  // ----- locks -----

  /** A lock changes hands only through its holder. */
  lemma HolderStable(s: State, op: Op, l: nat, t: nat)
    requires Inv(s) && Enabled(s, op) && l in s.holder && s.holder[l] == Some(t)
    requires s.cur == Some(t) ==> op != OpRelease(l) && !(op.OpWait? && op.lock == l)
    ensures l in Step(s, op).holder && Step(s, op).holder[l] == Some(t)
  {
    Ready(s);
    hide Core, Everyone;
  }

  // ----- condition variables -----

  /** cv_wait: in one step the lock is free, the thread sleeps on the CV, and nobody sleeps on the lock. */
  lemma WaitAtomic(s: State, c: nat, l: nat)
    requires Inv(s) && Enabled(s, OpWait(c, l))
    ensures var s' := Step(s, OpWait(c, l)); var t := s.cur.value;
            && l in s'.holder && s'.holder[l].None? && t in s'.sleepers && On(s'.addr, t, CvAddr(c))
            && s'.pc[t] == InWait(c, l)
            && forall u :: u in s'.sleepers ==> !On(s'.addr, u, LockAddr(l))
  {
    Ready(s);
    var r := s.(holder := s.holder[l := None]);
    forall u | u in NotWaiting(r.sleepers, r.addr, LockAddr(l))
      ensures !On(r.addr, u, LockAddr(l))
    {
      WakeSorts(r.sleepers, r.addr, LockAddr(l), u);
    }
    hide Core, Waiting, NotWaiting;
  }

  /** A thread comes out of cv_wait or lock_acquire only holding the lock; otherwise it sleeps on the lock. */
  lemma ReturnsHolding(s: State, l: nat)
    requires Inv(s) && Enabled(s, OpDispatch)
    requires var t := s.runq[0];
               t in s.pc && match s.pc[t] case InWait(_, m) => m == l case InAcquire(m) => m == l case _ => false
    ensures var s' := Step(s, OpDispatch); var t := s.runq[0];
            && l in s'.holder && t in s'.pc
            && (if s'.cur.Some? then s'.cur == Some(t) && s'.holder[l] == Some(t) && s'.pc[t] == Running
                else t in s'.sleepers && On(s'.addr, t, LockAddr(l)) && s'.pc[t] == InAcquire(l))
  {
    Ready(s);
    hide Core, Waiting, NotWaiting;
  }

  /** A wakeup makes runnable every thread asleep on its address, in order after those that were, and no other. */
  lemma WakeExact(s: State, a: Addr, t: nat)
    requires Placed(s) && t in s.sleepers
    ensures On(s.addr, t, a) <==> t in Wake(s, a).runq
    ensures On(s.addr, t, a) <==> t !in Wake(s, a).sleepers
    ensures Wake(s, a).runq[..|s.runq|] == s.runq
  {
    WakeSorts(s.sleepers, s.addr, a, t);
    SleeperNotRunnable(s, t);
    hide Waiting, NotWaiting;
  }

  /** cv_broadcast makes runnable every thread waiting on the CV, in order, and no other. */
  lemma BroadcastExact(s: State, c: nat, t: nat)
    requires Placed(s) && t in s.sleepers
    ensures On(s.addr, t, CvAddr(c)) <==> t in DoBroadcast(s, c).runq
    ensures On(s.addr, t, CvAddr(c)) <==> t !in DoBroadcast(s, c).sleepers
    ensures DoBroadcast(s, c).runq[..|s.runq|] == s.runq
  {
    hide Wake, Placed;
    WakeExact(s, CvAddr(c), t);
  }

  /** V makes runnable every thread in P on the semaphore, and no other; an interrupt handler may call it. */
  lemma VExact(s: State, x: nat, t: nat)
    requires Inv(s) && x in s.count && t in s.sleepers
    ensures Enabled(s, OpV(x))
    ensures On(s.addr, t, SemAddr(x)) <==> t in Step(s, OpV(x)).runq
    ensures On(s.addr, t, SemAddr(x)) <==> t !in Step(s, OpV(x)).sleepers
  {
    Ready(s);
    InvPlaced(s);
    hide Wake, Core, Everyone;
    var r := s.(count := s.count[x := s.count[x] + 1], vs := s.vs[x := s.vs[x] + 1]);
    PlacedSame(s, r);
    WakeExact(r, SemAddr(x), t);
  }

  /** lock_release makes runnable every thread waiting for the lock, and no other. */
  lemma ReleaseExact(s: State, l: nat, t: nat)
    requires Inv(s) && Enabled(s, OpRelease(l)) && t in s.sleepers
    ensures On(s.addr, t, LockAddr(l)) <==> t in Step(s, OpRelease(l)).runq
    ensures On(s.addr, t, LockAddr(l)) <==> t !in Step(s, OpRelease(l)).sleepers
  {
    InvPlaced(s);
    hide Wake, Core, Everyone;
    var r := s.(holder := s.holder[l := None]);
    PlacedSame(s, r);
    WakeExact(r, LockAddr(l), t);
  }

  lemma SleeperNotRunnable(s: State, t: nat)
    requires Placed(s) && t in s.sleepers
    ensures t !in s.runq
  {
    assert t in multiset(s.sleepers);
    assert t in s.runq ==> t in multiset(s.runq);
    assert Everyone(s)[t] <= 1;
  }

  /**
   cv_signal makes at most one thread runnable, and only one waiting on the CV:
   it does exactly when the first of all sleepers waits there.
   */
  lemma SignalExact(s: State, c: nat)
    requires Placed(s) && s.sleepers != []
    ensures var s' := DoSignal(s, c); var t := s.sleepers[0];
            if On(s.addr, t, CvAddr(c)) then s'.runq == s.runq + [t] && s'.sleepers == s.sleepers[1..]
            else s' == s
    ensures (exists t :: t in s.sleepers && t in DoSignal(s, c).runq) <==> On(s.addr, s.sleepers[0], CvAddr(c))
  {
    forall t | t in s.sleepers
      ensures t !in s.runq
    {
      SleeperNotRunnable(s, t);
    }
    assert s.sleepers[0] in s.sleepers;
  }
}
