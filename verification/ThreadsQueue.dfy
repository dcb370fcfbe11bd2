/** How long the run queue gets (kern/thread/thread.c, kern/thread/scheduler.c). */
module ThreadsQueue {
  import opened Options
  import opened Threads
  import opened ThreadsProof
  import opened ThreadsRuns

  /** In every state a run leads to it holds at most every thread, and every thread just when none runs or sleeps. */
  lemma RunQueueLength(init: map<nat, nat>, locks: set<nat>, ops: seq<Op>, s: State)
    requires Reaches(Boot(init, locks), ops, s)
    ensures |s.runq| <= s.numthreads && (|s.runq| == s.numthreads <==> s.cur == None && s.sleepers == [])
  {
    hide Reaches, Boot, Everyone, On;
    NoLostWakeups(init, locks, ops, s);
  }

  /** The first thread has made n others, and none of them has run. */
  lemma {:induction false} ForkMany(n: nat) returns (ops: seq<Op>, s: State)
    ensures Reaches(Boot(map[], {}), ops, s) && Inv(s)
    ensures s.cur == Some(0) && |s.runq| == n && s.sleepers == [] && forall t :: t in Everyone(s) ==> t <= n
  {
    hide Core, Reaches, Everyone;
    if n == 0 {
      ops, s := [], Boot(map[], {});
      BootInv(map[], {});
      Alone();
    } else {
      ops, s := ForkMany(n - 1);
      var op := OpFork(n);
      ReachesStep(Boot(map[], {}), ops, s, op);
      StepKeeps(s, op);
      ForkEveryone(s, n);
      ops, s := ops + [op], Step(s, op);
    }
  }

  lemma Alone()
    ensures Reaches(Boot(map[], {}), [], Boot(map[], {})) && forall t :: t in Everyone(Boot(map[], {})) ==> t <= 0
  {
  }

  /** For every number of threads there is a run after which all of them are in the run queue. */
  lemma AllRunnable(n: nat) returns (ops: seq<Op>, s: State)
    requires n >= 1
    ensures Reaches(Boot(map[], {}), ops, s) && |s.runq| == n == s.numthreads
  {
    hide Core, Reaches, Everyone;
    ops, s := ForkMany(n - 1);
    ReachesStep(Boot(map[], {}), ops, s, OpYield);
    ops, s := ops + [OpYield], Step(s, OpYield);
    RunQueueLength(map[], {}, ops, s);
  }
}
