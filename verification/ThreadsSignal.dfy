/** A run in which cv_signal wakes no one though a thread waits (kern/thread/thread.c). */
module ThreadsSignal {
  import opened Options
  import opened Threads
  import opened ThreadsProof
  import opened ThreadsRuns

  function Scene(cur: Option<nat>, runq: seq<nat>, sleepers: seq<nat>, addr: map<nat, Addr>, pc: map<nat, Pc>,
      holder: Option<nat>): State
  {
    State(cur, runq, sleepers, [], |pc|, addr, pc, map[3 := 0], map[5 := holder], map[3 := 0], map[3 := 0], map[3 := 0])
  }

  ghost predicate FromBoot(s: State)
  {
    Inv(s) && exists ops :: Reaches(Boot(map[3 := 0], {5}), ops, s)
  }

  lemma GoOn(s: State, op: Op, s': State)
    requires FromBoot(s) && Enabled(s, op) && Step(s, op) == s'
    ensures FromBoot(s')
  {
    hide Inv, Step, Enabled;
    var ops :| Reaches(Boot(map[3 := 0], {5}), ops, s);
    ReachesStep(Boot(map[3 := 0], {5}), ops, s, op);
    StepKeeps(s, op);
  }

  function Boot0(): State
  {
    Scene(Some(0), [], [], map[], map[0 := Running], None)
  }

  lemma Boot0Reached()
    ensures FromBoot(Boot0())
  {
    BootInv(map[3 := 0], {5});
    assert Boot0() == Boot(map[3 := 0], {5});
    assert Reaches(Boot(map[3 := 0], {5}), [], Boot0());
  }

  function Forked1(): State
  {
    Scene(Some(0), [1], [], map[], map[0 := Running, 1 := New], None)
  }

  lemma Forked1Reached()
    ensures FromBoot(Forked1())
  {
    hide Inv, FromBoot;
    Boot0Reached();
    GoOn(Boot0(), OpFork(1), Forked1());
  }

  function Forked2(): State
  {
    Scene(Some(0), [1, 2], [], map[], map[0 := Running, 1 := New, 2 := New], None)
  }

  lemma Forked2Reached()
    ensures FromBoot(Forked2())
  {
    hide Inv, FromBoot;
    Forked1Reached();
    GoOn(Forked1(), OpFork(2), Forked2());
  }

  function Yielded(): State
  {
    Scene(None, [1, 2, 0], [], map[], map[0 := InYield, 1 := New, 2 := New], None)
  }

  lemma YieldedReached()
    ensures FromBoot(Yielded())
  {
    hide Inv, FromBoot;
    Forked2Reached();
    GoOn(Forked2(), OpYield, Yielded());
  }

  function Started1(): State
  {
    Scene(Some(1), [2, 0], [], map[], map[0 := InYield, 1 := Running, 2 := New], None)
  }

  lemma Started1Reached()
    ensures FromBoot(Started1())
  {
    hide Inv, FromBoot;
    YieldedReached();
    GoOn(Yielded(), OpDispatch, Started1());
  }

  function Asleep1(): State
  {
    Scene(None, [2, 0], [1], map[1 := SemAddr(3)], map[0 := InYield, 1 := InP(3), 2 := New], None)
  }

  lemma Asleep1Reached()
    ensures FromBoot(Asleep1())
  {
    hide Inv, FromBoot;
    Started1Reached();
    GoOn(Started1(), OpP(3), Asleep1());
  }

  function Started2(): State
  {
    Scene(Some(2), [0], [1], map[1 := SemAddr(3)], map[0 := InYield, 1 := InP(3), 2 := Running], None)
  }

  lemma Started2Reached()
    ensures FromBoot(Started2())
  {
    hide Inv, FromBoot;
    Asleep1Reached();
    GoOn(Asleep1(), OpDispatch, Started2());
  }

  function Locked2(): State
  {
    Scene(Some(2), [0], [1], map[1 := SemAddr(3)], map[0 := InYield, 1 := InP(3), 2 := Running], Some(2))
  }

  lemma Locked2Reached()
    ensures FromBoot(Locked2())
  {
    hide Inv, FromBoot;
    Started2Reached();
    GoOn(Started2(), OpAcquire(5), Locked2());
  }

  function Waiting2(): State
  {
    Scene(None, [0], [1, 2], map[1 := SemAddr(3), 2 := CvAddr(7)], map[0 := InYield, 1 := InP(3), 2 := InWait(7, 5)],
        None)
  }

  lemma Waiting2Reached()
    ensures FromBoot(Waiting2())
  {
    hide Inv, FromBoot;
    Locked2Reached();
    GoOn(Locked2(), OpWait(7, 5), Waiting2());
  }

  function Back0(): State
  {
    Scene(Some(0), [], [1, 2], map[1 := SemAddr(3), 2 := CvAddr(7)],
        map[0 := Running, 1 := InP(3), 2 := InWait(7, 5)], None)
  }

  lemma Back0Reached()
    ensures FromBoot(Back0())
  {
    hide Inv, FromBoot;
    Waiting2Reached();
    GoOn(Waiting2(), OpDispatch, Back0());
  }

  function Missed(): State
  {
    Scene(Some(0), [], [1, 2], map[1 := SemAddr(3), 2 := CvAddr(7)],
        map[0 := Running, 1 := InP(3), 2 := InWait(7, 5)], Some(0))
  }

  lemma MissedReached()
    ensures FromBoot(Missed())
  {
    hide Inv, FromBoot;
    Back0Reached();
    GoOn(Back0(), OpAcquire(5), Missed());
  }

  /** A run leads to thread 2 waiting on CV 7 behind a thread asleep on semaphore 3: a signal then wakes no one. */
  lemma SignalMisses()
    ensures var s := Missed();
            && FromBoot(s) && 2 in s.sleepers && On(s.addr, 2, CvAddr(7))
            && Enabled(s, OpSignal(7, 5)) && DoSignal(s, 7) == s
  {
    hide Inv, FromBoot;
    MissedReached();
  }
}
