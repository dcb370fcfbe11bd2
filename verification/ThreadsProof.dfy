/**
 No step of the thread system loses a thread, a wakeup or a semaphore unit
 (kern/thread/thread.c, kern/thread/synch.c).
 */
module ThreadsProof {
  import opened Options
  import opened Threads

  /** Core, except that sleepers on a may have lost their reason. */
  ghost predicate CoreBut(s: State, a: Addr)
  {
    && Placed(s) && Conserved(s)
    && (forall t :: t in s.runq || t in s.sleepers ==> Parked(s, t))
    && (forall t :: t in s.sleepers ==> On(s.addr, t, a) || Asleep(s, t))
  }

  lemma WakePlaced(s: State, a: Addr)
    requires Placed(s)
    ensures Placed(Wake(s, a)) && Everyone(Wake(s, a)) == Everyone(s)
  {
    WakeSplits(s.sleepers, s.addr, a);
    hide Waiting, NotWaiting;
    var s' := Wake(s, a);
    assert multiset(s'.runq) == multiset(s.runq) + multiset(Waiting(s.sleepers, s.addr, a));
    assert Everyone(s') == Everyone(s);
  }

  lemma WakeKeeps(s: State, a: Addr)
    requires CoreBut(s, a)
    ensures Core(Wake(s, a))
  {
    WakePlaced(s, a);
    hide Waiting, NotWaiting, Placed, Everyone, Conserved;
    var s' := Wake(s, a);
    assert Conserved(s') by { ConservedSame(s, s'); }
    forall t | t in s'.runq || t in s'.sleepers
      ensures Parked(s', t) && (t in s'.sleepers ==> Asleep(s', t))
    {
      WakeSorts(s.sleepers, s.addr, a, t);
      assert t in s.runq || t in s.sleepers;
      assert Parked(s, t);
    }
  }

  lemma ConservedSame(s: State, s': State)
    requires Conserved(s) && s'.count == s.count && s'.init == s.init && s'.vs == s.vs && s'.ps == s.ps
    ensures Conserved(s')
  {
  }

  /** A wakeup does not lose anyone's reason to sleep. */
  lemma WakeSpurious(s: State, a: Addr)
    requires Core(s)
    ensures Core(Wake(s, a))
  {
    hide Placed, Conserved, Parked;
    WakeKeeps(s, a);
  }

  lemma SleepPlaced(s: State, a: Addr, p: Pc)
    requires Placed(s) && s.cur.Some?
    ensures Placed(Sleep(s, a, p)) && s.cur.value !in s.runq && s.cur.value !in s.sleepers
  {
    var t, s' := s.cur.value, Sleep(s, a, p);
    assert multiset(s'.sleepers) == multiset(s.sleepers) + multiset{t};
    assert Everyone(s') == Everyone(s);
    assert t in s.runq ==> t in multiset(s.runq);
    assert t in s.sleepers ==> t in multiset(s.sleepers);
    assert Everyone(s)[t] <= 1;
  }

  /** The current thread goes to sleep for a reason. */
  lemma SleepKeeps(s: State, a: Addr, p: Pc)
    requires Core(s) && s.cur.Some? && Matches(p, a) && Justified(s, a)
    requires Parked(s.(pc := s.pc[s.cur.value := p]), s.cur.value)
    ensures Inv(Sleep(s, a, p))
  {
    SleepPlaced(s, a, p);
    hide Placed, Conserved;
    var t0, s' := s.cur.value, Sleep(s, a, p);
    assert Conserved(s') by { ConservedSame(s, s'); }
    forall t | t in s'.runq || t in s'.sleepers
      ensures Parked(s', t) && (t in s'.sleepers ==> Asleep(s', t))
    {
      if t != t0 {
        assert t in s.runq || t in s.sleepers;
        assert Parked(s, t) && (t in s.sleepers ==> Asleep(s, t));
      }
    }
  }

  // ----- semaphores -----

  /** A state that differs in its counts only as P does. */
  lemma CountDown(s: State, x: nat)
    requires Core(s) && s.cur.Some? && x in s.count && x in s.ps && s.count[x] > 0
    ensures Inv(DoP(s, x))
  {
    hide Placed, Conserved;
    CurrentApart(s);
    var s' := DoP(s, x);
    ConservedDown(s, s', x);
    PlacedSame(s, s');
    forall t | t in s'.runq || t in s'.sleepers
      ensures Parked(s', t) && (t in s'.sleepers ==> Asleep(s', t))
    {
      assert Parked(s, t) && (t in s.sleepers ==> Asleep(s, t));
    }
  }

  lemma ConservedDown(s: State, s': State, x: nat)
    requires Conserved(s) && x in s.count && x in s.ps && s.count[x] > 0
    requires s'.count == s.count[x := s.count[x] - 1] && s'.ps == s.ps[x := s.ps[x] + 1] && s'.init == s.init
             && s'.vs == s.vs
    ensures Conserved(s')
  {
  }

  lemma ConservedUp(s: State, s': State, x: nat)
    requires Conserved(s) && x in s.count && x in s.vs
    requires s'.count == s.count[x := s.count[x] + 1] && s'.vs == s.vs[x := s.vs[x] + 1] && s'.init == s.init
             && s'.ps == s.ps
    ensures Conserved(s')
  {
  }

  lemma PlacedSame(s: State, s': State)
    requires Placed(s) && s'.cur == s.cur && s'.runq == s.runq && s'.sleepers == s.sleepers && s'.zombies == s.zombies
             && s'.numthreads == s.numthreads
    ensures Placed(s')
  {
    assert Everyone(s') == Everyone(s);
  }

  lemma CurrentApart(s: State)
    requires Placed(s) && s.cur.Some?
    ensures s.cur.value !in s.runq && s.cur.value !in s.sleepers && s.cur.value !in s.zombies
  {
    var t := s.cur.value;
    assert t in s.runq ==> t in multiset(s.runq);
    assert t in s.sleepers ==> t in multiset(s.sleepers);
    assert t in s.zombies ==> t in multiset(s.zombies);
    assert Everyone(s)[t] <= 1;
  }

  lemma PKeeps(s: State, x: nat)
    requires Core(s) && s.cur.Some? && x in s.count && x in s.ps
    ensures Inv(DoP(s, x))
  {
    if s.count[x] == 0 {
      SleepKeeps(s, SemAddr(x), InP(x));
    } else {
      CountDown(s, x);
    }
  }

  lemma UpThread(s: State, s': State, x: nat, t: nat)
    requires x in s.count && s' == s.(count := s.count[x := s.count[x] + 1], vs := s'.vs)
    ensures Parked(s, t) ==> Parked(s', t)
    ensures Asleep(s, t) ==> On(s'.addr, t, SemAddr(x)) || Asleep(s', t)
  {
  }

  lemma VKeeps(s: State, x: nat)
    requires Core(s) && x in s.count && x in s.vs
    ensures Core(DoV(s, x))
  {
    hide Placed, Conserved, Parked, Asleep, On, Waiting, NotWaiting;
    var s1 := s.(count := s.count[x := s.count[x] + 1], vs := s.vs[x := s.vs[x] + 1]);
    ConservedUp(s, s1, x);
    PlacedSame(s, s1);
    forall t | t in s1.runq || t in s1.sleepers
      ensures Parked(s1, t) && (t in s1.sleepers ==> On(s1.addr, t, SemAddr(x)) || Asleep(s1, t))
    {
      UpThread(s, s1, x, t);
    }
    WakeKeeps(s1, SemAddr(x));
  }

  // ----- locks -----

  lemma Taken(s: State, l: nat)
    requires Core(s) && s.cur.Some? && l in s.holder && s.holder[l].None?
    ensures Inv(DoAcquire(s, l))
  {
    CurrentApart(s);
    var s' := DoAcquire(s, l);
    ConservedSame(s, s');
    PlacedSame(s, s');
    hide Placed, Conserved;
    forall t | t in s'.runq || t in s'.sleepers
      ensures Parked(s', t) && (t in s'.sleepers ==> Asleep(s', t))
    {
      assert Parked(s, t) && (t in s.sleepers ==> Asleep(s, t));
    }
  }

  /** A thread that does not hold the lock may ask for it. */
  lemma AcquireKeeps(s: State, l: nat)
    requires Core(s) && s.cur.Some? && l in s.holder && s.holder[l] != s.cur
    ensures Inv(DoAcquire(s, l))
  {
    if s.holder[l].Some? {
      SleepKeeps(s, LockAddr(l), InAcquire(l));
    } else {
      Taken(s, l);
    }
  }

  lemma ReleaseKeeps(s: State, l: nat)
    requires Core(s) && l in s.holder
    ensures Core(DoRelease(s, l))
  {
    var s1 := s.(holder := s.holder[l := None]);
    ConservedSame(s, s1);
    PlacedSame(s, s1);
    hide Placed, Conserved;
    forall t | t in s1.runq || t in s1.sleepers
      ensures Parked(s1, t) && (t in s1.sleepers ==> On(s1.addr, t, LockAddr(l)) || Asleep(s1, t))
    {
      assert Parked(s, t) && (t in s.sleepers ==> Asleep(s, t));
    }
    WakeKeeps(s1, LockAddr(l));
  }

  // ----- condition variables -----

  lemma WaitKeeps(s: State, c: nat, l: nat)
    requires Core(s) && s.cur.Some? && l in s.holder && s.holder[l] == s.cur
    ensures Inv(DoWait(s, c, l))
  {
    ReleaseKeeps(s, l);
    hide Core;
    SleepKeeps(DoRelease(s, l), CvAddr(c), InWait(c, l));
  }

  lemma SignalPlaced(s: State, c: nat)
    requires Placed(s) && s.sleepers != []
    ensures Placed(DoSignal(s, c)) && Everyone(DoSignal(s, c)) == Everyone(s)
  {
    var t := s.sleepers[0];
    assert s.sleepers == [t] + s.sleepers[1..];
    assert multiset(s.sleepers) == multiset{t} + multiset(s.sleepers[1..]);
    assert multiset(s.runq + [t]) == multiset(s.runq) + multiset{t};
    assert Everyone(DoSignal(s, c)) == Everyone(s);
  }

  lemma SignalKeeps(s: State, c: nat)
    requires Core(s) && s.sleepers != []
    ensures Core(DoSignal(s, c))
  {
    hide Placed, Conserved;
    var s' := DoSignal(s, c);
    ConservedSame(s, s');
    SignalPlaced(s, c);
    forall t | t in s'.runq || t in s'.sleepers
      ensures Parked(s', t) && (t in s'.sleepers ==> Asleep(s', t))
    {
      assert t in s.runq || t in s.sleepers;
      assert Parked(s, t) && (t in s.sleepers ==> Asleep(s, t));
    }
  }

  // ----- the life of threads -----

  lemma ForkKeeps(s: State, t: nat)
    requires Inv(s) && t !in Everyone(s)
    ensures Inv(DoFork(s, t))
  {
    hide Placed, Conserved, Everyone;
    var s' := DoFork(s, t);
    ConservedSame(s, s');
    ForkPlaced(s, t);
    forall u | u in s'.runq || u in s'.sleepers
      ensures Parked(s', u) && (u in s'.sleepers ==> Asleep(s', u))
    {
      if u != t {
        assert u in s.runq || u in s.sleepers;
        assert Parked(s, u) && (u in s.sleepers ==> Asleep(s, u));
      }
    }
  }

  lemma ForkPlaced(s: State, t: nat)
    requires Placed(s) && t !in Everyone(s)
    ensures Placed(DoFork(s, t)) && t !in s.sleepers && t !in s.runq && s.cur != Some(t)
  {
    var s' := DoFork(s, t);
    assert Everyone(s') == Everyone(s) + multiset{t};
    assert t in s.runq ==> t in multiset(s.runq);
    assert t in s.sleepers ==> t in multiset(s.sleepers);
  }

  lemma ExitKeeps(s: State)
    requires Inv(s) && s.cur.Some?
    ensures Inv(DoExit(s))
  {
    hide Placed, Conserved, Everyone;
    var s' := DoExit(s);
    ConservedSame(s, s');
    ExitPlaced(s);
    forall u | u in s'.runq || u in s'.sleepers
      ensures Parked(s', u) && (u in s'.sleepers ==> Asleep(s', u))
    {
      assert Parked(s, u) && (u in s.sleepers ==> Asleep(s, u));
    }
  }

  lemma ExitPlaced(s: State)
    requires Placed(s) && s.cur.Some?
    ensures Placed(DoExit(s))
  {
    assert Everyone(DoExit(s)) == Everyone(s);
  }

  lemma YieldKeeps(s: State)
    requires Inv(s) && s.cur.Some?
    ensures Inv(DoYield(s))
  {
    CurrentApart(s);
    hide Placed, Conserved, Everyone;
    var s' := DoYield(s);
    ConservedSame(s, s');
    YieldPlaced(s);
    forall u | u in s'.runq || u in s'.sleepers
      ensures Parked(s', u) && (u in s'.sleepers ==> Asleep(s', u))
    {
      if u != s.cur.value {
        assert u in s.runq || u in s.sleepers;
        assert Parked(s, u) && (u in s.sleepers ==> Asleep(s, u));
      }
    }
  }

  lemma YieldPlaced(s: State)
    requires Placed(s) && s.cur.Some?
    ensures Placed(DoYield(s))
  {
    assert Everyone(DoYield(s)) == Everyone(s);
  }

  // ----- the scheduler -----

  lemma PickedPlaced(s: State)
    requires Placed(s) && s.cur.None? && s.runq != [] && s.runq[0] in s.pc
    ensures Placed(Picked(s))
  {
    var t, s' := s.runq[0], Picked(s);
    assert s.runq == [t] + s.runq[1..];
    assert multiset(s.runq) == multiset{t} + multiset(s.runq[1..]);
    forall u
      ensures Everyone(s')[u] <= 1
    {
      assert Everyone(s')[u] <= Everyone(s)[u] <= 1;
    }
  }

  lemma PickedCore(s: State)
    requires Core(s) && s.cur.None? && s.runq != []
    ensures s.runq[0] in s.pc && Core(Picked(s)) && Parked(s, s.runq[0])
  {
    hide Placed, Conserved, Everyone;
    assert Parked(s, s.runq[0]);
    var s' := Picked(s);
    ConservedSame(s, s');
    PickedPlaced(s);
    forall u | u in s'.runq || u in s'.sleepers
      ensures Parked(s', u) && (u in s'.sleepers ==> Asleep(s', u))
    {
      assert u in s.runq || u in s.sleepers;
      assert Parked(s, u) && (u in s.sleepers ==> Asleep(s, u));
    }
  }

  /** Clearing the sleep address of the current thread, or setting its place, touches no one else. */
  lemma CurrentOnly(s: State, s': State)
    requires Core(s) && s.cur.Some? && s' == s.(addr := s'.addr, pc := s'.pc)
    requires forall u :: u != s.cur.value ==> (u in s.addr ==> u in s'.addr && s'.addr[u] == s.addr[u])
    requires forall u :: u != s.cur.value ==> (u in s.pc ==> u in s'.pc && s'.pc[u] == s.pc[u])
    ensures Core(s')
  {
    CurrentApart(s);
    hide Placed, Conserved, Everyone;
    ConservedSame(s, s');
    PlacedSame(s, s');
    forall u | u in s'.runq || u in s'.sleepers
      ensures Parked(s', u) && (u in s'.sleepers ==> Asleep(s', u))
    {
      assert Parked(s, u) && (u in s.sleepers ==> Asleep(s, u));
    }
  }

  /** A thread taken from the run queue can go on: what it needs exists, and it holds no lock it is about to take. */
  ghost predicate CanGoOn(s: State)
  {
    s.cur.Some? && Parked(s, s.cur.value) && s.count.Keys == s.ps.Keys
  }

  lemma ResumedKeeps(s: State)
    requires Core(s) && CanGoOn(s)
    ensures Inv(Resumed(s))
  {
    hide Core, Conserved, Wake;
    var t := s.cur.value;
    var woken, started := s.(addr := s.addr - {t}), s.(pc := s.pc[t := Running]);
    CurrentOnly(s, woken);
    CurrentOnly(s, started);
    match s.pc[t]
    case InP(x) => PKeeps(woken, x);
    case InAcquire(l) => AcquireKeeps(woken, l);
    case InWait(c, l) =>
      WakeSpurious(woken, LockAddr(l));
      WakeSame(woken, LockAddr(l));
      AcquireKeeps(Wake(woken, LockAddr(l)), l);
    case New =>
    case InYield =>
  }

  lemma WakeSame(s: State, a: Addr)
    ensures var s' := Wake(s, a); s'.cur == s.cur && s'.holder == s.holder && s'.pc == s.pc && s'.addr == s.addr
  {
  }

  /** mi_switch from the scheduler on: the thread at the head of the run queue goes on with what it was in. */
  function DoDispatch(s: State): State
    requires s.cur.None? && s.runq != [] && Parked(s, s.runq[0]) && s.count.Keys == s.ps.Keys
  {
    Resumed(Picked(s))
  }

  lemma DispatchKeeps(s: State)
    requires Inv(s) && s.cur.None? && s.runq != []
    ensures Parked(s, s.runq[0]) && s.count.Keys == s.ps.Keys && Inv(DoDispatch(s))
  {
    PickedCore(s);
    hide Placed, Resumed;
    ResumedKeeps(Picked(s));
  }
}
