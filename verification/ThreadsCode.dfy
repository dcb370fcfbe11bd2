/**
 The code of the thread system and of the synchronization primitives, each
 method one step of the state machine (kern/thread/thread.c, kern/thread/synch.c).
 Loops around thread_sleep are cut at the switch: Switch is where a thread goes
 round again.
 */
module ThreadsCode {
  import opened Options
  import opened Threads
  import opened ThreadsProof
  import opened ThreadsRuns

  lemma {:induction false} WaitingAppend(ts: seq<nat>, t: nat, addr: map<nat, Addr>, a: Addr)
    ensures Waiting(ts + [t], addr, a) == Waiting(ts, addr, a) + if On(addr, t, a) then [t] else []
  {
    hide On;
    if ts == [] {
      assert [] + [t] == [t];
    } else {
      WaitingAppend(ts[1..], t, addr, a);
      assert (ts + [t])[1..] == ts[1..] + [t];
    }
  }

  lemma {:induction false} NotWaitingAppend(ts: seq<nat>, t: nat, addr: map<nat, Addr>, a: Addr)
    ensures NotWaiting(ts + [t], addr, a) == NotWaiting(ts, addr, a) + if On(addr, t, a) then [] else [t]
  {
    hide On;
    if ts == [] {
      assert [] + [t] == [t];
    } else {
      NotWaitingAppend(ts[1..], t, addr, a);
      assert (ts + [t])[1..] == ts[1..] + [t];
    }
  }

  lemma WakeNone(addr: map<nat, Addr>, a: Addr)
    ensures Waiting([], addr, a) == [] && NotWaiting([], addr, a) == []
  {
  }

  /** Taking out the i-th element, or stepping over it, leaves the same rest. */
  lemma Rest(ts: seq<nat>, i: nat, o: seq<nat>, k: nat)
    requires i < |ts| && k <= |o| && ts[i..] == o[k..]
    ensures k < |o| && ts[i] == o[k] && ts[i + 1..] == o[k + 1..] && o[..k + 1] == o[..k] + [ts[i]]
    ensures (ts[..i] + ts[i + 1..])[i..] == o[k + 1..] && (ts[..i] + ts[i + 1..])[..i] == ts[..i]
            && ts[..i + 1] == ts[..i] + [ts[i]]
  {
    assert ts[i] == ts[i..][0];
    assert ts[i + 1..] == ts[i..][1..];
  }

  class Kernel {
    var curthread: Option<nat>
    var runqueue: seq<nat>
    var sleepers: seq<nat>
    var zombies: seq<nat>
    var numthreads: int
    var sleepaddr: map<nat, Addr>
    var count: map<nat, nat>
    var holder: map<nat, Option<nat>>
    var pc: map<nat, Pc>
    ghost var init: map<nat, nat>
    ghost var vs: map<nat, nat>
    ghost var ps: map<nat, nat>

    ghost function St(): State
      reads this
    {
      State(curthread, runqueue, sleepers, zombies, numthreads, sleepaddr, pc, count, holder, init, vs, ps)
    }

    /** thread_bootstrap, with the semaphores and locks that are to exist. */
    constructor (counts: map<nat, nat>, locks: set<nat>)
      ensures St() == Boot(counts, locks) && Inv(St())
    {
      curthread, runqueue, sleepers, zombies, numthreads := Some(0), [], [], [], 1;
      sleepaddr, pc := map[], map[0 := Running];
      count, holder := counts, map l | l in locks :: None;
      init, vs, ps := counts, map x | x in counts :: 0, map x | x in counts :: 0;
      BootInv(counts, locks);
    }

    method MakeRunnable(t: nat)
      modifies this`runqueue
      ensures runqueue == old(runqueue) + [t]
    {
      runqueue := runqueue + [t];
    }

    /** thread_wakeup: the loop takes sleepers out of the array it is going through. */
    method ThreadWakeup(a: Addr)
      modifies this`sleepers, this`runqueue
      ensures St() == Wake(old(St()), a)
    {
      hide Waiting, NotWaiting, On;
      ghost var o, k := sleepers, 0;
      WakeNone(sleepaddr, a);
      var i := 0;
      while i < |sleepers|
        invariant 0 <= i <= |sleepers| && 0 <= k <= |o| && sleepers[i..] == o[k..]
        invariant sleepers[..i] == NotWaiting(o[..k], sleepaddr, a)
        invariant runqueue == old(runqueue) + Waiting(o[..k], sleepaddr, a)
        decreases |o| - k
      {
        var t := sleepers[i];
        Rest(sleepers, i, o, k);
        WaitingAppend(o[..k], t, sleepaddr, a);
        NotWaitingAppend(o[..k], t, sleepaddr, a);
        if On(sleepaddr, t, a) {
          sleepers := sleepers[..i] + sleepers[i + 1..];
          MakeRunnable(t);
        } else {
          i := i + 1;
        }
        k := k + 1;
      }
      assert o[..k] == o && sleepers[..i] == sleepers;
    }

    /** thread_wakeup_one. */
    method ThreadWakeupOne(a: Addr)
      requires sleepers != []
      modifies this`sleepers, this`runqueue
      ensures if On(sleepaddr, old(sleepers)[0], a)
              then runqueue == old(runqueue) + [old(sleepers)[0]] && sleepers == old(sleepers)[1..]
              else runqueue == old(runqueue) && sleepers == old(sleepers)
    {
      var t := sleepers[0];
      if On(sleepaddr, t, a) {
        sleepers := sleepers[1..];
        MakeRunnable(t);
      }
    }

    /** thread_sleep up to the switch; p is where the thread will go on. */
    method ThreadSleep(a: Addr, p: Pc)
      requires curthread.Some?
      modifies this`curthread, this`sleepers, this`sleepaddr, this`pc
      ensures St() == Sleep(old(St()), a, p)
    {
      var t := curthread.value;
      sleepaddr, pc := sleepaddr[t := a], pc[t := p];
      curthread := None;
      sleepers := sleepers + [t];
    }

    /** The loop of P, from a test of the count to the next switch or to its end. */
    method TryP(x: nat)
      requires curthread.Some? && x in count && x in ps
      modifies this
      ensures St() == DoP(old(St()), x)
    {
      if count[x] == 0 {
        ThreadSleep(SemAddr(x), InP(x));
      } else {
        count := count[x := count[x] - 1];
        pc := pc[curthread.value := Running];
        ps := ps[x := ps[x] + 1];
      }
    }

    method P(x: nat)
      requires Inv(St()) && Enabled(St(), OpP(x))
      modifies this
      ensures St() == Step(old(St()), OpP(x)) && Inv(St())
    {
      Ready(St());
      StepKeeps(St(), OpP(x));
      TryP(x);
    }

    method V(x: nat)
      requires Inv(St()) && Enabled(St(), OpV(x))
      modifies this
      ensures St() == Step(old(St()), OpV(x)) && Inv(St())
    {
      hide Inv, Waiting, NotWaiting;
      Ready(St());
      StepKeeps(St(), OpV(x));
      count := count[x := count[x] + 1];
      vs := vs[x := vs[x] + 1];
      ThreadWakeup(SemAddr(x));
    }

    /** The loop of lock_acquire, from a test of the holder to the next switch or to its end. */
    method TryAcquire(l: nat)
      requires curthread.Some? && l in holder
      modifies this
      ensures St() == DoAcquire(old(St()), l)
    {
      if holder[l] != None {
        ThreadSleep(LockAddr(l), InAcquire(l));
      } else {
        holder := holder[l := curthread];
        pc := pc[curthread.value := Running];
      }
    }

    method LockAcquire(l: nat)
      requires Inv(St()) && Enabled(St(), OpAcquire(l))
      modifies this
      ensures St() == Step(old(St()), OpAcquire(l)) && Inv(St())
    {
      StepKeeps(St(), OpAcquire(l));
      TryAcquire(l);
    }

    method LockRelease(l: nat)
      requires Inv(St()) && Enabled(St(), OpRelease(l))
      modifies this
      ensures St() == Step(old(St()), OpRelease(l)) && Inv(St())
    {
      StepKeeps(St(), OpRelease(l));
      holder := holder[l := None];
      ThreadWakeup(LockAddr(l));
    }

    method CvWait(c: nat, l: nat)
      requires Inv(St()) && Enabled(St(), OpWait(c, l))
      modifies this
      ensures St() == Step(old(St()), OpWait(c, l)) && Inv(St())
    {
      StepKeeps(St(), OpWait(c, l));
      holder := holder[l := None];
      ThreadWakeup(LockAddr(l));
      ThreadSleep(CvAddr(c), InWait(c, l));
    }

    method CvSignal(c: nat, l: nat)
      requires Inv(St()) && Enabled(St(), OpSignal(c, l))
      modifies this
      ensures St() == Step(old(St()), OpSignal(c, l)) && Inv(St())
    {
      StepKeeps(St(), OpSignal(c, l));
      ThreadWakeupOne(CvAddr(c));
    }

    method CvBroadcast(c: nat, l: nat)
      requires Inv(St()) && Enabled(St(), OpBroadcast(c, l))
      modifies this
      ensures St() == Step(old(St()), OpBroadcast(c, l)) && Inv(St())
    {
      StepKeeps(St(), OpBroadcast(c, l));
      ThreadWakeup(CvAddr(c));
    }

    /** thread_fork, once memory for the thread is there. */
    method ThreadFork(t: nat)
      requires Inv(St()) && Enabled(St(), OpFork(t))
      modifies this
      ensures St() == Step(old(St()), OpFork(t)) && Inv(St())
    {
      hide Inv, Everyone;
      StepKeeps(St(), OpFork(t));
      pc, sleepaddr := pc[t := New], sleepaddr - {t};
      MakeRunnable(t);
      numthreads := numthreads + 1;
    }

    /** thread_exit up to the switch. */
    method ThreadExit()
      requires Inv(St()) && Enabled(St(), OpExit)
      modifies this
      ensures St() == Step(old(St()), OpExit) && Inv(St())
    {
      StepKeeps(St(), OpExit);
      numthreads := numthreads - 1;
      var t := curthread.value;
      curthread := None;
      zombies := zombies + [t];
    }

    /** thread_yield up to the switch. */
    method ThreadYield()
      requires Inv(St()) && Enabled(St(), OpYield)
      modifies this
      ensures St() == Step(old(St()), OpYield) && Inv(St())
    {
      StepKeeps(St(), OpYield);
      var t := curthread.value;
      curthread, pc := None, pc[t := InYield];
      MakeRunnable(t);
    }

    /** mi_switch from the scheduler on, and what the thread switched to does before it can be interrupted. */
    method Switch()
      requires Inv(St()) && Enabled(St(), OpDispatch)
      modifies this
      ensures St() == Step(old(St()), OpDispatch) && Inv(St())
    {
      hide Inv, Waiting, NotWaiting;
      Ready(St());
      StepKeeps(St(), OpDispatch);
      PickedCoreOf(St());
      var t := runqueue[0];
      runqueue := runqueue[1..];
      curthread := Some(t);
      if pc[t] != New {
        zombies := [];
      }
      assert St() == Picked(old(St()));
      Continue(t);
    }

    method Continue(t: nat)
      requires curthread == Some(t) && CanGoOn(St())
      modifies this
      ensures St() == Resumed(old(St()))
    {
      hide Waiting, NotWaiting;
      match pc[t] {
        case InP(x) =>
          sleepaddr := sleepaddr - {t};
          TryP(x);
        case InAcquire(l) =>
          sleepaddr := sleepaddr - {t};
          TryAcquire(l);
        case InWait(c, l) =>
          sleepaddr := sleepaddr - {t};
          ThreadWakeup(LockAddr(l));
          TryAcquire(l);
        case New => pc := pc[t := Running];
        case InYield => pc := pc[t := Running];
      }
    }
  }

  lemma PickedCoreOf(s: State)
    requires Inv(s) && s.cur.None? && s.runq != []
    ensures s.runq[0] in s.pc && CanGoOn(Picked(s))
  {
    PickedCore(s);
  }
}
