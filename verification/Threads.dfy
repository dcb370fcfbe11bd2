/**
 The thread system and its synchronization primitives as a state machine
 (kern/thread/thread.c, kern/thread/synch.c, kern/thread/scheduler.c). One step
 is what runs with interrupts off up to the next point where they may come on
 or another thread is switched to.
 */
module Threads {
  import opened Options

  /** What a thread sleeps on: the address of a semaphore, a lock or a condition variable. */
  datatype Addr = SemAddr(sem: nat) | LockAddr(lock: nat) | CvAddr(cv: nat)

  /**
   Where a thread is: running ordinary code, not yet started, in thread_yield,
   or inside a primitive it will go on with.
   */
  datatype Pc = Running | New | InYield | InP(sem: nat) | InAcquire(lock: nat) | InWait(cv: nat, lock: nat)

  /**
   The globals of thread.c and scheduler.c, each thread's sleep address (absent
   when null), each semaphore's count and each lock's holder. pc is the control
   state of the threads; init, vs and ps record what each semaphore started
   with and how many V and P calls have completed on it.
   */
  datatype State = State(
    cur: Option<nat>, runq: seq<nat>, sleepers: seq<nat>, zombies: seq<nat>, numthreads: int,
    addr: map<nat, Addr>, pc: map<nat, Pc>,
    count: map<nat, nat>, holder: map<nat, Option<nat>>,
    init: map<nat, nat>, vs: map<nat, nat>, ps: map<nat, nat>)

  predicate On(addr: map<nat, Addr>, t: nat, a: Addr)
  {
    t in addr && addr[t] == a
  }

  /** The threads of ts that sleep on a, in order. */
  function Waiting(ts: seq<nat>, addr: map<nat, Addr>, a: Addr): seq<nat>
  {
    if ts == [] then [] else (if On(addr, ts[0], a) then [ts[0]] else []) + Waiting(ts[1..], addr, a)
  }

  /** The threads of ts that do not, in order. */
  function NotWaiting(ts: seq<nat>, addr: map<nat, Addr>, a: Addr): seq<nat>
  {
    if ts == [] then [] else (if On(addr, ts[0], a) then [] else [ts[0]]) + NotWaiting(ts[1..], addr, a)
  }

  /** Waking sorts the sleepers into two groups and loses none. */
  lemma {:induction false} WakeSplits(ts: seq<nat>, addr: map<nat, Addr>, a: Addr)
    ensures multiset(Waiting(ts, addr, a)) + multiset(NotWaiting(ts, addr, a)) == multiset(ts)
    ensures |Waiting(ts, addr, a)| + |NotWaiting(ts, addr, a)| == |ts|
  {
    if ts != [] {
      hide On;
      WakeSplits(ts[1..], addr, a);
      assert ts == [ts[0]] + ts[1..];
    }
  }

  lemma {:induction false} WakeSorts(ts: seq<nat>, addr: map<nat, Addr>, a: Addr, t: nat)
    ensures t in Waiting(ts, addr, a) <==> t in ts && On(addr, t, a)
    ensures t in NotWaiting(ts, addr, a) <==> t in ts && !On(addr, t, a)
  {
    if ts != [] {
      WakeSorts(ts[1..], addr, a, t);
      assert ts == [ts[0]] + ts[1..];
    }
  }

  /** Those woken, and those not, keep the order they slept in. */
  lemma {:induction false} WakeOrder(ts: seq<nat>, addr: map<nat, Addr>, a: Addr, i: nat, j: nat)
    requires i < j < |ts|
    ensures On(addr, ts[i], a) && On(addr, ts[j], a) ==> Ordered(Waiting(ts, addr, a), ts[i], ts[j])
    ensures !On(addr, ts[i], a) && !On(addr, ts[j], a) ==> Ordered(NotWaiting(ts, addr, a), ts[i], ts[j])
  {
    hide On, Ordered;
    var w, n := Waiting(ts[1..], addr, a), NotWaiting(ts[1..], addr, a);
    if i > 0 {
      WakeOrder(ts[1..], addr, a, i - 1, j - 1);
      if On(addr, ts[i], a)
          && On(addr, ts[j], a) { OrderedAfter(if On(addr, ts[0], a) then [ts[0]] else [], w, ts[i], ts[j]); }
      if !On(addr, ts[i], a) && !On(addr, ts[j], a) {
        OrderedAfter(if On(addr, ts[0], a) then [] else [ts[0]], n, ts[i], ts[j]);
      }
    } else {
      assert ts[j] in ts[1..] by { assert ts[1..][j - 1] == ts[j]; }
      WakeSorts(ts[1..], addr, a, ts[j]);
      if On(addr, ts[0], a) && On(addr, ts[j], a) { OrderedFirst(w, ts[0], ts[j]); }
      if !On(addr, ts[0], a) && !On(addr, ts[j], a) { OrderedFirst(n, ts[0], ts[j]); }
    }
  }

  /** t is in q somewhere before u. */
  ghost predicate Ordered(q: seq<nat>, t: nat, u: nat)
  {
    exists i, j :: 0 <= i < j < |q| && q[i] == t && q[j] == u
  }

  lemma OrderedAfter(p: seq<nat>, q: seq<nat>, t: nat, u: nat)
    requires Ordered(q, t, u)
    ensures Ordered(p + q, t, u)
  {
    var i, j :| 0 <= i < j < |q| && q[i] == t && q[j] == u;
    assert (p + q)[|p| + i] == t && (p + q)[|p| + j] == u;
  }

  lemma OrderedFirst(q: seq<nat>, t: nat, u: nat)
    requires u in q
    ensures Ordered([t] + q, t, u)
  {
    var j :| 0 <= j < |q| && q[j] == u;
    assert ([t] + q)[0] == t && ([t] + q)[1 + j] == u;
  }

  /** thread_wakeup: every sleeper on a becomes runnable, in order, and no other thread moves. */
  function Wake(s: State, a: Addr): State
  {
    s.(runq := s.runq + Waiting(s.sleepers, s.addr, a), sleepers := NotWaiting(s.sleepers, s.addr, a))
  }

  /** thread_sleep up to the switch. */
  function Sleep(s: State, a: Addr, p: Pc): State
    requires s.cur.Some?
  {
    var t := s.cur.value;
    s.(cur := None, sleepers := s.sleepers + [t], addr := s.addr[t := a], pc := s.pc[t := p])
  }

  // ----- the steps -----

  function DoP(s: State, x: nat): State
    requires s.cur.Some? && x in s.count && x in s.ps
  {
    if s.count[x] == 0 then Sleep(s, SemAddr(x), InP(x))
    else s.(count := s.count[x := s.count[x] - 1], ps := s.ps[x := s.ps[x] + 1], pc := s.pc[s.cur.value := Running])
  }

  function DoV(s: State, x: nat): State
    requires x in s.count && x in s.vs
  {
    Wake(s.(count := s.count[x := s.count[x] + 1], vs := s.vs[x := s.vs[x] + 1]), SemAddr(x))
  }

  function DoAcquire(s: State, l: nat): State
    requires s.cur.Some? && l in s.holder
  {
    if s.holder[l].Some? then Sleep(s, LockAddr(l), InAcquire(l))
    else s.(holder := s.holder[l := s.cur], pc := s.pc[s.cur.value := Running])
  }

  function DoRelease(s: State, l: nat): State
  {
    Wake(s.(holder := s.holder[l := None]), LockAddr(l))
  }

  /** cv_wait up to the switch: the lock is released and the thread asleep in one step. */
  function DoWait(s: State, c: nat, l: nat): State
    requires s.cur.Some?
  {
    Sleep(DoRelease(s, l), CvAddr(c), InWait(c, l))
  }

  /** thread_wakeup_one looks at the first sleeper only. */
  function DoSignal(s: State, c: nat): State
    requires s.sleepers != []
  {
    if On(s.addr, s.sleepers[0], CvAddr(c)) then s.(runq := s.runq + [s.sleepers[0]], sleepers := s.sleepers[1..])
        else s
  }

  function DoBroadcast(s: State, c: nat): State
  {
    Wake(s, CvAddr(c))
  }

  function DoFork(s: State, t: nat): State
  {
    s.(runq := s.runq + [t], numthreads := s.numthreads + 1, pc := s.pc[t := New], addr := s.addr - {t})
  }

  function DoExit(s: State): State
    requires s.cur.Some?
  {
    s.(cur := None, zombies := s.zombies + [s.cur.value], numthreads := s.numthreads - 1)
  }

  function DoYield(s: State): State
    requires s.cur.Some?
  {
    s.(cur := None, runq := s.runq + [s.cur.value], pc := s.pc[s.cur.value := InYield])
  }

  /** The scheduler's pick, and exorcise in a thread that resumes inside mi_switch. */
  function Picked(s: State): State
    requires s.runq != [] && s.runq[0] in s.pc
  {
    s.(cur := Some(s.runq[0]), runq := s.runq[1..], zombies := if s.pc[s.runq[0]] == New then s.zombies else [])
  }

  /** What the thread switched to goes on with before it enables interrupts. */
  function Resumed(s: State): State
    requires s.cur.Some? && s.cur.value in s.pc
    requires match s.pc[s.cur.value] case InP(x) => x in s.count && x in s.ps case InAcquire(l) => l in s.holder
             case InWait(c, l) => l in s.holder case _ => true
  {
    var t := s.cur.value;
    var woken := s.(addr := s.addr - {t});
    match s.pc[t]
    case InP(x) => DoP(woken, x)
    case InAcquire(l) => DoAcquire(woken, l)
    case InWait(c, l) => DoAcquire(Wake(woken, LockAddr(l)), l)
    case _ => s.(pc := s.pc[t := Running])
  }

  // ----- the invariant -----

  /** Every thread, as often as it occurs as current, runnable, asleep or dead. */
  ghost function Everyone(s: State): multiset<nat>
  {
    (if s.cur.Some? then multiset{s.cur.value} else multiset{}) + multiset(s.runq) + multiset(s.sleepers)
        + multiset(s.zombies)
  }

  /** Each thread is in one place only, and numthreads counts those not dead. */
  ghost predicate Placed(s: State)
  {
    && (forall t :: Everyone(s)[t] <= 1)
    && s.numthreads == (if s.cur.Some? then 1 else 0) + |s.runq| + |s.sleepers|
  }

  /** What a sleep address and a place in a primitive have to do with each other. */
  predicate Matches(p: Pc, a: Addr)
  {
    match p
    case InP(x) => a == SemAddr(x)
    case InAcquire(l) => a == LockAddr(l)
    case InWait(c, _) => a == CvAddr(c)
    case _ => false
  }

  /** The reason to sleep on a still holds. */
  ghost predicate Justified(s: State, a: Addr)
  {
    match a
    case SemAddr(x) => x in s.count && s.count[x] == 0
    case LockAddr(l) => l in s.holder && s.holder[l].Some?
    case CvAddr(_) => true
  }

  /** A thread that is not current is inside a primitive on things that exist, and holds no lock it is about to take. */
  ghost predicate Parked(s: State, t: nat)
  {
    && t in s.pc
    && match s.pc[t]
       case Running => false
       case InP(x) => x in s.count
       case InAcquire(l) => l in s.holder && s.holder[l] != Some(t)
       case InWait(_, l) => l in s.holder && s.holder[l] != Some(t)
       case _ => true
  }

  /** A sleeper sleeps where its primitive put it, and has a reason to: no wakeup is lost. */
  ghost predicate Asleep(s: State, t: nat)
  {
    t in s.addr && t in s.pc && Matches(s.pc[t], s.addr[t]) && Justified(s, s.addr[t])
  }

  /** A semaphore's count is what it started with, plus the Vs, less the Ps that completed. */
  ghost predicate Conserved(s: State)
  {
    && s.count.Keys == s.init.Keys == s.vs.Keys == s.ps.Keys
    && forall x :: x in s.count ==> s.count[x] + s.ps[x] == s.init[x] + s.vs[x]
  }

  ghost predicate Core(s: State)
  {
    && Placed(s) && Conserved(s)
    && (forall t :: t in s.runq || t in s.sleepers ==> Parked(s, t))
    && (forall t :: t in s.sleepers ==> Asleep(s, t))
  }

  ghost predicate Inv(s: State)
  {
    Core(s) && (s.cur.Some? ==> s.cur.value in s.pc && s.pc[s.cur.value] == Running)
  }
}
