/**
 The growing ring buffer behind the run queue, and the order it dispatches in
 (kern/lib/queue.c, kern/thread/scheduler.c).
 */
module Queue {
  const MAXSIZE := 0x4000_0000

  function Wrap(i: nat, size: nat): nat
  {
    if i < size then i else if i < 2 * size then i - size else 0
  }

  /** Indices never run more than one turn ahead. */
  lemma ModWrap(i: nat, size: nat)
    requires size > 0 && i < 2 * size
    ensures i % size == Wrap(i, size)
  {
    if i >= size {
      assert i == size * 1 + (i - size);
    }
  }

  /** The place after i in a ring. */
  function Next(i: nat, size: nat): (j: nat)
    requires i < size
    ensures j == Wrap(i + 1, size)
  {
    ModWrap(i + 1, size);
    (i + 1) % size
  }

  /** A size doubled until it reaches the target. */
  function DoubledTo(size: nat, target: nat): (n: nat)
    requires size > 0
    ensures n >= target && n >= size && (size < target ==> n < 2 * target)
    decreases if size < target then target - size else 0
  {
    if size >= target then size else DoubledTo(2 * size, target)
  }

  /** q_grow's search for a new size. */
  method Enlarged(size: nat, target: nat) returns (n: nat)
    requires size > 0
    ensures n == DoubledTo(size, target)
  {
    n := size;
    while n < target
      invariant size <= n && DoubledTo(n, target) == DoubledTo(size, target)
      decreases target - n
    {
      n := n * 2;
    }
  }

  class Queue<T(0)> {
    var size: nat
    var nextwrite: nat
    var nextread: nat
    var data: array<T>

    ghost predicate Valid()
      reads this, data
    {
      0 < size <= MAXSIZE && data.Length == size && nextwrite < size && nextread < size
    }

    ghost function Count(): nat
      requires Valid()
      reads this, data
    {
      if nextread <= nextwrite then nextwrite - nextread else nextwrite + size - nextread
    }

    /** What is in the queue, oldest first. */
    ghost function Contents(): (c: seq<T>)
      requires Valid()
      reads this, data
      ensures |c| == Count() < size && forall k :: 0 <= k < |c| ==> c[k] == data[Wrap(nextread + k, size)]
    {
      seq(Count(), k requires Valid() && 0 <= k < Count() reads this, data => data[Wrap(nextread + k, size)])
    }

    /** The ring keeps one place empty. */
    ghost predicate Full()
      requires Valid()
      reads this, data
    {
      Count() == size - 1
    }

    constructor (n: nat)
      requires 0 < n <= MAXSIZE
      ensures Valid() && Contents() == [] && size == n && fresh(data)
    {
      size, nextread, nextwrite := n, 0, 0;
      data := new T[n];
    }

    method Empty() returns (e: bool)
      requires Valid()
      ensures e <==> Contents() == []
    {
      e := nextwrite == nextread;
    }

    /**
     q_addtail. It fails only when the ring is full and memory for a bigger one
     is not to be had; then nothing has changed.
     */
    method AddTail(x: T, oom: bool) returns (ok: bool)
      requires Valid() && (Full() ==> size < MAXSIZE / 2)
      modifies this, data
      ensures Valid() && (ok <==> !(old(Full()) && oom))
      ensures ok ==> Contents() == old(Contents()) + [x]
      ensures !ok ==> Contents() == old(Contents()) && size == old(size)
      ensures !old(Full()) ==> data == old(data) && size == old(size)
      ensures data == old(data) || fresh(data)
      decreases if Full() then 3 else 0
    {
      hide Next;
      if Next(nextwrite, size) == nextread {
        ok := Grow(size + 1, oom);
        if !ok {
          return;
        }
      }
      Put(x);
      ok := true;
    }

    method Put(x: T)
      requires Valid() && !Full()
      modifies this`nextwrite, data
      ensures Valid() && Contents() == old(Contents()) + [x]
    {
      hide Next;
      ghost var c := Contents();
      assert Wrap(nextread + Count(), size) == nextwrite;
      data[nextwrite] := x;
      nextwrite := Next(nextwrite, size);
      assert Contents() == c + [x];
    }

    /** q_grow: a ring of at least the target size with the same contents. */
    method Grow(target: nat, oom: bool) returns (ok: bool)
      requires Valid() && size < target <= MAXSIZE / 2
      modifies this, data
      ensures Valid() && ok == !oom && Contents() == old(Contents())
      ensures ok ==> size == DoubledTo(old(size), target) && fresh(data)
      ensures !ok ==> size == old(size) && data == old(data)
      decreases 2
    {
      hide Next, DoubledTo;
      var olddata, onr, onw := data, nextread, nextwrite;
      ghost var c := Contents();
      var nsize := Enlarged(size, target);
      if oom {
        return false;
      }
      size, nextread, nextwrite := nsize, 0, 0;
      data := new T[nsize];
      Refill(olddata, onr, onw, oom, c);
      ok := true;
    }

    /** Adds what another ring holds to an empty one with room for it: the ring is never grown again. */
    method Refill(from: array<T>, onr: nat, onw: nat, oom: bool, ghost c: seq<T>)
      requires Valid() && Contents() == [] && from != data && onr < from.Length && onw < from.Length
      requires |c| < size && |c| == (if onr <= onw then onw - onr else onw + from.Length - onr)
      requires forall j :: 0 <= j < |c| ==> c[j] == from[Wrap(onr + j, from.Length)]
      modifies this, data
      ensures Valid() && Contents() == c && size == old(size) && data == old(data)
      decreases 1
    {
      hide Next;
      var i := onr;
      ghost var k := 0;
      while i != onw
        invariant Valid() && size == old(size) && data == old(data)
        invariant 0 <= k <= |c| && i == Wrap(onr + k, from.Length) && Contents() == c[..k]
        decreases |c| - k
      {
        assert k < |c|;
        assert c[..k + 1] == c[..k] + [from[i]];
        var r := AddTail(from[i], oom);
        i, k := Next(i, from.Length), k + 1;
      }
      assert k == |c|;
      assert c[..k] == c;
    }

    /** q_preallocate. */
    method Preallocate(n: nat, oom: bool) returns (ok: bool)
      requires Valid() && n <= MAXSIZE / 2
      modifies this, data
      ensures Valid() && Contents() == old(Contents()) && (ok <==> n <= old(size) || !oom)
      ensures ok ==> size == DoubledTo(old(size), n) && (data == old(data) || fresh(data))
      ensures n <= old(size) || !ok ==> size == old(size) && data == old(data)
    {
      ok := true;
      if n > size {
        ok := Grow(n, oom);
      }
    }

    /** q_remhead. */
    method RemHead() returns (x: T)
      requires Valid() && Contents() != []
      modifies this
      ensures Valid() && x == old(Contents())[0] && Contents() == old(Contents())[1..] && data == old(data)
              && size == old(size)
    {
      ghost var c := Contents();
      x := data[nextread];
      nextread := Next(nextread, size);
      assert Contents() == c[1..];
    }
  }

  // ----- the scheduler -----

  /** make_runnable, or a call of the scheduler. */
  datatype Event<T> = Runnable(thread: T) | Pick

  /** Every pick finds a thread. */
  predicate Legal<T>(q: seq<T>, es: seq<Event<T>>)
    decreases |es|
  {
    es == [] || (match es[0] case Runnable(t) => Legal(q + [t], es[1..]) case Pick => q != [] && Legal(q[1..], es[1..]))
  }

  /** The threads dispatched, in order. */
  function Dispatched<T>(q: seq<T>, es: seq<Event<T>>): seq<T>
    requires Legal(q, es)
    decreases |es|
  {
    if es == [] then [] else match es[0]
      case Runnable(t) => Dispatched(q + [t], es[1..])
      case Pick => [q[0]] + Dispatched(q[1..], es[1..])
  }

  /** The threads made runnable, in order. */
  function Added<T>(es: seq<Event<T>>): seq<T>
  {
    if es == [] then [] else match es[0] case Runnable(t) => [t] + Added(es[1..]) case Pick => Added(es[1..])
  }

  function Picks<T>(es: seq<Event<T>>): nat
  {
    if es == [] then 0 else match es[0] case Runnable(_) => Picks(es[1..]) case Pick => 1 + Picks(es[1..])
  }

  /** Threads are dispatched exactly in the order they became runnable. */
  lemma {:induction false} FirstInFirstOut<T>(q: seq<T>, es: seq<Event<T>>)
    requires Legal(q, es)
    ensures Picks(es) <= |q + Added(es)| && Dispatched(q, es) == (q + Added(es))[..Picks(es)]
    decreases |es|
  {
    if es != [] {
      match es[0]
      case Runnable(t) =>
        FirstInFirstOut(q + [t], es[1..]);
        assert q + [t] + Added(es[1..]) == q + Added(es);
      case Pick =>
        FirstInFirstOut(q[1..], es[1..]);
        assert q[1..] + Added(es[1..]) == (q + Added(es))[1..];
    }
  }

  /** A thread at place k is dispatched by the pick number k + 1, whatever becomes runnable meanwhile. */
  lemma PositionIsTurn<T>(q: seq<T>, es: seq<Event<T>>, k: nat)
    requires Legal(q, es) && k < |q| && k < Picks(es)
    ensures k < |Dispatched(q, es)| && Dispatched(q, es)[k] == q[k]
  {
    FirstInFirstOut(q, es);
  }

  // ----- room for the run queue -----

  /** make_runnable on one thread after another when no memory is to be had. */
  method AddAll<T(0)>(q: Queue<T>, xs: seq<T>) returns (added: nat)
    requires q.Valid() && q.size < MAXSIZE / 2
    modifies q, q.data
    ensures q.Valid() && q.size == old(q.size) && added <= |xs| && q.Contents() == old(q.Contents()) + xs[..added]
    ensures added == |xs| <==> |old(q.Contents())| + |xs| < q.size
    ensures added < |xs| ==> |q.Contents()| == q.size - 1
  {
    added := 0;
    while added < |xs|
      invariant q.Valid() && q.size == old(q.size) && q.data == old(q.data) && added <= |xs|
      invariant q.Contents() == old(q.Contents()) + xs[..added]
    {
      ghost var c := q.Contents();
      var ok := q.AddTail(xs[added], true);
      if !ok {
        return;
      }
      assert xs[..added + 1] == xs[..added] + [xs[added]];
      added := added + 1;
    }
  }

  /** The size scheduler_bootstrap gives the run queue. */
  const FIRST := 32

  /** The run queue as n - 1 calls of thread_fork leave it, each preallocating for one thread more than there are. */
  method Forked<T(0)>(n: nat) returns (q: Queue<T>)
    requires 1 <= n <= MAXSIZE / 4
    ensures fresh(q) && fresh(q.data) && q.Valid() && q.Contents() == [] && q.size == DoubledTo(FIRST, n)
  {
    q := new Queue(FIRST);
    for i := 1 to n
      invariant fresh(q) && fresh(q.data) && q.Valid() && q.Contents() == [] && q.size == DoubledTo(FIRST, i)
    {
      DoubledOn(FIRST, i);
      var _ := q.Preallocate(i + 1, false);
    }
  }

  lemma {:induction false} DoubledOn(size: nat, i: nat)
    requires size > 0
    ensures DoubledTo(DoubledTo(size, i), i + 1) == DoubledTo(size, i + 1)
    decreases if size < i then i - size else 0
  {
    if size < i {
      DoubledOn(2 * size, i);
    }
  }

  /**
   When all n threads are runnable at once, the preallocated ring takes them
   without more memory if and only if n is not the very number of its places.
   */
  method EveryoneRunnable<T(0)>(threads: seq<T>) returns (added: nat)
    requires 1 <= |threads| <= MAXSIZE / 4 - 1
    ensures added == if DoubledTo(FIRST, |threads|) != |threads| then |threads| else |threads| - 1
  {
    var q := Forked<T>(|threads|);
    added := AddAll(q, threads);
  }

  /** A size doubled j times. */
  function Doubled(size: nat, j: nat): (n: nat)
    ensures n >= size && (j > 0 ==> n >= 2 * size)
    decreases j
  {
    if j == 0 then size else Doubled(2 * size, j - 1)
  }

  /** That is when n is the first size doubled some number of times. */
  lemma {:induction false} ExactlyFull(size: nat, n: nat)
    requires size > 0
    ensures DoubledTo(size, n) == n <==> exists j: nat :: Doubled(size, j) == n
    decreases if size < n then n - size else 0
  {
    if size < n {
      ExactlyFull(2 * size, n);
      if j: nat :| Doubled(2 * size, j) == n {
        assert Doubled(size, j + 1) == n;
      }
      if j: nat :| Doubled(size, j) == n {
        assert j > 0;
        assert Doubled(2 * size, j - 1) == n;
      }
    } else if size == n {
      assert Doubled(size, 0) == n;
    } else {
      assert forall j: nat :: Doubled(size, j) >= size;
    }
  }

  /** Thirty-two threads fill the first ring: the last of them finds no place. */
  method LastOfThirtyTwo(threads: seq<nat>) returns (added: nat)
    requires |threads| == 32
    ensures added == 31
  {
    assert DoubledTo(FIRST, 32) == 32;
    added := EveryoneRunnable(threads);
  }
}
