/** The blocks of each page of the kernel heap, counted (kern/lib/kheap.c). */
module KHeapPartition {
  import opened CoreMap
  import opened KHeapPages
  import opened KHeapModel
  import opened KHeapSteps
  import opened KHeapOwned

  /** The blocks of page p that are in use, as offsets. */
  ghost function LiveOffsets(g: Shadow, p: nat): set<nat>
    requires p in g.page && p in g.kind
  {
    set o: nat | o < PAGE_SIZE && IsOffset(g.kind[p], o) && Addr(g, g.page[p], o) in g.allocs
  }

  ghost function Offsets(t: nat): set<nat>
  {
    set o: nat | o < PAGE_SIZE && IsOffset(t, o)
  }

  ghost function FirstOffsets(t: nat, n: nat): (s: set<nat>)
    requires t < NSIZES
  {
    set k: nat | k < n :: k * Size(t)
  }

  lemma {:induction false} FirstCount(t: nat, n: nat)
    requires t < NSIZES
    ensures |FirstOffsets(t, n)| == n
  {
    hide Size;
    if n > 0 {
      FirstCount(t, n - 1);
      forall k: nat | k < n - 1 ensures k * Size(t) < (n - 1) * Size(t) { Times(k, n - 1, Size(t)); }
      assert FirstOffsets(t, n) == FirstOffsets(t, n - 1) + {(n - 1) * Size(t)};
    } else {
      assert FirstOffsets(t, 0) == {};
    }
  }

  lemma OffsetCount(t: nat)
    requires t < NSIZES
    ensures |Offsets(t)| == PerPage(t)
  {
    hide IsOffset, Size, PerPage;
    FirstCount(t, PerPage(t));
    forall o: nat | o < PAGE_SIZE
      ensures o in FirstOffsets(t, PerPage(t)) <==> IsOffset(t, o)
    {
      if IsOffset(t, o) {
        Numbered(t, o);
      }
      if k: nat :| k < PerPage(t) && o == k * Size(t) {
        BlockStart(t, k);
      }
    }
    forall k: nat | k < PerPage(t)
      ensures IsOffset(t, k * Size(t)) && k * Size(t) < PAGE_SIZE
    {
      BlockStart(t, k);
      OffsetIn(t, k * Size(t));
    }
    assert Offsets(t) == FirstOffsets(t, PerPage(t));
  }

  ghost function Elements(s: seq<nat>): set<nat>
  {
    set x | x in s
  }

  lemma {:induction false} ElementCount(s: seq<nat>)
    requires Distinct(s)
    ensures |Elements(s)| == |s|
  {
    if s == [] {
      assert Elements(s) == {};
    } else {
      var t := s[1..];
      ElementCount(t);
      assert s == [s[0]] + t;
      assert Elements(s) == Elements(t) + {s[0]};
    }
  }

  /** The blocks in use and the free list share the blocks of a page out between them, and some block is in use. */
  lemma PagePartition(h: Heap, g: Shadow, live: map<nat, nat>, x: int, p: nat)
    requires HeapInv(h, g, live, x) && p in g.all
    ensures Sized(h, g) && p < NPAGEREFS && Record(h, g, p)
    ensures Offsets(g.kind[p]) == LiveOffsets(g, p) + Elements(g.free[p]) && LiveOffsets(g, p) !! Elements(g.free[p])
    ensures |LiveOffsets(g, p)| + h.nfree[p] == PerPage(g.kind[p])
    ensures p != x ==> LiveOffsets(g, p) != {}
  {
    hide HeapInv, IsOffset, PerPage, Links, Distinct;
    PageFacts(h, g, live, x, p);
    FreeFacts(h, g, p);
    PageSplit(h, g, live, x, p);
    ElementCount(g.free[p]);
    OffsetCount(g.kind[p]);
    assert |LiveOffsets(g, p) + Elements(g.free[p])| == |LiveOffsets(g, p)| + |Elements(g.free[p])|;
  }

  /** Once nothing is in use, every page of the heap is back with the page allocator. */
  lemma AllGivenBack(h: Heap, g: Shadow, live: map<nat, nat>)
    requires HeapInv(h, g, live, NIL) && g.allocs == map[]
    ensures g.all == [] && g.big == {} && Foreign(g, live) == live
  {
    hide HeapInv, Record;
    if g.all != [] {
      PagePartition(h, g, live, NIL, g.all[0]);
    }
    NoBig(h, g, live);
  }

  lemma NoBig(h: Heap, g: Shadow, live: map<nat, nat>)
    requires HeapInv(h, g, live, NIL) && g.allocs == map[]
    ensures g.big == {}
  {
    hide Lists, Pages;
    assert forall q :: q in g.big ==> FromBig(g, live, Addr(g, q, 0), q);
  }

  lemma PageSplit(h: Heap, g: Shadow, live: map<nat, nat>, x: int, p: nat)
    requires HeapInv(h, g, live, x) && p in g.all && p in g.page && p in g.kind && p in g.free
    requires forall o :: o in g.free[p] ==> IsOffset(g.kind[p], o) && o < PAGE_SIZE
    ensures Offsets(g.kind[p]) == LiveOffsets(g, p) + Elements(g.free[p]) && LiveOffsets(g, p) !! Elements(g.free[p])
  {
    hide HeapInv, IsOffset, Addr;
    forall o: nat | IsOffset(g.kind[p], o)
      ensures Addr(g, g.page[p], o) in g.allocs <==> o !in g.free[p]
    {
      SlotNow(h, g, live, x, p, o);
    }
  }

  lemma FreeFacts(h: Heap, g: Shadow, p: nat)
    requires Sized(h, g) && p < NPAGEREFS && Record(h, g, p) && PageOk(h, g, p)
    ensures Distinct(g.free[p]) && forall o :: o in g.free[p] ==> IsOffset(g.kind[p], o) && o < PAGE_SIZE
  {
  }

  lemma SlotNow(h: Heap, g: Shadow, live: map<nat, nat>, x: int, p: nat, o: nat)
    requires HeapInv(h, g, live, x) && p in g.all && p in g.page && p in g.kind && p in g.free && IsOffset(g.kind[p], o)
    ensures Addr(g, g.page[p], o) in g.allocs <==> o !in g.free[p]
  {
    hide IsOffset, Lists, Pages;
    var a := Addr(g, g.page[p], o);
    assert a - Addr(g, g.page[p], 0) == o;
    assert FromPage(g, a, p);
    SlotFact(g, live, a, p);
  }
}
