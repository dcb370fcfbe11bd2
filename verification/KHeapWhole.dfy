/** Whole pages coming into the kernel heap and leaving it (kern/lib/kheap.c). */
module KHeapWhole {
  import opened CoreMap
  import opened KHeapPages
  import opened KHeapModel
  import opened KHeapSteps

  /** No live block of the page allocator holds any of the n pages from q on. */
  ghost predicate Unused(live: map<nat, nat>, q: nat, n: nat)
  {
    forall s, r :: InBlock(live, s, r) ==> !(q <= r < q + n)
  }

  /** The page an allocation starts in belongs to a live block. */
  lemma PageHeld(h: Heap, g: Shadow, free: seq<bool>, length: seq<nat>, live: map<nat, nat>, x: int, a: nat)
      returns (s: nat, r: nat)
    requires HeapInv(h, g, live, x) && CoreMap.Inv(free, length, live) && a in g.allocs
    ensures a >= g.base && r == (a - g.base) / PAGE_SIZE && InBlock(live, s, r)
  {
    hide HeapInv, FromPage;
    s := Within(h, g, live, x, a);
    PositiveSize(h, g, free, length, live, x, a);
    PageOfAddr(g.base, a, s, live[s]);
    r := (a - g.base) / PAGE_SIZE;
  }

  /** Addresses in unused pages are not allocations. */
  lemma NotAllocated(h: Heap, g: Shadow, free: seq<bool>, length: seq<nat>, live: map<nat, nat>, x: int, q: nat,
      n: nat, a: nat)
    requires HeapInv(h, g, live, x) && CoreMap.Inv(free, length, live) && Unused(live, q, n)
    requires Addr(g, q, 0) <= a < Addr(g, q + n, 0)
    ensures a !in g.allocs
  {
    hide HeapInv;
    PageOfAddr(g.base, a, q, n);
    if a in g.allocs {
      var s, r := PageHeld(h, g, free, length, live, x, a);
    }
  }

  lemma PageOfAddr(base: nat, a: nat, q: nat, n: nat)
    requires base + q * PAGE_SIZE <= a < base + (q + n) * PAGE_SIZE
    ensures q <= (a - base) / PAGE_SIZE < q + n
  {
  }

  lemma PositiveSize(h: Heap, g: Shadow, free: seq<bool>, length: seq<nat>, live: map<nat, nat>, x: int, a: nat)
    requires HeapInv(h, g, live, x) && CoreMap.Inv(free, length, live) && a in g.allocs
    ensures g.allocs[a] > 0
  {
    hide Lists, Pages, IsOffset;
    if p :| FromPage(g, a, p) {
      SlotFact(g, live, a, p);
    } else {
      var q :| FromBig(g, live, a, q);
    }
  }

  /** A heap page is not unused. */
  lemma PageUsed(h: Heap, g: Shadow, live: map<nat, nat>, x: int, q: nat, n: nat, p: nat)
    requires HeapInv(h, g, live, x) && Unused(live, q, n) && p in g.all
    ensures p in g.page && !(q <= g.page[p] < q + n)
  {
    hide Lists, Pages, Allocs;
    PageFacts(h, g, live, x, p);
    assert InBlock(live, g.page[p], g.page[p]);
  }

  // ----- a fresh page of blocks -----

  /** The free list of a fresh page: its blocks from the last to the first. */
  ghost function Downto(t: nat): (fl: seq<nat>)
    requires t < NSIZES
    ensures |fl| == PerPage(t) && forall k :: 0 <= k < |fl| ==> fl[k] == (PerPage(t) - 1 - k) * Size(t)
  {
    seq(PerPage(t), k requires 0 <= k < PerPage(t) => (PerPage(t) - 1 - k) * Size(t))
  }

  ghost function NewHeap(h: Heap, g: Shadow, p: nat, q: nat, t: nat, mem: map<nat, nat>): Heap
    requires Sized(h, g) && p < NPAGEREFS && t < NSIZES
  {
    h.(inuse := h.inuse[p := true], pab := h.pab[p := g.base + q * PAGE_SIZE + t], nfree := h.nfree[p := PerPage(t)],
       offset := h.offset[p := (PerPage(t) - 1) * Size(t)],
       nextSame := h.nextSame[p := h.sizebases[t]], sizebases := h.sizebases[t := p],
       nextAll := h.nextAll[p := h.allbase], allbase := p, mem := mem)
  }

  ghost function NewShadow(g: Shadow, p: nat, q: nat, t: nat): Shadow
    requires t < NSIZES && |g.same| == NSIZES
  {
    g.(all := [p] + g.all, same := g.same[t := [p] + g.same[t]], page := g.page[p := q], kind := g.kind[p := t],
       free := g.free[p := Downto(t)])
  }

  ghost predicate Adding(h: Heap, g: Shadow, live: map<nat, nat>, p: nat, q: nat, t: nat, mem: map<nat, nat>)
  {
    && HeapInv(h, g, live, NIL) && p < NPAGEREFS && !h.inuse[p] && t < NSIZES && Unused(live, q, 1)
    && KeepsWords(h.mem, mem, Addr(g, q, 0), PAGE_SIZE) && Links(mem, Addr(g, q, 0), Downto(t), t)
  }

  lemma AddingFacts(h: Heap, g: Shadow, live: map<nat, nat>, p: nat, q: nat, t: nat, mem: map<nat, nat>)
    requires Adding(h, g, live, p, q, t, mem)
    ensures Sized(h, g) && Lists(h, g) && p !in g.all && (forall u :: 0 <= u < NSIZES ==> p !in g.same[u])
  {
    hide Pages, Allocs, Links, KeepsWords, Chain;
  }

  lemma NewChains(h: Heap, g: Shadow, p: nat, q: nat, t: nat, mem: map<nat, nat>)
    requires Sized(h, g) && Lists(h, g) && p < NPAGEREFS && t < NSIZES && p !in g.all
             && (forall u :: 0 <= u < NSIZES ==> p !in g.same[u])
    ensures var h', g' := NewHeap(h, g, p, q, t, mem), NewShadow(g, p, q, t);
            && Chain(h'.nextAll, h'.allbase, g'.all)
            && forall u :: 0 <= u < NSIZES ==> Chain(h'.nextSame, h'.sizebases[u], g'.same[u])
  {
    var h', g' := NewHeap(h, g, p, q, t, mem), NewShadow(g, p, q, t);
    hide Chain, Record;
    ChainPush(h.nextAll, h.allbase, g.all, p);
    forall u | 0 <= u < NSIZES
      ensures Chain(h'.nextSame, h'.sizebases[u], g'.same[u])
    {
      if u == t {
        ChainPush(h.nextSame, h.sizebases[t], g.same[t], p);
      } else {
        ChainFrame(h.nextSame, h.sizebases[u], g.same[u], p, h.sizebases[t]);
      }
    }
  }

  lemma NewLists(h: Heap, g: Shadow, p: nat, q: nat, t: nat, mem: map<nat, nat>)
    requires Sized(h, g) && Lists(h, g) && p < NPAGEREFS && t < NSIZES && p !in g.all
             && (forall u :: 0 <= u < NSIZES ==> p !in g.same[u])
    ensures Sized(NewHeap(h, g, p, q, t, mem), NewShadow(g, p, q, t))
            && Lists(NewHeap(h, g, p, q, t, mem), NewShadow(g, p, q, t))
  {
    hide Chain, Size, PerPage;
    NewChains(h, g, p, q, t, mem);
  }

  lemma NewPages(h: Heap, g: Shadow, live: map<nat, nat>, p: nat, q: nat, t: nat, mem: map<nat, nat>)
    requires Adding(h, g, live, p, q, t, mem) && Sized(h, g) && p !in g.all
    requires Sized(NewHeap(h, g, p, q, t, mem), NewShadow(g, p, q, t))
             && Lists(NewHeap(h, g, p, q, t, mem), NewShadow(g, p, q, t))
    requires forall b :: b in g.big ==> b != q
    ensures Pages(NewHeap(h, g, p, q, t, mem), NewShadow(g, p, q, t), live[q := 1], p)
  {
    hide Lists, Links, Allocs, Size, PerPage, IsOffset, KeepsWords, Unused;
    var h', g' := NewHeap(h, g, p, q, t, mem), NewShadow(g, p, q, t);
    assert g'.free[p] != [] && g'.free[p][0] == (PerPage(t) - 1) * Size(t);
    forall p' | p' in g'.all
      ensures Record(h', g', p') && PageOk(h', g', p') && (p' != p ==> g.page[p'] != q)
    {
      if p' != p {
        PageFacts(h, g, live, NIL, p');
        PageUsed(h, g, live, NIL, q, 1, p');
        LinksElsewhere(h.mem, mem, Addr(g, g.page[p'], 0), g.free[p'], g.kind[p'], Addr(g, q, 0), PAGE_SIZE);
      }
    }
  }

  lemma DowntoAll(t: nat, o: nat)
    requires IsOffset(t, o)
    ensures o in Downto(t)
  {
    Numbered(t, o);
    var k := PerPage(t) - 1 - o / Size(t);
    assert Downto(t)[k] == o;
  }

  lemma NewSlot(h: Heap, g: Shadow, free: seq<bool>, length: seq<nat>, live: map<nat, nat>, p: nat, q: nat, t: nat,
      mem: map<nat, nat>, b: nat, p': nat)
    requires Adding(h, g, live, p, q, t, mem) && p !in g.all && |g.same| == NSIZES && CoreMap.Inv(free, length, live)
    requires FromPage(NewShadow(g, p, q, t), b, p')
    ensures SlotOk(NewShadow(g, p, q, t), b, p')
  {
    hide Lists, Pages, Allocs, Links, KeepsWords, Size, PerPage, Unused, Downto;
    if p' == p {
      var o := b - Addr(g, q, 0);
      DowntoAll(t, o);
      NotAllocated(h, g, free, length, live, NIL, q, 1, b);
    } else {
      assert FromPage(g, b, p');
      SlotFact(g, live, b, p');
    }
  }

  lemma NewAllocs(h: Heap, g: Shadow, free: seq<bool>, length: seq<nat>, live: map<nat, nat>, p: nat, q: nat, t: nat,
      mem: map<nat, nat>)
    requires Adding(h, g, live, p, q, t, mem) && p !in g.all && |g.same| == NSIZES && CoreMap.Inv(free, length, live)
    requires forall b :: b in g.big ==> b != q
    ensures Allocs(NewShadow(g, p, q, t), live[q := 1])
  {
    hide Lists, Pages, Links, KeepsWords, Size, PerPage, Unused, Downto, SlotOk, IsOffset, CoreMap.Inv, FromPage,
        FromBig;
    var g', live' := NewShadow(g, p, q, t), live[q := 1];
    forall p', b | FromPage(g', b, p')
      ensures SlotOk(g', b, p')
    {
      NewSlot(h, g, free, length, live, p, q, t, mem, b, p');
    }
    forall b | b in g'.big
      ensures FromBig(g', live', Addr(g', b, 0), b)
    {
      NewFromBig(g, live, p, q, t, Addr(g, b, 0), b);
    }
    forall a | a in g'.allocs
      ensures (exists p' :: FromPage(g', a, p')) || exists r :: FromBig(g', live', a, r)
    {
      if p' :| FromPage(g, a, p') {
        NewFromPage(g, p, q, t, a, p');
      } else {
        var r :| FromBig(g, live, a, r);
        NewFromBig(g, live, p, q, t, a, r);
      }
    }
  }

  lemma NewFromPage(g: Shadow, p: nat, q: nat, t: nat, a: nat, p': nat)
    requires p !in g.all && |g.same| == NSIZES && t < NSIZES && FromPage(g, a, p')
    ensures FromPage(NewShadow(g, p, q, t), a, p')
  {
    hide IsOffset, Size, PerPage, Downto;
  }

  lemma NewFromBig(g: Shadow, live: map<nat, nat>, p: nat, q: nat, t: nat, a: nat, r: nat)
    requires |g.same| == NSIZES && t < NSIZES && q !in g.big && FromBig(g, live, a, r)
    ensures FromBig(NewShadow(g, p, q, t), live[q := 1], a, r)
  {
    hide IsOffset, Size, PerPage, Downto;
  }

  lemma BigUsed(h: Heap, g: Shadow, free: seq<bool>, length: seq<nat>, live: map<nat, nat>, x: int, q: nat, n: nat)
    requires HeapInv(h, g, live, x) && CoreMap.Inv(free, length, live) && Unused(live, q, n) && n > 0
    ensures q !in live && forall b :: b in g.big ==> b != q
  {
    hide Lists, PageOk, Allocs;
    assert q in live ==> InBlock(live, q, q);
  }

  lemma NewKeeps(h: Heap, g: Shadow, free: seq<bool>, length: seq<nat>, live: map<nat, nat>, p: nat, q: nat, t: nat,
      mem: map<nat, nat>)
    requires Adding(h, g, live, p, q, t, mem) && CoreMap.Inv(free, length, live)
    ensures Sized(h, g) && p !in g.all && HeapInv(NewHeap(h, g, p, q, t, mem), NewShadow(g, p, q, t), live[q := 1], p)
  {
    AddingFacts(h, g, live, p, q, t, mem);
    BigUsed(h, g, free, length, live, NIL, q, 1);
    NewLists(h, g, p, q, t, mem);
    NewPages(h, g, live, p, q, t, mem);
    NewAllocs(h, g, free, length, live, p, q, t, mem);
    hide Lists, Pages, Allocs, NewHeap, NewShadow;
  }

  // ----- a page that is wholly free goes back -----

  ghost function DropShadow(g: Shadow, p: nat, i: nat, j: nat): Shadow
    requires p in g.kind && g.kind[p] < |g.same| && i < |g.all| && j < |g.same[g.kind[p]]|
  {
    g.(all := RemoveAt(g.all, i), same := g.same[g.kind[p] := RemoveAt(g.same[g.kind[p]], j)])
  }

  /** Page p, wholly free, has been unlinked from both lists and its record given back. */
  ghost predicate Dropping(h: Heap, g: Shadow, live: map<nat, nat>, p: nat, i: nat, j: nat, h': Heap)
  {
    && Sized(h, g) && p < NPAGEREFS && Record(h, g, p) && h.nfree[p] == PerPage(g.kind[p])
    && i < |g.all| && g.all[i] == p && j < |g.same[g.kind[p]]| && g.same[g.kind[p]][j] == p
    && h' == h.(inuse := h.inuse[p := false], nextAll := h'.nextAll, allbase := h'.allbase,
                nextSame := h'.nextSame, sizebases := h'.sizebases)
    && |h'.nextAll| == |h'.nextSame| == NPAGEREFS && |h'.sizebases| == NSIZES
    && Chain(h'.nextAll, h'.allbase, RemoveAt(g.all, i))
    && Chain(h'.nextSame, h'.sizebases[g.kind[p]], RemoveAt(g.same[g.kind[p]], j))
    && (forall u :: 0 <= u < NSIZES && u != g.kind[p] ==> Chain(h'.nextSame, h'.sizebases[u], g.same[u]))
    && HeapInv(h, g, live, p)
  }

  lemma DropMembers(h: Heap, g: Shadow, live: map<nat, nat>, p: nat, i: nat, j: nat, h': Heap)
    requires Dropping(h, g, live, p, i, j, h')
    ensures forall p' :: p' in DropShadow(g, p, i, j).all <==> p' in g.all && p' != p
    ensures forall p' :: p' in DropShadow(g, p, i, j).same[g.kind[p]] <==> p' in g.same[g.kind[p]] && p' != p
  {
    hide Pages, Allocs, PerPage, Size, RemoveAt;
    RemoveAtElements(g.all, i);
    RemoveAtElements(g.same[g.kind[p]], j);
  }

  lemma DropLists(h: Heap, g: Shadow, live: map<nat, nat>, p: nat, i: nat, j: nat, h': Heap)
    requires Dropping(h, g, live, p, i, j, h')
    ensures Sized(h', DropShadow(g, p, i, j)) && Lists(h', DropShadow(g, p, i, j))
    ensures forall p' :: p' in DropShadow(g, p, i, j).all <==> p' in g.all && p' != p
  {
    hide Pages, Allocs, PerPage, Size, Chain, RemoveAt;
    var g' := DropShadow(g, p, i, j);
    DropMembers(h, g, live, p, i, j, h');
    forall u, p': nat | 0 <= u < NSIZES
      ensures p' in g'.same[u] <==> p' in g'.all && p' in g'.kind && g'.kind[p'] == u
    {
      assert p' in g.same[u] <==> p' in g.all && p' in g.kind && g.kind[p'] == u;
    }
    forall p' | p' in g'.all
      ensures Record(h', g', p')
    {
      assert Record(h, g, p');
    }
  }

  lemma DropPages(h: Heap, g: Shadow, live: map<nat, nat>, p: nat, i: nat, j: nat, h': Heap)
    requires Dropping(h, g, live, p, i, j, h')
    requires Sized(h', DropShadow(g, p, i, j)) && Lists(h', DropShadow(g, p, i, j))
    requires forall p' :: p' in DropShadow(g, p, i, j).all <==> p' in g.all && p' != p
    ensures Pages(h', DropShadow(g, p, i, j), live - {g.page[p]}, NIL)
  {
    hide Chain, Lists, Allocs, Links, PerPage, RemoveAt;
    var g' := DropShadow(g, p, i, j);
    forall p' | p' in g'.all
      ensures Record(h', g', p') && PageOk(h', g', p') && h.nfree[p'] < PerPage(g.kind[p']) && g.page[p'] != g.page[p]
    {
      PageFacts(h, g, live, p, p');
      PagesDiffer(h, g, live, p, p, p');
    }
    PageFacts(h, g, live, p, p);
  }

  lemma DropAllocs(h: Heap, g: Shadow, live: map<nat, nat>, p: nat, i: nat, j: nat, h': Heap)
    requires Dropping(h, g, live, p, i, j, h')
    requires forall p' :: p' in DropShadow(g, p, i, j).all <==> p' in g.all && p' != p
    ensures Allocs(DropShadow(g, p, i, j), live - {g.page[p]})
  {
    hide Chain, Lists, Pages, Links, PerPage, RemoveAt, IsOffset, Allocs;
    PageFacts(h, g, live, p, p);
    FullList(h.mem, Addr(g, g.page[p], 0), g.free[p], g.kind[p]);
    WithoutPage(g, live, p, DropShadow(g, p, i, j));
  }

  /** Taking a wholly free page off the lists leaves every allocation accounted for. */
  lemma WithoutPage(g: Shadow, live: map<nat, nat>, p: nat, g': Shadow)
    requires Allocs(g, live) && p in g.kind && p in g.free && p in g.page && g.page[p] !in g.big
    requires forall o: nat :: IsOffset(g.kind[p], o) ==> o in g.free[p]
    requires g' == g.(all := g'.all, same := g'.same) && forall p' :: p' in g'.all <==> p' in g.all && p' != p
    ensures Allocs(g', live - {g.page[p]})
  {
    hide IsOffset, FromPage, FromBig, SlotOk;
    var live' := live - {g.page[p]};
    forall p', b: nat | FromPage(g', b, p')
      ensures SlotOk(g', b, p')
    {
      StillFromPage(g, p, g', b, p');
      StillSlot(g, g', b, p');
    }
    forall q | q in g'.big
      ensures FromBig(g', live', Addr(g', q, 0), q)
    {
      StillFromBig(g, live, p, g', Addr(g, q, 0), q);
    }
    forall a | a in g'.allocs
      ensures (exists p' :: FromPage(g', a, p')) || exists r :: FromBig(g', live', a, r)
    {
      DropFrom(g, live, p, a);
      if p' :| FromPage(g, a, p') && p' != p {
        StillFromPage(g, p, g', a, p');
      } else {
        var r :| FromBig(g, live, a, r);
        StillFromBig(g, live, p, g', a, r);
      }
    }
  }

  lemma StillFromPage(g: Shadow, p: nat, g': Shadow, a: nat, p': nat)
    requires g' == g.(all := g'.all, same := g'.same) && (p' in g'.all <==> p' in g.all && p' != p)
    ensures FromPage(g', a, p') <==> FromPage(g, a, p') && p' != p
  {
    hide IsOffset;
  }

  lemma StillSlot(g: Shadow, g': Shadow, a: nat, p': nat)
    requires g' == g.(all := g'.all, same := g'.same) && FromPage(g, a, p') && FromPage(g', a, p')
    ensures SlotOk(g', a, p') <==> SlotOk(g, a, p')
  {
    hide IsOffset;
  }

  lemma StillFromBig(g: Shadow, live: map<nat, nat>, p: nat, g': Shadow, a: nat, q: nat)
    requires g' == g.(all := g'.all, same := g'.same) && p in g.page && g.page[p] !in g.big
    ensures FromBig(g', live - {g.page[p]}, a, q) <==> FromBig(g, live, a, q)
  {
  }

  /** An allocation is not from a page whose blocks are all free. */
  lemma DropFrom(g: Shadow, live: map<nat, nat>, p: nat, a: nat)
    requires Allocs(g, live) && a in g.allocs && p in g.kind && p in g.free
    requires forall o: nat :: IsOffset(g.kind[p], o) ==> o in g.free[p]
    ensures (exists p' :: FromPage(g, a, p') && p' != p) || exists r :: FromBig(g, live, a, r)
  {
    if p' :| FromPage(g, a, p') {
      SlotFact(g, live, a, p');
      hide IsOffset, Allocs;
    }
  }

  lemma DropKeeps(h: Heap, g: Shadow, live: map<nat, nat>, p: nat, i: nat, j: nat, h': Heap)
    requires Dropping(h, g, live, p, i, j, h')
    ensures HeapInv(h', DropShadow(g, p, i, j), live - {g.page[p]}, NIL)
  {
    DropLists(h, g, live, p, i, j, h');
    DropPages(h, g, live, p, i, j, h');
    DropAllocs(h, g, live, p, i, j, h');
    hide Sized, Lists, Pages, Allocs, DropShadow;
  }

  // ----- whole-page allocations -----

  ghost function BigShadow(g: Shadow, q: nat, n: nat): Shadow
  {
    g.(big := g.big + {q}, allocs := g.allocs[Addr(g, q, 0) := n * PAGE_SIZE])
  }

  lemma BigPages(h: Heap, g: Shadow, live: map<nat, nat>, q: nat, n: nat)
    requires HeapInv(h, g, live, NIL) && Unused(live, q, n) && q !in live && n > 0
    ensures Sized(h, BigShadow(g, q, n)) && Lists(h, BigShadow(g, q, n))
            && Pages(h, BigShadow(g, q, n), live[q := n], NIL)
  {
    hide Chain, Allocs, Links, PerPage, Unused;
    var g' := BigShadow(g, q, n);
    forall p | p in g.all
      ensures Record(h, g', p) && PageOk(h, g', p) && h.nfree[p] < PerPage(g.kind[p]) && g.page[p] != q
              && g.page[p] in live
    {
      PageFacts(h, g, live, NIL, p);
    }
  }

  lemma BigAllocs(h: Heap, g: Shadow, free: seq<bool>, length: seq<nat>, live: map<nat, nat>, q: nat, n: nat)
    requires HeapInv(h, g, live, NIL) && CoreMap.Inv(free, length, live) && Unused(live, q, n) && q !in live && n > 0
    ensures Addr(g, q, 0) !in g.allocs && Allocs(BigShadow(g, q, n), live[q := n])
  {
    hide Lists, Pages, Links, PerPage, IsOffset, Size;
    NotAllocated(h, g, free, length, live, NIL, q, n, Addr(g, q, 0));
    var g', live' := BigShadow(g, q, n), live[q := n];
    forall p', b: nat | FromPage(g', b, p')
      ensures SlotOk(g', b, p')
    {
      assert FromPage(g, b, p');
      SlotFact(g, live, b, p');
      PageFacts(h, g, live, NIL, p');
      OffsetIn(g.kind[p'], b - Addr(g, g.page[p'], 0));
      assert b != Addr(g, q, 0);
    }
    forall r | r in g'.big
      ensures FromBig(g', live', Addr(g', r, 0), r)
    {
      assert r != q ==> FromBig(g, live, Addr(g, r, 0), r);
    }
    forall a | a in g'.allocs
      ensures (exists p' :: FromPage(g', a, p')) || exists r :: FromBig(g', live', a, r)
    {
      if a == Addr(g, q, 0) {
        assert FromBig(g', live', a, q);
      } else if p' :| FromPage(g, a, p') {
        assert FromPage(g', a, p');
      } else {
        var r :| FromBig(g, live, a, r);
        assert FromBig(g', live', a, r);
      }
    }
  }

  lemma BigKeeps(h: Heap, g: Shadow, free: seq<bool>, length: seq<nat>, live: map<nat, nat>, q: nat, n: nat)
    requires HeapInv(h, g, live, NIL) && CoreMap.Inv(free, length, live) && Unused(live, q, n) && n > 0
    ensures Addr(g, q, 0) !in g.allocs && HeapInv(h, BigShadow(g, q, n), live[q := n], NIL)
  {
    BigUsed(h, g, free, length, live, NIL, q, n);
    BigPages(h, g, live, q, n);
    BigAllocs(h, g, free, length, live, q, n);
    hide Sized, Lists, Pages, Allocs, BigShadow;
  }

  ghost function UnbigShadow(g: Shadow, q: nat): Shadow
  {
    g.(big := g.big - {q}, allocs := g.allocs - {Addr(g, q, 0)})
  }

  lemma UnbigPages(h: Heap, g: Shadow, live: map<nat, nat>, q: nat)
    requires HeapInv(h, g, live, NIL) && q in g.big
    ensures Sized(h, UnbigShadow(g, q)) && Lists(h, UnbigShadow(g, q)) && Pages(h, UnbigShadow(g, q), live - {q}, NIL)
  {
    hide Chain, Allocs, Links, PerPage;
    var g' := UnbigShadow(g, q);
    forall p | p in g.all
      ensures Record(h, g', p) && PageOk(h, g', p) && h.nfree[p] < PerPage(g.kind[p]) && g.page[p] != q
    {
      PageFacts(h, g, live, NIL, p);
    }
  }

  lemma UnbigAllocs(h: Heap, g: Shadow, live: map<nat, nat>, q: nat)
    requires HeapInv(h, g, live, NIL) && q in g.big
    ensures Allocs(UnbigShadow(g, q), live - {q})
  {
    hide Lists, Pages, Links, PerPage, IsOffset, Size;
    var g', live', a := UnbigShadow(g, q), live - {q}, Addr(g, q, 0);
    forall p', b: nat | FromPage(g', b, p')
      ensures SlotOk(g', b, p')
    {
      assert FromPage(g, b, p');
      SlotFact(g, live, b, p');
      PageFacts(h, g, live, NIL, p');
      OffsetIn(g.kind[p'], b - Addr(g, g.page[p'], 0));
      assert b != a;
    }
    forall r | r in g'.big
      ensures FromBig(g', live', Addr(g', r, 0), r)
    {
      assert FromBig(g, live, Addr(g, r, 0), r);
    }
    forall b | b in g'.allocs
      ensures (exists p' :: FromPage(g', b, p')) || exists r :: FromBig(g', live', b, r)
    {
      if p' :| FromPage(g, b, p') {
        assert FromPage(g', b, p');
      } else {
        var r :| FromBig(g, live, b, r);
        assert FromBig(g', live', b, r);
      }
    }
  }

  lemma UnbigKeeps(h: Heap, g: Shadow, live: map<nat, nat>, q: nat)
    requires HeapInv(h, g, live, NIL) && q in g.big
    ensures HeapInv(h, UnbigShadow(g, q), live - {q}, NIL)
  {
    UnbigPages(h, g, live, q);
    UnbigAllocs(h, g, live, q);
    hide Sized, Lists, Pages, Allocs, UnbigShadow;
  }
}
