/** The steps of the kernel heap on values, each with the proof that it keeps the invariant (kern/lib/kheap.c). */
module KHeapSteps {
  import opened CoreMap
  import opened KHeapPages
  import opened KHeapModel

  /** Blocks of different pages have different addresses. */
  lemma OtherPage(g: Shadow, a: nat, b: nat, p: nat, p': nat)
    requires FromPage(g, a, p) && FromPage(g, b, p') && g.page[p] != g.page[p']
    ensures a != b
  {
  }

  lemma PageFacts(h: Heap, g: Shadow, live: map<nat, nat>, x: int, p: nat)
    requires HeapInv(h, g, live, x) && p in g.all
    ensures Sized(h, g) && p < NPAGEREFS && Record(h, g, p) && PageOk(h, g, p)
    ensures p != x ==> h.nfree[p] < PerPage(g.kind[p])
    ensures g.page[p] in live && live[g.page[p]] == 1 && g.page[p] !in g.big
  {
    hide Links, Chain, Allocs, Size, PerPage;
  }

  lemma PagesDiffer(h: Heap, g: Shadow, live: map<nat, nat>, x: int, p: nat, p': nat)
    requires HeapInv(h, g, live, x) && p in g.all && p' in g.all && p != p' && p in g.page && p' in g.page
    ensures g.page[p] != g.page[p']
  {
    hide PageOk, Chain, Allocs, Size, PerPage;
  }

  lemma SlotFact(g: Shadow, live: map<nat, nat>, a: nat, p: nat)
    requires Allocs(g, live) && FromPage(g, a, p)
    ensures SlotOk(g, a, p)
  {
  }

  // ----- taking a block off a free list -----

  ghost function PopFree(h: Heap, g: Shadow, p: nat): Heap
    requires p < |h.nfree| && p < |h.offset| && p in g.free && g.free[p] != [] && h.nfree[p] > 0
  {
    var rest := g.free[p][1..];
    h.(nfree := h.nfree[p := h.nfree[p] - 1], offset := h.offset[p := if rest == [] then INVALID_OFFSET else rest[0]])
  }

  ghost function PopAddr(g: Shadow, p: nat): nat
    requires p in g.page && p in g.free && g.free[p] != []
  {
    Addr(g, g.page[p], g.free[p][0])
  }

  ghost function PopShadow(g: Shadow, p: nat): Shadow
    requires p in g.page && p in g.kind && p in g.free && g.free[p] != [] && g.kind[p] < NSIZES
  {
    g.(free := g.free[p := g.free[p][1..]], allocs := g.allocs[PopAddr(g, p) := Size(g.kind[p])])
  }

  /** A page with a free block. */
  ghost predicate HasFree(h: Heap, g: Shadow, live: map<nat, nat>, x: int, p: nat)
  {
    HeapInv(h, g, live, x) && (x == NIL || x == p) && p in g.all && p < NPAGEREFS && h.nfree[p] > 0
  }

  lemma HasFreeFacts(h: Heap, g: Shadow, live: map<nat, nat>, x: int, p: nat)
    requires HasFree(h, g, live, x, p)
    ensures Sized(h, g) && Record(h, g, p) && PageOk(h, g, p) && g.free[p] != []
    ensures FromPage(g, PopAddr(g, p), p) && PopAddr(g, p) !in g.allocs
    ensures PopAddr(g, p) in h.mem
    ensures h.mem[PopAddr(g, p)] == if |g.free[p]| > 1 then Addr(g, g.page[p], g.free[p][1]) else 0
  {
    hide Lists, Pages, Allocs, Size, Chain, IsOffset;
    PageFacts(h, g, live, x, p);
    assert IsOffset(g.kind[p], g.free[p][0]);
    assert PopAddr(g, p) == Addr(g, g.page[p], 0) + g.free[p][0];
    assert |g.free[p]| > 1 ==> h.mem[Addr(g, g.page[p], 0) + g.free[p][0]] == Addr(g, g.page[p], 0) + g.free[p][1];
    assert FromPage(g, PopAddr(g, p), p);
    SlotFact(g, live, PopAddr(g, p), p);
  }

  lemma PopLists(h: Heap, g: Shadow, live: map<nat, nat>, x: int, p: nat)
    requires HasFree(h, g, live, x, p) && Record(h, g, p) && g.free[p] != []
    ensures Sized(PopFree(h, g, p), PopShadow(g, p)) && Lists(PopFree(h, g, p), PopShadow(g, p))
  {
    hide Chain, PageOk, Allocs, Size;
  }

  lemma PopLinks(mem: map<nat, nat>, page: nat, fl: seq<nat>, t: nat)
    requires Links(mem, page, fl, t) && fl != []
    ensures Links(mem, page, fl[1..], t) && fl[0] !in fl[1..] && forall o :: o in fl <==> o == fl[0] || o in fl[1..]
  {
  }

  lemma PopPages(h: Heap, g: Shadow, live: map<nat, nat>, x: int, p: nat)
    requires HasFree(h, g, live, x, p) && Record(h, g, p) && g.free[p] != []
    requires Sized(PopFree(h, g, p), PopShadow(g, p)) && Lists(PopFree(h, g, p), PopShadow(g, p))
    ensures Pages(PopFree(h, g, p), PopShadow(g, p), live, NIL)
  {
    hide Links, Lists, Allocs, Size, PerPage;
    PageFacts(h, g, live, x, p);
    PopLinks(h.mem, Addr(g, g.page[p], 0), g.free[p], g.kind[p]);
    FullList(h.mem, Addr(g, g.page[p], 0), g.free[p], g.kind[p]);
    var h', g' := PopFree(h, g, p), PopShadow(g, p);
    forall p' | p' in g.all
      ensures Record(h', g', p') && PageOk(h', g', p')
    {
      PageFacts(h, g, live, x, p');
    }
  }

  lemma PopSlot(h: Heap, g: Shadow, live: map<nat, nat>, x: int, p: nat, b: nat, p': nat)
    requires HasFree(h, g, live, x, p) && Record(h, g, p) && g.free[p] != [] && FromPage(g, PopAddr(g, p), p)
    requires FromPage(PopShadow(g, p), b, p')
    ensures SlotOk(PopShadow(g, p), b, p')
  {
    hide Links, Size, Lists, Pages, Allocs, IsOffset;
    PageFacts(h, g, live, x, p);
    PopLinks(h.mem, Addr(g, g.page[p], 0), g.free[p], g.kind[p]);
    assert FromPage(g, b, p');
    SlotFact(g, live, b, p');
    if p' != p {
      PagesDiffer(h, g, live, x, p, p');
      OtherPage(g, PopAddr(g, p), b, p, p');
    }
  }

  lemma PopAllocs(h: Heap, g: Shadow, live: map<nat, nat>, x: int, p: nat)
    requires HasFree(h, g, live, x, p) && Record(h, g, p) && g.free[p] != [] && FromPage(g, PopAddr(g, p), p)
    ensures Allocs(PopShadow(g, p), live)
  {
    var g', a := PopShadow(g, p), PopAddr(g, p);
    forall p', b | FromPage(g', b, p') ensures SlotOk(g', b, p') { PopSlot(h, g, live, x, p, b, p'); }
    BigKept(h, g, live, x, a, p);
    AllocsFrom(g, g', live, p, a);
  }

  /** Where the allocations come from, after one block more is in use. */
  lemma AllocsFrom(g: Shadow, g': Shadow, live: map<nat, nat>, p: nat, a: nat)
    requires Allocs(g, live) && FromPage(g', a, p) && g'.base == g.base && g'.all == g.all && g'.page == g.page
             && g'.kind == g.kind
    requires g'.free.Keys == g.free.Keys && g'.big == g.big && g'.allocs.Keys <= g.allocs.Keys + {a}
    requires forall b :: b in g'.allocs && b != a ==> g'.allocs[b] == g.allocs[b]
    requires forall q :: q in g.big ==> Addr(g, q, 0) != a && Addr(g, q, 0) in g'.allocs
    ensures forall q :: q in g'.big ==> FromBig(g', live, Addr(g', q, 0), q)
    ensures forall b :: b in g'.allocs ==> (exists p' :: FromPage(g', b, p')) || exists q :: FromBig(g', live, b, q)
  {
    hide SlotOk, IsOffset;
    forall q | q in g'.big
      ensures FromBig(g', live, Addr(g', q, 0), q)
    {
      assert FromBig(g, live, Addr(g, q, 0), q);
    }
    forall b | b in g'.allocs
      ensures (exists p' :: FromPage(g', b, p')) || exists q :: FromBig(g', live, b, q)
    {
      if b == a {
        assert FromPage(g', b, p);
      } else if p' :| FromPage(g, b, p') {
        assert FromPage(g', b, p');
      } else {
        var q :| FromBig(g, live, b, q);
        assert FromBig(g', live, b, q);
      }
    }
  }

  /** A block of a page is no whole-page allocation. */
  lemma BigKept(h: Heap, g: Shadow, live: map<nat, nat>, x: int, a: nat, p: nat)
    requires HeapInv(h, g, live, x) && FromPage(g, a, p)
    ensures forall q :: q in g.big ==> Addr(g, q, 0) != a
  {
    hide Lists, PageOk, Allocs, Size;
    assert g.page[p] !in g.big;
  }

  lemma PopKeeps(h: Heap, g: Shadow, live: map<nat, nat>, x: int, p: nat)
    requires HasFree(h, g, live, x, p)
    ensures Record(h, g, p) && g.free[p] != [] && PopAddr(g, p) !in g.allocs
    ensures HeapInv(PopFree(h, g, p), PopShadow(g, p), live, NIL)
  {
    HasFreeFacts(h, g, live, x, p);
    PopLists(h, g, live, x, p);
    PopPages(h, g, live, x, p);
    PopAllocs(h, g, live, x, p);
    hide Sized, Lists, Pages, Allocs;
  }

  // ----- putting a block back on its free list -----

  /** Only words of the n bytes at a may differ. */
  ghost predicate KeepsWords(mem: map<nat, nat>, mem': map<nat, nat>, a: nat, n: nat)
  {
    mem'.Keys == mem.Keys && forall w :: w in mem && (w < a || a + n <= w) ==> mem'[w] == mem[w]
  }

  ghost function PushFree(h: Heap, mem: map<nat, nat>, p: nat, o: nat): Heap
    requires p < |h.nfree| && p < |h.offset|
  {
    h.(nfree := h.nfree[p := h.nfree[p] + 1], offset := h.offset[p := o], mem := mem)
  }

  ghost function PushShadow(g: Shadow, p: nat, o: nat): Shadow
    requires p in g.page && p in g.free
  {
    g.(free := g.free[p := [o] + g.free[p]], allocs := g.allocs - {Addr(g, g.page[p], o)})
  }

  /** The block at offset o of page p is in use and is being freed; mem is the memory after. */
  ghost predicate Freeing(h: Heap, g: Shadow, live: map<nat, nat>, p: nat, o: nat, mem: map<nat, nat>)
  {
    && HeapInv(h, g, live, NIL) && p in g.all && p < NPAGEREFS && Record(h, g, p) && IsOffset(g.kind[p], o)
    && Addr(g, g.page[p], o) in g.allocs
    && KeepsWords(h.mem, mem, Addr(g, g.page[p], o), Size(g.kind[p])) && Addr(g, g.page[p], o) in mem
    && mem[Addr(g, g.page[p], o)] == if g.free[p] == [] then 0 else Addr(g, g.page[p], g.free[p][0])
  }

  lemma PushLinks(mem: map<nat, nat>, mem': map<nat, nat>, page: nat, fl: seq<nat>, t: nat, o: nat)
    requires Links(mem, page, fl, t) && IsOffset(t, o) && o !in fl && KeepsWords(mem, mem', page + o, Size(t))
    requires page + o in mem' && mem'[page + o] == if fl == [] then 0 else page + fl[0]
    ensures Links(mem', page, [o] + fl, t)
  {
    hide IsOffset, Size, KeepsWords;
    var u := [o] + fl;
    assert Distinct(u);
    forall k | 0 <= k < |u|
      ensures IsOffset(t, u[k]) && page + u[k] in mem'
              && mem'[page + u[k]] == if k + 1 < |u| then page + u[k + 1] else 0
    {
      assert k + 1 < |u| ==> u[k + 1] == fl[k];
      if k > 0 {
        assert u[k] == fl[k - 1];
        OtherWord(mem, mem', page, t, o, u[k]);
      }
    }
  }

  /** A block's first word is not touched by what happens in another block of its page. */
  lemma OtherWord(mem: map<nat, nat>, mem': map<nat, nat>, page: nat, t: nat, o: nat, p: nat)
    requires IsOffset(t, o) && IsOffset(t, p) && o != p && KeepsWords(mem, mem', page + o, Size(t)) && page + p in mem
    ensures page + p in mem' && mem'[page + p] == mem[page + p]
  {
    hide IsOffset, Size;
    if o < p { Apart(t, o, p); }
  }

  /** A list in another page does not see the store. */
  lemma LinksElsewhere(mem: map<nat, nat>, mem': map<nat, nat>, page: nat, fl: seq<nat>, t: nat, a: nat, n: nat)
    requires Links(mem, page, fl, t) && KeepsWords(mem, mem', a, n) && (a + n <= page || page + PAGE_SIZE <= a)
    ensures Links(mem', page, fl, t)
  {
    assert forall k :: 0 <= k < |fl| ==> fl[k] < PAGE_SIZE;
    hide Size;
  }

  lemma FreeingFacts(h: Heap, g: Shadow, live: map<nat, nat>, p: nat, o: nat, mem: map<nat, nat>)
    requires Freeing(h, g, live, p, o, mem)
    ensures FromPage(g, Addr(g, g.page[p], o), p) && o !in g.free[p] && Sized(h, g)
  {
    hide Lists, Pages, Allocs, IsOffset, Size;
    assert Addr(g, g.page[p], o) - Addr(g, g.page[p], 0) == o;
    SlotFact(g, live, Addr(g, g.page[p], o), p);
  }

  lemma PushPageOk(h: Heap, g: Shadow, live: map<nat, nat>, p: nat, o: nat, mem: map<nat, nat>, p': nat)
    requires Freeing(h, g, live, p, o, mem) && Sized(h, g) && o !in g.free[p] && p' in g.all
    ensures p' < NPAGEREFS && Sized(PushFree(h, mem, p, o), PushShadow(g, p, o))
    ensures Record(PushFree(h, mem, p, o), PushShadow(g, p, o), p')
            && PageOk(PushFree(h, mem, p, o), PushShadow(g, p, o), p')
  {
    hide Lists, Pages, Allocs, IsOffset, Size, Links, KeepsWords;
    PageFacts(h, g, live, NIL, p);
    PageFacts(h, g, live, NIL, p');
    var page := Addr(g, g.page[p], 0);
    assert Addr(g, g.page[p], o) == page + o;
    if p' == p {
      PushLinks(h.mem, mem, page, g.free[p], g.kind[p], o);
    } else {
      PagesDiffer(h, g, live, NIL, p, p');
      Ends(g.kind[p], o);
      LinksElsewhere(h.mem, mem, Addr(g, g.page[p'], 0), g.free[p'], g.kind[p'], page + o, Size(g.kind[p]));
    }
  }

  lemma PushLists(h: Heap, g: Shadow, live: map<nat, nat>, p: nat, o: nat, mem: map<nat, nat>)
    requires Freeing(h, g, live, p, o, mem)
    ensures Sized(PushFree(h, mem, p, o), PushShadow(g, p, o)) && Lists(PushFree(h, mem, p, o), PushShadow(g, p, o))
  {
    hide Chain, PageOk, Allocs, Size, IsOffset, KeepsWords;
  }

  lemma PushPages(h: Heap, g: Shadow, live: map<nat, nat>, p: nat, o: nat, mem: map<nat, nat>)
    requires Freeing(h, g, live, p, o, mem) && Sized(h, g) && o !in g.free[p]
    requires Sized(PushFree(h, mem, p, o), PushShadow(g, p, o)) && Lists(PushFree(h, mem, p, o), PushShadow(g, p, o))
    ensures Pages(PushFree(h, mem, p, o), PushShadow(g, p, o), live, p)
    ensures h.nfree[p] + 1 <= PerPage(g.kind[p])
  {
    hide Lists, Links, Allocs, Size, PerPage, IsOffset, KeepsWords;
    var h', g' := PushFree(h, mem, p, o), PushShadow(g, p, o);
    forall p' | p' in g.all
      ensures Record(h', g', p') && PageOk(h', g', p')
    {
      PushPageOk(h, g, live, p, o, mem, p');
    }
    FullList(mem, Addr(g, g.page[p], 0), g'.free[p], g.kind[p]);
  }

  lemma PushSlot(h: Heap, g: Shadow, live: map<nat, nat>, p: nat, o: nat, mem: map<nat, nat>, b: nat, p': nat)
    requires Freeing(h, g, live, p, o, mem) && FromPage(g, Addr(g, g.page[p], o), p)
             && FromPage(PushShadow(g, p, o), b, p')
    ensures SlotOk(PushShadow(g, p, o), b, p')
  {
    hide Links, Size, Lists, Pages, Allocs, IsOffset, KeepsWords;
    assert FromPage(g, b, p');
    SlotFact(g, live, b, p');
    if p' != p {
      PageFacts(h, g, live, NIL, p);
      PageFacts(h, g, live, NIL, p');
      PagesDiffer(h, g, live, NIL, p, p');
      OtherPage(g, Addr(g, g.page[p], o), b, p, p');
    }
  }

  lemma PushAllocs(h: Heap, g: Shadow, live: map<nat, nat>, p: nat, o: nat, mem: map<nat, nat>)
    requires Freeing(h, g, live, p, o, mem) && FromPage(g, Addr(g, g.page[p], o), p)
    ensures Allocs(PushShadow(g, p, o), live)
  {
    hide Links, Size, Lists, Pages, IsOffset, KeepsWords, SlotOk;
    var g', a := PushShadow(g, p, o), Addr(g, g.page[p], o);
    forall p', b | FromPage(g', b, p') ensures SlotOk(g', b, p') { PushSlot(h, g, live, p, o, mem, b, p'); }
    BigKept(h, g, live, NIL, a, p);
    assert forall q :: q in g.big ==> FromBig(g, live, Addr(g, q, 0), q);
    AllocsFrom(g, g', live, p, a);
  }

  lemma PushKeeps(h: Heap, g: Shadow, live: map<nat, nat>, p: nat, o: nat, mem: map<nat, nat>)
    requires Freeing(h, g, live, p, o, mem)
    ensures Sized(h, g) && HeapInv(PushFree(h, mem, p, o), PushShadow(g, p, o), live, p)
    ensures h.nfree[p] + 1 <= PerPage(g.kind[p])
  {
    FreeingFacts(h, g, live, p, o, mem);
    PushLists(h, g, live, p, o, mem);
    PushPages(h, g, live, p, o, mem);
    PushAllocs(h, g, live, p, o, mem);
    hide Lists, Pages, Allocs;
  }

  // ----- stores by the owners of blocks -----

  /** A store into a block in use disturbs no free list. */
  lemma StoreKeeps(h: Heap, g: Shadow, live: map<nat, nat>, p: nat, a: nat, mem: map<nat, nat>)
    requires HeapInv(h, g, live, NIL) && FromPage(g, a, p) && a in g.allocs
             && KeepsWords(h.mem, mem, a, Size(g.kind[p]))
    ensures HeapInv(h.(mem := mem), g, live, NIL)
  {
    hide PageOk, Allocs, Size, PerPage, IsOffset, KeepsWords, Chain;
    var h' := h.(mem := mem);
    forall p' | p' in g.all
      ensures Sized(h', g) && p' < NPAGEREFS && Record(h', g, p') && PageOk(h', g, p')
    {
      StoreElsewhere(h, g, live, p, a, mem, p');
    }
  }

  lemma StoreElsewhere(h: Heap, g: Shadow, live: map<nat, nat>, p: nat, a: nat, mem: map<nat, nat>, p': nat)
    requires HeapInv(h, g, live, NIL) && FromPage(g, a, p) && a in g.allocs
             && KeepsWords(h.mem, mem, a, Size(g.kind[p]))
    requires p' in g.all
    ensures Sized(h.(mem := mem), g) && p' < NPAGEREFS && Record(h.(mem := mem), g, p') && PageOk(h.(mem := mem), g, p')
  {
    hide Lists, Pages, Allocs, IsOffset, Size, Links, KeepsWords;
    PageFacts(h, g, live, NIL, p);
    PageFacts(h, g, live, NIL, p');
    var page, o := Addr(g, g.page[p], 0), a - Addr(g, g.page[p], 0);
    Ends(g.kind[p], o);
    if p' == p {
      SlotFact(g, live, a, p);
      LinksAround(h.mem, mem, page, g.free[p], g.kind[p], o);
    } else {
      PagesDiffer(h, g, live, NIL, p, p');
      LinksElsewhere(h.mem, mem, Addr(g, g.page[p'], 0), g.free[p'], g.kind[p'], a, Size(g.kind[p]));
    }
  }

  lemma LinksAround(mem: map<nat, nat>, mem': map<nat, nat>, page: nat, fl: seq<nat>, t: nat, o: nat)
    requires Links(mem, page, fl, t) && IsOffset(t, o) && o !in fl && KeepsWords(mem, mem', page + o, Size(t))
    ensures Links(mem', page, fl, t)
  {
    hide IsOffset, Size, KeepsWords;
    forall k | 0 <= k < |fl|
      ensures page + fl[k] in mem' && mem'[page + fl[k]] == mem[page + fl[k]]
    {
      OtherWord(mem, mem', page, t, o, fl[k]);
    }
  }
}
