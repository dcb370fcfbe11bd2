/**
 Address spaces as values: segments, translation and the bytes seen through it
 (kern/vm/addrspace.c, kern/vm/vm.c).
 */
module VmSpace {
  import opened Options
  import opened CoreMap

  const STACKPAGES := 24
  const USERSTACK := 0x8000_0000
  const STACKBASE := USERSTACK - STACKPAGES * PAGE_SIZE
  const NUM_TLB := 64
  const TWO32 := 0x1_0000_0000
  const MAXPAGES := 0x10_0000

  /** struct addrspace. */
  datatype Space = Space(vbase1: nat, pbase1: nat, npages1: nat, vbase2: nat, pbase2: nat, npages2: nat,
      stackpbase: nat)

  /** A segment: npages pages from vbase on, kept at pbase. */
  datatype Seg = Seg(vbase: nat, pbase: nat, npages: nat)

  /** The segments in the order vm_fault looks at them. */
  function SegOf(s: Space, i: nat): Seg
    requires i < 3
  {
    if i == 0 then Seg(s.vbase1, s.pbase1, s.npages1)
    else if i == 1 then Seg(s.vbase2, s.pbase2, s.npages2)
    else Seg(STACKBASE, s.stackpbase, STACKPAGES)
  }

  /** Whether vm_fault takes an address to be in a segment; the top of the segment is a 32-bit sum. */
  predicate InSeg(g: Seg, va: nat)
  {
    g.vbase <= va < (g.vbase + g.npages * PAGE_SIZE) % TWO32
  }

  /** The segment translation of vm_fault. */
  function Translate(s: Space, va: nat): Option<nat>
  {
    if InSeg(SegOf(s, 0), va) then Some(va - s.vbase1 + s.pbase1)
    else if InSeg(SegOf(s, 1), va) then Some(va - s.vbase2 + s.pbase2)
    else if InSeg(SegOf(s, 2), va) then Some(va - STACKBASE + s.stackpbase)
    else None
  }

  /** The segment an address is translated by. */
  ghost function Which(s: Space, va: nat): (i: nat)
    requires Translate(s, va).Some?
    ensures i < 3 && InSeg(SegOf(s, i), va) && Translate(s, va) == Some(va - SegOf(s, i).vbase + SegOf(s, i).pbase)
  {
    if InSeg(SegOf(s, 0), va) then 0 else if InSeg(SegOf(s, 1), va) then 1 else 2
  }

  predicate Aligned(a: nat)
  {
    a % PAGE_SIZE == 0
  }

  /** Page bases are aligned and sizes are what 32-bit sizes give. */
  ghost predicate Formed(s: Space)
  {
    forall i: nat :: i < 3 ==> Aligned(SegOf(s, i).vbase) && SegOf(s, i).vbase < TWO32 && SegOf(s, i).npages < MAXPAGES
  }

  /** What vm_fault asserts of the current address space. */
  predicate Ready(s: Space)
  {
    && s.vbase1 != 0 && s.pbase1 != 0 && s.npages1 != 0 && s.vbase2 != 0 && s.pbase2 != 0 && s.npages2 != 0
    && s.stackpbase != 0
    && Aligned(s.vbase1) && Aligned(s.pbase1) && Aligned(s.vbase2) && Aligned(s.pbase2) && Aligned(s.stackpbase)
  }

  /** An address in a segment is one of its bytes. */
  lemma SegRange(g: Seg, va: nat)
    requires InSeg(g, va) && g.vbase < TWO32 && g.npages < MAXPAGES
    ensures va - g.vbase < g.npages * PAGE_SIZE
  {
  }

  // ----- what is mapped, and where -----

  /** va is in the npages pages from vbase on, the last of which is not the last of the address space. */
  predicate Within(vbase: nat, npages: nat, va: nat)
  {
    vbase <= va < vbase + npages * PAGE_SIZE < TWO32
  }

  /** va is in the code, the data or the stack of a process. */
  predicate Mapped(s: Space, va: nat)
  {
    Within(s.vbase1, s.npages1, va) || Within(s.vbase2, s.npages2, va) || STACKBASE <= va < USERSTACK
  }

  /** pa is the byte behind va: at the same distance from the start of the memory of the first segment va is in. */
  predicate FrameAt(s: Space, va: nat, pa: nat)
  {
    if Within(s.vbase1, s.npages1, va) then pa == s.pbase1 + (va - s.vbase1)
    else if Within(s.vbase2, s.npages2, va) then pa == s.pbase2 + (va - s.vbase2)
    else STACKBASE <= va < USERSTACK && pa == s.stackpbase + (va - STACKBASE)
  }

  /** The top of a segment being a 32-bit sum, all of it is recognized or, if the sum wraps, nothing. */
  lemma SegExact(g: Seg, va: nat)
    requires g.vbase < TWO32 && g.npages < MAXPAGES
    ensures InSeg(g, va) <==> Within(g.vbase, g.npages, va)
  {
  }

  /** An address is translated if and only if it is in one of the three ranges, and then to its place there. */
  lemma TranslateExact(s: Space, va: nat)
    requires Formed(s)
    ensures Translate(s, va).Some? <==> Mapped(s, va)
    ensures forall pa: nat :: Translate(s, va) == Some(pa) <==> FrameAt(s, va, pa)
  {
    SegExact(SegOf(s, 0), va);
    SegExact(SegOf(s, 1), va);
    SegExact(SegOf(s, 2), va);
  }

  /** The range of a segment is mapped by it if and only if its end lies below the end of the address space. */
  lemma RangeMapped(g: Seg)
    requires g.vbase < TWO32 && 0 < g.npages < MAXPAGES
    ensures (forall va :: g.vbase <= va < g.vbase + g.npages * PAGE_SIZE ==> InSeg(g, va))
            <==> g.vbase + g.npages * PAGE_SIZE < TWO32
  {
    SegExact(g, g.vbase);
    forall va: nat
      ensures InSeg(g, va) <==> Within(g.vbase, g.npages, va)
    {
      SegExact(g, va);
    }
  }

  /** A segment that is the last page of the address space has no address vm_fault would find in it. */
  lemma LastPageUnmapped(pbase: nat, va: nat)
    ensures !InSeg(Seg(TWO32 - PAGE_SIZE, pbase, 1), va)
  {
  }

  // ----- ownership of physical pages -----

  /** The segment's pages are a block of the page allocator of just that length. */
  ghost predicate Backed(base: nat, live: map<nat, nat>, g: Seg)
  {
    base <= g.pbase && Aligned(g.pbase - base) && Home(base, g) in live && live[Home(base, g)] == g.npages
  }

  /** The first page of a segment. */
  ghost function Home(base: nat, g: Seg): nat
    requires base <= g.pbase
  {
    (g.pbase - base) / PAGE_SIZE
  }

  /** Every segment that has memory is backed by a block, a different one for each. */
  ghost predicate Owns(base: nat, live: map<nat, nat>, s: Space)
  {
    && (forall i: nat :: i < 3 && SegOf(s, i).pbase != 0 ==> Backed(base, live, SegOf(s, i)))
    && (forall i: nat, j: nat :: i < j < 3 && SegOf(s, i).pbase != 0 ==> SegOf(s, i).pbase != SegOf(s, j).pbase)
  }

  /** No segment of one is a segment of the other. */
  ghost predicate Apart(s: Space, s': Space)
  {
    forall i: nat, j: nat :: i < 3 && j < 3 && SegOf(s, i).pbase != 0 ==> SegOf(s, i).pbase != SegOf(s', j).pbase
  }

  /** The physical bytes of a segment. */
  predicate Holds(g: Seg, pa: nat)
  {
    g.pbase <= pa < g.pbase + g.npages * PAGE_SIZE
  }

  lemma HomeAddr(base: nat, live: map<nat, nat>, g: Seg)
    requires Backed(base, live, g)
    ensures g.pbase == base + Home(base, g) * PAGE_SIZE
  {
  }

  /** Two blocks of the page allocator have no byte in common. */
  lemma SegsApart(base: nat, free: seq<bool>, length: seq<nat>, live: map<nat, nat>, g: Seg, g': Seg, pa: nat)
    requires CoreMap.Inv(free, length, live) && Backed(base, live, g) && Backed(base, live, g') && g.pbase != g'.pbase
             && Holds(g, pa)
    ensures !Holds(g', pa)
  {
    HomeAddr(base, live, g);
    HomeAddr(base, live, g');
    var q, q' := Home(base, g), Home(base, g');
    assert InBlock(live, q, q) && InBlock(live, q', q');
    assert InBlock(live, q, q') <==> q <= q' < q + live[q];
    assert InBlock(live, q', q) <==> q' <= q < q' + live[q'];
  }

  /** Where a space's translation of a page lands. */
  lemma Lands(base: nat, live: map<nat, nat>, s: Space, va: nat)
    requires Formed(s) && Ready(s) && Owns(base, live, s) && Translate(s, va).Some?
    ensures Holds(SegOf(s, Which(s, va)), Translate(s, va).value) && Backed(base, live, SegOf(s, Which(s, va)))
  {
    SegRange(SegOf(s, Which(s, va)), va);
  }

  /** A page is translated to a page. */
  lemma PageToPage(s: Space, va: nat)
    requires Formed(s) && Ready(s) && Aligned(va) && Translate(s, va).Some?
    ensures Aligned(Translate(s, va).value)
  {
    var g := SegOf(s, Which(s, va));
    assert Aligned(g.vbase) && Aligned(g.pbase);
    AlignedShift(va, g.vbase, g.pbase);
  }

  lemma AlignedShift(a: nat, b: nat, c: nat)
    requires Aligned(a) && Aligned(b) && Aligned(c) && b <= a
    ensures Aligned(a - b + c)
  {
  }

  /** Different spaces translate to different bytes. */
  lemma NeverShared(base: nat, free: seq<bool>, length: seq<nat>, live: map<nat, nat>, s: Space, s': Space, va: nat,
      va': nat)
    requires CoreMap.Inv(free, length, live) && Formed(s) && Ready(s) && Owns(base, live, s) && Formed(s')
             && Ready(s') && Owns(base, live, s')
    requires Apart(s, s') && Translate(s, va).Some? && Translate(s', va').Some?
    ensures Translate(s, va) != Translate(s', va')
  {
    Lands(base, live, s, va);
    Lands(base, live, s', va');
    var g, g' := SegOf(s, Which(s, va)), SegOf(s', Which(s', va'));
    SegsApart(base, free, length, live, g, g', Translate(s, va).value);
  }

  /** One space translates different addresses to different bytes. */
  lemma Injective(base: nat, free: seq<bool>, length: seq<nat>, live: map<nat, nat>, s: Space, va: nat, va': nat)
    requires CoreMap.Inv(free, length, live) && Formed(s) && Ready(s) && Owns(base, live, s)
    requires Translate(s, va).Some? && Translate(s, va') == Translate(s, va)
    ensures va == va'
  {
    Lands(base, live, s, va);
    Lands(base, live, s, va');
    var i, j := Which(s, va), Which(s, va');
    if i != j {
      var g, g' := SegOf(s, i), SegOf(s, j);
      assert g.pbase != g'.pbase;
      SegsApart(base, free, length, live, g, g', Translate(s, va).value);
    }
  }
}
