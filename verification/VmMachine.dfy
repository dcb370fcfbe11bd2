/** A machine with several address spaces (kern/vm/addrspace.c, kern/vm/vm.c). */
module VmMachine {
  import opened Options
  import opened CoreMap
  import opened VmSpace
  import opened Vm

  class AddrSpace {
    var vbase1: nat
    var pbase1: nat
    var npages1: nat
    var vbase2: nat
    var pbase2: nat
    var npages2: nat
    var stackpbase: nat

    /** as_create. */
    constructor ()
      ensures S() == Space(0, 0, 0, 0, 0, 0, 0)
    {
      vbase1, pbase1, npages1, vbase2, pbase2, npages2, stackpbase := 0, 0, 0, 0, 0, 0, 0;
    }

    function S(): Space
      reads this
    {
      Space(vbase1, pbase1, npages1, vbase2, pbase2, npages2, stackpbase)
    }

    method SetPbase(i: nat, pbase: nat)
      requires i < 3
      modifies this`pbase1, this`pbase2, this`stackpbase
      ensures S() == SetSeg(old(S()), i, pbase)
    {
      if i == 0 { pbase1 := pbase; } else if i == 1 { pbase2 := pbase; } else { stackpbase := pbase; }
    }
  }

  // ----- all the spaces at once -----

  ghost predicate SpaceOk(base: nat, live: map<nat, nat>, kernel: set<nat>, s: Space)
  {
    && Formed(s) && Owns(base, live, s)
    && forall i: nat :: i < 3 && SegOf(s, i).pbase != 0 ==> Home(base, SegOf(s, i)) !in kernel
  }

  /** No page belongs to two spaces, or to a space and the kernel. */
  ghost predicate SpacesOk(base: nat, live: map<nat, nat>, kernel: set<nat>, m: map<AddrSpace, Space>)
  {
    && (forall a :: a in m ==> SpaceOk(base, live, kernel, m[a]))
    && (forall a, b :: a in m && b in m && a != b ==> Apart(m[a], m[b]))
    && (forall q :: q in kernel ==> q in live)
  }

  /** The page allocator hands out one more block. */
  lemma OwnsMore(base: nat, live: map<nat, nat>, s: Space, q: nat, n: nat)
    requires Owns(base, live, s) && q !in live
    ensures Owns(base, live[q := n], s)
  {
  }

  lemma SpacesMore(base: nat, live: map<nat, nat>, kernel: set<nat>, m: map<AddrSpace, Space>, q: nat, n: nat)
    requires SpacesOk(base, live, kernel, m) && q !in live
    ensures SpacesOk(base, live[q := n], kernel, m)
  {
    hide Owns, Apart, Formed;
    forall a | a in m ensures SpaceOk(base, live[q := n], kernel, m[a]) { OwnsMore(base, live, m[a], q, n); }
  }

  function SetSeg(s: Space, i: nat, pbase: nat): Space
    requires i < 3
  {
    if i == 0 then s.(pbase1 := pbase) else if i == 1 then s.(pbase2 := pbase) else s.(stackpbase := pbase)
  }

  lemma SetSegOf(s: Space, i: nat, pbase: nat, j: nat)
    requires i < 3 && j < 3
    ensures SegOf(SetSeg(s, i, pbase), j) == if i == j then SegOf(s, j).(pbase := pbase) else SegOf(s, j)
  {
  }

  /** A segment backed by a block is at no address of a block not yet handed out. */
  lemma NewAddress(base: nat, live: map<nat, nat>, g: Seg, q: nat)
    requires Backed(base, live, g) && q !in live
    ensures g.pbase != base + q * PAGE_SIZE
  {
  }

  lemma NewHome(base: nat, g: Seg, q: nat)
    requires g.pbase == base + q * PAGE_SIZE
    ensures Aligned(g.pbase - base) && Home(base, g) == q
  {
  }

  lemma GivenOwns(base: nat, live: map<nat, nat>, kernel: set<nat>, s: Space, i: nat, q: nat, n: nat)
    requires SpaceOk(base, live, kernel, s) && i < 3 && q !in live && q !in kernel && n == SegOf(s, i).npages
             && base > 0
    requires SegOf(s, i).pbase == 0
    ensures SpaceOk(base, live[q := n], kernel, SetSeg(s, i, base + q * PAGE_SIZE))
  {
    hide Backed, SegOf, SetSeg;
    var pb, live' := base + q * PAGE_SIZE, live[q := n];
    var s' := SetSeg(s, i, pb);
    forall j: nat | j < 3
      ensures Aligned(SegOf(s', j).vbase) && SegOf(s', j).vbase < TWO32 && SegOf(s', j).npages < MAXPAGES
      ensures SegOf(s', j).pbase != 0 ==>
                Backed(base, live', SegOf(s', j)) && base <= SegOf(s', j).pbase && Home(base, SegOf(s', j)) !in kernel
      ensures j != i && SegOf(s', j).pbase != 0 ==> SegOf(s', j).pbase != pb
      ensures SegOf(s', j).pbase == if i == j then pb else SegOf(s, j).pbase
    {
      SetSegOf(s, i, pb, j);
      if j == i {
        NewHome(base, SegOf(s', j), q);
        BackedNew(base, live', SegOf(s', j), q);
      } else if SegOf(s, j).pbase != 0 {
        NewAddress(base, live, SegOf(s, j), q);
        BackedMore(base, live, SegOf(s, j), q, n);
      }
    }
  }

  lemma BackedNew(base: nat, live: map<nat, nat>, g: Seg, q: nat)
    requires g.pbase == base + q * PAGE_SIZE && q in live && live[q] == g.npages
    ensures Backed(base, live, g) && base <= g.pbase
  {
    NewHome(base, g, q);
  }

  lemma BackedMore(base: nat, live: map<nat, nat>, g: Seg, q: nat, n: nat)
    requires Backed(base, live, g) && q !in live
    ensures Backed(base, live[q := n], g) && base <= g.pbase
  {
  }

  lemma GivenApart(base: nat, live: map<nat, nat>, s: Space, z: Space, i: nat, q: nat)
    requires Owns(base, live, z) && Apart(s, z) && Apart(z, s) && i < 3 && q !in live && base > 0
    ensures Apart(SetSeg(s, i, base + q * PAGE_SIZE), z) && Apart(z, SetSeg(s, i, base + q * PAGE_SIZE))
  {
    var s' := SetSeg(s, i, base + q * PAGE_SIZE);
    forall j: nat | j < 3
      ensures SegOf(z, j).pbase != base + q * PAGE_SIZE
    {
      if SegOf(z, j).pbase != 0 { NewAddress(base, live, SegOf(z, j), q); }
    }
    forall j: nat | j < 3
      ensures SegOf(s', j).pbase == if i == j then base + q * PAGE_SIZE else SegOf(s, j).pbase
    {
      SetSegOf(s, i, base + q * PAGE_SIZE, j);
    }
    hide Backed, SegOf, SetSeg;
  }

  /** A segment without memory gets a block of just its size. */
  lemma SegGiven(base: nat, live: map<nat, nat>, kernel: set<nat>, m: map<AddrSpace, Space>, a: AddrSpace, i: nat,
      q: nat, n: nat)
    requires SpacesOk(base, live, kernel, m) && a in m && i < 3 && q !in live && base > 0
    requires SegOf(m[a], i).pbase == 0 && n == SegOf(m[a], i).npages
    ensures SpacesOk(base, live[q := n], kernel, m[a := SetSeg(m[a], i, base + q * PAGE_SIZE)])
  {
    hide Owns, Apart, Formed, SetSeg, SpaceOk;
    var s', live' := SetSeg(m[a], i, base + q * PAGE_SIZE), live[q := n];
    var m' := m[a := s'];
    SpacesMore(base, live, kernel, m, q, n);
    GivenOwns(base, live, kernel, m[a], i, q, n);
    forall b | b in m && b != a
      ensures Apart(s', m[b]) && Apart(m[b], s')
    {
      OwnsOf(base, live, kernel, m[b]);
      GivenApart(base, live, m[a], m[b], i, q);
    }
  }

  lemma OwnsOf(base: nat, live: map<nat, nat>, kernel: set<nat>, s: Space)
    requires SpaceOk(base, live, kernel, s)
    ensures Owns(base, live, s) && Formed(s)
  {
  }

  /** A space that owns nothing joins the others. */
  lemma SpaceAdded(base: nat, live: map<nat, nat>, kernel: set<nat>, m: map<AddrSpace, Space>, a: AddrSpace, s: Space)
    requires SpacesOk(base, live, kernel, m) && a !in m && Formed(s)
             && (forall i: nat :: i < 3 ==> SegOf(s, i).pbase == 0)
    ensures SpacesOk(base, live, kernel, m[a := s])
  {
    hide Backed, SegOf;
  }

  /** Virtual bases and sizes change before there is memory behind them. */
  lemma SpaceReshaped(base: nat, live: map<nat, nat>, kernel: set<nat>, m: map<AddrSpace, Space>, a: AddrSpace,
      s: Space)
    requires SpacesOk(base, live, kernel, m) && a in m && Formed(s)
    requires forall i: nat :: i < 3 ==> SegOf(s, i).pbase == SegOf(m[a], i).pbase
    requires forall i: nat :: i < 3 && SegOf(s, i).pbase != 0 ==> SegOf(s, i).npages == SegOf(m[a], i).npages
    ensures SpacesOk(base, live, kernel, m[a := s])
  {
    hide SegOf;
    assert SpaceOk(base, live, kernel, m[a]);
    forall b | b in m && b != a
      ensures Apart(s, m[b]) && Apart(m[b], s)
    {
      assert Apart(m[a], m[b]) && Apart(m[b], m[a]);
    }
  }

  /** Without a ready space the TLB is empty. */
  lemma TlbEmpty(tlb: seq<Entry>, s: Space, active: Option<Space>)
    requires TlbOk(tlb, Some(s)) && !Ready(s)
    ensures TlbOk(tlb, active)
  {
  }

  /** Memory has a byte at every address of the n pages from base on. */
  ghost predicate RamOk(ram: map<nat, nat>, base: nat, n: nat)
  {
    forall a: nat :: base <= a < base + n * PAGE_SIZE ==> a in ram
  }

  lemma SegInRam(ram: map<nat, nat>, base: nat, free: seq<bool>, length: seq<nat>, live: map<nat, nat>, g: Seg, pa: nat)
    requires RamOk(ram, base, |free|) && CoreMap.Inv(free, length, live) && Backed(base, live, g) && Holds(g, pa)
    ensures pa in ram
  {
    HomeAddr(base, live, g);
  }

  /** as_define_region's rounding of a region to whole pages, with its 32-bit sums. */
  function RegionBase(vaddr: nat): nat
  {
    vaddr / PAGE_SIZE * PAGE_SIZE
  }

  function RegionPages(vaddr: nat, sz: nat): nat
  {
    ((sz + vaddr % PAGE_SIZE) % TWO32 + PAGE_SIZE - 1) % TWO32 / PAGE_SIZE
  }

  /** The pages cover the region if and only if no sum wraps, and then they are the fewest that do. */
  lemma RegionCovers(vaddr: nat, sz: nat)
    requires sz < TWO32
    ensures var b, n := RegionBase(vaddr), RegionPages(vaddr, sz);
            && (b <= vaddr && vaddr + sz <= b + n * PAGE_SIZE <==> sz + vaddr % PAGE_SIZE + PAGE_SIZE - 1 < TWO32)
            && (vaddr + sz <= b + n * PAGE_SIZE && n > 0 ==> b + (n - 1) * PAGE_SIZE < vaddr + sz)
  {
  }

  /** A region of all but one byte of the address space gets no page at all. */
  lemma RegionWraps()
    ensures RegionPages(0, TWO32 - 1) == 0
  {
  }

  lemma RegionFormed(vaddr: nat, sz: nat)
    requires vaddr < TWO32
    ensures Aligned(RegionBase(vaddr)) && RegionBase(vaddr) < TWO32 && RegionPages(vaddr, sz) < MAXPAGES
  {
  }

  /** The first region not yet defined becomes this one. */
  function Defined(s: Space, vaddr: nat, sz: nat): Space
  {
    if s.vbase1 == 0 then s.(vbase1 := RegionBase(vaddr), npages1 := RegionPages(vaddr, sz))
    else if s.vbase2 == 0 then s.(vbase2 := RegionBase(vaddr), npages2 := RegionPages(vaddr, sz))
    else s
  }

  lemma DefinedFormed(s: Space, vaddr: nat, sz: nat)
    requires Formed(s) && vaddr < TWO32
    ensures Formed(Defined(s, vaddr, sz))
  {
    RegionFormed(vaddr, sz);
    hide RegionBase, RegionPages;
    assert Aligned(SegOf(s, 0).vbase) && Aligned(SegOf(s, 1).vbase) && Aligned(SegOf(s, 2).vbase);
  }

  /** Every byte of a region just defined is mapped, unless a 32-bit sum wraps. */
  lemma DefinedMapped(s: Space, vaddr: nat, sz: nat, va: nat)
    requires s.vbase1 == 0 || s.vbase2 == 0
    requires vaddr <= va < vaddr + sz && vaddr + sz + PAGE_SIZE <= TWO32
    ensures Mapped(Defined(s, vaddr, sz), va) && Mapped(Defined(s, vaddr, sz), PageOf(va))
  {
    RegionCovers(vaddr, sz);
    var b, n := RegionBase(vaddr), RegionPages(vaddr, sz);
    assert b <= PageOf(va);
    hide RegionPages, RegionBase;
    assert Within(b, n, va) && Within(b, n, PageOf(va));
  }

  /** No memory is left for one of the segments. */
  ghost predicate SegFails(free: seq<bool>, s: Space)
  {
    NoRun(free, s.npages1) || NoRun(free, s.npages2) || NoRun(free, STACKPAGES)
  }

  class Machine {
    const cm: Coremap
    var ram: map<nat, nat>
    var tlb: seq<Entry>
    /** The space of the running thread, and the one whose pages are in the TLB. */
    var cur: AddrSpace?
    ghost var held: AddrSpace?

    /** The spaces there are, and those destroyed, whose pages are never given back. */
    ghost var spaces: set<AddrSpace>
    ghost var gone: set<AddrSpace>
    ghost var kernel: set<nat>

    ghost function Snap(): map<AddrSpace, Space>
      reads this, spaces, gone
    {
      map a | a in spaces + gone :: a.S()
    }

    ghost function Active(): Option<Space>
      reads this, held
    {
      if held == null then None else Some(held.S())
    }

    ghost predicate Valid()
      reads this, cm, cm.free, cm.length, spaces, gone, held
    {
      && cm.Valid() && RamOk(ram, cm.base, cm.free.Length)
      && SpacesOk(cm.base, cm.live, kernel, Snap()) && spaces !! gone
      && (cur != null ==> cur in spaces && cur == held) && (held != null ==> held in spaces + gone)
      && TlbOk(tlb, Active())
    }

    constructor (c: Coremap, memory: map<nat, nat>)
      requires c.Valid() && c.live == map[] && RamOk(memory, c.base, c.free.Length)
      ensures Valid() && cm == c && spaces == {} && kernel == {}
    {
      cm, ram, cur, held, gone := c, memory, null, null, {};
      tlb := seq(NUM_TLB, i => Entry(false, 0, 0));
      spaces, kernel := {}, {};
    }

    /** as_create, which fails when there is no memory for the structure. */
    method Create(oom: bool) returns (a: AddrSpace?)
      requires Valid()
      modifies this`spaces
      ensures Valid()
      ensures oom ==> a == null && spaces == old(spaces)
      ensures !oom ==> a != null && fresh(a) && a.S() == Space(0, 0, 0, 0, 0, 0, 0) && spaces == old(spaces) + {a}
    {
      hide CoreMap.Inv, SpacesOk, TlbOk, RamOk;
      if oom {
        return null;
      }
      a := new AddrSpace();
      SpaceAdded(cm.base, cm.live, kernel, Snap(), a, a.S());
      ghost var m := Snap();
      spaces := spaces + {a};
      assert Snap() == m[a := a.S()];
    }

    /** as_define_region. */
    method DefineRegion(a: AddrSpace, vaddr: nat, sz: nat) returns (err: Errno)
      requires Valid() && a in spaces && vaddr < TWO32 && sz < TWO32
      requires (a.vbase1 == 0 ==> a.pbase1 == 0) && (a.vbase1 != 0 && a.vbase2 == 0 ==> a.pbase2 == 0)
      modifies a`vbase1, a`npages1, a`vbase2, a`npages2
      ensures Valid()
      ensures a.S() == Defined(old(a.S()), vaddr, sz)
      ensures old(a.vbase1) != 0 ==> a.vbase1 == old(a.vbase1) && a.npages1 == old(a.npages1)
      ensures old(a.vbase1) == 0 || old(a.vbase2) != 0 ==> a.vbase2 == old(a.vbase2) && a.npages2 == old(a.npages2)
      ensures err == OK && vaddr + sz + PAGE_SIZE <= TWO32 ==> forall va :: vaddr <= va < vaddr + sz ==>
                Mapped(a.S(), va)
      ensures err == if old(a.vbase1) == 0 || old(a.vbase2) == 0 then OK else EUNIMP
    {
      hide CoreMap.Inv, SpacesOk, RamOk;
      ghost var m, s := Snap(), a.S();
      SpaceOf(cm.base, cm.live, kernel, m, a);
      DefinedFormed(s, vaddr, sz);
      if held == a && !Ready(s) { TlbEmpty(tlb, s, Some(Defined(s, vaddr, sz))); }
      hide RegionPages, RegionBase, TlbOk, Formed, Mapped;
      var n, b := RegionPages(vaddr, sz), RegionBase(vaddr);
      if a.vbase1 == 0 {
        a.vbase1, a.npages1 := b, n;
        err := OK;
      } else if a.vbase2 == 0 {
        a.vbase2, a.npages2 := b, n;
        err := OK;
      } else {
        err := EUNIMP;
      }
      assert Snap() == m[a := a.S()];
      SpaceReshaped(cm.base, cm.live, kernel, m, a, a.S());
      forall va | err == OK && vaddr + sz + PAGE_SIZE <= TWO32 && vaddr <= va < vaddr + sz
        ensures Mapped(a.S(), va)
      {
        DefinedMapped(s, vaddr, sz, va);
      }
    }

    method AllocBlock(npages: nat) returns (pa: nat, ghost q: nat)
      requires cm.Valid()
      modifies cm`live, cm.free, cm.length
      ensures cm.Valid() && (pa == 0 ==> cm.live == old(cm.live) && cm.free[..] == old(cm.free[..]))
      ensures pa == 0 <==> NoRun(old(cm.free[..]), npages)
      ensures pa != 0 ==>
                npages > 0 && pa == cm.base + q * PAGE_SIZE && q !in old(cm.live)
                && cm.live == old(cm.live)[q := npages]
      ensures pa != 0 ==> forall t, p :: InBlock(old(cm.live), t, p) ==> !(q <= p < q + npages)
    {
      hide CoreMap.Inv, Taken;
      pa := cm.GetPPages(npages);
      q := if pa == 0 then 0 else cm.Page(pa);
    }

    /** One of the three allocations of as_prepare_load. */
    method GetSeg(a: AddrSpace, i: nat, npages: nat) returns (pa: nat)
      requires Valid() && a in spaces && i < 3 && SegOf(a.S(), i).pbase == 0 && npages == SegOf(a.S(), i).npages
               && !Ready(a.S())
      modifies cm`live, cm.free, cm.length, a`pbase1, a`pbase2, a`stackpbase
      ensures Valid() && a.S() == SetSeg(old(a.S()), i, pa)
      ensures pa == 0 ==> cm.live == old(cm.live) && cm.free[..] == old(cm.free[..])
      ensures pa == 0 <==> NoRun(old(cm.free[..]), npages)
    {
      hide CoreMap.Inv, SpacesOk, RamOk, TlbOk, SegOf, SetSeg, Ready, NoRun, InBlock;
      ghost var m, s, live := Snap(), a.S(), cm.live;
      ghost var q;
      pa, q := AllocBlock(npages);
      if held == a { TlbEmpty(tlb, s, Some(SetSeg(s, i, pa))); }
      if pa != 0 {
        SegGiven(cm.base, live, kernel, m, a, i, q, npages);
      } else {
        SameSeg(s, i);
      }
      a.SetPbase(i, pa);
      assert Snap() == m[a := SetSeg(s, i, pa)];
    }

    /** as_prepare_load. */
    method PrepareLoad(a: AddrSpace) returns (err: Errno)
      requires Valid() && a in spaces && a.pbase1 == a.pbase2 == a.stackpbase == 0
      modifies cm`live, cm.free, cm.length, a`pbase1, a`pbase2, a`stackpbase
      ensures Valid() && (err == OK || err == ENOMEM)
      ensures a.S() == old(a.S()).(pbase1 := a.pbase1, pbase2 := a.pbase2, stackpbase := a.stackpbase)
      ensures err == OK <==> a.pbase1 != 0 && a.pbase2 != 0 && a.stackpbase != 0
      ensures err != OK ==> SegFails(cm.free[..], a.S())
    {
      hide Valid, NoRun;
      a.pbase1 := GetSeg(a, 0, a.npages1);
      if a.pbase1 == 0 {
        return ENOMEM;
      }
      a.pbase2 := GetSeg(a, 1, a.npages2);
      if a.pbase2 == 0 {
        return ENOMEM;
      }
      a.stackpbase := GetSeg(a, 2, STACKPAGES);
      if a.stackpbase == 0 {
        return ENOMEM;
      }
      return OK;
    }

    /** memmove between the direct-mapped pages of two segments. */
    method Memmove(dst: Seg, src: Seg)
      requires dst.npages == src.npages && forall pa: nat :: Holds(src, pa) ==> pa in ram
      modifies this`ram
      ensures Moved(old(ram), ram, dst, src)
    {
      forall a | a in ram && Holds(dst, a)
        ensures Source(dst, src, a) in ram
      {
        assert Holds(src, Source(dst, src, a));
      }
      ram := map a | a in ram :: if Holds(dst, a) then ram[Source(dst, src, a)] else ram[a];
    }

    /** The three moves of as_copy. */
    method CopyInto(p: AddrSpace, c: AddrSpace)
      requires Valid() && Twins(cm.base, cm.live, p.S(), c.S())
      modifies this`ram
      ensures Valid() && Copied(old(ram), ram, p.S(), c.S())
    {
      hide CoreMap.Inv, SpacesOk, RamOk, TlbOk, Twins, SegOf, Moved, Copied, Holds;
      ghost var s, s', r0, m := p.S(), c.S(), ram, Snap();
      forall i: nat | i < 3
        ensures SegOf(s', i).npages == SegOf(s, i).npages
        ensures forall pa: nat :: Holds(SegOf(s, i), pa) ==> pa in ram
      {
        TwinSeg(ram, cm.base, cm.free[..], cm.length[..], cm.live, s, s', i);
      }
      Memmove(SegOf(c.S(), 0), SegOf(p.S(), 0));
      ghost var r1 := ram;
      MovedKeys(r0, r1, SegOf(s', 0), SegOf(s, 0));
      Memmove(SegOf(c.S(), 1), SegOf(p.S(), 1));
      ghost var r2 := ram;
      MovedKeys(r1, r2, SegOf(s', 1), SegOf(s, 1));
      Memmove(SegOf(c.S(), 2), SegOf(p.S(), 2));
      MovedKeys(r2, ram, SegOf(s', 2), SegOf(s, 2));
      CopyDone(cm.base, cm.free[..], cm.length[..], cm.live, s, s', r0, r1, r2, ram);
      RamSame(r0, ram, cm.base, cm.free.Length);
      assert Snap() == m;
    }

    /** as_destroy of a space no thread runs in: only the structure goes; its pages are not given back. */
    method Destroy(a: AddrSpace)
      requires Valid() && a in spaces && a != cur
      modifies this`spaces, this`gone
      ensures Valid() && spaces == old(spaces) - {a} && gone == old(gone) + {a}
    {
      hide CoreMap.Inv, RamOk, TlbOk, SpacesOk;
      ghost var m := Snap();
      spaces, gone := spaces - {a}, gone + {a};
      assert Snap() == m;
    }

    /** The end of a thread: its space is detached, then destroyed, while the TLB still holds pages of it. */
    method Exit()
      requires Valid()
      modifies this`cur, this`spaces, this`gone
      ensures Valid() && cur == null && tlb == old(tlb)
      ensures spaces == old(spaces) - (if old(cur) == null then {} else {old(cur)})
    {
      hide CoreMap.Inv, RamOk, TlbOk, SpacesOk;
      if cur != null {
        var a := cur;
        ghost var m := Snap();
        cur := null;
        assert Snap() == m;
        Destroy(a);
      }
    }

    /** The end of a switch: the TLB is emptied only for a thread that has a space. */
    method SwitchTo(a: AddrSpace?)
      requires Valid() && (a != null ==> a in spaces)
      modifies this`tlb, this`cur, this`held
      ensures Valid() && cur == a
      ensures if a == null then tlb == old(tlb) else forall i :: 0 <= i < NUM_TLB ==> !tlb[i].valid
    {
      hide CoreMap.Inv, RamOk, TlbOk, SpacesOk;
      if a != null {
        Activate(a);
      } else {
        ghost var m := Snap();
        cur := null;
        assert Snap() == m;
      }
    }

    /** What is left in the TLB, of a destroyed space even, is no page of any other space. */
    lemma StaleEntries(i: nat, z: AddrSpace, va: nat)
      requires Valid() && i < NUM_TLB && tlb[i].valid && z in spaces && z != held && Ready(z.S())
      ensures Translate(z.S(), va) != Some(tlb[i].ppage)
    {
      hide CoreMap.Inv, RamOk, SpacesOk, Formed, Ready, Translate;
      var m := Snap();
      ApartNow(cm.base, cm.live, kernel, m, held, z);
      if Translate(z.S(), va).Some? {
        NeverShared(cm.base, cm.free[..], cm.length[..], cm.live, held.S(), z.S(), tlb[i].vpage, va);
      }
    }

    /** The child's structure, with the parent's layout and memory of its own. */
    method CopyLayout(p: AddrSpace, oom: bool) returns (err: Errno, c: AddrSpace?)
      requires Valid() && p in spaces && Ready(p.S())
      modifies this`spaces, this`gone, cm`live, cm.free, cm.length
      ensures Valid() && (err == OK || err == ENOMEM)
      ensures err != OK ==> c == null && spaces == old(spaces) && (oom || SegFails(cm.free[..], p.S()))
      ensures err == OK ==>
                c != null && fresh(c) && c !in old(spaces) && spaces == old(spaces) + {c} && SameLayout(p.S(), c.S())
    {
      hide CoreMap.Inv, RamOk, TlbOk, SpacesOk, Formed, NoRun;
      c := Create(oom);
      if c == null {
        return ENOMEM, null;
      }
      ghost var m := Snap();
      c.vbase1, c.npages1, c.vbase2, c.npages2 := p.vbase1, p.npages1, p.vbase2, p.npages2;
      SpaceOf(cm.base, cm.live, kernel, m, p);
      LayoutFormed(p.S(), c.S());
      SpaceReshaped(cm.base, cm.live, kernel, m, c, c.S());
      assert Snap() == m[c := c.S()];
      err := PrepareLoad(c);
      if err != OK {
        Destroy(c);
        return ENOMEM, null;
      }
    }

    /**
     as_copy. The child shows the parent's byte at every address, and every
     space there was shows what it showed before.
     */
    method Copy(p: AddrSpace, oom: bool) returns (err: Errno, c: AddrSpace?)
      requires Valid() && p in spaces && Ready(p.S())
      modifies this`spaces, this`gone, this`ram, cm`live, cm.free, cm.length
      ensures Valid() && (err == OK || err == ENOMEM)
      ensures err != OK ==>
                c == null && spaces == old(spaces) && ram == old(ram) && (oom || SegFails(cm.free[..], p.S()))
      ensures err == OK ==>
                c != null && fresh(c) && spaces == old(spaces) + {c} && SameLayout(p.S(), c.S()) && Ready(c.S())
      ensures err == OK ==> forall va :: ByteAt(ram, c.S(), va) == ByteAt(old(ram), p.S(), va)
      ensures err == OK ==> forall va :: Mapped(p.S(), va) ==> SameByte(old(ram), p.S(), ram, c.S(), va)
      ensures forall z, va :: z in old(spaces) && Ready(z.S()) ==> ByteAt(ram, z.S(), va) == ByteAt(old(ram), z.S(), va)
    {
      hide CoreMap.Inv, RamOk, TlbOk, SpacesOk, Formed, ByteAt, Copied, Twins, SameLayout, Ready, SegFails, Mapped,
          SameByte;
      err, c := CopyLayout(p, oom);
      if err != OK {
        return;
      }
      ghost var s, s', m := p.S(), c.S(), Snap();
      TwinsNow(cm.base, cm.live, kernel, m, p, c);
      CopyInto(p, c);
      forall va
        ensures ByteAt(ram, s', va) == ByteAt(old(ram), s, va)
        ensures Mapped(s, va) ==> SameByte(old(ram), s, ram, s', va)
      {
        ChildShows(old(ram), ram, cm.base, cm.free[..], cm.length[..], cm.live, s, s', va);
        if Mapped(s, va) { Shows(old(ram), cm.base, cm.free[..], cm.length[..], cm.live, s, va);
          BytesSame(old(ram), s, ram, s', va); }
      }
      forall z, va | z in old(spaces) && Ready(z.S())
        ensures ByteAt(ram, z.S(), va) == ByteAt(old(ram), z.S(), va)
      {
        ApartNow(cm.base, cm.live, kernel, m, z, c);
        OthersSee(cm.base, cm.free[..], cm.length[..], cm.live, s, s', z.S(), old(ram), ram, va);
      }
    }

    /** as_activate on the space of the thread switched to: the TLB is emptied. */
    method Activate(a: AddrSpace?)
      requires Valid() && (a != null ==> a in spaces)
      modifies this`tlb, this`cur, this`held
      ensures Valid() && cur == a && forall i :: 0 <= i < NUM_TLB ==> !tlb[i].valid
      ensures forall i, j :: 0 <= i < j < NUM_TLB ==> USERSTACK <= tlb[i].vpage && tlb[i].vpage != tlb[j].vpage
    {
      hide CoreMap.Inv, RamOk, SpacesOk;
      ghost var m := Snap();
      for i := 0 to NUM_TLB
        invariant |tlb| == NUM_TLB && forall j :: 0 <= j < i ==> tlb[j] == Entry(false, (0x80000 + j) * PAGE_SIZE, 0)
        modifies this`tlb
      {
        tlb := tlb[i := Entry(false, (0x80000 + i) * PAGE_SIZE, 0)];
      }
      cur, held := a, a;
      assert Snap() == m;
    }

    /**
     vm_fault on an address whose page is not in the TLB, for a read or write
     by a thread whose space is set up. The page is entered in the lowest slot
     that is not valid; there is no replacement.
     */
    method Fault(kind: FaultType, va: nat) returns (err: Errno)
      requires Valid() && kind != VmFaultReadonly && (cur != null ==> Ready(cur.S()))
      requires forall i :: 0 <= i < NUM_TLB && tlb[i].valid ==> tlb[i].vpage != PageOf(va)
      modifies this`tlb
      ensures Valid()
      ensures kind == VmFaultOther ==> err == EINVAL
      ensures kind != VmFaultOther ==> (err == OK || err == EFAULT)
      ensures err == OK <==> kind != VmFaultOther && cur != null && Mapped(cur.S(), PageOf(va))
                             && exists k :: 0 <= k < NUM_TLB && !old(tlb)[k].valid
      ensures err != OK ==> tlb == old(tlb)
      ensures err == OK ==>
                exists k :: 0 <= k < NUM_TLB && !old(tlb)[k].valid && (forall j :: 0 <= j < k ==> old(tlb)[j].valid)
                              && tlb == old(tlb)[k := Entry(true, PageOf(va), tlb[k].ppage)]
                              && FrameAt(cur.S(), PageOf(va), tlb[k].ppage)
    {
      var faultaddress := PageOf(va);
      if kind == VmFaultOther {
        return EINVAL;
      }
      if cur == null {
        return EFAULT;
      }
      ghost var m := Snap();
      SpaceOf(cm.base, cm.live, kernel, m, cur);
      TranslateExact(cur.S(), faultaddress);
      hide CoreMap.Inv, RamOk, SpacesOk, Formed, Mapped, FrameAt;
      var paddr := Translate(cur.S(), faultaddress);
      if paddr == None {
        return EFAULT;
      }
      PageToPage(cur.S(), faultaddress);
      assert Aligned(paddr.value);
      hide Translate, Ready;
      for i := 0 to NUM_TLB
        invariant tlb == old(tlb) && forall j :: 0 <= j < i ==> tlb[j].valid
      {
        if !tlb[i].valid {
          TlbFill(tlb, cur.S(), i, faultaddress);
          tlb := tlb[i := Entry(true, faultaddress, paddr.value)];
          assert Snap() == m;
          return OK;
        }
      }
      return EFAULT;
    }

    /** The processor's lookup of an address: the place of its page in the TLB, if any. */
    method Lookup(va: nat) returns (k: int)
      requires |tlb| == NUM_TLB
      ensures k == -1 ==> forall i :: 0 <= i < NUM_TLB && tlb[i].valid ==> tlb[i].vpage != PageOf(va)
      ensures k != -1 ==> 0 <= k < NUM_TLB && tlb[k].valid && tlb[k].vpage == PageOf(va)
    {
      for i := 0 to NUM_TLB
        invariant forall j :: 0 <= j < i && tlb[j].valid ==> tlb[j].vpage != PageOf(va)
      {
        if tlb[i].valid && tlb[i].vpage == PageOf(va) {
          return i;
        }
      }
      k := -1;
    }

    /**
     A store through the TLB. It changes the byte the active space shows at
     that address and no byte that any space shows anywhere else.
     */
    method Store(va: nat, value: nat) returns (hit: bool)
      requires Valid() && cur != null
      modifies this`ram
      ensures Valid() && (hit <==> exists k :: 0 <= k < NUM_TLB && tlb[k].valid && tlb[k].vpage == PageOf(va))
      ensures !hit ==> ram == old(ram)
      ensures hit ==> ByteAt(ram, cur.S(), va) == Some(value)
      ensures forall z, v :: z in spaces && Ready(z.S()) && (z != cur || v != va) ==>
                ByteAt(ram, z.S(), v) == ByteAt(old(ram), z.S(), v)
    {
      hide CoreMap.Inv, RamOk, SpacesOk, Formed, ByteAt, Ready, Translate;
      var k := Lookup(va);
      hit := k != -1;
      if hit {
        ghost var m, s := Snap(), cur.S();
        SpaceOf(cm.base, cm.live, kernel, m, cur);
        PageByte(s, va);
        ActiveByte(ram, cm.base, cm.free[..], cm.length[..], cm.live, s, va, value);
        var pa := tlb[k].ppage + (va - PageOf(va));
        RamStored(ram, cm.base, cm.free.Length, pa, value);
        ram := ram[pa := value];
        forall z, v | z in spaces && Ready(z.S()) && (z != cur || v != va)
          ensures ByteAt(ram, z.S(), v) == ByteAt(old(ram), z.S(), v)
        {
          if z == cur {
            OwnOthers(old(ram), cm.base, cm.free[..], cm.length[..], cm.live, s, va, v, value);
          } else {
            ApartNow(cm.base, cm.live, kernel, m, cur, z);
            AlienByte(old(ram), cm.base, cm.free[..], cm.length[..], cm.live, s, z.S(), va, v, value);
          }
        }
        assert Snap() == m;
      }
    }

    /** Pages the kernel takes for itself, as its heap does. */
    method KernelAlloc(npages: nat) returns (pa: nat, ghost q: nat)
      requires Valid()
      modifies this`kernel, cm`live, cm.free, cm.length
      ensures Valid()
      ensures pa == 0 ==> kernel == old(kernel)
      ensures pa == 0 <==> NoRun(old(cm.free[..]), npages)
      ensures pa != 0 ==> pa == cm.base + q * PAGE_SIZE && kernel == old(kernel) + {q} && q !in old(kernel)
    {
      hide CoreMap.Inv, RamOk, TlbOk, SpaceOk, Apart, NoRun;
      ghost var m, live := Snap(), cm.live;
      pa, q := AllocBlock(npages);
      if pa != 0 {
        KernelMore(cm.base, live, kernel, m, q, npages);
        kernel := kernel + {q};
      }
      assert Snap() == m;
    }

    /** Pages the kernel gives back. */
    method KernelFree(pa: nat)
      requires Valid() && pa >= cm.base && cm.Page(pa) in kernel
      modifies this`kernel, cm`live, cm.free, cm.length
      ensures Valid() && kernel == old(kernel) - {cm.Page(pa)}
    {
      hide CoreMap.Inv, RamOk, TlbOk, SpaceOk, Apart, Released;
      ghost var m, live := Snap(), cm.live;
      LiveLength(cm.free[..], cm.length[..], cm.live, cm.Page(pa));
      cm.FreeKPages(pa);
      KernelLess(cm.base, live, kernel, m, cm.Page(pa));
      kernel := kernel - {cm.Page(pa)};
      assert Snap() == m;
    }
  }

  lemma RamStored(ram: map<nat, nat>, base: nat, n: nat, pa: nat, value: nat)
    requires RamOk(ram, base, n)
    ensures RamOk(ram[pa := value], base, n)
  {
  }

  lemma ActiveByte(ram: map<nat, nat>, base: nat, free: seq<bool>, length: seq<nat>, live: map<nat, nat>, s: Space,
      va: nat, value: nat)
    requires RamOk(ram, base, |free|) && CoreMap.Inv(free, length, live) && Formed(s) && Ready(s)
             && Owns(base, live, s) && Translate(s, va).Some?
    ensures Translate(s, va).value in ram && ByteAt(ram[Translate(s, va).value := value], s, va) == Some(value)
  {
    Lands(base, live, s, va);
    hide CoreMap.Inv, RamOk, Translate, Formed, Owns;
    SegInRam(ram, base, free, length, live, SegOf(s, Which(s, va)), Translate(s, va).value);
  }

  /** The byte behind va in one space and memory is the one behind it in the other. */
  ghost predicate SameByte(ram: map<nat, nat>, s: Space, ram': map<nat, nat>, s': Space, va: nat)
  {
    exists pa, pa' :: FrameAt(s, va, pa) && FrameAt(s', va, pa') && pa in ram && pa' in ram' && ram'[pa'] == ram[pa]
  }

  lemma BytesSame(ram: map<nat, nat>, s: Space, ram': map<nat, nat>, s': Space, va: nat)
    requires Formed(s) && Formed(s') && ByteAt(ram, s, va).Some? && ByteAt(ram', s', va) == ByteAt(ram, s, va)
    ensures SameByte(ram, s, ram', s', va)
  {
    hide Formed, FrameAt, Translate;
    TranslateExact(s, va);
    TranslateExact(s', va);
    assert FrameAt(s, va, Translate(s, va).value) && FrameAt(s', va, Translate(s', va).value);
  }

  /** A prepared space shows a byte at every address of its three ranges. */
  lemma Shows(ram: map<nat, nat>, base: nat, free: seq<bool>, length: seq<nat>, live: map<nat, nat>, s: Space, va: nat)
    requires RamOk(ram, base, |free|) && CoreMap.Inv(free, length, live) && Formed(s) && Ready(s)
             && Owns(base, live, s) && Mapped(s, va)
    ensures ByteAt(ram, s, va).Some?
  {
    TranslateExact(s, va);
    Lands(base, live, s, va);
    hide CoreMap.Inv, RamOk, Translate, Formed, Owns, Mapped;
    SegInRam(ram, base, free, length, live, SegOf(s, Which(s, va)), Translate(s, va).value);
  }

  lemma OwnOthers(ram: map<nat, nat>, base: nat, free: seq<bool>, length: seq<nat>, live: map<nat, nat>, s: Space,
      va: nat, v: nat, value: nat)
    requires CoreMap.Inv(free, length, live) && Formed(s) && Ready(s) && Owns(base, live, s) && Translate(s, va).Some?
             && v != va
    requires Translate(s, va).value in ram
    ensures ByteAt(ram[Translate(s, va).value := value], s, v) == ByteAt(ram, s, v)
  {
    hide CoreMap.Inv, Translate, Formed, Owns, Ready;
    if Translate(s, v) == Translate(s, va) {
      Injective(base, free, length, live, s, va, v);
    }
  }

  lemma AlienByte(ram: map<nat, nat>, base: nat, free: seq<bool>, length: seq<nat>, live: map<nat, nat>, s: Space,
      z: Space, va: nat, v: nat, value: nat)
    requires CoreMap.Inv(free, length, live) && Formed(s) && Ready(s) && Owns(base, live, s) && Formed(z) && Ready(z)
             && Owns(base, live, z)
    requires Apart(s, z) && Translate(s, va).Some? && Translate(s, va).value in ram
    ensures ByteAt(ram[Translate(s, va).value := value], z, v) == ByteAt(ram, z, v)
  {
    hide CoreMap.Inv, Translate, Formed, Owns, Ready, Apart;
    if Translate(z, v).Some? {
      NeverShared(base, free, length, live, s, z, va, v);
    }
  }

  lemma KernelMore(base: nat, live: map<nat, nat>, kernel: set<nat>, m: map<AddrSpace, Space>, q: nat, n: nat)
    requires SpacesOk(base, live, kernel, m) && q !in live
    ensures q !in kernel && SpacesOk(base, live[q := n], kernel + {q}, m)
  {
    hide Apart, Formed, Owns;
    forall a | a in m
      ensures SpaceOk(base, live[q := n], kernel + {q}, m[a])
    {
      KernelApart(base, live, kernel, m[a], q, n);
    }
  }

  lemma KernelApart(base: nat, live: map<nat, nat>, kernel: set<nat>, s: Space, q: nat, n: nat)
    requires SpaceOk(base, live, kernel, s) && q !in live
    ensures SpaceOk(base, live[q := n], kernel + {q}, s)
  {
    OwnsMore(base, live, s, q, n);
    hide SegOf;
  }

  lemma KernelLess(base: nat, live: map<nat, nat>, kernel: set<nat>, m: map<AddrSpace, Space>, q: nat)
    requires SpacesOk(base, live, kernel, m) && q in kernel
    ensures SpacesOk(base, live - {q}, kernel - {q}, m)
  {
    hide Apart, Formed;
    forall a | a in m
      ensures SpaceOk(base, live - {q}, kernel - {q}, m[a])
    {
      assert SpaceOk(base, live, kernel, m[a]);
      hide SegOf;
    }
  }

  function PageOf(va: nat): (p: nat)
    ensures Aligned(p) && p <= va < p + PAGE_SIZE
  {
    va / PAGE_SIZE * PAGE_SIZE
  }

  /** A byte is translated with its page. */
  lemma PageByte(s: Space, va: nat)
    requires Formed(s) && Translate(s, PageOf(va)).Some?
    ensures Translate(s, va) == Some(Translate(s, PageOf(va)).value + (va - PageOf(va)))
  {
    forall i: nat | i < 3
      ensures InSeg(SegOf(s, i), va) <==> InSeg(SegOf(s, i), PageOf(va))
    {
      PageInSeg(SegOf(s, i), va);
    }
    hide InSeg, SegOf, PageOf;
  }

  lemma PageInSeg(g: Seg, va: nat)
    requires Aligned(g.vbase)
    ensures InSeg(g, va) <==> InSeg(g, PageOf(va))
  {
    var top := (g.vbase + g.npages * PAGE_SIZE) % TWO32;
    assert Aligned(top);
  }

  lemma ApartNow(base: nat, live: map<nat, nat>, kernel: set<nat>, m: map<AddrSpace, Space>, z: AddrSpace, c: AddrSpace)
    requires SpacesOk(base, live, kernel, m) && z in m && c in m && z != c
    ensures Formed(m[z]) && Owns(base, live, m[z]) && Apart(m[z], m[c]) && Formed(m[c]) && Owns(base, live, m[c])
  {
    hide Formed, Owns, Apart;
    assert SpaceOk(base, live, kernel, m[z]) && SpaceOk(base, live, kernel, m[c]);
  }

  lemma TwinsNow(base: nat, live: map<nat, nat>, kernel: set<nat>, m: map<AddrSpace, Space>, p: AddrSpace, c: AddrSpace)
    requires SpacesOk(base, live, kernel, m) && p in m && c in m && p != c && SameLayout(m[p], m[c]) && Ready(m[p])
             && base > 0
    requires base % PAGE_SIZE == 0
    ensures Twins(base, live, m[p], m[c]) && Ready(m[c]) && Formed(m[p]) && Formed(m[c])
  {
    ApartNow(base, live, kernel, m, p, c);
    TwinsReady(base, live, m[p], m[c]);
  }

  lemma TwinsReady(base: nat, live: map<nat, nat>, s: Space, s': Space)
    requires Owns(base, live, s) && Owns(base, live, s') && Apart(s, s') && SameLayout(s, s') && Ready(s)
             && base % PAGE_SIZE == 0
    ensures Twins(base, live, s, s') && Ready(s')
  {
    forall i: nat | i < 3
      ensures Aligned(SegOf(s', i).pbase) && SegOf(s', i).pbase != 0 && SegOf(s, i).pbase != 0
      ensures SegOf(s', i).npages == SegOf(s, i).npages && SegOf(s', i).vbase == SegOf(s, i).vbase
    {
      assert Backed(base, live, SegOf(s', i));
      AlignedSum(base, SegOf(s', i).pbase);
    }
    assert Aligned(SegOf(s', 0).pbase) && Aligned(SegOf(s', 1).pbase) && Aligned(SegOf(s', 2).pbase);
    hide Backed;
  }

  lemma AlignedSum(base: nat, a: nat)
    requires base % PAGE_SIZE == 0 && base <= a && Aligned(a - base)
    ensures Aligned(a)
  {
  }

  lemma ChildShows(ram: map<nat, nat>, ram': map<nat, nat>, base: nat, free: seq<bool>, length: seq<nat>,
      live: map<nat, nat>, s: Space, s': Space, va: nat)
    requires RamOk(ram, base, |free|) && CoreMap.Inv(free, length, live) && Twins(base, live, s, s')
             && Copied(ram, ram', s, s')
    requires Formed(s) && Formed(s') && Ready(s')
    ensures ByteAt(ram', s', va) == ByteAt(ram, s, va)
  {
    hide CoreMap.Inv, RamOk, Copied, Formed, Holds, Backed;
    forall i: nat, pa: nat | i < 3 && Holds(SegOf(s', i), pa)
      ensures pa in ram
    {
      SegInRam(ram, base, free, length, live, SegOf(s', i), pa);
    }
    ChildSees(base, live, s, s', ram, ram', va);
  }

  /** The same segments, with memory behind each. */
  predicate SameLayout(s: Space, s': Space)
  {
    && s'.vbase1 == s.vbase1 && s'.npages1 == s.npages1 && s'.vbase2 == s.vbase2 && s'.npages2 == s.npages2
    && s'.pbase1 != 0 && s'.pbase2 != 0 && s'.stackpbase != 0
  }

  lemma LayoutFormed(s: Space, s': Space)
    requires Formed(s) && s'.vbase1 == s.vbase1 && s'.npages1 == s.npages1 && s'.vbase2 == s.vbase2
             && s'.npages2 == s.npages2
    ensures Formed(s')
  {
    assert forall i: nat :: i < 3 ==>
        SegOf(s', i).vbase == SegOf(s, i).vbase && SegOf(s', i).npages == SegOf(s, i).npages;
  }

  lemma TwinSeg(ram: map<nat, nat>, base: nat, free: seq<bool>, length: seq<nat>, live: map<nat, nat>, s: Space,
      s': Space, i: nat)
    requires RamOk(ram, base, |free|) && CoreMap.Inv(free, length, live) && Twins(base, live, s, s') && i < 3
    ensures SegOf(s', i).npages == SegOf(s, i).npages && forall pa: nat :: Holds(SegOf(s, i), pa) ==> pa in ram
  {
    hide CoreMap.Inv, RamOk, Holds, Backed;
    forall pa: nat | Holds(SegOf(s, i), pa)
      ensures pa in ram
    {
      SegInRam(ram, base, free, length, live, SegOf(s, i), pa);
    }
  }

  lemma RamSame(ram: map<nat, nat>, ram': map<nat, nat>, base: nat, n: nat)
    requires RamOk(ram, base, n) && ram'.Keys == ram.Keys
    ensures RamOk(ram', base, n)
  {
  }

  lemma SameSeg(s: Space, i: nat)
    requires i < 3 && SegOf(s, i).pbase == 0
    ensures SetSeg(s, i, 0) == s
  {
  }

  lemma SpaceOf(base: nat, live: map<nat, nat>, kernel: set<nat>, m: map<AddrSpace, Space>, a: AddrSpace)
    requires SpacesOk(base, live, kernel, m) && a in m
    ensures SpaceOk(base, live, kernel, m[a]) && Formed(m[a]) && Owns(base, live, m[a])
  {
  }
}
