/** kmalloc and kfree (kern/lib/kheap.c). Addresses are physical: the kernel's direct map adds a constant to them. */
module KHeap {
  import opened CoreMap
  import opened KHeapPages
  import opened KHeapModel
  import opened KHeapSteps
  import opened KHeapWhole
  import opened KHeapOwned

  const DEADBEEF := 0xdeadbeef
  const TWO32 := 0x1_0000_0000

  /** Memory has a word for each of the n pages from base on. */
  ghost predicate Ram(mem: map<nat, nat>, base: nat, n: nat)
  {
    forall a: nat :: base <= a < base + n * PAGE_SIZE && a % 4 == 0 ==> a in mem
  }

  /** The bytes of these allocations are the same. */
  ghost predicate KeepsData(mem: map<nat, nat>, mem': map<nat, nat>, allocs: map<nat, nat>)
  {
    mem'.Keys == mem.Keys && forall a, w: nat :: a in allocs && a <= w < a + allocs[a] && w in mem ==> mem'[w] == mem[w]
  }

  lemma RamWord(mem: map<nat, nat>, base: nat, n: nat, q: nat, o: nat)
    requires Ram(mem, base, n) && base % PAGE_SIZE == 0 && q < n && o < PAGE_SIZE && o % 4 == 0
    ensures base + q * PAGE_SIZE + o in mem
  {
    WordAligned(base, q, o);
    Times(q, n, PAGE_SIZE);
  }

  lemma WordAligned(base: nat, q: nat, o: nat)
    requires base % PAGE_SIZE == 0 && o % 4 == 0
    ensures (base + q * PAGE_SIZE + o) % 4 == 0
  {
    assert base == PAGE_SIZE * (base / PAGE_SIZE);
    assert base + q * PAGE_SIZE + o == 4 * (PAGE_SIZE / 4 * (base / PAGE_SIZE) + PAGE_SIZE / 4 * q + o / 4);
  }

  lemma SumAligned(x: nat, y: nat)
    requires x % 4 == 0 && y % 4 == 0
    ensures (x + y) % 4 == 0
  {
  }

  /** blocktype. The panic is out of reach below the largest block size. */
  method BlockTypeOf(sz: nat) returns (t: nat)
    requires sz <= LARGEST
    ensures BestType(sz, t)
  {
    t := 0;
    while Size(t) < sz
      invariant t < NSIZES && forall u: nat :: u < t ==> Size(u) < sz
      decreases NSIZES - t
    {
      t := t + 1;
    }
  }

  /** The loop over a list of remove_lists: pr leaves the list s, where it is at place i. */
  method Unlink(next: seq<int>, head: int, pr: nat, ghost s: seq<nat>)
      returns (next': seq<int>, head': int, ghost i: nat)
    requires Chain(next, head, s) && pr in s
    ensures i < |s| && s[i] == pr && |next'| == |next| && Chain(next', head', RemoveAt(s, i))
    ensures forall p :: 0 <= p < |next| && p !in s ==> next'[p] == next[p]
  {
    hide Chain, RemoveAt;
    i := 0;
    ChainStep(next, head, s, 0);
    var prev, cur := NIL, head;
    while cur != pr
      invariant i < |s| && cur == s[i] && pr !in s[..i] && prev == (if i == 0 then NIL else s[i - 1])
      decreases |s| - i
    {
      assert pr in s[i..];
      ChainStep(next, head, s, i);
      prev, cur := cur, next[cur];
      i := i + 1;
    }
    ChainStep(next, head, s, i);
    if prev == NIL {
      ChainRemoveFirst(next, head, s);
      next', head' := next, next[pr];
    } else {
      ChainRemove(next, head, s, i);
      next', head' := next[prev := next[pr]], head;
    }
  }

  /** After i rounds the blocks below i are linked, each to the one before it. */
  ghost predicate Linked(mem: map<nat, nat>, page: nat, n: nat, i: nat)
  {
    forall k: nat :: k < i ==> page + k * n in mem && mem[page + k * n] == if k == 0 then 0 else page + (k - 1) * n
  }

  lemma LinkNext(mem: map<nat, nat>, page: nat, n: nat, i: nat)
    requires Linked(mem, page, n, i) && i > 0 && n > 0
    ensures Linked(mem[page + i * n := page + (i - 1) * n], page, n, i + 1)
  {
    var mem' := mem[page + i * n := page + (i - 1) * n];
    forall k: nat | k < i + 1
      ensures page + k * n in mem' && mem'[page + k * n] == if k == 0 then 0 else page + (k - 1) * n
    {
      if k < i { Times(k, i, n); }
    }
  }

  /** The same links read downwards, from the last block. */
  lemma DownLink(mem: map<nat, nat>, page: nat, n: nat, sz: nat, fl: seq<nat>, k: nat)
    requires Linked(mem, page, sz, n) && |fl| == n && (forall l :: 0 <= l < n ==> fl[l] == (n - 1 - l) * sz) && k < n
    ensures page + fl[k] in mem && mem[page + fl[k]] == if k + 1 < n then page + fl[k + 1] else 0
  {
    hide Linked;
    LinkedAt(mem, page, sz, n, n - 1 - k);
  }

  lemma DownDistinct(n: nat, sz: nat, fl: seq<nat>)
    requires sz > 0 && |fl| == n && forall l :: 0 <= l < n ==> fl[l] == (n - 1 - l) * sz
    ensures Distinct(fl)
  {
    forall k, l | 0 <= k < l < n
      ensures fl[k] != fl[l]
    {
      Times(n - 1 - l, n - 1 - k, sz);
    }
  }

  lemma LinkedDown(mem: map<nat, nat>, page: nat, t: nat)
    requires t < NSIZES && Linked(mem, page, Size(t), PerPage(t))
    ensures Links(mem, page, Downto(t), t)
  {
    hide Linked, IsOffset, Size, PerPage;
    var fl := Downto(t);
    DownDistinct(PerPage(t), Size(t), fl);
    hide Distinct;
    forall k | 0 <= k < |fl|
      ensures IsOffset(t, fl[k]) && page + fl[k] in mem
              && mem[page + fl[k]] == if k + 1 < |fl| then page + fl[k + 1] else 0
    {
      BlockStart(t, PerPage(t) - 1 - k);
      DownLink(mem, page, PerPage(t), Size(t), fl, k);
    }
  }

  lemma LinkedAt(mem: map<nat, nat>, page: nat, n: nat, i: nat, k: nat)
    requires Linked(mem, page, n, i) && k < i
    ensures page + k * n in mem && mem[page + k * n] == if k == 0 then 0 else page + (k - 1) * n
  {
  }

  lemma BlockMapped(mem: map<nat, nat>, page: nat, t: nat, k: nat)
    requires t < NSIZES && k < PerPage(t) && forall o: nat :: IsOffset(t, o) ==> page + o in mem
    ensures page + k * Size(t) in mem && k * Size(t) < PAGE_SIZE
  {
    BlockStart(t, k);
  }

  /** The free list of a fresh page is threaded through it. */
  method BuildList(mem: map<nat, nat>, page: nat, t: nat) returns (mem': map<nat, nat>)
    requires t < NSIZES && forall o: nat :: IsOffset(t, o) ==> page + o in mem
    ensures KeepsWords(mem, mem', page, PAGE_SIZE) && Links(mem', page, Downto(t), t)
  {
    hide Linked, IsOffset, Size, PerPage;
    BlockMapped(mem, page, t, 0);
    mem' := mem[page := 0];
    LinkFirst(mem', page, Size(t));
    var i := 1;
    while i < PerPage(t)
      invariant 1 <= i <= PerPage(t) && KeepsWords(mem, mem', page, PAGE_SIZE) && Linked(mem', page, Size(t), i)
    {
      BlockMapped(mem, page, t, i);
      LinkNext(mem', page, Size(t), i);
      mem' := mem'[page + i * Size(t) := page + (i - 1) * Size(t)];
      i := i + 1;
    }
    LinkedDown(mem', page, t);
  }

  lemma LinkFirst(mem: map<nat, nat>, page: nat, n: nat)
    requires page in mem && mem[page] == 0
    ensures Linked(mem, page, n, 1)
  {
  }

  /** fill_deadbeef. */
  method FillDeadbeef(mem: map<nat, nat>, a: nat, n: nat) returns (mem': map<nat, nat>)
    requires n % 4 == 0 && forall w: nat :: a <= w < a + n && (w - a) % 4 == 0 ==> w in mem
    ensures KeepsWords(mem, mem', a, n)
    ensures forall w: nat :: a <= w < a + n && (w - a) % 4 == 0 ==> mem'[w] == DEADBEEF
  {
    mem' := mem;
    for i := 0 to n / 4
      invariant KeepsWords(mem, mem', a, n)
      invariant forall w: nat :: a <= w < a + 4 * i && (w - a) % 4 == 0 ==> w in mem' && mem'[w] == DEADBEEF
    {
      assert a + 4 * i in mem;
      mem' := mem'[a + 4 * i := DEADBEEF];
    }
  }

  class Kheap {
    const cm: Coremap
    var nextSame: seq<int>
    var nextAll: seq<int>
    var pab: seq<nat>
    var offset: seq<nat>
    var nfree: seq<nat>
    var inuse: seq<bool>
    var sizebases: seq<int>
    var allbase: int
    var mem: map<nat, nat>
    ghost var g: Shadow

    function V(): Heap
      reads this
    {
      Heap(nextSame, nextAll, pab, offset, nfree, inuse, sizebases, allbase, mem)
    }

    /** The heap invariant over the page allocator, all but page x not wholly free. */
    ghost predicate Ok(x: int)
      reads this, cm, cm.free, cm.length
    {
      && cm.Valid() && g.base == cm.base && HeapInv(V(), g, cm.live, x)
      && Ram(mem, cm.base, cm.free.Length)
    }

    ghost predicate Valid()
      reads this, cm, cm.free, cm.length
    {
      Ok(NIL)
    }

    /** An empty heap over a page allocator. */
    constructor (c: Coremap, ram: map<nat, nat>)
      requires c.Valid() && Ram(ram, c.base, c.free.Length)
      ensures Valid() && cm == c && g.allocs == map[] && mem == ram
    {
      cm := c;
      nextSame, nextAll := seq(NPAGEREFS, i => NIL), seq(NPAGEREFS, i => NIL);
      pab, offset, nfree := seq(NPAGEREFS, i => 0), seq(NPAGEREFS, i => 0), seq(NPAGEREFS, i => 0);
      inuse, sizebases, allbase := seq(NPAGEREFS, i => false), seq(NSIZES, i => NIL), NIL;
      mem := ram;
      g := Shadow(c.base, [], seq(NSIZES, i => []), map[], map[], map[], {}, map[]);
    }

    /** allocpageref: the lowest record not in use. */
    method AllocPageRef() returns (p: int)
      requires |inuse| == NPAGEREFS
      modifies this`inuse
      ensures p == NIL ==> inuse == old(inuse) && forall i :: 0 <= i < NPAGEREFS ==> inuse[i]
      ensures p != NIL ==> 0 <= p < NPAGEREFS && !old(inuse)[p] && inuse == old(inuse)[p := true]
      ensures p != NIL ==> forall i :: 0 <= i < p ==> old(inuse)[i]
    {
      p := 0;
      while p < NPAGEREFS && inuse[p]
        invariant 0 <= p <= NPAGEREFS && inuse == old(inuse) && forall i :: 0 <= i < p ==> inuse[i]
      {
        p := p + 1;
      }
      if p == NPAGEREFS {
        return NIL;
      }
      inuse := inuse[p := true];
    }

    /** The step at doalloc: the first free block of page pr is taken. */
    method TakeBlock(pr: nat, ghost x: int) returns (a: nat)
      requires Ok(x) && HasFree(V(), g, cm.live, x, pr)
      modifies this`nfree, this`offset, this`g
      ensures Valid() && a != 0 && a !in old(g.allocs) && FromPage(old(g), a, pr)
      ensures g == PopShadow(old(g), pr) && g.allocs == old(g.allocs)[a := Size(old(g).kind[pr])]
      ensures g.all == old(g.all) && Foreign(g, cm.live) == old(Foreign(g, cm.live))
    {
      hide HeapInv, FromPage, PageOk, Ram, Foreign;
      ghost var h, g0 := V(), g;
      HasFreeFacts(h, g, cm.live, x, pr);
      PopKeeps(h, g, cm.live, x, pr);
      RecordPage(h, g, cm.live, x, pr);
      var prpage := PageAddr(pab[pr]);
      a := prpage + offset[pr];
      var fl := mem[a];
      nfree := nfree[pr := nfree[pr] - 1];
      if fl != 0 {
        offset := offset[pr := fl - prpage];
      } else {
        offset := offset[pr := INVALID_OFFSET];
      }
      g := PopShadow(g, pr);
      SameOwned(g0, g, cm.live);
      assert V() == PopFree(h, g0, pr);
    }

    /** alloc_kpages. */
    method AllocKPages(npages: nat) returns (a: nat, ghost q: nat)
      requires cm.Valid()
      modifies cm`live, cm.free, cm.length
      ensures cm.Valid()
      ensures a == 0 ==> cm.live == old(cm.live) && NoRun(cm.free[..], npages)
      ensures a != 0 ==> npages > 0 && a == cm.base + q * PAGE_SIZE && q + npages <= cm.free.Length
      ensures a != 0 ==> Unused(old(cm.live), q, npages) && cm.live == old(cm.live)[q := npages]
    {
      hide CoreMap.Inv, Taken;
      a := cm.GetPPages(npages);
      q := if a == 0 then 0 else cm.Page(a);
    }

    /** The part of subpage_kmalloc that makes a fresh page of blocks of type t. */
    method NewPage(t: nat) returns (pr: int)
      requires Valid() && t < NSIZES
      modifies this, cm`live, cm.free, cm.length
      ensures pr == NIL ==> Valid() && g == old(g) && V() == old(V()) && cm.live == old(cm.live)
      ensures pr == NIL ==> (forall i :: 0 <= i < |inuse| ==> inuse[i]) || NoRun(cm.free[..], 1)
      ensures pr != NIL ==> 0 <= pr && Ok(pr) && HasFree(V(), g, cm.live, pr, pr) && g.allocs == old(g.allocs)
      ensures pr != NIL ==> pr in g.kind && g.kind[pr] == t && KeepsData(old(mem), mem, g.allocs)
      ensures pr != NIL ==> g.all == [pr] + old(g.all) && Foreign(g, cm.live) == old(Foreign(g, cm.live))
    {
      hide HeapInv, Ram, HasFree, KeepsData, CoreMap.Inv, Taken, Links, KeepsWords, IsOffset, NewHeap, PerPage, Size,
          Unused, NoRun, Foreign;
      ghost var h, live0, free0, length0 := V(), cm.live, cm.free[..], cm.length[..];
      HeapSized(h, g, cm.live, NIL);
      pr := AllocPageRef();
      if pr == NIL {
        return;
      }
      var prpage;
      ghost var q;
      prpage, q := AllocKPages(1);
      if prpage == 0 {
        inuse := inuse[pr := false];
        assert V() == h;
        return NIL;
      }
      FreshWords(mem, cm.base, cm.free.Length, q, t);
      var mem' := BuildList(mem, prpage, t);
      NewKeeps(h, g, free0, length0, live0, pr, q, t, mem');
      BigUsed(h, g, free0, length0, live0, NIL, q, 1);
      NewOwned(g, live0, pr, q, t);
      FreshHasFree(h, g, live0, pr, q, t, mem');
      DataKept(h, g, free0, length0, live0, q, mem');
      RamKept(mem, mem', cm.base, cm.free.Length, prpage, PAGE_SIZE);
      Install(pr, prpage, t, mem', h, q);
    }

    method Install(pr: nat, prpage: nat, t: nat, mem': map<nat, nat>, ghost h: Heap, ghost q: nat)
      requires Sized(h, g) && pr < NPAGEREFS && t < NSIZES && V() == h.(inuse := h.inuse[pr := true])
               && prpage == Addr(g, q, 0)
      modifies this
      ensures V() == NewHeap(h, old(g), pr, q, t, mem') && g == NewShadow(old(g), pr, q, t) && mem == mem'
    {
      pab := pab[pr := prpage + t];
      nfree := nfree[pr := PerPage(t)];
      mem := mem';
      offset := offset[pr := (PerPage(t) - 1) * Size(t)];
      nextSame, sizebases := nextSame[pr := sizebases[t]], sizebases[t := pr];
      nextAll, allbase := nextAll[pr := allbase], pr;
      g := NewShadow(g, pr, q, t);
    }

    /** No page of blocks of type t has one free. */
    ghost predicate NoneFree(t: nat)
      requires t < |g.same|
      reads this
    {
      forall p :: p in g.same[t] && p < |nfree| ==> nfree[p] == 0
    }

    /** No block for sz bytes can be had: none of the best size is free, and no page can be added for it. */
    ghost predicate Exhausted(sz: nat, t: nat)
      reads this, cm.free
    {
      && BestType(sz, t) && t < |g.same|
      && NoneFree(t) && ((forall i :: 0 <= i < |inuse| ==> inuse[i]) || NoRun(cm.free[..], 1))
    }

    /** The search of subpage_kmalloc through the pages of one block size. */
    method FindPage(t: nat) returns (pr: int)
      requires Valid() && t < NSIZES
      ensures |g.same| == NSIZES
      ensures pr == NIL ==> NoneFree(t)
      ensures pr != NIL ==> 0 <= pr && HasFree(V(), g, cm.live, NIL, pr) && pr in g.kind && g.kind[pr] == t
    {
      hide HeapInv, Ram, Chain, CoreMap.Inv;
      HeapSized(V(), g, cm.live, NIL);
      SameFacts(V(), g, cm.live, NIL, t);
      ghost var s, i := g.same[t], 0;
      pr := sizebases[t];
      ChainStep(nextSame, pr, s, 0);
      while pr != NIL
        invariant 0 <= i <= |s| && pr == Nth(s, i) && forall k :: 0 <= k < i ==> s[k] < NPAGEREFS && nfree[s[k]] == 0
        decreases |s| - i
      {
        PageInSame(V(), g, cm.live, NIL, t, pr);
        assert BlockType(pab[pr]) == t;
        if nfree[pr] > 0 {
          return;
        }
        ChainStep(nextSame, sizebases[t], s, i);
        pr := nextSame[pr];
        i := i + 1;
      }
    }

    /** subpage_kmalloc. */
    method SubpageKmalloc(sz: nat) returns (a: nat, ghost t: nat)
      requires Valid() && sz <= LARGEST
      modifies this, cm`live, cm.free, cm.length
      ensures Valid() && BestType(sz, t) && |g.same| == NSIZES && Foreign(g, cm.live) == old(Foreign(g, cm.live))
      ensures a == 0 ==> g == old(g) && mem == old(mem) && cm.live == old(cm.live)
      ensures a == 0 ==> Exhausted(sz, t)
      ensures a != 0 ==> a !in old(g.allocs) && g.allocs == old(g.allocs)[a := Size(t)]
      ensures old(Spare(g, t)) ==> a != 0 && g.all == old(g.all) && cm.live == old(cm.live)
      ensures a != 0 ==> KeepsData(old(mem), mem, old(g.allocs))
    {
      hide HeapInv, Ram, HasFree, KeepsData, CoreMap.Inv, NoRun, FromPage, Foreign, Spare;
      DataSame(mem, g.allocs);
      var blktype := BlockTypeOf(sz);
      t := blktype;
      var pr := FindPage(blktype);
      if pr != NIL {
        a := TakeBlock(pr, NIL);
      } else {
        NoSpare(V(), g, cm.live, blktype);
        pr := NewPage(blktype);
        if pr == NIL {
          HeapSized(V(), g, cm.live, NIL);
          return 0, blktype;
        }
        a := TakeBlock(pr, pr);
      }
      HeapSized(V(), g, cm.live, NIL);
    }

    /**
     kmalloc, for any 32-bit size. The block returned was not in use, is of the
     smallest block size or number of pages that is enough, and aligned; nothing
     else in use is touched, and no page is taken while a block will do. The
     rounding up to pages wraps for sizes within a page of the top, which then
     fail.
     */
    method Kmalloc(sz: nat) returns (a: nat)
      requires Valid() && sz < TWO32
      modifies this, cm`live, cm.free, cm.length
      ensures Valid()
      ensures a == 0 ==> g.allocs == old(g.allocs) && mem == old(mem)
      ensures a == 0 && sz >= LARGEST ==> NoRun(cm.free[..], (sz + PAGE_SIZE - 1) % TWO32 / PAGE_SIZE)
      ensures a == 0 && sz < LARGEST ==> exists t :: Exhausted(sz, t)
      ensures a != 0 ==> a !in old(g.allocs) && a in g.allocs && g.allocs == old(g.allocs)[a := g.allocs[a]]
      ensures a != 0 ==> g.allocs[a] >= sz && a % 16 == 0 && KeepsData(old(mem), mem, old(g.allocs))
      ensures a != 0 && sz < LARGEST ==> BestFit(sz, g.allocs[a])
      ensures a != 0 && sz >= LARGEST ==>
                a % PAGE_SIZE == 0 && g.allocs[a] % PAGE_SIZE == 0 && g.allocs[a] < sz + PAGE_SIZE
      ensures forall t :: sz < LARGEST && BestType(sz, t) && old(Spare(g, t)) ==> a != 0 && cm.live == old(cm.live)
      ensures Foreign(g, cm.live) == old(Foreign(g, cm.live))
    {
      hide HeapInv, Ram, KeepsData, CoreMap.Inv, NoRun, Exhausted, Unused, Foreign, Spare, BestFit;
      if sz >= LARGEST {
        var npages := (sz + PAGE_SIZE - 1) % TWO32 / PAGE_SIZE;
        ghost var free0, length0, live0 := cm.free[..], cm.length[..], cm.live;
        ghost var q;
        a, q := AllocKPages(npages);
        if a != 0 {
          RoundUp(sz, npages);
          DataSame(mem, g.allocs);
          BigKeeps(V(), g, free0, length0, live0, q, npages);
          BigUsed(V(), g, free0, length0, live0, NIL, q, npages);
          BigOwned(g, live0, q, npages);
          g := BigShadow(g, q, npages);
          AllocAligned(V(), g, cm.live, NIL, a);
        }
      } else {
        ghost var t;
        a, t := SubpageKmalloc(sz);
        BestOf(sz, t);
        if a != 0 { AllocAligned(V(), g, cm.live, NIL, a); }
      }
    }

    /** The search of subpage_kfree for the page an address lies in. */
    method FindOwner(a: nat) returns (pr: int)
      requires Valid()
      ensures pr == NIL ==> forall p :: p in g.all ==> !InPage(g, p, a)
      ensures pr != NIL ==> 0 <= pr < |pab| && pr in g.all && Record(V(), g, pr) && InPage(g, pr, a)
    {
      hide HeapInv, Ram, Chain, CoreMap.Inv, InPage;
      AllFacts(V(), g, cm.live, NIL);
      ghost var i := 0;
      pr := allbase;
      ChainStep(nextAll, pr, g.all, 0);
      while pr != NIL
        invariant 0 <= i <= |g.all| && pr == Nth(g.all, i) && forall k :: 0 <= k < i ==> !InPage(g, g.all[k], a)
        decreases |g.all| - i
      {
        PageFacts(V(), g, cm.live, NIL, pr);
        RecordAddr(V(), g, pr);
        var prpage := PageAddr(pab[pr]);
        InPageOf(g, pr, a);
        if prpage <= a < prpage + PAGE_SIZE {
          return;
        }
        ChainStep(nextAll, allbase, g.all, i);
        pr := nextAll[pr];
        i := i + 1;
      }
    }

    /** The block of page pr at address a goes on the page's free list, its old content overwritten. */
    method GiveBlock(pr: nat, a: nat)
      requires Valid() && a in g.allocs && pr < |pab| && pr in g.all && Record(V(), g, pr) && InPage(g, pr, a)
      modifies this`mem, this`offset, this`nfree, this`g
      ensures Ok(pr) && g == PushShadow(old(g), pr, a - Addr(old(g), old(g).page[pr], 0))
              && g.allocs == old(g.allocs) - {a}
      ensures pr < NPAGEREFS && pr in g.all && Record(V(), g, pr) && |nfree| == NPAGEREFS
              && nfree[pr] <= PerPage(g.kind[pr])
      ensures KeepsData(old(mem), mem, g.allocs) && Foreign(g, cm.live) == old(Foreign(g, cm.live))
    {
      hide HeapInv, Ram, KeepsData, CoreMap.Inv, IsOffset, Links, Foreign;
      ghost var h, g0 := V(), g;
      PageFacts(h, g, cm.live, NIL, pr);
      RecordAddr(h, g, pr);
      OwnerOf(h, g, cm.live, a, pr);
      var prpage, blktype := PageAddr(pab[pr]), BlockType(pab[pr]);
      var o := a - prpage;
      BlockWords(h, g, cm.free[..], cm.length[..], cm.live, a, pr);
      var mem' := FillDeadbeef(mem, a, Size(blktype));
      var next := if offset[pr] == INVALID_OFFSET then 0 else prpage + offset[pr];
      mem' := mem'[a := next];
      HeadValid(h, g, pr);
      assert Freeing(h, g, cm.live, pr, o, mem');
      PushKeeps(h, g, cm.live, pr, o, mem');
      FreedData(h, g, cm.free[..], cm.length[..], cm.live, a, mem');
      RamKept(mem, mem', cm.base, cm.free.Length, a, Size(blktype));
      mem := mem';
      offset := offset[pr := o];
      nfree := nfree[pr := nfree[pr] + 1];
      g := PushShadow(g, pr, o);
      SameOwned(g0, g, cm.live);
      assert V() == PushFree(h, mem', pr, o);
    }

    /** remove_lists, free_kpages and freepageref on a page that is wholly free. */
    method DropPage(pr: nat, blktype: nat)
      requires Ok(pr) && pr < NPAGEREFS && pr in g.all && Record(V(), g, pr) && blktype == g.kind[pr]
      requires |nfree| == NPAGEREFS && nfree[pr] == PerPage(blktype)
      modifies this`nextSame, this`nextAll, this`sizebases, this`allbase, this`inuse, this`g, cm`live, cm.free,
          cm.length
      ensures Valid() && g.allocs == old(g.allocs) && Foreign(g, cm.live) == old(Foreign(g, cm.live))
    {
      hide HeapInv, Ram, CoreMap.Inv, Chain, PerPage, Released, RemoveAt, Foreign;
      ghost var h, g0, live0, q := V(), g, cm.live, g.page[pr];
      AllFacts(h, g, live0, pr);
      SameFacts(h, g, live0, pr, blktype);
      PageFacts(h, g, live0, pr, pr);
      RecordAddr(h, g, pr);
      InSame(h, g, live0, pr, pr);
      ghost var i, j;
      var head;
      nextSame, head, j := Unlink(nextSame, sizebases[blktype], pr, g.same[blktype]);
      sizebases := sizebases[blktype := head];
      OthersKept(h, g, live0, pr, blktype, nextSame);
      nextAll, allbase, i := Unlink(nextAll, allbase, pr, g.all);
      var prpage := PageAddr(pab[pr]);
      PageNumber(cm.base, q);
      LiveLength(cm.free[..], cm.length[..], cm.live, cm.Page(prpage));
      cm.FreeKPages(prpage);
      inuse := inuse[pr := false];
      assert Dropping(h, g0, live0, pr, i, j, V());
      DropKeeps(h, g0, live0, pr, i, j, V());
      DropOwned(h, g0, live0, pr, i, j, V());
      g := DropShadow(g, pr, i, j);
    }

    /** subpage_kfree: answers false, changing nothing, for an address on none of its pages. */
    method SubpageKfree(a: nat) returns (ok: bool)
      requires Valid() && a in g.allocs
      modifies this, cm`live, cm.free, cm.length
      ensures Valid() && (ok ==> g.allocs == old(g.allocs) - {a} && KeepsData(old(mem), mem, g.allocs))
      ensures !ok ==> V() == old(V()) && g == old(g) && cm.live == old(cm.live)
      ensures Foreign(g, cm.live) == old(Foreign(g, cm.live))
      ensures ok <==> exists p :: FromPage(old(g), a, p)
    {
      hide HeapInv, Ram, CoreMap.Inv, KeepsData, InPage, PerPage, FromPage, Foreign;
      var pr := FindOwner(a);
      Found(V(), g, cm.live, a, pr);
      if pr == NIL {
        return false;
      }
      RecordBounds(V(), g, cm.live, pr);
      GiveBlock(pr, a);
      RecordBounds(V(), g, cm.live, pr);
      var blktype := BlockType(pab[pr]);
      if nfree[pr] == PerPage(blktype) {
        DropPage(pr, blktype);
      } else {
        NotFull(V(), g, cm.live, pr);
      }
      ok := true;
    }

    /**
     kfree of a null pointer or of an allocation in use, which is the only one
     that goes; the bytes of all others stay, and a page with nothing left in
     use goes back to the page allocator.
     */
    method Kfree(a: nat)
      requires Valid() && (a == 0 || a in g.allocs)
      modifies this, cm`live, cm.free, cm.length
      ensures Valid() && g.allocs == old(g.allocs) - {a} && KeepsData(old(mem), mem, g.allocs)
      ensures Foreign(g, cm.live) == old(Foreign(g, cm.live))
    {
      hide HeapInv, Ram, CoreMap.Inv, KeepsData, FromPage, Released, Foreign;
      if a == 0 {
        NullFree(V(), g, cm.live);
        DataSame(mem, g.allocs);
        return;
      }
      var ok := SubpageKfree(a);
      if !ok {
        var q := BigOf(V(), g, cm.live, a);
        PageNumber(cm.base, q);
        LiveLength(cm.free[..], cm.length[..], cm.live, cm.Page(a));
        cm.FreeKPages(a);
        UnbigKeeps(V(), g, old(cm.live), q);
        UnbigOwned(g, old(cm.live), q);
        g := UnbigShadow(g, q);
        DataSame(mem, g.allocs);
      }
    }

    /** A store by the owner of an allocation: the heap's own words are out of its reach. */
    method Store(a: nat, w: nat, value: nat)
      requires Valid() && a in g.allocs && a <= w < a + g.allocs[a] && w in mem
      modifies this`mem
      ensures Valid() && mem == old(mem)[w := value]
    {
      hide HeapInv, Ram, CoreMap.Inv, FromPage;
      StoreOk(V(), g, cm.free[..], cm.length[..], cm.live, a, mem[w := value]);
      RamKept(mem, mem[w := value], cm.base, cm.free.Length, a, g.allocs[a]);
      mem := mem[w := value];
    }
  }

  lemma InSame(h: Heap, g: Shadow, live: map<nat, nat>, x: int, p: nat)
    requires HeapInv(h, g, live, x) && p in g.all
    ensures p in g.kind && g.kind[p] < |g.same| && p in g.same[g.kind[p]]
  {
    hide Pages, Allocs, Chain;
  }

  /** The lists of other sizes do not hold the pages of this one. */
  lemma OthersKept(h: Heap, g: Shadow, live: map<nat, nat>, x: int, t: nat, next: seq<int>)
    requires HeapInv(h, g, live, x) && t < NSIZES && |g.same| == |h.sizebases| == NSIZES
    requires |next| == |h.nextSame| && forall p :: 0 <= p < |next| && p !in g.same[t] ==> next[p] == h.nextSame[p]
    ensures forall u :: 0 <= u < NSIZES && u != t ==> Chain(next, h.sizebases[u], g.same[u])
  {
    hide Pages, Allocs, Chain;
    forall u | 0 <= u < NSIZES && u != t
      ensures Chain(next, h.sizebases[u], g.same[u])
    {
      forall p: nat | p in g.same[u]
        ensures p !in g.same[t]
      {
        SameMember(h, g, live, x, u, p);
        if p in g.same[t] { SameMember(h, g, live, x, t, p); }
      }
      ChainSame(h.nextSame, next, h.sizebases[u], g.same[u]);
    }
  }

  lemma ChainSame(next: seq<int>, next': seq<int>, head: int, s: seq<nat>)
    requires Chain(next, head, s) && |next'| == |next| && forall p :: p in s && p < |next| ==> next'[p] == next[p]
    ensures Chain(next', head, s)
  {
    assert forall k :: 0 <= k < |s| ==> s[k] in s;
  }

  lemma NotFull(h: Heap, g: Shadow, live: map<nat, nat>, p: nat)
    requires HeapInv(h, g, live, p) && p in g.all && Record(h, g, p) && p < |h.nfree| && h.nfree[p] < PerPage(g.kind[p])
    ensures HeapInv(h, g, live, NIL)
  {
    hide Lists, PageOk, Allocs, PerPage;
  }

  lemma PageNumber(base: nat, q: nat)
    ensures (base + q * PAGE_SIZE - base) / PAGE_SIZE == q
  {
  }

  /** The search finds a page exactly for blocks of pages. */
  lemma Found(h: Heap, g: Shadow, live: map<nat, nat>, a: nat, pr: int)
    requires HeapInv(h, g, live, NIL) && a in g.allocs
    requires pr == NIL ==> forall p :: p in g.all ==> !InPage(g, p, a)
    requires pr != NIL ==> 0 <= pr && pr in g.all && InPage(g, pr, a)
    ensures pr != NIL <==> exists p :: FromPage(g, a, p)
  {
    hide HeapInv, IsOffset;
    if pr != NIL {
      OwnerOf(h, g, live, a, pr);
    }
    forall p | FromPage(g, a, p)
      ensures p in g.all && InPage(g, p, a)
    {
      OffsetIn(g.kind[p], a - Addr(g, g.page[p], 0));
    }
  }

  lemma RecordBounds(h: Heap, g: Shadow, live: map<nat, nat>, p: nat)
    requires (HeapInv(h, g, live, NIL) || HeapInv(h, g, live, p)) && p in g.all
    ensures Sized(h, g) && p < NPAGEREFS && Record(h, g, p) && BlockType(h.pab[p]) == g.kind[p]
  {
    hide HeapInv;
    if HeapInv(h, g, live, NIL) {
      PageFacts(h, g, live, NIL, p);
    } else {
      PageFacts(h, g, live, p, p);
    }
    RecordAddr(h, g, p);
  }

  /** Zero is the address of nothing. */
  lemma NullFree(h: Heap, g: Shadow, live: map<nat, nat>)
    requires HeapInv(h, g, live, NIL)
    ensures 0 !in g.allocs && g.allocs - {0} == g.allocs
  {
    hide Lists, Pages, IsOffset;
    if 0 in g.allocs {
      var q := Within(h, g, live, NIL, 0);
    }
  }

  lemma BigOf(h: Heap, g: Shadow, live: map<nat, nat>, a: nat) returns (q: nat)
    requires HeapInv(h, g, live, NIL) && a in g.allocs && !exists p :: FromPage(g, a, p)
    ensures q in g.big && q in live && a == Addr(g, q, 0)
  {
    hide Lists, Pages, IsOffset, SlotOk;
    q :| FromBig(g, live, a, q);
  }

  lemma StoreOk(h: Heap, g: Shadow, free: seq<bool>, length: seq<nat>, live: map<nat, nat>, a: nat, mem: map<nat, nat>)
    requires HeapInv(h, g, live, NIL) && CoreMap.Inv(free, length, live) && a in g.allocs
             && KeepsWords(h.mem, mem, a, g.allocs[a])
    ensures HeapInv(h.(mem := mem), g, live, NIL)
  {
    hide HeapInv, CoreMap.Inv, IsOffset, KeepsWords;
    if p :| FromPage(g, a, p) {
      AllocsOk(h, g, live, NIL);
      SlotFact(g, live, a, p);
      StoreKeeps(h, g, live, p, a, mem);
    } else {
      var q := BigOf(h, g, live, a);
      BigStore(h, g, free, length, live, a, q, mem);
    }
  }

  lemma AllocsOk(h: Heap, g: Shadow, live: map<nat, nat>, x: int)
    requires HeapInv(h, g, live, x)
    ensures Sized(h, g) && Allocs(g, live)
  {
  }

  /** A store into a whole-page allocation is far from every heap page. */
  lemma BigStore(h: Heap, g: Shadow, free: seq<bool>, length: seq<nat>, live: map<nat, nat>, a: nat, q: nat,
      mem: map<nat, nat>)
    requires HeapInv(h, g, live, NIL) && CoreMap.Inv(free, length, live) && q in g.big && q in live
             && a == Addr(g, q, 0)
    requires a in g.allocs && KeepsWords(h.mem, mem, a, g.allocs[a])
    ensures HeapInv(h.(mem := mem), g, live, NIL)
  {
    hide CoreMap.Inv, IsOffset, KeepsWords, Links, Chain, PerPage, Allocs;
    BigSize(h, g, live, a, q);
    var h' := h.(mem := mem);
    forall p' | p' in g.all
      ensures Record(h', g, p') && PageOk(h', g, p')
    {
      BigStorePage(h, g, free, length, live, a, q, mem, p');
    }
  }

  lemma BigSize(h: Heap, g: Shadow, live: map<nat, nat>, a: nat, q: nat)
    requires HeapInv(h, g, live, NIL) && q in g.big && q in live && a == Addr(g, q, 0)
    ensures a in g.allocs && g.allocs[a] == live[q] * PAGE_SIZE
  {
    hide Lists, Pages, SlotOk, IsOffset;
    assert FromBig(g, live, Addr(g, q, 0), q);
  }

  lemma BigStorePage(h: Heap, g: Shadow, free: seq<bool>, length: seq<nat>, live: map<nat, nat>, a: nat, q: nat,
      mem: map<nat, nat>, p: nat)
    requires HeapInv(h, g, live, NIL) && CoreMap.Inv(free, length, live) && q in g.big && q in live
             && a == Addr(g, q, 0) && p in g.all
    requires a in g.allocs && g.allocs[a] == live[q] * PAGE_SIZE && KeepsWords(h.mem, mem, a, g.allocs[a])
    ensures Sized(h.(mem := mem), g) && p < NPAGEREFS && Record(h.(mem := mem), g, p) && PageOk(h.(mem := mem), g, p)
  {
    hide HeapInv, CoreMap.Inv, KeepsWords, Links;
    PageFacts(h, g, live, NIL, p);
    if q < g.page[p] {
      BlocksApart(free, length, live, q, g.page[p]);
    }
    LinksElsewhere(h.mem, mem, Addr(g, g.page[p], 0), g.free[p], g.kind[p], a, g.allocs[a]);
  }

  /** a lies in page p. */
  ghost predicate InPage(g: Shadow, p: nat, a: nat)
  {
    p in g.page && Addr(g, g.page[p], 0) <= a < Addr(g, g.page[p], 0) + PAGE_SIZE
  }

  lemma InPageOf(g: Shadow, p: nat, a: nat)
    requires p in g.page
    ensures InPage(g, p, a) <==> Addr(g, g.page[p], 0) <= a < Addr(g, g.page[p], 0) + PAGE_SIZE
  {
  }

  lemma AllFacts(h: Heap, g: Shadow, live: map<nat, nat>, x: int)
    requires HeapInv(h, g, live, x)
    ensures Sized(h, g) && Chain(h.nextAll, h.allbase, g.all)
  {
    hide Pages, Allocs, Chain;
  }

  /** An allocation that lies in a heap page is one of its blocks. */
  lemma OwnerOf(h: Heap, g: Shadow, live: map<nat, nat>, a: nat, p: nat)
    requires HeapInv(h, g, live, NIL) && a in g.allocs && p in g.all && InPage(g, p, a)
    ensures FromPage(g, a, p) && g.allocs[a] == Size(g.kind[p])
    ensures IsOffset(g.kind[p], a - Addr(g, g.page[p], 0)) && a - Addr(g, g.page[p], 0) !in g.free[p]
  {
    hide Lists, Pages, IsOffset;
    PageFacts(h, g, live, NIL, p);
    if p' :| FromPage(g, a, p') {
      PageFacts(h, g, live, NIL, p');
      OffsetIn(g.kind[p'], a - Addr(g, g.page[p'], 0));
      assert g.page[p'] == g.page[p];
      if p' != p { PagesDiffer(h, g, live, NIL, p, p'); }
      SlotFact(g, live, a, p);
    } else {
      var q :| FromBig(g, live, a, q);
    }
  }

  lemma BlockWords(h: Heap, g: Shadow, free: seq<bool>, length: seq<nat>, live: map<nat, nat>, a: nat, p: nat)
    requires HeapInv(h, g, live, NIL) && CoreMap.Inv(free, length, live) && Ram(h.mem, g.base, |free|)
             && FromPage(g, a, p)
    ensures forall w: nat :: a <= w < a + Size(g.kind[p]) && (w - a) % 4 == 0 ==> w in h.mem
  {
    hide HeapInv, Ram, IsOffset, Size;
    HeapSized(h, g, live, NIL);
    PageFacts(h, g, live, NIL, p);
    var o := a - Addr(g, g.page[p], 0);
    Ends(g.kind[p], o);
    forall w: nat | a <= w < a + Size(g.kind[p]) && (w - a) % 4 == 0
      ensures w in h.mem
    {
      PageWord(h.mem, g.base, |free|, g.page[p], o, w - a);
    }
  }

  lemma PageWord(mem: map<nat, nat>, base: nat, n: nat, q: nat, o: nat, d: nat)
    requires Ram(mem, base, n) && base % PAGE_SIZE == 0 && q < n && o % 16 == 0 && d % 4 == 0 && o + d < PAGE_SIZE
    ensures base + q * PAGE_SIZE + o + d in mem
  {
    hide Ram;
    SumAligned(o, d);
    RamWord(mem, base, n, q, o + d);
  }

  lemma HeadValid(h: Heap, g: Shadow, p: nat)
    requires Sized(h, g) && p < NPAGEREFS && Record(h, g, p) && PageOk(h, g, p)
    ensures h.offset[p] == INVALID_OFFSET <==> g.free[p] == []
  {
  }

  lemma FreedData(h: Heap, g: Shadow, free: seq<bool>, length: seq<nat>, live: map<nat, nat>, a: nat,
      mem: map<nat, nat>)
    requires HeapInv(h, g, live, NIL) && CoreMap.Inv(free, length, live) && a in g.allocs
             && KeepsWords(h.mem, mem, a, g.allocs[a])
    ensures KeepsData(h.mem, mem, g.allocs - {a})
  {
    hide HeapInv, CoreMap.Inv;
    forall b, w: nat | b in g.allocs && b != a && b <= w < b + g.allocs[b] && w in h.mem
      ensures mem[w] == h.mem[w]
    {
      if a < b {
        Disjoint(h, g, free, length, live, NIL, a, b);
      } else {
        Disjoint(h, g, free, length, live, NIL, b, a);
      }
    }
  }

  lemma RoundUp(sz: nat, npages: nat)
    requires sz < TWO32 && npages == (sz + PAGE_SIZE - 1) % TWO32 / PAGE_SIZE && npages > 0
    ensures sz <= npages * PAGE_SIZE < sz + PAGE_SIZE
  {
  }

  lemma AllocAligned(h: Heap, g: Shadow, live: map<nat, nat>, x: int, a: nat)
    requires HeapInv(h, g, live, x) && a in g.allocs
    ensures a % 16 == 0
  {
    hide HeapInv, FromPage;
    var q := Within(h, g, live, x, a);
  }

  lemma DataSame(mem: map<nat, nat>, allocs: map<nat, nat>)
    ensures KeepsData(mem, mem, allocs)
  {
  }

  lemma SameFacts(h: Heap, g: Shadow, live: map<nat, nat>, x: int, t: nat)
    requires HeapInv(h, g, live, x) && t < NSIZES
    ensures |g.same| == |h.sizebases| == NSIZES && Chain(h.nextSame, h.sizebases[t], g.same[t])
  {
    hide Pages, Allocs, Chain;
  }

  lemma ChainStep(next: seq<int>, head: int, s: seq<nat>, i: nat)
    requires Chain(next, head, s)
    ensures head == Nth(s, 0) && (i < |s| ==> s[i] < |next| && next[s[i]] == Nth(s, i + 1))
  {
  }

  lemma PageInSame(h: Heap, g: Shadow, live: map<nat, nat>, x: int, t: nat, p: nat)
    requires HeapInv(h, g, live, x) && t < NSIZES && |g.same| == NSIZES && p in g.same[t]
    ensures p in g.all && p < NPAGEREFS && p < |h.pab| && p < |h.nfree| && p in g.kind && g.kind[p] == t
            && BlockType(h.pab[p]) == t
    ensures h.nfree[p] > 0 && x == NIL ==> HasFree(h, g, live, x, p)
  {
    SameMember(h, g, live, x, t, p);
    hide HeapInv;
    PageFacts(h, g, live, x, p);
    RecordAddr(h, g, p);
  }

  lemma SameMember(h: Heap, g: Shadow, live: map<nat, nat>, x: int, t: nat, p: nat)
    requires HeapInv(h, g, live, x) && t < NSIZES && |g.same| == NSIZES && p in g.same[t]
    ensures p in g.all && p in g.kind && g.kind[p] == t
  {
    hide Pages, Allocs, Chain;
  }

  lemma HeapSized(h: Heap, g: Shadow, live: map<nat, nat>, x: int)
    requires HeapInv(h, g, live, x)
    ensures Sized(h, g)
  {
  }

  lemma FreshWords(mem: map<nat, nat>, base: nat, n: nat, q: nat, t: nat)
    requires Ram(mem, base, n) && base % PAGE_SIZE == 0 && q < n && t < NSIZES
    ensures forall o: nat :: IsOffset(t, o) ==> base + q * PAGE_SIZE + o in mem
  {
    hide IsOffset, Ram;
    forall o: nat | IsOffset(t, o)
      ensures base + q * PAGE_SIZE + o in mem
    {
      Ends(t, o);
      RamWord(mem, base, n, q, o);
    }
  }

  lemma FreshHasFree(h: Heap, g: Shadow, live: map<nat, nat>, p: nat, q: nat, t: nat, mem: map<nat, nat>)
    requires Sized(h, g) && p < NPAGEREFS && t < NSIZES
    requires HeapInv(NewHeap(h, g, p, q, t, mem), NewShadow(g, p, q, t), live[q := 1], p)
    ensures HasFree(NewHeap(h, g, p, q, t, mem), NewShadow(g, p, q, t), live[q := 1], p, p)
  {
    hide HeapInv;
  }

  /** Words of an unused page belong to no allocation. */
  lemma DataKept(h: Heap, g: Shadow, free: seq<bool>, length: seq<nat>, live: map<nat, nat>, q: nat, mem: map<nat, nat>)
    requires HeapInv(h, g, live, NIL) && CoreMap.Inv(free, length, live) && Unused(live, q, 1)
    requires KeepsWords(h.mem, mem, Addr(g, q, 0), PAGE_SIZE)
    ensures KeepsData(h.mem, mem, g.allocs)
  {
    hide HeapInv, FromPage, CoreMap.Inv;
    forall a, w: nat | a in g.allocs && a <= w < a + g.allocs[a] && w in h.mem
      ensures mem[w] == h.mem[w]
    {
      var s := Within(h, g, live, NIL, a);
      UnusedOutside(live, s, q);
    }
  }

  lemma UnusedOutside(live: map<nat, nat>, s: nat, q: nat)
    requires Unused(live, q, 1) && s in live
    ensures q < s || s + live[s] <= q
  {
    assert InBlock(live, s, q) <==> s <= q < s + live[s];
  }

  lemma RamKept(mem: map<nat, nat>, mem': map<nat, nat>, base: nat, n: nat, a: nat, k: nat)
    requires Ram(mem, base, n) && KeepsWords(mem, mem', a, k)
    ensures Ram(mem', base, n)
  {
  }

  /** What TakeBlock reads from the record of a page with a free block. */
  lemma RecordPage(h: Heap, g: Shadow, live: map<nat, nat>, x: int, p: nat)
    requires HasFree(h, g, live, x, p) && Record(h, g, p) && PageOk(h, g, p) && Sized(h, g) && g.free[p] != []
    ensures PageAddr(h.pab[p]) == Addr(g, g.page[p], 0) && BlockType(h.pab[p]) == g.kind[p] && g.base > 0
    ensures h.offset[p] == g.free[p][0] && PageAddr(h.pab[p]) + h.offset[p] == PopAddr(g, p)
    ensures h.nfree[p] == |g.free[p]|
  {
    hide HeapInv;
    RecordAddr(h, g, p);
  }

  lemma RecordAddr(h: Heap, g: Shadow, p: nat)
    requires Record(h, g, p) && Sized(h, g)
    ensures PageAddr(h.pab[p]) == Addr(g, g.page[p], 0) && BlockType(h.pab[p]) == g.kind[p]
  {
    Packed(g.base + g.page[p] * PAGE_SIZE, g.kind[p]);
  }
}
