/** The kernel heap as a value: page records, their lists, free lists in memory (kern/lib/kheap.c). */
module KHeapPages {
  import opened CoreMap

  const NSIZES := 8
  const LARGEST := 2048
  const NPAGEREFS := 256
  const INVALID_OFFSET := 0xffff
  const NIL := -1

  /** The block sizes, by block type. */
  function Size(t: nat): (n: nat)
    requires t < NSIZES
    ensures 16 <= n <= LARGEST && n % 16 == 0 && PAGE_SIZE % n == 0
  {
    [16, 32, 64, 128, 256, 512, 1024, 2048][t]
  }

  /** How many blocks of a type a page holds. */
  function PerPage(t: nat): (n: nat)
    requires t < NSIZES
    ensures n * Size(t) == PAGE_SIZE && n >= 2
  {
    PAGE_SIZE / Size(t)
  }

  /** o is the offset of a block of type t in its page. */
  predicate IsOffset(t: nat, o: nat)
  {
    t < NSIZES && o < PAGE_SIZE && o % Size(t) == 0
  }

  /** Two blocks of one page do not overlap. */
  lemma Apart(t: nat, o: nat, o': nat)
    requires IsOffset(t, o) && IsOffset(t, o') && o < o'
    ensures o + Size(t) <= o'
  {
  }

  lemma Ends(t: nat, o: nat)
    requires IsOffset(t, o)
    ensures o + Size(t) <= PAGE_SIZE && o % 16 == 0
  {
  }

  /** Blocks start at offsets. */
  lemma BlockStart(t: nat, k: nat)
    requires t < NSIZES && k < PerPage(t)
    ensures IsOffset(t, k * Size(t))
  {
  }

  lemma OffsetIn(t: nat, o: nat)
    requires IsOffset(t, o)
    ensures o < PAGE_SIZE
  {
  }

  lemma {:induction false} Times(k: nat, i: nat, n: nat)
    requires k < i
    ensures k * n + n <= i * n
  {
    assert i * n == (i - 1) * n + n;
    if k + 1 < i {
      Times(k, i - 1, n);
    }
  }

  /**
   The statics of kheap.c, the fields of struct pageref as arrays indexed by
   pageref, and the words of memory by address.
   */
  datatype Heap = Heap(
    nextSame: seq<int>, nextAll: seq<int>, pab: seq<nat>, offset: seq<nat>, nfree: seq<nat>,
    inuse: seq<bool>, sizebases: seq<int>, allbase: int,
    mem: map<nat, nat>)

  /**
   What the records stand for: the lists, each page's number, block type and
   free list, the whole-page allocations by page number, and the size of every
   allocation in use.
   */
  datatype Shadow = Shadow(
    base: nat, all: seq<nat>, same: seq<seq<nat>>, page: map<nat, nat>, kind: map<nat, nat>, free: map<nat, seq<nat>>,
    big: set<nat>, allocs: map<nat, nat>)

  function PageAddr(pab: nat): nat
  {
    pab / PAGE_SIZE * PAGE_SIZE
  }

  function BlockType(pab: nat): nat
  {
    pab % PAGE_SIZE
  }

  lemma Packed(page: nat, t: nat)
    requires page % PAGE_SIZE == 0 && t < PAGE_SIZE
    ensures PageAddr(page + t) == page && BlockType(page + t) == t
  {
  }

  // ----- lists -----

  ghost predicate Distinct(s: seq<nat>)
  {
    forall i, j :: 0 <= i < j < |s| ==> s[i] != s[j]
  }

  /** The pointer to the i-th element of a list, which is null past its end. */
  function Nth(s: seq<nat>, i: nat): int
  {
    if i < |s| then s[i] else NIL
  }

  /** next links the elements of s, from head to the null pointer. */
  ghost predicate Chain(next: seq<int>, head: int, s: seq<nat>)
  {
    && Distinct(s)
    && head == Nth(s, 0)
    && forall i :: 0 <= i < |s| ==> s[i] < |next| && next[s[i]] == Nth(s, i + 1)
  }

  lemma ChainPush(next: seq<int>, head: int, s: seq<nat>, p: nat)
    requires Chain(next, head, s) && p < |next| && p !in s
    ensures Chain(next[p := head], p, [p] + s)
  {
  }

  function RemoveAt(s: seq<nat>, i: nat): seq<nat>
    requires i < |s|
  {
    s[..i] + s[i + 1..]
  }

  lemma RemoveAtElements(s: seq<nat>, i: nat)
    requires Distinct(s) && i < |s|
    ensures Distinct(RemoveAt(s, i)) && forall x :: x in RemoveAt(s, i) <==> x in s && x != s[i]
  {
    var r := RemoveAt(s, i);
    forall x | x in s && x != s[i]
      ensures x in r
    {
      var k :| 0 <= k < |s| && s[k] == x;
      assert r[if k < i then k else k - 1] == x;
    }
  }

  lemma ChainRemoveFirst(next: seq<int>, head: int, s: seq<nat>)
    requires Chain(next, head, s) && s != []
    ensures Chain(next, next[s[0]], RemoveAt(s, 0))
  {
    var r := RemoveAt(s, 0);
    assert forall k :: 0 <= k < |r| ==> r[k] == s[k + 1];
    assert forall k: nat :: k <= |r| ==> Nth(r, k) == Nth(s, k + 1);
  }

  lemma ChainRemove(next: seq<int>, head: int, s: seq<nat>, i: nat)
    requires Chain(next, head, s) && 0 < i < |s|
    ensures s[i - 1] < |next| && s[i] < |next| && Chain(next[s[i - 1] := next[s[i]]], head, RemoveAt(s, i))
  {
    hide Distinct;
    RemoveAtElements(s, i);
    var r, n' := RemoveAt(s, i), next[s[i - 1] := next[s[i]]];
    forall k | 0 <= k < |r|
      ensures r[k] < |n'| && n'[r[k]] == Nth(r, k + 1)
    {
      ChainRemoveLink(next, head, s, i, k);
    }
  }

  lemma ChainRemoveLink(next: seq<int>, head: int, s: seq<nat>, i: nat, k: nat)
    requires Chain(next, head, s) && 0 < i < |s| && k < |s| - 1
    ensures s[i - 1] < |next| && s[i] < |next| && RemoveAt(s, i)[k] < |next|
    ensures next[s[i - 1] := next[s[i]]][RemoveAt(s, i)[k]] == Nth(RemoveAt(s, i), k + 1)
  {
    hide Nth;
    NthRemove(s, i, k + 1);
    var m := if k < i then k else k + 1;
    assert RemoveAt(s, i)[k] == s[m];
    assert next[s[m]] == Nth(s, m + 1) && next[s[i]] == Nth(s, i + 1);
  }

  lemma NthRemove(s: seq<nat>, i: nat, k: nat)
    requires i < |s|
    ensures Nth(RemoveAt(s, i), k) == Nth(s, if k < i then k else k + 1)
  {
  }

  /** A list over other elements does not see an update. */
  lemma ChainFrame(next: seq<int>, head: int, s: seq<nat>, p: nat, v: int)
    requires Chain(next, head, s) && p < |next| && p !in s
    ensures Chain(next[p := v], head, s)
  {
  }

  // ----- the invariant -----

  ghost predicate Sized(h: Heap, g: Shadow)
  {
    && |h.nextSame| == |h.nextAll| == |h.pab| == |h.offset| == |h.nfree| == |h.inuse| == NPAGEREFS
    && |h.sizebases| == |g.same| == NSIZES && g.base > 0 && g.base % PAGE_SIZE == 0
  }

  ghost predicate Record(h: Heap, g: Shadow, p: nat)
  {
    && p < |h.pab| && p in g.page && p in g.kind && p in g.free && g.kind[p] < NSIZES
    && h.pab[p] == g.base + g.page[p] * PAGE_SIZE + g.kind[p]
  }

  /** Every page in use is once in the list of all pages and once in the list of its size. */
  ghost predicate Lists(h: Heap, g: Shadow)
    requires Sized(h, g)
  {
    && Chain(h.nextAll, h.allbase, g.all)
    && (forall t :: 0 <= t < NSIZES ==> Chain(h.nextSame, h.sizebases[t], g.same[t]))
    && (forall p: nat :: p < NPAGEREFS ==> (h.inuse[p] <==> p in g.all))
    && (forall p :: p in g.all ==> Record(h, g, p))
    && (forall t, p: nat :: 0 <= t < NSIZES ==> (p in g.same[t] <==> p in g.all && p in g.kind && g.kind[p] == t))
  }

  /** The address of offset o in page number q. */
  function Addr(g: Shadow, q: nat, o: nat): nat
  {
    g.base + q * PAGE_SIZE + o
  }

  /** The free list of a page, threaded through the first words of its free blocks. */
  ghost predicate Links(mem: map<nat, nat>, page: nat, fl: seq<nat>, t: nat)
  {
    && Distinct(fl)
    && forall k :: 0 <= k < |fl| ==>
         IsOffset(t, fl[k]) && page + fl[k] in mem && mem[page + fl[k]] == if k + 1 < |fl| then page + fl[k + 1] else 0
  }

  ghost predicate PageOk(h: Heap, g: Shadow, p: nat)
    requires Sized(h, g) && p < NPAGEREFS && Record(h, g, p)
  {
    && Links(h.mem, Addr(g, g.page[p], 0), g.free[p], g.kind[p])
    && h.nfree[p] == |g.free[p]|
    && h.offset[p] == if g.free[p] == [] then INVALID_OFFSET else g.free[p][0]
  }

  /** The pages are single pages of the page allocator, all different, and none is wholly free but perhaps x. */
  ghost predicate Pages(h: Heap, g: Shadow, live: map<nat, nat>, x: int)
    requires Sized(h, g) && Lists(h, g)
  {
    && (forall p :: p in g.all ==> PageOk(h, g, p))
    && (forall p :: p in g.all && p != x ==> h.nfree[p] < PerPage(g.kind[p]))
    && (forall p :: p in g.all ==> g.page[p] in live && live[g.page[p]] == 1 && g.page[p] !in g.big)
    && (forall p, p' :: p in g.all && p' in g.all && g.page[p] == g.page[p'] ==> p == p')
    && (forall q :: q in g.big ==> q in live)
  }

  /** a is the address of a block of page p. */
  ghost predicate FromPage(g: Shadow, a: nat, p: nat)
  {
    p in g.all && p in g.page && p in g.kind && p in g.free && Addr(g, g.page[p], 0) <= a
        && IsOffset(g.kind[p], a - Addr(g, g.page[p], 0))
  }

  /** A block of page p is in use exactly when it is not on the page's free list. */
  ghost predicate SlotOk(g: Shadow, a: nat, p: nat)
    requires FromPage(g, a, p)
  {
    && (a in g.allocs <==> a - Addr(g, g.page[p], 0) !in g.free[p])
    && (a in g.allocs ==> g.allocs[a] == Size(g.kind[p]))
  }

  ghost predicate FromBig(g: Shadow, live: map<nat, nat>, a: nat, q: nat)
  {
    q in g.big && q in live && a == Addr(g, q, 0) && a in g.allocs && g.allocs[a] == live[q] * PAGE_SIZE
  }

  /** The allocations in use are the blocks not on free lists and the whole-page allocations. */
  ghost predicate Allocs(g: Shadow, live: map<nat, nat>)
  {
    && (forall p, a :: FromPage(g, a, p) ==> SlotOk(g, a, p))
    && (forall q :: q in g.big ==> FromBig(g, live, Addr(g, q, 0), q))
    && (forall a :: a in g.allocs ==> (exists p :: FromPage(g, a, p)) || exists q :: FromBig(g, live, a, q))
  }

  ghost predicate HeapInv(h: Heap, g: Shadow, live: map<nat, nat>, x: int)
  {
    Sized(h, g) && Lists(h, g) && Pages(h, g, live, x) && Allocs(g, live)
  }
}
