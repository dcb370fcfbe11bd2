/** What each step of the kernel heap keeps (kern/lib/kheap.c). */
module KHeapModel {
  import opened CoreMap
  import opened KHeapPages

  // ----- counting blocks -----

  /** n different numbers below n are all of them. */
  lemma {:induction false} Pigeons(s: seq<nat>, n: nat)
    requires Distinct(s) && forall x :: x in s ==> x < n
    ensures |s| <= n
    ensures |s| == n ==> forall x: nat :: x < n ==> x in s
  {
    if |s| > 0 {
      assert s[0] in s;
      if n - 1 in s {
        var i :| 0 <= i < |s| && s[i] == n - 1;
        RemoveAtElements(s, i);
        hide Distinct;
        Pigeons(RemoveAt(s, i), n - 1);
      } else {
        hide Distinct;
        Pigeons(s, n - 1);
      }
    }
  }

  /** A free list is no longer than its page has blocks, and if as long holds all of them. */
  lemma FullList(mem: map<nat, nat>, page: nat, fl: seq<nat>, t: nat)
    requires Links(mem, page, fl, t) && t < NSIZES
    ensures |fl| <= PerPage(t)
    ensures |fl| == PerPage(t) ==> forall o: nat :: IsOffset(t, o) ==> o in fl
  {
    var n := Size(t);
    var nums := seq(|fl|, k requires 0 <= k < |fl| => fl[k] / n);
    forall k | 0 <= k < |fl|
      ensures nums[k] < PerPage(t) && nums[k] * n == fl[k]
    {
      Numbered(t, fl[k]);
    }
    Pigeons(nums, PerPage(t));
    forall o: nat | |fl| == PerPage(t) && IsOffset(t, o)
      ensures o in fl
    {
      Numbered(t, o);
      assert o / n in nums;
      var k :| 0 <= k < |nums| && nums[k] == o / n;
    }
  }

  lemma Numbered(t: nat, o: nat)
    requires IsOffset(t, o)
    ensures o / Size(t) < PerPage(t) && o / Size(t) * Size(t) == o
  {
  }

  // ----- what the invariant means -----

  /** The block of the page allocator an allocation lies in. */
  lemma Within(h: Heap, g: Shadow, live: map<nat, nat>, x: int, a: nat) returns (q: nat)
    requires HeapInv(h, g, live, x) && a in g.allocs
    ensures q in live && Addr(g, q, 0) <= a && a + g.allocs[a] <= Addr(g, q + live[q], 0) && a % 16 == 0
    ensures q in g.big ==> a == Addr(g, q, 0)
    ensures q !in g.big ==> exists p :: FromPage(g, a, p) && g.page[p] == q
  {
    hide Lists, PageOk, IsOffset, Record, Size;
    if p :| FromPage(g, a, p) {
      q := g.page[p];
      Ends(g.kind[p], a - Addr(g, q, 0));
      assert SlotOk(g, a, p);
      Sixteen(g.base, q, a - Addr(g, q, 0));
    } else {
      q :| FromBig(g, live, a, q);
      Sixteen(g.base, q, 0);
    }
  }

  lemma Sixteen(base: nat, q: nat, o: nat)
    requires base % PAGE_SIZE == 0 && o % 16 == 0
    ensures (base + q * PAGE_SIZE + o) % 16 == 0
  {
  }

  lemma BlocksApart(free: seq<bool>, length: seq<nat>, live: map<nat, nat>, q: nat, r: nat)
    requires CoreMap.Inv(free, length, live) && q in live && r in live && q < r
    ensures q + live[q] <= r
  {
    if r < q + live[q] {
      assert InBlock(live, q, r) && InBlock(live, r, r);
    }
  }

  /** No two allocations in use overlap. */
  lemma Disjoint(h: Heap, g: Shadow, free: seq<bool>, length: seq<nat>, live: map<nat, nat>, x: int, a: nat, b: nat)
    requires HeapInv(h, g, live, x) && CoreMap.Inv(free, length, live) && a in g.allocs && b in g.allocs && a < b
    ensures a + g.allocs[a] <= b
  {
    hide HeapInv, FromPage;
    var q := Within(h, g, live, x, a);
    var r := Within(h, g, live, x, b);
    if q < r {
      BlocksApart(free, length, live, q, r);
    } else if r < q {
      BlocksApart(free, length, live, r, q);
    } else {
      SamePage(h, g, live, x, a, b, q);
    }
  }

  lemma SamePage(h: Heap, g: Shadow, live: map<nat, nat>, x: int, a: nat, b: nat, q: nat)
    requires HeapInv(h, g, live, x) && a in g.allocs && b in g.allocs && a < b
    requires exists p :: FromPage(g, a, p) && g.page[p] == q
    requires exists p :: FromPage(g, b, p) && g.page[p] == q
    ensures a + g.allocs[a] <= b
  {
    hide Links, Chain, IsOffset;
    var p :| FromPage(g, a, p) && g.page[p] == q;
    var p' :| FromPage(g, b, p') && g.page[p'] == q;
    assert p == p';
    assert SlotOk(g, a, p);
    Apart(g.kind[p], a - Addr(g, q, 0), b - Addr(g, q, 0));
  }
}
