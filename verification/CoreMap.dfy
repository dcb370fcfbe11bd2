/** The physical page allocator (kern/vm/coremap.c). */
module CoreMap {
  const PAGE_SIZE := 4096

  /** The n pages from s on are free. */
  ghost predicate FreeRun(free: seq<bool>, s: int, n: int)
  {
    0 <= s <= s + n <= |free| && forall p :: s <= p < s + n ==> free[p]
  }

  /** An allocation of n pages has to fail. */
  ghost predicate NoRun(free: seq<bool>, n: nat)
  {
    n == 0 || forall s :: !FreeRun(free, s, n)
  }

  /** A used page with fewer than n free pages after it, up to i, rules out a run ending there. */
  lemma RunBroken(free: seq<bool>, i: nat, count: nat, n: nat)
    requires count < n && count <= i <= |free| && (count < i ==> !free[i - count - 1])
    ensures !FreeRun(free, i - n, n)
  {
    assert n <= i ==> i - n <= i - count - 1 < i;
  }

  /** Page p belongs to the live allocation that starts at page s. */
  predicate InBlock(live: map<nat, nat>, s: nat, p: int)
  {
    s in live && s <= p < s + live[s]
  }

  /**
   live maps the first page of each allocation in use to its number of pages.
   The lengths in the map are those of the live allocations and zero elsewhere,
   no page of one is marked free, and no two of them share a page.
   */
  ghost predicate Inv(free: seq<bool>, length: seq<nat>, live: map<nat, nat>)
  {
    && |free| == |length|
    && (forall s :: s in live ==> live[s] > 0 && s + live[s] <= |free|)
    && (forall s, p :: InBlock(live, s, p) ==> !free[p])
    && (forall s, t, p :: InBlock(live, s, p) && InBlock(live, t, p) ==> s == t)
    && (forall i: nat :: i < |length| ==> length[i] == if i in live then live[i] else 0)
  }

  /** The lengths above zero are those of the blocks in use. */
  lemma LiveLength(free: seq<bool>, length: seq<nat>, live: map<nat, nat>, s: nat)
    requires Inv(free, length, live)
    ensures s in live <==> s < |length| && length[s] > 0
  {
    assert s in live ==> s + live[s] <= |free|;
  }

  /** The map after pages lo..hi become used. */
  ghost predicate Taken(free: seq<bool>, free': seq<bool>, lo: int, hi: int)
  {
    |free'| == |free| && forall p :: 0 <= p < |free| ==> free'[p] == (free[p] && !(lo <= p < hi))
  }

  lemma AllocKeepsInv(free: seq<bool>, free': seq<bool>, length: seq<nat>, live: map<nat, nat>, s: nat, n: nat)
    requires Inv(free, length, live) && n > 0 && FreeRun(free, s, n) && Taken(free, free', s, s + n)
    ensures s < |length| && Inv(free', length[s := n], live[s := n])
    ensures s !in live && forall t, p :: InBlock(live, t, p) ==> !(s <= p < s + n)
  {
    assert s in live ==> InBlock(live, s, s);
    var live' := live[s := n];
    forall t, p | InBlock(live', t, p)
      ensures !free'[p] && (t != s ==> InBlock(live, t, p) && !(s <= p < s + n))
    {
      assert t != s ==> InBlock(live, t, p);
    }
  }

  /** The pages a release gives back: not the whole block unless it starts at page 0. */
  ghost predicate Released(free: seq<bool>, free': seq<bool>, lo: int, hi: int)
  {
    |free'| == |free| && forall p :: 0 <= p < |free| ==> free'[p] == (free[p] || lo <= p < hi)
  }

  lemma FreeKeepsInv(free: seq<bool>, free': seq<bool>, length: seq<nat>, live: map<nat, nat>, s: nat)
    requires Inv(free, length, live) && s in live && Released(free, free', s, live[s])
    ensures s < |length| && Inv(free', length[s := 0], live - {s})
  {
    forall t, p | InBlock(live - {s}, t, p)
      ensures !free'[p]
    {
      assert InBlock(live, t, p);
      assert s <= p < live[s] ==> InBlock(live, s, p);
    }
    assert forall t, p :: InBlock(live - {s}, t, p) ==> InBlock(live, t, p);
  }

  /** Releasing a block frees page p of it exactly when p is below the block's length. */
  lemma ReleasedPage(free: seq<bool>, free': seq<bool>, length: seq<nat>, live: map<nat, nat>, s: nat, p: nat)
    requires Inv(free, length, live) && Released(free, free', s, if s in live then live[s] else 0)
             && InBlock(live, s, p)
    ensures p < |free'| && (free'[p] <==> p < live[s])
  {
  }

  /** The whole block comes back exactly when it starts at page 0. */
  lemma FullRelease(free: seq<bool>, free': seq<bool>, length: seq<nat>, live: map<nat, nat>, s: nat)
    requires Inv(free, length, live) && s in live && Released(free, free', s, live[s])
    ensures s + live[s] <= |free'| && ((forall p :: s <= p < s + live[s] ==> free'[p]) <==> s == 0)
  {
    var last := s + live[s] - 1;
    assert InBlock(live, s, last);
    ReleasedPage(free, free', length, live, s, last);
  }

  /** A two-page block at page 5 is released by marking nothing free. */
  lemma NothingReleased()
    ensures forall free: seq<bool>, free': seq<bool> :: Released(free, free', 5, 2) ==> free' == free
  {
  }

  class Coremap {
    const base: nat
    const free: array<bool>
    const length: array<nat>
    ghost var live: map<nat, nat>

    ghost predicate Valid()
      reads this, free, length
    {
      && base > 0 && base % PAGE_SIZE == 0
      && Inv(free[..], length[..], live)
    }

    /**
     cm_bootstrap: the map itself takes the first pages of memory (a cm_entry
     is 16 bytes), and the rest are free.
     */
    constructor (first: nat, last: nat)
      requires first % PAGE_SIZE == 0 && last % PAGE_SIZE == 0 && first < last
      requires FreeAddr(first, last) < last
      ensures Valid() && live == map[] && fresh(free) && fresh(length)
      ensures base == FreeAddr(first, last) && base + free.Length * PAGE_SIZE == last
      ensures forall i :: 0 <= i < free.Length ==> free[i]
    {
      var n := (last - FreeAddr(first, last)) / PAGE_SIZE;
      base := FreeAddr(first, last);
      free := new bool[n];
      length := new nat[n];
      live := map[];
      new;
      FreeAligned(first, last);
      for i := 0 to n
        invariant forall j :: 0 <= j < i ==> free[j] && length[j] == 0
        modifies free, length
      {
        free[i] := true;
        length[i] := 0;
      }
    }

    /**
     cm_getppages: the lowest run of npages free pages, or 0 exactly when there is none.
     */
    method GetPPages(npages: int) returns (paddr: nat)
      requires Valid()
      modifies this`live, free, length
      ensures Valid()
      ensures paddr == 0 <==> npages <= 0 || forall s :: !FreeRun(old(free[..]), s, npages)
      ensures paddr == 0 ==> live == old(live) && free[..] == old(free[..]) && length[..] == old(length[..])
      ensures paddr != 0 ==> paddr >= base && paddr == base + Page(paddr) * PAGE_SIZE
      ensures paddr != 0 ==> npages > 0 && FreeRun(old(free[..]), Page(paddr), npages)
      ensures paddr != 0 ==> forall s :: s < Page(paddr) ==> !FreeRun(old(free[..]), s, npages)
      ensures paddr != 0 ==> Page(paddr) !in old(live) && live == old(live)[Page(paddr) := npages]
      ensures paddr != 0 ==> Taken(old(free[..]), free[..], Page(paddr), Page(paddr) + npages)
      ensures paddr != 0 ==> forall t, p :: InBlock(old(live), t, p) ==> !(Page(paddr) <= p < Page(paddr) + npages)
    {
      var i, count, start := 0, 0, 0;
      while i < free.Length
        invariant live == old(live) && free[..] == old(free[..]) && length[..] == old(length[..])
        invariant 0 <= count <= i <= free.Length && (npages > 0 ==> count < npages)
        invariant count > 0 ==> start == i - count
        invariant FreeRun(free[..], i - count, count)
        invariant i > count ==> !free[i - count - 1]
        invariant npages > 0 ==> forall s :: s + npages <= i ==> !FreeRun(free[..], s, npages)
      {
        if free[i] {
          count := count + 1;
          if count == 1 {
            start := i;
          }
          if count == npages {
            assert FreeRun(old(free[..]), start, npages);
            Occupy(start, i + 1);
            assert Page(base + start * PAGE_SIZE) == start;
            paddr := base + start * PAGE_SIZE;
            return;
          }
        } else {
          count := 0;
        }
        i := i + 1;
        if npages > 0 {
          RunBroken(free[..], i, count, npages);
        }
      }
      paddr := 0;
    }

    /** The pages of lo..hi become used and a live block. */
    method Occupy(lo: nat, hi: nat)
      requires Valid() && lo < hi && FreeRun(free[..], lo, hi - lo)
      modifies this`live, free, length
      ensures Valid() && live == old(live)[lo := hi - lo] && lo !in old(live)
      ensures Taken(old(free[..]), free[..], lo, hi)
      ensures forall t, p :: InBlock(old(live), t, p) ==> !(lo <= p < hi)
    {
      ghost var f, l: seq<nat> := free[..], length[..];
      var n: nat := hi - lo;
      length[lo] := n;
      for j := lo to hi
        invariant forall p :: 0 <= p < free.Length ==> free[p] == (f[p] && !(lo <= p < j))
        modifies free
      {
        free[j] := false;
      }
      AllocKeepsInv(f, free[..], l, live, lo, n);
      assert length[..] == l[lo := n];
      live := live[lo := n];
    }

    /** The page at a physical address. */
    function Page(paddr: nat): (p: nat)
      requires base <= paddr
    {
      (paddr - base) / PAGE_SIZE
    }

    /**
     cm_freekpages. Its assertions hold of an address in the first page of a
     block in use. The release loop ends at the block's length, not at its end.
     */
    method FreeKPages(paddr: nat)
      requires Valid() && paddr >= base && Page(paddr) < length.Length && length[Page(paddr)] > 0
      modifies this`live, free, length
      ensures Valid() && Page(paddr) in old(live) && live == old(live) - {Page(paddr)}
      ensures Released(old(free[..]), free[..], Page(paddr), old(live)[Page(paddr)])
    {
      var index := Page(paddr);
      ghost var f, l := free[..], length[..];
      var i := index;
      while i < length[index]
        invariant index <= i && (i <= length[index] || i == index)
        invariant forall p :: 0 <= p < free.Length ==> free[p] == (f[p] || index <= p < i)
        modifies free
      {
        free[i] := true;
        i := i + 1;
      }
      FreeKeepsInv(f, free[..], l, live, index);
      length[index] := 0;
      assert length[..] == l[index := 0];
      live := live - {index};
    }
  }

  /** Where the pages that the map describes begin. */
  function FreeAddr(first: nat, last: nat): nat
    requires first <= last
  {
    first + ((last - first) / PAGE_SIZE * 16 + PAGE_SIZE - 1) / PAGE_SIZE * PAGE_SIZE
  }

  lemma FreeAligned(first: nat, last: nat)
    requires first % PAGE_SIZE == 0 && last % PAGE_SIZE == 0 && first < last && FreeAddr(first, last) < last
    ensures FreeAddr(first, last) > 0 && FreeAddr(first, last) % PAGE_SIZE == 0
    ensures FreeAddr(first, last) + (last - FreeAddr(first, last)) / PAGE_SIZE * PAGE_SIZE == last
  {
    var a, b, k := first / PAGE_SIZE, last / PAGE_SIZE, ((last - first) / PAGE_SIZE * 16 + PAGE_SIZE - 1) / PAGE_SIZE;
    assert first == a * PAGE_SIZE && last == b * PAGE_SIZE;
    assert FreeAddr(first, last) == (a + k) * PAGE_SIZE;
  }

  /** The map has room for an entry of 16 bytes for every page from first on, and takes no page too many. */
  lemma MapFits(first: nat, last: nat)
    requires first % PAGE_SIZE == 0 && last % PAGE_SIZE == 0 && first < last
    ensures var room, n := FreeAddr(first, last) - first, (last - first) / PAGE_SIZE;
            16 * n <= room < 16 * n + PAGE_SIZE && room % PAGE_SIZE == 0
  {
  }
}
