/** Which pages the heap keeps, and the block sizes it hands out (kern/lib/kheap.c). */
module KHeapOwned {
  import opened CoreMap
  import opened KHeapPages
  import opened KHeapSteps
  import opened KHeapWhole

  // ----- sizes -----

  /** n is the smallest block size for sz bytes. */
  ghost predicate BestFit(sz: nat, n: nat)
  {
    && (exists t: nat :: t < NSIZES && Size(t) == n)
    && sz <= n && forall u: nat :: u < NSIZES && sz <= Size(u) ==> n <= Size(u)
  }

  /** Block type t is the smallest for sz bytes. */
  ghost predicate BestType(sz: nat, t: nat)
  {
    t < NSIZES && sz <= Size(t) && forall u: nat :: u < t ==> Size(u) < sz
  }

  lemma BestOf(sz: nat, t: nat)
    requires BestType(sz, t)
    ensures BestFit(sz, Size(t))
  {
    forall u: nat | u < NSIZES && sz <= Size(u)
      ensures Size(t) <= Size(u)
    {
      assert t <= u;
    }
  }

  // ----- pages -----

  /** Some page of blocks of type t has one free. */
  ghost predicate Spare(g: Shadow, t: nat)
  {
    exists p :: p in g.all && p in g.kind && g.kind[p] == t && p in g.free && g.free[p] != []
  }

  /** Page q of the page allocator is the heap's. */
  ghost predicate Owns(g: Shadow, q: nat)
  {
    q in g.big || exists p :: p in g.all && p in g.page && g.page[p] == q
  }

  /** The blocks of the page allocator that are not the heap's. */
  ghost function Foreign(g: Shadow, live: map<nat, nat>): map<nat, nat>
  {
    map q | q in live && !Owns(g, q) :: live[q]
  }

  lemma SameOwned(g: Shadow, g': Shadow, live: map<nat, nat>)
    requires g'.all == g.all && g'.page == g.page && g'.big == g.big
    ensures Foreign(g', live) == Foreign(g, live)
  {
  }

  lemma NewOwned(g: Shadow, live: map<nat, nat>, p: nat, q: nat, t: nat)
    requires t < NSIZES && |g.same| == NSIZES && p !in g.all && q !in live
    ensures Foreign(NewShadow(g, p, q, t), live[q := 1]) == Foreign(g, live)
  {
    hide Downto;
    var g' := NewShadow(g, p, q, t);
    assert g'.all[0] == p && g'.page[p] == q;
    assert p in g'.all;
    assert Owns(g', q);
    forall r | r in live
      ensures Owns(g', r) <==> Owns(g, r)
    {
      if p' :| p' in g.all && p' in g.page && g.page[p'] == r {
        assert p' in g'.all && g'.page[p'] == r;
      }
    }
  }

  lemma DropOwned(h: Heap, g: Shadow, live: map<nat, nat>, p: nat, i: nat, j: nat, h': Heap)
    requires Dropping(h, g, live, p, i, j, h')
    ensures Foreign(DropShadow(g, p, i, j), live - {g.page[p]}) == Foreign(g, live)
  {
    hide HeapInv, Chain, PerPage, RemoveAt;
    DropMembers(h, g, live, p, i, j, h');
    LessOwned(g, DropShadow(g, p, i, j), live, p);
  }

  lemma LessOwned(g: Shadow, g': Shadow, live: map<nat, nat>, p: nat)
    requires p in g.all && p in g.page && g'.page == g.page && g'.big == g.big
    requires forall p' :: p' in g'.all <==> p' in g.all && p' != p
    ensures Foreign(g', live - {g.page[p]}) == Foreign(g, live)
  {
    assert Owns(g, g.page[p]);
    forall r | r in live && r != g.page[p]
      ensures Owns(g', r) <==> Owns(g, r)
    {
      if p' :| p' in g.all && p' in g.page && g.page[p'] == r {
        assert p' in g'.all;
      }
    }
  }

  lemma BigOwned(g: Shadow, live: map<nat, nat>, q: nat, n: nat)
    requires q !in live
    ensures Foreign(BigShadow(g, q, n), live[q := n]) == Foreign(g, live)
  {
    assert forall r :: r in live ==> (Owns(BigShadow(g, q, n), r) <==> Owns(g, r));
  }

  lemma UnbigOwned(g: Shadow, live: map<nat, nat>, q: nat)
    requires q in g.big
    ensures Foreign(UnbigShadow(g, q), live - {q}) == Foreign(g, live)
  {
    assert forall r :: r in live && r != q ==> (Owns(UnbigShadow(g, q), r) <==> Owns(g, r));
  }

  lemma IsSpare(h: Heap, g: Shadow, live: map<nat, nat>, p: nat)
    requires HasFree(h, g, live, NIL, p) && p in g.kind
    ensures Spare(g, g.kind[p])
  {
    hide Links, PerPage;
    PageFacts(h, g, live, NIL, p);
  }

  lemma NoSpare(h: Heap, g: Shadow, live: map<nat, nat>, t: nat)
    requires HeapInv(h, g, live, NIL) && t < NSIZES && |g.same| == NSIZES
    requires forall p :: p in g.same[t] && p < |h.nfree| ==> h.nfree[p] == 0
    ensures !Spare(g, t)
  {
    hide Links, PerPage, Chain, Allocs;
    forall p | p in g.all && p in g.kind && g.kind[p] == t && p in g.free
      ensures g.free[p] == []
    {
      PageFacts(h, g, live, NIL, p);
      assert p in g.same[t];
    }
  }
}
