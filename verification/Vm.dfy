/** Address spaces, page faults and the TLB on a machine with physical memory (kern/vm/addrspace.c, kern/vm/vm.c). */
module Vm {
  import opened Options
  import opened CoreMap
  import opened VmSpace

  datatype Errno = OK | ENOMEM | EFAULT | EINVAL | EUNIMP

  datatype FaultType = VmFaultRead | VmFaultWrite | VmFaultReadonly | VmFaultOther

  /** A TLB entry: page numbers are kept as page addresses. */
  datatype Entry = Entry(valid: bool, vpage: nat, ppage: nat)

  /** Every valid entry is the segment translation of the active space, and no page is entered twice. */
  ghost predicate TlbOk(tlb: seq<Entry>, active: Option<Space>)
  {
    && |tlb| == NUM_TLB
    && (forall i :: 0 <= i < NUM_TLB && tlb[i].valid ==>
          active.Some? && Ready(active.value) && Aligned(tlb[i].vpage)
              && Translate(active.value, tlb[i].vpage) == Some(tlb[i].ppage))
    && (forall i, j :: 0 <= i < j < NUM_TLB && tlb[i].valid && tlb[j].valid ==> tlb[i].vpage != tlb[j].vpage)
  }

  lemma TlbFill(tlb: seq<Entry>, active: Space, k: nat, va: nat)
    requires TlbOk(tlb, Some(active)) && Ready(active) && k < NUM_TLB && !tlb[k].valid && Aligned(va)
             && Translate(active, va).Some?
    requires forall i :: 0 <= i < NUM_TLB && tlb[i].valid ==> tlb[i].vpage != va
    ensures TlbOk(tlb[k := Entry(true, va, Translate(active, va).value)], Some(active))
  {
  }

  /** The byte a space shows at an address. */
  ghost function ByteAt(ram: map<nat, nat>, s: Space, va: nat): Option<nat>
  {
    match Translate(s, va)
    case None => None
    case Some(pa) => if pa in ram then Some(ram[pa]) else None
  }

  /** Where the byte at a of segment dst comes from when src is moved there. */
  function Source(dst: Seg, src: Seg, a: nat): nat
    requires Holds(dst, a)
  {
    a - dst.pbase + src.pbase
  }

  /** memmove of segment src onto segment dst. */
  ghost predicate Moved(ram: map<nat, nat>, ram': map<nat, nat>, dst: Seg, src: Seg)
  {
    && ram'.Keys == ram.Keys
    && forall a :: a in ram ==>
         if Holds(dst, a) then Source(dst, src, a) in ram && ram'[a] == ram[Source(dst, src, a)] else ram'[a] == ram[a]
  }

  /** The bytes of the three segments of s are in those of s', and no other byte differs. */
  ghost predicate Copied(ram: map<nat, nat>, ram': map<nat, nat>, s: Space, s': Space)
  {
    && ram'.Keys == ram.Keys
    && (forall i: nat, a :: i < 3 && a in ram && Holds(SegOf(s', i), a) ==>
          Source(SegOf(s', i), SegOf(s, i), a) in ram && ram'[a] == ram[Source(SegOf(s', i), SegOf(s, i), a)])
    && (forall a :: a in ram && (forall i: nat :: i < 3 ==> !Holds(SegOf(s', i), a)) ==> ram'[a] == ram[a])
  }

  /** The two spaces have the same layout and no memory in common. */
  ghost predicate Twins(base: nat, live: map<nat, nat>, s: Space, s': Space)
  {
    && Owns(base, live, s) && Owns(base, live, s') && Apart(s, s')
    && (forall i: nat :: i < 3 ==> SegOf(s, i).pbase != 0 && SegOf(s', i).pbase != 0)
    && (forall i: nat :: i < 3 ==> SegOf(s', i).npages == SegOf(s, i).npages && SegOf(s', i).vbase == SegOf(s, i).vbase)
  }

  /** No byte of a segment of s is in a segment of s', nor one of a segment of s' in another. */
  lemma TwinsApart(base: nat, free: seq<bool>, length: seq<nat>, live: map<nat, nat>, s: Space, s': Space, i: nat,
      j: nat, pa: nat)
    requires CoreMap.Inv(free, length, live) && Twins(base, live, s, s') && i < 3 && j < 3
    ensures Holds(SegOf(s, i), pa) ==> !Holds(SegOf(s', j), pa)
    ensures i != j && Holds(SegOf(s', i), pa) ==> !Holds(SegOf(s', j), pa)
  {
    hide CoreMap.Inv, Backed;
    if Holds(SegOf(s, i), pa) {
      SegsApart(base, free, length, live, SegOf(s, i), SegOf(s', j), pa);
    }
    if i != j && Holds(SegOf(s', i), pa) {
      SegsApart(base, free, length, live, SegOf(s', i), SegOf(s', j), pa);
    }
  }

  /** The three moves of as_copy, one after the other. */
  ghost predicate ThreeMoves(s: Space, s': Space, r0: map<nat, nat>, r1: map<nat, nat>, r2: map<nat, nat>,
      r3: map<nat, nat>)
  {
    Moved(r0, r1, SegOf(s', 0), SegOf(s, 0)) && Moved(r1, r2, SegOf(s', 1), SegOf(s, 1))
        && Moved(r2, r3, SegOf(s', 2), SegOf(s, 2))
  }

  lemma MovedAt(r: map<nat, nat>, r': map<nat, nat>, dst: Seg, src: Seg, a: nat)
    requires Moved(r, r', dst, src) && a in r
    ensures a in r' && (!Holds(dst, a) ==> r'[a] == r[a])
    ensures Holds(dst, a) ==> Source(dst, src, a) in r && r'[a] == r[Source(dst, src, a)]
  {
  }

  /** A byte no move puts anything at. */
  lemma Untouched(s: Space, s': Space, r0: map<nat, nat>, r1: map<nat, nat>, r2: map<nat, nat>, r3: map<nat, nat>,
      a: nat)
    requires ThreeMoves(s, s', r0, r1, r2, r3) && a in r0
    ensures a in r1 && a in r2 && a in r3
    ensures !Holds(SegOf(s', 0), a) ==> r1[a] == r0[a]
    ensures !Holds(SegOf(s', 1), a) ==> r2[a] == r1[a]
    ensures !Holds(SegOf(s', 2), a) ==> r3[a] == r2[a]
  {
    hide Moved, Holds, SegOf;
    MovedAt(r0, r1, SegOf(s', 0), SegOf(s, 0), a);
    MovedAt(r1, r2, SegOf(s', 1), SegOf(s, 1), a);
    MovedAt(r2, r3, SegOf(s', 2), SegOf(s, 2), a);
  }

  lemma CopiedByte(base: nat, free: seq<bool>, length: seq<nat>, live: map<nat, nat>, s: Space, s': Space,
                   r0: map<nat, nat>, r1: map<nat, nat>, r2: map<nat, nat>, r3: map<nat, nat>, k: nat, a: nat)
    requires CoreMap.Inv(free, length, live) && Twins(base, live, s, s') && ThreeMoves(s, s', r0, r1, r2, r3)
    requires k < 3 && a in r0 && Holds(SegOf(s', k), a)
    ensures Source(SegOf(s', k), SegOf(s, k), a) in r0 && r3[a] == r0[Source(SegOf(s', k), SegOf(s, k), a)]
  {
    SourceHeld(base, live, s, s', k, a);
    hide CoreMap.Inv, Twins, Moved, Holds, SegOf, Source;
    var b := Source(SegOf(s', k), SegOf(s, k), a);
    forall j: nat | j < 3
      ensures !Holds(SegOf(s', j), b) && (j != k ==> !Holds(SegOf(s', j), a))
    {
      TwinsApart(base, free, length, live, s, s', k, j, b);
      TwinsApart(base, free, length, live, s, s', k, j, a);
    }
    Untouched(s, s', r0, r1, r2, r3, a);
    if k == 0 {
      MovedAt(r0, r1, SegOf(s', 0), SegOf(s, 0), a);
    } else if k == 1 {
      MovedAt(r1, r2, SegOf(s', 1), SegOf(s, 1), a);
      MovedKeys(r0, r1, SegOf(s', 0), SegOf(s, 0));
      Untouched(s, s', r0, r1, r2, r3, b);
    } else {
      MovedAt(r2, r3, SegOf(s', 2), SegOf(s, 2), a);
      MovedKeys(r0, r1, SegOf(s', 0), SegOf(s, 0));
      MovedKeys(r1, r2, SegOf(s', 1), SegOf(s, 1));
      Untouched(s, s', r0, r1, r2, r3, b);
    }
  }

  lemma MovedKeys(r: map<nat, nat>, r': map<nat, nat>, dst: Seg, src: Seg)
    requires Moved(r, r', dst, src)
    ensures r'.Keys == r.Keys
  {
  }

  lemma SourceHeld(base: nat, live: map<nat, nat>, s: Space, s': Space, k: nat, a: nat)
    requires Twins(base, live, s, s') && k < 3 && Holds(SegOf(s', k), a)
    ensures Holds(SegOf(s, k), Source(SegOf(s', k), SegOf(s, k), a))
  {
  }

  lemma CopyDone(base: nat, free: seq<bool>, length: seq<nat>, live: map<nat, nat>, s: Space, s': Space,
                 r0: map<nat, nat>, r1: map<nat, nat>, r2: map<nat, nat>, r3: map<nat, nat>)
    requires CoreMap.Inv(free, length, live) && Twins(base, live, s, s') && ThreeMoves(s, s', r0, r1, r2, r3)
    ensures Copied(r0, r3, s, s')
  {
    hide CoreMap.Inv, Twins, Moved, Holds, SegOf, Source;
    MovedKeys(r0, r1, SegOf(s', 0), SegOf(s, 0));
    MovedKeys(r1, r2, SegOf(s', 1), SegOf(s, 1));
    MovedKeys(r2, r3, SegOf(s', 2), SegOf(s, 2));
    forall i: nat, a | i < 3 && a in r0 && Holds(SegOf(s', i), a)
      ensures Source(SegOf(s', i), SegOf(s, i), a) in r0 && r3[a] == r0[Source(SegOf(s', i), SegOf(s, i), a)]
    {
      CopiedByte(base, free, length, live, s, s', r0, r1, r2, r3, i, a);
    }
    forall a | a in r0 && (forall i: nat :: i < 3 ==> !Holds(SegOf(s', i), a))
      ensures r3[a] == r0[a]
    {
      Untouched(s, s', r0, r1, r2, r3, a);
    }
  }

  /** Twins translate the same addresses, each into its own memory. */
  lemma TwinTranslate(base: nat, live: map<nat, nat>, s: Space, s': Space, va: nat)
    requires Twins(base, live, s, s')
    ensures Translate(s', va).Some? <==> Translate(s, va).Some?
    ensures Translate(s, va).Some? ==> Which(s', va) == Which(s, va)
  {
    assert forall i: nat :: i < 3 ==> (InSeg(SegOf(s', i), va) <==> InSeg(SegOf(s, i), va));
    hide Owns, Apart;
  }

  /** The child sees the parent's byte at every address. */
  lemma ChildSees(base: nat, live: map<nat, nat>, s: Space, s': Space, ram: map<nat, nat>, ram': map<nat, nat>, va: nat)
    requires Twins(base, live, s, s') && Copied(ram, ram', s, s') && Formed(s) && Formed(s') && Ready(s')
    requires forall i: nat, pa: nat :: i < 3 && Holds(SegOf(s', i), pa) ==> pa in ram
    ensures ByteAt(ram', s', va) == ByteAt(ram, s, va)
  {
    hide Owns, Apart, Translate, Holds, InSeg, SegOf, Which, Formed, Ready;
    TwinTranslate(base, live, s, s', va);
    if Translate(s, va).Some? {
      var i := Which(s, va);
      Lands(base, live, s', va);
      var pa := Translate(s', va).value;
      assert Source(SegOf(s', i), SegOf(s, i), pa) == Translate(s, va).value;
    }
  }

  /** A space that shares no memory with the copy sees what it saw. */
  lemma OthersSee(base: nat, free: seq<bool>, length: seq<nat>, live: map<nat, nat>, s: Space, s': Space, z: Space,
                  ram: map<nat, nat>, ram': map<nat, nat>, va: nat)
    requires CoreMap.Inv(free, length, live) && Twins(base, live, s, s') && Copied(ram, ram', s, s')
    requires Formed(z) && Owns(base, live, z) && Ready(z) && Apart(z, s')
    ensures ByteAt(ram', z, va) == ByteAt(ram, z, va)
  {
    hide CoreMap.Inv, Backed;
    if Translate(z, va).Some? {
      Lands(base, live, z, va);
      var g, pa := SegOf(z, Which(z, va)), Translate(z, va).value;
      forall i: nat | i < 3
        ensures !Holds(SegOf(s', i), pa)
      {
        SegsApart(base, free, length, live, g, SegOf(s', i), pa);
      }
    }
  }
}
