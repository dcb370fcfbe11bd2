/** sfs_truncate (kern/fs/sfs/sfs_vnode.c). */
module SfsTruncate {
  import opened SfsDisk
  import opened SfsBlocks
  import opened Sfs

  /**
   Whether truncating to blocklen blocks discards logical block fb. In the
   indirect range the comparison is strict, so block number blocklen itself is
   kept there although it lies past the new end of the file.
   */
  predicate Dropped(fb: nat, blocklen: nat)
  {
    if fb < NDIRECT then blocklen <= fb else blocklen < fb
  }

  /** w is v with the dropped blocks below lim taken away from file ino. */
  ghost predicate Cut(v: Vol, w: Vol, ino: nat, blocklen: nat, lim: nat)
  {
    && Inv(v) && Inv(w) && Frame(v, w, ino)
    && w.inodes[ino].indirect == v.inodes[ino].indirect && w.inodes[ino].size == v.inodes[ino].size
    && (forall fb: nat :: fb < MAXFILEBLOCKS ==>
          Blk(w, ino, fb) == if fb < lim && Dropped(fb, blocklen) then 0 else Blk(v, ino, fb))
    && (forall b :: b in w.own <==>
         b in v.own && !(v.own[b].Data? && v.own[b].ino == ino && v.own[b].fb < lim && Dropped(v.own[b].fb, blocklen)))
    && (forall b :: b in w.own ==> w.own[b] == v.own[b])
    && (forall off: nat :: Raw(w, ino, off) ==
          if off / BLOCKSIZE < lim && Dropped(off / BLOCKSIZE, blocklen) then 0 else Raw(v, ino, off))
  }

  lemma CutStart(v: Vol, ino: nat, blocklen: nat)
    requires Inv(v) && ino in v.inodes
    ensures Cut(v, v, ino, blocklen, 0)
  {
    hide Raw, Blk, Inv;
  }

  /** One block of one file is unmapped and freed. */
  ghost predicate BlockFreed(w: Vol, w': Vol, ino: nat, fb: nat)
  {
    && Unmapped(w, w', ino, fb) && Inv(w') && Frame(w, w', ino)
    && w'.inodes[ino].size == w.inodes[ino].size
    && forall off: nat :: Raw(w', ino, off) == if off / BLOCKSIZE == fb then 0 else Raw(w, ino, off)
  }

  lemma CutFree(v: Vol, w: Vol, w': Vol, ino: nat, blocklen: nat, i: nat)
    requires Cut(v, w, ino, blocklen, i) && i < MAXFILEBLOCKS && Dropped(i, blocklen)
    requires BlockFreed(w, w', ino, i)
    ensures Cut(v, w', ino, blocklen, i + 1)
  {
    FrameTrans(v, w, w', ino);
    CutOwn(v, w, w', ino, blocklen, i);
    hide Raw, Inv, BlockOf, Frame;
  }

  lemma CutOwn(v: Vol, w: Vol, w': Vol, ino: nat, blocklen: nat, i: nat)
    requires Cut(v, w, ino, blocklen, i) && i < MAXFILEBLOCKS && Dropped(i, blocklen)
    requires BlockFreed(w, w', ino, i)
    ensures forall b :: b in w'.own <==>
              b in v.own && !(v.own[b].Data? && v.own[b].ino == ino && v.own[b].fb < i + 1
              && Dropped(v.own[b].fb, blocklen))
  {
    assert InodeOk(w, ino) && Maps(w, ino, i);
    hide Raw, BlockOf, Frame;
    var x := Blk(w, ino, i);
    forall b | b in v.own && v.own[b] == Data(ino, i)
      ensures b == x
    {
      assert OwnOk(v, b);
    }
  }

  lemma CutKeep(v: Vol, w: Vol, ino: nat, blocklen: nat, i: nat)
    requires Cut(v, w, ino, blocklen, i) && i < MAXFILEBLOCKS
    requires Dropped(i, blocklen) ==> Blk(w, ino, i) == 0
    ensures Cut(v, w, ino, blocklen, i + 1)
  {
    hide Inv, Raw, Blk, Dropped, KeepsMapped;
    CutKeepOwn(v, w, ino, blocklen, i);
    if Dropped(i, blocklen) {
      HoleReadsZero(w, ino, i);
    }
  }

  lemma HoleReadsZero(w: Vol, ino: nat, i: nat)
    requires ino in w.inodes && Blk(w, ino, i) == 0
    ensures forall off: nat :: off / BLOCKSIZE == i ==> Raw(w, ino, off) == 0
  {
    hide BlockOf;
  }

  lemma CutKeepOwn(v: Vol, w: Vol, ino: nat, blocklen: nat, i: nat)
    requires Cut(v, w, ino, blocklen, i) && i < MAXFILEBLOCKS
    requires Dropped(i, blocklen) ==> Blk(w, ino, i) == 0
    ensures forall b :: b in w.own ==> !(w.own[b] == Data(ino, i) && Dropped(i, blocklen))
  {
    hide Raw, BlockOf, Frame;
    forall b | b in w.own
      ensures !(w.own[b] == Data(ino, i) && Dropped(i, blocklen))
    {
      assert OwnOk(w, b);
    }
  }

  // ----- unmapping a direct block, and a slot of the indirect block -----

  lemma UnmapOthers(w: Vol, w': Vol, ino: nat, fb: nat)
    requires Unmapped(w, w', ino, fb)
    ensures forall j, gb: nat :: j in w.inodes && j != ino ==> Blk(w', j, gb) == Blk(w, j, gb)
  {
    hide BlockOf, Inv;
    forall j, gb: nat | j in w.inodes && j != ino
      ensures Blk(w', j, gb) == Blk(w, j, gb)
    {
      if MAXFILEBLOCKS <= gb {
        BeyondMax(w.inodes[j], w.disk, gb);
        BeyondMax(w'.inodes[j], w'.disk, gb);
      }
    }
  }

  lemma UnmapRaw(w: Vol, w': Vol, ino: nat, fb: nat)
    requires Unmapped(w, w', ino, fb) && KeepsData(w, w'.disk)
    requires w'.inodes[ino].kind == w.inodes[ino].kind && w'.inodes[ino].links == w.inodes[ino].links
    ensures Frame(w, w', ino)
    ensures forall off: nat :: Raw(w', ino, off) == if off / BLOCKSIZE == fb then 0 else Raw(w, ino, off)
  {
    hide BlockOf;
    assert InodeOk(w, ino) && Maps(w, ino, fb);
    UnmapOthers(w, w', ino, fb);
    forall j, off: nat | j in w.inodes
      ensures Raw(w', j, off) == if j == ino && off / BLOCKSIZE == fb then 0 else Raw(w, j, off)
    {
      var gb := off / BLOCKSIZE;
      assert InodeOk(w, j);
      if gb < MAXFILEBLOCKS {
        assert Maps(w, j, gb);
      } else {
        BeyondMax(w.inodes[j], w.disk, gb);
        BeyondMax(w'.inodes[j], w'.disk, gb);
      }
    }
    forall j | j in w.inodes && j < |w.disk|
      ensures w'.disk[j] == w.disk[j]
    {
      assert InodeOk(w, j);
    }
  }

  ghost function FreeDirect(w: Vol, ino: nat, fb: nat): Vol
    requires ino in w.inodes && fb < |w.inodes[ino].direct| && w.inodes[ino].direct[fb] < |w.freemap|
  {
    var x := w.inodes[ino].direct[fb];
    w.(freemap := w.freemap[x := false], own := w.own - {x},
       inodes := w.inodes[ino := w.inodes[ino].(direct := w.inodes[ino].direct[fb := 0])])
  }

  lemma FreeDirectMapped(w: Vol, ino: nat, fb: nat)
    requires Inv(w) && ino in w.inodes && fb < NDIRECT && Blk(w, ino, fb) != 0
    ensures |w.inodes[ino].direct| == NDIRECT && Blk(w, ino, fb) == w.inodes[ino].direct[fb] < |w.freemap|
    ensures w.freemap[Blk(w, ino, fb)]
    ensures Unmapped(w, FreeDirect(w, ino, fb), ino, fb)
  {
    BmapFacts(w, ino, fb);
    assert InodeOk(w, ino);
  }

  lemma FreeDirectOk(w: Vol, ino: nat, fb: nat)
    requires Inv(w) && ino in w.inodes && fb < NDIRECT && Blk(w, ino, fb) != 0
    ensures |w.inodes[ino].direct| == NDIRECT && Blk(w, ino, fb) == w.inodes[ino].direct[fb] < |w.freemap|
    ensures w.freemap[Blk(w, ino, fb)]
    ensures BlockFreed(w, FreeDirect(w, ino, fb), ino, fb)
  {
    hide Unmapped, BlockOf, Inv;
    FreeDirectMapped(w, ino, fb);
    var w' := FreeDirect(w, ino, fb);
    UnmapKeepsInv(w, w', ino, fb);
    UnmapRaw(w, w', ino, fb);
  }

  ghost function FreeSlot(w: Vol, ino: nat, k: nat): Vol
    requires ino in w.inodes && 0 < w.inodes[ino].indirect < |w.disk| && k < DBPERIDB
    requires Word(w.disk[w.inodes[ino].indirect], k) < |w.freemap|
  {
    var ind := w.inodes[ino].indirect;
    var x := Word(w.disk[ind], k);
    w.(freemap := w.freemap[x := false], own := w.own - {x}, disk := w.disk[ind := SetSlot(w.disk[ind], k, 0)])
  }

  lemma FreeSlotMapped(w: Vol, ino: nat, k: nat)
    requires Inv(w) && ino in w.inodes && k < DBPERIDB && w.inodes[ino].indirect != 0
    requires Blk(w, ino, NDIRECT + k) != 0
    ensures w.inodes[ino].indirect < |w.disk|
            && Blk(w, ino, NDIRECT + k) == Word(w.disk[w.inodes[ino].indirect], k) < |w.freemap|
    ensures w.freemap[Blk(w, ino, NDIRECT + k)]
    ensures Unmapped(w, FreeSlot(w, ino, k), ino, NDIRECT + k) && KeepsData(w, FreeSlot(w, ino, k).disk)
  {
    BmapFacts(w, ino, NDIRECT + k);
    BmapIndirectFacts(w, ino, k);
    assert InodeOk(w, ino);
    var w' := FreeSlot(w, ino, k);
    forall j, gb: nat | j in w.inodes && gb < MAXFILEBLOCKS
      ensures Blk(w', j, gb) == if j == ino && gb == NDIRECT + k then 0 else Blk(w, j, gb)
    {
      FreeSlotBlk(w, ino, k, j, gb);
    }
    hide BlockOf, SetSlot, Word;
  }

  lemma FreeSlotBlk(w: Vol, ino: nat, k: nat, j: nat, gb: nat)
    requires Inv(w) && ino in w.inodes && k < DBPERIDB && 0 < w.inodes[ino].indirect < |w.disk| && j in w.inodes
    requires Word(w.disk[w.inodes[ino].indirect], k) < |w.freemap|
    ensures Blk(FreeSlot(w, ino, k), j, gb) == if j == ino && gb == NDIRECT + k then 0 else Blk(w, j, gb)
  {
    hide Word, SetSlot;
    assert InodeOk(w, j) && InodeOk(w, ino);
    SetSlotBlk(w.inodes[ino], w.disk, k, 0, gb);
  }

  lemma FreeSlotOk(w: Vol, ino: nat, k: nat)
    requires Inv(w) && ino in w.inodes && k < DBPERIDB && w.inodes[ino].indirect != 0
    requires Blk(w, ino, NDIRECT + k) != 0
    ensures w.inodes[ino].indirect < |w.disk| && Word(w.disk[w.inodes[ino].indirect], k) < |w.freemap|
    ensures w.freemap[Word(w.disk[w.inodes[ino].indirect], k)]
    ensures BlockFreed(w, FreeSlot(w, ino, k), ino, NDIRECT + k)
  {
    FreeSlotMapped(w, ino, k);
    hide BlockOf, Word, SetSlot;
    UnmapKeepsInv(w, FreeSlot(w, ino, k), ino, NDIRECT + k);
    UnmapRaw(w, FreeSlot(w, ino, k), ino, NDIRECT + k);
  }

  // ----- giving the indirect block back -----

  ghost predicate NoSlots(w: Vol, ino: nat)
    requires ino in w.inodes
  {
    forall fb: nat :: NDIRECT <= fb < MAXFILEBLOCKS ==> Blk(w, ino, fb) == 0
  }

  /** v' is w without file ino's indirect block, whose stale content stays on the disk. */
  ghost predicate IndirectFreed(w: Vol, v': Vol, ino: nat)
  {
    && ino in w.inodes && NoSlots(w, ino)
    && 0 < w.inodes[ino].indirect < |w.freemap| && w.inodes[ino].indirect < |w.disk| == |v'.disk|
    && v'.nblocks == w.nblocks
    && v'.freemap == w.freemap[w.inodes[ino].indirect := false]
    && v'.own == w.own - {w.inodes[ino].indirect}
    && v'.inodes == w.inodes[ino := w.inodes[ino].(indirect := 0)]
    && forall b :: 0 <= b < |w.disk| && b != w.inodes[ino].indirect ==> v'.disk[b] == w.disk[b]
  }

  lemma IndirectFreedBlk(w: Vol, v': Vol, ino: nat, j: nat, gb: nat)
    requires Inv(w) && IndirectFreed(w, v', ino) && j in w.inodes
    ensures Blk(v', j, gb) == Blk(w, j, gb)
  {
    assert InodeOk(w, j) && InodeOk(w, ino);
    if j == ino && NDIRECT <= gb < MAXFILEBLOCKS {
      assert Blk(w, j, gb) == 0;
    }
  }

  lemma IndirectFreedOwn(w: Vol, v': Vol, ino: nat, b: nat)
    requires Inv(w) && IndirectFreed(w, v', ino) && b in v'.own
    ensures OwnOk(v', b)
  {
    hide BlockOf;
    assert OwnOk(w, b) && InodeOk(w, ino);
    if w.own[b].Data? {
      IndirectFreedBlk(w, v', ino, w.own[b].ino, w.own[b].fb);
    }
  }

  lemma IndirectFreedInode(w: Vol, v': Vol, ino: nat, i: nat)
    requires Inv(w) && IndirectFreed(w, v', ino) && i in v'.inodes
    ensures InodeOk(v', i)
  {
    hide BlockOf;
    assert InodeOk(w, i) && InodeOk(w, ino);
    forall gb: nat | gb < MAXFILEBLOCKS
      ensures Maps(v', i, gb)
    {
      IndirectFreedBlk(w, v', ino, i, gb);
      assert Maps(w, i, gb);
    }
  }

  lemma IndirectFreedRaw(w: Vol, v': Vol, ino: nat)
    requires Inv(w) && IndirectFreed(w, v', ino)
    ensures Frame(w, v', ino) && SameRaw(w, v', ino)
  {
    hide BlockOf, NoSlots;
    assert InodeOk(w, ino);
    forall j, gb: nat | j in w.inodes ensures Blk(v', j, gb) == Blk(w, j, gb) { IndirectFreedBlk(w, v', ino, j, gb); }
    forall j, off: nat | j in w.inodes
      ensures Raw(v', j, off) == Raw(w, j, off)
    {
      var gb := off / BLOCKSIZE;
      IndirectFreedBlk(w, v', ino, j, gb);
      assert InodeOk(w, j);
      if gb < MAXFILEBLOCKS {
        assert Maps(w, j, gb);
      } else {
        BeyondMax(w.inodes[j], w.disk, gb);
      }
    }
    forall j | j in w.inodes && j < |w.disk|
      ensures v'.disk[j] == w.disk[j]
    {
      assert InodeOk(w, j);
    }
  }

  lemma IndirectFreedOk(w: Vol, v': Vol, ino: nat)
    requires Inv(w) && IndirectFreed(w, v', ino)
    ensures Inv(v') && Frame(w, v', ino) && SameRaw(w, v', ino)
    ensures forall gb: nat :: Blk(v', ino, gb) == Blk(w, ino, gb)
  {
    hide BlockOf, NoSlots;
    assert InodeOk(w, ino);
    forall b | b in v'.own ensures OwnOk(v', b) { IndirectFreedOwn(w, v', ino, b); }
    forall i | i in v'.inodes ensures InodeOk(v', i) { IndirectFreedInode(w, v', ino, i); }
    forall gb: nat ensures Blk(v', ino, gb) == Blk(w, ino, gb) { IndirectFreedBlk(w, v', ino, ino, gb); }
    IndirectFreedRaw(w, v', ino);
  }

  // ----- the whole operation -----

  /** The length in blocks, rounded up in signed 32 bits: past the last offset the sum turns negative, and so huge. */
  function Blocklen(len: nat): nat
  {
    var up := len + BLOCKSIZE - 1;
    if up < TWO31 then up / BLOCKSIZE else TWO32 - (TWO32 - up) / BLOCKSIZE
  }

  /** The last logical block an indirect block can map. */
  const HIGHBLOCK := MAXFILEBLOCKS - 1

  /** The indirect block goes exactly when it is looked at and keeps no slot. */
  ghost predicate FreesIndirect(v: Vol, ino: nat, blocklen: nat)
    requires ino in v.inodes
  {
    && blocklen < HIGHBLOCK && v.inodes[ino].indirect != 0
    && forall fb: nat :: NDIRECT <= fb < MAXFILEBLOCKS && !Dropped(fb, blocklen) ==> Blk(v, ino, fb) == 0
  }

  /** The blocks the operation gives back. */
  ghost predicate Discards(v: Vol, ino: nat, blocklen: nat, b: nat)
    requires ino in v.inodes && b in v.own
  {
    || (v.own[b].Data? && v.own[b].ino == ino && Dropped(v.own[b].fb, blocklen))
    || (v.own[b] == Indirect(ino) && FreesIndirect(v, ino, blocklen))
  }

  ghost predicate Truncated(v: Vol, v': Vol, ino: nat, blocklen: nat)
  {
    && Inv(v') && Frame(v, v', ino)
    && (forall fb: nat :: fb < MAXFILEBLOCKS ==>
          Blk(v', ino, fb) == if Dropped(fb, blocklen) then 0 else Blk(v, ino, fb))
    && v'.inodes[ino].indirect == (if FreesIndirect(v, ino, blocklen) then 0 else v.inodes[ino].indirect)
    && (forall b :: b in v'.own <==> b in v.own && !Discards(v, ino, blocklen, b))
    && (forall off: nat :: Raw(v', ino, off) ==
          if Dropped(off / BLOCKSIZE, blocklen) then 0 else Raw(v, ino, off))
  }

  /** A cut over all direct blocks, when there is no indirect block to look at. */
  lemma CutDone(v: Vol, w: Vol, ino: nat, blocklen: nat)
    requires Cut(v, w, ino, blocklen, NDIRECT) && (HIGHBLOCK <= blocklen || v.inodes[ino].indirect == 0)
    ensures Truncated(v, w, ino, blocklen)
  {
    hide Inv, Raw, BlockOf, Discards, FreesIndirect;
    CutDoneRaw(v, w, ino, blocklen);
    CutDoneBlk(v, w, ino, blocklen);
    forall b | b in v.own
      ensures b in w.own <==> !Discards(v, ino, blocklen, b)
    {
      CutDoneOwn(v, ino, blocklen, b);
    }
  }

  lemma CutDoneBlk(v: Vol, w: Vol, ino: nat, blocklen: nat)
    requires Cut(v, w, ino, blocklen, NDIRECT) && (HIGHBLOCK <= blocklen || v.inodes[ino].indirect == 0)
    ensures forall fb: nat :: NDIRECT <= fb < MAXFILEBLOCKS && Dropped(fb, blocklen) ==> Blk(w, ino, fb) == 0
    ensures w.inodes[ino].indirect == (if FreesIndirect(v, ino, blocklen) then 0 else v.inodes[ino].indirect)
  {
    hide Inv, Raw;
  }

  lemma CutDoneOwn(v: Vol, ino: nat, blocklen: nat, b: nat)
    requires Inv(v) && ino in v.inodes && b in v.own && (HIGHBLOCK <= blocklen || v.inodes[ino].indirect == 0)
    ensures Discards(v, ino, blocklen, b) <==>
              v.own[b].Data? && v.own[b].ino == ino && v.own[b].fb < NDIRECT && Dropped(v.own[b].fb, blocklen)
  {
    assert OwnOk(v, b);
  }

  lemma CutDoneRaw(v: Vol, w: Vol, ino: nat, blocklen: nat)
    requires Cut(v, w, ino, blocklen, NDIRECT) && (HIGHBLOCK <= blocklen || v.inodes[ino].indirect == 0)
    ensures forall off: nat :: Raw(w, ino, off) == if Dropped(off / BLOCKSIZE, blocklen) then 0 else Raw(v, ino, off)
  {
    forall off: nat | NDIRECT <= off / BLOCKSIZE && Dropped(off / BLOCKSIZE, blocklen)
      ensures Raw(w, ino, off) == 0
    {
      hide Inv, Frame;
    }
  }

  /** A cut over everything, the indirect block staying because it still has a slot. */
  lemma CutKeepsIndirect(v: Vol, w: Vol, ino: nat, blocklen: nat, fb: nat)
    requires Cut(v, w, ino, blocklen, MAXFILEBLOCKS)
    requires NDIRECT <= fb < MAXFILEBLOCKS && Blk(w, ino, fb) != 0
    ensures Truncated(v, w, ino, blocklen)
  {
    hide Frame, Raw, BlockOf, Inv;
    CutAllRaw(v, w, ino, blocklen);
    DataBelowMax(v);
  }

  lemma DataBelowMax(v: Vol)
    requires Inv(v)
    ensures forall b :: b in v.own && v.own[b].Data? ==> v.own[b].fb < MAXFILEBLOCKS
  {
    hide Raw, BlockOf;
    forall b | b in v.own && v.own[b].Data?
      ensures v.own[b].fb < MAXFILEBLOCKS
    {
      assert OwnOk(v, b);
    }
  }

  lemma CutAllRaw(v: Vol, w: Vol, ino: nat, blocklen: nat)
    requires Cut(v, w, ino, blocklen, MAXFILEBLOCKS)
    ensures forall off: nat :: Raw(w, ino, off) == if Dropped(off / BLOCKSIZE, blocklen) then 0 else Raw(v, ino, off)
  {
    forall off: nat | MAXFILEBLOCKS <= off / BLOCKSIZE
      ensures Raw(v, ino, off) == 0
    {
      hide Inv, Frame;
    }
    hide Inv, Frame, Raw, Blk;
  }

  /** A cut over everything, after which the empty indirect block is freed. */
  lemma CutFreesIndirect(v: Vol, w: Vol, v': Vol, ino: nat, blocklen: nat)
    requires Cut(v, w, ino, blocklen, MAXFILEBLOCKS) && blocklen < HIGHBLOCK
    requires IndirectFreed(w, v', ino)
    ensures Truncated(v, v', ino, blocklen)
  {
    IndirectFreedOk(w, v', ino);
    CutAllRaw(v, w, ino, blocklen);
    FrameTrans(v, w, v', ino);
    CutFreesOwn(v, w, v', ino, blocklen);
    hide Inv, Frame, Raw, BlockOf;
    forall fb: nat | NDIRECT <= fb < MAXFILEBLOCKS
      ensures Blk(w, ino, fb) == 0
    {
    }
  }

  lemma CutFreesOwn(v: Vol, w: Vol, v': Vol, ino: nat, blocklen: nat)
    requires Cut(v, w, ino, blocklen, MAXFILEBLOCKS) && blocklen < HIGHBLOCK
    requires IndirectFreed(w, v', ino)
    ensures FreesIndirect(v, ino, blocklen)
    ensures forall b :: b in v'.own <==> b in v.own && !Discards(v, ino, blocklen, b)
  {
    assert InodeOk(w, ino);
    hide Frame, Raw, BlockOf;
    forall b | b in v.own
      ensures b in v'.own <==> !Discards(v, ino, blocklen, b)
    {
      assert OwnOk(v, b);
    }
  }

  /** The loop over the direct blocks. */
  method CutDirect(fs: Volume, sv: Vnode, blocklen: nat)
    requires fs.Ok() && fs.Current(sv)
    modifies fs`own, fs`inodes, fs.freemap.v, sv`inode, sv`dirty
    ensures fs.Ok() && fs.Current(sv) && Cut(old(fs.V()), fs.V(), sv.ino, blocklen, NDIRECT)
  {
    hide Inv, Cut, BlockFreed, BlockOf;
    ghost var v := fs.V();
    CutStart(v, sv.ino, blocklen);
    var i := 0;
    while i < NDIRECT
      invariant 0 <= i <= NDIRECT
      invariant fs.Ok() && fs.Current(sv) && Cut(v, fs.V(), sv.ino, blocklen, i)
    {
      ghost var w := fs.V();
      DirectBlk(w, sv.ino, i);
      var block := sv.inode.direct[i];
      if i >= blocklen && block != 0 {
        FreeDirectOk(w, sv.ino, i);
        fs.freemap.Unmark(block);
        sv.inode := sv.inode.(direct := sv.inode.direct[i := 0]);
        sv.dirty := true;
        fs.own, fs.inodes := fs.own - {block}, fs.inodes[sv.ino := sv.inode];
        assert fs.V() == FreeDirect(w, sv.ino, i);
        FreedInv(w, fs.V(), sv.ino, i);
        CutFree(v, w, fs.V(), sv.ino, blocklen, i);
      } else {
        CutKeep(v, w, sv.ino, blocklen, i);
      }
      i := i + 1;
    }
  }

  lemma FreedInv(w: Vol, w': Vol, ino: nat, fb: nat)
    requires BlockFreed(w, w', ino, fb)
    ensures Inv(w')
  {
  }

  lemma DirectBlk(w: Vol, ino: nat, i: nat)
    requires Inv(w) && ino in w.inodes && i < NDIRECT
    ensures |w.inodes[ino].direct| == NDIRECT && Blk(w, ino, i) == w.inodes[ino].direct[i]
  {
    assert InodeOk(w, ino);
  }

  /** The volume as it will be once the indirect block's words are written back. */
  ghost function WithSlots(v: Vol, ind: nat, idbuf: seq<nat>): Vol
    requires ind < |v.disk| && |idbuf| == DBPERIDB
  {
    v.(disk := v.disk[ind := FromWords(idbuf)])
  }

  lemma SlotBlk(u: Vol, ino: nat, ind: nat, idbuf: seq<nat>, j: nat)
    requires ino in u.inodes && u.inodes[ino].indirect == ind && 0 < ind < |u.disk|
    requires |idbuf| == DBPERIDB && AreWords(idbuf) && j < DBPERIDB
    ensures Blk(WithSlots(u, ind, idbuf), ino, NDIRECT + j) == idbuf[j]
  {
    hide Word, FromWords;
    WordsRoundTrip(idbuf);
    assert Words(FromWords(idbuf))[j] == idbuf[j];
  }

  lemma SlotsFreed(u: Vol, u': Vol, ino: nat, ind: nat, idbuf: seq<nat>, j: nat)
    requires ino in u.inodes && u.inodes[ino].indirect == ind && 0 < ind < |u.disk|
    requires |idbuf| == DBPERIDB && AreWords(idbuf) && j < DBPERIDB && idbuf[j] != 0
    requires Inv(WithSlots(u, ind, idbuf))
    requires idbuf[j] < |u.freemap|
    requires u' == u.(freemap := u.freemap[idbuf[j] := false], own := u.own - {idbuf[j]})
    ensures BlockFreed(WithSlots(u, ind, idbuf), WithSlots(u', ind, idbuf[j := 0]), ino, NDIRECT + j)
  {
    hide BlockOf, Inv, BlockFreed, Word, FromWords, SetSlot;
    SlotBlk(u, ino, ind, idbuf, j);
    var w := WithSlots(u, ind, idbuf);
    FreeSlotOk(w, ino, j);
    SetSlotOfWords(idbuf, j);
    assert WithSlots(u', ind, idbuf[j := 0]).disk == FreeSlot(w, ino, j).disk;
  }

  lemma SetSlotOfWords(idbuf: seq<nat>, j: nat)
    requires |idbuf| == DBPERIDB && AreWords(idbuf) && j < DBPERIDB
    ensures SetSlot(FromWords(idbuf), j, 0) == FromWords(idbuf[j := 0])
    ensures Word(FromWords(idbuf), j) == idbuf[j]
  {
    hide FromWords, Word;
    WordsRoundTrip(idbuf);
    assert Words(FromWords(idbuf))[j] == idbuf[j];
  }

  lemma SlotInBounds(w: Vol, ino: nat, fb: nat)
    requires Inv(w) && ino in w.inodes && fb < MAXFILEBLOCKS
    ensures Blk(w, ino, fb) < |w.freemap| && w.freemap[Blk(w, ino, fb)]
  {
    BmapFacts(w, ino, fb);
  }

  predicate SomeSlot(idbuf: seq<nat>, lim: nat)
    requires lim <= |idbuf|
  {
    exists k :: 0 <= k < lim && idbuf[k] != 0
  }

  lemma SomeSlotNone(idbuf: seq<nat>)
    ensures !SomeSlot(idbuf, 0)
  {
  }

  lemma SomeSlotStep(before: seq<nat>, idbuf: seq<nat>, j: nat)
    requires j < |before| == |idbuf| && forall k :: 0 <= k < j ==> before[k] == idbuf[k]
    ensures SomeSlot(idbuf, j + 1) <==> SomeSlot(before, j) || idbuf[j] != 0
  {
    if SomeSlot(before, j) {
      var k :| 0 <= k < j && before[k] != 0;
      assert idbuf[k] != 0;
    }
  }

  /** The loop over the words of the indirect block, which clears bits while the words are only in memory. */
  method CutSlots(fs: Volume, sv: Vnode, blocklen: nat, ghost v: Vol)
    returns (idbuf: seq<nat>, hasnonzero: bool, iddirty: bool)
    requires fs.Ok() && fs.Current(sv) && Cut(v, fs.V(), sv.ino, blocklen, NDIRECT)
    requires 0 < sv.inode.indirect < |fs.disk|
    modifies fs`own, fs.freemap.v
    ensures fs.freemap.Valid() && |idbuf| == DBPERIDB && AreWords(idbuf)
    ensures Cut(v, WithSlots(fs.V(), sv.inode.indirect, idbuf), sv.ino, blocklen, MAXFILEBLOCKS)
    ensures hasnonzero <==> SomeSlot(idbuf, DBPERIDB)
    ensures !iddirty ==> idbuf == Words(fs.disk[sv.inode.indirect])
  {
    hide Inv, Cut, BlockFreed, BlockOf, FromWords, Word, SomeSlot;
    SomeSlotNone(Words(fs.disk[sv.inode.indirect]));
    var ind := sv.inode.indirect;
    idbuf := Words(fs.disk[ind]);
    BlockRoundTrip(fs.disk[ind]);
    assert WithSlots(fs.V(), ind, idbuf) == fs.V();
    hasnonzero, iddirty := false, false;
    var j := 0;
    while j < DBPERIDB
      invariant 0 <= j <= DBPERIDB && |idbuf| == DBPERIDB && AreWords(idbuf) && fs.freemap.Valid()
      invariant Cut(v, WithSlots(fs.V(), ind, idbuf), sv.ino, blocklen, NDIRECT + j)
      invariant Inv(WithSlots(fs.V(), ind, idbuf))
      invariant hasnonzero <==> SomeSlot(idbuf, j)
      invariant !iddirty ==> idbuf == Words(fs.disk[ind])
    {
      ghost var u, before := fs.V(), idbuf;
      SlotBlk(u, sv.ino, ind, idbuf, j);
      SlotInBounds(WithSlots(u, ind, idbuf), sv.ino, NDIRECT + j);
      if blocklen < NDIRECT + j && idbuf[j] != 0 {
        fs.freemap.Unmark(idbuf[j]);
        fs.own := fs.own - {idbuf[j]};
        SlotsFreed(u, fs.V(), sv.ino, ind, idbuf, j);
        FreedInv(WithSlots(u, ind, idbuf), WithSlots(fs.V(), ind, idbuf[j := 0]), sv.ino, NDIRECT + j);
        CutFree(v, WithSlots(u, ind, idbuf), WithSlots(fs.V(), ind, idbuf[j := 0]), sv.ino, blocklen, NDIRECT + j);
        idbuf := idbuf[j := 0];
        iddirty := true;
      } else {
        CutKeep(v, WithSlots(u, ind, idbuf), sv.ino, blocklen, NDIRECT + j);
      }
      if idbuf[j] != 0 {
        hasnonzero := true;
      }
      SomeSlotStep(before, idbuf, j);
      j := j + 1;
    }
  }

  /** The part of the operation that looks at the indirect block. */
  method CutIndirect(fs: Volume, sv: Vnode, blocklen: nat, ghost v: Vol)
    requires fs.Ok() && fs.Current(sv) && Cut(v, fs.V(), sv.ino, blocklen, NDIRECT)
    requires blocklen < HIGHBLOCK && 0 < sv.inode.indirect < |fs.disk|
    modifies fs`disk, fs`own, fs`inodes, fs.freemap.v, sv`inode, sv`dirty
    ensures fs.Ok() && fs.Current(sv) && Truncated(v, fs.V(), sv.ino, blocklen)
  {
    hide Inv, BlockOf, FromWords, Word, Frame, Raw, Cut;
    var ind := sv.inode.indirect;
    var idbuf, hasnonzero, iddirty := CutSlots(fs, sv, blocklen, v);
    ghost var u := fs.V();
    ghost var w := WithSlots(u, ind, idbuf);
    if !hasnonzero {
      NoSlotsLeft(u, sv.ino, ind, idbuf);
      CutMarked(v, w, sv.ino, blocklen);
      fs.freemap.Unmark(ind);
      sv.inode := sv.inode.(indirect := 0);
      sv.dirty := true;
      fs.own, fs.inodes := fs.own - {ind}, fs.inodes[sv.ino := sv.inode];
      CutFreesIndirect(v, w, fs.V(), sv.ino, blocklen);
    } else {
      if iddirty {
        fs.disk := fs.disk[ind := FromWords(idbuf)];
      }
      BlockRoundTrip(fs.disk[ind]);
      assert fs.V() == w;
      var k :| 0 <= k < DBPERIDB && idbuf[k] != 0;
      SlotBlk(u, sv.ino, ind, idbuf, k);
      CutKeepsIndirect(v, w, sv.ino, blocklen, NDIRECT + k);
    }
  }

  lemma NoSlotsLeft(u: Vol, ino: nat, ind: nat, idbuf: seq<nat>)
    requires ino in u.inodes && u.inodes[ino].indirect == ind && 0 < ind < |u.disk|
    requires |idbuf| == DBPERIDB && AreWords(idbuf) && !SomeSlot(idbuf, DBPERIDB)
    ensures NoSlots(WithSlots(u, ind, idbuf), ino)
  {
    hide BlockOf, FromWords;
    forall fb: nat | NDIRECT <= fb < MAXFILEBLOCKS
      ensures Blk(WithSlots(u, ind, idbuf), ino, fb) == 0
    {
      SlotBlk(u, ino, ind, idbuf, fb - NDIRECT);
    }
  }

  lemma CutMarked(v: Vol, w: Vol, ino: nat, blocklen: nat)
    requires Cut(v, w, ino, blocklen, MAXFILEBLOCKS) && w.inodes[ino].indirect != 0
    ensures w.inodes[ino].indirect < |w.freemap| && w.freemap[w.inodes[ino].indirect]
  {
    assert InodeOk(w, ino);
  }

  /**
   sfs_truncate to len bytes. Every raw byte of a block that is kept survives,
   the blocks given back are exactly those dropped, and the indirect block goes
   exactly when it is looked at and ends empty.
   */
  method Truncate(fs: Volume, sv: Vnode, len: nat)
    requires fs.Ok() && fs.Current(sv) && len < TWO31
    modifies fs`disk, fs`own, fs`inodes, fs.freemap.v, sv`inode, sv`dirty
    ensures fs.Ok() && fs.Current(sv) && Truncated(old(fs.V()), fs.V(), sv.ino, Blocklen(len))
    ensures sv.inode.size == len && sv.dirty
  {
    hide Inv, Cut, BlockOf, Truncated;
    ghost var v := fs.V();
    var blocklen := Blocklen(len);
    CutDirect(fs, sv, blocklen);
    CutIndirectKept(v, fs.V(), sv.ino, blocklen);
    if blocklen < HIGHBLOCK && sv.inode.indirect != 0 {
      CutIndirect(fs, sv, blocklen, v);
    } else {
      CutDone(v, fs.V(), sv.ino, blocklen);
    }
    TruncatedSize(v, fs.V(), sv.ino, blocklen, len);
    sv.inode := sv.inode.(size := len);
    sv.dirty := true;
    fs.inodes := fs.inodes[sv.ino := sv.inode];
  }

  lemma CutIndirectKept(v: Vol, w: Vol, ino: nat, blocklen: nat)
    requires Cut(v, w, ino, blocklen, NDIRECT)
    ensures w.inodes[ino].indirect == v.inodes[ino].indirect < |w.disk|
  {
    assert InodeOk(w, ino);
  }

  lemma TruncatedSize(v: Vol, w: Vol, ino: nat, blocklen: nat, len: nat)
    requires Truncated(v, w, ino, blocklen) && len < TWO31
    ensures Inv(w.(inodes := w.inodes[ino := w.inodes[ino].(size := len)]))
    ensures Truncated(v, w.(inodes := w.inodes[ino := w.inodes[ino].(size := len)]), ino, blocklen)
  {
    hide Inv, Raw, BlockOf, FreesIndirect, Discards;
    SizeOk(w, ino, len);
  }

  lemma SizeOk(w: Vol, ino: nat, len: nat)
    requires Inv(w) && ino in w.inodes && len < TWO31
    ensures var w' := w.(inodes := w.inodes[ino := w.inodes[ino].(size := len)]);
            && Inv(w') && Frame(w, w', ino)
            && (forall fb: nat :: Blk(w', ino, fb) == Blk(w, ino, fb))
            && (forall off: nat :: Raw(w', ino, off) == Raw(w, ino, off))
  {
    assert InodeOk(w, ino);
    MetaOk(w, ino, w.inodes[ino].(size := len));
  }
}
