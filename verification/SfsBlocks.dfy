/**
 Who owns each block of an SFS volume. The volume is looked at as a value: the
 free-block bitmap, the disk, the current inode of every inode number (the copy
 in memory when its vnode is loaded, else the one on disk), and, for the proofs,
 the owner of every block in use.
 */
module SfsBlocks {
  import opened SfsDisk

  datatype Owner = Reserved | InodeBlock | Indirect(ino: nat) | Data(ino: nat, fb: nat)

  datatype Vol = Vol(nblocks: nat, freemap: seq<bool>, disk: seq<Block>,
                     own: map<nat, Owner>, inodes: map<nat, Inode>)

  /** The disk block mapped at logical block fb of an inode; 0 stands for a hole. */
  function BlockOf(i: Inode, disk: seq<Block>, fb: nat): nat
  {
    if fb < NDIRECT then
      if fb < |i.direct| then i.direct[fb] else 0
    else if fb < MAXFILEBLOCKS && 0 < i.indirect < |disk| then
      Word(disk[i.indirect], fb - NDIRECT)
    else 0
  }

  ghost function Blk(v: Vol, i: nat, fb: nat): nat
    requires i in v.inodes
  {
    BlockOf(v.inodes[i], v.disk, fb)
  }

  /** The raw content of a file: the mapped bytes, and zero in the holes. */
  function RawOf(i: Inode, disk: seq<Block>, off: nat): byte
  {
    var b := BlockOf(i, disk, off / BLOCKSIZE);
    if 0 < b < |disk| then disk[b][off % BLOCKSIZE] else 0
  }

  ghost function Raw(v: Vol, i: nat, off: nat): byte
    requires i in v.inodes
  {
    RawOf(v.inodes[i], v.disk, off)
  }

  predicate IsReserved(nblocks: nat, b: nat)
  {
    b == SB_LOCATION || MAP_LOCATION <= b < MAP_LOCATION + BitBlocks(nblocks)
  }

  ghost predicate OwnOk(v: Vol, b: nat)
    requires b in v.own
  {
    && b < v.nblocks
    && match v.own[b]
       case Reserved => IsReserved(v.nblocks, b)
       case InodeBlock => b in v.inodes
       case Indirect(i) => b != 0 && i in v.inodes && v.inodes[i].indirect == b
       case Data(i, fb) => b != 0 && i in v.inodes && fb < MAXFILEBLOCKS && Blk(v, i, fb) == b
  }

  ghost predicate Maps(v: Vol, i: nat, fb: nat)
    requires i in v.inodes
  {
    var b := Blk(v, i, fb);
    b != 0 ==> b in v.own && v.own[b] == Data(i, fb)
  }

  ghost predicate InodeOk(v: Vol, i: nat)
    requires i in v.inodes
  {
    && i in v.own && v.own[i] == InodeBlock
    && InodeFine(v.inodes[i])
    && (v.inodes[i].indirect != 0 ==> v.inodes[i].indirect in v.own && v.own[v.inodes[i].indirect] == Indirect(i))
    && forall fb: nat :: fb < MAXFILEBLOCKS ==> Maps(v, i, fb)
  }

  ghost predicate Shape(v: Vol)
  {
    && MAP_LOCATION + BitBlocks(v.nblocks) <= v.nblocks < TWO32
    && |v.freemap| == BitmapSize(v.nblocks) >= v.nblocks
    && |v.disk| == v.nblocks
  }

  /** A bit is marked exactly when its block is owned or lies past the end of the disk. */
  ghost predicate Marked(v: Vol)
  {
    forall b: nat :: b < |v.freemap| ==> (v.freemap[b] <==> b in v.own || v.nblocks <= b)
  }

  /**
   The block-ownership invariant. Ownership is a function of the block, so no
   block has two owners; the two directions say that it is exactly what the
   reserved area, the inodes and the indirect blocks claim.
   */
  ghost predicate Inv(v: Vol)
  {
    && Shape(v)
    && Marked(v)
    && (forall b :: b in v.own ==> OwnOk(v, b))
    && (forall b: nat :: IsReserved(v.nblocks, b) ==> b in v.own && v.own[b] == Reserved)
    && (forall i :: i in v.inodes ==> InodeOk(v, i))
    && ROOT_LOCATION in v.inodes
  }

  /** No disk block backs two different places of the volume. */
  lemma NoSharing(v: Vol, i: nat, fb: nat, j: nat, gb: nat)
    requires Inv(v) && i in v.inodes && j in v.inodes && fb < MAXFILEBLOCKS && gb < MAXFILEBLOCKS
    requires Blk(v, i, fb) != 0
    ensures Blk(v, i, fb) == Blk(v, j, gb) ==> i == j && fb == gb
    ensures Blk(v, i, fb) !in v.inodes && Blk(v, i, fb) != v.inodes[j].indirect
    ensures !IsReserved(v.nblocks, Blk(v, i, fb))
    ensures Blk(v, i, fb) < v.nblocks && v.freemap[Blk(v, i, fb)]
  {
    assert InodeOk(v, i) && InodeOk(v, j);
    assert Maps(v, i, fb) && Maps(v, j, gb);
    var b := Blk(v, i, fb);
    assert OwnOk(v, b);
    assert b in v.inodes ==> InodeOk(v, b);
  }

  // ----- one place of one file is mapped, remapped or unmapped -----

  /** v' differs from v in what is mapped at block fb of file ino: block x there, or nothing when x is 0. */
  ghost predicate Remapped(v: Vol, v': Vol, ino: nat, fb: nat, x: nat)
  {
    && ino in v.inodes && fb < MAXFILEBLOCKS
    && v'.nblocks == v.nblocks && |v'.disk| == |v.disk|
    && v'.inodes.Keys == v.inodes.Keys
    && (forall j :: j in v.inodes && j != ino ==> v'.inodes[j] == v.inodes[j])
    && v'.inodes[ino].indirect == v.inodes[ino].indirect
    && InodeFine(v'.inodes[ino])
    && (forall j, gb: nat :: j in v.inodes && gb < MAXFILEBLOCKS ==>
          Blk(v', j, gb) == if j == ino && gb == fb then x else Blk(v, j, gb))
  }

  ghost predicate Mapped(v: Vol, v': Vol, ino: nat, fb: nat, x: nat)
  {
    && Inv(v) && Remapped(v, v', ino, fb, x)
    && Blk(v, ino, fb) == 0
    && 0 < x < v.nblocks && !v.freemap[x]
    && v'.freemap == v.freemap[x := true]
    && v'.own == v.own[x := Data(ino, fb)]
  }

  lemma MapOwnOk(v: Vol, v': Vol, ino: nat, fb: nat, x: nat, b: nat)
    requires Mapped(v, v', ino, fb, x) && b in v'.own
    ensures OwnOk(v', b)
  {
    hide BlockOf;
    if b != x {
      assert OwnOk(v, b);
    }
  }

  lemma MapInodeOk(v: Vol, v': Vol, ino: nat, fb: nat, x: nat, i: nat)
    requires Mapped(v, v', ino, fb, x) && i in v'.inodes
    ensures InodeOk(v', i)
  {
    hide BlockOf;
    assert InodeOk(v, i);
    assert x !in v.own;
    forall gb: nat | gb < MAXFILEBLOCKS
      ensures Maps(v', i, gb)
    {
      assert Maps(v, i, gb);
    }
  }

  lemma MapKeepsInv(v: Vol, v': Vol, ino: nat, fb: nat, x: nat)
    requires Mapped(v, v', ino, fb, x)
    ensures Inv(v')
  {
    hide BlockOf, Blk;
    forall b | b in v'.own ensures OwnOk(v', b) { MapOwnOk(v, v', ino, fb, x, b); }
    forall i | i in v'.inodes ensures InodeOk(v', i) { MapInodeOk(v, v', ino, fb, x, i); }
  }

  ghost predicate Unmapped(v: Vol, v': Vol, ino: nat, fb: nat)
  {
    && Inv(v) && Remapped(v, v', ino, fb, 0)
    && 0 < Blk(v, ino, fb) < |v.freemap|
    && v'.freemap == v.freemap[Blk(v, ino, fb) := false]
    && v'.own == v.own - {Blk(v, ino, fb)}
  }

  lemma UnmapOwnOk(v: Vol, v': Vol, ino: nat, fb: nat, b: nat)
    requires Unmapped(v, v', ino, fb) && b in v'.own
    ensures OwnOk(v', b)
  {
    hide BlockOf;
    assert OwnOk(v, b);
  }

  lemma UnmapInodeOk(v: Vol, v': Vol, ino: nat, fb: nat, i: nat)
    requires Unmapped(v, v', ino, fb) && i in v'.inodes
    ensures InodeOk(v', i)
  {
    hide BlockOf;
    assert InodeOk(v, i) && InodeOk(v, ino) && Maps(v, ino, fb);
    forall gb: nat | gb < MAXFILEBLOCKS
      ensures Maps(v', i, gb)
    {
      assert Maps(v, i, gb);
    }
  }

  lemma UnmapKeepsInv(v: Vol, v': Vol, ino: nat, fb: nat)
    requires Unmapped(v, v', ino, fb)
    ensures Inv(v')
  {
    hide BlockOf;
    assert InodeOk(v, ino) && Maps(v, ino, fb) && OwnOk(v, Blk(v, ino, fb));
    forall b | b in v'.own ensures OwnOk(v', b) { UnmapOwnOk(v, v', ino, fb, b); }
    forall i | i in v'.inodes ensures InodeOk(v', i) { UnmapInodeOk(v, v', ino, fb, i); }
  }

  // ----- what a step on one file leaves alone -----

  /** Everything a file operation on ino must not touch: the other files, and the inodes on disk. */
  ghost predicate Frame(v: Vol, v': Vol, ino: nat)
  {
    && v'.nblocks == v.nblocks && |v'.disk| == |v.disk|
    && v'.inodes.Keys == v.inodes.Keys && ino in v.inodes
    && (forall j :: j in v.inodes && j != ino ==> v'.inodes[j] == v.inodes[j])
    && v'.inodes[ino].kind == v.inodes[ino].kind && v'.inodes[ino].links == v.inodes[ino].links
    && (forall j :: j in v.inodes && j < |v.disk| ==> v'.disk[j] == v.disk[j])
    && (forall j, gb: nat :: j in v.inodes && j != ino ==> Blk(v', j, gb) == Blk(v, j, gb))
    && (forall j, off: nat :: j in v.inodes && j != ino ==> Raw(v', j, off) == Raw(v, j, off))
  }

  ghost predicate SameRaw(v: Vol, v': Vol, ino: nat)
    requires ino in v.inodes && ino in v'.inodes
  {
    forall off: nat :: Raw(v', ino, off) == Raw(v, ino, off)
  }

  /** What was mapped stays mapped, at the same block. */
  ghost predicate KeepsMapped(v: Vol, v': Vol, ino: nat)
    requires ino in v.inodes && ino in v'.inodes
  {
    forall fb: nat :: Blk(v, ino, fb) != 0 ==> Blk(v', ino, fb) == Blk(v, ino, fb)
  }

  /**
   No block of file ino was mapped or unmapped but those from lo up to hi, and it
   got an indirect block only if ind.
   */
  ghost predicate MapsOnly(v: Vol, v': Vol, ino: nat, lo: nat, hi: nat, ind: bool)
  {
    && ino in v.inodes && ino in v'.inodes
    && (forall gb: nat :: gb < lo || hi <= gb ==> Blk(v', ino, gb) == Blk(v, ino, gb))
    && (v'.inodes[ino].indirect == v.inodes[ino].indirect || (ind && v.inodes[ino].indirect == 0))
  }

  lemma MapsNone(v: Vol, ino: nat, lo: nat, hi: nat, ind: bool)
    requires ino in v.inodes
    ensures MapsOnly(v, v, ino, lo, hi, ind)
  {
  }

  lemma MapsAny(v: Vol, v': Vol, ino: nat, lo: nat, hi: nat, ind: bool)
    requires MapsOnly(v, v', ino, 0, 0, ind)
    ensures MapsOnly(v, v', ino, lo, hi, ind)
  {
    hide Blk;
  }

  lemma MapsFailed(v: Vol, v': Vol, ino: nat, fb: nat, ind: bool)
    requires MapsOnly(v, v', ino, fb, fb + 1, ind) && KeepsMapped(v, v', ino) && Blk(v', ino, fb) == 0
    ensures MapsOnly(v, v', ino, fb, fb, ind)
  {
    hide BlockOf;
  }

  lemma MapsTrans(u: Vol, v: Vol, w: Vol, ino: nat, lo: nat, mid: nat, lo2: nat, hi: nat, ind: bool, ind2: bool)
    requires MapsOnly(u, v, ino, lo, mid, ind) && MapsOnly(v, w, ino, lo2, hi, ind2) && lo <= lo2 && mid <= hi
    ensures MapsOnly(u, w, ino, lo, hi, ind || ind2)
  {
    hide Blk;
  }

  lemma FrameTrans(u: Vol, v: Vol, w: Vol, ino: nat)
    requires Frame(u, v, ino) && Frame(v, w, ino)
    ensures Frame(u, w, ino)
  {
    hide Raw, Blk;
  }

  /** The blocks of v that hold file data or inodes are the same on both disks. */
  ghost predicate KeepsData(v: Vol, disk': seq<Block>)
  {
    && |disk'| == |v.disk|
    && forall b :: b in v.own && b < |v.disk| && (v.own[b].Data? || v.own[b].InodeBlock?) ==> disk'[b] == v.disk[b]
  }

  lemma MapKeepsRaw(v: Vol, v': Vol, ino: nat, fb: nat, x: nat, j: nat, off: nat)
    requires Mapped(v, v', ino, fb, x) && KeepsData(v, v'.disk) && v'.disk[x] == ZeroBlock()
    requires j in v.inodes
    ensures Raw(v', j, off) == Raw(v, j, off)
  {
    hide BlockOf, Word;
    var gb := off / BLOCKSIZE;
    if gb < MAXFILEBLOCKS {
      var b := Blk(v, j, gb);
      assert InodeOk(v, j) && Maps(v, j, gb);
      if b != 0 {
        assert OwnOk(v, b);
      }
    } else {
      BeyondMax(v.inodes[j], v.disk, gb);
      BeyondMax(v'.inodes[j], v'.disk, gb);
    }
  }

  lemma BeyondMax(i: Inode, disk: seq<Block>, gb: nat)
    requires MAXFILEBLOCKS <= gb
    ensures BlockOf(i, disk, gb) == 0
  {
  }

  lemma MapKeepsMapped(v: Vol, v': Vol, ino: nat, fb: nat, x: nat)
    requires Mapped(v, v', ino, fb, x)
    ensures KeepsMapped(v, v', ino)
    ensures forall j, gb: nat :: j in v.inodes && j != ino ==> Blk(v', j, gb) == Blk(v, j, gb)
  {
    hide BlockOf, Inv;
    forall j, gb: nat | j in v.inodes
      ensures Blk(v', j, gb) == if j == ino && gb == fb then x else Blk(v, j, gb)
    {
      if MAXFILEBLOCKS <= gb {
        BeyondMax(v.inodes[j], v.disk, gb);
        BeyondMax(v'.inodes[j], v'.disk, gb);
      }
    }
  }

  /** Mapping a freshly cleared block into a hole changes no byte of any file. */
  lemma MapKeepsContent(v: Vol, v': Vol, ino: nat, fb: nat, x: nat)
    requires Mapped(v, v', ino, fb, x) && KeepsData(v, v'.disk) && v'.disk[x] == ZeroBlock()
    requires v'.inodes[ino].kind == v.inodes[ino].kind && v'.inodes[ino].links == v.inodes[ino].links
    ensures Frame(v, v', ino) && SameRaw(v, v', ino) && KeepsMapped(v, v', ino)
  {
    MapKeepsMapped(v, v', ino, fb, x);
    hide Raw, Blk;
    forall j, off: nat | j in v.inodes
      ensures Raw(v', j, off) == Raw(v, j, off)
    {
      MapKeepsRaw(v, v', ino, fb, x, j, off);
    }
    forall j | j in v.inodes && j < |v.disk|
      ensures v'.disk[j] == v.disk[j]
    {
      assert InodeOk(v, j);
    }
  }

  // ----- sfs_bmap: the three places a block is attached -----

  ghost function DirectAlloc(v: Vol, ino: nat, fb: nat, x: nat): Vol
    requires ino in v.inodes && |v.inodes[ino].direct| == NDIRECT && fb < NDIRECT
    requires x < |v.freemap| && x < |v.disk|
  {
    v.(freemap := v.freemap[x := true], disk := v.disk[x := ZeroBlock()],
       own := v.own[x := Data(ino, fb)],
       inodes := v.inodes[ino := v.inodes[ino].(direct := v.inodes[ino].direct[fb := x])])
  }

  lemma DirectAllocOk(v: Vol, ino: nat, fb: nat, x: nat)
    requires Inv(v) && ino in v.inodes && fb < NDIRECT && Blk(v, ino, fb) == 0
    requires 0 < x < v.nblocks && !v.freemap[x]
    ensures InodeOk(v, ino)
    ensures var v' := DirectAlloc(v, ino, fb, x);
            Inv(v') && Frame(v, v', ino) && SameRaw(v, v', ino) && KeepsMapped(v, v', ino) && Blk(v', ino, fb) == x
                && MapsOnly(v, v', ino, fb, fb + 1, false)
  {
    assert InodeOk(v, ino);
    var v' := DirectAlloc(v, ino, fb, x);
    forall j, gb: nat | j in v.inodes && gb < MAXFILEBLOCKS
      ensures Blk(v', j, gb) == if j == ino && gb == fb then x else Blk(v, j, gb)
    {
      assert InodeOk(v, j);
    }
    assert Mapped(v, v', ino, fb, x);
    MapKeepsInv(v, v', ino, fb, x);
    MapKeepsContent(v, v', ino, fb, x);
  }

  ghost function SlotAlloc(v: Vol, ino: nat, k: nat, x: nat): Vol
    requires ino in v.inodes && 0 < v.inodes[ino].indirect < |v.disk| && k < DBPERIDB
    requires x < |v.freemap| && x < |v.disk|
  {
    var ind := v.inodes[ino].indirect;
    v.(freemap := v.freemap[x := true],
       disk := v.disk[x := ZeroBlock()][ind := SetSlot(v.disk[ind], k, x)],
       own := v.own[x := Data(ino, NDIRECT + k)])
  }

  /** The block an indirect block becomes when word k of it is set to x. */
  function SetSlot(b: Block, k: nat, x: nat): Block
    requires k < DBPERIDB
  {
    FromWords(Words(b)[k := x])
  }

  lemma SetSlotWords(b: Block, k: nat, x: nat, l: nat)
    requires k < DBPERIDB && l < DBPERIDB && IsWord(x)
    ensures Word(SetSlot(b, k, x), l) == if l == k then x else Word(b, l)
  {
    var ws := Words(b)[k := x];
    WordsRoundTrip(ws);
    assert Words(FromWords(ws))[l] == ws[l];
  }

  lemma SetSlotBlk(i: Inode, disk: seq<Block>, k: nat, x: nat, gb: nat)
    requires 0 < i.indirect < |disk| && k < DBPERIDB && IsWord(x)
    ensures BlockOf(i, disk[i.indirect := SetSlot(disk[i.indirect], k, x)], gb)
            == if gb == NDIRECT + k then x else BlockOf(i, disk, gb)
  {
    hide Word, SetSlot;
    if NDIRECT <= gb < MAXFILEBLOCKS {
      SetSlotWords(disk[i.indirect], k, x, gb - NDIRECT);
    }
  }

  lemma SlotAllocOk(v: Vol, ino: nat, k: nat, x: nat)
    requires Inv(v) && ino in v.inodes && k < DBPERIDB
    requires v.inodes[ino].indirect != 0 && Blk(v, ino, NDIRECT + k) == 0
    requires 0 < x < v.nblocks && !v.freemap[x]
    ensures v.inodes[ino].indirect < |v.disk|
    ensures var v' := SlotAlloc(v, ino, k, x);
            Inv(v') && Frame(v, v', ino) && SameRaw(v, v', ino) && KeepsMapped(v, v', ino)
                && Blk(v', ino, NDIRECT + k) == x && MapsOnly(v, v', ino, NDIRECT + k, NDIRECT + k + 1, false)
  {
    SlotAllocMapped(v, ino, k, x);
    var v' := SlotAlloc(v, ino, k, x);
    hide BlockOf;
    MapKeepsInv(v, v', ino, NDIRECT + k, x);
    MapKeepsContent(v, v', ino, NDIRECT + k, x);
  }

  lemma SlotAllocMapped(v: Vol, ino: nat, k: nat, x: nat)
    requires Inv(v) && ino in v.inodes && k < DBPERIDB
    requires v.inodes[ino].indirect != 0 && Blk(v, ino, NDIRECT + k) == 0
    requires 0 < x < v.nblocks && !v.freemap[x]
    ensures v.inodes[ino].indirect < |v.disk|
    ensures var v' := SlotAlloc(v, ino, k, x);
            && Mapped(v, v', ino, NDIRECT + k, x) && KeepsData(v, v'.disk)
            && v'.disk[x] == ZeroBlock()
  {
    hide BlockOf, SetSlot;
    assert InodeOk(v, ino) && x !in v.own;
    assert OwnOk(v, v.inodes[ino].indirect);
    forall j, gb: nat | j in v.inodes && gb < MAXFILEBLOCKS
      ensures Blk(SlotAlloc(v, ino, k, x), j, gb) == if j == ino && gb == NDIRECT + k then x else Blk(v, j, gb)
    {
      SlotAllocBlk(v, ino, k, x, j, gb);
    }
  }

  lemma SlotAllocBlk(v: Vol, ino: nat, k: nat, x: nat, j: nat, gb: nat)
    requires Inv(v) && ino in v.inodes && k < DBPERIDB
    requires 0 < v.inodes[ino].indirect < |v.disk|
    requires 0 < x < v.nblocks && !v.freemap[x]
    requires j in v.inodes
    ensures Blk(SlotAlloc(v, ino, k, x), j, gb) == if j == ino && gb == NDIRECT + k then x else Blk(v, j, gb)
  {
    hide Word, SetSlot;
    assert InodeOk(v, j) && InodeOk(v, ino) && x !in v.own;
    SetSlotBlk(v.inodes[ino], v.disk[x := ZeroBlock()], k, x, gb);
  }

  ghost function IndirectAlloc(v: Vol, ino: nat, x: nat): Vol
    requires ino in v.inodes && x < |v.freemap| && x < |v.disk|
  {
    v.(freemap := v.freemap[x := true], disk := v.disk[x := ZeroBlock()],
       own := v.own[x := Indirect(ino)],
       inodes := v.inodes[ino := v.inodes[ino].(indirect := x)])
  }

  lemma IndirectAllocBlk(v: Vol, ino: nat, x: nat, j: nat, gb: nat)
    requires Inv(v) && ino in v.inodes && v.inodes[ino].indirect == 0
    requires 0 < x < v.nblocks && !v.freemap[x] && j in v.inodes
    ensures Blk(IndirectAlloc(v, ino, x), j, gb) == Blk(v, j, gb)
  {
    assert InodeOk(v, j) && x !in v.own;
    if j == ino && NDIRECT <= gb < MAXFILEBLOCKS {
      ZeroBlockWords(gb - NDIRECT);
    }
  }

  lemma IndirectAllocOwn(v: Vol, ino: nat, x: nat, b: nat)
    requires Inv(v) && ino in v.inodes && v.inodes[ino].indirect == 0
    requires 0 < x < v.nblocks && !v.freemap[x]
    requires b in IndirectAlloc(v, ino, x).own
    ensures OwnOk(IndirectAlloc(v, ino, x), b)
  {
    if b != x {
      assert OwnOk(v, b);
      if v.own[b].Data? {
        IndirectAllocBlk(v, ino, x, v.own[b].ino, v.own[b].fb);
      }
    }
  }

  lemma IndirectAllocInode(v: Vol, ino: nat, x: nat, i: nat)
    requires Inv(v) && ino in v.inodes && v.inodes[ino].indirect == 0
    requires 0 < x < v.nblocks && !v.freemap[x] && i in v.inodes
    ensures InodeOk(IndirectAlloc(v, ino, x), i)
  {
    hide BlockOf;
    var v' := IndirectAlloc(v, ino, x);
    assert InodeOk(v, i) && x !in v.own;
    forall gb: nat | gb < MAXFILEBLOCKS
      ensures Maps(v', i, gb)
    {
      assert Maps(v, i, gb);
      IndirectAllocBlk(v, ino, x, i, gb);
    }
  }

  /** Attaching a cleared indirect block keeps ownership exact and every byte of every file. */
  lemma IndirectAllocOk(v: Vol, ino: nat, x: nat)
    requires Inv(v) && ino in v.inodes && v.inodes[ino].indirect == 0
    requires 0 < x < v.nblocks && !v.freemap[x]
    ensures var v' := IndirectAlloc(v, ino, x);
            Inv(v') && Frame(v, v', ino) && SameRaw(v, v', ino)
            && forall gb: nat :: Blk(v', ino, gb) == Blk(v, ino, gb)
  {
    hide BlockOf;
    var v' := IndirectAlloc(v, ino, x);
    forall b | b in v'.own ensures OwnOk(v', b) { IndirectAllocOwn(v, ino, x, b); }
    forall i | i in v'.inodes ensures InodeOk(v', i) { IndirectAllocInode(v, ino, x, i); }
    forall gb: nat ensures Blk(v', ino, gb) == Blk(v, ino, gb) { IndirectAllocBlk(v, ino, x, ino, gb); }
    IndirectAllocRaw(v, ino, x);
  }

  lemma IndirectAllocRaw(v: Vol, ino: nat, x: nat)
    requires Inv(v) && ino in v.inodes && v.inodes[ino].indirect == 0
    requires 0 < x < v.nblocks && !v.freemap[x]
    ensures Frame(v, IndirectAlloc(v, ino, x), ino) && SameRaw(v, IndirectAlloc(v, ino, x), ino)
  {
    hide BlockOf;
    var v' := IndirectAlloc(v, ino, x);
    forall j, gb: nat | j in v.inodes ensures Blk(v', j, gb) == Blk(v, j, gb) { IndirectAllocBlk(v, ino, x, j, gb); }
    forall j, off: nat | j in v.inodes
      ensures Raw(v', j, off) == Raw(v, j, off)
    {
      IndirectAllocBlk(v, ino, x, j, off / BLOCKSIZE);
      assert InodeOk(v, j);
      if off / BLOCKSIZE < MAXFILEBLOCKS {
        assert Maps(v, j, off / BLOCKSIZE);
      } else {
        BeyondMax(v.inodes[j], v.disk, off / BLOCKSIZE);
      }
    }
    forall j | j in v.inodes && j < |v.disk|
      ensures v'.disk[j] == v.disk[j]
    {
      assert InodeOk(v, j);
    }
  }

  // ----- writing data, and changing an inode's size, type or link count -----

  lemma DataWriteOk(v: Vol, ino: nat, fb: nat, content: Block)
    requires Inv(v) && ino in v.inodes && fb < MAXFILEBLOCKS && Blk(v, ino, fb) != 0
    ensures Blk(v, ino, fb) < |v.disk|
    ensures var v' := v.(disk := v.disk[Blk(v, ino, fb) := content]);
            Inv(v') && Frame(v, v', ino) && KeepsMapped(v, v', ino) && MapsOnly(v, v', ino, 0, 0, false)
                && forall off: nat ::
                     Raw(v', ino, off) == if off / BLOCKSIZE == fb then content[off % BLOCKSIZE] else Raw(v, ino, off)
  {
    hide BlockOf;
    var x := Blk(v, ino, fb);
    assert InodeOk(v, ino) && Maps(v, ino, fb) && OwnOk(v, x);
    var v' := v.(disk := v.disk[x := content]);
    forall j, gb: nat | j in v.inodes
      ensures Blk(v', j, gb) == Blk(v, j, gb)
    {
      DataWriteBlk(v, x, content, j, gb);
    }
    PointersKeepInv(v, v');
    DataWriteRaw(v, ino, fb, content);
  }

  lemma DataWriteBlk(v: Vol, x: nat, content: Block, j: nat, gb: nat)
    requires Inv(v) && x in v.own && v.own[x].Data? && x < |v.disk| && j in v.inodes
    ensures BlockOf(v.inodes[j], v.disk[x := content], gb) == Blk(v, j, gb)
  {
    assert InodeOk(v, j);
  }

  lemma DataWriteRaw(v: Vol, ino: nat, fb: nat, content: Block)
    requires Inv(v) && ino in v.inodes && fb < MAXFILEBLOCKS && 0 < Blk(v, ino, fb) < |v.disk|
    ensures var v' := v.(disk := v.disk[Blk(v, ino, fb) := content]);
            Frame(v, v', ino) && forall off: nat ::
              Raw(v', ino, off) == if off / BLOCKSIZE == fb then content[off % BLOCKSIZE] else Raw(v, ino, off)
  {
    hide BlockOf;
    var x := Blk(v, ino, fb);
    var v' := v.(disk := v.disk[x := content]);
    assert InodeOk(v, ino) && Maps(v, ino, fb);
    forall j, gb: nat | j in v.inodes ensures Blk(v', j, gb) == Blk(v, j, gb) { DataWriteBlk(v, x, content, j, gb); }
    forall j, off: nat | j in v.inodes
      ensures Raw(v', j, off) ==
              if j == ino && off / BLOCKSIZE == fb then content[off % BLOCKSIZE] else Raw(v, j, off)
    {
      var gb := off / BLOCKSIZE;
      DataWriteBlk(v, x, content, j, gb);
      assert InodeOk(v, j);
      if gb < MAXFILEBLOCKS {
        assert Maps(v, j, gb);
      } else {
        BeyondMax(v.inodes[j], v.disk, gb);
      }
    }
    forall j | j in v.inodes && j < |v.disk|
      ensures v'.disk[j] == v.disk[j]
    {
      assert InodeOk(v, j);
    }
  }

  /** The invariant speaks of inodes and disk only through what they map. */
  lemma PointersKeepInv(v: Vol, v': Vol)
    requires Inv(v) && SamePointers(v, v')
    ensures Inv(v')
  {
    hide BlockOf, Blk, SamePointers, OwnOk, InodeOk;
    PointersShape(v, v');
    forall b | b in v'.own
      ensures OwnOk(v', b)
    {
      PointersOwn(v, v', b);
    }
    forall i | i in v'.inodes
      ensures InodeOk(v', i)
    {
      PointersInode(v, v', i);
    }
  }

  /** The inodes may differ, but not in the blocks they point to. */
  ghost predicate SamePointers(v: Vol, v': Vol)
  {
    && v'.nblocks == v.nblocks && |v'.disk| == |v.disk|
    && v'.freemap == v.freemap && v'.own == v.own && v'.inodes.Keys == v.inodes.Keys
    && (forall j :: j in v.inodes ==> InodeFine(v'.inodes[j]) && v'.inodes[j].indirect == v.inodes[j].indirect)
    && (forall j, gb: nat :: j in v.inodes ==> Blk(v', j, gb) == Blk(v, j, gb))
  }

  lemma PointersShape(v: Vol, v': Vol)
    requires Inv(v) && SamePointers(v, v')
    ensures v'.nblocks == v.nblocks && v'.own == v.own && v'.inodes.Keys == v.inodes.Keys && Shape(v') && Marked(v')
  {
    hide Blk, OwnOk, InodeOk;
  }

  lemma PointersOwn(v: Vol, v': Vol, b: nat)
    requires Inv(v) && SamePointers(v, v') && b in v'.own
    ensures OwnOk(v', b)
  {
    hide Blk, InodeOk, Marked;
    assert OwnOk(v, b);
  }

  lemma PointersInode(v: Vol, v': Vol, i: nat)
    requires Inv(v) && SamePointers(v, v') && i in v'.inodes
    ensures InodeOk(v', i)
  {
    hide Blk, OwnOk, Marked;
    assert InodeOk(v, i);
    forall gb: nat | gb < MAXFILEBLOCKS
      ensures Maps(v', i, gb)
    {
      assert Maps(v, i, gb);
    }
  }

  lemma MetaOk(v: Vol, ino: nat, n: Inode)
    requires Inv(v) && ino in v.inodes && InodeFine(n)
    requires n.direct == v.inodes[ino].direct && n.indirect == v.inodes[ino].indirect
    ensures Inv(v.(inodes := v.inodes[ino := n]))
    ensures forall j, off: nat :: j in v.inodes ==> Raw(v.(inodes := v.inodes[ino := n]), j, off) == Raw(v, j, off)
    ensures forall j, gb: nat :: j in v.inodes ==> Blk(v.(inodes := v.inodes[ino := n]), j, gb) == Blk(v, j, gb)
  {
    hide Inv, BlockOf;
    var v' := v.(inodes := v.inodes[ino := n]);
    forall j, gb: nat | j in v.inodes
      ensures Blk(v', j, gb) == Blk(v, j, gb)
    {
      MetaBlk(v, ino, n, j, gb);
    }
    forall j, off: nat | j in v.inodes
      ensures Raw(v', j, off) == Raw(v, j, off)
    {
      MetaBlk(v, ino, n, j, off / BLOCKSIZE);
    }
    AllFine(v);
    PointersKeepInv(v, v');
  }

  lemma MetaBlk(v: Vol, ino: nat, n: Inode, j: nat, gb: nat)
    requires ino in v.inodes && j in v.inodes
    requires n.direct == v.inodes[ino].direct && n.indirect == v.inodes[ino].indirect
    ensures BlockOf((if j == ino then n else v.inodes[j]), v.disk, gb) == Blk(v, j, gb)
  {
  }

  lemma AllFine(v: Vol)
    requires Inv(v)
    ensures forall j :: j in v.inodes ==> InodeFine(v.inodes[j])
  {
    forall j | j in v.inodes
      ensures InodeFine(v.inodes[j])
    {
      assert InodeOk(v, j);
    }
  }

  lemma SizeOk(v: Vol, ino: nat, size: nat)
    requires Inv(v) && ino in v.inodes && size < TWO31
    ensures var v' := v.(inodes := v.inodes[ino := v.inodes[ino].(size := size)]);
            Inv(v') && Frame(v, v', ino) && SameRaw(v, v', ino) && KeepsMapped(v, v', ino)
  {
    assert InodeOk(v, ino);
    hide BlockOf, Inv, Raw, Blk;
    MetaOk(v, ino, v.inodes[ino].(size := size));
  }
}
