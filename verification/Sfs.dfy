/**
 SFS file operations (kern/fs/sfs/sfs_vnode.c): space allocation, block mapping,
 and reading and writing files. The disk is an array of 512-byte blocks whose
 I/O always succeeds.
 */
module Sfs {
  import opened SfsDisk
  import opened SfsBlocks
  import Bitmap
  import U = Uio

  /** A vnode in memory: the in-core copy of an inode. */
  class Vnode {
    const ino: nat
    var inode: Inode
    var dirty: bool
    var refcount: nat

    constructor (n: nat, i: Inode, d: bool)
      ensures ino == n && inode == i && dirty == d && refcount == 1
    {
      ino, inode, dirty, refcount := n, i, d, 1;
    }
  }

  /** Every bit of the map is marked. */
  ghost predicate Full(v: Vol)
  {
    forall b :: 0 <= b < |v.freemap| ==> v.freemap[b]
  }

  /** v' is v after allocations for file ino: no byte of any file differs. */
  ghost predicate Grown(v: Vol, v': Vol, ino: nat)
  {
    && Inv(v') && Frame(v, v', ino) && SameRaw(v, v', ino) && KeepsMapped(v, v', ino)
    && v'.inodes[ino].size == v.inodes[ino].size
  }

  lemma GrownRefl(v: Vol, ino: nat)
    requires Inv(v) && ino in v.inodes
    ensures Grown(v, v, ino)
  {
  }

  lemma GrownTrans(u: Vol, v: Vol, w: Vol, ino: nat)
    requires Grown(u, v, ino) && Grown(v, w, ino)
    ensures Grown(u, w, ino)
  {
    hide Raw, Inv, Blk;
    FrameTrans(u, v, w, ino);
  }

  const MAXBITBLOCKS := 32
  const ROOT_INODE := Inode(0, TYPE_DIR, 1, seq(NDIRECT, i => 0), 0)

  function FreshOwner(b: nat): Owner
  {
    if b == ROOT_LOCATION then InodeBlock else Reserved
  }

  ghost function FreshOwners(n: nat): map<nat, Owner>
  {
    map b: nat | b < MAP_LOCATION + BitBlocks(n) :: FreshOwner(b)
  }

  lemma FreshInv(n: nat, bits: seq<bool>, disk: seq<Block>)
    requires |disk| == n && MAP_LOCATION + BitBlocks(n) <= n && BitBlocks(n) <= MAXBITBLOCKS
    requires |bits| == BitmapSize(n)
    requires forall b :: 0 <= b < |bits| ==> bits[b] == (b < MAP_LOCATION + BitBlocks(n) || n <= b)
    ensures Inv(Vol(n, bits, disk,
                    FreshOwners(n), map[ROOT_LOCATION := ROOT_INODE]))
  {
  }

  /** writebitmap, on a map of BitmapSize(n) clear bits. */
  method WriteBitmap(freemap: Bitmap.Map, n: nat)
    requires freemap.Valid() && freemap.nbits == BitmapSize(n)
    requires MAP_LOCATION + BitBlocks(n) <= n
    requires forall b :: 0 <= b < freemap.nbits ==> !freemap.Bits()[b]
    modifies freemap.v
    ensures freemap.Valid()
    ensures forall b :: 0 <= b < freemap.nbits ==> freemap.Bits()[b] == (b < MAP_LOCATION + BitBlocks(n) || n <= b)
  {
    freemap.Mark(SB_LOCATION);
    freemap.Mark(ROOT_LOCATION);
    var i := 0;
    while i < BitBlocks(n)
      invariant 0 <= i <= BitBlocks(n) && freemap.Valid()
      invariant forall b :: 0 <= b < freemap.nbits ==> freemap.Bits()[b] == (b < MAP_LOCATION + i)
    {
      freemap.Mark(MAP_LOCATION + i);
      i := i + 1;
    }
    i := n;
    while i < BitmapSize(n)
      invariant n <= i <= BitmapSize(n) && freemap.Valid()
      invariant forall b :: 0 <= b < freemap.nbits ==>
                  freemap.Bits()[b] == (b < MAP_LOCATION + BitBlocks(n) || n <= b < i)
    {
      freemap.Mark(i);
      i := i + 1;
    }
  }

  lemma BmapIndirectFacts(v: Vol, ino: nat, k: nat)
    requires Inv(v) && ino in v.inodes && k < DBPERIDB
    ensures v.inodes[ino].indirect == 0 ==> Blk(v, ino, NDIRECT + k) == 0
    ensures v.inodes[ino].indirect < |v.disk|
    ensures v.inodes[ino].indirect != 0 ==> Blk(v, ino, NDIRECT + k) == Words(v.disk[v.inodes[ino].indirect])[k]
  {
    assert InodeOk(v, ino);
  }

  lemma BmapFacts(v: Vol, ino: nat, fb: nat)
    requires Inv(v) && ino in v.inodes && fb < MAXFILEBLOCKS
    ensures |v.inodes[ino].direct| == NDIRECT
    ensures Blk(v, ino, fb) < v.nblocks <= |v.freemap| && v.freemap[Blk(v, ino, fb)]
  {
    assert InodeOk(v, ino) && Maps(v, ino, fb);
    assert IsReserved(v.nblocks, 0);
    hide BlockOf;
  }

  class Volume {
    const nblocks: nat
    const freemap: Bitmap.Map
    var disk: seq<Block>
    var vnodes: seq<Vnode>
    ghost var own: map<nat, Owner>
    ghost var inodes: map<nat, Inode>

    /**
     The volume mksfs writes on a disk of n blocks, mounted: the superblock, the
     root directory's inode, the bitmap's own blocks and the bits past the end
     of the disk are marked, and nothing else.
     */
    constructor (n: nat, blocks: seq<Block>)
      requires |blocks| == n && MAP_LOCATION + BitBlocks(n) <= n && BitBlocks(n) <= MAXBITBLOCKS
      ensures Ok() && nblocks == n && fresh(freemap) && fresh(freemap.v)
      ensures vnodes == [] && inodes == map[ROOT_LOCATION := ROOT_INODE]
              && DecodeInode(disk[ROOT_LOCATION]) == ROOT_INODE
    {
      nblocks := n;
      freemap := new Bitmap.Map(BitmapSize(n));
      disk := blocks[ROOT_LOCATION := EncodeInode(ROOT_INODE)];
      vnodes := [];
      own := FreshOwners(n);
      inodes := map[ROOT_LOCATION := ROOT_INODE];
      new;
      WriteBitmap(freemap, n);
      InodeRoundTrip(ROOT_INODE);
      FreshInv(n, freemap.Bits(), disk);
    }

    ghost function V(): Vol
      requires freemap.Valid()
      reads this, freemap, freemap.v
    {
      Vol(nblocks, freemap.Bits(), disk, own, inodes)
    }

    ghost predicate Ok()
      reads this, freemap, freemap.v
    {
      freemap.Valid() && Inv(V())
    }

    /** sv is the current copy of its inode. */
    ghost predicate Current(sv: Vnode)
      reads this, sv
    {
      sv.ino in inodes && inodes[sv.ino] == sv.inode
    }

    /** sfs_balloc: the lowest clear bit is marked and its block cleared; fails exactly when the disk is full. */
    method Balloc() returns (err: Errno, x: nat)
      requires Ok()
      modifies this`disk, freemap.v
      ensures freemap.Valid()
      ensures err == OK ==> 0 < x < nblocks && x < |old(V()).freemap| && x < |old(disk)|
      ensures err == OK ==> !old(V()).freemap[x] && forall b :: 0 <= b < x ==> old(V()).freemap[b]
      ensures err == OK ==>
                V() == old(V()).(freemap := old(V()).freemap[x := true], disk := old(disk)[x := ZeroBlock()])
      ensures err != OK ==> err == ENOSPC && V() == old(V()) && Full(V())
    {
      var ok;
      ok, x := freemap.Alloc();
      if !ok {
        return ENOSPC, 0;
      }
      assert IsReserved(nblocks, 0);
      disk := disk[x := ZeroBlock()];
      return OK, x;
    }

    method BmapDirect(sv: Vnode, fb: nat, doalloc: bool) returns (err: Errno, block: nat)
      requires Ok() && Current(sv) && fb < NDIRECT
      modifies this`disk, this`own, this`inodes, freemap.v, sv`inode, sv`dirty
      ensures Ok() && Current(sv) && Grown(old(V()), V(), sv.ino)
      ensures !sv.dirty ==> !old(sv.dirty) && sv.inode == old(sv.inode)
      ensures !doalloc ==> err == OK
      ensures err == OK ==> block == Blk(V(), sv.ino, fb) && (doalloc ==> block != 0)
      ensures err != OK ==> err == ENOSPC && Full(V()) && Blk(V(), sv.ino, fb) == 0
      ensures !doalloc ==> V() == old(V()) && sv.inode == old(sv.inode)
      ensures MapsOnly(old(V()), V(), sv.ino, fb, fb + 1, false)
    {
      assert InodeOk(V(), sv.ino);
      block := sv.inode.direct[fb];
      if block == 0 && doalloc {
        err, block := Balloc();
        if err != OK {
          return err, 0;
        }
        ghost var v := old(V());
        DirectAllocOk(v, sv.ino, fb, block);
        sv.inode := sv.inode.(direct := sv.inode.direct[fb := block]);
        sv.dirty := true;
        own, inodes := own[block := Data(sv.ino, fb)], inodes[sv.ino := sv.inode];
        assert V() == DirectAlloc(v, sv.ino, fb, block);
      }
      err := OK;
    }

    /** The part of sfs_bmap that gives the file its indirect block. */
    method AttachIndirect(sv: Vnode) returns (err: Errno)
      requires Ok() && Current(sv) && sv.inode.indirect == 0
      modifies this`disk, this`own, this`inodes, freemap.v, sv`inode, sv`dirty
      ensures Ok() && Current(sv) && Grown(old(V()), V(), sv.ino)
      ensures !sv.dirty ==> !old(sv.dirty) && sv.inode == old(sv.inode)
      ensures err == OK ==> sv.inode.indirect != 0 && disk[sv.inode.indirect] == ZeroBlock()
      ensures err != OK ==> err == ENOSPC && V() == old(V()) && Full(V())
      ensures MapsOnly(old(V()), V(), sv.ino, 0, 0, true)
    {
      hide BlockOf, Inv, Frame, SameRaw, Full;
      GrownRefl(V(), sv.ino);
      MapsNone(V(), sv.ino, 0, 0, true);
      var x;
      err, x := Balloc();
      if err != OK {
        return;
      }
      ghost var v := old(V());
      IndirectAllocOk(v, sv.ino, x);
      sv.inode := sv.inode.(indirect := x);
      sv.dirty := true;
      own, inodes := own[x := Indirect(sv.ino)], inodes[sv.ino := sv.inode];
      assert V() == IndirectAlloc(v, sv.ino, x);
    }

    /** The part of sfs_bmap that fills slot k of the indirect block, whose words are idbuf. */
    method AttachSlot(sv: Vnode, k: nat, idbuf: seq<nat>) returns (err: Errno, block: nat)
      requires Ok() && Current(sv) && 0 < sv.inode.indirect < |disk| && k < DBPERIDB
      requires idbuf == Words(disk[sv.inode.indirect]) && idbuf[k] == 0
      modifies this`disk, this`own, this`inodes, freemap.v, sv`inode, sv`dirty
      ensures Ok() && Current(sv) && Grown(old(V()), V(), sv.ino)
      ensures !sv.dirty ==> !old(sv.dirty) && sv.inode == old(sv.inode)
      ensures err == OK ==> block == Blk(V(), sv.ino, NDIRECT + k) && block != 0
      ensures err != OK ==> err == ENOSPC && V() == old(V()) && Full(V())
      ensures MapsOnly(old(V()), V(), sv.ino, NDIRECT + k, NDIRECT + k + 1, false)
    {
      ghost var v := V();
      assert Blk(v, sv.ino, NDIRECT + k) == idbuf[k];
      hide BlockOf, Inv, Frame, SameRaw, KeepsMapped, Full, Word, FromWords, MapsOnly;
      GrownRefl(V(), sv.ino);
      MapsNone(V(), sv.ino, NDIRECT + k, NDIRECT + k + 1, false);
      err, block := Balloc();
      if err != OK {
        return;
      }
      SlotAllocOk(v, sv.ino, k, block);
      disk := disk[sv.inode.indirect := FromWords(idbuf[k := block])];
      own := own[block := Data(sv.ino, NDIRECT + k)];
      assert V() == SlotAlloc(v, sv.ino, k, block);
    }

    method BmapIndirect(sv: Vnode, k: nat, doalloc: bool) returns (err: Errno, block: nat)
      requires Ok() && Current(sv) && k < DBPERIDB
      modifies this`disk, this`own, this`inodes, freemap.v, sv`inode, sv`dirty
      ensures Ok() && Current(sv) && Grown(old(V()), V(), sv.ino)
      ensures !sv.dirty ==> !old(sv.dirty) && sv.inode == old(sv.inode)
      ensures !doalloc ==> err == OK
      ensures err == OK ==> block == Blk(V(), sv.ino, NDIRECT + k) && (doalloc ==> block != 0)
      ensures err != OK ==> err == ENOSPC && Full(V()) && Blk(V(), sv.ino, NDIRECT + k) == 0
      ensures !doalloc ==> V() == old(V()) && sv.inode == old(sv.inode)
      ensures MapsOnly(old(V()), V(), sv.ino, NDIRECT + k, NDIRECT + k + 1, true)
    {
      BmapIndirectFacts(V(), sv.ino, k);
      hide BlockOf, Inv, Frame, SameRaw, KeepsMapped, Full, Word, MapsOnly;
      GrownRefl(V(), sv.ino);
      MapsNone(V(), sv.ino, NDIRECT + k, NDIRECT + k + 1, true);
      if sv.inode.indirect == 0 && !doalloc {
        return OK, 0;
      }
      var idbuf;
      if sv.inode.indirect == 0 {
        err := AttachIndirect(sv);
        MapsAny(old(V()), V(), sv.ino, NDIRECT + k, NDIRECT + k + 1, true);
        if err != OK {
          return err, 0;
        }
        idbuf := seq(DBPERIDB, i => 0);
        ZeroWords();
        BmapIndirectFacts(V(), sv.ino, k);
      } else {
        idbuf := Words(disk[sv.inode.indirect]);
      }
      block := idbuf[k];
      if block == 0 && doalloc {
        ghost var v := V();
        err, block := AttachSlot(sv, k, idbuf);
        GrownTrans(old(V()), v, V(), sv.ino);
        MapsTrans(old(V()), v, V(), sv.ino, NDIRECT + k, NDIRECT + k + 1, NDIRECT + k, NDIRECT + k + 1, true, false);
        return;
      }
      err := OK;
    }

    /**
     sfs_bmap. Without doalloc nothing changes and a hole comes back as 0; with
     it the hole is filled, and running out of space leaves a consistent volume
     with every byte of every file as it was.
     */
    method Bmap(sv: Vnode, fb: nat, doalloc: bool) returns (err: Errno, block: nat)
      requires Ok() && Current(sv)
      modifies this`disk, this`own, this`inodes, freemap.v, sv`inode, sv`dirty
      ensures Ok() && Current(sv) && Grown(old(V()), V(), sv.ino)
      ensures !sv.dirty ==> !old(sv.dirty) && sv.inode == old(sv.inode)
      ensures err == EINVAL <==> MAXFILEBLOCKS <= fb
      ensures err == OK ==> block == Blk(V(), sv.ino, fb) && (doalloc ==> block != 0)
      ensures err == OK && block != 0 ==> block < nblocks && V().freemap[block]
      ensures err == OK || err == EINVAL || err == ENOSPC
      ensures err == ENOSPC ==> doalloc && Full(V()) && Blk(V(), sv.ino, fb) == 0
      ensures err == EINVAL || !doalloc ==> V() == old(V()) && sv.inode == old(sv.inode)
      ensures MapsOnly(old(V()), V(), sv.ino, fb, if err == OK then fb + 1 else fb, NDIRECT <= fb)
    {
      hide BlockOf, Inv, Frame, SameRaw, KeepsMapped, Full, MapsOnly;
      GrownRefl(V(), sv.ino);
      MapsNone(V(), sv.ino, fb, fb, NDIRECT <= fb);
      if fb < NDIRECT {
        err, block := BmapDirect(sv, fb, doalloc);
      } else {
        var idnum, idoff := (fb - NDIRECT) / DBPERIDB, (fb - NDIRECT) % DBPERIDB;
        if idnum > 0 {
          return EINVAL, 0;
        }
        err, block := BmapIndirect(sv, idoff, doalloc);
      }
      if err != OK { MapsFailed(old(V()), V(), sv.ino, fb, NDIRECT <= fb); }
      BmapFacts(V(), sv.ino, fb);
    }
  }
}
