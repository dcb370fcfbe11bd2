/** File-level I/O: sfs_partialio, sfs_blockio and sfs_io (kern/fs/sfs/sfs_vnode.c). */
module SfsIo {
  import opened SfsDisk
  import opened SfsBlocks
  import opened Sfs
  import opened U = Uio

  /** The n bytes of raw content from offset off. */
  ghost function RawBytes(v: Vol, ino: nat, off: nat, n: nat): (s: seq<byte>)
    requires ino in v.inodes
    ensures |s| == n && forall i :: 0 <= i < n ==> s[i] == Raw(v, ino, off + i)
  {
    seq<byte>(n, i requires 0 <= i < n => Raw(v, ino, off + i))
  }

  /** Exactly the given bytes of file ino were overwritten: no other byte of it, and nothing of any other file. */
  ghost predicate Wrote(v: Vol, v': Vol, ino: nat, off: nat, bytes: seq<byte>)
  {
    && Inv(v') && Frame(v, v', ino) && KeepsMapped(v, v', ino)
    && forall x: nat :: Raw(v', ino, x) ==
         if off <= x < off + |bytes| then bytes[x - off] else Raw(v, ino, x)
  }

  /** What moving these bytes at this offset did to the volume. */
  ghost predicate Done(v: Vol, v': Vol, ino: nat, write: bool, off: nat, bytes: seq<byte>)
  {
    if write then Wrote(v, v', ino, off, bytes)
    else v' == v && Inv(v) && ino in v.inodes && bytes == RawBytes(v, ino, off, |bytes|)
  }

  lemma WroteTrans(u: Vol, v: Vol, w: Vol, ino: nat, off: nat, a: seq<byte>, b: seq<byte>)
    requires Wrote(u, v, ino, off, a) && Wrote(v, w, ino, off + |a|, b)
    ensures Wrote(u, w, ino, off, a + b)
  {
    FrameTrans(u, v, w, ino);
    hide Raw, Inv;
  }

  lemma DoneTrans(u: Vol, v: Vol, w: Vol, ino: nat, write: bool, off: nat, a: seq<byte>, b: seq<byte>)
    requires Done(u, v, ino, write, off, a) && Done(v, w, ino, write, off + |a|, b)
    ensures Done(u, w, ino, write, off, a + b)
  {
    hide Raw, Inv, Wrote;
    if write {
      WroteTrans(u, v, w, ino, off, a, b);
    } else {
      assert a + b == RawBytes(u, ino, off, |a + b|);
    }
  }

  lemma GrownDone(v: Vol, v': Vol, ino: nat, off: nat)
    requires Grown(v, v', ino)
    ensures Wrote(v, v', ino, off, [])
  {
    hide Raw, Inv, Frame;
  }

  lemma DoneNothing(v: Vol, v': Vol, ino: nat, write: bool, off: nat)
    requires Grown(v, v', ino) && (!write ==> v' == v)
    ensures Done(v, v', ino, write, off, [])
  {
    hide Raw, Inv, Blk, Wrote;
    GrownDone(v, v', ino, off);
    assert RawBytes(v, ino, off, 0) == [];
  }

  lemma SameBlock(off: nat, x: nat)
    requires x / BLOCKSIZE == off / BLOCKSIZE || off <= x < off - off % BLOCKSIZE + BLOCKSIZE
    ensures x / BLOCKSIZE == off / BLOCKSIZE && x % BLOCKSIZE - off % BLOCKSIZE == x - off
  {
  }

  lemma MappedOnDisk(v: Vol, ino: nat, fb: nat)
    requires Inv(v) && ino in v.inodes && fb < MAXFILEBLOCKS
    ensures Blk(v, ino, fb) < |v.disk|
  {
    BmapFacts(v, ino, fb);
  }

  /** Overwriting part of one mapped block. */
  lemma SpliceWrites(v: Vol, ino: nat, off: nat, bytes: seq<byte>)
    requires Inv(v) && ino in v.inodes && off / BLOCKSIZE < MAXFILEBLOCKS
    requires off % BLOCKSIZE + |bytes| <= BLOCKSIZE && Blk(v, ino, off / BLOCKSIZE) != 0
    ensures Blk(v, ino, off / BLOCKSIZE) < |v.disk|
    ensures var b := Blk(v, ino, off / BLOCKSIZE);
            var v' := v.(disk := v.disk[b := Splice(v.disk[b], off % BLOCKSIZE, bytes)]);
            Wrote(v, v', ino, off, bytes) && MapsOnly(v, v', ino, 0, 0, false)
  {
    hide Inv, Frame, BlockOf, Splice;
    MappedOnDisk(v, ino, off / BLOCKSIZE);
    var b := Blk(v, ino, off / BLOCKSIZE);
    var content := Splice(v.disk[b], off % BLOCKSIZE, bytes);
    DataWriteOk(v, ino, off / BLOCKSIZE, content);
    var v' := v.(disk := v.disk[b := content]);
    forall x: nat
      ensures Raw(v', ino, x) == if off <= x < off + |bytes| then bytes[x - off] else Raw(v, ino, x)
    {
      if off <= x < off + |bytes| || x / BLOCKSIZE == off / BLOCKSIZE {
        SameBlock(off, x);
      }
    }
  }

  /** A block mapped if need be, then overwritten in part. */
  lemma GrownWrites(v0: Vol, v: Vol, ino: nat, off: nat, bytes: seq<byte>)
    requires Grown(v0, v, ino) && off / BLOCKSIZE < MAXFILEBLOCKS
    requires off % BLOCKSIZE + |bytes| <= BLOCKSIZE && Blk(v, ino, off / BLOCKSIZE) != 0
    ensures Blk(v, ino, off / BLOCKSIZE) < |v.disk|
    ensures var b := Blk(v, ino, off / BLOCKSIZE);
            var v' := v.(disk := v.disk[b := Splice(v.disk[b], off % BLOCKSIZE, bytes)]);
            Inv(v') && Wrote(v0, v', ino, off, bytes) && Blk(v', ino, off / BLOCKSIZE) == b
                && MapsOnly(v, v', ino, 0, 0, false)
  {
    hide Inv, Raw, BlockOf;
    SpliceWrites(v, ino, off, bytes);
    GrownDone(v0, v, ino, off);
    var b := Blk(v, ino, off / BLOCKSIZE);
    WroteTrans(v0, v, v.(disk := v.disk[b := Splice(v.disk[b], off % BLOCKSIZE, bytes)]), ino, off, [], bytes);
    assert [] + bytes == bytes;
  }

  lemma MapsThrough(u: Vol, v: Vol, w: Vol, ino: nat, fb: nat, ind: bool)
    requires MapsOnly(u, v, ino, fb, fb + 1, ind) && MapsOnly(v, w, ino, 0, 0, false)
    ensures MapsOnly(u, w, ino, fb, fb + 1, ind)
  {
    hide MapsOnly;
    MapsAny(v, w, ino, fb, fb + 1, false);
    MapsTrans(u, v, w, ino, fb, fb + 1, fb, fb + 1, ind, false);
  }

  /** Reading part of one block: its bytes, or zeros when it is a hole. */
  lemma BlockReads(v: Vol, ino: nat, off: nat, n: nat)
    requires Inv(v) && ino in v.inodes && off / BLOCKSIZE < MAXFILEBLOCKS && off % BLOCKSIZE + n <= BLOCKSIZE
    ensures Blk(v, ino, off / BLOCKSIZE) < |v.disk|
    ensures var b := Blk(v, ino, off / BLOCKSIZE);
            RawBytes(v, ino, off, n) ==
            (if b == 0 then ZeroBlock() else v.disk[b])[off % BLOCKSIZE..off % BLOCKSIZE + n]
  {
    BmapFacts(v, ino, off / BLOCKSIZE);
    hide Inv, BlockOf;
    var b := Blk(v, ino, off / BLOCKSIZE);
    forall i | 0 <= i < n
      ensures RawBytes(v, ino, off, n)[i] == (if b == 0 then ZeroBlock() else v.disk[b])[off % BLOCKSIZE + i]
    {
      SameBlock(off, off + i);
    }
  }

  /** The transfer of sfs_partialio, once the block of the file is known; a hole reads as zeros. */
  method MovePart(fs: Volume, sv: Vnode, uio: Uio, skip: nat, len: nat, block: nat, ghost v0: Vol)
    requires fs.Ok() && fs.Current(sv) && uio.Valid() && Grown(v0, fs.V(), sv.ino) && (!uio.write ==> fs.V() == v0)
    requires skip == uio.offset % BLOCKSIZE && skip + len <= BLOCKSIZE && len <= uio.resid
    requires uio.offset / BLOCKSIZE < MAXFILEBLOCKS && block == Blk(fs.V(), sv.ino, uio.offset / BLOCKSIZE)
    requires uio.write ==> block != 0
    modifies fs`disk, uio
    ensures fs.Ok() && uio.Valid() && Advanced(old(uio.S()), uio.S(), len)
    ensures Done(v0, fs.V(), sv.ino, uio.write, old(uio.offset), uio.data[old(uio.pos)..uio.pos])
    ensures Blk(fs.V(), sv.ino, old(uio.offset) / BLOCKSIZE) == block
    ensures MapsOnly(old(fs.V()), fs.V(), sv.ino, 0, 0, false)
  {
    hide Inv, Frame, SameRaw, Raw, BlockOf, Splice, Wrote, MapsOnly, KeepsMapped;
    ghost var v := fs.V();
    MapsNone(v, sv.ino, 0, 0, false);
    BlockReads(v, sv.ino, uio.offset, len);
    var iobuf: seq<byte>;
    if block == 0 {
      iobuf := ZeroBlock();
    } else {
      iobuf := fs.disk[block];
    }
    var part := uio.Move(iobuf[skip..], len);
    if uio.write {
      ghost var bytes := uio.data[old(uio.pos)..uio.pos];
      GrownWrites(v0, v, sv.ino, old(uio.offset), bytes);
      iobuf := iobuf[..skip] + part;
      assert iobuf == Splice(v.disk[block], skip, bytes);
      fs.disk := fs.disk[block := iobuf];
    } else {
      assert iobuf[skip..][..len] == iobuf[skip..skip + len];
    }
  }

  /**
   sfs_partialio: len bytes inside one block. A failure (EINVAL past the last
   block a file can have, ENOSPC on a full disk) moves nothing.
   */
  method PartialIo(fs: Volume, sv: Vnode, uio: Uio, skip: nat, len: nat) returns (err: Errno)
    requires fs.Ok() && fs.Current(sv) && uio.Valid()
    requires skip == uio.offset % BLOCKSIZE && skip + len <= BLOCKSIZE && len <= uio.resid
    modifies fs`disk, fs`own, fs`inodes, fs.freemap.v, sv`inode, sv`dirty, uio
    ensures fs.Ok() && fs.Current(sv) && uio.Valid()
    ensures err == OK ==> Advanced(old(uio.S()), uio.S(), len)
    ensures err != OK ==> uio.S() == old(uio.S())
    ensures Done(old(fs.V()), fs.V(), sv.ino, uio.write, old(uio.offset), uio.data[old(uio.pos)..uio.pos])
    ensures err == EINVAL <==> MAXFILEBLOCKS <= old(uio.offset) / BLOCKSIZE
    ensures err == OK || err == EINVAL || (err == ENOSPC && uio.write && Full(fs.V()))
    ensures err == OK && uio.write ==> Blk(fs.V(), sv.ino, old(uio.offset) / BLOCKSIZE) != 0
    ensures err == ENOSPC ==> Blk(fs.V(), sv.ino, old(uio.offset) / BLOCKSIZE) == 0
    ensures sv.inode.size == old(sv.inode.size) && (!uio.write ==> sv.inode == old(sv.inode))
    ensures !sv.dirty ==> !old(sv.dirty) && sv.inode == old(sv.inode)
    ensures MapsOnly(old(fs.V()), fs.V(), sv.ino, old(uio.offset) / BLOCKSIZE,
                     old(uio.offset) / BLOCKSIZE + if err == OK then 1 else 0, NDIRECT <= old(uio.offset) / BLOCKSIZE)
  {
    hide Inv, Frame, SameRaw, Raw, BlockOf, Full, Splice, Wrote, MapsOnly;
    ghost var v0 := fs.V();
    var fb := uio.offset / BLOCKSIZE;
    var block;
    err, block := fs.Bmap(sv, fb, uio.write);
    ghost var v := fs.V();
    if err != OK {
      DoneNothing(v0, v, sv.ino, uio.write, uio.offset);
      assert uio.data[uio.pos..uio.pos] == [];
      return;
    }
    MovePart(fs, sv, uio, skip, len, block, v0);
    MapsThrough(v0, v, fs.V(), sv.ino, fb, NDIRECT <= fb);
  }

  /** sfs_rwblock: moves one whole disk block through a descriptor whose offset is that block's disk address. */
  method RwBlock(fs: Volume, uio: Uio)
    requires uio.Valid() && uio.offset % BLOCKSIZE == 0 && uio.offset / BLOCKSIZE < |fs.disk| && uio.resid == BLOCKSIZE
    modifies fs`disk, uio
    ensures uio.Valid() && Advanced(old(uio.S()), uio.S(), BLOCKSIZE)
    ensures !uio.write ==>
              fs.disk == old(fs.disk) && uio.data[old(uio.pos)..uio.pos] == fs.disk[old(uio.offset) / BLOCKSIZE]
    ensures uio.write ==> fs.disk == old(fs.disk)[old(uio.offset) / BLOCKSIZE := uio.data[old(uio.pos)..uio.pos]]
  {
    var b := uio.offset / BLOCKSIZE;
    var buf := uio.Move(fs.disk[b], BLOCKSIZE);
    if uio.write {
      assert buf == uio.data[old(uio.pos)..uio.pos];
      fs.disk := fs.disk[b := buf];
    } else {
      assert fs.disk[b][..BLOCKSIZE] == fs.disk[b];
    }
  }

  /** The device transfer of sfs_blockio, under a substituted offset and residue. */
  method DirectIo(fs: Volume, uio: Uio, block: nat)
    requires uio.Valid() && block < |fs.disk| && BLOCKSIZE <= uio.resid
    modifies fs`disk, uio
    ensures uio.Valid() && Advanced(old(uio.S()), uio.S(), BLOCKSIZE)
    ensures !uio.write ==> fs.disk == old(fs.disk) && uio.data[old(uio.pos)..uio.pos] == fs.disk[block]
    ensures uio.write ==> fs.disk == old(fs.disk)[block := uio.data[old(uio.pos)..uio.pos]]
  {
    hide Splice;
    var saveoff, diskoff := uio.offset, block * BLOCKSIZE;
    uio.offset := diskoff;
    var saveres, diskres := uio.resid, BLOCKSIZE;
    uio.resid := diskres;
    RwBlock(fs, uio);
    uio.offset := uio.offset - diskoff + saveoff;
    uio.resid := uio.resid - diskres + saveres;
  }

  /** sfs_blockio: one whole block, moved directly between the disk and the descriptor's buffer. */
  method BlockIo(fs: Volume, sv: Vnode, uio: Uio) returns (err: Errno)
    requires fs.Ok() && fs.Current(sv) && uio.Valid()
    requires uio.offset % BLOCKSIZE == 0 && BLOCKSIZE <= uio.resid
    modifies fs`disk, fs`own, fs`inodes, fs.freemap.v, sv`inode, sv`dirty, uio
    ensures fs.Ok() && fs.Current(sv) && uio.Valid()
    ensures err == OK ==> Advanced(old(uio.S()), uio.S(), BLOCKSIZE)
    ensures err != OK ==> uio.S() == old(uio.S())
    ensures Done(old(fs.V()), fs.V(), sv.ino, uio.write, old(uio.offset), uio.data[old(uio.pos)..uio.pos])
    ensures err == EINVAL <==> MAXFILEBLOCKS <= old(uio.offset) / BLOCKSIZE
    ensures err == OK || err == EINVAL || (err == ENOSPC && uio.write && Full(fs.V()))
    ensures err == OK && uio.write ==> Blk(fs.V(), sv.ino, old(uio.offset) / BLOCKSIZE) != 0
    ensures err == ENOSPC ==> Blk(fs.V(), sv.ino, old(uio.offset) / BLOCKSIZE) == 0
    ensures sv.inode.size == old(sv.inode.size) && (!uio.write ==> sv.inode == old(sv.inode))
    ensures !sv.dirty ==> !old(sv.dirty) && sv.inode == old(sv.inode)
    ensures MapsOnly(old(fs.V()), fs.V(), sv.ino, old(uio.offset) / BLOCKSIZE,
                     old(uio.offset) / BLOCKSIZE + if err == OK then 1 else 0, NDIRECT <= old(uio.offset) / BLOCKSIZE)
  {
    hide Inv, Frame, SameRaw, Raw, BlockOf, Full, Splice, Wrote, MapsOnly, KeepsMapped;
    ghost var v0 := fs.V();
    var fb := uio.offset / BLOCKSIZE;
    var block;
    err, block := fs.Bmap(sv, fb, uio.write);
    ghost var v := fs.V();
    if err != OK {
      DoneNothing(v0, v, sv.ino, uio.write, uio.offset);
      assert uio.data[uio.pos..uio.pos] == [];
      return;
    }
    BlockReads(v, sv.ino, uio.offset, BLOCKSIZE);
    if block == 0 {
      uio.MoveZeros(BLOCKSIZE);
      assert ZeroBlock()[0..BLOCKSIZE] == seq<byte>(BLOCKSIZE, i => 0);
      return;
    }
    DirectIo(fs, uio, block);
    ghost var bytes := uio.data[old(uio.pos)..uio.pos];
    if uio.write {
      GrownWrites(v0, v, sv.ino, old(uio.offset), bytes);
      assert Splice(v.disk[block], 0, bytes) == bytes;
      MapsThrough(v0, v, fs.V(), sv.ino, fb, NDIRECT <= fb);
    } else {
      assert v.disk[block][0..BLOCKSIZE] == v.disk[block];
    }
  }

  /** What a transfer has done so far, k bytes into it. */
  ghost predicate Progress(v0: Vol, v: Vol, ino: nat, s0: State, s: State)
  {
    && s0.offset <= s.offset && Advanced(s0, s, s.offset - s0.offset)
    && Done(v0, v, ino, s0.write, s0.offset, s.data[s0.pos..s.pos])
  }

  lemma ProgressStep(v0: Vol, v: Vol, v': Vol, ino: nat, s0: State, s: State, s': State, k: nat)
    requires Progress(v0, v, ino, s0, s)
    requires Advanced(s, s', k) && Done(v, v', ino, s.write, s.offset, s'.data[s.pos..s'.pos])
    ensures Progress(v0, v', ino, s0, s')
  {
    hide Done, Splice;
    AdvancedTrans(s0, s, s', s.offset - s0.offset, k);
    DoneTrans(v0, v, v', ino, s0.write, s0.offset, s.data[s0.pos..s.pos], s'.data[s.pos..s'.pos]);
  }

  lemma ProgressStart(v: Vol, ino: nat, s: State)
    requires Inv(v) && ino in v.inodes && s.pos + s.iovlen <= |s.data| && s.resid <= s.iovlen
    ensures Progress(v, v, ino, s, s)
  {
    hide Inv, Raw;
  }

  // ----- which blocks a transfer maps -----

  /** The blocks a file of n bytes has. */
  function Ceil(n: nat): nat
  {
    (n + BLOCKSIZE - 1) / BLOCKSIZE
  }

  /**
   A transfer from off that got to end mapped no block of the file but those it
   reached, and gave it an indirect block only if it needed one.
   */
  ghost predicate MapsReached(v: Vol, v': Vol, ino: nat, off: nat, end: nat, err: Errno)
  {
    MapsOnly(v, v', ino, off / BLOCKSIZE, Ceil(end),
             if err == OK then NDIRECT < Ceil(end) else NDIRECT <= end / BLOCKSIZE)
  }

  lemma ReachedNone(v: Vol, ino: nat, off: nat, err: Errno)
    requires ino in v.inodes
    ensures MapsReached(v, v, ino, off, off, err)
  {
    hide Blk;
  }

  lemma ReachedPart(v: Vol, v': Vol, ino: nat, off: nat, len: nat, err: Errno)
    requires MapsOnly(v, v', ino, off / BLOCKSIZE, off / BLOCKSIZE + if err == OK then 1
             else 0, NDIRECT <= off / BLOCKSIZE)
    requires err == OK ==> 0 < off % BLOCKSIZE + len <= BLOCKSIZE
    ensures MapsReached(v, v', ino, off, if err == OK then off + len else off, err)
  {
    hide Blk;
    var fb := off / BLOCKSIZE;
    if err == OK {
      CeilPart(off, len);
    } else {
      assert fb <= Ceil(off);
    }
  }

  lemma CeilPart(off: nat, len: nat)
    requires 0 < off % BLOCKSIZE + len <= BLOCKSIZE
    ensures Ceil(off + len) == off / BLOCKSIZE + 1
  {
  }

  lemma ReachedOn(u: Vol, v: Vol, w: Vol, ino: nat, off: nat, mid: nat, end: nat, err: Errno)
    requires MapsReached(u, v, ino, off, mid, OK) && MapsReached(v, w, ino, mid, end, err)
    requires off <= mid <= end && mid % BLOCKSIZE == 0
    ensures MapsReached(u, w, ino, off, end, err)
  {
    hide MapsOnly;
    CeilGrows(off, mid, end);
    var ind2 := if err == OK then NDIRECT < Ceil(end) else NDIRECT <= end / BLOCKSIZE;
    MapsTrans(u, v, w, ino, off / BLOCKSIZE, Ceil(mid), mid / BLOCKSIZE, Ceil(end), NDIRECT < Ceil(mid), ind2);
  }

  lemma CeilGrows(off: nat, mid: nat, end: nat)
    requires off <= mid <= end && mid % BLOCKSIZE == 0
    ensures off / BLOCKSIZE <= mid / BLOCKSIZE == Ceil(mid) <= end / BLOCKSIZE <= Ceil(end)
  {
  }

  method Leading(fs: Volume, sv: Vnode, uio: Uio, ghost v0: Vol, ghost s0: State) returns (err: Errno)
    requires fs.Ok() && fs.Current(sv) && uio.Valid() && Progress(v0, fs.V(), sv.ino, s0, uio.S())
    modifies fs`disk, fs`own, fs`inodes, fs.freemap.v, sv`inode, sv`dirty, uio
    ensures fs.Ok() && fs.Current(sv) && uio.Valid() && Progress(v0, fs.V(), sv.ino, s0, uio.S())
    ensures err == OK ==> uio.resid == 0 || uio.offset % BLOCKSIZE == 0
    ensures err != OK && old(uio.resid) > 0 ==> uio.resid > 0
    ensures err != OK ==> uio.offset == old(uio.offset) || uio.offset % BLOCKSIZE == 0
    ensures err == ENOSPC ==> Blk(fs.V(), sv.ino, uio.offset / BLOCKSIZE) == 0
    ensures err == OK && uio.write && uio.resid < old(uio.resid) ==>
              uio.offset > 0 && Blk(fs.V(), sv.ino, (uio.offset - 1) / BLOCKSIZE) != 0
    ensures uio.resid <= old(uio.resid) && (uio.resid < old(uio.resid) ==> uio.offset <= MAXFILEBLOCKS * BLOCKSIZE)
    ensures uio.offset == old(uio.offset) || uio.offset <= MAXFILEBLOCKS * BLOCKSIZE
    ensures err == EINVAL ==> MAXFILEBLOCKS <= uio.offset / BLOCKSIZE
    ensures old(uio.resid) == 0 ==> (err == EINVAL <==> LooksPast(old(uio.offset)))
    ensures err == OK || err == EINVAL || (err == ENOSPC && uio.write && Full(fs.V()))
    ensures sv.inode.size == old(sv.inode.size) && (!uio.write ==> sv.inode == old(sv.inode))
    ensures !sv.dirty ==> !old(sv.dirty) && sv.inode == old(sv.inode)
    ensures old(uio.offset) <= uio.offset && MapsReached(old(fs.V()), fs.V(), sv.ino, old(uio.offset), uio.offset, err)
  {
    hide Inv, Progress, Done, Full, Splice, BlockOf, MapsOnly, MapsReached;
    ghost var v, s := fs.V(), uio.S();
    NoneMoved(s);
    ReachedNone(v, sv.ino, uio.offset, OK);
    err := OK;
    var blkoff := uio.offset % BLOCKSIZE;
    if blkoff != 0 {
      var len := BLOCKSIZE - blkoff;
      if len > uio.resid {
        len := uio.resid;
      }
      err := PartialIo(fs, sv, uio, blkoff, len);
      ReachedPart(v, fs.V(), sv.ino, s.offset, len, err);
      ProgressStep(v0, v, fs.V(), sv.ino, s0, s, uio.S(), if err == OK then len else 0);
    }
  }

  method Whole(fs: Volume, sv: Vnode, uio: Uio, ghost v0: Vol, ghost s0: State) returns (err: Errno)
    requires fs.Ok() && fs.Current(sv) && uio.Valid() && Progress(v0, fs.V(), sv.ino, s0, uio.S())
    requires uio.offset % BLOCKSIZE == 0
    modifies fs`disk, fs`own, fs`inodes, fs.freemap.v, sv`inode, sv`dirty, uio
    ensures fs.Ok() && fs.Current(sv) && uio.Valid() && Progress(v0, fs.V(), sv.ino, s0, uio.S())
    ensures err == OK ==> uio.resid < BLOCKSIZE && uio.offset % BLOCKSIZE == 0
    ensures err != OK && old(uio.resid) > 0 ==> uio.resid > 0
    ensures err != OK ==> uio.offset == old(uio.offset) || uio.offset % BLOCKSIZE == 0
    ensures err == ENOSPC ==> Blk(fs.V(), sv.ino, uio.offset / BLOCKSIZE) == 0
    ensures err == OK && uio.write && uio.resid < old(uio.resid) ==>
              uio.offset > 0 && Blk(fs.V(), sv.ino, (uio.offset - 1) / BLOCKSIZE) != 0
    ensures uio.resid <= old(uio.resid) && (uio.resid < old(uio.resid) ==> uio.offset <= MAXFILEBLOCKS * BLOCKSIZE)
    ensures uio.offset == old(uio.offset) || uio.offset <= MAXFILEBLOCKS * BLOCKSIZE
    ensures err == EINVAL ==> MAXFILEBLOCKS <= uio.offset / BLOCKSIZE
    ensures err == OK || err == EINVAL || (err == ENOSPC && uio.write && Full(fs.V()))
    ensures sv.inode.size == old(sv.inode.size) && (!uio.write ==> sv.inode == old(sv.inode))
    ensures !sv.dirty ==> !old(sv.dirty) && sv.inode == old(sv.inode)
    ensures old(uio.offset) <= uio.offset && MapsReached(old(fs.V()), fs.V(), sv.ino, old(uio.offset), uio.offset, err)
  {
    hide Inv, Progress, Done, Full, Splice, BlockOf, MapsOnly, MapsReached;
    ReachedNone(fs.V(), sv.ino, uio.offset, OK);
    var nblocks := uio.resid / BLOCKSIZE;
    var i := 0;
    while i < nblocks
      invariant 0 <= i <= nblocks
      invariant fs.Ok() && fs.Current(sv) && uio.Valid() && Progress(v0, fs.V(), sv.ino, s0, uio.S())
      invariant uio.offset % BLOCKSIZE == 0 && uio.resid == old(uio.resid) - i * BLOCKSIZE
      invariant old(uio.offset) <= uio.offset
                && MapsReached(old(fs.V()), fs.V(), sv.ino, old(uio.offset), uio.offset, OK)
      invariant if i == 0 then uio.offset == old(uio.offset) else uio.offset <= MAXFILEBLOCKS * BLOCKSIZE
      invariant i > 0 && uio.write ==> uio.offset > 0 && Blk(fs.V(), sv.ino, (uio.offset - 1) / BLOCKSIZE) != 0
      invariant sv.inode.size == old(sv.inode.size) && (!uio.write ==> sv.inode == old(sv.inode))
      invariant !sv.dirty ==> !old(sv.dirty) && sv.inode == old(sv.inode)
    {
      ghost var v, s := fs.V(), uio.S();
      NoneMoved(s);
      err := BlockIo(fs, sv, uio);
      ReachedPart(v, fs.V(), sv.ino, s.offset, BLOCKSIZE, err);
      ReachedOn(old(fs.V()), v, fs.V(), sv.ino, old(uio.offset), s.offset, uio.offset, err);
      ProgressStep(v0, v, fs.V(), sv.ino, s0, s, uio.S(), if err == OK then BLOCKSIZE else 0);
      if err != OK {
        return;
      }
      i := i + 1;
    }
    err := OK;
  }

  /** What is left after the whole blocks. */
  method Trailing(fs: Volume, sv: Vnode, uio: Uio, ghost v0: Vol, ghost s0: State) returns (err: Errno)
    requires fs.Ok() && fs.Current(sv) && uio.Valid() && Progress(v0, fs.V(), sv.ino, s0, uio.S())
    requires uio.offset % BLOCKSIZE == 0 && 0 < uio.resid < BLOCKSIZE
    modifies fs`disk, fs`own, fs`inodes, fs.freemap.v, sv`inode, sv`dirty, uio
    ensures fs.Ok() && fs.Current(sv) && uio.Valid() && Progress(v0, fs.V(), sv.ino, s0, uio.S())
    ensures if err == OK then uio.resid == 0 && uio.offset == old(uio.offset) + old(uio.resid)
            else uio.resid == old(uio.resid) && uio.offset == old(uio.offset)
    ensures err == ENOSPC ==> Blk(fs.V(), sv.ino, uio.offset / BLOCKSIZE) == 0
    ensures err == OK ==> uio.offset <= MAXFILEBLOCKS * BLOCKSIZE
    ensures err == OK && uio.write ==> Blk(fs.V(), sv.ino, (uio.offset - 1) / BLOCKSIZE) != 0
    ensures err == EINVAL ==> MAXFILEBLOCKS <= uio.offset / BLOCKSIZE
    ensures err == OK || err == EINVAL || (err == ENOSPC && uio.write && Full(fs.V()))
    ensures sv.inode.size == old(sv.inode.size) && (!uio.write ==> sv.inode == old(sv.inode))
    ensures !sv.dirty ==> !old(sv.dirty) && sv.inode == old(sv.inode)
    ensures MapsReached(old(fs.V()), fs.V(), sv.ino, old(uio.offset), uio.offset, err)
  {
    hide Inv, Progress, Done, Full, Splice, BlockOf, MapsOnly, MapsReached;
    ghost var v, s := fs.V(), uio.S();
    NoneMoved(s);
    err := PartialIo(fs, sv, uio, 0, uio.resid);
    ReachedPart(v, fs.V(), sv.ino, s.offset, s.resid, err);
    ProgressStep(v0, v, fs.V(), sv.ino, s0, s, uio.S(), if err == OK then s.resid else 0);
  }

  /**
   The body of sfs_io: a leading partial block, whole blocks, a trailing partial
   block. It stops at the first failure, having moved the bytes before it.
   */
  method Transfer(fs: Volume, sv: Vnode, uio: Uio) returns (err: Errno)
    requires fs.Ok() && fs.Current(sv) && uio.Valid()
    modifies fs`disk, fs`own, fs`inodes, fs.freemap.v, sv`inode, sv`dirty, uio
    ensures fs.Ok() && fs.Current(sv) && uio.Valid()
    ensures Progress(old(fs.V()), fs.V(), sv.ino, old(uio.S()), uio.S())
    ensures err == OK ==> uio.resid == 0
    ensures err != OK && old(uio.resid) > 0 ==> uio.resid > 0
    ensures err != OK ==> uio.offset == old(uio.offset) || uio.offset % BLOCKSIZE == 0
    ensures err == ENOSPC ==> Blk(fs.V(), sv.ino, uio.offset / BLOCKSIZE) == 0
    ensures err == OK && uio.write && old(uio.resid) > 0 ==>
              uio.offset > 0 && Blk(fs.V(), sv.ino, (uio.offset - 1) / BLOCKSIZE) != 0
    ensures err == EINVAL ==> MAXFILEBLOCKS <= uio.offset / BLOCKSIZE
    ensures old(uio.resid) == 0 ==> (err == EINVAL <==> LooksPast(old(uio.offset)))
    ensures err == OK && old(uio.resid) > 0 ==> uio.offset <= MAXFILEBLOCKS * BLOCKSIZE
    ensures uio.offset == old(uio.offset) || uio.offset <= MAXFILEBLOCKS * BLOCKSIZE
    ensures err == OK || err == EINVAL || (err == ENOSPC && uio.write && Full(fs.V()))
    ensures sv.inode.size == old(sv.inode.size) && (!uio.write ==> sv.inode == old(sv.inode))
    ensures !sv.dirty ==> !old(sv.dirty) && sv.inode == old(sv.inode)
    ensures MapsReached(old(fs.V()), fs.V(), sv.ino, old(uio.offset), uio.offset, err)
  {
    hide Inv, Progress, Done, Full, Splice, BlockOf, MapsOnly, MapsReached;
    ghost var v0, s0 := fs.V(), uio.S();
    ProgressStart(v0, sv.ino, s0);
    err := Leading(fs, sv, uio, v0, s0);
    if err != OK || uio.resid == 0 {
      return;
    }
    ghost var v1, o1 := fs.V(), uio.offset;
    err := Whole(fs, sv, uio, v0, s0);
    ReachedOn(v0, v1, fs.V(), sv.ino, s0.offset, o1, uio.offset, err);
    if err != OK || uio.resid == 0 {
      return;
    }
    ghost var v2, o2 := fs.V(), uio.offset;
    err := Trailing(fs, sv, uio, v0, s0);
    ReachedOn(v0, v2, fs.V(), sv.ino, s0.offset, o2, uio.offset, err);
  }

  /**
   Bytes a read of n bytes at off asks for in a file of this size: those up to
   its end, unless the sum of off and n leaves the range of file offsets and
   the comparison with the size goes wrong.
   */
  function Readable(size: nat, off: nat, n: nat): nat
  {
    if size <= off then 0 else if size < off + n < TWO31 then size - off else n
  }

  function Max(a: nat, b: nat): nat { if a < b then b else a }

  /**
   What a write does. The bytes moved are those before the first block that could
   not be mapped; they and no other byte of the volume are overwritten. The size
   is raised to the offset reached even when nothing was moved. No block is
   mapped that the write did not reach.
   */
  ghost predicate WriteSpec(v: Vol, v': Vol, ino: nat, s0: State, s: State, err: Errno)
  {
    && s0.offset <= s.offset && Advanced(s0, s, s.offset - s0.offset)
    && ino in v.inodes && Wrote(v, v', ino, s0.offset, s.data[s0.pos..s.pos])
    && MapsReached(v, v', ino, s0.offset, s.offset, err)
    && v'.inodes[ino].size == Max(v.inodes[ino].size, s.offset)
    && (err == OK ==> s.resid == 0)
    && (err == OK && s0.resid > 0 ==>
          0 < s.offset <= MAXFILEBLOCKS * BLOCKSIZE && Blk(v', ino, (s.offset - 1) / BLOCKSIZE) != 0)
    && (err != OK ==> s.offset == s0.offset || s.offset % BLOCKSIZE == 0)
    && (err != OK && s0.resid > 0 ==> s.resid > 0)
    && (err == EINVAL ==> s.offset == Max(s0.offset, MAXFILEBLOCKS * BLOCKSIZE))
    && (s0.resid == 0 ==> (err == EINVAL <==> LooksPast(s0.offset)))
    && (err == ENOSPC ==> Full(v') && Blk(v', ino, s.offset / BLOCKSIZE) == 0)
    && (err == OK || err == EINVAL || err == ENOSPC)
  }

  /** sfs_io on a descriptor set up for writing. */
  method Write(fs: Volume, sv: Vnode, uio: Uio) returns (err: Errno)
    requires fs.Ok() && fs.Current(sv) && uio.Valid() && uio.write
    requires uio.offset < TWO31 && uio.resid < TWO32
    modifies fs`disk, fs`own, fs`inodes, fs.freemap.v, sv`inode, sv`dirty, uio
    ensures fs.Ok() && fs.Current(sv) && uio.Valid()
    ensures WriteSpec(old(fs.V()), fs.V(), sv.ino, old(uio.S()), uio.S(), err)
    ensures !sv.dirty ==> !old(sv.dirty) && sv.inode == old(sv.inode)
  {
    hide Inv, Frame, Raw, Splice, BlockOf, KeepsMapped, MapsOnly, MapsReached;
    ghost var v0 := fs.V();
    err := Transfer(fs, sv, uio);
    if uio.offset > sv.inode.size {
      SizeChange(v0, fs.V(), sv.ino, old(uio.offset), uio.data[old(uio.pos)..uio.pos], uio.offset);
      SizeReached(v0, fs.V(), sv.ino, old(uio.offset), uio.offset, err);
      sv.inode := sv.inode.(size := uio.offset);
      sv.dirty := true;
      fs.inodes := fs.inodes[sv.ino := sv.inode];
    }
  }

  lemma SizeChange(v0: Vol, v: Vol, ino: nat, off: nat, bytes: seq<byte>, size: nat)
    requires Wrote(v0, v, ino, off, bytes) && ino in v.inodes && size < TWO31
    ensures Wrote(v0, v.(inodes := v.inodes[ino := v.inodes[ino].(size := size)]), ino, off, bytes)
    ensures forall fb: nat ::
              Blk(v.(inodes := v.inodes[ino := v.inodes[ino].(size := size)]), ino, fb) == Blk(v, ino, fb)
  {
    SizeOk(v, ino, size);
    FrameTrans(v0, v, v.(inodes := v.inodes[ino := v.inodes[ino].(size := size)]), ino);
    hide Raw, Blk, Inv, Frame;
  }

  lemma SizeReached(v0: Vol, v: Vol, ino: nat, off: nat, size: nat, err: Errno)
    requires MapsReached(v0, v, ino, off, size, err)
    requires forall fb: nat ::
               Blk(v.(inodes := v.inodes[ino := v.inodes[ino].(size := size)]), ino, fb) == Blk(v, ino, fb)
    ensures MapsReached(v0, v.(inodes := v.inodes[ino := v.inodes[ino].(size := size)]), ino, off, size, err)
  {
    hide Blk;
  }

  /**
   What a read does: the bytes are the raw content up to the end of the file, and
   what could not be read stays in the residue. It fails only when it reaches past
   the last block a file can have, which a size raised by a failed write allows.
   */
  ghost predicate ReadSpec(v: Vol, ino: nat, s0: State, s: State, err: Errno)
  {
    && ino in v.inodes && s0.offset <= s.offset
    && var got, want := s.offset - s0.offset, Readable(v.inodes[ino].size, s0.offset, s0.resid);
    && Advanced(s0, s, got)
    && s.data[s0.pos..s.pos] == RawBytes(v, ino, s0.offset, got)
    && got <= want && (err == OK ==> got == want)
    && (err == OK <==> !ReadFails(v.inodes[ino].size, s0.offset, s0.resid))
    && (err != OK ==> err == EINVAL && s.offset == Max(s0.offset, MAXFILEBLOCKS * BLOCKSIZE))
  }

  /** A read inside the file fails when it reaches past the last block, if only to look at the start of it. */
  predicate ReadFails(size: nat, off: nat, n: nat)
  {
    && off < size
    && if Readable(size, off, n) > 0 then MAXFILEBLOCKS * BLOCKSIZE < off + Readable(size, off, n) else LooksPast(off)
  }

  /** An offset inside a block past the last one: even a transfer of nothing asks where that block is. */
  predicate LooksPast(off: nat)
  {
    off % BLOCKSIZE != 0 && MAXFILEBLOCKS <= off / BLOCKSIZE
  }

  /** A 32-bit number taken as a file offset. */
  function FileOffset(n: nat): int
  {
    if n < TWO31 then n else n - TWO32
  }

  /** The end of a request, as the code computes it, is below its start when it leaves 31 bits. */
  lemma EndPos(off: nat, n: nat)
    requires off < TWO31 && n < TWO32
    ensures var end := FileOffset((off + n) % TWO32); if off + n < TWO31 then end == off + n else end < off
  {
  }

  lemma SizeFine(v: Vol, ino: nat)
    requires Inv(v) && ino in v.inodes
    ensures v.inodes[ino].size < TWO31
  {
    assert InodeOk(v, ino);
  }

  /** sfs_io on a descriptor set up for reading: nothing changes on the volume. */
  method Read(fs: Volume, sv: Vnode, uio: Uio) returns (err: Errno)
    requires fs.Ok() && fs.Current(sv) && uio.Valid() && !uio.write
    requires uio.offset < TWO31 && uio.resid < TWO32
    modifies fs`disk, fs`own, fs`inodes, fs.freemap.v, sv`inode, sv`dirty, uio
    ensures fs.Ok() && fs.V() == old(fs.V()) && sv.inode == old(sv.inode) && uio.Valid()
    ensures !sv.dirty ==> !old(sv.dirty)
    ensures ReadSpec(fs.V(), sv.ino, old(uio.S()), uio.S(), err)
  {
    hide Inv, Raw, Splice, FileOffset, Frame, BlockOf, MapsReached, Wrote;
    NoneMoved(uio.S());
    SizeFine(fs.V(), sv.ino);
    EndPos(uio.offset, uio.resid);
    var size, endpos := sv.inode.size, FileOffset((uio.offset + uio.resid) % TWO32);
    var extraresid := 0;
    if uio.offset >= size {
      return OK;
    }
    if endpos > size {
      extraresid := endpos - size;
      uio.resid := uio.resid - extraresid;
    }
    err := Transfer(fs, sv, uio);
    uio.resid := uio.resid + extraresid;
  }
}
