/** Reading, writing and truncating files of a mounted volume (kern/fs/sfs/sfs_vnode.c). */
module SfsFiles {
  import opened SfsDisk
  import opened SfsBlocks
  import opened Sfs
  import opened SfsIo
  import opened SfsDir
  import opened SfsDirOps
  import opened SfsVnodes
  import opened SfsReclaim
  import opened SfsNames
  import opened SfsOps
  import T = SfsTruncate
  import U = Uio

  // ----- truncation -----

  /** Truncation keeps every byte below the new length. */
  lemma TruncateKeepsBelow(v: Vol, v': Vol, ino: nat, len: nat, off: nat)
    requires T.Truncated(v, v', ino, T.Blocklen(len)) && off < len
    ensures ino in v.inodes && ino in v'.inodes && Raw(v', ino, off) == Raw(v, ino, off)
  {
    hide Inv, Raw, Blk;
    assert off / BLOCKSIZE < T.Blocklen(len);
  }

  /** A bit is cleared exactly for the blocks discarded. */
  lemma TruncateBits(v: Vol, v': Vol, ino: nat, blocklen: nat, b: nat)
    requires Inv(v) && T.Truncated(v, v', ino, blocklen) && b < |v.freemap|
    ensures b < |v'.freemap|
    ensures v'.freemap[b] <==> v.freemap[b] && !(b in v.own && T.Discards(v, ino, blocklen, b))
  {
    hide Raw, Blk, InodeOk;
    assert b in v.own ==> OwnOk(v, b);
  }

  /**
   Truncation leaves nothing mapped past the new end exactly when the block
   just past it is not a mapped block of the indirect range.
   */
  lemma TruncatePastEnd(v: Vol, v': Vol, ino: nat, len: nat)
    requires T.Truncated(v, v', ino, T.Blocklen(len))
    ensures ino in v.inodes && ino in v'.inodes
    ensures (forall fb: nat :: T.Blocklen(len) <= fb < MAXFILEBLOCKS ==> Blk(v', ino, fb) == 0)
            <==> !(NDIRECT <= T.Blocklen(len) < MAXFILEBLOCKS && Blk(v, ino, T.Blocklen(len)) != 0)
  {
    hide Inv, Raw, Blk;
    assert T.Blocklen(len) < MAXFILEBLOCKS ==>
        Blk(v', ino, T.Blocklen(len)) == if T.Dropped(T.Blocklen(len), T.Blocklen(len)) then 0
            else Blk(v, ino, T.Blocklen(len));
  }

  /** Cutting a longer file to its direct blocks leaves block 15 behind, indirect block and all. */
  lemma TruncateLeavesBlock(v: Vol, v': Vol, ino: nat)
    requires T.Truncated(v, v', ino, T.Blocklen(NDIRECT * BLOCKSIZE)) && Blk(v, ino, NDIRECT) != 0
    ensures ino in v'.inodes && Blk(v', ino, NDIRECT) == Blk(v, ino, NDIRECT) && v'.inodes[ino].indirect != 0
  {
    hide Raw, Inv;
    assert T.Blocklen(NDIRECT * BLOCKSIZE) == NDIRECT;
  }

  /** After truncation to nothing the file owns its inode block only. */
  lemma TruncateToNothing(v: Vol, v': Vol, ino: nat, b: nat)
    requires Inv(v) && T.Truncated(v, v', ino, 0) && b in v'.own && Belongs(v'.own[b], b, ino)
    ensures b == ino
  {
    hide Inv, Raw, BlockOf, InodeOk, Frame;
    OwnedOk(v', b);
  }

  lemma OwnedOk(v: Vol, b: nat)
    requires Inv(v) && b in v.own
    ensures OwnOk(v, b)
  {
  }

  // ----- reading back -----

  /** What was written, all of it, is what a read at the same place returns. */
  lemma ReadAfterWrite(v: Vol, v': Vol, ino: nat, w0: U.State, w1: U.State, r0: U.State, r1: U.State, err: Errno)
    requires WriteSpec(v, v', ino, w0, w1, OK) && ReadSpec(v', ino, r0, r1, err)
    requires r0.offset == w0.offset && r0.resid == w0.resid > 0
    ensures err == OK && r1.resid == 0 && w1.resid == 0
    ensures r1.data[r0.pos..r1.pos] == w1.data[w0.pos..w1.pos]
  {
    hide Inv, Raw, Frame, KeepsMapped, U.Splice, Blk;
    var n := w0.resid;
    assert w1.offset == w0.offset + n;
    assert Readable(v'.inodes[ino].size, r0.offset, r0.resid) == n;
    var bytes := w1.data[w0.pos..w1.pos];
    assert RawBytes(v', ino, r0.offset, n) == bytes;
  }

  /** A write leaves every byte it did not cover, and every other file. */
  lemma WriteElsewhere(v: Vol, v': Vol, ino: nat, w0: U.State, w1: U.State, err: Errno, j: nat, off: nat)
    requires WriteSpec(v, v', ino, w0, w1, err) && j in v.inodes && (j != ino || off < w0.offset || w1.offset <= off)
    ensures j in v'.inodes && Raw(v', j, off) == Raw(v, j, off)
    ensures j != ino ==> v'.inodes[j] == v.inodes[j]
  {
    hide Inv, Raw, KeepsMapped, U.Splice, Blk;
  }

  /** A write past the largest file moves nothing, yet the empty file is now that long. */
  lemma FailedWriteGrows(v: Vol, v': Vol, ino: nat, w0: U.State, w1: U.State, err: Errno)
    requires WriteSpec(v, v', ino, w0, w1, err) && v.inodes[ino].size == 0
    requires w0.offset == MAXFILEBLOCKS * BLOCKSIZE && w0.resid == 1
    ensures err != OK && w1.resid == 1 && ino in v'.inodes && v'.inodes[ino].size == MAXFILEBLOCKS * BLOCKSIZE
  {
    hide Inv, Raw, KeepsMapped, U.Splice, Blk;
  }

  /**
   A failed write that moves nothing leaves the size alone if and only if it
   started inside the file or at its end.
   */
  lemma FailedWriteSize(v: Vol, v': Vol, ino: nat, w0: U.State, w1: U.State, err: Errno)
    requires WriteSpec(v, v', ino, w0, w1, err) && err != OK && w1.resid == w0.resid
    ensures ino in v.inodes && ino in v'.inodes
    ensures v'.inodes[ino].size == v.inodes[ino].size <==> w0.offset <= v.inodes[ino].size
  {
    hide Inv, Raw, KeepsMapped, U.Splice, Blk;
  }

  /**
   A read inside a file ends there without error if and only if its own end
   stays in the range of file offsets and, should the file be longer than the
   largest one that has blocks, within that one.
   */
  lemma ReadOverruns(v: Vol, ino: nat, r0: U.State, r1: U.State, err: Errno)
    requires ReadSpec(v, ino, r0, r1, err) && r0.offset < v.inodes[ino].size && r0.resid > 0
    ensures err == OK && r1.offset <= v.inodes[ino].size
            <==> && r0.offset + r0.resid < TWO31
                 && (r0.offset + r0.resid <= MAXFILEBLOCKS * BLOCKSIZE
                     || v.inodes[ino].size <= MAXFILEBLOCKS * BLOCKSIZE)
  {
    hide Raw, U.Splice;
  }

  /** From a file of one byte, a request for 2 GB brings all the largest file could hold. */
  lemma OneByteOverruns(v: Vol, ino: nat, r0: U.State, r1: U.State, err: Errno)
    requires ReadSpec(v, ino, r0, r1, err) && v.inodes[ino].size == 1 && r0.offset == 0 && r0.resid == TWO31
    ensures err == EINVAL && r1.offset == MAXFILEBLOCKS * BLOCKSIZE
  {
    hide Raw, U.Splice;
  }

  /** At or past the end of a file there is nothing to read, and no error. */
  lemma ReadAtEnd(v: Vol, ino: nat, r0: U.State, r1: U.State, err: Errno)
    requires ReadSpec(v, ino, r0, r1, err) && v.inodes[ino].size <= r0.offset
    ensures err == OK && r1.offset == r0.offset && r1.resid == r0.resid && r1.data == r0.data
  {
    hide Raw;
    assert r1.data[r0.pos..r1.pos] == [];
    U.SpliceNothing(r0.data, r0.pos);
  }

  // ----- operations on a mounted volume -----

  /** VOP_WRITE on a loaded file: all of the volume's invariants are kept. */
  method WriteFile(fs: Volume, sv: Vnode, ghost k: nat, uio: U.Uio) returns (err: Errno)
    requires Good(fs) && At(fs, sv, k) && sv.ino != ROOT_LOCATION && uio.Valid() && uio.write
    requires uio.offset < TWO31 && uio.resid < TWO32
    modifies fs`disk, fs`own, fs`inodes, fs.freemap.v, sv`inode, sv`dirty, uio
    ensures Good(fs) && uio.Valid() && KeepsRefs(old(Entries(fs)), Entries(fs)) && Slots(fs.V()) == Slots(old(fs.V()))
    ensures WriteSpec(old(fs.V()), fs.V(), sv.ino, old(uio.S()), uio.S(), err)
  {
    hide Inv, DirShape, LinksOk, TableInv, Slots, WriteSpec, Frame, KeepsRefs, U.Splice;
    ghost var t, v := Entries(fs), fs.V();
    TableDistinct(fs, k);
    EntryCurrent(fs, k);
    err := Write(fs, sv, uio);
    WriteFrame(v, fs.V(), sv.ino, old(uio.S()), uio.S(), err);
    TableFramed(t, Entries(fs), k, v, fs.V());
    RefsTouched(t, Entries(fs), k);
    DirFrame(v, fs.V(), sv.ino);
  }

  lemma RefsTouched(t: seq<Loaded>, u: seq<Loaded>, k: nat)
    requires |u| == |t| && k < |t| && u == t[k := u[k]] && u[k].ino == t[k].ino && u[k].refs == t[k].refs
    ensures KeepsRefs(t, u)
  {
  }

  lemma WriteFrame(v: Vol, v': Vol, ino: nat, s0: U.State, s1: U.State, err: Errno)
    requires WriteSpec(v, v', ino, s0, s1, err)
    ensures Frame(v, v', ino)
  {
  }

  /** VOP_READ on a loaded file. */
  method ReadFile(fs: Volume, sv: Vnode, ghost k: nat, uio: U.Uio) returns (err: Errno)
    requires Good(fs) && At(fs, sv, k) && sv.ino != ROOT_LOCATION && uio.Valid() && !uio.write
    requires uio.offset < TWO31 && uio.resid < TWO32
    modifies fs`disk, fs`own, fs`inodes, fs.freemap.v, sv`inode, sv`dirty, uio
    ensures Good(fs) && uio.Valid() && KeepsRefs(old(Entries(fs)), Entries(fs)) && fs.V() == old(fs.V())
    ensures ReadSpec(fs.V(), sv.ino, old(uio.S()), uio.S(), err)
  {
    hide Inv, DirShape, LinksOk, TableInv, Slots, ReadSpec, Frame, KeepsRefs, U.Splice;
    ghost var t, v := Entries(fs), fs.V();
    TableDistinct(fs, k);
    EntryCurrent(fs, k);
    err := Read(fs, sv, uio);
    FrameRefl(v, sv.ino);
    TableFramed(t, Entries(fs), k, v, fs.V());
    RefsTouched(t, Entries(fs), k);
  }

  /** VOP_TRUNCATE on a loaded file. */
  method TruncateFile(fs: Volume, sv: Vnode, ghost k: nat, len: nat)
    requires Good(fs) && At(fs, sv, k) && sv.ino != ROOT_LOCATION && len < TWO31
    modifies fs`disk, fs`own, fs`inodes, fs.freemap.v, sv`inode, sv`dirty
    ensures Good(fs) && KeepsRefs(old(Entries(fs)), Entries(fs)) && Slots(fs.V()) == Slots(old(fs.V()))
    ensures T.Truncated(old(fs.V()), fs.V(), sv.ino, T.Blocklen(len)) && sv.inode.size == len
  {
    hide Inv, DirShape, LinksOk, TableInv, Slots, Frame, KeepsRefs;
    ghost var t, v := Entries(fs), fs.V();
    TableDistinct(fs, k);
    EntryCurrent(fs, k);
    T.Truncate(fs, sv, len);
    TableFramed(t, Entries(fs), k, v, fs.V());
    RefsTouched(t, Entries(fs), k);
    DirFrame(v, fs.V(), sv.ino);
  }

  /** VOP_FSYNC: the inode on disk is the inode in memory. */
  method SyncFile(fs: Volume, sv: Vnode, ghost k: nat)
    requires Good(fs) && At(fs, sv, k)
    modifies fs`disk, sv`dirty
    ensures Good(fs) && KeepsRefs(old(Entries(fs)), Entries(fs)) && Slots(fs.V()) == Slots(old(fs.V()))
    ensures SameFiles(old(fs.V()), fs.V()) && sv.ino < |fs.disk| && DecodeInode(fs.disk[sv.ino]) == sv.inode
            && !sv.dirty
  {
    hide Inv, DirShape, LinksOk, TableInv, Slots, SameFiles, KeepsRefs, DecodeInode, Synced;
    ghost var t, v := Entries(fs), fs.V();
    EntryCurrent(fs, k);
    SyncInode(fs, sv, k);
    LoadFacts(fs.V(), sv.ino);
    RefsTouched(t, Entries(fs), k);
    DirSynced(v, fs.V(), sv.ino);
    SyncedSame(v, fs.V(), sv.ino);
  }

  /** A fresh volume is consistent, with an empty directory. */
  lemma FreshGood(fs: Volume)
    requires fs.Ok() && fs.vnodes == [] && fs.inodes == map[ROOT_LOCATION := ROOT_INODE]
    requires ROOT_LOCATION < |fs.disk| && DecodeInode(fs.disk[ROOT_LOCATION]) == ROOT_INODE
    ensures Good(fs) && Slots(fs.V()) == [] && Names(fs.V()) == map[]
  {
    hide Inv, DecodeInode;
    assert Slots(fs.V()) == [];
    assert Count([], ROOT_LOCATION) == 0;
    assert OnDisk(fs.V(), ROOT_LOCATION, NOINO);
  }
}
