/** Writing a volume back, and what its disk then says by itself (kern/fs/sfs/sfs_fs.c). */
module SfsSync {
  import opened SfsDisk
  import opened SfsBlocks
  import opened Sfs
  import opened SfsDir
  import opened SfsDirOps
  import opened SfsVnodes
  import opened SfsReclaim
  import opened SfsNames
  import opened SfsOps
  import opened SfsCreat
  import opened SfsFiles
  import opened SfsAbstract
  import opened SfsRuns
  import B = Bitmap

  // ----- what a disk says -----

  ghost function DiskRoot(disk: seq<Block>): Inode
    requires ROOT_LOCATION < |disk|
  {
    DecodeInode(disk[ROOT_LOCATION])
  }

  ghost function DiskBytes(i: Inode, disk: seq<Block>, off: nat, n: nat): (b: seq<byte>)
    ensures |b| == n
  {
    seq<byte>(n, k requires 0 <= k < n => RawOf(i, disk, off + k))
  }

  /** The directory, read from the disk through the inode at its fixed place. */
  ghost function DiskNames(disk: seq<Block>): map<Name, nat>
    requires ROOT_LOCATION < |disk|
  {
    var root := DiskRoot(disk);
    NameMap(seq(root.size / DIRENT, s requires 0 <= s => DecodeEntry(DiskBytes(root, disk, DIRENT * s, DIRENT))))
  }

  ghost function DiskFile(disk: seq<Block>, i: nat): File
    requires i < |disk|
  {
    File(DecodeInode(disk[i]).size, imap x: nat :: RawOf(DecodeInode(disk[i]), disk, x))
  }

  /** The files the directory names. */
  ghost function DiskFiles(disk: seq<Block>): map<nat, File>
    requires ROOT_LOCATION < |disk|
  {
    map i | i in DiskNames(disk).Values && i < |disk| :: DiskFile(disk, i)
  }

  /** Bit b of the map the disk holds. */
  ghost function DiskBit(disk: seq<Block>, b: nat): bool
    requires MAP_LOCATION + b / BLOCKBITS < |disk|
  {
    var x := disk[MAP_LOCATION + b / BLOCKBITS][b % BLOCKBITS / B.BITS_PER_WORD];
    B.BitSet(x as bv8, b % B.BITS_PER_WORD)
  }

  // ----- when the disk tells the truth -----

  ghost predicate AllOnDisk(v: Vol)
  {
    forall i :: i in v.inodes ==> i < |v.disk| && DecodeInode(v.disk[i]) == v.inodes[i]
  }

  lemma CleanOnDisk(fs: Volume)
    requires Good(fs) && forall k :: 0 <= k < |fs.vnodes| ==> !fs.vnodes[k].dirty
    ensures AllOnDisk(fs.V())
  {
    hide Inv, DecodeInode, DirShape, LinksOk;
    var t, v := Entries(fs), fs.V();
    ZeroNotInode(v);
    forall i | i in v.inodes
      ensures i < |v.disk| && DecodeInode(v.disk[i]) == v.inodes[i]
    {
      if IsLoaded(t, i) {
        var k :| 0 <= k < |t| && t[k].ino == i;
        assert EntryOk(t[k], v) && !fs.vnodes[k].dirty;
      } else {
        assert OnDisk(v, i, NOINO);
      }
    }
  }

  lemma DiskDirectory(v: Vol)
    requires HasRoot(v) && AllOnDisk(v)
    ensures ROOT_LOCATION < |v.disk| && DiskNames(v.disk) == Names(v)
  {
    hide DecodeInode, RawOf, NameMap;
    var root := DiskRoot(v.disk);
    assert root == v.inodes[ROOT_LOCATION];
    var t := seq(root.size / DIRENT, s requires 0 <= s => DecodeEntry(DiskBytes(root, v.disk, DIRENT * s, DIRENT)));
    forall s: nat | s < |t|
      ensures t[s] == SlotAt(v, s)
    {
      DiskSlot(v, s);
    }
    assert t == Slots(v);
  }

  lemma DiskSlot(v: Vol, s: nat)
    requires HasRoot(v)
    ensures DiskBytes(v.inodes[ROOT_LOCATION], v.disk, DIRENT * s, DIRENT) ==
            SfsIo.RawBytes(v, ROOT_LOCATION, DIRENT * s, DIRENT)
  {
    hide RawOf;
  }

  /** The disk by itself gives the directory and every file that has a name. */
  lemma DiskTells(v: Vol)
    requires DirShape(v) && AllOnDisk(v)
    ensures ROOT_LOCATION < |v.disk| && DiskNames(v.disk) == Names(v)
    ensures DiskFiles(v.disk) == Keep(Files(v), Names(v), [])
  {
    hide DecodeInode, RawOf, NameMap, Slots, DiskNames;
    DiskDirectory(v);
    forall n | n in Names(v)
      ensures Names(v)[n] in v.inodes && Names(v)[n] != ROOT_LOCATION
    {
      NamedThere(v, n);
    }
    forall i | i in Names(v).Values
      ensures i < |v.disk| && i in v.inodes && i != ROOT_LOCATION && DiskFile(v.disk, i) == FileOf(v, i)
    {
    }
  }

  lemma NamedThere(v: Vol, n: Name)
    requires DirShape(v) && n in Names(v)
    ensures Names(v)[n] in v.inodes && Names(v)[n] != ROOT_LOCATION
  {
    hide SlotAt, NoHoles;
    NameMapOf(Slots(v), n);
  }

  // ----- sfs_sync -----

  /** Block j of the bitmap's bytes. */
  function MapBlock(ws: seq<bv8>, j: nat): Block
    requires (j + 1) * BLOCKSIZE <= |ws|
  {
    seq<byte>(BLOCKSIZE, i requires 0 <= i < BLOCKSIZE => ws[j * BLOCKSIZE + i] as int)
  }

  lemma ByteBack(w: bv8)
    ensures (w as int) as bv8 == w
  {
  }

  /** The first n blocks of the bitmap are on the disk. */
  ghost predicate MapThere(disk: seq<Block>, ws: seq<bv8>, n: nat)
  {
    MAP_LOCATION + n <= |disk| && n * BLOCKSIZE <= |ws|
    && forall j: nat :: j < n ==> disk[MAP_LOCATION + j] == MapBlock(ws, j)
  }

  lemma MapTells(disk: seq<Block>, ws: seq<bv8>, n: nat, b: nat)
    requires MapThere(disk, ws, n) && b < n * BLOCKBITS
    ensures MAP_LOCATION + b / BLOCKBITS < |disk| && b < B.BITS_PER_WORD * |ws| && DiskBit(disk, b) == B.Bit(ws, b)
  {
    hide B.BitSet;
    var j, i := b / BLOCKBITS, b % BLOCKBITS / B.BITS_PER_WORD;
    assert j * BLOCKSIZE + i == b / B.BITS_PER_WORD && b % BLOCKBITS % B.BITS_PER_WORD == b % B.BITS_PER_WORD;
    assert disk[MAP_LOCATION + j] == MapBlock(ws, j);
    ByteBack(ws[j * BLOCKSIZE + i]);
  }

  lemma MapFits(v: Vol, words: nat)
    requires Inv(v) && words == B.WordCount(|v.freemap|)
    ensures MAP_LOCATION + BitBlocks(v.nblocks) <= |v.disk| && BitBlocks(v.nblocks) * BLOCKSIZE == words
    ensures |v.freemap| == BitBlocks(v.nblocks) * BLOCKBITS
  {
    hide InodeOk, OwnOk, Marked;
  }

  lemma MapReserved(v: Vol, j: nat)
    requires Inv(v) && j < BitBlocks(v.nblocks)
    ensures MAP_LOCATION + j in v.own && v.own[MAP_LOCATION + j] == Reserved
  {
    hide InodeOk, OwnOk, Marked;
    assert IsReserved(v.nblocks, MAP_LOCATION + j);
  }

  lemma ReservedWrite(t: seq<Loaded>, v: Vol, x: nat, content: Block)
    requires Inv(v) && TableInv(t, v, NOINO) && DirShape(v) && LinksOk(v) && x in v.own && v.own[x] == Reserved
    ensures x < |v.disk|
    ensures var v' := v.(disk := v.disk[x := content]);
            Inv(v') && TableInv(t, v', NOINO) && DirShape(v') && LinksOk(v') && Slots(v') == Slots(v)
                && SameFiles(v, v')
  {
    hide DirShape, LinksOk, Slots, Raw, BlockOf, DecodeInode, SameFiles;
    SyncOk(v, x, content);
    var v' := v.(disk := v.disk[x := content]);
    assert Synced(v, v', x);
    DirSynced(v, v', x);
    SyncedSame(v, v', x);
    TableElsewhere(t, v, v', x);
  }

  lemma TableElsewhere(t: seq<Loaded>, v: Vol, v': Vol, x: nat)
    requires Inv(v) && TableInv(t, v, NOINO) && x in v.own && v.own[x] == Reserved && Synced(v, v', x)
    ensures TableInv(t, v', NOINO)
  {
    hide Raw, BlockOf, DecodeInode;
    forall i | i in v.inodes ensures i != x { assert InodeOk(v, i); }
    forall k | 0 <= k < |t| ensures EntryOk(t[k], v') { assert EntryOk(t[k], v); }
    forall i | i in v'.inodes
      ensures IsLoaded(t, i) || OnDisk(v', i, NOINO)
    {
      assert IsLoaded(t, i) || OnDisk(v, i, NOINO);
    }
  }

  /** sfs_mapio on the way to the disk. */
  method WriteMap(fs: Volume)
    requires Good(fs)
    modifies fs`disk
    ensures Good(fs) && Slots(fs.V()) == Slots(old(fs.V())) && SameFiles(old(fs.V()), fs.V())
    ensures MapThere(fs.disk, fs.freemap.v[..], BitBlocks(fs.nblocks))
  {
    hide Inv, NoHoles, SfsDir.Distinct, SlotsNameFiles, LinksOk, TableInv, Slots, SameFiles, MapBlock, OldFiles;
    ghost var v0 := fs.V();
    SameRefl(v0);
    MapFits(fs.V(), fs.freemap.v.Length);
    var ws := fs.freemap.v[..];
    for j := 0 to BitBlocks(fs.nblocks)
      invariant Good(fs) && Slots(fs.V()) == Slots(v0) && SameFiles(v0, fs.V()) && MapThere(fs.disk, ws, j)
    {
      ghost var v := fs.V();
      MapFits(v, fs.freemap.v.Length);
      MapReserved(v, j);
      ghost var t := Entries(fs);
      ReservedWrite(t, v, MAP_LOCATION + j, MapBlock(ws, j));
      fs.disk := fs.disk[MAP_LOCATION + j := MapBlock(ws, j)];
      assert fs.V() == v.(disk := fs.disk) && Entries(fs) == t;
      SameTrans(v0, v, fs.V());
    }
  }

  lemma SameTrans(v: Vol, v1: Vol, v2: Vol)
    requires SameFiles(v, v1) && SameFiles(v1, v2)
    ensures SameFiles(v, v2)
  {
    hide OldFiles;
    OldFilesTrans(v, v1, v2);
  }

  /** The loop of sfs_sync over the loaded vnodes. */
  method SyncVnodes(fs: Volume)
    requires Good(fs)
    modifies fs`disk, fs.vnodes`dirty
    ensures Good(fs) && KeepsRefs(old(Entries(fs)), Entries(fs))
    ensures Slots(fs.V()) == Slots(old(fs.V())) && SameFiles(old(fs.V()), fs.V())
    ensures forall k :: 0 <= k < |fs.vnodes| ==> !fs.vnodes[k].dirty
  {
    hide Inv, NoHoles, SfsDir.Distinct, SlotsNameFiles, LinksOk, TableInv, Slots, SameFiles, KeepsRefs;
    ghost var t0, v0 := Entries(fs), fs.V();
    SameRefl(v0);
    KeepsRefl(t0);
    for i := 0 to |fs.vnodes|
      invariant Good(fs) && Slots(fs.V()) == Slots(v0) && SameFiles(v0, fs.V()) && KeepsRefs(t0, Entries(fs))
      invariant forall k :: 0 <= k < i ==> !fs.vnodes[k].dirty
      modifies fs`disk, fs.vnodes`dirty
    {
      ghost var t, v := Entries(fs), fs.V();
      SyncFile(fs, fs.vnodes[i], i);
      SameTrans(v0, v, fs.V());
      KeepsTrans(t0, t, Entries(fs));
    }
  }

  /**
   sfs_sync. A process sees no change, and the disk by itself now gives the
   bitmap, the directory and every file with a name: all there is, if only the
   directory is open.
   */
  method Sync(fs: Volume, open: seq<Vnode>)
    requires Session(fs, open)
    modifies fs`disk, fs.vnodes`dirty
    ensures Session(fs, open) && View(fs, open) == old(View(fs, open)) && ROOT_LOCATION < |fs.disk|
    ensures DiskNames(fs.disk) == View(fs, open).names
    ensures DiskFiles(fs.disk) == Keep(View(fs, open).files, View(fs, open).names, [])
    ensures |open| == 1 ==> DiskFiles(fs.disk) == View(fs, open).files
    ensures forall b: nat :: b < |fs.V().freemap| ==>
              MAP_LOCATION + b / BLOCKBITS < |fs.disk| && DiskBit(fs.disk, b) == fs.V().freemap[b]
  {
    hide Inv, NoHoles, SfsDir.Distinct, SlotsNameFiles, LinksOk, TableInv, Slots, SameFiles, KeepsRefs, NameMap, Files;
    hide DiskNames, DiskFiles, Keep, HeldBy, MapThere, AllOnDisk;
    ghost var t, v := Entries(fs), fs.V();
    SyncVnodes(fs);
    ghost var v1 := fs.V();
    WriteMap(fs);
    SameTrans(v, v1, fs.V());
    FilesSame(v, fs.V());
    HeldKept(fs.vnodes, t, Entries(fs), open);
    CleanOnDisk(fs);
    DiskTells(fs.V());
    BitsThere(fs);
    if |open| == 1 {
      ViewClean(fs, open);
      AllNamed(View(fs, open));
    }
  }

  lemma AllNamed(s: Fs)
    requires Clean(s) && |s.open| == 1
    ensures Keep(s.files, s.names, []) == s.files
  {
    assert forall i :: Live(s.names, s.open, i) <==> Live(s.names, [], i);
  }

  lemma BitsThere(fs: Volume)
    requires fs.Ok() && MapThere(fs.disk, fs.freemap.v[..], BitBlocks(fs.nblocks))
    ensures forall b: nat :: b < |fs.V().freemap| ==>
              MAP_LOCATION + b / BLOCKBITS < |fs.disk| && DiskBit(fs.disk, b) == fs.V().freemap[b]
  {
    hide Inv, MapThere, DiskBit;
    MapFits(fs.V(), fs.freemap.v.Length);
    forall b: nat | b < |fs.V().freemap|
      ensures MAP_LOCATION + b / BLOCKBITS < |fs.disk| && DiskBit(fs.disk, b) == fs.V().freemap[b]
    {
      MapTells(fs.disk, fs.freemap.v[..], BitBlocks(fs.nblocks), b);
    }
  }
}
