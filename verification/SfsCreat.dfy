/** New files (kern/fs/sfs/sfs_vnode.c). */
module SfsCreat {
  import opened SfsDisk
  import opened SfsBlocks
  import opened Sfs
  import opened SfsDir
  import opened SfsDirOps
  import opened SfsVnodes
  import opened SfsReclaim
  import opened SfsNames
  import opened SfsOps

  lemma ZeroIsNewFile()
    ensures DecodeInode(ZeroBlock()) == NewFile().(kind := TYPE_INVAL)
  {
    ZeroInode();
    hide DecodeInode;
    assert NewFile().direct == seq(NDIRECT, i => 0);
  }

  /** The table while a new inode is not yet loaded: its block is all zeros, so its type is still missing. */
  lemma TableAdd(t: seq<Loaded>, v: Vol, x: nat)
    requires TableInv(t, v, NOINO) && Addable(v, x)
    ensures x !in v.inodes && !IsLoaded(t, x) && TableInv(t, AddInode(v, x), x)
  {
    AddInodeOk(v, x);
    AddedFacts(v, x);
    ZeroIsNewFile();
    hide Inv, Blk, Raw, DecodeInode, EntryOk, OnDisk;
    var v' := AddInode(v, x);
    forall l | 0 <= l < |t|
      ensures EntryOk(t[l], v') && t[l].ino != x
    {
      EntryIn(t[l], v);
      EntryKept(t[l], v, v', x);
    }
    forall i | i in v'.inodes
      ensures IsLoaded(t, i) || OnDisk(v', i, x)
    {
      if i == x {
        AddedOnDisk(v, x);
      } else {
        OnDiskStill(v, v', i, x);
      }
    }
  }

  lemma EntryIn(e: Loaded, v: Vol)
    requires EntryOk(e, v)
    ensures e.ino in v.inodes
  {
  }

  lemma AddedFacts(v: Vol, x: nat)
    requires Addable(v, x)
    ensures x < |v.disk| && NOINO !in v.inodes
  {
    ZeroNotInode(v);
  }

  lemma AddedOnDisk(v: Vol, x: nat)
    requires x < |v.disk| && x < |v.freemap| && DecodeInode(ZeroBlock()) == NewFile().(kind := TYPE_INVAL)
    ensures OnDisk(AddInode(v, x), x, x)
  {
    hide DecodeInode;
  }

  lemma OnDiskStill(v: Vol, v': Vol, i: nat, x: nat)
    requires i in v.inodes && i in v'.inodes && |v'.disk| == |v.disk| && i != x && i != NOINO
    requires v'.inodes[i] == v.inodes[i] && (i < |v.disk| ==> v'.disk[i] == v.disk[i])
    ensures OnDisk(v, i, NOINO) ==> OnDisk(v', i, x)
  {
  }

  /** A new inode is in no slot. */
  lemma AddedDir(v: Vol, x: nat)
    requires Addable(v, x) && DirShape(v) && LinksOk(v)
    ensures DirShape(AddInode(v, x)) && LinksOk(AddInode(v, x)) && Slots(AddInode(v, x)) == Slots(v)
  {
    AddInodeOk(v, x);
    NotNamed(v, x);
    hide Inv, Blk, Raw, DirShape, LinksOk, Slots, Others, Count;
    DirOthers(v, AddInode(v, x), x);
  }

  lemma NotNamed(v: Vol, x: nat)
    requires DirShape(v) && x !in v.inodes && x != NOINO
    ensures x != ROOT_LOCATION && Count(Slots(v), x) == 0
  {
    hide Raw, Blk, SlotAt;
    CountUsed(Slots(v), x);
  }

  /** Free block x became the inode of an empty file. */
  ghost predicate Made(v: Vol, v': Vol, x: nat)
  {
    Addable(v, x) && x < |v.disk| && v' == AddInode(v, x)
  }

  /** sfs_makeobj: a free block becomes the inode of an empty file with no links, loaded and dirty. */
  method MakeObj(fs: Volume) returns (err: Errno, sv: Vnode?, ghost k: nat)
    requires Good(fs)
    modifies fs`disk, fs`own, fs`inodes, fs`vnodes, fs.freemap.v, fs.vnodes`refcount
    ensures Good(fs) && Slots(fs.V()) == Slots(old(fs.V()))
    ensures err == OK || (err == ENOSPC && Full(fs.V()))
    ensures err != OK ==>
              sv == null && fs.V() == old(fs.V()) && fs.vnodes == old(fs.vnodes) && Entries(fs) == old(Entries(fs))
    ensures err == OK ==> sv != null && fresh(sv) && k == |old(fs.vnodes)| && fs.vnodes == old(fs.vnodes) + [sv]
    ensures err == OK ==> Made(old(fs.V()), fs.V(), sv.ino)
    ensures err == OK ==> Entries(fs) == old(Entries(fs)) + [Loaded(sv.ino, NewFile(), true, 1)]
    ensures err == OK ==> !IsLoaded(old(Entries(fs)), sv.ino)
  {
    hide Inv, DirShape, LinksOk, TableInv, Slots, Full, IsLoaded;
    ghost var t, v := Entries(fs), fs.V();
    var ino;
    err, ino := fs.Balloc();
    if err != OK {
      sv, k := null, 0;
      assert Entries(fs) == t;
      return;
    }
    fs.own := fs.own[ino := InodeBlock];
    fs.inodes := fs.inodes[ino := NewFile()];
    assert Entries(fs) == t;
    AddInodeOk(v, ino);
    TableAdd(t, v, ino);
    AddedDir(v, ino);
    sv, k := LoadVnode(fs, ino, TYPE_FILE);
  }

  /** v' has one more file, empty, under this name; every other file is as before. */
  ghost predicate NewFileNamed(v: Vol, v': Vol, name: Name, ino: nat)
  {
    && HasRoot(v) && HasRoot(v') && ino !in v.inodes && v'.inodes.Keys == v.inodes.Keys + {ino}
    && name !in Names(v) && Names(v') == Names(v)[name := ino] && SlotCount(v') == SlotsFor(SlotCount(v), |Names(v)|)
    && v'.inodes[ino] == NewFile().(links := 1)
    && OldFiles(v, v')
  }

  lemma MadeFiles(v: Vol, v': Vol, x: nat)
    requires Made(v, v', x)
    ensures x !in v.inodes && v'.inodes == v.inodes[x := NewFile()] && OldFiles(v, v')
  {
    AddInodeOk(v, x);
    hide Inv, Raw, Blk;
  }

  lemma CreateDone(v: Vol, v1: Vol, v2: Vol, name: Name, x: nat)
    requires Made(v, v1, x) && HasRoot(v) && HasRoot(v1) && Slots(v1) == Slots(v)
    requires LinkFile(v1, v2, name, x, OK) && x in v1.inodes && x in v2.inodes
    requires v2.inodes[x] == v1.inodes[x].(links := v1.inodes[x].links + 1)
    ensures NewFileNamed(v, v2, name, x)
  {
    MadeFiles(v, v1, x);
    hide Made, OldFiles, Slots, NameMap;
    OldFilesTrans(v, v1, v2);
  }

  lemma CreateFailed(v: Vol, v1: Vol, v2: Vol, v3: Vol, name: Name, x: nat, err: Errno)
    requires Made(v, v1, x) && HasRoot(v) && HasRoot(v1) && Slots(v1) == Slots(v)
    requires LinkFile(v1, v2, name, x, err) && err != OK && x in v2.inodes && v2.inodes[x] == NewFile()
    requires Inv(v2) && Reclaimed(v2, v3, x) && HasRoot(v3) && Slots(v3) == Slots(v2)
    ensures SameFiles(v, v3) && Names(v3) == Names(v) && SlotCount(v3) == SlotCount(v)
    ensures CreatRoom(v, v3, err)
  {
    hide Inv, Made, OldFiles, OldFilesBut, Slots, NameMap, Others, Erased, FullBut, Full;
    if err == ENOSPC {
      AlmostFull(v2, v3, x);
    }
    MadeFiles(v, v1, x);
    ErasedFacts(v2, v3, x);
    OldFilesTrans(v, v1, v2);
    OthersSame(v2, v3, x);
    OldButTrans(v, v2, v3, x);
    OldOfBut(v, v3, x);
  }

  ghost predicate FullBut(v: Vol, x: nat)
  {
    forall b :: 0 <= b < |v.freemap| && b != x ==> v.freemap[b]
  }

  /**
   Creation fails for want of space only if one free block at most is left, and
   none unless every slot of the directory has a name; at its length limit only
   if the directory is and every slot has a name.
   */
  ghost predicate CreatRoom(v: Vol, v': Vol, err: Errno)
    requires HasRoot(v)
  {
    && (err == ENOSPC ==> (exists x: nat :: FullBut(v', x)) && (Full(v') || |Names(v)| == SlotCount(v)))
    && (err == EINVAL ==> |Names(v)| == SlotCount(v) == MAXFILEBLOCKS * BLOCKSIZE / DIRENT)
  }

  /** Erasing an empty file from a full disk frees one block. */
  lemma AlmostFull(v: Vol, v': Vol, x: nat)
    requires Inv(v) && Full(v) && x in v.inodes && v.inodes[x] == NewFile() && Erased(v, v', x)
    ensures FullBut(v', x)
  {
    hide InodeOk, OwnOk, Raw, Blk;
    forall b: nat | b < |v'.freemap| && b != x
      ensures v'.freemap[b]
    {
      if b in v.own {
        EmptyOwns(v, b, x);
      }
    }
  }

  lemma EmptyOwns(v: Vol, b: nat, x: nat)
    requires Inv(v) && b in v.own && x in v.inodes && v.inodes[x] == NewFile() && b != x
    ensures !Belongs(v.own[b], b, x)
  {
    hide InodeOk, Raw, Word, Marked;
    assert OwnOk(v, b);
  }

  lemma OldOfBut(v: Vol, v': Vol, x: nat)
    requires OldFilesBut(v, v', x) && x !in v.inodes
    ensures OldFiles(v, v')
  {
    hide SameFile;
  }

  /** sfs_creat of a name that is not there. When the name cannot be entered, the new inode is erased again. */
  method CreateNew(fs: Volume, dir: Vnode, ghost kd: nat, name: Name) returns (err: Errno, sv: Vnode?, ghost k: nat)
    requires Good(fs) && IsRoot(fs, dir, kd) && NoZeros(name) && name !in Names(fs.V())
    modifies fs, fs.freemap.v, fs.vnodes
    ensures Good(fs)
    ensures err == OK ==> sv != null && fresh(sv) && At(fs, sv, k) && fs.vnodes == old(fs.vnodes) + [sv]
    ensures err == OK ==>
              Acquired(old(Entries(fs)), Entries(fs), sv.ino, k) && NewFileNamed(old(fs.V()), fs.V(), name, sv.ino)
    ensures err != OK ==> fs.vnodes == old(fs.vnodes) && KeepsRefs(old(Entries(fs)), Entries(fs))
    ensures err != OK ==> SameFiles(old(fs.V()), fs.V()) && Names(fs.V()) == Names(old(fs.V()))
                          && SlotCount(fs.V()) == SlotCount(old(fs.V()))
    ensures |name| + 1 > NAMELEN ==> err == ENAMETOOLONG || err == ENOSPC
    ensures err == ENAMETOOLONG ==> |name| + 1 > NAMELEN
    ensures err != EEXIST && err != ENOENT && CreatRoom(old(fs.V()), fs.V(), err)
  {
    hide Inv, NoHoles, Distinct, SlotsNameFiles, LinksOk, TableInv, NameMap, Slots, Made, NewFileNamed, SameFiles,
        KeepsRefs, Acquired;
    hide LinkFile, IsLoaded, Full, FullBut, Reclaimed, KeepsUsed;
    ghost var t, v := Entries(fs), fs.V();
    TableRefs(t, v);
    err, sv, k := MakeObj(fs);
    if err != OK {
      SameRefl(v);
      KeepsRefl(t);
      FullOf(v);
      return;
    }
    ghost var t1, v1 := Entries(fs), fs.V();
    LoadAcquires(t, t1, sv.ino, k, NewFile());
    MadeFiles(v, v1, sv.ino);
    err := AddName(fs, dir, kd, name, sv, k);
    ghost var t2, v2 := Entries(fs), fs.V();
    AcquiredKept(t, t1, t2, sv.ino, k);
    LinkFileErr(v1, v2, name, sv.ino, err);
    if err == OK {
      CreateDone(v, v1, v2, name, sv.ino);
    } else {
      Release(fs, sv, k, t, old(fs.vnodes));
      CreateFailed(v, v1, v2, fs.V(), name, sv.ino, err);
    }
  }

  lemma FullOf(v: Vol)
    requires Full(v)
    ensures FullBut(v, 0)
  {
  }

  lemma KeepsRefl(t: seq<Loaded>)
    ensures KeepsRefs(t, t)
  {
  }

  lemma LinkFileErr(v: Vol, v': Vol, name: Name, ino: nat, err: Errno)
    requires LinkFile(v, v', name, ino, err)
    ensures HasRoot(v) && err != ENOENT && (err == EEXIST <==> name in Names(v))
    ensures err == ENAMETOOLONG <==> name !in Names(v) && |name| + 1 > NAMELEN
  {
  }

  /** What sfs_creat answers and leaves, for every name and both settings of excl. */
  ghost predicate CreatSpec(v: Vol, v': Vol, name: Name, excl: bool, err: Errno, ino: nat)
  {
    && HasRoot(v) && HasRoot(v')
    && (err == EEXIST <==> excl && name in Names(v))
    && (!excl && name in Names(v) ==> err == OK && ino == Names(v)[name] && v' == v)
    && (err == OK && name !in Names(v) ==> NewFileNamed(v, v', name, ino))
    && (err != OK ==> SameFiles(v, v') && Names(v') == Names(v) && SlotCount(v') == SlotCount(v))
    && (name !in Names(v) && |name| + 1 > NAMELEN ==> err == ENAMETOOLONG || err == ENOSPC)
    && (err == ENAMETOOLONG ==> |name| + 1 > NAMELEN)
    && err != ENOENT && CreatRoom(v, v', err)
  }

  lemma CreatNew(v: Vol, v': Vol, name: Name, excl: bool, err: Errno, ino: nat)
    requires DirShape(v) && DirShape(v') && name !in Names(v) && err != EEXIST
    requires err == OK ==> NewFileNamed(v, v', name, ino)
    requires err != OK ==> SameFiles(v, v') && Names(v') == Names(v) && SlotCount(v') == SlotCount(v)
    requires |name| + 1 > NAMELEN ==> err == ENAMETOOLONG || err == ENOSPC
    requires err == ENAMETOOLONG ==> |name| + 1 > NAMELEN
    requires err != ENOENT && CreatRoom(v, v', err)
    ensures CreatSpec(v, v', name, excl, err, ino)
  {
    hide NameMap, Slots, SameFiles, NewFileNamed, NoHoles, Distinct, SlotsNameFiles;
  }

  lemma CreatOld(v: Vol, name: Name, excl: bool, err: Errno, ino: nat)
    requires DirShape(v) && name in Names(v) && err == (if excl then EEXIST else OK)
             && (!excl ==> ino == Names(v)[name])
    ensures CreatSpec(v, v, name, excl, err, ino)
  {
    SameRefl(v);
    hide NameMap, Slots, SameFiles, NewFileNamed, NoHoles, Distinct, SlotsNameFiles;
  }

  /** sfs_creat. */
  method Creat(fs: Volume, dir: Vnode, ghost kd: nat, name: Name, excl: bool)
      returns (err: Errno, sv: Vnode?, ghost k: nat)
    requires Good(fs) && IsRoot(fs, dir, kd) && NoZeros(name)
    modifies fs, fs.freemap.v, fs.vnodes
    ensures Good(fs) && (err == OK ==> sv != null)
    ensures CreatSpec(old(fs.V()), fs.V(), name, excl, err, if err == OK then sv.ino else 0)
    ensures err == OK ==> At(fs, sv, k) && Acquired(old(Entries(fs)), Entries(fs), sv.ino, k)
    ensures err == OK ==> old(fs.vnodes) <= fs.vnodes && sv.ino != ROOT_LOCATION && (sv in old(fs.vnodes) || fresh(sv))
    ensures err != OK ==> fs.vnodes == old(fs.vnodes) && KeepsRefs(old(Entries(fs)), Entries(fs))
  {
    hide Inv, NoHoles, Distinct, SlotsNameFiles, LinksOk, TableInv, NameMap, SlotAt, NewFileNamed, SameFiles,
        KeepsRefs, Acquired;
    hide CreatSpec, CreatRoom;
    ghost var t, v := Entries(fs), fs.V();
    var ino, slot;
    err, ino, slot := FindIn(fs, dir, kd, name);
    ghost var t1 := Entries(fs);
    TouchedKeeps(t, t1, kd);
    if err == OK && excl {
      CreatOld(v, name, excl, EEXIST, 0);
      return EEXIST, null, 0;
    }
    if err == OK {
      NamedFile(fs.V(), slot);
      sv, k := LoadVnode(fs, ino, TYPE_INVAL);
      LoadAcquires(t1, Entries(fs), ino, k, fs.inodes[ino]);
      AcquiredKept(t, t1, Entries(fs), ino, k);
      CreatOld(v, name, excl, OK, ino);
      return;
    }
    err, sv, k := CreateNew(fs, dir, kd, name);
    CreatNew(v, fs.V(), name, excl, err, if err == OK then sv.ino else 0);
    if err == OK {
      AcquiredKept(t, t1, Entries(fs), sv.ino, k);
      NewNotRoot(v, fs.V(), name, sv.ino);
    } else {
      KeepsTrans(t, t1, Entries(fs));
    }
  }

  lemma NewNotRoot(v: Vol, v': Vol, name: Name, ino: nat)
    requires NewFileNamed(v, v', name, ino)
    ensures ino != ROOT_LOCATION
  {
  }
}
