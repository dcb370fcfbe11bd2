/** Creating, linking, removing and renaming files (kern/fs/sfs/sfs_vnode.c). */
module SfsOps {
  import opened SfsDisk
  import opened SfsBlocks
  import opened Sfs
  import opened SfsDir
  import opened SfsDirOps
  import opened SfsVnodes
  import opened SfsReclaim
  import opened SfsNames

  // ----- link -----

  ghost predicate LinkFile(v: Vol, v': Vol, name: Name, ino: nat, err: Errno)
  {
    && HasRoot(v) && HasRoot(v') && SameFiles(v, v')
    && (err == EEXIST <==> name in Names(v))
    && (err == ENAMETOOLONG <==> name !in Names(v) && |name| + 1 > NAMELEN)
    && (err == OK ==> Names(v') == Names(v)[name := ino] && SlotCount(v') == SlotsFor(SlotCount(v), |Names(v)|))
    && (err != OK ==> Names(v') == Names(v) && SlotCount(v') == SlotCount(v))
    && NoRoom(v, v', err) && err != ENOENT
  }

  /**
   The two ways a name finds no room: every slot has a name and the disk is full
   or the directory as long as a file can be.
   */
  ghost predicate NoRoom(v: Vol, v': Vol, err: Errno)
    requires HasRoot(v)
  {
    && (err == ENOSPC || err == EINVAL ==> |Names(v)| == SlotCount(v))
    && (err == ENOSPC ==> Full(v'))
    && (err == EINVAL ==> SlotCount(v) == MAXFILEBLOCKS * BLOCKSIZE / DIRENT)
  }

  /** Slots in use stay as they are. */
  ghost predicate KeepsUsed(t: seq<Dirent>, u: seq<Dirent>)
  {
    forall s :: 0 <= s < |t| && Used(t[s]) ==> s < |u| && u[s] == t[s]
  }

  /** What entering a name leaves for the link counts. */
  lemma LinkStep(v: Vol, v': Vol, name: Name, ino: nat, err: Errno, slot: nat)
    requires DirShape(v) && LinkSpec(v, v', name, ino, err, slot) && LinksOk(v) && NOINO !in v'.inodes
    ensures LinkFile(v, v', name, ino, err) && SameFiles(v, v') && KeepsUsed(Slots(v), Slots(v'))
    ensures ino in v.inodes && ino != ROOT_LOCATION ==> ino in v'.inodes && v'.inodes[ino] == v.inodes[ino]
    ensures err == OK ==> LinksBut(v', ino, 1)
    ensures err != OK ==> LinksOk(v')
  {
    hide Frame, Full, SameFiles, Slots, NameMap, LinksBut, DirShape, KeepsUsed, AllUsed;
    DirDistinct(v);
    NamesFit(Slots(v));
    FrameSame(v, v');
    FrameKeeps(v, v', ino);
    LinkUsed(v, v', name, ino, err, slot);
  }

  lemma LinkUsed(v: Vol, v': Vol, name: Name, ino: nat, err: Errno, slot: nat)
    requires LinkSpec(v, v', name, ino, err, slot)
    ensures KeepsUsed(Slots(v), Slots(v'))
  {
    hide Frame, Full, NameMap, SlotAt, Linked, LinksOk;
  }

  lemma FrameKeeps(v: Vol, v': Vol, ino: nat)
    requires Frame(v, v', ROOT_LOCATION)
    ensures ino in v.inodes && ino != ROOT_LOCATION ==> ino in v'.inodes && v'.inodes[ino] == v.inodes[ino]
  {
    hide Raw, Blk;
  }

  lemma LinkCounted(v: Vol, v1: Vol, v2: Vol, name: Name, ino: nat)
    requires LinkFile(v, v1, name, ino, OK) && SameFiles(v1, v2) && DirShape(v2) && Slots(v2) == Slots(v1)
    ensures LinkFile(v, v2, name, ino, OK)
  {
    hide NameMap, Slots, OldFiles;
    OldFilesTrans(v, v1, v2);
  }

  /** Entering a name and raising its file's link count, as creat, link and rename do. */
  method AddName(fs: Volume, dir: Vnode, ghost kd: nat, name: Name, f: Vnode, ghost k: nat) returns (err: Errno)
    requires Good(fs) && IsRoot(fs, dir, kd) && At(fs, f, k) && f.ino != ROOT_LOCATION && NoZeros(name)
    modifies fs`disk, fs`own, fs`inodes, fs.freemap.v, dir`inode, dir`dirty, f`inode, f`dirty
    ensures Good(fs) && KeepsRefs(old(Entries(fs)), Entries(fs))
    ensures LinkFile(old(fs.V()), fs.V(), name, f.ino, err) && KeepsUsed(Slots(old(fs.V())), Slots(fs.V()))
    ensures f.ino in old(fs.inodes) && f.ino in fs.inodes
    ensures fs.inodes[f.ino] ==
            old(fs.inodes)[f.ino].(links := old(fs.inodes)[f.ino].links + if err == OK then 1 else 0)
  {
    hide Inv, NoHoles, Distinct, SlotsNameFiles, LinksOk, LinksBut, TableInv, NameMap, LinkSpec, LinkFile, SameFiles,
        Slots;
    hide KeepsRefs, KeepsUsed;
    ghost var t, v := Entries(fs), fs.V();
    EntryCurrent(fs, k);
    var slot;
    err, slot := LinkIn(fs, dir, kd, name, f.ino);
    ghost var t1, v1 := Entries(fs), fs.V();
    TouchedKeeps(t, t1, kd);
    ZeroNotInode(v1);
    LinkStep(v, v1, name, f.ino, err, slot);
    if err == OK {
      EntryCurrent(fs, k);
      LinkBound(v1, f.ino, 1);
      SetLinks(fs, f, k, (f.inode.links + 1) % TWO16, 1);
      LinkCounted(v, v1, fs.V(), name, f.ino);
      RefsUpdate(t, t1, Entries(fs), k);
    }
  }

  /** sfs_link: the name is entered and the file's count goes up with it, or nothing changes. */
  method Link(fs: Volume, dir: Vnode, ghost kd: nat, name: Name, f: Vnode, ghost k: nat) returns (err: Errno)
    requires Good(fs) && IsRoot(fs, dir, kd) && At(fs, f, k) && f.ino != ROOT_LOCATION && NoZeros(name)
    modifies fs`disk, fs`own, fs`inodes, fs.freemap.v, dir`inode, dir`dirty, f`inode, f`dirty
    ensures Good(fs) && KeepsRefs(old(Entries(fs)), Entries(fs))
    ensures LinkFile(old(fs.V()), fs.V(), name, f.ino, err)
  {
    err := AddName(fs, dir, kd, name, f, k);
  }

  lemma RefsUpdate(t: seq<Loaded>, u: seq<Loaded>, w: seq<Loaded>, k: nat)
    requires KeepsRefs(t, u) && |w| == |u| && k < |u| && w[k].ino == u[k].ino && w[k].refs == u[k].refs
             && w == u[k := w[k]]
    ensures KeepsRefs(t, w) && KeepsRefs(u, w)
  {
  }

  // ----- remove -----

  /** File ino and its blocks go if v has no other link to it and the table no reference; otherwise no file changes. */
  ghost predicate RemoveFile(v: Vol, v': Vol, name: Name, held: bool)
  {
    && HasRoot(v) && HasRoot(v') && name in Names(v) && Names(v)[name] in v.inodes
    && Names(v') == Names(v) - {name} && SlotCount(v') == SlotCount(v)
    && var ino := Names(v)[name];
       if held || v.inodes[ino].links > 1 then SameFiles(v, v')
       else v'.inodes.Keys == v.inodes.Keys - {ino} && OldFilesBut(v, v', ino) && FileFreed(v, v', ino)
  }

  ghost predicate OldFilesBut(v: Vol, v': Vol, ino: nat)
  {
    forall j :: j in v.inodes && j != ROOT_LOCATION && j != ino ==> SameFile(v, v', j)
  }

  /** Of the blocks in use outside the directory, those of file ino are free and no others. */
  ghost predicate FileFreed(v: Vol, v': Vol, ino: nat)
  {
    forall b :: b in v.own && b < |v'.freemap| && !Belongs(v.own[b], b, ROOT_LOCATION) ==>
      (v'.freemap[b] <==> !Belongs(v.own[b], b, ino))
  }

  /** Every block in use outside the directory has the same owner. */
  ghost predicate OwnersSame(v: Vol, v': Vol)
  {
    forall b :: b in v.own && !Belongs(v.own[b], b, ROOT_LOCATION) ==> b in v'.own && v'.own[b] == v.own[b]
  }

  /** Changes to the directory file leave every other block with its owner. */
  lemma OwnersKept(v: Vol, v': Vol)
    requires Inv(v) && Inv(v') && Frame(v, v', ROOT_LOCATION)
    ensures OwnersSame(v, v')
  {
    forall b | b in v.own && !Belongs(v.own[b], b, ROOT_LOCATION)
      ensures b in v'.own && v'.own[b] == v.own[b]
    {
      OwnerKept(v, v', b);
    }
  }

  lemma OwnerKept(v: Vol, v': Vol, b: nat)
    requires Inv(v) && Inv(v') && Frame(v, v', ROOT_LOCATION) && b in v.own && !Belongs(v.own[b], b, ROOT_LOCATION)
    ensures b in v'.own && v'.own[b] == v.own[b]
  {
    assert OwnOk(v, b);
    hide Raw, BlockOf;
    match v.own[b]
    case Reserved =>
    case InodeBlock => assert InodeOk(v', b);
    case Indirect(i) => assert InodeOk(v', i);
    case Data(i, fb) => assert InodeOk(v', i) && Maps(v', i, fb);
  }

  lemma ErasedBit(v: Vol, v': Vol, b: nat, ino: nat)
    requires Inv(v) && Erased(v, v', ino) && b in v.own && b < |v'.freemap|
    ensures v'.freemap[b] <==> !Belongs(v.own[b], b, ino)
  {
    assert OwnOk(v, b);
    hide InodeOk, Raw, Blk;
  }

  lemma ErasedFrees(v: Vol, v1: Vol, v2: Vol, ino: nat)
    requires Inv(v1) && OwnersSame(v, v1) && Erased(v1, v2, ino)
    ensures FileFreed(v, v2, ino)
  {
    hide Inv, Erased;
    forall b | b in v.own && b < |v2.freemap| && !Belongs(v.own[b], b, ROOT_LOCATION)
      ensures v2.freemap[b] <==> !Belongs(v.own[b], b, ino)
    {
      ErasedBit(v1, v2, b, ino);
    }
  }

  /** A name of file ino is gone, and the count of its links went down with it. */
  ghost predicate NameDropped(v: Vol, v': Vol, name: Name, ino: nat)
  {
    && HasRoot(v) && HasRoot(v') && Names(v') == Names(v) - {name} && SlotCount(v') == SlotCount(v)
    && SameFiles(v, v') && OwnersSame(v, v')
    && ino in v.inodes && ino in v'.inodes && v'.inodes[ino].links == v.inodes[ino].links - 1
  }

  lemma UnlinkStep(v: Vol, v1: Vol, name: Name, ino: nat)
    requires Inv(v) && Inv(v1) && Unlinked(v, v1, name, ino) && LinksOk(v) && ino in v.inodes && ino != ROOT_LOCATION
    ensures DirShape(v1) && LinksBut(v1, ino, -1) && SameFiles(v, v1) && Names(v1) == Names(v) - {name}
            && OwnersSame(v, v1) && SlotCount(v1) == SlotCount(v)
    ensures ino in v1.inodes && v1.inodes[ino].links == v.inodes[ino].links
  {
    OwnersKept(v, v1);
    FrameSame(v, v1);
    hide NameMap, Slots, OldFiles, OwnersSame, Raw, Blk, Inv, NoHoles, Distinct, SlotsNameFiles;
  }

  lemma UnlinkCounted(v: Vol, v1: Vol, name: Name, ino: nat)
    requires DirShape(v) && DirShape(v1) && ino in v.inodes && ino in v1.inodes
             && v1.inodes[ino].links == v.inodes[ino].links > 0
    requires Names(v1) == Names(v) - {name} && SameFiles(v, v1) && OwnersSame(v, v1) && SlotCount(v1) == SlotCount(v)
    requires var v2 := Relinked(v1, ino, v1.inodes[ino].links - 1);
               DirShape(v2) && Slots(v2) == Slots(v1) && SameFiles(v1, v2)
    ensures NameDropped(v, Relinked(v1, ino, v1.inodes[ino].links - 1), name, ino)
  {
    hide NameMap, Slots, OldFiles, NoHoles, Distinct, SlotsNameFiles;
    OldFilesTrans(v, v1, Relinked(v1, ino, v1.inodes[ino].links - 1));
  }

  /** Clearing a slot and lowering its file's link count, as remove and rename do. */
  method DropName(fs: Volume, dir: Vnode, ghost kd: nat, slot: nat, sv: Vnode, ghost k: nat)
    requires Good(fs) && IsRoot(fs, dir, kd) && At(fs, sv, k) && sv.ino != ROOT_LOCATION && sv.inode.links > 0
    requires slot < SlotCount(fs.V()) && Used(Slots(fs.V())[slot]) && Slots(fs.V())[slot].ino == sv.ino
    modifies fs`disk, fs`own, fs`inodes, fs.freemap.v, dir`inode, dir`dirty, sv`inode, sv`dirty
    ensures Good(fs) && KeepsRefs(old(Entries(fs)), Entries(fs))
    ensures NameDropped(old(fs.V()), fs.V(), Slots(old(fs.V()))[slot].name, sv.ino)
  {
    hide Inv, NoHoles, Distinct, SlotsNameFiles, LinksOk, LinksBut, TableInv, NameMap, SlotAt, SameFiles, KeepsRefs;
    hide Unlinked, Relinked, OwnersSame, NameDropped;
    ghost var t, v := Entries(fs), fs.V();
    EntryCurrent(fs, k);
    var err := UnlinkIn(fs, dir, kd, slot);
    ghost var t1, v1 := Entries(fs), fs.V();
    TouchedKeeps(t, t1, kd);
    EntryCurrent(fs, k);
    UnlinkStep(v, v1, Slots(v)[slot].name, sv.ino);
    SetLinks(fs, sv, k, sv.inode.links - 1, -1);
    RefsUpdate(t, t1, Entries(fs), k);
    UnlinkCounted(v, v1, Slots(v)[slot].name, sv.ino);
  }

  lemma OthersSame(v: Vol, v': Vol, ino: nat)
    requires Others(v, v', ino) && ino in v.inodes && ino !in v'.inodes
    ensures v'.inodes.Keys == v.inodes.Keys - {ino} && OldFilesBut(v, v', ino)
  {
    hide Raw, Blk;
  }

  lemma OldButTrans(v: Vol, v1: Vol, v2: Vol, ino: nat)
    requires OldFiles(v, v1) && OldFilesBut(v1, v2, ino)
    ensures OldFilesBut(v, v2, ino)
  {
    hide Raw;
    forall j | j in v.inodes && j != ROOT_LOCATION && j != ino
      ensures SameFile(v, v2, j)
    {
      assert SameFile(v, v1, j) && SameFile(v1, v2, j);
    }
  }

  lemma SameRefl(v: Vol)
    ensures SameFiles(v, v)
  {
    hide Raw;
  }

  lemma RemoveDone(v: Vol, v1: Vol, v2: Vol, name: Name, ino: nat, held: bool)
    requires Inv(v1) && NameDropped(v, v1, name, ino) && name in Names(v) && ino == Names(v)[name]
    requires DirShape(v2) && Slots(v2) == Slots(v1) && v.inodes[ino].links > 0
    requires held ==> v2 == v1
    requires !held ==> Reclaimed(v1, v2, ino)
    ensures RemoveFile(v, v2, name, held)
  {
    hide Inv, NameMap, Slots, FileFreed, Others, Synced, NoHoles, Distinct, SlotsNameFiles, OldFiles, OldFilesBut,
        OwnersSame;
    if held {
      SameRefl(v2);
      OldFilesTrans(v, v1, v2);
    } else if v.inodes[ino].links > 1 {
      SyncedSame(v1, v2, ino);
      OldFilesTrans(v, v1, v2);
    } else {
      ErasedFrees(v, v1, v2, ino);
      OthersSame(v1, v2, ino);
      OldButTrans(v, v1, v2, ino);
    }
  }

  /** sfs_remove. */
  method RemoveName(fs: Volume, dir: Vnode, ghost kd: nat, name: Name) returns (err: Errno)
    requires Good(fs) && IsRoot(fs, dir, kd)
    modifies fs, fs.freemap.v, fs.vnodes
    ensures Good(fs) && fs.vnodes == old(fs.vnodes) && KeepsRefs(old(Entries(fs)), Entries(fs))
    ensures err == if name in Names(old(fs.V())) then OK else ENOENT
    ensures err == OK ==> RemoveFile(old(fs.V()), fs.V(), name, old(IsLoaded(Entries(fs), Names(fs.V())[name])))
    ensures err != OK ==> fs.V() == old(fs.V())
  {
    hide Inv, DirShape, LinksOk, TableInv, NameMap, SlotAt, RemoveFile, SameFiles, KeepsRefs, Acquired, Reclaimed,
        NameDropped;
    hide IsLoaded, Remove;
    ghost var t, v := Entries(fs), fs.V();
    TableRefs(t, v);
    var victim: Vnode?, slot;
    ghost var k;
    err, victim, k, slot := LookOnce(fs, dir, kd, name);
    if err != OK {
      return;
    }
    ghost var t1 := Entries(fs);
    EntryCurrent(fs, k);
    DropName(fs, dir, kd, slot, victim, k);
    ghost var v1, t2 := fs.V(), Entries(fs);
    AcquiredKept(t, t1, t2, victim.ino, k);
    Release(fs, victim, k, t, old(fs.vnodes));
    RemoveDone(v, v1, fs.V(), name, victim.ino, IsLoaded(t, victim.ino));
  }

  // ----- rename -----

  /** n1 becomes n2, or the directory is as before; no file changes either way. */
  ghost predicate RenameFile(v: Vol, v': Vol, n1: Name, n2: Name, err: Errno)
  {
    && HasRoot(v) && HasRoot(v') && SameFiles(v, v')
    && (err == ENOENT <==> n1 !in Names(v))
    && (err == EEXIST <==> n1 in Names(v) && n2 in Names(v))
    && (err == ENAMETOOLONG <==> n1 in Names(v) && n2 !in Names(v) && |n2| + 1 > NAMELEN)
    && (err == OK ==> n1 in Names(v) && Names(v') == (Names(v) - {n1})[n2 := Names(v)[n1]])
    && (err == OK ==> SlotCount(v') == SlotsFor(SlotCount(v), |Names(v)|))
    && (err != OK ==> Names(v') == Names(v) && SlotCount(v') == SlotCount(v))
    && NoRoom(v, v', err)
  }

  lemma ReleaseSame(v: Vol, v': Vol, ino: nat, held: bool)
    requires ino in v.inodes && v.inodes[ino].links > 0
    requires held ==> v' == v
    requires !held ==> Reclaimed(v, v', ino)
    ensures SameFiles(v, v') && v'.freemap == v.freemap
  {
    hide Erased, SameFiles, Raw, Blk;
    if held { SameRefl(v); } else { SyncedSame(v, v', ino); }
  }

  lemma RenameFailed(v: Vol, v1: Vol, n1: Name, n2: Name, ino: nat, err: Errno)
    requires LinkFile(v, v1, n2, ino, err) && err != OK && n1 in Names(v)
    ensures RenameFile(v, v1, n1, n2, err)
  {
    hide NameMap, Slots, OldFiles;
  }

  lemma RenameDone(v: Vol, v1: Vol, v2: Vol, n1: Name, n2: Name, ino: nat)
    requires LinkFile(v, v1, n2, ino, OK) && n1 in Names(v) && Names(v)[n1] == ino
    requires NameDropped(v1, v2, n1, ino)
    ensures RenameFile(v, v2, n1, n2, OK)
  {
    hide NameMap, Slots, OldFiles, OwnersSame;
    OldFilesTrans(v, v1, v2);
    assert n1 != n2;
    assert Names(v2) == (Names(v) - {n1})[n2 := ino];
  }

  lemma UsedKept(t: seq<Dirent>, u: seq<Dirent>, s: nat)
    requires KeepsUsed(t, u) && s < |t| && Used(t[s])
    ensures s < |u| && u[s] == t[s]
  {
  }

  /** The middle of sfs_rename: the new name is entered, then the old one cleared, which cannot fail. */
  method MoveName(fs: Volume, dir: Vnode, ghost kd: nat, n1: Name, slot1: nat, n2: Name, g1: Vnode, ghost k: nat)
      returns (err: Errno)
    requires Good(fs) && IsRoot(fs, dir, kd) && At(fs, g1, k) && g1.ino != ROOT_LOCATION && g1.inode.links > 0
             && NoZeros(n2)
    requires slot1 < SlotCount(fs.V()) && Used(Slots(fs.V())[slot1]) && Slots(fs.V())[slot1] == Dirent(g1.ino, n1)
    requires n1 in Names(fs.V()) && Names(fs.V())[n1] == g1.ino
    modifies fs`disk, fs`own, fs`inodes, fs.freemap.v, dir`inode, dir`dirty, g1`inode, g1`dirty
    ensures Good(fs) && KeepsRefs(old(Entries(fs)), Entries(fs))
    ensures RenameFile(old(fs.V()), fs.V(), n1, n2, err)
    ensures g1.ino in fs.inodes && fs.inodes[g1.ino].links > 0
  {
    hide Inv, NoHoles, Distinct, SlotsNameFiles, LinksOk, TableInv, NameMap, SlotAt, RenameFile, KeepsRefs, LinkFile,
        KeepsUsed;
    hide SameFiles, OwnersSame, Count;
    ghost var t, v := Entries(fs), fs.V();
    EntryCurrent(fs, k);
    err := AddName(fs, dir, kd, n2, g1, k);
    ghost var v1, t1 := fs.V(), Entries(fs);
    if err != OK {
      RenameFailed(v, v1, n1, n2, g1.ino, err);
      return;
    }
    EntryCurrent(fs, k);
    UsedKept(Slots(v), Slots(v1), slot1);
    DropName(fs, dir, kd, slot1, g1, k);
    RenameDone(v, v1, fs.V(), n1, n2, g1.ino);
    KeepsTrans(t, t1, Entries(fs));
  }

  lemma KeepsTrans(t: seq<Loaded>, u: seq<Loaded>, w: seq<Loaded>)
    requires KeepsRefs(t, u) && KeepsRefs(u, w)
    ensures KeepsRefs(t, w)
  {
  }

  lemma RenameMissing(v: Vol, n1: Name, n2: Name)
    requires HasRoot(v) && n1 !in Names(v)
    ensures RenameFile(v, v, n1, n2, ENOENT)
  {
    SameRefl(v);
    hide NameMap, Slots, OldFiles;
  }

  lemma RenameReleased(v: Vol, v1: Vol, v2: Vol, n1: Name, n2: Name, err: Errno)
    requires RenameFile(v, v1, n1, n2, err) && SameFiles(v1, v2) && DirShape(v2) && Slots(v2) == Slots(v1)
    requires v2.freemap == v1.freemap
    ensures RenameFile(v, v2, n1, n2, err)
  {
    hide NameMap, Slots, OldFiles, NoHoles, Distinct, SlotsNameFiles;
    OldFilesTrans(v, v1, v2);
  }

  /** sfs_rename. */
  method Rename(fs: Volume, dir: Vnode, ghost kd: nat, n1: Name, n2: Name) returns (err: Errno)
    requires Good(fs) && IsRoot(fs, dir, kd) && NoZeros(n2)
    modifies fs, fs.freemap.v, fs.vnodes
    ensures Good(fs) && fs.vnodes == old(fs.vnodes) && KeepsRefs(old(Entries(fs)), Entries(fs))
    ensures RenameFile(old(fs.V()), fs.V(), n1, n2, err)
  {
    hide Inv, NoHoles, Distinct, SlotsNameFiles, LinksOk, TableInv, NameMap, SlotAt, RenameFile, SameFiles, KeepsRefs,
        Acquired;
    hide Reclaimed, IsLoaded, Remove, Count;
    ghost var t, v := Entries(fs), fs.V();
    TableRefs(t, v);
    var g1: Vnode?, slot1;
    ghost var k;
    err, g1, k, slot1 := LookOnce(fs, dir, kd, n1);
    if err != OK {
      RenameMissing(v, n1, n2);
      return;
    }
    ghost var t1 := Entries(fs);
    err := MoveName(fs, dir, kd, n1, slot1, n2, g1, k);
    ghost var v1, t2 := fs.V(), Entries(fs);
    AcquiredKept(t, t1, t2, g1.ino, k);
    Release(fs, g1, k, t, old(fs.vnodes));
    ReleaseSame(v1, fs.V(), g1.ino, IsLoaded(t, g1.ino));
    RenameReleased(v, v1, fs.V(), n1, n2, err);
  }
}
