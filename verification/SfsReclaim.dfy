/** Dropping references, reclaiming vnodes and erasing unlinked files (kern/fs/sfs/sfs_vnode.c). */
module SfsReclaim {
  import opened SfsDisk
  import opened SfsBlocks
  import opened Sfs
  import opened SfsIo
  import opened SfsDir
  import opened SfsVnodes
  import T = SfsTruncate

  /** A file that no slot names comes or goes without the directory noticing. */
  lemma DirOthers(v: Vol, v': Vol, x: nat)
    requires DirShape(v) && LinksOk(v) && Others(v, v', x) && x != ROOT_LOCATION
    requires Count(Slots(v), x) == 0
    requires x in v'.inodes ==> v'.inodes[x].kind == TYPE_FILE && v'.inodes[x].links == 0
    ensures DirShape(v') && Slots(v') == Slots(v) && LinksOk(v')
  {
    hide Raw, Blk, SlotAt, Count;
    DirOthersSlots(v, v', x);
    CountUsed(Slots(v), x);
  }

  lemma DirOthersSlots(v: Vol, v': Vol, x: nat)
    requires DirShape(v) && Others(v, v', x) && x != ROOT_LOCATION
    ensures HasRoot(v') && Slots(v') == Slots(v) && NoHoles(v')
  {
    hide Raw, BlockOf;
    forall s: nat
      ensures SlotAt(v', s) == SlotAt(v, s)
    {
      assert RawBytes(v', ROOT_LOCATION, DIRENT * s, DIRENT) == RawBytes(v, ROOT_LOCATION, DIRENT * s, DIRENT);
    }
    assert Slots(v') == Slots(v);
  }

  /** Syncing an inode changes nothing the directory depends on. */
  lemma DirSynced(v: Vol, v': Vol, ino: nat)
    requires DirShape(v) && LinksOk(v) && Synced(v, v', ino)
    ensures DirShape(v') && Slots(v') == Slots(v) && LinksOk(v')
  {
    hide Raw, BlockOf;
    forall s: nat
      ensures SlotAt(v', s) == SlotAt(v, s)
    {
      assert RawBytes(v', ROOT_LOCATION, DIRENT * s, DIRENT) == RawBytes(v, ROOT_LOCATION, DIRENT * s, DIRENT);
    }
    assert Slots(v') == Slots(v);
    hide Blk, SlotAt, Count;
  }

  /** The blocks of a file: its inode, its indirect block and its data. */
  predicate Belongs(o: Owner, b: nat, ino: nat)
  {
    match o
    case Reserved => false
    case InodeBlock => b == ino
    case Indirect(i) => i == ino
    case Data(i, _) => i == ino
  }

  /** File ino is gone: exactly its blocks are free again, and every other file is as it was. */
  ghost predicate Erased(v: Vol, v': Vol, ino: nat)
  {
    && Inv(v') && Others(v, v', ino) && ino !in v'.inodes
    && forall b :: b in v'.own <==> b in v.own && !Belongs(v.own[b], b, ino)
  }

  lemma FrameOthers(v: Vol, v': Vol, ino: nat)
    requires Frame(v, v', ino)
    ensures Others(v, v', ino)
  {
    hide Raw, Blk;
  }

  lemma SyncedOthers(v: Vol, v': Vol, ino: nat)
    requires Synced(v, v', ino)
    ensures Others(v, v', ino)
  {
    hide Raw, Blk;
  }

  lemma OthersTrans(v: Vol, v1: Vol, v2: Vol, x: nat)
    requires Others(v, v1, x) && Others(v1, v2, x)
    ensures Others(v, v2, x)
  {
    hide Raw, Blk;
  }

  lemma EraseDroppable(v: Vol, v1: Vol, v2: Vol, ino: nat)
    requires Inv(v) && T.Truncated(v, v1, ino, 0) && Synced(v1, v2, ino) && Inv(v2)
    requires ino in v2.inodes && ino != ROOT_LOCATION
    ensures ino < |v2.freemap| && Droppable(v2, ino)
    ensures forall b :: b in v2.own <==> b in v.own && !(b != ino && Belongs(v.own[b], b, ino)) && b in v.own
  {
    hide Raw, BlockOf, Inv, Frame;
    LoadFacts(v2, ino);
    NothingMapped(v, v1, ino);
    forall b | b in v.own
      ensures b in v2.own <==> !(b != ino && Belongs(v.own[b], b, ino))
    {
      EraseKeeps(v, v1, ino, b);
    }
  }

  lemma NothingMapped(v: Vol, v1: Vol, ino: nat)
    requires Inv(v) && T.Truncated(v, v1, ino, 0)
    ensures ino in v.inodes && ino in v1.inodes && v1.inodes[ino].indirect == 0
    ensures forall fb: nat :: fb < MAXFILEBLOCKS ==> Blk(v1, ino, fb) == 0
  {
    hide Raw, BlockOf, Inv;
  }

  /** Of the blocks of a file only its inode is left. */
  lemma EraseKeeps(v: Vol, v1: Vol, ino: nat, b: nat)
    requires Inv(v) && T.Truncated(v, v1, ino, 0) && ino in v.inodes && b in v.own
    ensures b in v1.own <==> !(b != ino && Belongs(v.own[b], b, ino))
  {
    hide Raw, BlockOf, Frame;
    assert InodeOk(v, ino) && OwnOk(v, b);
  }

  /** Truncating to nothing, syncing and freeing the inode erases the file. */
  lemma EraseOk(v: Vol, v1: Vol, v2: Vol, ino: nat)
    requires Inv(v) && T.Truncated(v, v1, ino, 0) && Synced(v1, v2, ino) && Inv(v2)
    requires ino in v2.inodes && ino != ROOT_LOCATION
    ensures ino < |v2.freemap| && v2.freemap[ino] && Erased(v, DropInode(v2, ino), ino)
  {
    EraseDroppable(v, v1, v2, ino);
    DropInodeOk(v2, ino);
    FrameOthers(v, v1, ino);
    SyncedOthers(v1, v2, ino);
    OthersTrans(v, v1, v2, ino);
    OthersTrans(v, v2, DropInode(v2, ino), ino);
    assert InodeOk(v, ino);
    hide Raw, BlockOf, Blk, Others, Inv, Droppable, T.Truncated, Synced;
  }

  /** A file's own bytes and map may change under a loaded vnode, if it is marked dirty when its inode does. */
  lemma TableFramed(t: seq<Loaded>, u: seq<Loaded>, k: nat, v: Vol, v': Vol)
    requires TableInv(t, v, NOINO) && k < |t| && |u| == |t| && u[k].ino == t[k].ino && Frame(v, v', t[k].ino)
    requires forall l :: 0 <= l < |t| && l != k ==> u[l] == t[l]
    requires u[k].inode == v'.inodes[u[k].ino] && u[k].refs == t[k].refs
    requires !u[k].dirty ==> !t[k].dirty && u[k].inode == t[k].inode
    ensures u == t[k := u[k]] && TableInv(u, v', NOINO)
  {
    hide DecodeInode, Blk, Raw;
    assert EntryOk(t[k], v);
    SameExcept(t, u, k);
    TableUpdate(t, k, u[k], v, v');
  }

  /** Different places of the table hold different vnodes. */
  lemma TableDistinct(fs: Volume, k: nat)
    requires fs.freemap.Valid() && TableInv(Entries(fs), fs.V(), NOINO) && k < |fs.vnodes|
    ensures EntryOk(Entries(fs)[k], fs.V())
    ensures forall l :: 0 <= l < |fs.vnodes| && l != k ==> fs.vnodes[l] != fs.vnodes[k]
  {
    hide EntryOk, OnDisk;
    forall l | 0 <= l < |fs.vnodes| && l != k
      ensures fs.vnodes[l] != fs.vnodes[k]
    {
      assert Entries(fs)[l].ino != Entries(fs)[k].ino;
    }
  }

  /** VOP_TRUNCATE(v, 0) on a vnode of the table. */
  method TruncateAll(fs: Volume, sv: Vnode, ghost k: nat)
    requires fs.Ok() && At(fs, sv, k) && TableInv(Entries(fs), fs.V(), NOINO)
    modifies fs`disk, fs`own, fs`inodes, fs.freemap.v, sv`inode, sv`dirty
    ensures fs.Ok() && TableInv(Entries(fs), fs.V(), NOINO)
    ensures T.Truncated(old(fs.V()), fs.V(), sv.ino, 0)
    ensures Entries(fs) == old(Entries(fs))[k := Entries(fs)[k]] && Entries(fs)[k].refs == old(Entries(fs))[k].refs
  {
    hide Inv, Frame, TableInv;
    ghost var t, v := Entries(fs), fs.V();
    TableDistinct(fs, k);
    T.Truncate(fs, sv, 0);
    TableFramed(t, Entries(fs), k, v, fs.V());
  }

  /** The search of sfs_reclaim for the vnode's place in the table. */
  method PlaceOf(fs: Volume, sv: Vnode) returns (i: nat)
    requires sv in fs.vnodes
    ensures i < |fs.vnodes| && fs.vnodes[i] == sv && sv !in fs.vnodes[..i]
  {
    i := 0;
    while fs.vnodes[i] != sv
      invariant i < |fs.vnodes| && sv !in fs.vnodes[..i]
      decreases |fs.vnodes| - i
    {
      i := i + 1;
    }
  }

  method Forget(fs: Volume, sv: Vnode, ghost k: nat)
    requires At(fs, sv, k) && forall l :: 0 <= l < |fs.vnodes| && l != k ==> fs.vnodes[l] != sv
    modifies fs`vnodes
    ensures Entries(fs) == Remove(old(Entries(fs)), k)
    ensures fs.vnodes == old(fs.vnodes)[..k] + old(fs.vnodes)[k + 1..]
  {
    ghost var t := Entries(fs);
    var ix := PlaceOf(fs, sv);
    assert ix == k;
    fs.vnodes := fs.vnodes[..ix] + fs.vnodes[ix + 1..];
    assert Entries(fs) == Remove(t, k);
  }

  /** sfs_bfree of the inode's own block. */
  method DiscardInode(fs: Volume, ino: nat)
    requires fs.Ok() && ino < |fs.V().freemap| && fs.V().freemap[ino]
    modifies fs`own, fs`inodes, fs.freemap.v
    ensures fs.freemap.Valid() && fs.V() == DropInode(old(fs.V()), ino)
  {
    hide Inv;
    fs.freemap.Unmark(ino);
    fs.own := fs.own - {ino};
    fs.inodes := fs.inodes - {ino};
  }

  /** What reclaiming leaves of the volume. */
  ghost predicate Reclaimed(v: Vol, v': Vol, ino: nat)
    requires ino in v.inodes
  {
    if v.inodes[ino].links == 0 then Erased(v, v', ino) else Synced(v, v', ino)
  }

  lemma ReclaimKept(t: seq<Loaded>, k: nat, v: Vol, v': Vol)
    requires TableInv(t, v, NOINO) && k < |t| && Synced(v, v', t[k].ino) && EntryOk(t[k], v)
    requires t[k].ino != NOINO && t[k].inode.links > 0 && t[k].ino < |v'.disk|
             && DecodeInode(v'.disk[t[k].ino]) == t[k].inode
    ensures TableInv(Remove(t, k), v', NOINO)
  {
    hide Blk, Raw, DecodeInode, TableInv;
    TableRemove(t, k, v, v');
  }

  lemma ReclaimErased(t: seq<Loaded>, k: nat, v: Vol, v': Vol)
    requires TableInv(t, v, NOINO) && k < |t| && Erased(v, v', t[k].ino)
    ensures TableInv(Remove(t, k), v', NOINO)
  {
    hide Inv, Blk, Raw, TableInv;
    TableRemove(t, k, v, v');
  }

  lemma RemoveUpdated(t: seq<Loaded>, k: nat, e: Loaded)
    requires k < |t|
    ensures Remove(t[k := e], k) == Remove(t, k)
  {
  }

  /** The steps of sfs_reclaim on a file that has no links left. */
  method Erase(fs: Volume, sv: Vnode, ghost k: nat)
    requires Good(fs) && At(fs, sv, k) && sv.inode.links == 0
    modifies fs`disk, fs`own, fs`inodes, fs.freemap.v, sv`inode, sv`dirty
    ensures fs.Ok() && DirShape(fs.V()) && LinksOk(fs.V()) && Slots(fs.V()) == old(Slots(fs.V()))
    ensures TableInv(Remove(old(Entries(fs)), k), fs.V(), NOINO)
    ensures Remove(Entries(fs), k) == Remove(old(Entries(fs)), k)
    ensures sv.ino in old(fs.inodes) && Erased(old(fs.V()), fs.V(), sv.ino)
  {
    hide Inv, TableInv, DirShape, LinksOk, T.Truncated, Synced, Erased, Slots, DecodeInode, Remove, DropInode;
    ghost var t, v := Entries(fs), fs.V();
    TableDistinct(fs, k);
    TruncateAll(fs, sv, k);
    ghost var v1, t1 := fs.V(), Entries(fs);
    RemoveUpdated(t, k, t1[k]);
    SyncInode(fs, sv, k);
    RemoveUpdated(t1, k, Entries(fs)[k]);
    ReclaimErase(v, v1, fs.V(), sv.ino);
    ghost var t2 := Entries(fs);
    DiscardInode(fs, sv.ino);
    assert Entries(fs) == t2;
    ReclaimErased(t, k, v, fs.V());
  }

  /**
   sfs_reclaim for the last reference. A file that still has links is written
   back; one that has none is erased: exactly its blocks become free.
   */
  method Reclaim(fs: Volume, sv: Vnode, ghost k: nat)
    requires Good(fs) && At(fs, sv, k)
    modifies fs`disk, fs`own, fs`inodes, fs`vnodes, fs.freemap.v, sv`inode, sv`dirty
    ensures Good(fs) && Entries(fs) == Remove(old(Entries(fs)), k)
    ensures fs.vnodes == old(fs.vnodes)[..k] + old(fs.vnodes)[k + 1..]
    ensures sv.ino in old(fs.inodes) && Reclaimed(old(fs.V()), fs.V(), sv.ino)
    ensures Slots(fs.V()) == old(Slots(fs.V()))
  {
    hide Inv, TableInv, DirShape, LinksOk, Synced, Erased, Slots, DecodeInode, Remove;
    ghost var t, v := Entries(fs), fs.V();
    TableDistinct(fs, k);
    LoadFacts(v, sv.ino);
    if sv.inode.links == 0 {
      Erase(fs, sv, k);
    } else {
      SyncInode(fs, sv, k);
      RemoveUpdated(t, k, Entries(fs)[k]);
      DirSynced(v, fs.V(), sv.ino);
      LoadFacts(fs.V(), sv.ino);
      ReclaimKept(t, k, v, fs.V());
    }
    Forget(fs, sv, k);
  }

  lemma ReclaimErase(v: Vol, v1: Vol, v2: Vol, ino: nat)
    requires Inv(v) && DirShape(v) && LinksOk(v) && T.Truncated(v, v1, ino, 0) && Synced(v1, v2, ino) && Inv(v2)
    requires ino in v.inodes && v.inodes[ino].links == 0
    ensures ino < |v2.freemap| && v2.freemap[ino]
    ensures var v' := DropInode(v2, ino);
            Inv(v') && Erased(v, v', ino) && DirShape(v') && LinksOk(v') && Slots(v') == Slots(v)
  {
    UnlinkedNotRoot(v, ino);
    EraseKeys(v, v1, v2, ino);
    EraseOk(v, v1, v2, ino);
    ErasedFacts(v, DropInode(v2, ino), ino);
    hide Inv, DirShape, LinksOk, T.Truncated, Synced, Erased, Slots, Others, Count;
    DirOthers(v, DropInode(v2, ino), ino);
  }

  lemma ErasedFacts(v: Vol, v': Vol, ino: nat)
    requires Erased(v, v', ino)
    ensures Inv(v') && Others(v, v', ino) && ino !in v'.inodes
  {
  }

  lemma EraseKeys(v: Vol, v1: Vol, v2: Vol, ino: nat)
    requires T.Truncated(v, v1, ino, 0) && Synced(v1, v2, ino)
    ensures ino in v2.inodes
  {
    hide Raw, Blk, Inv;
  }

  /** The root directory always has a link, and a file without links is in no slot. */
  lemma UnlinkedNotRoot(v: Vol, ino: nat)
    requires DirShape(v) && LinksOk(v) && ino in v.inodes && v.inodes[ino].links == 0
    ensures ino != ROOT_LOCATION && Count(Slots(v), ino) == 0
  {
    hide Slots, Count;
  }

  /** vnode_decref: all but the last reference just go away; the last one reclaims. */
  method Decref(fs: Volume, sv: Vnode, ghost k: nat)
    requires Good(fs) && At(fs, sv, k)
    modifies fs`disk, fs`own, fs`inodes, fs`vnodes, fs.freemap.v, sv`inode, sv`dirty, sv`refcount
    ensures Good(fs) && sv.ino in old(fs.inodes) && Slots(fs.V()) == old(Slots(fs.V()))
    ensures old(sv.refcount) > 1 ==> fs.V() == old(fs.V()) && fs.vnodes == old(fs.vnodes)
    ensures old(sv.refcount) > 1 ==>
              Entries(fs) == old(Entries(fs))[k := old(Entries(fs))[k].(refs := old(sv.refcount) - 1)]
    ensures old(sv.refcount) <= 1 ==>
              && Entries(fs) == Remove(old(Entries(fs)), k) && Reclaimed(old(fs.V()), fs.V(), sv.ino)
              && fs.vnodes == old(fs.vnodes)[..k] + old(fs.vnodes)[k + 1..]
  {
    hide Inv, DirShape, LinksOk, Slots, TableInv, Reclaimed, Remove;
    TableDistinct(fs, k);
    if sv.refcount > 1 {
      ghost var t := Entries(fs);
      sv.refcount := sv.refcount - 1;
      SameExcept(t, Entries(fs), k);
      TableUpdate(t, k, Entries(fs)[k], fs.V(), fs.V());
    } else {
      Reclaim(fs, sv, k);
    }
  }
}
