/**
 Vnodes in memory: loading, syncing, reference counts and reclaiming
 (kern/fs/sfs/sfs_vnode.c, kern/fs/vfs/vnode.c).
 */
module SfsVnodes {
  import opened SfsDisk
  import opened SfsBlocks
  import opened Sfs
  import opened SfsDir
  import T = SfsTruncate

  // ----- blocks that become inodes and stop being so -----

  function NewFile(): (i: Inode)
    ensures InodeFine(i) && forall k :: 0 <= k < NDIRECT ==> i.direct[k] == 0
  {
    Inode(0, TYPE_FILE, 0, seq(NDIRECT, i => 0), 0)
  }

  /** A free block is taken for the inode of a new file. */
  ghost function AddInode(v: Vol, x: nat): Vol
    requires x < |v.freemap| && x < |v.disk|
  {
    v.(freemap := v.freemap[x := true], disk := v.disk[x := ZeroBlock()],
       own := v.own[x := InodeBlock], inodes := v.inodes[x := NewFile()])
  }

  ghost predicate Addable(v: Vol, x: nat)
  {
    Inv(v) && 0 < x < v.nblocks && x < |v.freemap| && !v.freemap[x]
  }

  lemma AddInodeBlk(v: Vol, x: nat, j: nat, gb: nat)
    requires Addable(v, x) && j in AddInode(v, x).inodes
    ensures x !in v.inodes
    ensures Blk(AddInode(v, x), j, gb) == if j == x then 0 else Blk(v, j, gb)
  {
    assert x in v.inodes ==> InodeOk(v, x);
    assert j in v.inodes ==> InodeOk(v, j);
  }

  lemma AddInodeOwn(v: Vol, x: nat, b: nat)
    requires Addable(v, x) && b in AddInode(v, x).own
    ensures OwnOk(AddInode(v, x), b)
  {
    hide BlockOf;
    if b != x {
      assert OwnOk(v, b);
      if v.own[b].Data? {
        AddInodeBlk(v, x, v.own[b].ino, v.own[b].fb);
      }
      assert x in v.inodes ==> InodeOk(v, x);
    }
  }

  lemma AddInodeInode(v: Vol, x: nat, i: nat)
    requires Addable(v, x) && i in AddInode(v, x).inodes
    ensures InodeOk(AddInode(v, x), i)
  {
    hide BlockOf;
    var v' := AddInode(v, x);
    AddInodeBlk(v, x, i, 0);
    assert i != x ==> InodeOk(v, i);
    forall gb: nat | gb < MAXFILEBLOCKS
      ensures Maps(v', i, gb)
    {
      AddInodeBlk(v, x, i, gb);
      assert i != x ==> Maps(v, i, gb);
    }
  }

  /** v' has the files of v, untouched, and nothing else but perhaps file x. */
  ghost predicate Others(v: Vol, v': Vol, x: nat)
  {
    && v'.nblocks == v.nblocks && |v'.disk| == |v.disk|
    && (forall j :: j != x ==> (j in v'.inodes <==> j in v.inodes))
    && (forall j :: j in v.inodes && j != x ==>
          v'.inodes[j] == v.inodes[j] && (j < |v.disk| ==> v'.disk[j] == v.disk[j]))
    && (forall j, gb: nat :: j in v.inodes && j != x ==> Blk(v', j, gb) == Blk(v, j, gb))
    && (forall j, off: nat :: j in v.inodes && j != x ==> Raw(v', j, off) == Raw(v, j, off))
  }

  lemma AddInodeOthers(v: Vol, x: nat)
    requires Addable(v, x)
    ensures Others(v, AddInode(v, x), x)
  {
    hide BlockOf;
    var v' := AddInode(v, x);
    assert x in v.inodes ==> InodeOk(v, x);
    forall j, gb: nat | j in v.inodes && j != x
      ensures Blk(v', j, gb) == Blk(v, j, gb)
    {
      AddInodeBlk(v, x, j, gb);
    }
    forall j, off: nat | j in v.inodes && j != x
      ensures Raw(v', j, off) == Raw(v, j, off)
    {
      assert InodeOk(v, j);
      if off / BLOCKSIZE < MAXFILEBLOCKS {
        assert Maps(v, j, off / BLOCKSIZE);
      } else {
        BeyondMax(v.inodes[j], v.disk, off / BLOCKSIZE);
      }
    }
  }

  lemma AddInodeOk(v: Vol, x: nat)
    requires Addable(v, x)
    ensures x !in v.inodes && Inv(AddInode(v, x)) && Others(v, AddInode(v, x), x)
  {
    hide BlockOf;
    var v' := AddInode(v, x);
    assert x in v.inodes ==> InodeOk(v, x);
    forall b | b in v'.own ensures OwnOk(v', b) { AddInodeOwn(v, x, b); }
    forall i | i in v'.inodes ensures InodeOk(v', i) { AddInodeInode(v, x, i); }
    AddInodeOthers(v, x);
  }

  /** File x, which maps no block, gives its inode block back. */
  ghost function DropInode(v: Vol, x: nat): Vol
    requires x < |v.freemap|
  {
    v.(freemap := v.freemap[x := false], own := v.own - {x}, inodes := v.inodes - {x})
  }

  ghost predicate Droppable(v: Vol, x: nat)
  {
    && Inv(v) && x in v.inodes && x != ROOT_LOCATION && x < |v.freemap|
    && v.inodes[x].indirect == 0
    && forall fb: nat :: fb < MAXFILEBLOCKS ==> Blk(v, x, fb) == 0
  }

  lemma DropInodeOwn(v: Vol, x: nat, b: nat)
    requires Droppable(v, x) && b in DropInode(v, x).own
    ensures OwnOk(DropInode(v, x), b)
  {
    hide BlockOf;
    assert OwnOk(v, b);
  }

  lemma DropInodeInode(v: Vol, x: nat, i: nat)
    requires Droppable(v, x) && i in DropInode(v, x).inodes
    ensures InodeOk(DropInode(v, x), i)
  {
    hide BlockOf;
    var v' := DropInode(v, x);
    assert InodeOk(v, i) && InodeOk(v, x);
    forall gb: nat | gb < MAXFILEBLOCKS
      ensures Maps(v', i, gb)
    {
      assert Maps(v, i, gb);
    }
  }

  lemma DropInodeOk(v: Vol, x: nat)
    requires Droppable(v, x)
    ensures v.freemap[x] && Inv(DropInode(v, x)) && Others(v, DropInode(v, x), x)
  {
    hide BlockOf;
    var v' := DropInode(v, x);
    assert InodeOk(v, x);
    forall b | b in v'.own ensures OwnOk(v', b) { DropInodeOwn(v, x, b); }
    forall i | i in v'.inodes ensures InodeOk(v', i) { DropInodeInode(v, x, i); }
  }

  /** Writing an inode to its own block, or a reserved block, disturbs no file. */
  lemma SyncOk(v: Vol, x: nat, content: Block)
    requires Inv(v) && x in v.own && (v.own[x] == InodeBlock || v.own[x] == Reserved)
    ensures x < |v.disk|
    ensures var v' := v.(disk := v.disk[x := content]);
            Inv(v') && forall j, off: nat :: j in v.inodes ==> Raw(v', j, off) == Raw(v, j, off)
    ensures var v' := v.(disk := v.disk[x := content]);
            forall j, gb: nat :: j in v.inodes ==> Blk(v', j, gb) == Blk(v, j, gb)
  {
    assert OwnOk(v, x);
    var v' := v.(disk := v.disk[x := content]);
    forall j, gb: nat | j in v.inodes
      ensures Blk(v', j, gb) == Blk(v, j, gb)
    {
      assert InodeOk(v, j);
    }
    hide BlockOf;
    forall j | j in v.inodes ensures InodeFine(v.inodes[j]) { assert InodeOk(v, j); }
    PointersKeepInv(v, v');
    forall j, off: nat | j in v.inodes
      ensures Raw(v', j, off) == Raw(v, j, off)
    {
      assert InodeOk(v, j);
      if off / BLOCKSIZE < MAXFILEBLOCKS {
        assert Maps(v, j, off / BLOCKSIZE);
      } else {
        BeyondMax(v.inodes[j], v.disk, off / BLOCKSIZE);
      }
    }
  }

  // ----- the table of loaded vnodes -----

  /** A vnode of the table as a value. */
  datatype Loaded = Loaded(ino: nat, inode: Inode, dirty: bool, refs: nat)

  /** A loaded vnode holds the current inode; unless dirty, so does the disk. */
  ghost predicate EntryOk(e: Loaded, v: Vol)
  {
    && e.ino in v.inodes && v.inodes[e.ino] == e.inode && e.refs >= 1
    && e.ino < |v.disk| && (!e.dirty ==> DecodeInode(v.disk[e.ino]) == e.inode)
  }

  ghost predicate IsLoaded(t: seq<Loaded>, i: nat)
  {
    exists k :: 0 <= k < |t| && t[k].ino == i
  }

  /** An inode that is not loaded is on disk and linked; x is one being created, not yet typed. */
  ghost predicate OnDisk(v: Vol, i: nat, x: nat)
    requires i in v.inodes
  {
    && i < |v.disk|
    && DecodeInode(v.disk[i]) == (if i == x then v.inodes[i].(kind := TYPE_INVAL) else v.inodes[i])
    && (i != x ==> v.inodes[i].links > 0)
  }

  /** At most one vnode per inode, and memory and disk together hold every current inode. */
  ghost predicate TableInv(t: seq<Loaded>, v: Vol, x: nat)
  {
    && (forall k :: 0 <= k < |t| ==> EntryOk(t[k], v))
    && (forall k, l :: 0 <= k < l < |t| ==> t[k].ino != t[l].ino)
    && (forall i :: i in v.inodes ==> IsLoaded(t, i) || OnDisk(v, i, x))
  }

  lemma TableUpdate(t: seq<Loaded>, k: nat, e: Loaded, v: Vol, v': Vol)
    requires TableInv(t, v, NOINO) && k < |t| && e.ino == t[k].ino && EntryOk(e, v')
    requires v'.inodes.Keys == v.inodes.Keys && |v'.disk| == |v.disk|
    requires forall j :: j in v.inodes && j != e.ino ==>
               v'.inodes[j] == v.inodes[j] && (j < |v.disk| ==> v'.disk[j] == v.disk[j])
    ensures TableInv(t[k := e], v', NOINO)
  {
    hide DecodeInode;
    forall i | i in v'.inodes
      ensures IsLoaded(t[k := e], i) || OnDisk(v', i, NOINO)
    {
      if i == e.ino {
        assert t[k := e][k].ino == i;
      } else if IsLoaded(t, i) {
        var l :| 0 <= l < |t| && t[l].ino == i;
        assert t[k := e][l].ino == i;
      } else {
        assert OnDisk(v, i, NOINO);
      }
    }
    var u := t[k := e];
    forall l | 0 <= l < |u|
      ensures EntryOk(u[l], v')
    {
      assert EntryOk(t[l], v);
    }
  }

  lemma TableAppend(t: seq<Loaded>, e: Loaded, v: Vol, x: nat)
    requires TableInv(t, v, x) && EntryOk(e, v) && !IsLoaded(t, e.ino) && (x == NOINO || x == e.ino)
             && NOINO !in v.inodes
    ensures TableInv(t + [e], v, NOINO)
  {
    hide DecodeInode;
    var u := t + [e];
    assert u[|t|] == e;
    forall i | i in v.inodes
      ensures IsLoaded(u, i) || OnDisk(v, i, NOINO)
    {
      if i == e.ino {
        assert u[|t|].ino == i;
      } else if IsLoaded(t, i) {
        var l :| 0 <= l < |t| && t[l].ino == i;
        assert u[l].ino == i;
      } else {
        assert OnDisk(v, i, x);
      }
    }
    assert forall k :: 0 <= k < |t| ==> t[k].ino != e.ino;
  }

  ghost function Remove(t: seq<Loaded>, k: nat): seq<Loaded>
    requires k < |t|
  {
    t[..k] + t[k + 1..]
  }

  /** A vnode leaves the table: its inode is on disk and linked, or it is gone from the volume. */
  lemma TableRemove(t: seq<Loaded>, k: nat, v: Vol, v': Vol)
    requires TableInv(t, v, NOINO) && k < |t| && |v'.disk| == |v.disk|
    requires forall j :: j != t[k].ino ==> (j in v'.inodes <==> j in v.inodes)
    requires forall j :: j in v.inodes && j != t[k].ino ==>
               v'.inodes[j] == v.inodes[j] && (j < |v.disk| ==> v'.disk[j] == v.disk[j])
    requires t[k].ino in v'.inodes ==> OnDisk(v', t[k].ino, NOINO)
    ensures TableInv(Remove(t, k), v', NOINO)
    ensures !IsLoaded(Remove(t, k), t[k].ino)
  {
    hide EntryOk, OnDisk;
    var u := Remove(t, k);
    RemoveKeeps(t, k);
    forall l | 0 <= l < |u|
      ensures EntryOk(u[l], v')
    {
      EntryKept(u[l], v, v', t[k].ino);
    }
    forall i | i in v'.inodes
      ensures IsLoaded(u, i) || OnDisk(v', i, NOINO)
    {
      if i != t[k].ino {
        if IsLoaded(t, i) { RemoveLoaded(t, k, i); }
        OnDiskKept(v, v', i);
      }
    }
  }

  lemma EntryKept(e: Loaded, v: Vol, v': Vol, x: nat)
    requires EntryOk(e, v) && e.ino != x && |v'.disk| == |v.disk|
    requires forall j :: j != x ==> (j in v'.inodes <==> j in v.inodes)
    requires forall j :: j in v.inodes && j != x ==>
               v'.inodes[j] == v.inodes[j] && (j < |v.disk| ==> v'.disk[j] == v.disk[j])
    ensures EntryOk(e, v')
  {
  }

  lemma OnDiskKept(v: Vol, v': Vol, i: nat)
    requires i in v.inodes && i in v'.inodes && |v'.disk| == |v.disk|
    requires v'.inodes[i] == v.inodes[i] && (i < |v.disk| ==> v'.disk[i] == v.disk[i])
    ensures OnDisk(v, i, NOINO) ==> OnDisk(v', i, NOINO)
  {
  }

  lemma RemoveKeeps(t: seq<Loaded>, k: nat)
    requires k < |t| && forall l, m :: 0 <= l < m < |t| ==> t[l].ino != t[m].ino
    ensures var u := Remove(t, k);
            && (forall l :: 0 <= l < |u| ==> u[l] in t && u[l].ino != t[k].ino)
            && (forall l, m :: 0 <= l < m < |u| ==> u[l].ino != u[m].ino)
  {
    var u := Remove(t, k);
    assert forall l :: 0 <= l < |u| ==> u[l] == if l < k then t[l] else t[l + 1];
  }

  lemma RemoveLoaded(t: seq<Loaded>, k: nat, i: nat)
    requires k < |t| && i != t[k].ino && IsLoaded(t, i)
    ensures IsLoaded(Remove(t, k), i)
  {
    var l :| 0 <= l < |t| && t[l].ino == i;
    assert Remove(t, k)[if l < k then l else l - 1].ino == i;
  }

  ghost function Entries(fs: Volume): (t: seq<Loaded>)
    reads fs, fs.vnodes
    ensures |t| == |fs.vnodes|
    ensures forall k :: 0 <= k < |t| ==>
              t[k] == Loaded(fs.vnodes[k].ino, fs.vnodes[k].inode, fs.vnodes[k].dirty, fs.vnodes[k].refcount)
  {
    seq(|fs.vnodes|, k requires 0 <= k < |fs.vnodes| reads fs, fs.vnodes =>
      Loaded(fs.vnodes[k].ino, fs.vnodes[k].inode, fs.vnodes[k].dirty, fs.vnodes[k].refcount))
  }

  /** The whole volume: blocks, vnodes in memory, and the directory with its link counts. */
  ghost predicate Good(fs: Volume)
    reads fs, fs.freemap, fs.freemap.v, fs.vnodes
  {
    && fs.Ok() && TableInv(Entries(fs), fs.V(), NOINO)
    && DirShape(fs.V()) && LinksOk(fs.V())
  }

  /** The place of a vnode in the table. */
  ghost predicate At(fs: Volume, sv: Vnode, k: nat)
    reads fs
  {
    k < |fs.vnodes| && fs.vnodes[k] == sv
  }

  /** sfs_sync_inode. */
  method SyncInode(fs: Volume, sv: Vnode, ghost k: nat)
    requires fs.Ok() && At(fs, sv, k) && TableInv(Entries(fs), fs.V(), NOINO)
    modifies fs`disk, sv`dirty
    ensures fs.Ok() && TableInv(Entries(fs), fs.V(), NOINO)
    ensures !sv.dirty && DecodeInode(fs.disk[sv.ino]) == sv.inode
    ensures Entries(fs) == old(Entries(fs))[k := Entries(fs)[k]]
    ensures Synced(old(fs.V()), fs.V(), sv.ino)
  {
    hide Inv, BlockOf, Raw, DecodeInode, EncodeInode;
    ghost var t, v := Entries(fs), fs.V();
    assert EntryOk(t[k], v);
    SyncFacts(v, sv.ino);
    if sv.dirty {
      SyncOk(v, sv.ino, EncodeInode(sv.inode));
      fs.disk := fs.disk[sv.ino := EncodeInode(sv.inode)];
      sv.dirty := false;
    }
    ghost var u := Entries(fs);
    SameExcept(t, u, k);
    TableUpdate(t, k, u[k], v, fs.V());
  }

  lemma SyncFacts(v: Vol, ino: nat)
    requires Inv(v) && ino in v.inodes
    ensures |v.inodes[ino].direct| == NDIRECT && ino < |v.disk|
    ensures DecodeInode(EncodeInode(v.inodes[ino])) == v.inodes[ino] && ino in v.own && v.own[ino] == InodeBlock
  {
    assert InodeOk(v, ino);
    InodeRoundTrip(v.inodes[ino]);
  }

  lemma SameExcept(t: seq<Loaded>, u: seq<Loaded>, k: nat)
    requires |u| == |t| && k < |t|
    requires forall l :: 0 <= l < |t| && l != k ==> u[l] == t[l]
    ensures u == t[k := u[k]]
  {
  }

  /** Only the block of inode ino may differ, and no file's content does. */
  ghost predicate Synced(v: Vol, v': Vol, ino: nat)
  {
    && v'.nblocks == v.nblocks && v'.inodes == v.inodes && v'.own == v.own && v'.freemap == v.freemap
    && |v'.disk| == |v.disk|
    && (forall j :: 0 <= j < |v.disk| && j != ino ==> v'.disk[j] == v.disk[j])
    && (forall j, gb: nat :: j in v.inodes ==> Blk(v', j, gb) == Blk(v, j, gb))
    && (forall j, off: nat :: j in v.inodes ==> Raw(v', j, off) == Raw(v, j, off))
  }

  /** The search of sfs_loadvnode through the table; every vnode met lies in an allocated block. */
  method FindLoaded(fs: Volume, ino: nat, ghost forcetype: nat) returns (found: bool, i: nat)
    requires fs.Ok() && TableInv(Entries(fs), fs.V(), if forcetype == TYPE_INVAL then NOINO else ino)
    ensures found <==> IsLoaded(Entries(fs), ino)
    ensures found ==> i < |fs.vnodes| && fs.vnodes[i].ino == ino
  {
    hide Inv, DecodeInode, OnDisk;
    i := 0;
    while i < |fs.vnodes|
      invariant 0 <= i <= |fs.vnodes|
      invariant forall l :: 0 <= l < i ==> fs.vnodes[l].ino != ino
    {
      var sv := fs.vnodes[i];
      assert EntryOk(Entries(fs)[i], fs.V());
      LoadFacts(fs.V(), sv.ino);
      var used := fs.freemap.IsSet(sv.ino);
      assert used;
      if sv.ino == ino {
        assert Entries(fs)[i].ino == ino;
        return true, i;
      }
      i := i + 1;
    }
    found := false;
  }

  /** vnode_incref. */
  method Incref(fs: Volume, sv: Vnode, ghost k: nat)
    requires fs.Ok() && At(fs, sv, k) && TableInv(Entries(fs), fs.V(), NOINO)
    modifies sv`refcount
    ensures Entries(fs) == old(Entries(fs))[k := old(Entries(fs))[k].(refs := old(Entries(fs))[k].refs + 1)]
    ensures TableInv(Entries(fs), fs.V(), NOINO)
  {
    hide Inv, DecodeInode, OnDisk;
    ghost var t := Entries(fs);
    assert EntryOk(t[k], fs.V());
    sv.refcount := sv.refcount + 1;
    SameExcept(t, Entries(fs), k);
    TableUpdate(t, k, Entries(fs)[k], fs.V(), fs.V());
  }

  /** The part of sfs_loadvnode that reads an inode in and adds a vnode for it. */
  method NewVnode(fs: Volume, ino: nat, forcetype: nat) returns (sv: Vnode, ghost k: nat)
    requires fs.Ok() && ino in fs.inodes && (fs.inodes[ino].kind == TYPE_FILE || fs.inodes[ino].kind == TYPE_DIR)
    requires TableInv(Entries(fs), fs.V(), if forcetype == TYPE_INVAL then NOINO else ino)
    requires !IsLoaded(Entries(fs), ino)
    requires forcetype != TYPE_INVAL ==> fs.inodes[ino].kind == forcetype
    modifies fs`vnodes
    ensures At(fs, sv, k) && sv.ino == ino && TableInv(Entries(fs), fs.V(), NOINO)
    ensures fresh(sv) && fs.vnodes == old(fs.vnodes) + [sv] && sv.inode == fs.inodes[ino]
    ensures Entries(fs) == old(Entries(fs)) + [Loaded(ino, fs.inodes[ino], forcetype != TYPE_INVAL, 1)]
  {
    hide Inv, DecodeInode, TableInv, IsLoaded;
    ghost var t, v := Entries(fs), fs.V();
    LoadsEntry(t, v, ino, forcetype);
    var inode := DecodeInode(fs.disk[ino]);
    var dirty := false;
    if forcetype != TYPE_INVAL {
      inode, dirty := inode.(kind := forcetype), true;
    }
    sv := new Vnode(ino, inode, dirty);
    k := |fs.vnodes|;
    fs.vnodes := fs.vnodes + [sv];
    assert Entries(fs) == t + [Loaded(ino, inode, dirty, 1)];
  }

  lemma LoadsEntry(t: seq<Loaded>, v: Vol, ino: nat, forcetype: nat)
    requires Inv(v) && ino in v.inodes && TableInv(t, v, if forcetype == TYPE_INVAL then NOINO else ino)
    requires !IsLoaded(t, ino) && (forcetype != TYPE_INVAL ==> v.inodes[ino].kind == forcetype)
    ensures ino < |v.disk|
    ensures v.inodes[ino] == if forcetype == TYPE_INVAL then DecodeInode(v.disk[ino])
                             else DecodeInode(v.disk[ino]).(kind := forcetype)
    ensures TableInv(t + [Loaded(ino, v.inodes[ino], forcetype != TYPE_INVAL, 1)], v, NOINO)
  {
    LoadFacts(v, ino);
    hide Inv, DecodeInode;
    var x := if forcetype == TYPE_INVAL then NOINO else ino;
    assert OnDisk(v, ino, x);
    TableAppend(t, Loaded(ino, v.inodes[ino], forcetype != TYPE_INVAL, 1), v, x);
  }

  /**
   sfs_loadvnode: the vnode of inode ino, with one more reference. It is the one
   in the table if there is one, so no inode is ever loaded twice. A nonzero
   forcetype is given for an inode just created.
   */
  method LoadVnode(fs: Volume, ino: nat, forcetype: nat) returns (sv: Vnode, ghost k: nat)
    requires fs.Ok() && ino in fs.inodes && (fs.inodes[ino].kind == TYPE_FILE || fs.inodes[ino].kind == TYPE_DIR)
    requires TableInv(Entries(fs), fs.V(), if forcetype == TYPE_INVAL then NOINO else ino)
    requires forcetype != TYPE_INVAL ==> !IsLoaded(Entries(fs), ino) && fs.inodes[ino].kind == forcetype
    modifies fs`vnodes, fs.vnodes`refcount
    ensures fs.Ok() && fs.V() == old(fs.V()) && At(fs, sv, k) && sv.ino == ino
    ensures TableInv(Entries(fs), fs.V(), NOINO)
    ensures old(IsLoaded(Entries(fs), ino)) ==>
              fs.vnodes == old(fs.vnodes)
                  && Entries(fs) == old(Entries(fs))[k := old(Entries(fs))[k].(refs := old(Entries(fs))[k].refs + 1)]
    ensures !old(IsLoaded(Entries(fs), ino)) ==>
              fresh(sv) && fs.vnodes == old(fs.vnodes) + [sv] && sv.inode == fs.inodes[ino]
              && Entries(fs) == old(Entries(fs)) + [Loaded(ino, fs.inodes[ino], forcetype != TYPE_INVAL, 1)]
  {
    hide Inv, DecodeInode, TableInv;
    var found, i := FindLoaded(fs, ino, forcetype);
    if found {
      k, sv := i, fs.vnodes[i];
      Incref(fs, sv, k);
    } else {
      sv, k := NewVnode(fs, ino, forcetype);
    }
  }

  lemma LoadFacts(v: Vol, ino: nat)
    requires Inv(v) && ino in v.inodes
    ensures ino < |v.disk| && ino < |v.freemap| && v.freemap[ino] && NOINO !in v.inodes
  {
    assert InodeOk(v, ino);
    assert IsReserved(v.nblocks, NOINO);
  }
}
