/** The directory operations of a volume: lookup, creat, link, remove and rename (kern/fs/sfs/sfs_vnode.c). */
module SfsNames {
  import opened SfsDisk
  import opened SfsBlocks
  import opened Sfs
  import opened SfsIo
  import opened SfsDir
  import opened SfsDirOps
  import opened SfsVnodes
  import opened SfsReclaim

  /** What the directory says: the inode of every name. */
  ghost function Names(v: Vol): map<Name, nat>
    requires HasRoot(v)
  {
    NameMap(Slots(v))
  }

  /** File j has the same bytes in both. */
  ghost predicate SameFile(v: Vol, v': Vol, j: nat)
  {
    && j in v.inodes && j in v'.inodes && v'.inodes[j].size == v.inodes[j].size
    && forall off: nat :: Raw(v', j, off) == Raw(v, j, off)
  }

  /** Every file of v is still there with its bytes. */
  ghost predicate OldFiles(v: Vol, v': Vol)
  {
    forall j :: j in v.inodes && j != ROOT_LOCATION ==> SameFile(v, v', j)
  }

  /** The files of v and no others, each with its bytes. */
  ghost predicate SameFiles(v: Vol, v': Vol)
  {
    v'.inodes.Keys == v.inodes.Keys && OldFiles(v, v')
  }

  lemma OldFilesTrans(v: Vol, v1: Vol, v2: Vol)
    requires OldFiles(v, v1) && OldFiles(v1, v2)
    ensures OldFiles(v, v2)
  {
    hide Raw;
    forall j | j in v.inodes && j != ROOT_LOCATION
      ensures SameFile(v, v2, j)
    {
      assert SameFile(v, v1, j) && SameFile(v1, v2, j);
    }
  }

  lemma FrameSame(v: Vol, v': Vol)
    requires Frame(v, v', ROOT_LOCATION)
    ensures SameFiles(v, v')
  {
    hide Raw, Blk;
  }

  lemma SyncedSame(v: Vol, v': Vol, ino: nat)
    requires Synced(v, v', ino)
    ensures SameFiles(v, v')
  {
    hide Raw, Blk;
  }

  ghost function Relinked(v: Vol, ino: nat, links: nat): Vol
    requires ino in v.inodes
  {
    v.(inodes := v.inodes[ino := v.inodes[ino].(links := links)])
  }

  /** A link count that is d short, corrected. */
  lemma RelinkOk(v: Vol, ino: nat, d: int)
    requires Inv(v) && DirShape(v) && LinksBut(v, ino, d) && ino in v.inodes && ino != ROOT_LOCATION
    ensures 0 <= v.inodes[ino].links + d < TWO16
    ensures var v' := Relinked(v, ino, v.inodes[ino].links + d);
            Inv(v') && DirShape(v') && Slots(v') == Slots(v) && LinksOk(v') && SameFiles(v, v')
  {
    hide Inv, Raw, Blk, SameFiles, Slots, LinksBut, NoHoles, Distinct, SlotsNameFiles, LinksOk;
    var n := v.inodes[ino].links + d;
    LinkBound(v, ino, d);
    ZeroNotInode(v);
    RelinkedInv(v, ino, n);
    RelinkedFiles(v, ino, n);
    RelinkedDir(v, ino, n);
    RelinkedLinks(v, ino, d);
  }

  lemma RelinkedInv(v: Vol, ino: nat, n: nat)
    requires Inv(v) && ino in v.inodes && n < TWO16
    ensures Inv(Relinked(v, ino, n))
  {
    assert InodeOk(v, ino);
    hide Raw, Blk;
    MetaOk(v, ino, v.inodes[ino].(links := n));
  }

  lemma LinkBound(v: Vol, ino: nat, d: int)
    requires DirShape(v) && LinksBut(v, ino, d) && ino in v.inodes && ino != ROOT_LOCATION
    ensures 0 <= v.inodes[ino].links + d < TWO16
  {
    hide Raw, Blk, SlotAt;
    CountBound(Slots(v), ino);
  }

  lemma RelinkedFiles(v: Vol, ino: nat, n: nat)
    requires ino in v.inodes
    ensures SameFiles(v, Relinked(v, ino, n))
    ensures forall j, gb: nat :: j in v.inodes ==> Blk(Relinked(v, ino, n), j, gb) == Blk(v, j, gb)
    ensures forall j, off: nat :: j in v.inodes ==> Raw(Relinked(v, ino, n), j, off) == Raw(v, j, off)
  {
    var v' := Relinked(v, ino, n);
    forall j, off: nat | j in v.inodes ensures Raw(v', j, off) == Raw(v, j, off) {}
    hide Raw, Blk;
  }

  lemma RelinkedDir(v: Vol, ino: nat, n: nat)
    requires DirShape(v) && ino in v.inodes && ino != ROOT_LOCATION
    ensures DirShape(Relinked(v, ino, n)) && Slots(Relinked(v, ino, n)) == Slots(v)
  {
    var v' := Relinked(v, ino, n);
    RelinkedFiles(v, ino, n);
    hide Raw, Blk;
    forall s: nat
      ensures SlotAt(v', s) == SlotAt(v, s)
    {
      assert RawBytes(v', ROOT_LOCATION, DIRENT * s, DIRENT) == RawBytes(v, ROOT_LOCATION, DIRENT * s, DIRENT);
    }
    assert Slots(v') == Slots(v);
    hide SlotAt;
  }

  lemma RelinkedLinks(v: Vol, ino: nat, d: int)
    requires HasRoot(v) && LinksBut(v, ino, d) && ino in v.inodes && ino != ROOT_LOCATION
             && v.inodes[ino].links + d >= 0
    requires NOINO !in v.inodes
    requires var v' := Relinked(v, ino, v.inodes[ino].links + d); Slots(v') == Slots(v)
    ensures LinksOk(Relinked(v, ino, v.inodes[ino].links + d))
  {
    hide Slots, Count;
  }

  // ----- directory steps on the table -----

  /** All of Good but the link counts. */
  ghost predicate Fair(fs: Volume)
    reads fs, fs.freemap, fs.freemap.v, fs.vnodes
  {
    fs.Ok() && TableInv(Entries(fs), fs.V(), NOINO) && DirShape(fs.V())
  }

  /** dir is the root directory's vnode. */
  ghost predicate IsRoot(fs: Volume, dir: Vnode, kd: nat)
    reads fs
  {
    At(fs, dir, kd) && dir.ino == ROOT_LOCATION
  }

  /** Only the directory's own table entry may have changed, and not its references. */
  ghost predicate DirTouched(t: seq<Loaded>, u: seq<Loaded>, kd: nat)
  {
    |u| == |t| && kd < |t| && u == t[kd := u[kd]] && u[kd].refs == t[kd].refs && u[kd].ino == t[kd].ino
  }

  lemma EntryCurrent(fs: Volume, k: nat)
    requires Fair(fs) && k < |fs.vnodes|
    ensures fs.Current(fs.vnodes[k]) && fs.vnodes[k].refcount >= 1
  {
    hide Inv, DirShape;
    assert EntryOk(Entries(fs)[k], fs.V());
  }

  method FindIn(fs: Volume, dir: Vnode, ghost kd: nat, name: Name) returns (err: Errno, ino: nat, slot: nat)
    requires Fair(fs) && IsRoot(fs, dir, kd)
    modifies fs`disk, fs`own, fs`inodes, fs.freemap.v, dir`inode, dir`dirty
    ensures Fair(fs) && fs.V() == old(fs.V()) && DirTouched(old(Entries(fs)), Entries(fs), kd)
    ensures err == OK <==> name in Names(fs.V())
    ensures err == OK ==> slot < SlotCount(fs.V()) && Used(Slots(fs.V())[slot]) && Slots(fs.V())[slot].name == name
    ensures err == OK ==> ino == Slots(fs.V())[slot].ino == Names(fs.V())[name]
    ensures err == OK || err == ENOENT
  {
    hide Inv, DirShape, TableInv, Frame, SlotAt, NameMap;
    ghost var t, v := Entries(fs), fs.V();
    EntryCurrent(fs, kd);
    TableDistinct(fs, kd);
    FrameRefl(v, ROOT_LOCATION);
    var empty;
    err, ino, slot, empty := FindName(fs, dir, name);
    TableFramed(t, Entries(fs), kd, v, fs.V());
  }

  method LinkIn(fs: Volume, dir: Vnode, ghost kd: nat, name: Name, ino: nat) returns (err: Errno, slot: nat)
    requires Fair(fs) && IsRoot(fs, dir, kd) && NoZeros(name) && ino in fs.inodes && ino != ROOT_LOCATION
    modifies fs`disk, fs`own, fs`inodes, fs.freemap.v, dir`inode, dir`dirty
    ensures Fair(fs) && DirTouched(old(Entries(fs)), Entries(fs), kd)
    ensures LinkSpec(old(fs.V()), fs.V(), name, ino, err, slot)
  {
    hide Inv, DirShape, TableInv, Frame, LinkSpec;
    ghost var t, v := Entries(fs), fs.V();
    EntryCurrent(fs, kd);
    TableDistinct(fs, kd);
    err, slot := DirLink(fs, dir, name, ino);
    LinkFrame(v, fs.V(), name, ino, err, slot);
    TableFramed(t, Entries(fs), kd, v, fs.V());
  }

  lemma LinkFrame(v: Vol, v': Vol, name: Name, ino: nat, err: Errno, slot: nat)
    requires LinkSpec(v, v', name, ino, err, slot)
    ensures Frame(v, v', ROOT_LOCATION)
  {
  }

  method UnlinkIn(fs: Volume, dir: Vnode, ghost kd: nat, slot: nat) returns (err: Errno)
    requires Fair(fs) && IsRoot(fs, dir, kd) && slot < SlotCount(fs.V()) && Used(Slots(fs.V())[slot])
    modifies fs`disk, fs`own, fs`inodes, fs.freemap.v, dir`inode, dir`dirty
    ensures err == OK && Fair(fs) && DirTouched(old(Entries(fs)), Entries(fs), kd)
    ensures Unlinked(old(fs.V()), fs.V(), Slots(old(fs.V()))[slot].name, Slots(old(fs.V()))[slot].ino)
  {
    hide Inv, DirShape, TableInv, Frame, SlotAt, NameMap, LinksOk, LinksBut;
    ghost var t, v := Entries(fs), fs.V();
    EntryCurrent(fs, kd);
    TableDistinct(fs, kd);
    err := DirUnlink(fs, dir, slot);
    TableFramed(t, Entries(fs), kd, v, fs.V());
  }

  /** A link count changes in memory and the inode is marked dirty. */
  method SetLinks(fs: Volume, sv: Vnode, ghost k: nat, links: nat, ghost d: int)
    requires Fair(fs) && At(fs, sv, k) && sv.ino != ROOT_LOCATION && sv.ino in fs.inodes
    requires LinksBut(fs.V(), sv.ino, d) && links == sv.inode.links + d
    modifies fs`inodes, sv`inode, sv`dirty
    ensures Good(fs) && Slots(fs.V()) == old(Slots(fs.V())) && SameFiles(old(fs.V()), fs.V())
    ensures fs.V() == Relinked(old(fs.V()), sv.ino, links)
    ensures Entries(fs) == old(Entries(fs))[k := old(Entries(fs))[k].(inode := sv.inode, dirty := true)]
    ensures sv.inode.links == links
  {
    hide Inv, DirShape, TableInv, LinksOk, LinksBut, Slots, SameFiles, Raw;
    ghost var t, v := Entries(fs), fs.V();
    TableDistinct(fs, k);
    RelinkOk(v, sv.ino, d);
    sv.inode := sv.inode.(links := links);
    sv.dirty := true;
    fs.inodes := fs.inodes[sv.ino := sv.inode];
    SameExcept(t, Entries(fs), k);
    TableUpdate(t, k, Entries(fs)[k], v, fs.V());
  }

  // ----- references held in the table -----

  /** The same vnodes, in the same places, held by as many references. */
  ghost predicate KeepsRefs(t: seq<Loaded>, u: seq<Loaded>)
  {
    |u| == |t| && forall l :: 0 <= l < |t| ==> u[l].ino == t[l].ino && u[l].refs == t[l].refs
  }

  /** One more reference, on the vnode of ino at place k, which is new if ino was not loaded. */
  ghost predicate Acquired(t: seq<Loaded>, u: seq<Loaded>, ino: nat, k: nat)
  {
    && |u| == (if IsLoaded(t, ino) then |t| else |t| + 1) && k < |u|
    && (if IsLoaded(t, ino) then k < |t| && t[k].ino == ino else k == |t| && u[k].ino == ino && u[k].refs == 1)
    && forall l :: 0 <= l < |t| ==> u[l].ino == t[l].ino && u[l].refs == t[l].refs + if l == k then 1 else 0
  }

  lemma AcquiredKept(t: seq<Loaded>, u: seq<Loaded>, w: seq<Loaded>, ino: nat, k: nat)
    requires (KeepsRefs(t, u) && Acquired(u, w, ino, k)) || (Acquired(t, u, ino, k) && KeepsRefs(u, w))
    ensures Acquired(t, w, ino, k)
  {
    if KeepsRefs(t, u) {
      if IsLoaded(t, ino) {
        var l :| 0 <= l < |t| && t[l].ino == ino;
        assert u[l].ino == ino;
      }
      if IsLoaded(u, ino) {
        var l :| 0 <= l < |u| && u[l].ino == ino;
        assert t[l].ino == ino;
      }
    }
  }

  lemma Released(t: seq<Loaded>, u: seq<Loaded>, x: seq<Loaded>, ino: nat, k: nat)
    requires Acquired(t, u, ino, k) && k < |u| && forall l :: 0 <= l < |t| ==> t[l].refs >= 1
    requires u[k].refs > 1 ==> x == u[k := u[k].(refs := u[k].refs - 1)]
    requires u[k].refs <= 1 ==> x == Remove(u, k)
    ensures KeepsRefs(t, x)
    ensures u[k].refs <= 1 <==> !IsLoaded(t, ino)
    ensures if IsLoaded(t, ino) then |u| == |t| else |u| == |t| + 1 && k == |t|
  {
  }

  lemma TableRefs(t: seq<Loaded>, v: Vol)
    requires TableInv(t, v, NOINO)
    ensures forall l :: 0 <= l < |t| ==> t[l].refs >= 1
  {
    forall l | 0 <= l < |t| ensures t[l].refs >= 1 { assert EntryOk(t[l], v); }
  }

  // ----- lookup -----

  /** A name's inode is a loadable file with a link. */
  lemma NamedFile(v: Vol, slot: nat)
    requires Inv(v) && DirShape(v) && LinksOk(v) && slot < SlotCount(v) && Used(Slots(v)[slot])
    ensures var ino := Slots(v)[slot].ino;
            ino in v.inodes && ino != ROOT_LOCATION && v.inodes[ino].kind == TYPE_FILE && v.inodes[ino].links > 0
  {
    CountUsed(Slots(v), Slots(v)[slot].ino);
    hide Raw, Blk, SlotAt, Count;
  }

  /**
   sfs_lookonce: the vnode the name maps to, with one more reference. The panic
   on a link count of zero cannot happen.
   */
  method LookOnce(fs: Volume, dir: Vnode, ghost kd: nat, name: Name)
      returns (err: Errno, sv: Vnode?, ghost k: nat, slot: nat)
    requires Good(fs) && IsRoot(fs, dir, kd)
    modifies fs`disk, fs`own, fs`inodes, fs`vnodes, fs.freemap.v, dir`inode, dir`dirty, fs.vnodes`refcount
    ensures Good(fs) && IsRoot(fs, dir, kd) && fs.V() == old(fs.V())
    ensures err == OK <==> name in Names(fs.V())
    ensures err == OK || (err == ENOENT && KeepsRefs(old(Entries(fs)), Entries(fs)) && fs.vnodes == old(fs.vnodes))
    ensures err == OK ==> sv != null && At(fs, sv, k) && sv.ino == Names(fs.V())[name] && sv.ino != ROOT_LOCATION
    ensures err == OK ==> Acquired(old(Entries(fs)), Entries(fs), sv.ino, k)
    ensures err == OK ==> old(fs.vnodes) <= fs.vnodes && (sv in old(fs.vnodes) || fresh(sv))
    ensures err == OK ==>
              slot < SlotCount(fs.V()) && Slots(fs.V())[slot] == Dirent(sv.ino, name) && Used(Slots(fs.V())[slot])
    ensures err == OK ==> sv.inode.links > 0
  {
    hide Inv, DirShape, LinksOk, TableInv, SlotAt, NameMap, Acquired, KeepsRefs;
    ghost var t := Entries(fs);
    var ino;
    err, ino, slot := FindIn(fs, dir, kd, name);
    ghost var t1 := Entries(fs);
    TouchedKeeps(t, t1, kd);
    if err != OK {
      sv, k := null, 0;
      return;
    }
    NamedFile(fs.V(), slot);
    sv, k := LoadVnode(fs, ino, TYPE_INVAL);
    LoadAcquires(t1, Entries(fs), ino, k, fs.inodes[ino]);
    AcquiredKept(t, t1, Entries(fs), ino, k);
    EntryCurrent(fs, k);
    assert sv.inode.links != 0;
  }

  lemma TouchedKeeps(t: seq<Loaded>, u: seq<Loaded>, kd: nat)
    requires DirTouched(t, u, kd)
    ensures KeepsRefs(t, u)
  {
  }

  lemma LoadAcquires(t: seq<Loaded>, u: seq<Loaded>, ino: nat, k: nat, inode: Inode)
    requires k < |u| && u[k].ino == ino
    requires IsLoaded(t, ino) ==> k < |t| && u == t[k := t[k].(refs := t[k].refs + 1)]
    requires !IsLoaded(t, ino) ==> k == |t| && exists d :: u == t + [Loaded(ino, inode, d, 1)]
    ensures Acquired(t, u, ino, k)
  {
  }

  /** Letting go of the reference a lookup took, which leaves the table as it was before the lookup. */
  method Release(fs: Volume, sv: Vnode, ghost k: nat, ghost t: seq<Loaded>, ghost vs: seq<Vnode>)
    requires Good(fs) && At(fs, sv, k) && Acquired(t, Entries(fs), sv.ino, k) && forall l :: 0 <= l < |t| ==>
               t[l].refs >= 1
    requires vs <= fs.vnodes && |vs| == |t|
    modifies fs`disk, fs`own, fs`inodes, fs`vnodes, fs.freemap.v, sv`inode, sv`dirty, sv`refcount
    ensures Good(fs) && fs.vnodes == vs && KeepsRefs(t, Entries(fs)) && sv.ino in old(fs.inodes)
    ensures Slots(fs.V()) == Slots(old(fs.V()))
    ensures IsLoaded(t, sv.ino) ==> fs.V() == old(fs.V())
    ensures !IsLoaded(t, sv.ino) ==> Reclaimed(old(fs.V()), fs.V(), sv.ino)
  {
    hide Inv, DirShape, LinksOk, TableInv, Slots, KeepsRefs, Acquired, Reclaimed, IsLoaded, Remove;
    ghost var u := Entries(fs);
    Decref(fs, sv, k);
    Released(t, u, Entries(fs), sv.ino, k);
  }
}
