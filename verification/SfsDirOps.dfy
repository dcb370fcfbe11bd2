/** Directory I/O: reading, writing, searching and changing slots (kern/fs/sfs/sfs_vnode.c). */
module SfsDirOps {
  import opened SfsDisk
  import opened SfsBlocks
  import opened Sfs
  import opened SfsIo
  import opened SfsDir
  import U = Uio

  /** sv is the vnode of the root directory of a consistent volume. */
  ghost predicate IsDir(fs: Volume, sv: Vnode)
    reads fs, fs.freemap, fs.freemap.v, sv
  {
    fs.Ok() && fs.Current(sv) && sv.ino == ROOT_LOCATION && DirShape(fs.V())
  }

  lemma DirBounds(v: Vol)
    requires DirShape(v)
    ensures DIRENT * SlotCount(v) == v.inodes[ROOT_LOCATION].size <= MAXFILEBLOCKS * BLOCKSIZE
  {
  }

  lemma SlotRead(v: Vol, s: nat, s0: U.State, s1: U.State, err: Errno)
    requires DirShape(v) && s < SlotCount(v)
    requires s0.offset == DIRENT * s && s0.resid == DIRENT && s0.pos == 0 && |s0.data| == DIRENT
    requires ReadSpec(v, ROOT_LOCATION, s0, s1, err)
    ensures err == OK && |s1.data| == DIRENT && DecodeEntry(s1.data) == SlotAt(v, s)
  {
    DirBounds(v);
    hide Raw, DirShape, U.Splice;
    assert Readable(v.inodes[ROOT_LOCATION].size, s0.offset, s0.resid) == DIRENT;
    assert s1.data == s1.data[s0.pos..s1.pos];
  }

  /** sfs_readdir. The short-entry panic cannot happen, and neither can an error. */
  method ReadDir(fs: Volume, sv: Vnode, s: nat) returns (e: Dirent)
    requires IsDir(fs, sv) && s < SlotCount(fs.V())
    modifies fs`disk, fs`own, fs`inodes, fs.freemap.v, sv`inode, sv`dirty
    ensures IsDir(fs, sv) && fs.V() == old(fs.V()) && sv.inode == old(sv.inode)
    ensures !sv.dirty ==> !old(sv.dirty)
    ensures e == Slots(fs.V())[s]
  {
    DirBounds(fs.V());
    hide Inv, DirShape, SlotAt, ReadSpec;
    var ku := new U.Uio(seq<byte>(DIRENT, i => 0), DIRENT * s, false);
    ghost var s0 := ku.S();
    var err := Read(fs, sv, ku);
    SlotRead(fs.V(), s, s0, ku.S(), err);
    e := DecodeEntry(ku.data);
  }

  /** A slot lies inside one block. */
  lemma LastByte(s: nat)
    ensures (DIRENT * s + DIRENT - 1) / BLOCKSIZE == DIRENT * s / BLOCKSIZE
  {
  }

  lemma SlotAligned(s: nat, off: nat)
    requires DIRENT * s <= off < DIRENT * s + DIRENT && (off == DIRENT * s || off % BLOCKSIZE == 0)
    ensures off == DIRENT * s
  {
  }

  lemma SlotMapped(v: Vol, v': Vol, s: nat)
    requires DirShape(v) && Wrote(v, v', ROOT_LOCATION, DIRENT * s, [])
    ensures s < SlotCount(v) ==> Blk(v', ROOT_LOCATION, DIRENT * s / BLOCKSIZE) != 0
  {
    hide Raw, BlockOf, Inv;
    var fb := DIRENT * s / BLOCKSIZE;
    if s < SlotCount(v) {
      assert fb * BLOCKSIZE < v.inodes[ROOT_LOCATION].size;
    }
  }

  /** sfs_writedir. Overwriting an existing slot cannot fail; a failed append changes no slot. */
  method WriteDir(fs: Volume, sv: Vnode, e: Dirent, s: nat) returns (err: Errno)
    requires IsDir(fs, sv) && s <= SlotCount(fs.V()) && Fits(e.name) && IsWord(e.ino)
    modifies fs`disk, fs`own, fs`inodes, fs.freemap.v, sv`inode, sv`dirty
    ensures fs.Ok() && fs.Current(sv)
    ensures !sv.dirty ==> !old(sv.dirty) && sv.inode == old(sv.inode)
    ensures Frame(old(fs.V()), fs.V(), ROOT_LOCATION)
    ensures err == OK ==> PutDone(old(fs.V()), fs.V(), s, e)
    ensures err != OK ==> DirShape(fs.V()) && Slots(fs.V()) == Slots(old(fs.V()))
    ensures err != OK ==> s == SlotCount(old(fs.V())) && (err == EINVAL || (err == ENOSPC && Full(fs.V())))
    ensures err == EINVAL ==> MAXFILEBLOCKS * BLOCKSIZE == DIRENT * s
    ensures err != OK && LinksOk(old(fs.V())) ==> LinksOk(fs.V())
  {
    ghost var v := fs.V();
    DirBounds(v);
    hide Inv, DirShape, SlotAt, Full, WriteSpec, Frame, PutDone, LinksOk;
    var ku := new U.Uio(EncodeEntry(e), DIRENT * s, true);
    ghost var s0 := ku.S();
    err := Write(fs, sv, ku);
    SlotWrite(v, fs.V(), s, e, s0, ku.S(), err);
  }

  lemma SlotWrite(v: Vol, v': Vol, s: nat, e: Dirent, s0: U.State, s1: U.State, err: Errno)
    requires DirShape(v) && s <= SlotCount(v) && Fits(e.name) && IsWord(e.ino)
    requires s0.offset == DIRENT * s && s0.resid == DIRENT && s0.pos == 0 && s0.data == EncodeEntry(e) && s0.write
    requires WriteSpec(v, v', ROOT_LOCATION, s0, s1, err)
    ensures Frame(v, v', ROOT_LOCATION)
    ensures err == OK ==> PutDone(v, v', s, e)
    ensures err != OK ==> DirShape(v') && Slots(v') == Slots(v)
    ensures err != OK ==> s == SlotCount(v) && (err == EINVAL || (err == ENOSPC && Full(v')))
    ensures err == EINVAL ==> MAXFILEBLOCKS * BLOCKSIZE == DIRENT * s
    ensures err != OK && LinksOk(v) ==> LinksOk(v')
  {
    hide Raw, BlockOf, Full, DirShape, SlotAt, U.Splice, Count, Frame, KeepsMapped, Inv;
    DirBounds(v);
    assert s1.data[0..s1.pos] == EncodeEntry(e)[..s1.pos];
    if err == OK {
      assert EncodeEntry(e)[..s1.pos] == EncodeEntry(e);
      LastByte(s);
    } else {
      SlotAligned(s, s1.offset);
      assert EncodeEntry(e)[..s1.pos] == [];
      DirGrown(v, v', DIRENT * s);
      SlotMapped(v, v', s);
    }
  }

  /** The slots below i, seen by a search for name. */
  ghost predicate Searched(t: seq<Dirent>, name: Name, i: nat, found: bool, slot: nat, empty: int)
  {
    && i <= |t|
    && (found ==> slot < i && Used(t[slot]) && t[slot].name == name)
    && (!found ==> forall s :: 0 <= s < i && Used(t[s]) ==> t[s].name != name)
    && -1 <= empty < i && (empty >= 0 ==> !Used(t[empty]))
    && (forall s :: empty < s < i ==> Used(t[s]))
  }

  lemma SearchStart(t: seq<Dirent>, name: Name)
    ensures Searched(t, name, 0, false, 0, -1)
  {
  }

  lemma SearchStep(t: seq<Dirent>, name: Name, i: nat, found: bool, slot: nat, empty: int)
    requires Distinct(t) && i < |t| && Searched(t, name, i, found, slot, empty)
    ensures !Used(t[i]) ==> Searched(t, name, i + 1, found, slot, i)
    ensures Used(t[i]) && t[i].name == name ==> !found && Searched(t, name, i + 1, true, i, empty)
    ensures Used(t[i]) && t[i].name != name ==> Searched(t, name, i + 1, found, slot, empty)
    ensures found ==> slot < i
  {
  }

  lemma SearchDone(t: seq<Dirent>, name: Name, found: bool, slot: nat, empty: int)
    requires Distinct(t) && Searched(t, name, |t|, found, slot, empty)
    ensures found <==> name in NameMap(t)
    ensures found ==> slot < |t| && NameMap(t)[name] == t[slot].ino
  {
    hide NameMap;
    NameMapOf(t, name);
  }

  /** sfs_dir_findname. The directory's own uniqueness check never fires. */
  method FindName(fs: Volume, sv: Vnode, name: Name) returns (err: Errno, ino: nat, slot: nat, empty: int)
    requires IsDir(fs, sv)
    modifies fs`disk, fs`own, fs`inodes, fs.freemap.v, sv`inode, sv`dirty
    ensures IsDir(fs, sv) && fs.V() == old(fs.V()) && sv.inode == old(sv.inode)
    ensures !sv.dirty ==> !old(sv.dirty)
    ensures Searched(Slots(fs.V()), name, SlotCount(fs.V()), err == OK, slot, empty)
    ensures err == OK <==> name in NameMap(Slots(fs.V()))
    ensures err == OK ==> ino == Slots(fs.V())[slot].ino == NameMap(Slots(fs.V()))[name]
    ensures err == OK || err == ENOENT
  {
    ghost var v := fs.V();
    hide Inv, DirShape, SlotAt, Searched, NameMap;
    SearchStart(Slots(v), name);
    var found, i := false, 0;
    ino, slot, empty := 0, 0, -1;
    while i < sv.inode.size / DIRENT
      invariant IsDir(fs, sv) && fs.V() == v && sv.inode == old(sv.inode) && (!sv.dirty ==> !old(sv.dirty))
      invariant 0 <= i <= SlotCount(v) && Searched(Slots(v), name, i, found, slot, empty)
      invariant found ==> ino == Slots(v)[slot].ino
    {
      var tsd := ReadDir(fs, sv, i);
      DirDistinct(v);
      SearchStep(Slots(v), name, i, found, slot, empty);
      if tsd.ino == NOINO {
        empty := i;
      } else if tsd.name == name {
        assert !found;
        found, slot, ino := true, i, tsd.ino;
      }
      i := i + 1;
    }
    DirDistinct(v);
    SearchDone(Slots(v), name, found, slot, empty);
    err := if found then OK else ENOENT;
  }

  lemma DirDistinct(v: Vol)
    requires DirShape(v)
    ensures Distinct(Slots(v))
  {
  }

  /** v' has name mapped to ino, whose link count is then one short. */
  ghost predicate Linked(v: Vol, v': Vol, name: Name, ino: nat)
  {
    && DirShape(v) && DirShape(v') && Frame(v, v', ROOT_LOCATION)
    && NameMap(Slots(v')) == NameMap(Slots(v))[name := ino]
    && (LinksOk(v) ==> LinksBut(v', ino, 1))
  }

  lemma LinkedBy(v: Vol, v': Vol, s: nat, name: Name, ino: nat)
    requires DirShape(v) && PutDone(v, v', s, Dirent(ino, name)) && Frame(v, v', ROOT_LOCATION)
    requires s <= SlotCount(v) && (s < SlotCount(v) ==> !Used(Slots(v)[s]))
    requires ino in v.inodes && ino != ROOT_LOCATION && ino != NOINO && name !in NameMap(Slots(v))
    ensures HasRoot(v) && HasRoot(v') && DirShape(v')
    ensures Linked(v, v', name, ino) && Slots(v') == PutSlot(Slots(v), s, Dirent(ino, name))
  {
    hide Raw, Blk, Inv, SlotAt, NameMap, Frame, PutDone, Count;
    var e := Dirent(ino, name);
    DirDistinct(v);
    Insert(Slots(v), s, e);
    PutShape(v, v', s, e);
    if LinksOk(v) {
      PutInv(v, v', s, e);
      ZeroNotInode(v');
      forall i | i in v'.inodes
        ensures v'.inodes[i].links + (if i == ino then 1 else 0)
                == Count(Slots(v'), i) + if i == ROOT_LOCATION then 1 else 0
      {
        FrameLinks(v, v', i);
        CountPut(Slots(v), s, e, i);
      }
    }
  }

  lemma PutInv(v: Vol, v': Vol, s: nat, e: Dirent)
    requires PutDone(v, v', s, e)
    ensures Inv(v')
  {
  }

  lemma ZeroNotInode(v: Vol)
    requires Inv(v)
    ensures NOINO !in v.inodes
  {
    assert IsReserved(v.nblocks, NOINO);
  }

  /** A change of the directory file leaves every link count. */
  lemma FrameLinks(v: Vol, v': Vol, i: nat)
    requires Frame(v, v', ROOT_LOCATION)
    ensures i in v'.inodes <==> i in v.inodes
    ensures i in v.inodes ==> v'.inodes[i].links == v.inodes[i].links
  {
    hide Raw, Blk;
  }

  /** v' no longer has name, whose inode's link count is then one too many. */
  ghost predicate Unlinked(v: Vol, v': Vol, name: Name, ino: nat)
  {
    && DirShape(v) && DirShape(v') && Frame(v, v', ROOT_LOCATION)
    && NameMap(Slots(v')) == NameMap(Slots(v)) - {name}
    && (LinksOk(v) ==> LinksBut(v', ino, -1)) && SlotCount(v') == SlotCount(v)
  }

  const EMPTY := Dirent(NOINO, [])

  lemma UnlinkedBy(v: Vol, v': Vol, s: nat)
    requires DirShape(v) && PutDone(v, v', s, EMPTY) && Frame(v, v', ROOT_LOCATION)
    requires s < SlotCount(v) && Used(Slots(v)[s])
    ensures Unlinked(v, v', Slots(v)[s].name, Slots(v)[s].ino)
    ensures Slots(v') == Slots(v)[s := EMPTY]
  {
    hide Raw, Blk, Inv, SlotAt, NameMap, Frame, PutDone, Count;
    DirDistinct(v);
    Delete(Slots(v), s, EMPTY);
    PutShape(v, v', s, EMPTY);
    if LinksOk(v) {
      PutInv(v, v', s, EMPTY);
      ZeroNotInode(v');
      forall i | i in v'.inodes
        ensures v'.inodes[i].links - (if i == Slots(v)[s].ino then 1 else 0)
                == Count(Slots(v'), i) + if i == ROOT_LOCATION then 1 else 0
      {
        FrameLinks(v, v', i);
        CountPut(Slots(v), s, EMPTY, i);
      }
    }
  }

  /**
   Entering a new name: it takes the last free slot, and one at the end only if
   there is none. On any error the directory and all its link counts are as before.
   */
  ghost predicate LinkSpec(v: Vol, v': Vol, name: Name, ino: nat, err: Errno, slot: nat)
  {
    && HasRoot(v) && HasRoot(v') && Frame(v, v', ROOT_LOCATION)
    && (err == EEXIST <==> name in NameMap(Slots(v)))
    && (err == ENAMETOOLONG <==> name !in NameMap(Slots(v)) && |name| + 1 > NAMELEN)
    && (err == OK ==>
          && Linked(v, v', name, ino)
          && slot < SlotCount(v') && Slots(v')[slot] == Dirent(ino, name)
          && (forall s :: 0 <= s < SlotCount(v) && s != slot ==> s < SlotCount(v') && Slots(v')[s] == Slots(v)[s])
          && (slot < SlotCount(v) ==> !Used(Slots(v)[slot]))
          && forall s :: slot < s < SlotCount(v) ==> Used(Slots(v)[s]))
    && (err != OK ==> Slots(v') == Slots(v) && (LinksOk(v) ==> LinksOk(v')))
    && (err == OK ==> SlotCount(v') == SlotCount(v) + if AllUsed(Slots(v)) then 1 else 0)
    && (err == EINVAL || err == ENOSPC ==> AllUsed(Slots(v)))
    && (err == EINVAL ==> SlotCount(v) == MAXFILEBLOCKS * BLOCKSIZE / DIRENT)
    && (err == ENOSPC ==> Full(v'))
    && (err == OK || err == EEXIST || err == ENAMETOOLONG || err == EINVAL || err == ENOSPC)
  }

  lemma LinkRefused(v: Vol, name: Name, ino: nat, err: Errno)
    requires HasRoot(v) && (err == EEXIST || err == ENAMETOOLONG)
    requires err == EEXIST <==> name in NameMap(Slots(v))
    requires err == ENAMETOOLONG <==> name !in NameMap(Slots(v)) && |name| + 1 > NAMELEN
    ensures LinkSpec(v, v, name, ino, err, 0)
  {
    hide Frame, NameMap, LinksOk, Full, Slots, Linked, AllUsed;
    FrameRefl(v, ROOT_LOCATION);
  }

  lemma LinkDone(v: Vol, v': Vol, s: nat, name: Name, ino: nat)
    requires DirShape(v) && PutDone(v, v', s, Dirent(ino, name)) && Frame(v, v', ROOT_LOCATION)
    requires s <= SlotCount(v) && (if s < SlotCount(v) then !Used(Slots(v)[s]) else AllUsed(Slots(v)))
    requires forall r :: s < r < SlotCount(v) ==> Used(Slots(v)[r])
    requires ino in v.inodes && ino != ROOT_LOCATION && ino != NOINO && name !in NameMap(Slots(v)) && |name| < NAMELEN
    ensures DirShape(v') && LinkSpec(v, v', name, ino, OK, s)
  {
    hide Frame, NameMap, LinksOk, Full, SlotAt, DirShape, PutDone, Raw, Blk, Linked;
    LinkedBy(v, v', s, name, ino);
  }

  lemma LinkFailed(v: Vol, v': Vol, name: Name, ino: nat, err: Errno, slot: nat)
    requires HasRoot(v) && HasRoot(v') && Frame(v, v', ROOT_LOCATION) && Slots(v') == Slots(v)
    requires name !in NameMap(Slots(v)) && |name| < NAMELEN && (LinksOk(v) ==> LinksOk(v')) && AllUsed(Slots(v))
    requires (err == EINVAL && DIRENT * SlotCount(v) == MAXFILEBLOCKS * BLOCKSIZE) || (err == ENOSPC && Full(v'))
    ensures LinkSpec(v, v', name, ino, err, slot)
  {
    hide Frame, NameMap, LinksOk, Full, SlotAt;
  }

  /** A search that found no free slot has seen that there is none. */
  lemma SearchFree(t: seq<Dirent>, name: Name, empty: int)
    requires Searched(t, name, |t|, false, 0, empty)
    ensures if empty < 0 then AllUsed(t) else empty < |t| && !Used(t[empty])
    ensures forall s :: 0 <= empty < s < |t| ==> Used(t[s])
  {
  }

  /** sfs_dir_link. */
  method DirLink(fs: Volume, sv: Vnode, name: Name, ino: nat) returns (err: Errno, slot: nat)
    requires IsDir(fs, sv) && NoZeros(name) && ino in fs.inodes && ino != ROOT_LOCATION
    modifies fs`disk, fs`own, fs`inodes, fs.freemap.v, sv`inode, sv`dirty
    ensures IsDir(fs, sv)
    ensures !sv.dirty ==> !old(sv.dirty) && sv.inode == old(sv.inode)
    ensures LinkSpec(old(fs.V()), fs.V(), name, ino, err, slot)
  {
    ghost var v := fs.V();
    InodeIsWord(v, ino);
    hide Inv, DirShape, SlotAt, NameMap, Frame, PutDone, Full, LinksOk, LinkSpec;
    var e, _, _, empty := FindName(fs, sv, name);
    if e == OK {
      LinkRefused(v, name, ino, EEXIST);
      return EEXIST, 0;
    }
    if |name| + 1 > NAMELEN {
      LinkRefused(v, name, ino, ENAMETOOLONG);
      return ENAMETOOLONG, 0;
    }
    SearchFree(Slots(v), name, empty);
    slot := if empty < 0 then sv.inode.size / DIRENT else empty;
    err := WriteDir(fs, sv, Dirent(ino, name), slot);
    if err == OK {
      LinkDone(v, fs.V(), slot, name, ino);
    } else {
      LinkFailed(v, fs.V(), name, ino, err, slot);
    }
  }

  lemma FrameRefl(v: Vol, ino: nat)
    requires ino in v.inodes
    ensures Frame(v, v, ino)
  {
  }

  lemma InodeIsWord(v: Vol, ino: nat)
    requires Inv(v) && ino in v.inodes
    ensures IsWord(ino) && ino != NOINO
  {
    assert InodeOk(v, ino);
    ZeroNotInode(v);
  }

  /** sfs_dir_unlink of a used slot, which cannot fail. */
  method DirUnlink(fs: Volume, sv: Vnode, slot: nat) returns (err: Errno)
    requires IsDir(fs, sv) && slot < SlotCount(fs.V()) && Used(Slots(fs.V())[slot])
    modifies fs`disk, fs`own, fs`inodes, fs.freemap.v, sv`inode, sv`dirty
    ensures err == OK && IsDir(fs, sv)
    ensures !sv.dirty ==> !old(sv.dirty) && sv.inode == old(sv.inode)
    ensures Unlinked(old(fs.V()), fs.V(), Slots(old(fs.V()))[slot].name, Slots(old(fs.V()))[slot].ino)
  {
    ghost var v := fs.V();
    hide Inv, DirShape, SlotAt, NameMap, Frame, PutDone, Full, LinksOk;
    err := WriteDir(fs, sv, EMPTY, slot);
    UnlinkedBy(v, fs.V(), slot);
  }
}
