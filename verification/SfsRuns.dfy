/** Whole runs of a volume, from mksfs on: each is a run of the file system a process sees. */
module SfsRuns {
  import opened SfsDisk
  import opened SfsBlocks
  import opened Sfs
  import opened SfsDir
  import opened SfsDirOps
  import opened SfsVnodes
  import opened SfsReclaim
  import opened SfsNames
  import opened SfsOps
  import opened SfsCreat
  import opened SfsFiles
  import opened SfsAbstract
  import I = SfsIo
  import T = SfsTruncate
  import U = Uio

  /** The vnodes of the table are held by exactly the open files. */
  ghost predicate HeldBy(vs: seq<Vnode>, t: seq<Loaded>, open: seq<Vnode>)
  {
    && |vs| == |t|
    && (forall k :: 0 <= k < |t| ==> t[k].refs == multiset(open)[vs[k]])
    && (forall h :: h in open ==> h in vs)
  }

  ghost predicate Different(vs: seq<Vnode>)
  {
    forall k, l :: 0 <= k < l < |vs| ==> vs[k] != vs[l]
  }

  lemma VnodesDiffer(fs: Volume)
    requires Good(fs)
    ensures Different(fs.vnodes)
  {
    hide Inv, DirShape, LinksOk, EntryOk, OnDisk;
    forall k, l | 0 <= k < l < |fs.vnodes|
      ensures fs.vnodes[k] != fs.vnodes[l]
    {
      assert Entries(fs)[k].ino != Entries(fs)[l].ino;
    }
  }

  lemma HeldKept(vs: seq<Vnode>, t: seq<Loaded>, u: seq<Loaded>, open: seq<Vnode>)
    requires HeldBy(vs, t, open) && KeepsRefs(t, u)
    ensures HeldBy(vs, u, open)
  {
  }

  lemma HeldMore(vs: seq<Vnode>, us: seq<Vnode>, t: seq<Loaded>, u: seq<Loaded>, open: seq<Vnode>, ino: nat, k: nat)
    requires HeldBy(vs, t, open) && Acquired(t, u, ino, k) && Different(us) && vs <= us && |us| == |u|
    ensures HeldBy(us, u, open + [us[k]])
  {
    var more := open + [us[k]];
    assert multiset(more) == multiset(open) + multiset{us[k]};
    forall l | 0 <= l < |u|
      ensures u[l].refs == multiset(more)[us[l]]
    {
      if l < |t| {
        assert us[l] == vs[l];
      } else {
        assert us[l] !in vs;
      }
    }
  }

  lemma HeldLess(vs: seq<Vnode>, t: seq<Loaded>, u: seq<Loaded>, open: seq<Vnode>, h: nat, k: nat)
    requires HeldBy(vs, t, open) && Different(vs) && h < |open| && k < |vs| && vs[k] == open[h]
    ensures t[k].refs > 1 && u == t[k := t[k].(refs := t[k].refs - 1)] ==> HeldBy(vs, u, Drop(open, h))
    ensures t[k].refs <= 1 && u == Remove(t, k) ==> HeldBy(vs[..k] + vs[k + 1..], u, Drop(open, h))
  {
    var less := Drop(open, h);
    DropCount(open, h);
    if t[k].refs <= 1 {
      var us := vs[..k] + vs[k + 1..];
      forall x | x in less
        ensures x in us
      {
        var l :| 0 <= l < |vs| && vs[l] == x;
        assert x in multiset(less) && l != k;
        assert us[if l < k then l else l - 1] == x;
      }
    }
  }

  lemma DropCount(open: seq<Vnode>, h: nat)
    requires h < |open|
    ensures multiset(open) == multiset(Drop(open, h)) + multiset{open[h]}
    ensures forall x :: x in Drop(open, h) ==> x in open
  {
    assert open == open[..h] + [open[h]] + open[h + 1..];
  }

  /** A volume in use: the directory is open at place 0, other files at the places after it. */
  ghost predicate Session(fs: Volume, open: seq<Vnode>)
    reads fs, fs.freemap, fs.freemap.v, fs.vnodes
  {
    && Good(fs) && |open| >= 1 && |fs.vnodes| >= 1 && fs.vnodes[0] == open[0] && open[0].ino == ROOT_LOCATION
    && HeldBy(fs.vnodes, Entries(fs), open)
    && forall h :: 1 <= h < |open| ==> open[h].ino != ROOT_LOCATION
  }

  lemma Newcomer(vs: seq<Vnode>, us: seq<Vnode>, t: seq<Loaded>, u: seq<Loaded>, open: seq<Vnode>, ino: nat, k: nat)
    requires HeldBy(vs, t, open) && Acquired(t, u, ino, k) && vs <= us && |us| == |u|
    ensures forall l :: 0 <= l < |us| ==> us[l] in vs || us[l] == us[k]
  {
    assert forall l :: 0 <= l < |vs| ==> us[l] == vs[l];
  }

  lemma SessionMore(fs: Volume, vs: seq<Vnode>, t: seq<Loaded>, open: seq<Vnode>, sv: Vnode, k: nat)
    requires Good(fs) && At(fs, sv, k) && sv.ino != ROOT_LOCATION && vs <= fs.vnodes && HeldBy(vs, t, open)
    requires Acquired(t, Entries(fs), sv.ino, k) && |vs| >= 1 && |open| >= 1 && vs[0] == open[0]
             && open[0].ino == ROOT_LOCATION
    requires forall h :: 1 <= h < |open| ==> open[h].ino != ROOT_LOCATION
    ensures Session(fs, open + [sv])
    ensures forall k :: 0 <= k < |fs.vnodes| ==> fs.vnodes[k] in vs || fs.vnodes[k] == sv
  {
    hide Inv, DirShape, LinksOk, TableInv, HeldBy, Acquired;
    VnodesDiffer(fs);
    HeldMore(vs, fs.vnodes, t, Entries(fs), open, sv.ino, k);
    Newcomer(vs, fs.vnodes, t, Entries(fs), open, sv.ino, k);
  }

  /** The place of an open file in the table. */
  lemma OpenAt(fs: Volume, open: seq<Vnode>, h: nat) returns (k: nat)
    requires Session(fs, open) && h < |open|
    ensures At(fs, open[h], k)
  {
    assert open[h] in fs.vnodes;
    k :| 0 <= k < |fs.vnodes| && fs.vnodes[k] == open[h];
  }

  // ----- what a process sees -----

  function Inos(open: seq<Vnode>): (s: seq<nat>)
    ensures |s| == |open| && forall h :: 0 <= h < |open| ==> s[h] == open[h].ino
  {
    seq(|open|, h requires 0 <= h < |open| => open[h].ino)
  }

  ghost function View(fs: Volume, open: seq<Vnode>): Fs
    requires Session(fs, open)
    reads fs, fs.freemap, fs.freemap.v, fs.vnodes
  {
    FsOf(fs.V(), Inos(open))
  }

  /** The files there are have a name or are open, and those with a name or open are there. */
  lemma ViewClean(fs: Volume, open: seq<Vnode>)
    requires Session(fs, open)
    ensures Clean(View(fs, open))
  {
    hide Inv, NoHoles, SfsDir.Distinct, SlotsNameFiles, LinksOk, TableInv, HeldBy, NameMap, Slots, FileOf, Whole, Live;
    SlotsEnough(fs, open);
    forall i
      ensures i in Files(fs.V()) <==> Live(Names(fs.V()), Inos(open), i)
    {
      ViewLive(fs, open, i);
    }
    forall i | i in Files(fs.V()) ensures Whole(Files(fs.V())[i]) { FileWhole(fs.V(), i); }
  }

  lemma SlotsEnough(fs: Volume, open: seq<Vnode>)
    requires Session(fs, open)
    ensures HasRoot(fs.V()) && |Names(fs.V())| <= SlotCount(fs.V())
  {
    hide Inv, NoHoles, SfsDir.Distinct, SlotsNameFiles, LinksOk, TableInv, HeldBy, NameMap, SlotAt;
    DirDistinct(fs.V());
    NamesFit(Slots(fs.V()));
  }

  lemma FileWhole(v: Vol, i: nat)
    requires i in v.inodes && i != ROOT_LOCATION
    ensures Whole(Files(v)[i])
  {
  }

  lemma ViewLive(fs: Volume, open: seq<Vnode>, i: nat)
    requires Session(fs, open)
    ensures i in fs.inodes && i != ROOT_LOCATION <==> Live(Names(fs.V()), Inos(open), i)
  {
    hide Inv, NoHoles, SfsDir.Distinct, SlotsNameFiles, LinksOk, TableInv, HeldBy, NameMap, Slots;
    var v := fs.V();
    if i in fs.inodes && i != ROOT_LOCATION {
      LiveFile(fs, open, i);
    }
    if n :| n in Names(v) && Names(v)[n] == i {
      NamedIn(fs, open, n);
    }
    if h :| 1 <= h < |open| && Inos(open)[h] == i {
      OpenIn(fs, open, h);
    }
  }

  lemma OpenIn(fs: Volume, open: seq<Vnode>, h: nat)
    requires Session(fs, open) && 1 <= h < |open|
    ensures open[h].ino in fs.inodes && open[h].ino != ROOT_LOCATION
  {
    hide Inv, DirShape, LinksOk, DecodeInode;
    var k := OpenAt(fs, open, h);
    assert EntryOk(Entries(fs)[k], fs.V());
  }

  lemma NamedIn(fs: Volume, open: seq<Vnode>, n: Name)
    requires Session(fs, open) && n in Names(fs.V())
    ensures Names(fs.V())[n] in fs.inodes && Names(fs.V())[n] != ROOT_LOCATION
  {
    hide Inv, LinksOk, TableInv, SlotAt, HeldBy;
    NameMapOf(Slots(fs.V()), n);
  }

  /** A file that is not open has a name. */
  lemma LiveFile(fs: Volume, open: seq<Vnode>, i: nat)
    requires Session(fs, open) && i in fs.inodes && i != ROOT_LOCATION
    ensures Live(Names(fs.V()), Inos(open), i)
  {
    hide Inv, Count, DecodeInode, NameMap, SlotAt;
    if IsLoaded(Entries(fs), i) {
      var k :| 0 <= k < |fs.vnodes| && Entries(fs)[k].ino == i;
      assert EntryOk(Entries(fs)[k], fs.V());
      assert fs.vnodes[k] in multiset(open);
      var h :| 0 <= h < |open| && open[h] == fs.vnodes[k];
      assert Inos(open)[h] == i;
    } else {
      assert OnDisk(fs.V(), i, NOINO);
      ZeroNotInode(fs.V());
      LinkedNamed(fs.V(), i);
    }
  }

  // ----- one operation -----

  /** One block at most is free. */
  ghost predicate Crowded(v: Vol)
  {
    exists x: nat :: FullBut(v, x)
  }

  lemma CreateCrowded(v: Vol, v': Vol, name: Name, excl: bool, err: Errno, ino: nat)
    requires CreatSpec(v, v', name, excl, err, ino)
    ensures err == ENOSPC ==> Crowded(v')
  {
    hide NewFileNamed, SameFiles, Names, FullBut;
  }

  lemma FullCrowded(v: Vol)
    requires Full(v)
    ensures Crowded(v)
  {
    FullOf(v);
  }

  lemma LinkCrowded(v: Vol, v': Vol, name: Name, ino: nat, err: Errno)
    requires LinkFile(v, v', name, ino, err)
    ensures err == ENOSPC ==> Crowded(v')
  {
    hide SameFiles, Names, Full, FullBut;
    if err == ENOSPC { FullCrowded(v'); }
  }

  lemma MoveCrowded(v: Vol, v': Vol, from: Name, to: Name, err: Errno)
    requires RenameFile(v, v', from, to, err)
    ensures err == ENOSPC ==> Crowded(v')
  {
    hide SameFiles, Names, Full, FullBut;
    if err == ENOSPC { FullCrowded(v'); }
  }

  lemma WriteCrowded(v: Vol, v': Vol, ino: nat, s0: U.State, s1: U.State, err: Errno)
    requires I.WriteSpec(v, v', ino, s0, s1, err)
    ensures err == ENOSPC ==> Crowded(v')
  {
    hide I.Wrote, Blk, Full, U.Splice, FullBut;
    if err == ENOSPC { FullCrowded(v'); }
  }

  method DoCreate(fs: Volume, open: seq<Vnode>, name: Name, excl: bool) returns (a: Answer, open': seq<Vnode>)
    requires Session(fs, open)
    modifies fs, fs.freemap.v, fs.vnodes
    ensures Session(fs, open') && Does(old(View(fs, open)), Create(name, excl), a, View(fs, open'))
    ensures forall k :: 0 <= k < |fs.vnodes| ==> fs.vnodes[k] in old(fs.vnodes) || fresh(fs.vnodes[k])
    ensures a.err == ENOSPC ==> Crowded(fs.V())
  {
    hide Inv, DirShape, LinksOk, TableInv, Acquired, KeepsRefs, CreatSpec, DoesCreate, Names, Files, Crowded;
    open', a := open, Answer(EINVAL, []);
    if NoZeros(name) {
      ghost var t := Entries(fs);
      var err: Errno, sv: Vnode?;
      ghost var k;
      err, sv, k := Creat(fs, open[0], 0, name, excl);
      a := Answer(err, []);
      CreateCrowded(old(fs.V()), fs.V(), name, excl, err, if err == OK then sv.ino else 0);
      CreateDoes(old(fs.V()), fs.V(), name, excl, err, if err == OK then sv.ino else 0, Inos(open));
      if err == OK {
        SessionMore(fs, old(fs.vnodes), t, open, sv, k);
        open' := open + [sv];
        assert Inos(open') == Inos(open) + [sv.ino];
      } else {
        HeldKept(fs.vnodes, t, Entries(fs), open);
      }
    }
  }

  method DoOpen(fs: Volume, open: seq<Vnode>, name: Name) returns (a: Answer, open': seq<Vnode>)
    requires Session(fs, open)
    modifies fs, fs.freemap.v, fs.vnodes
    ensures Session(fs, open') && Does(old(View(fs, open)), Open(name), a, View(fs, open'))
    ensures forall k :: 0 <= k < |fs.vnodes| ==> fs.vnodes[k] in old(fs.vnodes) || fresh(fs.vnodes[k])
    ensures a.err != ENOSPC
  {
    hide Inv, DirShape, LinksOk, TableInv, Acquired, KeepsRefs, NameMap, SlotAt, Files;
    open' := open;
    ghost var t := Entries(fs);
    var err: Errno, sv: Vnode?, slot;
    ghost var k;
    err, sv, k, slot := LookOnce(fs, open[0], 0, name);
    a := Answer(err, []);
    if err == OK {
      SessionMore(fs, old(fs.vnodes), t, open, sv, k);
      open' := open + [sv];
      assert Inos(open') == Inos(open) + [sv.ino];
    } else {
      HeldKept(fs.vnodes, t, Entries(fs), open);
    }
  }

  lemma HeldPlace(vs: seq<Vnode>, t: seq<Loaded>, open: seq<Vnode>, h: nat, k: nat)
    requires HeldBy(vs, t, open) && Different(vs) && 1 <= h < |open| && k < |vs| && vs[k] == open[h]
    requires vs[0] == open[0] && open[0].ino == ROOT_LOCATION && open[h].ino != ROOT_LOCATION
    ensures k >= 1
  {
  }

  /** vfs_close: the last reference gone, a file without a name goes too. */
  method DoClose(fs: Volume, open: seq<Vnode>, h: nat) returns (a: Answer, open': seq<Vnode>)
    requires Session(fs, open)
    modifies fs, fs.freemap.v, fs.vnodes
    ensures Session(fs, open') && Does(old(View(fs, open)), Close(h), a, View(fs, open'))
    ensures forall k :: 0 <= k < |fs.vnodes| ==> fs.vnodes[k] in old(fs.vnodes) || fresh(fs.vnodes[k])
    ensures a.err != ENOSPC
  {
    hide Inv, NoHoles, SfsDir.Distinct, SlotsNameFiles, LinksOk, TableInv, Slots, Reclaimed, HeldBy, Different,
        NameMap, Files, Clean, FewerFiles, Keep;
    open', a := open, Answer(OK, []);
    if 1 <= h < |open| {
      ghost var t, v := Entries(fs), fs.V();
      ghost var k := OpenAt(fs, open, h);
      VnodesDiffer(fs);
      Decref(fs, open[h], k);
      HeldPlace(old(fs.vnodes), t, open, h, k);
      HeldLess(old(fs.vnodes), t, Entries(fs), open, h, k);
      open' := Drop(open, h);
      assert Inos(open') == Drop(Inos(open), h);
      ViewClean(fs, open');
      ClosedFewer(v, fs.V(), open[h].ino);
      CloseDoes(v, fs.V(), Inos(open), h);
    }
  }

  lemma ClosedFewer(v: Vol, v': Vol, ino: nat)
    requires ino in v.inodes && (v' == v || Reclaimed(v, v', ino))
    ensures FewerFiles(v, v')
  {
    hide Reclaimed, Raw;
    if v' != v {
      ReclaimedFewer(v, v', ino);
    }
  }

  method DoLink(fs: Volume, open: seq<Vnode>, name: Name, h: nat) returns (a: Answer)
    requires Session(fs, open)
    modifies fs, fs.freemap.v, fs.vnodes
    ensures Session(fs, open) && fs.vnodes == old(fs.vnodes)
            && Does(old(View(fs, open)), MakeLink(name, h), a, View(fs, open))
    ensures a.err == ENOSPC ==> Crowded(fs.V())
  {
    hide Inv, DirShape, LinksOk, TableInv, KeepsRefs, LinkFile, HeldBy, DoesLink, Names, Files, Crowded;
    a := Answer(EINVAL, []);
    if 1 <= h < |open| && NoZeros(name) {
      ghost var t := Entries(fs);
      ghost var k := OpenAt(fs, open, h);
      var err := Link(fs, open[0], 0, name, open[h], k);
      a := Answer(err, []);
      HeldKept(fs.vnodes, t, Entries(fs), open);
      LinkCrowded(old(fs.V()), fs.V(), name, open[h].ino, err);
      LinkDoes(old(fs.V()), fs.V(), name, open[h].ino, err, Inos(open));
    }
  }

  method DoUnlink(fs: Volume, open: seq<Vnode>, name: Name) returns (a: Answer)
    requires Session(fs, open)
    modifies fs, fs.freemap.v, fs.vnodes
    ensures Session(fs, open) && fs.vnodes == old(fs.vnodes)
            && Does(old(View(fs, open)), Unlink(name), a, View(fs, open))
    ensures a.err != ENOSPC
  {
    hide Inv, NoHoles, SfsDir.Distinct, SlotsNameFiles, LinksOk, TableInv, KeepsRefs, RemoveFile, NameMap, HeldBy,
        Files, Clean, Keep;
    ghost var t := Entries(fs);
    var err := RemoveName(fs, open[0], 0, name);
    a := Answer(err, []);
    HeldKept(fs.vnodes, t, Entries(fs), open);
    if err == OK {
      ViewClean(fs, open);
      UnlinkDoes(old(fs.V()), fs.V(), name, old(IsLoaded(Entries(fs), Names(fs.V())[name])), Inos(open));
    }
  }

  method DoMove(fs: Volume, open: seq<Vnode>, from: Name, to: Name) returns (a: Answer)
    requires Session(fs, open)
    modifies fs, fs.freemap.v, fs.vnodes
    ensures Session(fs, open) && fs.vnodes == old(fs.vnodes)
            && Does(old(View(fs, open)), Move(from, to), a, View(fs, open))
    ensures a.err == ENOSPC ==> Crowded(fs.V())
  {
    hide Inv, DirShape, LinksOk, TableInv, KeepsRefs, RenameFile, HeldBy, DoesMove, Names, Files, Crowded;
    a := Answer(EINVAL, []);
    if NoZeros(to) {
      ghost var t := Entries(fs);
      var err := Rename(fs, open[0], 0, from, to);
      a := Answer(err, []);
      HeldKept(fs.vnodes, t, Entries(fs), open);
      MoveCrowded(old(fs.V()), fs.V(), from, to, err);
      MoveDoes(old(fs.V()), fs.V(), from, to, err, Inos(open));
    }
  }

  method DoWrite(fs: Volume, open: seq<Vnode>, h: nat, off: nat, bytes: seq<byte>) returns (a: Answer)
    requires Session(fs, open)
    modifies fs, fs.freemap.v, fs.vnodes
    ensures Session(fs, open) && fs.vnodes == old(fs.vnodes)
            && Does(old(View(fs, open)), WriteAt(h, off, bytes), a, View(fs, open))
    ensures a.err == ENOSPC ==> Crowded(fs.V())
  {
    hide Inv, NoHoles, SfsDir.Distinct, SlotsNameFiles, LinksOk, TableInv, KeepsRefs, HeldBy, I.WriteSpec, DoesWrite,
        NameMap, Files, Slots, Crowded;
    a := Answer(EINVAL, []);
    if 1 <= h < |open| && off < TWO31 && |bytes| < TWO32 {
      ghost var t := Entries(fs);
      ghost var k := OpenAt(fs, open, h);
      var uio := new U.Uio(bytes, off, true);
      ghost var s0 := uio.S();
      var err := WriteFile(fs, open[h], k, uio);
      HeldKept(fs.vnodes, t, Entries(fs), open);
      WriteCrowded(old(fs.V()), fs.V(), open[h].ino, s0, uio.S(), err);
      WriteDoes(old(fs.V()), fs.V(), open[h].ino, off, bytes, s0, uio.S(), err, Inos(open));
      a := Answer(err, uio.data[..uio.pos]);
    }
  }

  method DoRead(fs: Volume, open: seq<Vnode>, h: nat, off: nat, n: nat) returns (a: Answer)
    requires Session(fs, open)
    modifies fs, fs.freemap.v, fs.vnodes
    ensures Session(fs, open) && fs.vnodes == old(fs.vnodes)
            && Does(old(View(fs, open)), ReadAt(h, off, n), a, View(fs, open))
    ensures a.err != ENOSPC
  {
    hide Inv, NoHoles, SfsDir.Distinct, SlotsNameFiles, LinksOk, TableInv, KeepsRefs, HeldBy, I.ReadSpec, DoesRead,
        NameMap, Files, Slots;
    a := Answer(EINVAL, []);
    if 1 <= h < |open| && off < TWO31 && n < TWO32 {
      ghost var t := Entries(fs);
      ghost var k := OpenAt(fs, open, h);
      var uio := new U.Uio(seq<byte>(n, i => 0), off, false);
      ghost var s0 := uio.S();
      var err := ReadFile(fs, open[h], k, uio);
      HeldKept(fs.vnodes, t, Entries(fs), open);
      ReadDoes(fs.V(), open[h].ino, off, n, s0, uio.S(), err, Inos(open));
      a := Answer(err, uio.data[..uio.pos]);
    }
  }

  method DoSetLength(fs: Volume, open: seq<Vnode>, h: nat, len: nat) returns (a: Answer)
    requires Session(fs, open)
    modifies fs, fs.freemap.v, fs.vnodes
    ensures Session(fs, open) && fs.vnodes == old(fs.vnodes)
            && Does(old(View(fs, open)), SetLength(h, len), a, View(fs, open))
    ensures a.err != ENOSPC
  {
    hide Inv, DirShape, LinksOk, TableInv, KeepsRefs, HeldBy, T.Truncated, NameMap, Slots, CutTo, FileOf;
    a := Answer(OK, []);
    if 1 <= h < |open| && len < TWO31 {
      ghost var t := Entries(fs);
      ghost var k := OpenAt(fs, open, h);
      TruncateFile(fs, open[h], k, len);
      HeldKept(fs.vnodes, t, Entries(fs), open);
      CutInodes(old(fs.V()), fs, open, h, len);
      FilesCut(old(fs.V()), fs.V(), open[h].ino, len);
    }
  }

  lemma CutInodes(v: Vol, fs: Volume, open: seq<Vnode>, h: nat, len: nat)
    requires Session(fs, open) && 1 <= h < |open| && T.Truncated(v, fs.V(), open[h].ino, T.Blocklen(len))
             && open[h].inode.size == len
    ensures open[h].ino in v.inodes && open[h].ino in fs.inodes && fs.inodes[open[h].ino].size == len
  {
    hide Inv, DirShape, LinksOk, DecodeInode, Raw, Blk;
    var k := OpenAt(fs, open, h);
    assert EntryOk(Entries(fs)[k], fs.V());
  }

  method DoSync(fs: Volume, open: seq<Vnode>, h: nat) returns (a: Answer)
    requires Session(fs, open)
    modifies fs, fs.freemap.v, fs.vnodes
    ensures Session(fs, open) && fs.vnodes == old(fs.vnodes) && Does(old(View(fs, open)), Sync(h), a, View(fs, open))
    ensures a.err != ENOSPC
  {
    hide Inv, DirShape, LinksOk, TableInv, KeepsRefs, HeldBy, SameFiles, Files, NameMap, Slots;
    a := Answer(OK, []);
    if h < |open| {
      ghost var t := Entries(fs);
      ghost var k := OpenAt(fs, open, h);
      SyncFile(fs, open[h], k);
      HeldKept(fs.vnodes, t, Entries(fs), open);
      FilesSame(old(fs.V()), fs.V());
    }
  }

  /** One operation: the volume stays consistent, and the file system a process sees does what was asked. */
  method Step(fs: Volume, open: seq<Vnode>, op: Op) returns (a: Answer, open': seq<Vnode>)
    requires Session(fs, open)
    modifies fs, fs.freemap.v, fs.vnodes
    ensures Session(fs, open') && Does(old(View(fs, open)), op, a, View(fs, open'))
    ensures forall k :: 0 <= k < |fs.vnodes| ==> fs.vnodes[k] in old(fs.vnodes) || fresh(fs.vnodes[k])
    ensures a.err == ENOSPC ==> Crowded(fs.V())
  {
    hide Session, View, Does, Crowded;
    open' := open;
    match op {
      case Create(name, excl) => a, open' := DoCreate(fs, open, name, excl);
      case Open(name) => a, open' := DoOpen(fs, open, name);
      case Close(h) => a, open' := DoClose(fs, open, h);
      case MakeLink(name, h) => a := DoLink(fs, open, name, h);
      case Unlink(name) => a := DoUnlink(fs, open, name);
      case Move(from, to) => a := DoMove(fs, open, from, to);
      case WriteAt(h, off, bytes) => a := DoWrite(fs, open, h, off, bytes);
      case ReadAt(h, off, n) => a := DoRead(fs, open, h, off, n);
      case SetLength(h, len) => a := DoSetLength(fs, open, h, len);
      case Sync(h) => a := DoSync(fs, open, h);
    }
  }

  /** trace is a run of the file system a process sees, with these answers; out of space means what it says. */
  ghost predicate IsRun(ops: seq<Op>, answers: seq<Answer>, trace: seq<Fs>, disks: seq<Vol>)
  {
    && |trace| == |disks| == |ops| + 1 && |answers| == |ops|
    && trace[0] == Fs(map[], map[], [ROOT_LOCATION], 0)
    && (forall i :: 0 <= i < |ops| ==> Does(trace[i], ops[i], answers[i], trace[i + 1]))
    && (forall i :: 0 <= i < |trace| ==> Clean(trace[i]))
    && (forall i :: 0 <= i < |disks| ==> HasRoot(disks[i]) && FsOf(disks[i], trace[i].open) == trace[i])
    && (forall i :: 0 <= i < |ops| && answers[i].err == ENOSPC ==> Crowded(disks[i + 1]))
  }

  lemma RunOn(ops: seq<Op>, answers: seq<Answer>, trace: seq<Fs>, disks: seq<Vol>, op: Op, a: Answer, s: Fs, v: Vol)
    requires IsRun(ops, answers, trace, disks) && Does(trace[|ops|], op, a, s) && Clean(s)
    requires HasRoot(v) && FsOf(v, s.open) == s && (a.err == ENOSPC ==> Crowded(v))
    ensures IsRun(ops + [op], answers + [a], trace + [s], disks + [v])
  {
    hide Does, Clean, Crowded, FsOf, HasRoot;
  }

  /**
   Every run of operations on a disk mksfs made, failed ones included, is a run
   of the file system a process sees, and leaves the volume consistent.
   */
  method Run(n: nat, blocks: seq<Block>, ops: seq<Op>)
    returns (fs: Volume, open: seq<Vnode>, answers: seq<Answer>, ghost trace: seq<Fs>, ghost disks: seq<Vol>)
    requires |blocks| == n && MAP_LOCATION + BitBlocks(n) <= n && BitBlocks(n) <= MAXBITBLOCKS
    ensures fresh(fs) && Session(fs, open)
    ensures IsRun(ops, answers, trace, disks) && trace[|ops|] == View(fs, open) && disks[|ops|] == fs.V()
  {
    hide Session, View, Does, Clean, IsRun, Crowded;
    fs, open := Mount(n, blocks);
    SeenFs(fs, open);
    answers, trace, disks := [], [View(fs, open)], [fs.V()];
    RunStart(fs, open);
    for i := 0 to |ops|
      invariant Session(fs, open) && fresh(fs) && fresh(fs.freemap.v) && forall k :: 0 <= k < |fs.vnodes| ==>
                  fresh(fs.vnodes[k])
      invariant fs.freemap.Valid() && |trace| == |disks| == i + 1 && trace[i] == View(fs, open) && disks[i] == fs.V()
      invariant IsRun(ops[..i], answers, trace, disks)
    {
      var a;
      a, open := Step(fs, open, ops[i]);
      ViewClean(fs, open);
      SeenFs(fs, open);
      RunOn(ops[..i], answers, trace, disks, ops[i], a, View(fs, open), fs.V());
      assert ops[..i + 1] == ops[..i] + [ops[i]];
      answers, trace, disks := answers + [a], trace + [View(fs, open)], disks + [fs.V()];
    }
    assert ops[..|ops|] == ops;
  }

  lemma SeenFs(fs: Volume, open: seq<Vnode>)
    requires Session(fs, open)
    ensures fs.freemap.Valid() && HasRoot(fs.V()) && FsOf(fs.V(), View(fs, open).open) == View(fs, open)
  {
    hide Inv, NoHoles, SfsDir.Distinct, SlotsNameFiles, LinksOk, TableInv, HeldBy, Names, Files;
  }

  lemma RunStart(fs: Volume, open: seq<Vnode>)
    requires Session(fs, open) && View(fs, open) == Fs(map[], map[], [ROOT_LOCATION], 0) && fs.freemap.Valid()
    ensures IsRun([], [], [View(fs, open)], [fs.V()])
  {
    hide Session, View, Clean, FsOf, HasRoot;
    ViewClean(fs, open);
    SeenFs(fs, open);
  }

  // ----- the directory over a whole run -----

  /** The operation entered a name, which a rename does before it clears the old one. */
  ghost predicate Enters(s: Fs, op: Op, a: Answer)
  {
    && a.err == OK
    && match op
       case Create(name, _) => NoZeros(name) && name !in s.names
       case MakeLink(name, h) => 1 <= h < |s.open| && NoZeros(name)
       case Move(_, to) => NoZeros(to)
       case _ => false
  }

  /** The largest number of names the directory has held at once in the first n operations. */
  ghost function Peak(ops: seq<Op>, answers: seq<Answer>, trace: seq<Fs>, n: nat): nat
    requires |trace| == |ops| + 1 && |answers| == |ops| && n <= |ops|
  {
    if n == 0 then 0
    else
      var p, k := Peak(ops, answers, trace, n - 1), |trace[n - 1].names| + 1;
      if Enters(trace[n - 1], ops[n - 1], answers[n - 1]) && k > p then k else p
  }

  /** One operation's part in the number of slots. */
  lemma DoesSlots(s: Fs, op: Op, a: Answer, s': Fs)
    requires Does(s, op, a, s')
    ensures s'.slots == if Enters(s, op, a) then SlotsFor(s.slots, |s.names|) else s.slots
  {
  }

  /**
   After every run the directory has exactly as many slots as it has held names
   at once: a slot given up is used again before a new one is added.
   */
  lemma {:induction false} SlotsArePeak(ops: seq<Op>, answers: seq<Answer>, trace: seq<Fs>, disks: seq<Vol>, n: nat)
    requires IsRun(ops, answers, trace, disks) && n <= |ops|
    ensures trace[n].slots == Peak(ops, answers, trace, n)
  {
    hide Does, Crowded, FsOf, Enters;
    if n > 0 {
      SlotsArePeak(ops, answers, trace, disks, n - 1);
      DoesSlots(trace[n - 1], ops[n - 1], answers[n - 1], trace[n]);
      assert Clean(trace[n - 1]);
    }
  }

  /** Entering a name is refused for the length of the directory only when it holds 1144 names. */
  lemma RefusedWhenLong(ops: seq<Op>, answers: seq<Answer>, trace: seq<Fs>, disks: seq<Vol>, i: nat)
    requires IsRun(ops, answers, trace, disks) && i < |ops| && answers[i].err == EINVAL
    requires match ops[i] case Create(name, _) => NoZeros(name) case Move(_, to) => NoZeros(to)
             case MakeLink(name, h) => NoZeros(name) && 1 <= h < |trace[i].open| case _ => false
    ensures |trace[i].names| == trace[i].slots == 1144
  {
    hide Crowded, FsOf, Clean;
    assert Does(trace[i], ops[i], answers[i], trace[i + 1]);
  }

  /** mksfs, then sfs_mount and sfs_getroot. */
  method Mount(n: nat, blocks: seq<Block>) returns (fs: Volume, open: seq<Vnode>)
    requires |blocks| == n && MAP_LOCATION + BitBlocks(n) <= n && BitBlocks(n) <= MAXBITBLOCKS
    ensures fresh(fs) && fresh(fs.freemap.v) && Session(fs, open)
            && View(fs, open) == Fs(map[], map[], [ROOT_LOCATION], 0)
    ensures forall k :: 0 <= k < |fs.vnodes| ==> fresh(fs.vnodes[k])
  {
    hide Inv, DirShape, LinksOk, TableInv, NameMap, DecodeInode;
    fs := new Volume(n, blocks);
    RootOnDisk(fs.V());
    FreshGood(fs);
    assert !IsLoaded(Entries(fs), ROOT_LOCATION);
    var root;
    ghost var k;
    root, k := LoadVnode(fs, ROOT_LOCATION, TYPE_INVAL);
    open := [root];
  }

  lemma RootOnDisk(v: Vol)
    requires Inv(v)
    ensures ROOT_LOCATION < |v.disk|
  {
    LoadFacts(v, ROOT_LOCATION);
  }

  lemma LinkedNamed(v: Vol, i: nat)
    requires DirShape(v) && LinksOk(v) && i in v.inodes && i != ROOT_LOCATION && i != NOINO && v.inodes[i].links > 0
    ensures exists name :: name in Names(v) && Names(v)[name] == i
  {
    var t := Slots(v);
    CountUsed(t, i);
    var s :| 0 <= s < |t| && t[s].ino == i;
    NameMapOf(t, t[s].name);
    hide Raw, Blk, SlotAt, Count;
    assert Used(t[s]);
    assert t[s].name in Names(v) && Names(v)[t[s].name] == i;
  }
}
