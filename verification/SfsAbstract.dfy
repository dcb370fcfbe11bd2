/** The file system as a process sees it, and what each operation does to it. */
module SfsAbstract {
  import opened SfsDisk
  import opened SfsBlocks
  import opened Sfs
  import opened SfsIo
  import opened SfsDir
  import opened SfsVnodes
  import opened SfsReclaim
  import opened SfsNames
  import opened SfsOps
  import opened SfsCreat
  import T = SfsTruncate
  import U = Uio

  /** A size, and a byte at every offset: those past the size are what a longer file would show. */
  datatype File = File(size: nat, raw: imap<nat, byte>)

  /**
   The directory, the files by inode number, the files that are open, the
   directory at place 0, and the number of slots of the directory.
   */
  datatype Fs = Fs(names: map<Name, nat>, files: map<nat, File>, open: seq<nat>, slots: nat)

  /** What a process may ask for; h is the place of an open file among those open. */
  datatype Op =
    | Create(name: Name, excl: bool)
    | Open(name: Name)
    | Close(h: nat)
    | MakeLink(name: Name, h: nat)
    | Unlink(name: Name)
    | Move(from: Name, to: Name)
    | WriteAt(h: nat, off: nat, bytes: seq<byte>)
    | ReadAt(h: nat, off: nat, n: nat)
    | SetLength(h: nat, len: nat)
    | Sync(h: nat)

  /** The error, and the bytes read or written. */
  datatype Answer = Answer(err: Errno, bytes: seq<byte>)

  // ----- the operations -----

  ghost function EmptyFile(): File
  {
    File(0, imap x: nat :: ZeroAt(x))
  }

  function ZeroAt(x: nat): byte
  {
    0
  }

  ghost predicate Whole(f: File)
  {
    forall x: nat :: x in f.raw
  }

  ghost function Put(f: File, off: nat, bytes: seq<byte>): File
    requires Whole(f)
  {
    File(Max(f.size, off + |bytes|), imap x: nat :: if off <= x < off + |bytes| then bytes[x - off] else f.raw[x])
  }

  /** The code keeps one block too many when the new end lies in the range of the indirect block. */
  ghost function CutTo(f: File, len: nat): File
    requires Whole(f)
  {
    File(len, imap x: nat :: if T.Dropped(x / BLOCKSIZE, T.Blocklen(len)) then 0 else f.raw[x])
  }

  /** A file is there as long as it has a name or is open. */
  ghost predicate Live(names: map<Name, nat>, open: seq<nat>, i: nat)
  {
    i in names.Values || exists h :: 1 <= h < |open| && open[h] == i
  }

  ghost function Keep(files: map<nat, File>, names: map<Name, nat>, open: seq<nat>): map<nat, File>
  {
    map i | i in files && Live(names, open, i) :: files[i]
  }

  ghost predicate Clean(s: Fs)
  {
    && (forall i :: i in s.files <==> Live(s.names, s.open, i))
    && (forall i :: i in s.files ==> Whole(s.files[i]))
    && |s.names| <= s.slots
  }

  function Drop<T>(open: seq<T>, h: nat): seq<T>
    requires h < |open|
  {
    open[..h] + open[h + 1..]
  }

  ghost predicate DoesCreate(s: Fs, name: Name, excl: bool, err: Errno, s': Fs)
  {
    && (err == EEXIST <==> excl && name in s.names)
    && (!excl && name in s.names ==> err == OK && s' == s.(open := s.open + [s.names[name]]))
    && (err == OK && name !in s.names ==>
          && |name| + 1 <= NAMELEN && |s'.open| == |s.open| + 1
          && var i := s'.open[|s.open|];
             i !in s.files
                 && s' == Grown(s, s.names[name := i]).(files := s.files[i := EmptyFile()], open := s.open + [i]))
    && (err != OK ==> s' == s)
    && (err == ENAMETOOLONG ==> |name| + 1 > NAMELEN) && err != ENOENT && NoSlot(s, err)
    && (name !in s.names && |name| + 1 > NAMELEN ==> err == ENAMETOOLONG || err == ENOSPC)
  }

  /** One more name was entered, for a moment at least: the directory grows only if no slot was free. */
  ghost function Grown(s: Fs, names: map<Name, nat>): Fs
  {
    s.(names := names, slots := SlotsFor(s.slots, |s.names|))
  }

  /** A directory is refused growth only when it has as many names as a file can hold slots. */
  ghost predicate NoSlot(s: Fs, err: Errno)
  {
    err == EINVAL ==> |s.names| == s.slots == MAXFILEBLOCKS * BLOCKSIZE / DIRENT
  }

  ghost predicate DoesLink(s: Fs, name: Name, i: nat, err: Errno, s': Fs)
  {
    && (err == EEXIST <==> name in s.names)
    && (err == ENAMETOOLONG <==> name !in s.names && |name| + 1 > NAMELEN)
    && err != ENOENT && s' == (if err == OK then Grown(s, s.names[name := i]) else s)
    && NoSlot(s, err) && (err == ENOSPC ==> |s.names| == s.slots)
  }

  ghost predicate DoesMove(s: Fs, from: Name, to: Name, err: Errno, s': Fs)
  {
    && (err == ENOENT <==> from !in s.names)
    && (err == EEXIST <==> from in s.names && to in s.names)
    && (err == ENAMETOOLONG <==> from in s.names && to !in s.names && |to| + 1 > NAMELEN)
    && (err == OK ==> from in s.names && s' == Grown(s, (s.names - {from})[to := s.names[from]]))
    && (err != OK ==> s' == s)
    && NoSlot(s, err) && (err == ENOSPC ==> |s.names| == s.slots)
  }

  ghost predicate DoesUnlink(s: Fs, name: Name, err: Errno, s': Fs)
  {
    && err == (if name in s.names then OK else ENOENT)
    && s' == if err == OK then s.(names := s.names - {name}, files := Keep(s.files, s.names - {name}, s.open)) else s
  }

  ghost predicate DoesWrite(s: Fs, i: nat, off: nat, bytes: seq<byte>, a: Answer, s': Fs)
  {
    && a.bytes <= bytes && (a.err == OK ==> a.bytes == bytes)
    && i in s.files && Whole(s.files[i]) && s' == s.(files := s.files[i := Put(s.files[i], off, a.bytes)])
    && (a.err == OK || a.err == EINVAL || a.err == ENOSPC)
    && (bytes == [] ==> (a.err == EINVAL <==> LooksPast(off)))
    && (bytes != [] ==> (a.err == OK <==> a.bytes == bytes))
    && (bytes != [] && a.err == OK ==> off + |bytes| <= MAXFILEBLOCKS * BLOCKSIZE)
    && (a.err == EINVAL ==> off + |a.bytes| == Max(off, MAXFILEBLOCKS * BLOCKSIZE))
  }

  ghost predicate DoesRead(s: Fs, i: nat, off: nat, n: nat, a: Answer, s': Fs)
  {
    && s' == s && i in s.files && Whole(s.files[i])
    && (forall x :: 0 <= x < |a.bytes| ==> a.bytes[x] == s.files[i].raw[off + x])
    && var want := Readable(s.files[i].size, off, n);
    && |a.bytes| <= want && (a.err == OK ==> |a.bytes| == want)
    && (a.err == OK <==> !ReadFails(s.files[i].size, off, n))
    && (a.err != OK ==> a.err == EINVAL && off + |a.bytes| == Max(off, MAXFILEBLOCKS * BLOCKSIZE))
  }

  /** One operation, with its answer. A place where no file is open, and an offset past 2 GB, are not asked for. */
  ghost predicate Does(s: Fs, op: Op, a: Answer, s': Fs)
  {
    && (op.WriteAt? || op.ReadAt? || a.bytes == [])
    && match op
       case Create(name, excl) => if NoZeros(name) then DoesCreate(s, name, excl, a.err, s') else s' == s
       case Open(name) =>
         && a.err == (if name in s.names then OK else ENOENT)
         && s' == if a.err == OK then s.(open := s.open + [s.names[name]]) else s
       case Close(h) =>
         && a.err == OK
         && s' == if 1 <= h < |s.open| then
              s.(files := Keep(s.files, s.names, Drop(s.open, h)), open := Drop(s.open, h))
                  else s
       case MakeLink(name, h) =>
         if !(1 <= h < |s.open| && NoZeros(name)) then s' == s
         else DoesLink(s, name, s.open[h], a.err, s')
       case Unlink(name) => DoesUnlink(s, name, a.err, s')
       case Move(from, to) => if NoZeros(to) then DoesMove(s, from, to, a.err, s') else s' == s
       case WriteAt(h, off, bytes) =>
         if !(1 <= h < |s.open| && off < TWO31 && |bytes| < TWO32) then s' == s
         else DoesWrite(s, s.open[h], off, bytes, a, s')
       case ReadAt(h, off, n) =>
         if !(1 <= h < |s.open| && off < TWO31 && n < TWO32) then s' == s
         else DoesRead(s, s.open[h], off, n, a, s')
       case SetLength(h, len) =>
         if !(1 <= h < |s.open| && len < TWO31) then s' == s
         else
           && a.err == OK && s.open[h] in s.files && Whole(s.files[s.open[h]])
           && s' == s.(files := s.files[s.open[h] := CutTo(s.files[s.open[h]], len)])
       case Sync(h) => a.err == OK && s' == s
  }

  /** The operations of which the names, the files and what is open decide everything. */
  predicate Decided(s: Fs, op: Op)
  {
    match op
    case ReadAt(h, off, n) => 1 <= h < |s.open| && off < TWO31 && n < TWO32
    case SetLength(h, len) => 1 <= h < |s.open| && len < TWO31
    case Open(_) => true
    case Close(_) => true
    case Unlink(_) => true
    case Sync(_) => true
    case _ => false
  }

  /** Opening, closing, removing, reading, truncating and syncing have one answer and one outcome each. */
  lemma Determined(s: Fs, op: Op, a: Answer, s1: Fs, b: Answer, s2: Fs)
    requires Decided(s, op) && Does(s, op, a, s1) && Does(s, op, b, s2)
    ensures a == b && s1 == s2
  {
    if op.ReadAt? {
      assert |a.bytes| == |b.bytes|;
      assert a.bytes == b.bytes;
    }
  }

  // ----- what a volume stands for -----

  ghost function FileOf(v: Vol, i: nat): (f: File)
    requires i in v.inodes
    ensures Whole(f)
  {
    File(v.inodes[i].size, imap x: nat :: Raw(v, i, x))
  }

  ghost function Files(v: Vol): map<nat, File>
  {
    map i | i in v.inodes && i != ROOT_LOCATION :: FileOf(v, i)
  }

  ghost function FsOf(v: Vol, open: seq<nat>): Fs
    requires HasRoot(v)
  {
    Fs(Names(v), Files(v), open, SlotCount(v))
  }

  lemma FileSame(v: Vol, v': Vol, i: nat)
    requires SameFile(v, v', i)
    ensures FileOf(v', i) == FileOf(v, i)
  {
    hide Raw;
  }

  lemma FilesSame(v: Vol, v': Vol)
    requires SameFiles(v, v')
    ensures Files(v') == Files(v)
  {
    hide SameFile, FileOf;
    forall i | i in v.inodes && i != ROOT_LOCATION
      ensures FileOf(v', i) == FileOf(v, i)
    {
      FileSame(v, v', i);
    }
  }

  /** v' has some of the files of v, each with its bytes. */
  ghost predicate FewerFiles(v: Vol, v': Vol)
  {
    forall i :: i in v'.inodes && i != ROOT_LOCATION ==> SameFile(v, v', i)
  }

  lemma FilesKept(v: Vol, v': Vol, names: map<Name, nat>, open: seq<nat>)
    requires FewerFiles(v, v') && forall i :: i in Files(v') <==> Live(names, open, i)
    ensures Files(v') == Keep(Files(v), names, open)
  {
    hide SameFile, FileOf, Live;
    forall i | i in v'.inodes && i != ROOT_LOCATION
      ensures i in v.inodes && FileOf(v', i) == FileOf(v, i)
    {
      SameIn(v, v', i);
      FileSame(v, v', i);
    }
    var kept := Keep(Files(v), names, open);
    forall i
      ensures i in Files(v') <==> i in kept
    {
      assert i in Files(v') <==> Live(names, open, i);
    }
  }

  lemma SameIn(v: Vol, v': Vol, i: nat)
    requires SameFile(v, v', i)
    ensures i in v.inodes && i in v'.inodes
  {
  }

  lemma FilesPut(v: Vol, v': Vol, ino: nat, off: nat, bytes: seq<byte>)
    requires Wrote(v, v', ino, off, bytes) && ino != ROOT_LOCATION && ino in v.inodes && ino in v'.inodes
    requires v'.inodes[ino].size == Max(v.inodes[ino].size, off + |bytes|)
    ensures Files(v') == Files(v)[ino := Put(FileOf(v, ino), off, bytes)]
  {
    hide FileOf, Put, Raw, Blk, Inv, KeepsMapped, Frame;
    FilePut(v, v', ino, off, bytes);
    FilesBut(v, v', ino);
  }

  lemma FilePut(v: Vol, v': Vol, ino: nat, off: nat, bytes: seq<byte>)
    requires Wrote(v, v', ino, off, bytes) && ino in v.inodes && ino in v'.inodes
    requires v'.inodes[ino].size == Max(v.inodes[ino].size, off + |bytes|)
    ensures FileOf(v', ino) == Put(FileOf(v, ino), off, bytes)
  {
    hide Raw, Frame, Inv, KeepsMapped;
  }

  lemma FileFramed(v: Vol, v': Vol, ino: nat, i: nat)
    requires Frame(v, v', ino) && i in v.inodes && i != ino
    ensures i in v'.inodes && FileOf(v', i) == FileOf(v, i)
  {
    hide Raw, Blk;
  }

  lemma FrameKeys(v: Vol, v': Vol, ino: nat)
    requires Frame(v, v', ino)
    ensures v'.inodes.Keys == v.inodes.Keys
  {
    hide Raw, Blk;
  }

  lemma FilesBut(v: Vol, v': Vol, ino: nat)
    requires Frame(v, v', ino) && ino != ROOT_LOCATION && ino in v.inodes && ino in v'.inodes
    ensures Files(v') == Files(v)[ino := FileOf(v', ino)]
  {
    hide FileOf, Frame;
    FrameKeys(v, v', ino);
    forall i | i in v.inodes && i != ino
      ensures i in v'.inodes && FileOf(v', i) == FileOf(v, i)
    {
      FileFramed(v, v', ino, i);
    }
  }

  lemma FilesCut(v: Vol, v': Vol, ino: nat, len: nat)
    requires T.Truncated(v, v', ino, T.Blocklen(len)) && ino != ROOT_LOCATION && ino in v.inodes && ino in v'.inodes
    requires v'.inodes[ino].size == len
    ensures Files(v') == Files(v)[ino := CutTo(FileOf(v, ino), len)]
  {
    hide FileOf, CutTo, Raw, Blk, Inv, Frame, T.Discards, T.FreesIndirect, T.Dropped;
    FileCut(v, v', ino, len);
    FilesBut(v, v', ino);
  }

  lemma FileCut(v: Vol, v': Vol, ino: nat, len: nat)
    requires T.Truncated(v, v', ino, T.Blocklen(len)) && ino in v.inodes && ino in v'.inodes
             && v'.inodes[ino].size == len
    ensures FileOf(v', ino) == CutTo(FileOf(v, ino), len)
  {
    hide Raw, Blk, Inv, Frame, T.Discards, T.FreesIndirect, T.Dropped, T.Blocklen;
  }

  lemma EmptyReads(v: Vol, ino: nat)
    requires ino in v.inodes && v.inodes[ino] == NewFile().(links := 1)
    ensures FileOf(v, ino) == EmptyFile()
  {
    hide Word;
  }

  lemma FilesNew(v: Vol, v': Vol, name: Name, ino: nat)
    requires NewFileNamed(v, v', name, ino)
    ensures ino != ROOT_LOCATION && ino !in Files(v) && Files(v') == Files(v)[ino := EmptyFile()]
    ensures Names(v') == Names(v)[name := ino] && SlotCount(v') == SlotsFor(SlotCount(v), |Names(v)|)
  {
    hide SameFile, FileOf, NameMap, Slots, NewFile;
    EmptyReads(v', ino);
    forall i | i in v.inodes && i != ROOT_LOCATION
      ensures FileOf(v', i) == FileOf(v, i)
    {
      FileSame(v, v', i);
    }
  }

  // ----- each operation does what it should -----

  lemma CreateDoes(v: Vol, v': Vol, name: Name, excl: bool, err: Errno, ino: nat, open: seq<nat>)
    requires CreatSpec(v, v', name, excl, err, ino)
    ensures HasRoot(v) && HasRoot(v')
    ensures DoesCreate(FsOf(v, open), name, excl, err, FsOf(v', if err == OK then open + [ino] else open))
  {
    hide NewFileNamed, SameFiles, Files, Names, Full, FullBut;
    if err != OK {
      FilesSame(v, v');
    } else if name !in Names(v) {
      FilesNew(v, v', name, ino);
    }
  }

  lemma LinkDoes(v: Vol, v': Vol, name: Name, ino: nat, err: Errno, open: seq<nat>)
    requires LinkFile(v, v', name, ino, err)
    ensures HasRoot(v) && HasRoot(v') && DoesLink(FsOf(v, open), name, ino, err, FsOf(v', open))
  {
    hide SameFiles, Files, Names, Full;
    FilesSame(v, v');
  }

  lemma MoveDoes(v: Vol, v': Vol, from: Name, to: Name, err: Errno, open: seq<nat>)
    requires RenameFile(v, v', from, to, err)
    ensures HasRoot(v) && HasRoot(v') && DoesMove(FsOf(v, open), from, to, err, FsOf(v', open))
  {
    hide SameFiles, Files, Names, Full;
    FilesSame(v, v');
  }

  lemma RemovedFewer(v: Vol, v': Vol, name: Name, held: bool)
    requires RemoveFile(v, v', name, held)
    ensures FewerFiles(v, v')
  {
    hide SameFile, Names, FileFreed;
  }

  lemma UnlinkDoes(v: Vol, v': Vol, name: Name, held: bool, open: seq<nat>)
    requires RemoveFile(v, v', name, held) && HasRoot(v') && Clean(FsOf(v', open))
    ensures HasRoot(v) && DoesUnlink(FsOf(v, open), name, OK, FsOf(v', open))
  {
    hide SameFiles, OldFilesBut, FewerFiles, Files, Names, Live, FileFreed, Whole;
    RemovedFewer(v, v', name, held);
    FilesKept(v, v', Names(v'), open);
  }

  lemma ReclaimedFewer(v: Vol, v': Vol, ino: nat)
    requires ino in v.inodes && Reclaimed(v, v', ino)
    ensures FewerFiles(v, v')
  {
    hide Raw, Blk, Inv;
  }

  lemma CloseDoes(v: Vol, v': Vol, open: seq<nat>, h: nat)
    requires HasRoot(v) && HasRoot(v') && Names(v') == Names(v) && SlotCount(v') == SlotCount(v) && FewerFiles(v, v')
    requires 1 <= h < |open| && Clean(FsOf(v', Drop(open, h)))
    ensures FsOf(v', Drop(open, h))
            == Fs(Names(v), Keep(Files(v), Names(v), Drop(open, h)), Drop(open, h), SlotCount(v))
  {
    hide FewerFiles, Files, Names, Live, Whole, Drop;
    FilesKept(v, v', Names(v), Drop(open, h));
  }

  lemma WriteDoes(v: Vol, v': Vol, ino: nat, off: nat, bytes: seq<byte>, s0: U.State, s1: U.State, err: Errno,
      open: seq<nat>)
    requires WriteSpec(v, v', ino, s0, s1, err) && ino != ROOT_LOCATION && HasRoot(v) && HasRoot(v')
             && Names(v') == Names(v) && SlotCount(v') == SlotCount(v)
    requires s0.data == bytes && s0.pos == 0 && s0.resid == |bytes| && s0.offset == off && s0.write
    ensures s1.pos <= |s1.data|
    ensures DoesWrite(FsOf(v, open), ino, off, bytes, Answer(err, s1.data[..s1.pos]), FsOf(v', open))
  {
    hide Wrote, Full, Blk, Names, FileOf, Put, U.Splice;
    WroteIn(v, v', ino, off, s1.data[s0.pos..s1.pos]);
    assert s1.data[s0.pos..s1.pos] == s1.data[..s1.pos];
    FilesPut(v, v', ino, off, s1.data[..s1.pos]);
  }

  lemma WroteIn(v: Vol, v': Vol, ino: nat, off: nat, bytes: seq<byte>)
    requires Wrote(v, v', ino, off, bytes)
    ensures ino in v.inodes && ino in v'.inodes
  {
    hide Raw, Blk, Inv;
  }

  lemma ReadDoes(v: Vol, ino: nat, off: nat, n: nat, s0: U.State, s1: U.State, err: Errno, open: seq<nat>)
    requires ReadSpec(v, ino, s0, s1, err) && ino != ROOT_LOCATION && HasRoot(v)
    requires s0.pos == 0 && s0.resid == n && s0.offset == off
    ensures s1.pos <= |s1.data| && err != ENOSPC
    ensures DoesRead(FsOf(v, open), ino, off, n, Answer(err, s1.data[..s1.pos]), FsOf(v, open))
  {
    hide Raw, Names, U.Splice;
    assert s1.data[s0.pos..s1.pos] == s1.data[..s1.pos];
  }
}
