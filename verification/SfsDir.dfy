/**
 The root directory as the content of a file: 64-byte slots, each an inode
 number and a name, and the finite map from names to inodes they stand for.
 */
module SfsDir {
  import opened SfsDisk
  import opened SfsBlocks
  import opened SfsIo

  const DIRENT := 64

  type Name = seq<byte>

  datatype Dirent = Dirent(ino: nat, name: Name)

  /** A C string stops at its first zero byte. */
  function CString(b: seq<byte>): (n: Name)
    ensures |n| <= |b|
  {
    if |b| == 0 || b[0] == 0 then [] else [b[0]] + CString(b[1..])
  }

  predicate NoZeros(n: Name)
  {
    forall i :: 0 <= i < |n| ==> n[i] != 0
  }

  lemma {:induction false} CStringOf(n: Name, pad: seq<byte>)
    requires NoZeros(n) && (|pad| == 0 || pad[0] == 0)
    ensures CString(n + pad) == n
  {
    if |n| > 0 {
      assert (n + pad)[1..] == n[1..] + pad;
      CStringOf(n[1..], pad);
    } else {
      assert n + pad == pad;
    }
  }

  lemma {:induction false} CStringNoZeros(b: seq<byte>)
    ensures NoZeros(CString(b))
  {
    if |b| > 0 && b[0] != 0 {
      CStringNoZeros(b[1..]);
    }
  }

  /** Names that fit a slot with their terminator. */
  predicate Fits(n: Name)
  {
    NoZeros(n) && |n| + 1 <= NAMELEN
  }

  function Pack(b0: byte, b1: byte, b2: byte, b3: byte): (w: nat)
    ensures IsWord(w)
  {
    (b0 as int) * 0x100_0000 + (b1 as int) * 0x1_0000 + (b2 as int) * 0x100 + b3 as int
  }

  /** A slot as read, its name's last byte forced to zero. */
  function DecodeEntry(b: seq<byte>): (e: Dirent)
    requires |b| == DIRENT
    ensures IsWord(e.ino)
  {
    Dirent(Pack(b[0], b[1], b[2], b[3]), CString(b[4..63]))
  }

  function EncodeEntry(e: Dirent): (b: seq<byte>)
    requires |e.name| < NAMELEN
    ensures |b| == DIRENT
  {
    [ByteOf(e.ino, 0), ByteOf(e.ino, 1), ByteOf(e.ino, 2), ByteOf(e.ino, 3)] + e.name
    + seq<byte>(NAMELEN - |e.name|, i => 0)
  }

  lemma EntryRoundTrip(e: Dirent)
    requires Fits(e.name) && IsWord(e.ino)
    ensures DecodeEntry(EncodeEntry(e)) == e
  {
    WordBytes(e.ino);
    var b := EncodeEntry(e);
    var pad := seq<byte>(NAMELEN - 1 - |e.name|, i => 0);
    assert b[4..63] == e.name + pad;
    CStringOf(e.name, pad);
  }

  /** A slot on the disk: the inode number, most significant byte first, then the name and zeros to the end. */
  lemma EntryLayout(e: Dirent)
    requires Fits(e.name) && IsWord(e.ino)
    ensures var b := EncodeEntry(e);
            && (b[0] as int) * 0x100_0000 + (b[1] as int) * 0x1_0000 + (b[2] as int) * 0x100 + b[3] as int == e.ino
            && b[4..4 + |e.name|] == e.name && forall i :: 4 + |e.name| <= i < DIRENT ==> b[i] == 0
  {
    WordBytes(e.ino);
  }

  // ----- slots of the root directory -----

  ghost predicate HasRoot(v: Vol)
  {
    ROOT_LOCATION in v.inodes
  }

  ghost function SlotCount(v: Vol): nat
    requires HasRoot(v)
  {
    v.inodes[ROOT_LOCATION].size / DIRENT
  }

  ghost function SlotAt(v: Vol, s: nat): Dirent
    requires HasRoot(v)
  {
    DecodeEntry(RawBytes(v, ROOT_LOCATION, DIRENT * s, DIRENT))
  }

  ghost function Slots(v: Vol): (t: seq<Dirent>)
    requires HasRoot(v)
    ensures |t| == SlotCount(v)
    ensures forall s :: 0 <= s < |t| ==> t[s] == SlotAt(v, s)
  {
    seq(SlotCount(v), s requires 0 <= s => SlotAt(v, s))
  }

  predicate Used(e: Dirent) { e.ino != NOINO }

  /** Each name appears in at most one used slot. */
  ghost predicate Distinct(t: seq<Dirent>)
  {
    forall r, s :: 0 <= r < s < |t| && Used(t[r]) && Used(t[s]) ==> t[r].name != t[s].name
  }

  /** The map a directory stands for. */
  ghost function NameMap(t: seq<Dirent>): map<Name, nat>
  {
    if |t| == 0 then map[]
    else if Used(t[|t| - 1]) then NameMap(t[..|t| - 1])[t[|t| - 1].name := t[|t| - 1].ino]
    else NameMap(t[..|t| - 1])
  }

  /** How many slots name inode i. */
  ghost function Count(t: seq<Dirent>, i: nat): nat
  {
    if |t| == 0 then 0 else Count(t[..|t| - 1], i) + if t[|t| - 1].ino == i then 1 else 0
  }

  lemma {:induction false} NameMapOf(t: seq<Dirent>, n: Name)
    requires Distinct(t)
    ensures n in NameMap(t) <==> exists s :: 0 <= s < |t| && Used(t[s]) && t[s].name == n
    ensures forall s :: 0 <= s < |t| && Used(t[s]) && t[s].name == n ==> NameMap(t)[n] == t[s].ino
  {
    if |t| > 0 {
      var u := t[..|t| - 1];
      NameMapOf(u, n);
      if n in NameMap(u) {
        var s :| 0 <= s < |u| && Used(u[s]) && u[s].name == n;
        assert t[s] == u[s];
      }
      if Used(t[|t| - 1]) && t[|t| - 1].name == n {
        assert Used(t[|t| - 1]);
      }
      assert forall s :: 0 <= s < |u| ==> u[s] == t[s];
    }
  }

  ghost predicate AllUsed(t: seq<Dirent>)
  {
    forall s :: 0 <= s < |t| ==> Used(t[s])
  }

  /** The slots a directory needs once one more name is entered, free slots being used first. */
  function SlotsFor(slots: nat, names: nat): nat
  {
    if names < slots then slots else names + 1
  }

  /** There are no more names than slots, and as many just when every slot is used. */
  lemma {:induction false} NamesFit(t: seq<Dirent>)
    requires Distinct(t)
    ensures |NameMap(t)| <= |t| && (|NameMap(t)| == |t| <==> AllUsed(t))
  {
    if |t| > 0 {
      var u, e := t[..|t| - 1], t[|t| - 1];
      assert forall s :: 0 <= s < |u| ==> u[s] == t[s];
      NamesFit(u);
      NameMapOf(u, e.name);
      if Used(e) {
        assert e.name !in NameMap(u);
        assert NameMap(t).Keys == NameMap(u).Keys + {e.name};
      }
      assert AllUsed(t) <==> AllUsed(u) && Used(e);
    }
  }

  lemma {:induction false} CountBound(t: seq<Dirent>, i: nat)
    ensures Count(t, i) <= |t|
  {
    if |t| > 0 {
      CountBound(t[..|t| - 1], i);
    }
  }

  lemma {:induction false} CountUpdate(t: seq<Dirent>, s: nat, e: Dirent, i: nat)
    requires s < |t|
    ensures Count(t[s := e], i) == Count(t, i) - (if t[s].ino == i then 1 else 0) + (if e.ino == i then 1 else 0)
  {
    var u := t[s := e];
    if s < |t| - 1 {
      assert u[..|u| - 1] == t[..|t| - 1][s := e];
      CountUpdate(t[..|t| - 1], s, e, i);
    } else {
      assert u[..|u| - 1] == t[..|t| - 1];
    }
  }

  lemma CountAppend(t: seq<Dirent>, e: Dirent, i: nat)
    ensures Count(t + [e], i) == Count(t, i) + if e.ino == i then 1 else 0
  {
    assert (t + [e])[..|t|] == t;
  }

  lemma {:induction false} CountUsed(t: seq<Dirent>, i: nat)
    ensures Count(t, i) > 0 <==> exists s :: 0 <= s < |t| && t[s].ino == i
  {
    if |t| > 0 {
      var u := t[..|t| - 1];
      CountUsed(u, i);
      if Count(u, i) > 0 {
        var s :| 0 <= s < |u| && u[s].ino == i;
        assert t[s].ino == i;
      }
      if t[|t| - 1].ino == i {
        assert Count(t, i) > 0;
      }
      assert forall s :: 0 <= s < |u| ==> u[s] == t[s];
    }
  }

  // ----- one slot is written -----

  ghost function PutSlot(t: seq<Dirent>, s: nat, e: Dirent): seq<Dirent>
    requires s <= |t|
  {
    if s < |t| then t[s := e] else t + [e]
  }

  lemma CountPut(t: seq<Dirent>, s: nat, e: Dirent, i: nat)
    requires s <= |t|
    ensures Count(PutSlot(t, s, e), i)
            == Count(t, i) - (if s < |t| && t[s].ino == i then 1 else 0) + (if e.ino == i then 1 else 0)
  {
    if s < |t| {
      CountUpdate(t, s, e, i);
    } else {
      CountAppend(t, e, i);
    }
  }

  /** Filling a free slot with a new name inserts it into the map. */
  lemma Insert(t: seq<Dirent>, s: nat, e: Dirent)
    requires Distinct(t) && s <= |t| && (s < |t| ==> !Used(t[s]))
    requires Used(e) && e.name !in NameMap(t)
    ensures Distinct(PutSlot(t, s, e)) && NameMap(PutSlot(t, s, e)) == NameMap(t)[e.name := e.ino]
  {
    hide NameMap, Distinct;
    var u := PutSlot(t, s, e);
    InsertDistinct(t, s, e);
    forall n: Name
      ensures n in NameMap(u) <==> n == e.name || n in NameMap(t)
      ensures n in NameMap(u) ==> NameMap(u)[n] == if n == e.name then e.ino else NameMap(t)[n]
    {
      InsertName(t, s, e, n);
    }
  }

  lemma InsertDistinct(t: seq<Dirent>, s: nat, e: Dirent)
    requires Distinct(t) && s <= |t| && (s < |t| ==> !Used(t[s])) && Used(e) && e.name !in NameMap(t)
    ensures Distinct(PutSlot(t, s, e))
  {
    hide NameMap;
    NameMapOf(t, e.name);
  }

  lemma InsertName(t: seq<Dirent>, s: nat, e: Dirent, n: Name)
    requires Distinct(t) && s <= |t| && (s < |t| ==> !Used(t[s]))
    requires Used(e) && Distinct(PutSlot(t, s, e))
    ensures n in NameMap(PutSlot(t, s, e)) <==> n == e.name || n in NameMap(t)
    ensures n in NameMap(PutSlot(t, s, e)) ==>
              NameMap(PutSlot(t, s, e))[n] == if n == e.name then e.ino else NameMap(t)[n]
  {
    hide NameMap;
    var u := PutSlot(t, s, e);
    NameMapOf(t, n);
    NameMapOf(u, n);
    assert u[s] == e && forall r :: 0 <= r < |t| && r != s ==> u[r] == t[r];
    if n in NameMap(t) {
      var r :| 0 <= r < |t| && Used(t[r]) && t[r].name == n;
      assert Used(u[r]) && u[r].name == n;
    }
  }

  /** Clearing a used slot deletes its name from the map. */
  lemma Delete(t: seq<Dirent>, s: nat, e: Dirent)
    requires Distinct(t) && s < |t| && Used(t[s]) && !Used(e)
    ensures Distinct(t[s := e]) && NameMap(t[s := e]) == NameMap(t) - {t[s].name}
    ensures t[s].name in NameMap(t) && NameMap(t)[t[s].name] == t[s].ino
  {
    var u := t[s := e];
    assert Distinct(u);
    NameMapOf(t, t[s].name);
    forall n: Name
      ensures n in NameMap(u) <==> n != t[s].name && n in NameMap(t)
      ensures n in NameMap(u) ==> NameMap(u)[n] == NameMap(t)[n]
    {
      NameMapOf(t, n);
      NameMapOf(u, n);
      assert forall r :: 0 <= r < |t| && r != s ==> u[r] == t[r];
      if n in NameMap(t) && n != t[s].name {
        var r :| 0 <= r < |t| && Used(t[r]) && t[r].name == n;
        assert Used(u[r]) && u[r].name == n;
      }
    }
  }

  ghost function GrownTo(size: nat, s: nat): nat
  {
    Max(size, DIRENT * s + DIRENT)
  }

  lemma SlotWritten(v: Vol, v': Vol, s: nat, e: Dirent, r: nat)
    requires HasRoot(v) && Fits(e.name) && IsWord(e.ino)
    requires Wrote(v, v', ROOT_LOCATION, DIRENT * s, EncodeEntry(e))
    ensures HasRoot(v') && SlotAt(v', r) == if r == s then e else SlotAt(v, r)
  {
    hide Raw, Inv;
    if r == s {
      assert RawBytes(v', ROOT_LOCATION, DIRENT * s, DIRENT) == EncodeEntry(e);
      EntryRoundTrip(e);
    } else {
      assert DIRENT * r + DIRENT <= DIRENT * s || DIRENT * s + DIRENT <= DIRENT * r;
      assert RawBytes(v', ROOT_LOCATION, DIRENT * r, DIRENT) == RawBytes(v, ROOT_LOCATION, DIRENT * r, DIRENT);
    }
  }

  lemma SlotsWritten(v: Vol, v': Vol, s: nat, e: Dirent)
    requires HasRoot(v) && Fits(e.name) && IsWord(e.ino)
    requires Wrote(v, v', ROOT_LOCATION, DIRENT * s, EncodeEntry(e))
    requires v.inodes[ROOT_LOCATION].size % DIRENT == 0 && s <= SlotCount(v)
    requires v'.inodes[ROOT_LOCATION].size == GrownTo(v.inodes[ROOT_LOCATION].size, s)
    ensures v'.inodes[ROOT_LOCATION].size % DIRENT == 0 && Slots(v') == PutSlot(Slots(v), s, e)
  {
    hide Wrote, SlotAt;
    SlotWritten(v, v', s, e, s);
    forall r: nat
      ensures SlotAt(v', r) == if r == s then e else SlotAt(v, r)
    {
      SlotWritten(v, v', s, e, r);
    }
  }

  // ----- the directory invariant -----

  /** Every block below the end of the directory is mapped. */
  ghost predicate NoHoles(v: Vol)
    requires HasRoot(v)
  {
    forall fb: nat :: fb * BLOCKSIZE < v.inodes[ROOT_LOCATION].size ==> Blk(v, ROOT_LOCATION, fb) != 0
  }

  ghost predicate SlotsNameFiles(v: Vol)
    requires HasRoot(v)
  {
    forall s :: 0 <= s < SlotCount(v) && Used(Slots(v)[s]) ==>
      Slots(v)[s].ino in v.inodes && Slots(v)[s].ino != ROOT_LOCATION
  }

  ghost predicate DirShape(v: Vol)
  {
    && HasRoot(v)
    && v.inodes[ROOT_LOCATION].kind == TYPE_DIR
    && v.inodes[ROOT_LOCATION].size % DIRENT == 0
    && v.inodes[ROOT_LOCATION].size <= MAXFILEBLOCKS * BLOCKSIZE
    && NoHoles(v)
    && Distinct(Slots(v))
    && SlotsNameFiles(v)
    && forall i :: i in v.inodes && i != ROOT_LOCATION ==> v.inodes[i].kind == TYPE_FILE
  }

  /** Link counts match the slots, but for inode x whose count is d short. */
  ghost predicate LinksBut(v: Vol, x: nat, d: int)
    requires HasRoot(v)
  {
    forall i :: i in v.inodes ==>
      v.inodes[i].links + (if i == x then d else 0)
      == Count(Slots(v), i) + if i == ROOT_LOCATION then 1 else 0
  }

  /** Every inode's link count is the number of slots naming it, one more for the root. */
  ghost predicate LinksOk(v: Vol)
    requires HasRoot(v)
  {
    LinksBut(v, NOINO, 0)
  }

  /** An operation on another file leaves the directory alone. */
  lemma DirFrame(v: Vol, v': Vol, ino: nat)
    requires DirShape(v) && Frame(v, v', ino) && ino != ROOT_LOCATION
    ensures DirShape(v') && Slots(v') == Slots(v)
    ensures LinksOk(v) ==> LinksOk(v')
  {
    hide Raw, BlockOf;
    forall s: nat
      ensures SlotAt(v', s) == SlotAt(v, s)
    {
      assert RawBytes(v', ROOT_LOCATION, DIRENT * s, DIRENT) == RawBytes(v, ROOT_LOCATION, DIRENT * s, DIRENT);
    }
    assert Slots(v') == Slots(v);
    hide Blk, SlotAt, Count;
  }

  /** A directory block allocated by a write that then failed changes no slot. */
  lemma DirGrown(v: Vol, v': Vol, off: nat)
    requires DirShape(v) && Wrote(v, v', ROOT_LOCATION, off, [])
    requires v'.inodes[ROOT_LOCATION].size == v.inodes[ROOT_LOCATION].size
    ensures DirShape(v') && Slots(v') == Slots(v)
    ensures LinksOk(v) ==> LinksOk(v')
  {
    hide Raw, BlockOf, Inv;
    forall s: nat
      ensures SlotAt(v', s) == SlotAt(v, s)
    {
      assert RawBytes(v', ROOT_LOCATION, DIRENT * s, DIRENT) == RawBytes(v, ROOT_LOCATION, DIRENT * s, DIRENT);
    }
    assert Slots(v') == Slots(v);
    hide Blk, SlotAt, Count;
  }

  /** A slot was written, in a block that is mapped. */
  ghost predicate PutDone(v: Vol, v': Vol, s: nat, e: Dirent)
  {
    && HasRoot(v) && s <= SlotCount(v) && DIRENT * s + DIRENT <= MAXFILEBLOCKS * BLOCKSIZE
    && Fits(e.name) && IsWord(e.ino)
    && Wrote(v, v', ROOT_LOCATION, DIRENT * s, EncodeEntry(e))
    && v'.inodes[ROOT_LOCATION].size == GrownTo(v.inodes[ROOT_LOCATION].size, s)
    && Blk(v', ROOT_LOCATION, DIRENT * s / BLOCKSIZE) != 0
  }

  lemma PutNoHoles(v: Vol, v': Vol, s: nat, e: Dirent)
    requires DirShape(v) && PutDone(v, v', s, e)
    ensures HasRoot(v') && NoHoles(v')
  {
    hide Raw, BlockOf, Inv;
    forall fb: nat | fb * BLOCKSIZE < v'.inodes[ROOT_LOCATION].size
      ensures Blk(v', ROOT_LOCATION, fb) != 0
    {
      if v.inodes[ROOT_LOCATION].size <= fb * BLOCKSIZE {
        assert fb == DIRENT * s / BLOCKSIZE;
      }
    }
  }

  lemma PutShape(v: Vol, v': Vol, s: nat, e: Dirent)
    requires DirShape(v) && PutDone(v, v', s, e)
    requires Distinct(PutSlot(Slots(v), s, e)) && (Used(e) ==> e.ino in v.inodes && e.ino != ROOT_LOCATION)
    ensures DirShape(v') && Slots(v') == PutSlot(Slots(v), s, e)
  {
    PutNoHoles(v, v', s, e);
    SlotsWritten(v, v', s, e);
    hide Raw, BlockOf, Inv, Blk, SlotAt;
  }
}
