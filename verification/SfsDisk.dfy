/**
 The on-disk layout of SFS: 512-byte blocks, the big-endian 32-bit words inside
 them, and the inode structure (kern/include/kern/sfs.h).
 */
module SfsDisk {

  const BLOCKSIZE := 512
  const NDIRECT := 15
  const DBPERIDB := 128
  const NAMELEN := 60
  const SB_LOCATION := 0
  const ROOT_LOCATION := 1
  const MAP_LOCATION := 2
  const NOINO := 0
  const BLOCKBITS := 4096

  /** Logical blocks a file can have: the direct ones and those of the one indirect block. */
  const MAXFILEBLOCKS := NDIRECT + DBPERIDB

  const TYPE_INVAL := 0
  const TYPE_FILE := 1
  const TYPE_DIR := 2

  const TWO16 := 0x1_0000
  const TWO31 := 0x8000_0000
  const TWO32 := 0x1_0000_0000

  type byte = x: int | 0 <= x < 256
  type Block = b: seq<byte> | |b| == BLOCKSIZE witness seq(BLOCKSIZE, i => 0)

  datatype Errno = OK | ENOSPC | EINVAL | ENOENT | EEXIST | ENAMETOOLONG

  function BitmapSize(nblocks: nat): nat
  {
    (nblocks + BLOCKBITS - 1) / BLOCKBITS * BLOCKBITS
  }

  function BitBlocks(nblocks: nat): nat
  {
    BitmapSize(nblocks) / BLOCKBITS
  }

  function ZeroBlock(): (b: Block)
  {
    seq(BLOCKSIZE, i => 0)
  }

  /** Word i of a block, most significant byte first. */
  function Word(b: Block, i: nat): (w: nat)
    requires i < DBPERIDB
    ensures w < TWO32
  {
    var b0: int, b1: int, b2: int, b3: int := b[4*i], b[4*i+1], b[4*i+2], b[4*i+3];
    b0 * 0x100_0000 + b1 * 0x1_0000 + b2 * 0x100 + b3
  }

  function Words(b: Block): (ws: seq<nat>)
    ensures |ws| == DBPERIDB
    ensures forall i :: 0 <= i < DBPERIDB ==> ws[i] == Word(b, i)
  {
    seq(DBPERIDB, i requires 0 <= i < DBPERIDB => Word(b, i))
  }

  predicate IsWord(w: nat) { w < TWO32 }

  predicate AreWords(ws: seq<nat>)
  {
    forall i :: 0 <= i < |ws| ==> IsWord(ws[i])
  }

  /** Byte k of a word, counting from the most significant one. */
  function ByteOf(w: nat, k: nat): (b: byte)
    requires k < 4
  {
    if k == 0 then (w / 0x100_0000) % 256
    else if k == 1 then (w / 0x1_0000) % 256
    else if k == 2 then (w / 0x100) % 256
    else w % 256
  }

  function FromWords(ws: seq<nat>): (b: Block)
    requires |ws| == DBPERIDB
  {
    seq(BLOCKSIZE, k requires 0 <= k < BLOCKSIZE => ByteOf(ws[k/4], k%4))
  }

  lemma WordBytes(w: nat)
    requires IsWord(w)
    ensures ByteOf(w, 0) * 0x100_0000 + ByteOf(w, 1) * 0x1_0000 + ByteOf(w, 2) * 0x100 + ByteOf(w, 3) == w
  {
    var a := w / 0x100;
    var b := w / 0x1_0000;
    var c := w / 0x100_0000;
    assert w == a * 256 + w % 256;
    assert b == a / 256 && c == b / 256;
    assert c % 256 == c;
  }

  /** A block written from a buffer of words reads back as those words. */
  lemma WordsRoundTrip(ws: seq<nat>)
    requires |ws| == DBPERIDB && AreWords(ws)
    ensures Words(FromWords(ws)) == ws
  {
    var b := FromWords(ws);
    forall i | 0 <= i < DBPERIDB
      ensures Word(b, i) == ws[i]
    {
      WordBytes(ws[i]);
      assert (4*i)/4 == i && (4*i+1)/4 == i && (4*i+2)/4 == i && (4*i+3)/4 == i;
      assert (4*i)%4 == 0 && (4*i+1)%4 == 1 && (4*i+2)%4 == 2 && (4*i+3)%4 == 3;
    }
  }

  /** Words lie on the disk most significant byte first. */
  lemma BigEndian(ws: seq<nat>, i: nat)
    requires |ws| == DBPERIDB && AreWords(ws) && i < DBPERIDB
    ensures var b := FromWords(ws);
            (b[4*i] as int) * 0x100_0000 + (b[4*i+1] as int) * 0x1_0000 + (b[4*i+2] as int) * 0x100 + b[4*i+3] as int
            == ws[i]
  {
    WordBytes(ws[i]);
    assert (4*i)/4 == i && (4*i+1)/4 == i && (4*i+2)/4 == i && (4*i+3)/4 == i;
    assert (4*i)%4 == 0 && (4*i+1)%4 == 1 && (4*i+2)%4 == 2 && (4*i+3)%4 == 3;
  }

  lemma PackedBytes(b0: byte, b1: byte, b2: byte, b3: byte, w: nat)
    requires w == (b0 as int) * 0x100_0000 + (b1 as int) * 0x1_0000 + (b2 as int) * 0x100 + b3 as int
    ensures ByteOf(w, 0) == b0 && ByteOf(w, 1) == b1 && ByteOf(w, 2) == b2 && ByteOf(w, 3) == b3
  {
    assert w / 0x100 == (b0 as int) * 0x1_0000 + (b1 as int) * 0x100 + b2 as int;
    assert w / 0x1_0000 == (b0 as int) * 0x100 + b1 as int;
    assert w / 0x100_0000 == b0 as int;
  }

  lemma BytesOfWord(b: Block, k: nat)
    requires k < BLOCKSIZE
    ensures ByteOf(Word(b, k / 4), k % 4) == b[k]
  {
    var i, r := k / 4, k % 4;
    assert k == 4 * i + r;
    PackedBytes(b[4*i], b[4*i+1], b[4*i+2], b[4*i+3], Word(b, i));
  }

  /** Reading a block as words and writing those back changes nothing. */
  lemma BlockRoundTrip(b: Block)
    ensures FromWords(Words(b)) == b
  {
    forall k | 0 <= k < BLOCKSIZE
      ensures FromWords(Words(b))[k] == b[k]
    {
      BytesOfWord(b, k);
    }
  }

  lemma ZeroBlockWords(i: nat)
    requires i < DBPERIDB
    ensures Word(ZeroBlock(), i) == 0
  {
  }

  lemma ZeroWords()
    ensures Words(ZeroBlock()) == seq(DBPERIDB, i => 0)
  {
    forall i | 0 <= i < DBPERIDB
      ensures Word(ZeroBlock(), i) == 0
    {
      ZeroBlockWords(i);
    }
  }

  datatype Inode = Inode(size: nat, kind: nat, links: nat, direct: seq<nat>, indirect: nat)

  ghost predicate InodeFits(i: Inode)
  {
    && IsWord(i.size) && i.kind < TWO16 && i.links < TWO16
    && |i.direct| == NDIRECT && AreWords(i.direct) && IsWord(i.indirect)
  }

  /** An inode of a mounted volume: it fits its block, and its size is a file offset. */
  ghost predicate InodeFine(i: Inode)
  {
    InodeFits(i) && i.size < TWO31
  }

  function InodeWords(i: Inode): (ws: seq<nat>)
    requires |i.direct| == NDIRECT
    ensures |ws| == DBPERIDB
    ensures ws[0] == i.size && ws[1] == i.kind * TWO16 + i.links && ws[17] == i.indirect
    ensures ws[2..17] == i.direct
    ensures InodeFits(i) ==> AreWords(ws)
  {
    seq(DBPERIDB, k requires 0 <= k < DBPERIDB =>
      if k == 0 then i.size
      else if k == 1 then i.kind * TWO16 + i.links
      else if k < 17 then i.direct[k-2]
      else if k == 17 then i.indirect
      else 0)
  }

  function InodeOfWords(ws: seq<nat>): (i: Inode)
    requires |ws| == DBPERIDB
    ensures AreWords(ws) ==> InodeFits(i)
  {
    Inode(ws[0], ws[1] / TWO16, ws[1] % TWO16, ws[2..17], ws[17])
  }

  function EncodeInode(i: Inode): Block
    requires |i.direct| == NDIRECT
  {
    FromWords(InodeWords(i))
  }

  function DecodeInode(b: Block): (i: Inode)
    ensures InodeFits(i)
  {
    InodeOfWords(Words(b))
  }

  lemma HalfWords(hi: nat, lo: nat)
    requires lo < TWO16
    ensures (hi * TWO16 + lo) / TWO16 == hi && (hi * TWO16 + lo) % TWO16 == lo
  {
  }

  lemma InodeWordsRoundTrip(i: Inode)
    requires InodeFits(i)
    ensures InodeOfWords(InodeWords(i)) == i
  {
    HalfWords(i.kind, i.links);
  }

  /** Writing an inode out and loading it again gives it back. */
  lemma InodeRoundTrip(i: Inode)
    requires InodeFits(i)
    ensures DecodeInode(EncodeInode(i)) == i
  {
    var ws := InodeWords(i);
    WordsRoundTrip(ws);
    InodeWordsRoundTrip(i);
  }

  /** A cleared block loads as an empty inode of no type. */
  lemma ZeroInode()
    ensures DecodeInode(ZeroBlock()) == Inode(0, TYPE_INVAL, 0, seq(NDIRECT, i => 0), 0)
  {
    var ws := Words(ZeroBlock());
    forall k | 0 <= k < DBPERIDB
      ensures ws[k] == 0
    {
      ZeroBlockWords(k);
    }
    assert ws[2..17] == seq(NDIRECT, i => 0);
  }
}
