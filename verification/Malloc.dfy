/**
 The user-level heap (lib/libc/malloc.c). Memory is counted in cells of
 MBLOCKSIZE (8) bytes from the heap base; a header is one cell.
 */
module Malloc {
  const MBLOCKSIZE := 8
  const TWO31 := 0x8000_0000
  const TWO32 := 0x1_0000_0000

  /** Where the addresses of user programs end. */
  const USERTOP := 0x8000_0000

  const BEEF := 0xdeadbeef_deadbeef

  /** A cell holds a header, with the sizes of the block below and of its own, or data. */
  datatype Cell = Hdr(prev: nat, next: nat, inuse: bool) | Data(value: nat)

  /** A block of the heap: len cells from start on, the first of them its header. */
  datatype Block = Block(start: nat, len: nat, inuse: bool)

  /** The address and the size of a block's data. */
  function DataOf(b: Block): nat
  {
    b.start + 1
  }

  function Room(b: Block): int
  {
    b.len - 1
  }

  // ----- the invariant -----

  /** The size a header at place k gives for the block below. */
  function Below(bs: seq<Block>, k: nat): nat
    requires k <= |bs|
  {
    if k == 0 then 0 else bs[k - 1].len
  }

  ghost predicate BlockOk(mem: seq<Cell>, bs: seq<Block>, k: nat)
    requires k < |bs|
  {
    && bs[k].len >= 1 && bs[k].start + bs[k].len <= |mem|
    && bs[k].start == (if k == 0 then 0 else bs[k - 1].start + bs[k - 1].len)
    && mem[bs[k].start] == Hdr(Below(bs, k), bs[k].len, bs[k].inuse)
  }

  /** Where the last block ends. */
  function Top(bs: seq<Block>): nat
  {
    if bs == [] then 0 else bs[|bs| - 1].start + bs[|bs| - 1].len
  }

  /** The blocks tile the heap, and the sizes in their headers agree with each other. */
  ghost predicate Tiled(mem: seq<Cell>, bs: seq<Block>)
  {
    (forall k: nat :: k < |bs| ==> BlockOk(mem, bs, k)) && |mem| == Top(bs)
  }

  /** No two free blocks are neighbours. */
  ghost predicate Coalesced(bs: seq<Block>)
  {
    forall k :: 0 < k < |bs| ==> bs[k - 1].inuse || bs[k].inuse
  }

  ghost predicate HeapOk(mem: seq<Cell>, bs: seq<Block>)
  {
    Tiled(mem, bs) && Coalesced(bs)
  }

  /** The blocks in use. */
  ghost function Live(bs: seq<Block>): set<Block>
  {
    set k | 0 <= k < |bs| && bs[k].inuse :: bs[k]
  }

  lemma LiveIn(bs: seq<Block>, b: Block)
    ensures b in Live(bs) <==> b in bs && b.inuse
  {
  }

  /** Later blocks start later. */
  lemma {:induction false} Ordered(mem: seq<Cell>, bs: seq<Block>, i: nat, j: nat)
    requires Tiled(mem, bs) && i < j < |bs|
    ensures bs[i].start + bs[i].len <= bs[j].start
  {
    assert BlockOk(mem, bs, j);
    if i + 1 < j {
      Ordered(mem, bs, i, j - 1);
      assert BlockOk(mem, bs, j - 1);
    }
  }

  /** Blocks do not overlap. */
  lemma Disjoint(mem: seq<Cell>, bs: seq<Block>, b: Block, c: Block)
    requires Tiled(mem, bs) && b in bs && c in bs && b != c
    ensures b.start + b.len <= c.start || c.start + c.len <= b.start
  {
    var i, j :| 0 <= i < |bs| && bs[i] == b && 0 <= j < |bs| && bs[j] == c;
    if i < j { Ordered(mem, bs, i, j); } else { Ordered(mem, bs, j, i); }
  }

  /** With nothing in use the heap is empty or a single free block. */
  lemma AllFreed(mem: seq<Cell>, bs: seq<Block>)
    requires HeapOk(mem, bs) && Live(bs) == {}
    ensures |bs| <= 1 && (|bs| == 1 ==> bs[0] == Block(0, |mem|, false))
  {
    hide Live;
    if |bs| > 0 {
      assert BlockOk(mem, bs, 0);
      LiveIn(bs, bs[0]);
    }
    if |bs| > 1 {
      LiveIn(bs, bs[1]);
    }
  }

  /** The data of every block of live is untouched. */
  ghost predicate KeepsData(mem: seq<Cell>, mem': seq<Cell>, live: set<Block>)
  {
    |mem| <= |mem'| && forall b, i :: b in live && b.start < i < b.start + b.len && i < |mem| ==> mem'[i] == mem[i]
  }

  // ----- the changes the operations make -----

  /** Block k marked in use or free. */
  ghost function Marked(bs: seq<Block>, k: nat, inuse: bool): seq<Block>
    requires k < |bs|
  {
    bs[k := bs[k].(inuse := inuse)]
  }

  lemma MarkTiled(mem: seq<Cell>, bs: seq<Block>, k: nat, inuse: bool)
    requires Tiled(mem, bs) && k < |bs|
    ensures bs[k].start < |mem| && mem[bs[k].start].Hdr?
    ensures Tiled(mem[bs[k].start := mem[bs[k].start].(inuse := inuse)], Marked(bs, k, inuse))
  {
    assert BlockOk(mem, bs, k);
    var mem', bs' := mem[bs[k].start := mem[bs[k].start].(inuse := inuse)], Marked(bs, k, inuse);
    forall j: nat | j < |bs'|
      ensures BlockOk(mem', bs', j)
    {
      assert BlockOk(mem, bs, j);
      if j < k { Ordered(mem, bs, j, k); } else if k < j { Ordered(mem, bs, k, j); }
    }
  }

  /** Block k cut after n data cells, the rest a free block. */
  ghost function Split(bs: seq<Block>, k: nat, n: nat): seq<Block>
    requires k < |bs| && n + 1 < bs[k].len
  {
    bs[..k] + [Block(bs[k].start, n + 1, bs[k].inuse), Block(bs[k].start + n + 1, bs[k].len - n - 1, false)]
        + bs[k + 1..]
  }

  lemma SplitAt(bs: seq<Block>, k: nat, n: nat, j: nat)
    requires k < |bs| && n + 1 < bs[k].len && j < |bs| + 1
    ensures |Split(bs, k, n)| == |bs| + 1
    ensures Split(bs, k, n)[j] ==
      if j < k then bs[j]
      else if j == k then Block(bs[k].start, n + 1, bs[k].inuse)
      else if j == k + 1 then Block(bs[k].start + n + 1, bs[k].len - n - 1, false)
      else bs[j - 1]
  {
  }

  /** The headers __malloc_split writes. */
  ghost predicate SplitMem(mem: seq<Cell>, mem': seq<Cell>, bs: seq<Block>, k: nat, n: nat)
    requires k < |bs| && n + 1 < bs[k].len && Tiled(mem, bs)
  {
    var b := bs[k];
    && |mem'| == |mem| && b.start + n + 1 < |mem|
    && mem'[b.start] == Hdr(Below(bs, k), n + 1, b.inuse)
    && mem'[b.start + n + 1] == Hdr(n + 1, b.len - n - 1, false)
    && (k + 1 < |bs| ==>
         bs[k + 1].start < |mem| && mem'[bs[k + 1].start] == Hdr(b.len - n - 1, bs[k + 1].len, bs[k + 1].inuse))
    && forall i ::
         0 <= i < |mem| && i != b.start && i != b.start + n + 1 && (k + 1 < |bs| ==> i != bs[k + 1].start) ==>
           mem'[i] == mem[i]
  }

  lemma SplitTiled(mem: seq<Cell>, mem': seq<Cell>, bs: seq<Block>, k: nat, n: nat)
    requires Tiled(mem, bs) && k < |bs| && n + 1 < bs[k].len && SplitMem(mem, mem', bs, k, n)
    ensures Tiled(mem', Split(bs, k, n))
  {
    var bs' := Split(bs, k, n);
    SplitAt(bs, k, n, k);
    SplitAt(bs, k, n, |bs|);
    forall j: nat | j < |bs'|
      ensures BlockOk(mem', bs', j)
    {
      SplitBlock(mem, mem', bs, k, n, j);
    }
  }

  lemma SplitBlock(mem: seq<Cell>, mem': seq<Cell>, bs: seq<Block>, k: nat, n: nat, j: nat)
    requires Tiled(mem, bs) && k < |bs| && n + 1 < bs[k].len && SplitMem(mem, mem', bs, k, n) && j < |bs| + 1
    ensures |Split(bs, k, n)| == |bs| + 1 && BlockOk(mem', Split(bs, k, n), j)
  {
    SplitAt(bs, k, n, j);
    if j > 0 { SplitAt(bs, k, n, j - 1); }
    hide Split;
    assert BlockOk(mem, bs, k);
    if j < k {
      assert BlockOk(mem, bs, j);
      Ordered(mem, bs, j, k);
      if k + 1 < |bs| { Ordered(mem, bs, j, k + 1); }
    } else if j > k + 1 {
      assert BlockOk(mem, bs, j - 1);
      Ordered(mem, bs, k, j - 1);
      assert BlockOk(mem, bs, k + 1);
      if j - 1 > k + 1 { Ordered(mem, bs, k + 1, j - 1); }
    }
  }

  /** Blocks k and k + 1, both free, made one. */
  ghost function Merged(bs: seq<Block>, k: nat): seq<Block>
    requires k + 1 < |bs|
  {
    bs[..k] + [Block(bs[k].start, bs[k].len + bs[k + 1].len, false)] + bs[k + 2..]
  }

  lemma MergedAt(bs: seq<Block>, k: nat, j: nat)
    requires k + 1 < |bs| && j < |bs| - 1
    ensures |Merged(bs, k)| == |bs| - 1
    ensures Merged(bs, k)[j] ==
      if j < k then bs[j] else if j == k then Block(bs[k].start, bs[k].len + bs[k + 1].len, false) else bs[j + 1]
  {
  }

  /** The cells __malloc_trymerge writes. */
  ghost predicate MergeMem(mem: seq<Cell>, mem': seq<Cell>, bs: seq<Block>, k: nat)
    requires k + 1 < |bs| && Tiled(mem, bs)
  {
    var b, c := bs[k], bs[k + 1];
    && |mem'| == |mem| && b.start < |mem|
    && mem'[b.start] == Hdr(Below(bs, k), b.len + c.len, false)
    && (k + 2 < |bs| ==>
         bs[k + 2].start < |mem| && mem'[bs[k + 2].start] == Hdr(b.len + c.len, bs[k + 2].len, bs[k + 2].inuse))
    && forall i :: 0 <= i < |mem| && i != b.start && i != c.start && (k + 2 < |bs| ==> i != bs[k + 2].start) ==>
         mem'[i] == mem[i]
  }

  lemma MergeBlock(mem: seq<Cell>, mem': seq<Cell>, bs: seq<Block>, k: nat, j: nat)
    requires Tiled(mem, bs) && k + 1 < |bs| && MergeMem(mem, mem', bs, k) && j < |bs| - 1 && !bs[k].inuse
    ensures |Merged(bs, k)| == |bs| - 1 && BlockOk(mem', Merged(bs, k), j)
  {
    MergedAt(bs, k, j);
    if j > 0 { MergedAt(bs, k, j - 1); }
    hide Merged;
    assert BlockOk(mem, bs, k) && BlockOk(mem, bs, k + 1);
    if j < k {
      assert BlockOk(mem, bs, j);
      Ordered(mem, bs, j, k);
      Ordered(mem, bs, j, k + 1);
      if k + 2 < |bs| { Ordered(mem, bs, j, k + 2); }
    } else if j > k {
      assert BlockOk(mem, bs, j + 1);
      Ordered(mem, bs, k, j + 1);
      Ordered(mem, bs, k + 1, j + 1);
      assert BlockOk(mem, bs, k + 2);
      if j + 1 > k + 2 { Ordered(mem, bs, k + 2, j + 1); }
    }
  }

  lemma MergeTiled(mem: seq<Cell>, mem': seq<Cell>, bs: seq<Block>, k: nat)
    requires Tiled(mem, bs) && k + 1 < |bs| && MergeMem(mem, mem', bs, k) && !bs[k].inuse
    ensures Tiled(mem', Merged(bs, k))
  {
    var bs' := Merged(bs, k);
    MergedAt(bs, k, |bs| - 2);
    forall j: nat | j < |bs'|
      ensures BlockOk(mem', bs', j)
    {
      MergeBlock(mem, mem', bs, k, j);
    }
    assert BlockOk(mem, bs, k + 1);
  }

  /** A block at the top. */
  lemma GrowTiled(mem: seq<Cell>, more: seq<Cell>, bs: seq<Block>)
    requires Tiled(mem, bs) && more != [] && more[0] == Hdr(Below(bs, |bs|), |more|, true)
    ensures Tiled(mem + more, bs + [Block(|mem|, |more|, true)])
  {
    var mem', bs' := mem + more, bs + [Block(|mem|, |more|, true)];
    forall j: nat | j < |bs'|
      ensures BlockOk(mem', bs', j)
    {
      if j < |bs| {
        assert BlockOk(mem, bs, j);
      }
    }
  }

  // ----- what the changes mean for the blocks in use -----

  lemma MarkLive(mem: seq<Cell>, bs: seq<Block>, k: nat, inuse: bool)
    requires Tiled(mem, bs) && k < |bs|
    ensures Live(Marked(bs, k, inuse)) == Live(bs) - {bs[k]} + (if inuse then {bs[k].(inuse := true)} else {})
  {
    var bs' := Marked(bs, k, inuse);
    forall b
      ensures b in Live(bs') <==> (b in Live(bs) && b != bs[k]) || (inuse && b == bs[k].(inuse := true))
    {
      LiveIn(bs, b);
      LiveIn(bs', b);
      if b in bs && b != bs[k] {
        var j :| 0 <= j < |bs| && bs[j] == b;
        assert bs'[j] == b;
      }
      if b in bs' {
        var j :| 0 <= j < |bs'| && bs'[j] == b;
        if j != k { StartsDiffer(mem, bs, j, k); }
        assert bs'[k] == bs[k].(inuse := inuse);
      }
      assert bs'[k] in bs';
    }
  }

  /** Different places hold blocks that start at different cells. */
  lemma StartsDiffer(mem: seq<Cell>, bs: seq<Block>, i: nat, j: nat)
    requires Tiled(mem, bs) && i < |bs| && j < |bs| && i != j
    ensures bs[i].start != bs[j].start
  {
    assert BlockOk(mem, bs, i) && BlockOk(mem, bs, j);
    if i < j { Ordered(mem, bs, i, j); } else { Ordered(mem, bs, j, i); }
  }

  lemma SplitLive(bs: seq<Block>, k: nat, n: nat)
    requires k < |bs| && n + 1 < bs[k].len && !bs[k].inuse
    ensures Live(Split(bs, k, n)) == Live(bs)
  {
    var bs' := Split(bs, k, n);
    SplitAt(bs, k, n, 0);
    forall b
      ensures b in Live(bs') <==> b in Live(bs)
    {
      LiveIn(bs, b);
      LiveIn(bs', b);
      if b in bs && b.inuse {
        var j: nat :| j < |bs| && bs[j] == b;
        var i := if j < k then j else j + 1;
        SplitAt(bs, k, n, i);
        assert bs'[i] == b;
      }
      if b in bs' && b.inuse {
        var j: nat :| j < |bs'| && bs'[j] == b;
        SplitAt(bs, k, n, j);
        assert bs[if j < k then j else j - 1] == b;
      }
    }
  }

  lemma MergeLive(bs: seq<Block>, k: nat)
    requires k + 1 < |bs| && !bs[k].inuse && !bs[k + 1].inuse
    ensures Live(Merged(bs, k)) == Live(bs)
  {
    var bs' := Merged(bs, k);
    MergedAt(bs, k, 0);
    forall b
      ensures b in Live(bs') <==> b in Live(bs)
    {
      LiveIn(bs, b);
      LiveIn(bs', b);
      if b in bs && b.inuse {
        var j: nat :| j < |bs| && bs[j] == b;
        var i := if j < k then j else j - 1;
        MergedAt(bs, k, i);
        assert bs'[i] == b;
      }
      if b in bs' && b.inuse {
        var j: nat :| j < |bs'| && bs'[j] == b;
        MergedAt(bs, k, j);
        assert bs[if j < k then j else j + 1] == b;
      }
    }
  }

  /** Headers, and the cells of free blocks, are not data of blocks in use. */
  lemma HeaderApart(mem: seq<Cell>, bs: seq<Block>, b: Block, c: Block, i: nat)
    requires Tiled(mem, bs) && b in bs && c in bs && b.inuse && c.start <= i < c.start + c.len
             && (!c.inuse || i == c.start)
    ensures !(b.start < i < b.start + b.len)
  {
    if b != c { Disjoint(mem, bs, b, c); }
  }

  /** A change to cells of this kind keeps all data. */
  lemma DataKept(mem: seq<Cell>, mem': seq<Cell>, bs: seq<Block>, touched: set<nat>)
    requires Tiled(mem, bs) && |mem| <= |mem'| && forall i :: 0 <= i < |mem| && i !in touched ==> mem'[i] == mem[i]
    requires forall i :: i in touched ==>
               exists c :: c in bs && c.start <= i < c.start + c.len && (!c.inuse || i == c.start)
    ensures KeepsData(mem, mem', Live(bs))
  {
    forall b, i | b in Live(bs) && b.start < i < b.start + b.len && i < |mem|
      ensures mem'[i] == mem[i]
    {
      if i in touched {
        var c :| c in bs && c.start <= i < c.start + c.len && (!c.inuse || i == c.start);
        HeaderApart(mem, bs, b, c, i);
      }
    }
  }

  /** The first free block with room for n cells, or the number of blocks. */
  ghost predicate FirstFit(bs: seq<Block>, n: nat, k: nat)
  {
    && k <= |bs| && (k < |bs| ==> !bs[k].inuse && Room(bs[k]) >= n)
    && forall j :: 0 <= j < k ==> bs[j].inuse || Room(bs[j]) < n
  }

  /** The heap starts on a cell boundary and ends inside the address space. */
  ghost predicate InSpace(base: nat, cells: nat)
  {
    0 < base && base % MBLOCKSIZE == 0 && base + cells * MBLOCKSIZE <= USERTOP
  }

  // ----- asking for more memory -----

  /** A size in bytes as a number of cells, with the rounding up done in 32 bits. */
  function Cells(size: nat): nat
  {
    (size + MBLOCKSIZE - 1) % TWO32 / MBLOCKSIZE
  }

  /** What malloc asks of sbrk: the rounded size and a header, added in 32 bits. */
  function Request(size: nat): (q: nat)
    ensures q < TWO32 && q % MBLOCKSIZE == 0
  {
    (Cells(size) + 1) * MBLOCKSIZE % TWO32
  }

  /** sbrk takes a signed number. */
  function Change(request: nat): int
  {
    if request < TWO31 then request else request - TWO32
  }

  /** sbrk refuses when memory runs out, and to go past the address space or below the start of the heap. */
  predicate Refused(base: nat, cells: nat, request: nat, oom: bool)
  {
    var top := cells + Change(request) / MBLOCKSIZE;
    oom || top < 0 || base + top * MBLOCKSIZE > USERTOP
  }

  /** The request moves the break up. */
  predicate Grows(size: nat)
  {
    Change(Request(size)) > 0
  }

  /** Neither the rounding nor the request leaves 31 bits. */
  predicate Sane(size: nat)
  {
    size + 2 * MBLOCKSIZE - 1 < TWO31
  }

  /** Rounding and adding the header go wrong in different ways. */
  lemma Requests(size: nat)
    requires size < TWO32
    ensures Grows(size) <==> Sane(size) || size + MBLOCKSIZE - 1 >= TWO32
    ensures Grows(size) ==> Change(Request(size)) == (Cells(size) + 1) * MBLOCKSIZE
    ensures Sane(size) ==> Cells(size) * MBLOCKSIZE >= size
    ensures !Sane(size) && Grows(size) ==> Cells(size) == 0
    ensures !Grows(size) ==> (Cells(size) + 1) * MBLOCKSIZE >= TWO31
  {
  }

  /** The sizes whose request is nothing at all. */
  lemma AsksForNothing(size: nat)
    requires size < TWO32
    ensures Change(Request(size)) == 0 <==> TWO32 - 2 * MBLOCKSIZE < size <= TWO32 - MBLOCKSIZE
  {
  }

  /** Block b with room for n cells, or one more, is now in use beside the others, whose data is untouched. */
  ghost predicate Given(mem: seq<Cell>, bs: seq<Block>, mem': seq<Cell>, bs': seq<Block>, b: Block, n: nat)
  {
    && b in bs' && b.inuse && n <= Room(b) <= n + 1
    && b !in Live(bs) && Live(bs') == Live(bs) + {b} && KeepsData(mem, mem', Live(bs))
  }

  class UserHeap {
    const base: nat
    var mem: seq<Cell>
    ghost var bs: seq<Block>

    ghost predicate Valid()
      reads this
    {
      HeapOk(mem, bs) && InSpace(base, |mem|)
    }

    /** __malloc_init: an empty heap from the break on, moved up to the next multiple of the cell size. */
    constructor (brk: nat)
      requires 0 < brk <= USERTOP - MBLOCKSIZE
      ensures Valid() && bs == [] && mem == [] && brk <= base < brk + MBLOCKSIZE
    {
      base := if brk % MBLOCKSIZE != 0 then brk + (MBLOCKSIZE - brk % MBLOCKSIZE) else brk;
      mem, bs := [], [];
    }

    /** The address a caller gets for the cell at place r. */
    function Address(r: nat): nat
    {
      base + r * MBLOCKSIZE
    }

    /** What callers get is aligned, and inside the address space. */
    lemma Aligned(r: nat)
      requires Valid() && r <= |mem|
      ensures Address(r) % MBLOCKSIZE == 0 && 0 < Address(r) <= USERTOP
    {
    }

    /** __malloc_sbrk: the break moves by size, read as a signed number, and the place where it was comes back. */
    method Sbrk(size: nat, oom: bool) returns (ok: bool, x: nat)
      requires InSpace(base, |mem|) && size < TWO32 && size % MBLOCKSIZE == 0
      modifies this`mem
      ensures x == |old(mem)| && ok == !Refused(base, |old(mem)|, size, oom)
      ensures !ok ==> mem == old(mem)
      ensures ok ==> InSpace(base, |mem|) && |mem| == |old(mem)| + Change(size) / MBLOCKSIZE
      ensures ok && Change(size) < 0 ==> mem == old(mem)[..|mem|]
      ensures ok && Change(size) >= 0 ==> mem == old(mem) + seq(Change(size) / MBLOCKSIZE, j => Data(0))
    {
      x := |mem|;
      var top := |mem| + Change(size) / MBLOCKSIZE;
      ok := !oom && 0 <= top && base + top * MBLOCKSIZE <= USERTOP;
      if ok {
        mem := if top < |mem| then mem[..top] else mem + seq(top - |mem|, j => Data(0));
      }
    }

    /** __malloc_split. */
    method SplitBlock(i: nat, n: nat, ghost k: nat)
      requires Tiled(mem, bs) && k < |bs| && i == bs[k].start && n < bs[k].len && !bs[k].inuse
      modifies this
      ensures bs == (if old(bs)[k].len - 1 - n < 2 then old(bs) else Split(old(bs), k, n)) && Tiled(mem, bs)
      ensures Live(bs) == Live(old(bs)) && |mem| == |old(mem)| && KeepsData(old(mem), mem, Live(bs))
    {
      assert BlockOk(mem, bs, k);
      var size := mem[i].next - 1;
      if size - n < 2 {
        return;
      }
      ghost var m0 := mem;
      BlockHere(mem, bs, k);
      var next := i + mem[i].next;
      mem := mem[i := mem[i].(next := n + 1)];
      var newer := i + n + 1;
      mem := mem[newer := Hdr(n + 1, size - n, false)];
      if next != |mem| {
        assert BlockOk(m0, bs, k + 1);
        mem := mem[next := mem[next].(prev := size - n)];
      }
      SplitTiled(m0, mem, bs, k, n);
      SplitLive(bs, k, n);
      SplitData(m0, mem, bs, k, n);
      bs := Split(bs, k, n);
    }

    /** The block found is split if it is much too big, and marked in use. */
    method TakeBlock(i: nat, n: nat, ghost k: nat)
      requires Valid() && k < |bs| && i == bs[k].start && n < bs[k].len && !bs[k].inuse
      modifies this
      ensures Valid() && |mem| == |old(mem)|
      ensures k < |bs| && bs[k].inuse && DataOf(bs[k]) == i + 1 && n <= Room(bs[k]) <= n + 1
      ensures bs[k] !in Live(old(bs)) && Live(bs) == Live(old(bs)) + {bs[k]} && KeepsData(old(mem), mem, Live(old(bs)))
    {
      hide Live, KeepsData, Tiled;
      ghost var m0, b0 := mem, bs;
      TakeCoalesced(bs, k, n);
      SplitBlock(i, n, k);
      ghost var m1, b1 := mem, bs;
      SplitFirst(b0, k, n);
      MarkTiled(mem, bs, k, true);
      MarkLive(mem, bs, k, true);
      LiveIn(b1, b1[k]);
      LiveIn(b1, b1[k].(inuse := true));
      NotBoth(m1, b1, k);
      MarkData(m1, b1, k, true);
      mem := mem[i := mem[i].(inuse := true)];
      bs := Marked(bs, k, true);
      KeepsTrans(m0, m1, mem, Live(b0));
    }

    /**
     malloc of size bytes. The lowest free block with room for the rounded size
     is taken; the heap grows only if there is none, and only that can fail.
     A request that does not move the break up hands out a place past the heap.
     The block is in the heap and big enough exactly for a sane size.
     */
    method Malloc(size: nat, oom: bool) returns (r: nat, ghost b: Block)
      requires Valid() && size < TWO32
      modifies this
      ensures r == 0 || Grows(size) ==> Valid()
      ensures r == 0 <==> FirstFit(old(bs), Cells(size), |old(bs)|) && Refused(base, |old(mem)|, Request(size), oom)
      ensures r == 0 ==> bs == old(bs) && mem == old(mem)
      ensures forall k :: 0 <= k < |old(bs)| && FirstFit(old(bs), Cells(size), k) ==>
                r == DataOf(old(bs)[k]) && |mem| == |old(mem)|
      ensures r != 0 && Grows(size) ==> Given(old(mem), old(bs), mem, bs, b, Cells(size)) && r == DataOf(b)
      ensures r != 0 && Grows(size) && FirstFit(old(bs), Cells(size), |old(bs)|) ==>
                && bs == old(bs) + [b] && b.start == |old(mem)| && Room(b) == Cells(size)
                && |mem| == |old(mem)| + Cells(size) + 1
      ensures r != 0 && !Grows(size) ==>
                && r == |old(mem)| + 1 > |mem| && bs == old(bs)
                && |mem| == |old(mem)| + Change(Request(size)) / MBLOCKSIZE && mem == old(mem)[..|mem|]
      ensures r != 0 ==> (b in bs && r == DataOf(b) && Room(b) * MBLOCKSIZE >= size <==> Sane(size))
    {
      hide Live, KeepsData, Tiled, Coalesced, Request, Cells, Change, Refused;
      Requests(size);
      var n := Cells(size);
      var i, rightprevblock := 0, 0;
      ghost var k := 0;
      StartAt(mem, bs);
      while i < |mem|
        invariant Valid() && bs == old(bs) && mem == old(mem) && 0 <= k <= |bs| && rightprevblock == Below(bs, k)
        invariant i == (if k < |bs| then bs[k].start else |mem|)
        invariant forall j :: 0 <= j < k ==> bs[j].inuse || Room(bs[j]) < n
        decreases |mem| - i
      {
        BlockAt(mem, bs, k);
        assert mem[i].prev == rightprevblock;
        rightprevblock := mem[i].next;
        if !mem[i].inuse && mem[i].next - 1 >= n {
          OnlyFirst(bs, n, k);
          TakeBlock(i, n, k);
          b := bs[k];
          BlockHere(mem, bs, k);
          return i + 1, b;
        }
        i := i + mem[i].next;
        k := k + 1;
      }
      EndAt(mem, bs, k);
      OnlyFirst(bs, n, k);
      b := Block(|mem|, n + 1, true);
      var ok, x := Sbrk(Request(size), oom);
      if !ok {
        return 0, b;
      }
      if x < |mem| {
        mem := mem[x := Hdr(rightprevblock, n + 1, true)];
      }
      NotThere(old(mem), bs, b);
      if Grows(size) {
        ghost var more := [Hdr(rightprevblock, n + 1, true)] + seq(n, j => Data(0));
        HeaderFirst(old(mem), n, more[0]);
        GrowTiled(old(mem), more, bs);
        GrowLive(old(mem), more, bs, b);
        bs := bs + [b];
        assert bs[|bs| - 1] == b;
      }
      r := x + 1;
    }

    /** __malloc_trymerge of blocks k and k + 1. The check that their sizes agree cannot fail. */
    method TryMerge(i: nat, next: nat, ghost k: nat)
      requires Tiled(mem, bs) && k + 1 < |bs| && i == bs[k].start && next == bs[k + 1].start
      modifies this
      ensures Tiled(mem, bs) && bs == if old(bs)[k].inuse || old(bs)[k + 1].inuse then old(bs) else Merged(old(bs), k)
      ensures Live(bs) == Live(old(bs)) && |mem| == |old(mem)| && KeepsData(old(mem), mem, Live(bs))
    {
      assert BlockOk(mem, bs, k) && BlockOk(mem, bs, k + 1);
      assert mem[i].next == mem[next].prev;
      if mem[i].inuse || mem[next].inuse {
        return;
      }
      ghost var m0 := mem;
      BlockHere(mem, bs, k + 1);
      var nextnext := next + mem[next].next;
      mem := mem[i := mem[i].(next := mem[i].next + mem[next].next)];
      if nextnext != |mem| {
        assert BlockOk(m0, bs, k + 2);
        mem := mem[nextnext := mem[nextnext].(prev := mem[i].next)];
      }
      mem := mem[next := Data(BEEF)];
      MergeTiled(m0, mem, bs, k);
      MergeLive(bs, k);
      MergeData(m0, mem, bs, k);
      bs := Merged(bs, k);
    }

    /** __malloc_deadbeef over the data of block k. */
    method Wipe(from: nat, n: nat)
      requires from + n <= |mem|
      modifies this`mem
      ensures |mem| == |old(mem)| && forall i :: 0 <= i < |mem| ==>
                mem[i] == if from <= i < from + n then Data(BEEF) else old(mem)[i]
    {
      for i := 0 to n
        invariant |mem| == |old(mem)| && forall j :: 0 <= j < |mem| ==>
                    mem[j] == if from <= j < from + i then Data(BEEF) else old(mem)[j]
      {
        mem := mem[from + i := Data(BEEF)];
      }
    }

    /** Block k marked free and wiped. */
    method Release(i: nat, ghost k: nat)
      requires Tiled(mem, bs) && k < |bs| && i == bs[k].start && bs[k].inuse
      modifies this
      ensures Tiled(mem, bs) && |mem| == |old(mem)| && bs == Marked(old(bs), k, false)
      ensures Live(bs) == Live(old(bs)) - {old(bs)[k]} && KeepsData(old(mem), mem, Live(bs))
    {
      hide Live, KeepsData;
      ghost var m0, b0 := mem, bs;
      assert BlockOk(mem, bs, k);
      MarkTiled(mem, bs, k, false);
      MarkLive(mem, bs, k, false);
      mem := mem[i := mem[i].(inuse := false)];
      bs := Marked(bs, k, false);
      ghost var m1 := mem;
      assert BlockOk(mem, bs, k);
      Wipe(i + 1, mem[i].next - 1);
      WipeTiled(m1, mem, bs, k);
      ReleaseData(m0, mem, b0, bs, k);
    }

    /**
     free of a null pointer, or of the data of block k, which is in use. It
     refuses only the empty block at the top of the heap, whose data address is
     the heap top itself.
     */
    method Free(x: nat, ghost k: nat) returns (ok: bool)
      requires Valid() && (x == 0 || (k < |bs| && bs[k].inuse && x == DataOf(bs[k])))
      modifies this
      ensures Valid() && |mem| == |old(mem)|
      ensures ok <==> x == 0 || !(k == |old(bs)| - 1 && Room(old(bs)[k]) == 0)
      ensures !ok || x == 0 ==> bs == old(bs) && mem == old(mem)
      ensures ok && x != 0 ==> Live(bs) == Live(old(bs)) - {old(bs)[k]} && KeepsData(old(mem), mem, Live(bs))
    {
      hide Live, KeepsData, Tiled, Coalesced;
      if x == 0 {
        return true;
      }
      BlockHere(mem, bs, k);
      if x >= |mem| {
        return false;
      }
      ghost var m0, b0 := mem, bs;
      var mh := x - 1;
      assert mem[mh].Hdr? && mem[mh].inuse;
      Release(mh, k);
      ghost var m1, b1 := mem, bs;
      BlockHere(mem, bs, k);
      var next := mh + mem[mh].next;
      if next != |mem| {
        TryMerge(mh, next, k);
        KeepsTrans(m0, m1, mem, Live(bs));
      }
      ghost var m2, b2 := mem, bs;
      MergeUp(b0, b1, b2, k);
      BlockHere(mem, bs, k);
      if mh != 0 {
        var prev := mh - mem[mh].prev;
        BlockHere(mem, bs, k - 1);
        TryMerge(prev, mh, k - 1);
        KeepsTrans(m0, m2, mem, Live(bs));
      }
      MergeDown(b2, bs, k);
      ok := true;
    }
  }

  lemma MergeData(mem: seq<Cell>, mem': seq<Cell>, bs: seq<Block>, k: nat)
    requires Tiled(mem, bs) && k + 1 < |bs| && !bs[k].inuse && !bs[k + 1].inuse && MergeMem(mem, mem', bs, k)
    ensures KeepsData(mem, mem', Live(bs))
  {
    var touched := {bs[k].start, bs[k + 1].start} + if k + 2 < |bs| then {bs[k + 2].start} else {};
    assert bs[k] in bs && bs[k + 1] in bs && BlockOk(mem, bs, k) && BlockOk(mem, bs, k + 1);
    if k + 2 < |bs| { assert bs[k + 2] in bs && BlockOk(mem, bs, k + 2); }
    hide Live, Merged;
    DataKept(mem, mem', bs, touched);
  }

  lemma WipeTiled(mem: seq<Cell>, mem': seq<Cell>, bs: seq<Block>, k: nat)
    requires Tiled(mem, bs) && k < |bs| && |mem'| == |mem|
    requires forall i :: 0 <= i < |mem| && !(bs[k].start < i < bs[k].start + bs[k].len) ==> mem'[i] == mem[i]
    ensures Tiled(mem', bs)
  {
    forall j: nat | j < |bs|
      ensures BlockOk(mem', bs, j)
    {
      assert BlockOk(mem, bs, j) && BlockOk(mem, bs, k);
      if j < k { Ordered(mem, bs, j, k); } else if k < j { Ordered(mem, bs, k, j); }
    }
  }

  lemma ReleaseData(mem: seq<Cell>, mem': seq<Cell>, bs: seq<Block>, bs': seq<Block>, k: nat)
    requires Tiled(mem, bs) && k < |bs| && |mem'| == |mem| && Live(bs') == Live(bs) - {bs[k]}
    requires forall i :: 0 <= i < |mem| && !(bs[k].start <= i < bs[k].start + bs[k].len) ==> mem'[i] == mem[i]
    ensures KeepsData(mem, mem', Live(bs'))
  {
    forall b, i | b in Live(bs') && b.start < i < b.start + b.len && i < |mem|
      ensures mem'[i] == mem[i]
    {
      LiveIn(bs, b);
      Disjoint(mem, bs, b, bs[k]);
    }
  }

  lemma BlockHere(mem: seq<Cell>, bs: seq<Block>, k: nat)
    requires Tiled(mem, bs) && k < |bs|
    ensures bs[k].start < |mem| && bs[k].len >= 1 && mem[bs[k].start] == Hdr(Below(bs, k), bs[k].len, bs[k].inuse)
    ensures bs[k].start + bs[k].len == (if k + 1 < |bs| then bs[k + 1].start else |mem|)
    ensures bs[k].start != 0 <==> k > 0
    ensures k > 0 ==> bs[k - 1].start + Below(bs, k) == bs[k].start
    ensures k + 1 < |bs| ==> bs[k + 1].start < |mem|
  {
    assert BlockOk(mem, bs, k);
    assert k + 1 < |bs| ==> BlockOk(mem, bs, k + 1);
    assert k > 0 ==> BlockOk(mem, bs, k - 1);
  }

  /** Coalesced, except that block k may be free beside a free block below it. */
  ghost predicate CoalescedBut(bs: seq<Block>, k: nat)
  {
    forall j :: 0 < j < |bs| && j != k ==> bs[j - 1].inuse || bs[j].inuse
  }

  lemma MergeUp(b0: seq<Block>, b1: seq<Block>, b2: seq<Block>, k: nat)
    requires Coalesced(b0) && k < |b0| && b1 == Marked(b0, k, false)
    requires b2 == if k + 1 < |b1| && !b1[k + 1].inuse then Merged(b1, k) else b1
    ensures k < |b2| && !b2[k].inuse && b2[k].start == b0[k].start && CoalescedBut(b2, k)
  {
    if k + 1 < |b1| && !b1[k + 1].inuse {
      MergedAt(b1, k, k);
      forall j | 0 < j < |b2| && j != k
        ensures b2[j - 1].inuse || b2[j].inuse
      {
        MergedAt(b1, k, j);
        MergedAt(b1, k, j - 1);
        hide Merged;
        assert j < k ==> b0[j - 1].inuse || b0[j].inuse;
        assert j == k + 1 ==> b0[k + 2 - 1].inuse || b0[k + 2].inuse;
        assert j > k + 1 ==> b0[j].inuse || b0[j + 1].inuse;
      }
    }
  }

  lemma MergeDown(b2: seq<Block>, b3: seq<Block>, k: nat)
    requires k < |b2| && !b2[k].inuse && CoalescedBut(b2, k)
    requires b3 == if k > 0 && !b2[k - 1].inuse then Merged(b2, k - 1) else b2
    ensures Coalesced(b3)
  {
    if k > 0 && !b2[k - 1].inuse {
      MergedAt(b2, k - 1, k - 1);
      forall j | 0 < j < |b3|
        ensures b3[j - 1].inuse || b3[j].inuse
      {
        MergedAt(b2, k - 1, j);
        MergedAt(b2, k - 1, j - 1);
        hide Merged;
        assert j < k ==> b2[j - 1].inuse || b2[j].inuse;
        assert j >= k ==> b2[j].inuse || b2[j + 1].inuse;
      }
    }
  }

  lemma HeaderFirst(mem: seq<Cell>, n: nat, h: Cell)
    ensures (mem + seq(n + 1, j => Data(0)))[|mem| := h] == mem + ([h] + seq(n, j => Data(0)))
  {
  }

  lemma NotThere(mem: seq<Cell>, bs: seq<Block>, b: Block)
    requires Tiled(mem, bs) && b.start >= |mem|
    ensures b !in bs
  {
    forall k: nat | k < |bs|
      ensures bs[k] != b
    {
      assert BlockOk(mem, bs, k);
    }
  }

  lemma StartAt(mem: seq<Cell>, bs: seq<Block>)
    requires Tiled(mem, bs)
    ensures 0 == if 0 < |bs| then bs[0].start else |mem|
  {
    assert bs != [] ==> BlockOk(mem, bs, 0);
  }

  lemma BlockAt(mem: seq<Cell>, bs: seq<Block>, k: nat)
    requires Tiled(mem, bs) && k <= |bs| && (k < |bs| ==> bs[k].start < |mem|)
    ensures k < |bs| ==> mem[bs[k].start] == Hdr(Below(bs, k), bs[k].len, bs[k].inuse) && bs[k].len >= 1
    ensures k < |bs| ==> bs[k].start + bs[k].len == if k + 1 < |bs| then bs[k + 1].start else |mem|
  {
    if k < |bs| {
      assert BlockOk(mem, bs, k);
      assert k + 1 < |bs| ==> BlockOk(mem, bs, k + 1);
    }
  }

  lemma EndAt(mem: seq<Cell>, bs: seq<Block>, k: nat)
    requires Tiled(mem, bs) && k <= |bs| && |mem| <= if k < |bs| then bs[k].start else |mem|
    ensures k == |bs|
  {
    assert k < |bs| ==> BlockOk(mem, bs, k);
  }

  lemma OnlyFirst(bs: seq<Block>, n: nat, k: nat)
    requires k <= |bs| && (k < |bs| ==> !bs[k].inuse && Room(bs[k]) >= n) && forall j :: 0 <= j < k ==>
               bs[j].inuse || Room(bs[j]) < n
    ensures FirstFit(bs, n, k) && forall j :: 0 <= j <= |bs| && FirstFit(bs, n, j) ==> j == k
  {
    assert FirstFit(bs, n, k);
  }

  lemma SplitFirst(bs: seq<Block>, k: nat, n: nat)
    requires k < |bs| && n < bs[k].len
    ensures var bs' := if bs[k].len - 1 - n < 2 then bs else Split(bs, k, n);
            k < |bs'| && bs'[k].start == bs[k].start && n <= Room(bs'[k]) <= n + 1 && bs'[k].inuse == bs[k].inuse
  {
    if bs[k].len - 1 - n >= 2 { SplitAt(bs, k, n, k); }
  }

  lemma TakeCoalesced(bs: seq<Block>, k: nat, n: nat)
    requires Coalesced(bs) && k < |bs| && n < bs[k].len && !bs[k].inuse
    ensures var bs' := if bs[k].len - 1 - n < 2 then bs else Split(bs, k, n);
            k < |bs'| && Coalesced(Marked(bs', k, true))
  {
    if bs[k].len - 1 - n >= 2 {
      SplitAt(bs, k, n, k);
      var bs' := Marked(Split(bs, k, n), k, true);
      forall j | 0 < j < |bs'|
        ensures bs'[j - 1].inuse || bs'[j].inuse
      {
        SplitAt(bs, k, n, j);
        SplitAt(bs, k, n, j - 1);
        hide Split;
        assert j > k + 2 ==> bs[j - 2].inuse || bs[j - 1].inuse;
        assert j == k + 2 ==> bs[k + 1 - 1].inuse || bs[k + 1].inuse;
      }
    }
  }

  lemma NotBoth(mem: seq<Cell>, bs: seq<Block>, k: nat)
    requires Tiled(mem, bs) && k < |bs| && !bs[k].inuse
    ensures bs[k].(inuse := true) !in bs
  {
    forall j | 0 <= j < |bs|
      ensures bs[j] != bs[k].(inuse := true)
    {
      if j != k { StartsDiffer(mem, bs, j, k); }
    }
  }

  lemma MarkData(mem: seq<Cell>, bs: seq<Block>, k: nat, inuse: bool)
    requires Tiled(mem, bs) && k < |bs|
    ensures bs[k].start < |mem| && mem[bs[k].start].Hdr?
    ensures KeepsData(mem, mem[bs[k].start := mem[bs[k].start].(inuse := inuse)], Live(bs))
  {
    assert BlockOk(mem, bs, k) && bs[k] in bs;
    hide Live;
    DataKept(mem, mem[bs[k].start := mem[bs[k].start].(inuse := inuse)], bs, {bs[k].start});
  }

  lemma KeepsTrans(m0: seq<Cell>, m1: seq<Cell>, m2: seq<Cell>, live: set<Block>)
    requires KeepsData(m0, m1, live) && KeepsData(m1, m2, live)
    ensures KeepsData(m0, m2, live)
  {
    forall b, i | b in live && b.start < i < b.start + b.len && i < |m0|
      ensures m2[i] == m0[i]
    {
      assert m1[i] == m0[i];
    }
  }

  lemma GrowLive(mem: seq<Cell>, more: seq<Cell>, bs: seq<Block>, b: Block)
    requires HeapOk(mem, bs) && b.inuse && b.start == |mem|
    ensures b !in Live(bs) && Live(bs + [b]) == Live(bs) + {b} && Coalesced(bs + [b])
            && KeepsData(mem, mem + more, Live(bs))
  {
    forall c | c in bs
      ensures c != b
    {
      var j :| 0 <= j < |bs| && bs[j] == c;
      assert BlockOk(mem, bs, j);
    }
    LiveIn(bs, b);
    forall c
      ensures c in Live(bs + [b]) <==> c in Live(bs) || c == b
    {
      LiveIn(bs, c);
      LiveIn(bs + [b], c);
    }
  }

  lemma SplitData(mem: seq<Cell>, mem': seq<Cell>, bs: seq<Block>, k: nat, n: nat)
    requires Tiled(mem, bs) && k < |bs| && n + 1 < bs[k].len && !bs[k].inuse && SplitMem(mem, mem', bs, k, n)
    ensures KeepsData(mem, mem', Live(bs))
  {
    var touched := {bs[k].start, bs[k].start + n + 1} + if k + 1 < |bs| then {bs[k + 1].start} else {};
    assert bs[k] in bs;
    if k + 1 < |bs| { assert bs[k + 1] in bs && BlockOk(mem, bs, k + 1); }
    hide Live, Split;
    DataKept(mem, mem', bs, touched);
  }

  // ----- sizes that are not sane -----

  /**
   When the break is taken down by c cells, the blocks in use all stay if and
   only if the last block is free and covers the loss.
   */
  lemma CutLoses(mem: seq<Cell>, bs: seq<Block>, c: nat)
    requires HeapOk(mem, bs) && 0 < c <= |mem|
    ensures bs != []
    ensures (forall b :: b in Live(bs) ==> b.start + b.len <= |mem| - c)
            <==> !bs[|bs| - 1].inuse && c <= bs[|bs| - 1].len
  {
    hide Live;
    var last := |bs| - 1;
    assert BlockOk(mem, bs, last);
    LiveIn(bs, bs[last]);
    if last > 0 {
      assert bs[last - 1].inuse || bs[last].inuse;
      LiveIn(bs, bs[last - 1]);
    }
    if !bs[last].inuse && c <= bs[last].len {
      forall b | b in Live(bs)
        ensures b.start + b.len <= |mem| - c
      {
        LiveIn(bs, b);
        var i: nat :| i < |bs| && bs[i] == b;
        Ordered(mem, bs, i, last);
      }
    }
  }

  /** The request rounds to nothing: two calls in a row that find no free block hand out the same place. */
  method SamePlaceTwice(h: UserHeap, size: nat, again: nat) returns (r: nat, r': nat)
    requires h.Valid() && TWO32 - 2 * MBLOCKSIZE < size <= TWO32 - MBLOCKSIZE && again < TWO32
    requires FirstFit(h.bs, Cells(again), |h.bs|)
    modifies h
    ensures r != 0 && (r' == r || r' == 0)
  {
    AsksForNothing(size);
    AskedNothing(h.mem, h.bs, size);
    hide Cells, Request, Change, Tiled, Coalesced, FirstFit;
    ghost var b;
    r, b := h.Malloc(size, false);
    assert h.mem == old(h.mem);
    r', b := h.Malloc(again, false);
  }

  lemma AskedNothing(mem: seq<Cell>, bs: seq<Block>, size: nat)
    requires Tiled(mem, bs) && |mem| * MBLOCKSIZE < TWO31
    requires TWO32 - 2 * MBLOCKSIZE < size <= TWO32 - MBLOCKSIZE
    ensures !Grows(size) && FirstFit(bs, Cells(size), |bs|)
  {
    forall k: nat | k < |bs|
      ensures Room(bs[k]) < Cells(size)
    {
      assert BlockOk(mem, bs, k);
    }
  }

  /**
   An empty heap, the largest multiple of eight, then eight bytes: both at the
   same place, past the heap the first time.
   */
  method SamePlaceFromEmpty() returns (r: nat, r': nat)
    ensures r == r' == 1
  {
    hide Live, KeepsData;
    var h := new UserHeap(0x1000);
    ghost var b;
    r, b := h.Malloc(0xffff_fff8, false);
    assert h.mem == [];
    r', b := h.Malloc(8, false);
  }

  /** A block of eight bytes is in use, and a request taken as minus sixteen puts the heap top below it. */
  method BreakGoesDown() returns (h: UserHeap, r: nat, r': nat, ghost b: Block)
    ensures b in h.bs && b.inuse && r == DataOf(b) && Room(b) == 1 && h.mem == [] && r' != 0
  {
    hide Live, KeepsData;
    h := new UserHeap(0x1000);
    r, b := h.Malloc(8, false);
    ghost var c;
    r', c := h.Malloc(TWO32 - 24, false);
  }

  /** A block with no data at the heap top cannot be freed. */
  method RefusedAtTop() returns (ok: bool)
    ensures !ok
  {
    hide Live, KeepsData;
    var h := new UserHeap(0x1000);
    var r;
    ghost var b;
    r, b := h.Malloc(0, false);
    ok := h.Free(r, 0);
  }
}
