/** Kernel I/O descriptors over one buffer in kernel space (kern/userprog/uio.c). */
module Uio {
  import opened SfsDisk

  /** s with the bytes t written over it from position at. */
  function Splice(s: seq<byte>, at: nat, t: seq<byte>): (r: seq<byte>)
    requires at + |t| <= |s|
    ensures |r| == |s|
    ensures forall i :: 0 <= i < |s| ==> r[i] == if at <= i < at + |t| then t[i - at] else s[i]
  {
    s[..at] + t + s[at + |t|..]
  }

  lemma SpliceNothing(s: seq<byte>, at: nat)
    requires at <= |s|
    ensures Splice(s, at, []) == s
  {
  }

  lemma SpliceSplice(s: seq<byte>, at: nat, t: seq<byte>, u: seq<byte>)
    requires at + |t| + |u| <= |s|
    ensures Splice(Splice(s, at, t), at + |t|, u) == Splice(s, at, t + u)
  {
  }

  /** The fields of a descriptor as a value. */
  datatype State = State(data: seq<byte>, pos: nat, iovlen: nat, offset: nat, resid: nat, write: bool)

  /** t is s after k more bytes were transferred; only those bytes of the buffer may differ. */
  ghost predicate Advanced(s: State, t: State, k: nat)
  {
    && s.pos + s.iovlen <= |s.data| && k <= s.resid <= s.iovlen
    && t.pos == s.pos + k && t.iovlen == s.iovlen - k && t.resid == s.resid - k
    && t.offset == s.offset + k && t.write == s.write
    && |t.data| == |s.data|
    && t.data == Splice(s.data, s.pos, t.data[s.pos..t.pos])
    && (s.write ==> t.data == s.data)
  }

  lemma AdvancedTrans(s: State, t: State, u: State, k: nat, l: nat)
    requires Advanced(s, t, k) && Advanced(t, u, l)
    ensures Advanced(s, u, k + l)
    ensures t.data[s.pos..t.pos] + u.data[t.pos..u.pos] == u.data[s.pos..u.pos]
  {
    SpliceSplice(s.data, s.pos, t.data[s.pos..t.pos], u.data[t.pos..u.pos]);
    assert t.data[s.pos..t.pos] + u.data[t.pos..u.pos] == u.data[s.pos..u.pos];
  }

  lemma MoreZeros(s: State, t: State, u: State, k: nat, l: nat)
    requires Advanced(s, t, k) && Advanced(t, u, l) && (forall i :: s.pos <= i < t.pos ==> t.data[i] == 0)
    requires forall i :: 0 <= i < l ==> u.data[t.pos..u.pos][i] == 0
    ensures forall i :: s.pos <= i < u.pos ==> u.data[i] == 0
  {
    forall i | s.pos <= i < u.pos
      ensures u.data[i] == 0
    {
      if i < t.pos {
        assert Splice(t.data, t.pos, u.data[t.pos..u.pos])[i] == t.data[i];
      } else {
        assert u.data[i] == u.data[t.pos..u.pos][i - t.pos];
      }
    }
  }

  lemma NoneMoved(s: State)
    requires s.pos + s.iovlen <= |s.data| && s.resid <= s.iovlen
    ensures Advanced(s, s, 0)
  {
  }

  function Least(a: nat, b: nat): nat
  {
    if a <= b then a else b
  }

  class Uio {
    var data: seq<byte>   // the buffer the descriptor was set up with
    var pos: nat          // how far iov_kbase has advanced into it
    var iovlen: nat       // iov_len
    var offset: nat       // uio_offset
    var resid: nat        // uio_resid
    const write: bool     // uio_rw == UIO_WRITE

    ghost predicate Valid()
      reads this
    {
      pos + iovlen <= |data| && resid <= iovlen
    }

    ghost function S(): State
      reads this
    {
      State(data, pos, iovlen, offset, resid, write)
    }

    /** mk_kuio: the whole buffer is to be transferred, at offset pos of the object. */
    constructor (buf: seq<byte>, off: nat, rw: bool)
      ensures Valid() && data == buf && pos == 0 && iovlen == resid == |buf| && offset == off && write == rw
    {
      data, pos, iovlen, offset, resid, write := buf, 0, |buf|, off, |buf|, rw;
    }

    /**
     uiomove: transfers n bytes between the kernel buffer buf and the region of
     the descriptor, in the descriptor's direction, or as many as are left. Does
     not clamp n to the residue, so callers keep n or the region within it.
     */
    method Move(buf: seq<byte>, n: nat) returns (buf': seq<byte>)
      requires Valid() && (n <= resid || iovlen <= resid) && n <= |buf|
      modifies this
      ensures Valid() && Advanced(old(S()), S(), Least(n, old(resid)))
      ensures !write ==> buf' == buf && data[old(pos)..pos] == buf[..Least(n, old(resid))]
      ensures write ==> buf' == Splice(buf, 0, data[old(pos)..pos])
    {
      buf' := buf;
      var left, at: nat := n, 0;
      ghost var k := Least(n, resid);
      NoneMoved(S());
      assert Splice(buf, 0, []) == buf;
      while left > 0 && resid > 0
        invariant Valid() && (left < n || (at == 0 && S() == old(S()) && buf' == buf))
        invariant left < n ==> left == 0 || resid == 0
        invariant left < n || k == 0 ==> Advanced(old(S()), S(), k) && Swapped(buf, buf', data[old(pos)..pos])
        decreases left
      {
        var size := if iovlen > left then left else iovlen;
        buf' := Chunk(buf', at, size);
        left, at := left - size, at + size;
      }
    }

    /** What the descriptor's direction makes of the bytes moved. */
    ghost predicate Swapped(buf: seq<byte>, buf': seq<byte>, moved: seq<byte>)
    {
      |moved| <= |buf| && if write then buf' == Splice(buf, 0, moved) else buf' == buf && moved == buf[..|moved|]
    }

    /** One round of uiomove. */
    method Chunk(buf: seq<byte>, at: nat, size: nat) returns (buf': seq<byte>)
      requires Valid() && at + size <= |buf| && size <= resid
      modifies this
      ensures Valid() && Advanced(old(S()), S(), size)
      ensures write ==> buf' == Splice(buf, at, data[old(pos)..pos])
      ensures !write ==> buf' == buf && data[old(pos)..pos] == buf[at..at + size]
    {
      buf' := buf;
      if write {
        buf' := Splice(buf', at, data[pos..pos + size]);
        assert Splice(data, pos, data[pos..pos + size]) == data;
      } else {
        data := Splice(data, pos, buf[at..at + size]);
      }
      pos, iovlen, resid, offset := pos + size, iovlen - size, resid - size, offset + size;
    }

    /** uiomovezeros: a read of n zero bytes, sixteen at a time. */
    method MoveZeros(n: nat)
      requires Valid() && !write && n <= resid
      modifies this
      ensures Valid() && Advanced(old(S()), S(), n)
      ensures forall i :: old(pos) <= i < pos ==> data[i] == 0
    {
      hide Splice;
      var zeros: seq<byte> := seq(16, i => 0);
      var left := n;
      while left > 0
        invariant 0 <= left <= n && Valid() && Advanced(old(S()), S(), n - left)
        invariant forall i :: old(pos) <= i < pos ==> data[i] == 0
      {
        var amt := if 16 > left then left else 16;
        ghost var s := S();
        var _ := Move(zeros, amt);
        AdvancedTrans(old(S()), s, S(), n - left, amt);
        MoreZeros(old(S()), s, S(), n - left, amt);
        left := left - amt;
      }
    }
  }
}
