/** Fixed-size arrays of bits for storage management (kern/lib/bitmap.c). */
module Bitmap {

  const BITS_PER_WORD := 8

  /** The mask 1 << offset of one byte. */
  function Mask(offset: nat): (m: bv8)
    requires offset < BITS_PER_WORD
    ensures m != 0
  {
    if offset == 0 then 0x01 else if offset == 1 then 0x02 else if offset == 2 then 0x04
    else if offset == 3 then 0x08 else if offset == 4 then 0x10 else if offset == 5 then 0x20
    else if offset == 6 then 0x40 else 0x80
  }

  /** Bits are counted from the least significant one. */
  lemma MaskIsShift(offset: nat)
    requires offset < BITS_PER_WORD
    ensures Mask(offset) == (1 as bv8) << offset
  {
    if offset == 0 {
    } else if offset == 1 {
    } else if offset == 2 {
    } else if offset == 3 {
    } else if offset == 4 {
    } else if offset == 5 {
    } else if offset == 6 {
    }
  }

  predicate BitSet(w: bv8, offset: nat)
    requires offset < BITS_PER_WORD
  {
    w & Mask(offset) != 0
  }

  lemma SetBit(w: bv8, k: nat, l: nat)
    requires k < BITS_PER_WORD && l < BITS_PER_WORD
    ensures BitSet(w | Mask(k), l) == (k == l || BitSet(w, l))
  {
  }

  lemma ClearBit(w: bv8, k: nat, l: nat)
    requires k < BITS_PER_WORD && l < BITS_PER_WORD
    ensures BitSet(w & !Mask(k), l) == (k != l && BitSet(w, l))
  {
  }

  /** A byte other than 0xff has a clear bit, so the inner search always succeeds. */
  lemma NotAllBits(w: bv8)
    requires w != 0xff
    ensures exists k: nat :: k < BITS_PER_WORD && !BitSet(w, k)
  {
    if forall k: nat :: k < BITS_PER_WORD ==> BitSet(w, k) {
      assert BitSet(w, 0) && BitSet(w, 1) && BitSet(w, 2) && BitSet(w, 3);
      assert BitSet(w, 4) && BitSet(w, 5) && BitSet(w, 6) && BitSet(w, 7);
      assert false;
    }
  }

  lemma AllBits()
    ensures forall k: nat :: k < BITS_PER_WORD ==> BitSet(0xff, k)
  {
  }

  /** The lowest clear bit of a byte that is not full. */
  method FirstClear(w: bv8) returns (offset: nat)
    requires w != 0xff
    ensures offset < BITS_PER_WORD && !BitSet(w, offset)
    ensures forall k: nat :: k < offset ==> BitSet(w, k)
  {
    NotAllBits(w);
    offset := 0;
    while BitSet(w, offset)
      invariant offset < BITS_PER_WORD
      invariant forall k: nat :: k < offset ==> BitSet(w, k)
      decreases BITS_PER_WORD - offset
    {
      offset := offset + 1;
    }
  }

  function WordCount(nbits: nat): nat
  {
    (nbits + BITS_PER_WORD - 1) / BITS_PER_WORD
  }

  /** Bit i of the bytes ws. */
  ghost predicate Bit(ws: seq<bv8>, i: nat)
    requires i < BITS_PER_WORD * |ws|
  {
    BitSet(ws[i / BITS_PER_WORD], i % BITS_PER_WORD)
  }

  ghost function BitsOf(ws: seq<bv8>): (s: seq<bool>)
    ensures |s| == BITS_PER_WORD * |ws|
    ensures forall i :: 0 <= i < |s| ==> s[i] == Bit(ws, i)
  {
    seq(BITS_PER_WORD * |ws|, i requires 0 <= i < BITS_PER_WORD * |ws| => Bit(ws, i))
  }

  lemma SetBits(ws: seq<bv8>, ix: nat, offset: nat)
    requires ix < |ws| && offset < BITS_PER_WORD
    ensures BitsOf(ws[ix := ws[ix] | Mask(offset)]) == BitsOf(ws)[ix * BITS_PER_WORD + offset := true]
  {
    var t := ws[ix := ws[ix] | Mask(offset)];
    forall i | 0 <= i < BITS_PER_WORD * |ws|
      ensures Bit(t, i) == (i == ix * BITS_PER_WORD + offset || Bit(ws, i))
    {
      SetBit(ws[ix], offset, i % BITS_PER_WORD);
    }
  }

  lemma ClearBits(ws: seq<bv8>, ix: nat, offset: nat)
    requires ix < |ws| && offset < BITS_PER_WORD
    ensures BitsOf(ws[ix := ws[ix] & !Mask(offset)]) == BitsOf(ws)[ix * BITS_PER_WORD + offset := false]
  {
    var t := ws[ix := ws[ix] & !Mask(offset)];
    forall i | 0 <= i < BITS_PER_WORD * |ws|
      ensures Bit(t, i) == (i != ix * BITS_PER_WORD + offset && Bit(ws, i))
    {
      ClearBit(ws[ix], offset, i % BITS_PER_WORD);
    }
  }

  /** Clearing a bit below n leaves the bits from n on as they are. */
  lemma UnmarkBits(ws: seq<bv8>, n: nat, index: nat)
    requires index < n <= BITS_PER_WORD * |ws|
    ensures var ix, offset := index / BITS_PER_WORD, index % BITS_PER_WORD; var t := ws[ix := ws[ix] & !Mask(offset)];
            && BitsOf(t)[..n] == BitsOf(ws)[..n][index := false]
            && forall i: nat :: n <= i < BITS_PER_WORD * |ws| ==> Bit(t, i) == Bit(ws, i)
  {
    hide Mask, BitSet;
    var ix, offset := index / BITS_PER_WORD, index % BITS_PER_WORD;
    ClearBits(ws, ix, offset);
    var t := ws[ix := ws[ix] & !Mask(offset)];
    forall i: nat | n <= i < BITS_PER_WORD * |ws|
      ensures Bit(t, i) == Bit(ws, i)
    {
      assert BitsOf(t)[i] == BitsOf(ws)[i];
    }
  }

  lemma NoBits()
    ensures forall k: nat :: k < BITS_PER_WORD ==> !BitSet(0, k)
  {
  }

  /** In bytes of which the last has the bits past n set and no other, no bit below n is set. */
  lemma FreshBits(ws: seq<bv8>, n: nat)
    requires |ws| == WordCount(n)
    requires forall k :: 0 <= k < n / BITS_PER_WORD ==> ws[k] == 0
    requires n % BITS_PER_WORD != 0 ==> forall k: nat :: k < BITS_PER_WORD ==>
               BitSet(ws[n / BITS_PER_WORD], k) == (n % BITS_PER_WORD <= k)
    ensures BitsOf(ws)[..n] == seq(n, i => false)
    ensures forall i: nat :: n <= i < BITS_PER_WORD * |ws| ==> Bit(ws, i)
  {
    hide Mask, BitSet;
    NoBits();
    forall i: nat | i < BITS_PER_WORD * |ws|
      ensures Bit(ws, i) == (n <= i)
    {
      if i / BITS_PER_WORD == n / BITS_PER_WORD {
        assert n % BITS_PER_WORD != 0;
      }
    }
  }

  class Map {
    const nbits: nat
    const v: array<bv8>

    /** The bytes cover the bits, and the leftover bits of the last byte are in use for ever. */
    ghost predicate Valid()
      reads this, v
    {
      && v.Length == WordCount(nbits)
      && forall i: nat :: nbits <= i < BITS_PER_WORD * v.Length ==> Bit(v[..], i)
    }

    ghost function Bits(): (s: seq<bool>)
      requires Valid()
      reads this, v
      ensures |s| == nbits
    {
      BitsOf(v[..])[..nbits]
    }

    constructor (n: nat)
      ensures Valid() && fresh(v) && nbits == n
      ensures Bits() == seq(n, i => false)
    {
      var words := WordCount(n);
      nbits := n;
      v := new bv8[words](i => 0);
      new;
      hide Mask, BitSet;
      NoBits();
      if n / BITS_PER_WORD < words {
        var ix := words - 1;
        var j := n - ix * BITS_PER_WORD;
        while j < BITS_PER_WORD
          invariant n - ix * BITS_PER_WORD <= j <= BITS_PER_WORD
          invariant forall k :: 0 <= k < ix ==> v[k] == 0
          invariant forall k: nat :: k < BITS_PER_WORD ==>
            BitSet(v[ix], k) == (n - ix * BITS_PER_WORD <= k < j)
        {
          ghost var w := v[ix];
          v[ix] := v[ix] | Mask(j);
          forall k: nat | k < BITS_PER_WORD
            ensures BitSet(v[ix], k) == (n - ix * BITS_PER_WORD <= k < j + 1)
          {
            SetBit(w, j, k);
          }
          j := j + 1;
        }
      }
      FreshBits(v[..], n);
    }

    /** Marks the lowest clear bit; fails exactly when every bit is marked. */
    method Alloc() returns (ok: bool, index: nat)
      requires Valid()
      modifies v
      ensures Valid()
      ensures !ok ==> Bits() == old(Bits()) && forall i :: 0 <= i < nbits ==> Bits()[i]
      ensures ok ==> index < nbits && !old(Bits())[index] && Bits() == old(Bits())[index := true]
      ensures ok ==> forall i :: 0 <= i < index ==> old(Bits())[i]
    {
      hide Mask;
      var ix := 0;
      while ix < v.Length
        invariant 0 <= ix <= v.Length && v[..] == old(v[..])
        invariant forall i: nat :: i < BITS_PER_WORD * ix ==> Bit(v[..], i)
      {
        if v[ix] != 0xff {
          var offset := FirstClear(v[ix]);
          index := ix * BITS_PER_WORD + offset;
          assert !Bit(v[..], index);
          assert forall i: nat :: ix * BITS_PER_WORD <= i < index ==> Bit(v[..], i);
          SetAt(ix, offset);
          return true, index;
        }
        AllBits();
        ix := ix + 1;
      }
      return false, 0;
    }

    /** v[ix] |= 1 << offset */
    method SetAt(ix: nat, offset: nat)
      requires Valid() && ix < v.Length && offset < BITS_PER_WORD
      modifies v
      ensures Valid() && v[..] == old(v[..])[ix := old(v[ix]) | Mask(offset)]
      ensures BitsOf(v[..]) == old(BitsOf(v[..]))[ix * BITS_PER_WORD + offset := true]
    {
      hide Mask, BitSet;
      SetBits(v[..], ix, offset);
      v[ix] := v[ix] | Mask(offset);
      assert v[..] == old(v[..])[ix := old(v[..])[ix] | Mask(offset)];
      assert forall i: nat :: nbits <= i < BITS_PER_WORD * v.Length ==> BitsOf(v[..])[i];
    }

    method Mark(index: nat)
      requires Valid() && index < nbits && !Bits()[index]
      modifies v
      ensures Valid() && Bits() == old(Bits())[index := true]
    {
      var ix, offset := index / BITS_PER_WORD, index % BITS_PER_WORD;
      SetAt(ix, offset);
    }

    method Unmark(index: nat)
      requires Valid() && index < nbits && Bits()[index]
      modifies v
      ensures Valid() && Bits() == old(Bits())[index := false]
    {
      hide Mask, BitSet, Bit, BitsOf;
      var ix, offset := index / BITS_PER_WORD, index % BITS_PER_WORD;
      UnmarkBits(v[..], nbits, index);
      v[ix] := v[ix] & !Mask(offset);
      assert v[..] == old(v[..])[ix := old(v[..])[ix] & !Mask(offset)];
    }

    method IsSet(index: nat) returns (r: bool)
      requires Valid() && index < nbits
      ensures r == Bits()[index]
    {
      r := BitSet(v[index / BITS_PER_WORD], index % BITS_PER_WORD);
    }
  }
}
