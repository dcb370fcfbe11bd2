/** The Park and Miller generator by Schrage's division (kern/dev/generic/pseudorand.c). */
module PseudoRand {
  const MULTIPLIER := 16807
  const MODULUS := 0x7fff_ffff
  const K1 := 127773
  const K2 := 2836
  const TWO31 := 0x8000_0000

  predicate IsSeed(s: int)
  {
    1 <= s <= MODULUS - 1
  }

  predicate FitsInt32(x: int)
  {
    -TWO31 <= x < TWO31
  }

  /** The next seed as the article defines it. */
  function NextSeed(s: nat): nat
  {
    MULTIPLIER * s % MODULUS
  }

  /** The intermediate value differs from the product by a multiple of the modulus. */
  lemma Schrage(s: nat)
    requires IsSeed(s)
    ensures var hi, lo := s / K1, s % K1; MULTIPLIER * s == (MULTIPLIER * lo - K2 * hi) + hi * MODULUS
    ensures var hi, lo := s / K1, s % K1; -MODULUS < MULTIPLIER * lo - K2 * hi < MODULUS
  {
    assert MULTIPLIER * K1 + K2 == MODULUS;
  }

  /** The multiplier shares no factor with the modulus: no seed is carried to zero. */
  lemma NeverZero(s: nat)
    requires IsSeed(s)
    ensures var hi, lo := s / K1, s % K1; MULTIPLIER * lo - K2 * hi != 0
  {
    var hi, lo := s / K1, s % K1;
    if MULTIPLIER * lo == K2 * hi {
      var q := Coprime(hi, lo);
    }
  }

  /** 16807 is 7 to the 5th, and 2836 is no multiple of 7. */
  lemma Coprime(hi: nat, lo: nat) returns (q: nat)
    requires MULTIPLIER * lo == K2 * hi
    ensures hi == MULTIPLIER * q
  {
    var h1 := Seven(hi, 2401 * lo);
    var h2 := Seven(h1, 343 * lo);
    var h3 := Seven(h2, 49 * lo);
    var h4 := Seven(h3, 7 * lo);
    q := Seven(h4, lo);
  }

  lemma Seven(h: nat, l: nat) returns (q: nat)
    requires 7 * l == K2 * h
    ensures h == 7 * q && l == K2 * q
  {
    q := h / 7;
    assert h == 7 * q + h % 7;
    assert K2 * h == 7 * (405 * h) + h;
  }

  lemma Residue(x: int, hi: nat, t: nat)
    requires t == x + hi * MODULUS && -MODULUS < x < MODULUS && x != 0
    ensures t % MODULUS == if x <= 0 then x + MODULUS else x
  {
    if x > 0 {
      assert t == MODULUS * hi + x;
    } else {
      assert t == MODULUS * (hi - 1) + (x + MODULUS);
    }
  }

  class PseudoRand {
    var seed: nat

    ghost predicate Valid()
      reads this
    {
      IsSeed(seed)
    }

    /** pseudoattach_pseudorand. */
    constructor ()
      ensures Valid() && seed == 305824
    {
      seed := 305824;
    }

    /** pseudorand_random: no intermediate value leaves 32 signed bits, and the seed goes to the next one. */
    method Random() returns (r: nat)
      requires Valid()
      modifies this
      ensures Valid() && seed == NextSeed(old(seed)) && r == seed - 1 && r <= MODULUS - 2
    {
      Schrage(seed);
      NeverZero(seed);
      ghost var s := seed;
      var hi, lo := seed / K1, seed % K1;
      assert FitsInt32(MULTIPLIER * lo) && FitsInt32(K2 * hi);
      var tmp := MULTIPLIER * lo - K2 * hi;
      assert FitsInt32(tmp);
      Residue(tmp, hi, MULTIPLIER * s);
      if tmp <= 0 {
        tmp := tmp + MODULUS;
      }
      assert FitsInt32(tmp);
      seed := tmp;
      return seed - 1;
    }

    /** Any number of draws. */
    method Draw(n: nat) returns (out: seq<nat>)
      requires Valid()
      modifies this
      ensures Valid() && |out| == n && forall i :: 0 <= i < n ==>
                out[i] == Seeds(old(seed), i + 1) - 1 && 0 <= out[i] <= MODULUS - 2
    {
      out := [];
      for i := 0 to n
        invariant Valid() && |out| == i && seed == Seeds(old(seed), i)
        invariant forall k :: 0 <= k < i ==> out[k] == Seeds(old(seed), k + 1) - 1 && 0 <= out[k] <= MODULUS - 2
      {
        var r := Random();
        out := out + [r];
      }
    }
  }

  /** The seed after n steps. */
  function Seeds(s: nat, n: nat): nat
  {
    if n == 0 then s else NextSeed(Seeds(s, n - 1))
  }

  function Power(n: nat): nat
  {
    if n == 0 then 1 else MULTIPLIER * Power(n - 1)
  }

  /** It is the first seed times the multiplier's n-th power, modulo the modulus. */
  lemma {:induction false} SeedsPower(s: nat, n: nat)
    requires IsSeed(s)
    ensures Seeds(s, n) == s * Power(n) % MODULUS
  {
    hide IsSeed;
    if n == 0 {
      SmallSeed(s);
    } else {
      SeedsPower(s, n - 1);
      ModTimes(s * Power(n - 1));
      assert MULTIPLIER * (s * Power(n - 1)) == s * (MULTIPLIER * Power(n - 1));
    }
  }

  lemma SmallSeed(s: nat)
    requires IsSeed(s)
    ensures s == s * 1 % MODULUS
  {
  }

  lemma ModTimes(x: nat)
    ensures MULTIPLIER * (x % MODULUS) % MODULUS == MULTIPLIER * x % MODULUS
  {
    var q, r := x / MODULUS, x % MODULUS;
    assert MULTIPLIER * x == MULTIPLIER * r + (MULTIPLIER * q) * MODULUS;
  }
}
