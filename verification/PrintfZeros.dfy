/**
 Exactly when a number printed left-aligned with zero padding still reads back
 (lib/libc/__printf.c, lib/libc/atoi.c).
 */
module PrintfZeros {
  import opened Printf

  lemma ModPlus(x: nat, y: nat)
    ensures (x * TWO32 + y) % TWO32 == y % TWO32
  {
  }

  lemma ModMul(a: nat, b: nat)
    ensures (a % TWO32) * b % TWO32 == a * b % TWO32
  {
    var q, r := a / TWO32, a % TWO32;
    assert a == q * TWO32 + r;
    assert a * b == (q * b) * TWO32 + r * b by { Distribute(q, r, b); }
    ModPlus(q * b, r * b);
  }

  lemma Distribute(q: nat, r: nat, b: nat)
    ensures (q * TWO32 + r) * b == (q * b) * TWO32 + r * b
  {
    assert (q * TWO32 + r) * b == (q * TWO32) * b + r * b;
    assert (q * TWO32) * b == (q * b) * TWO32;
  }

  /** Each zero read after a value multiplies it by ten, in 32 bits. */
  lemma {:induction false} ParseScale(k: nat, val: nat)
    requires val < TWO32
    ensures Parse(Fill('0', k), val) == val * Pow(10, k) % TWO32
  {
    if k > 0 {
      var z := Fill('0', k);
      assert z[1..] == Fill('0', k - 1);
      var w := val * 10 % TWO32;
      assert Parse(z, val) == Parse(z[1..], w);
      ParseScale(k - 1, w);
      ModMul(val * 10, Pow(10, k - 1));
      assert val * 10 * Pow(10, k - 1) == val * Pow(10, k) by { Regroup(val, Pow(10, k - 1)); }
    }
  }

  lemma Regroup(v: nat, p: nat)
    ensures v * 10 * p == v * (10 * p)
  {
  }

  lemma OddTimesOdd(n: nat, m: nat)
    requires n % 2 == 1 && m % 2 == 1
    ensures n * m % 2 == 1
  {
    var h := n / 2;
    assert n == 2 * h + 1;
    assert n * m == 2 * (h * m) + m by { assert (2 * h + 1) * m == 2 * h * m + m; assert 2 * h * m == 2 * (h * m); }
  }

  /** An odd factor does not help a number to be a multiple of a power of two. */
  lemma {:induction false} OddCancel(n: nat, m: nat, e: nat, c: nat) returns (d: nat)
    requires m % 2 == 1 && n * m == c * Pow(2, e)
    ensures n == d * Pow(2, e)
  {
    if e == 0 {
      d := n;
    } else {
      var p := Pow(2, e - 1);
      assert c * Pow(2, e) == 2 * (c * p) by { Halve(c, p); }
      if n % 2 == 1 { OddTimesOdd(n, m); }
      var h := n / 2;
      assert n == 2 * h;
      assert 2 * (h * m) == n * m by { Halve(m, h); assert (2 * h) * m == m * (2 * h); assert m * h == h * m; }
      d := OddCancel(h, m, e - 1, c);
      assert d * Pow(2, e) == 2 * (d * p) by { Halve(d, p); }
    }
  }

  lemma Halve(c: nat, p: nat)
    ensures c * (2 * p) == 2 * (c * p)
  {
  }

  lemma TwoTo32()
    ensures Pow(2, 32) == TWO32
  {
    assert Pow(2, 4) == 16 by { assert Pow(2, 2) == 4; }
    PowAdd(4, 4);
    assert Pow(2, 8) == 256;
    PowAdd(8, 8);
    assert Pow(2, 16) == 65536;
    PowAdd(16, 16);
  }

  lemma {:induction false} PowAdd(a: nat, b: nat)
    ensures Pow(2, a + b) == Pow(2, a) * Pow(2, b)
  {
    if a > 0 {
      PowAdd(a - 1, b);
      assert Pow(2, a + b) == 2 * Pow(2, a - 1 + b);
      assert 2 * (Pow(2, a - 1) * Pow(2, b)) == (2 * Pow(2, a - 1)) * Pow(2, b);
    }
  }

  /** Multiplying by a power of ten changes every nonzero 32-bit number. */
  lemma ScaleMoves(n: nat, k: nat)
    requires 0 < n < TWO32 && k > 0
    ensures n * Pow(10, k) % TWO32 != n
  {
    if n * Pow(10, k) % TWO32 == n {
      var p, q := Pow(10, k), n * Pow(10, k) / TWO32;
      assert p == 10 * Pow(10, k - 1);
      assert p >= 1 by { TenPositive(k); }
      assert n * p == q * TWO32 + n;
      assert n * (p - 1) == q * TWO32 by { assert n * p == n * (p - 1) + n; }
      TwoTo32();
      var d := OddCancel(n, p - 1, 32, q);
    }
  }

  lemma {:induction false} TenPositive(k: nat)
    ensures Pow(10, k) >= 1
  {
    if k > 0 { TenPositive(k - 1); }
  }

  lemma RightZeros(n: nat, k: nat)
    requires n < TWO32
    ensures Parse(Numeral(n, 10) + Fill('0', k), 0) == n * Pow(10, k) % TWO32
  {
    ParseNumeral(n);
    ParseAppend(Numeral(n, 10), Fill('0', k), 0);
    ParseScale(k, n);
  }

  /** A left-aligned field padded with zeros. */
  lemma RightShape(sign: string, num: string, spacing: nat)
    ensures Field(sign, "", num, spacing, true, true) == Fill(' ', 0)
            + (sign + (num + Fill('0', Padding(spacing, |sign| + |""| + |num|))))
  {
    var z := Fill('0', Padding(spacing, |sign| + |""| + |num|));
    hide Fill;
    assert Fill(' ', 0) == "";
    assert "" + sign + "" + "" + num + z == "" + (sign + (num + z));
  }

  function Magnitude(v: int): nat
  {
    if v < 0 then -v else v
  }

  /** What atoi makes of it: the digits and then the zeros. */
  lemma PaddedValue(v: int, spacing: nat)
    requires -TWO31 <= v < TWO31
    ensures var u := Magnitude(v) * Pow(10, Padding(spacing, |Decimal(v, 0, true, true)|)) % TWO32;
            AtoiValue(Decimal(v, spacing, true, true)) == Signed(if v < 0 then (TWO32 - u) % TWO32 else u)
  {
    hide Numeral, Parse, AtoiValue, Fill, Signed, Field, Pow, IsDigit;
    var n := Magnitude(v);
    var sign, num := if v < 0 then "-" else "", Numeral(n, 10);
    var k := Padding(spacing, |sign| + |""| + |num|);
    RightShape(sign, num, spacing);
    RightShape(sign, num, 0);
    assert |Decimal(v, 0, true, true)| == |sign| + |num|;
    RightZeros(n, k);
    ParseNumeral(n);
    FirstDigit(num, Fill('0', k));
    AtoiShape(0, v < 0, num + Fill('0', k), n * Pow(10, k) % TWO32);
  }

  lemma FirstDigit(num: string, rest: string)
    requires num != "" && AllDigits(num)
    ensures num + rest != "" && IsDigit((num + rest)[0])
  {
  }

  /** Left-aligned with zeros, the number reads back exactly when it is zero or fills its field. */
  lemma ZeroPaddingExact(v: int, spacing: nat)
    requires -TWO31 <= v < TWO31
    ensures AtoiValue(Decimal(v, spacing, true, true)) == v
            <==> v == 0 || spacing <= |Decimal(v, 0, true, true)|
  {
    hide AtoiValue, Decimal;
    PaddedValue(v, spacing);
    var n, k := Magnitude(v), Padding(spacing, |Decimal(v, 0, true, true)|);
    var u := n * Pow(10, k) % TWO32;
    if v != 0 && k > 0 {
      ScaleMoves(n, k);
      SignedDiffers(v, u);
    } else if k == 0 {
      assert u == n;
      SignedBack(v);
    } else {
      assert u == 0;
    }
  }

  lemma SignedDiffers(v: int, u: nat)
    requires -TWO31 <= v < TWO31 && u < TWO32 && u != if v < 0 then -v else v
    ensures Signed(if v < 0 then (TWO32 - u) % TWO32 else u) != v
  {
  }
}
