/** Printing integers and parsing them back (lib/libc/__printf.c, lib/libc/atoi.c). */
module Printf {
  const TWO31 := 0x8000_0000
  const TWO32 := 0x1_0000_0000

  // ----- numerals -----

  function DigitChar(d: nat): char
    requires d < 16
  {
    "0123456789abcdef"[d]
  }

  /** A number written in a base. */
  function Numeral(n: nat, base: nat): (s: string)
    requires 2 <= base <= 16
    ensures |s| >= 1
    decreases n
  {
    if n < base then [DigitChar(n)] else Below(n, base); Numeral(n / base, base) + [DigitChar(n % base)]
  }

  lemma Below(n: nat, base: nat)
    requires 2 <= base <= n
    ensures n / base < n && n % base < base
  {
  }

  function Pow(b: nat, k: nat): nat
  {
    if k == 0 then 1 else b * Pow(b, k - 1)
  }

  /** A number below 8 to the k has at most k digits in any base from 8 on. */
  lemma {:induction false} NumeralLength(n: nat, base: nat, k: nat)
    requires 8 <= base <= 16 && k >= 1 && n < Pow(8, k)
    ensures |Numeral(n, base)| <= k
    decreases k
  {
    assert k == 1 ==> n < 8;
    if n >= base && k > 1 {
      Quotient(n, base, Pow(8, k - 1));
      NumeralLength(n / base, base, k - 1);
    }
  }

  lemma Quotient(n: nat, base: nat, p: nat)
    requires base >= 8 && n < 8 * p
    ensures n / base < p
  {
    assert n / base <= n / 8 by { Smaller(n, base); }
  }

  lemma Smaller(n: nat, base: nat)
    requires base >= 8
    ensures n / base <= n / 8
  {
    var q := n / base;
    assert q * base <= n;
    assert q * 8 <= q * base;
  }

  lemma EightToEleven()
    ensures Pow(8, 11) == 0x2_0000_0000
  {
    assert Pow(8, 3) == 512 by { assert Pow(8, 2) == 64; }
    assert Pow(8, 6) == 262144 by { assert Pow(8, 5) == 32768 by { assert Pow(8, 4) == 4096; } }
    assert Pow(8, 9) == 0x800_0000 by { assert Pow(8, 8) == 0x100_0000 by { assert Pow(8, 7) == 0x20_0000; } }
    assert Pow(8, 10) == 0x4000_0000;
  }

  /** sizeof(long) * CHAR_BIT / 3 + 2. */
  const NUMBER_BUF_SIZE := 12

  /** The buffer has room for every 32-bit number in every base used, with the terminator. */
  lemma BufferSuffices(n: nat, base: nat)
    requires 8 <= base <= 16 && n < TWO32
    ensures |Numeral(n, base)| + 1 <= NUMBER_BUF_SIZE
  {
    EightToEleven();
    NumeralLength(n, base, 11);
  }

  /** One number fills it to the last byte. */
  lemma BufferIsTight()
    ensures |Numeral(TWO32 - 1, 8)| + 1 == NUMBER_BUF_SIZE
  {
    assert |Numeral(0x3, 8)| == 1;
    assert |Numeral(0x1f, 8)| == 2;
    assert |Numeral(0xff, 8)| == 3;
    assert |Numeral(0x7ff, 8)| == 4;
    assert |Numeral(0x3fff, 8)| == 5;
    assert |Numeral(0x1_ffff, 8)| == 6;
    assert |Numeral(0xf_ffff, 8)| == 7;
    assert |Numeral(0x7f_ffff, 8)| == 8;
    assert |Numeral(0x3ff_ffff, 8)| == 9;
    assert |Numeral(0x1fff_ffff, 8)| == 10;
  }

  /** The last digit of a number, and the number without it. */
  function Last(n: nat, base: nat): (d: nat)
    requires 2 <= base <= 16
    ensures d < base
  {
    n % base
  }

  function Rest(n: nat, base: nat): (r: nat)
    requires 2 <= base <= 16
    ensures r <= n && (r == 0 <==> n < base) && (n > 0 ==> r < n)
  {
    Quot(n, base);
    n / base
  }

  lemma NumeralStep(n: nat, base: nat)
    requires 2 <= base <= 16
    ensures Numeral(n, base) == (if Rest(n, base) == 0 then "" else Numeral(Rest(n, base), base))
            + [DigitChar(Last(n, base))]
  {
    if n < base {
      assert n % base == n by { Small(n, base); }
    }
  }

  lemma Small(n: nat, base: nat)
    requires n < base
    ensures n % base == n
  {
  }

  /** The loop of __pf_printnum: digits go into the buffer from the right, and never run off its left end. */
  method Digits(num: nat, base: nat) returns (text: string)
    requires 8 <= base <= 16 && num < TWO32
    ensures text == Numeral(num, base)
  {
    hide Numeral, Last, Rest, DigitChar;
    var buf := new char[NUMBER_BUF_SIZE];
    var x := NUMBER_BUF_SIZE - 1;
    buf[x] := '\0';
    x := x - 1;
    var xnum: nat := num;
    ghost var done := "";
    BufferSuffices(num, base);
    assert Numeral(num, base) == Numeral(xnum, base) + done;
    var more := true;
    while more
      invariant -1 <= x <= 10
      invariant more ==> Numeral(num, base) == Numeral(xnum, base) + done
      invariant !more ==> done == Numeral(num, base)
      invariant |done| == 10 - x && buf[x + 1..11] == done && buf[11] == '\0'
      decreases more, xnum
    {
      NumeralStep(xnum, base);
      var d := DigitChar(Last(xnum, base));
      buf[x] := d;
      assert buf[x..11] == [d] + done;
      done := [d] + done;
      x := x - 1;
      xnum := Rest(xnum, base);
      more := xnum > 0;
    }
    text := buf[x + 1..11];
  }

  lemma Quot(n: nat, base: nat)
    requires base >= 2
    ensures n / base <= n && (n / base == 0 <==> n < base) && (n > 0 ==> n / base < n)
  {
    var q, r := n / base, n % base;
    assert n == q * base + r;
    if q > 0 { Twice(q, base); }
  }

  lemma Twice(q: nat, base: nat)
    requires q > 0 && base >= 2
    ensures q * base >= 2 * q && q * base >= base
  {
    assert q * base == (q - 1) * base + base;
    assert q * base == q * 2 + q * (base - 2);
  }

  // ----- fields -----

  function Fill(c: char, n: nat): (s: string)
    ensures |s| == n && forall i :: 0 <= i < n ==> s[i] == c
  {
    seq(n, i => c)
  }

  function Padding(spacing: nat, len: nat): nat
  {
    if spacing > len then spacing - len else 0
  }

  /**
   __pf_printstuff: what is printed for a field. Padding goes on the right if
   asked for, else before the prefixes, or after them when it is zeros.
   */
  function Field(prefix: string, prefix2: string, stuff: string, spacing: nat, right: bool, zero: bool): string
  {
    var spc := Padding(spacing, |prefix| + |prefix2| + |stuff|);
    (if !right && !zero then Fill(' ', spc) else "") + prefix + prefix2
    + (if !right && zero then Fill('0', spc) else "") + stuff
    + (if right then Fill(if zero then '0' else ' ', spc) else "")
  }

  /** The text of %d for a 32-bit integer. */
  function Decimal(v: int, spacing: nat, right: bool, zero: bool): string
    requires -TWO31 <= v < TWO31
  {
    Field(if v < 0 then "-" else "", "", Numeral(if v < 0 then -v else v, 10), spacing, right, zero)
  }

  // ----- atoi -----

  predicate IsDigit(c: char)
  {
    '0' <= c <= '9'
  }

  /** The digits at the head of s appended to val, in unsigned 32-bit arithmetic. */
  function Parse(s: string, val: nat): nat
  {
    if s == "" || !IsDigit(s[0]) then val else Parse(s[1..], (val * 10 + (s[0] - '0') as nat) % TWO32)
  }

  function SkipBlanks(s: string): string
  {
    if s != "" && (s[0] == ' ' || s[0] == '\t') then SkipBlanks(s[1..]) else s
  }

  /** An unsigned 32-bit value read as a signed one. */
  function Signed(u: nat): int
  {
    if u < TWO31 then u else u - TWO32
  }

  /** What atoi returns. */
  function AtoiValue(s: string): int
  {
    var t := SkipBlanks(s);
    if t != "" && t[0] == '-' then Signed((TWO32 - Parse(t[1..], 0) % TWO32) % TWO32)
    else Signed(Parse(if t != "" && t[0] == '+' then t[1..] else t, 0) % TWO32)
  }

  /** atoi. */
  method Atoi(s: string) returns (r: int)
    ensures r == AtoiValue(s)
  {
    var i := 0;
    while i < |s| && (s[i] == ' ' || s[i] == '\t')
      invariant 0 <= i <= |s| && SkipBlanks(s) == SkipBlanks(s[i..])
    {
      assert s[i..][1..] == s[i + 1..];
      i := i + 1;
    }
    assert SkipBlanks(s) == s[i..];
    var neg := false;
    if i < |s| && s[i] == '-' {
      neg, i := true, i + 1;
    } else if i < |s| && s[i] == '+' {
      i := i + 1;
    }
    ghost var t := s[i..];
    assert AtoiValue(s) == if neg then Signed((TWO32 - Parse(t, 0) % TWO32) % TWO32) else Signed(Parse(t, 0) % TWO32);
    var val: nat := 0;
    while i < |s| && IsDigit(s[i])
      invariant 0 <= i <= |s| && val < TWO32 && Parse(t, 0) == Parse(s[i..], val)
    {
      assert s[i..][1..] == s[i + 1..];
      val := (val * 10 + (s[i] - '0') as nat) % TWO32;
      i := i + 1;
    }
    assert Parse(t, 0) == val;
    r := Signed(if neg then (TWO32 - val) % TWO32 else val);
  }

  // ----- the round trip -----

  predicate AllDigits(s: string)
  {
    forall i :: 0 <= i < |s| ==> IsDigit(s[i])
  }

  lemma {:induction false} ParseAppend(a: string, b: string, val: nat)
    requires AllDigits(a)
    ensures Parse(a + b, val) == Parse(b, Parse(a, val))
    decreases |a|
  {
    if a == "" {
      assert a + b == b;
    } else {
      assert (a + b)[1..] == a[1..] + b;
      ParseAppend(a[1..], b, (val * 10 + (a[0] - '0') as nat) % TWO32);
    }
  }

  /** A numeral is read as its number. */
  lemma {:induction false} ParseNumeral(n: nat)
    requires n < TWO32
    ensures AllDigits(Numeral(n, 10)) && Parse(Numeral(n, 10), 0) == n
  {
    hide Parse, Numeral, IsDigit, DigitChar;
    NumeralStep(n, 10);
    assert n < 10 ==> Numeral(n, 10) == [DigitChar(n)];
    if n < 10 {
      ParseDigit(n, 0);
    } else {
      ParseNumeral(n / 10);
      var a, d := Numeral(n / 10, 10), DigitChar(n % 10);
      ParseAppend(a, [d], 0);
      ParseDigit(n % 10, n / 10);
    }
  }

  lemma ParseDigit(d: nat, val: nat)
    requires d < 10
    ensures IsDigit(DigitChar(d)) && Parse([DigitChar(d)], val) == (val * 10 + d) % TWO32
  {
    assert [DigitChar(d)][1..] == "";
  }

  lemma {:induction false} ParseZeros(n: nat, rest: string)
    ensures Parse(Fill('0', n) + rest, 0) == Parse(rest, 0)
  {
    if n == 0 {
      assert Fill('0', 0) + rest == rest;
    } else {
      assert (Fill('0', n) + rest)[1..] == Fill('0', n - 1) + rest;
      ParseZeros(n - 1, rest);
    }
  }

  lemma {:induction false} SkipFill(n: nat, rest: string)
    requires rest == "" || (rest[0] != ' ' && rest[0] != '\t')
    ensures SkipBlanks(Fill(' ', n) + rest) == rest
  {
    if n == 0 {
      assert Fill(' ', 0) + rest == rest;
    } else {
      assert (Fill(' ', n) + rest)[1..] == Fill(' ', n - 1) + rest;
      SkipFill(n - 1, rest);
    }
  }

  /** Blanks after the digits end the number. */
  lemma ParseStops(n: nat, k: nat)
    requires n < TWO32
    ensures Parse(Numeral(n, 10) + Fill(' ', k), 0) == n
  {
    ParseNumeral(n);
    ParseAppend(Numeral(n, 10), Fill(' ', k), 0);
  }

  /** The digits of a field with its padding, as atoi sees them after blanks and sign. */
  lemma BodyValue(n: nat, spc: nat, right: bool, zero: bool)
    requires n < TWO32 && !(right && zero)
    ensures var body := (if !right && zero then Fill('0', spc) else "") + Numeral(n, 10)
            + (if right then Fill(' ', spc) else "");
            && Parse(body, 0) == n && body != "" && IsDigit(body[0])
  {
    var num := Numeral(n, 10);
    ParseNumeral(n);
    ParseStops(n, spc);
    ParseZeros(spc, num);
    if !right && zero {
      assert Fill('0', spc) + num + "" == Fill('0', spc) + num;
    } else if right {
      assert "" + num + Fill(' ', spc) == num + Fill(' ', spc);
    } else {
      assert "" + num + "" == num;
    }
  }

  /** Blanks, a sign and digits make a signed number. */
  lemma AtoiShape(k: nat, neg: bool, body: string, n: nat)
    requires body != "" && IsDigit(body[0]) && Parse(body, 0) == n < TWO32
    ensures AtoiValue(Fill(' ', k) + ((if neg then "-" else "") + body)) ==
            Signed(if neg then (TWO32 - n) % TWO32 else n)
  {
    var t := (if neg then "-" else "") + body;
    hide Parse;
    SkipFill(k, t);
    assert neg ==> t[1..] == body;
    assert !neg ==> t == body;
    hide SkipBlanks, Fill;
  }

  lemma SignedBack(v: int)
    requires -TWO31 <= v < TWO31
    ensures Signed(if v < 0 then (TWO32 + v) % TWO32 else v) == v
  {
  }

  /** A field with its padding in one place. */
  lemma FieldShape(sign: string, num: string, spacing: nat, right: bool, zero: bool)
    requires !(right && zero)
    ensures var spc := Padding(spacing, |sign| + |""| + |num|);
            var body := (if !right && zero then Fill('0', spc) else "") + num + (if right then Fill(' ', spc) else "");
            Field(sign, "", num, spacing, right, zero) == Fill(' ', if !right && !zero then spc else 0) + (sign + body)
  {
    var spc := Padding(spacing, |sign| + |""| + |num|);
    hide Fill;
    assert Fill(' ', 0) == "";
    assert sign + "" == sign;
    if right {
      assert "" + sign + "" + num + Fill(' ', spc) == "" + (sign + ("" + num + Fill(' ', spc)));
    } else if zero {
      assert "" + sign + Fill('0', spc) + num + "" == "" + (sign + (Fill('0', spc) + num + ""));
    } else {
      assert Fill(' ', spc) + sign + "" + num + "" == Fill(' ', spc) + (sign + ("" + num + ""));
    }
  }

  /**
   For every 32-bit integer, and every width and padding but left-aligned with
   zeros, atoi reads back what %d printed.
   */
  lemma RoundTrip(v: int, spacing: nat, right: bool, zero: bool)
    requires -TWO31 <= v < TWO31 && !(right && zero)
    ensures AtoiValue(Decimal(v, spacing, right, zero)) == v
  {
    var n := if v < 0 then -v else v;
    var sign, num := if v < 0 then "-" else "", Numeral(n, 10);
    var spc := Padding(spacing, |sign| + |""| + |num|);
    hide Numeral, Fill, Parse, AtoiValue, Field, Signed;
    BodyValue(n, spc, right, zero);
    FieldShape(sign, num, spacing, right, zero);
    var body := (if !right && zero then Fill('0', spc) else "") + num + (if right then Fill(' ', spc) else "");
    AtoiShape(if !right && !zero then spc else 0, v < 0, body, n);
    SignedBack(v);
  }

  /** Zeros on the right are digits: 7 printed left-aligned in five places with zeros reads back as 70000. */
  lemma ZerosOnTheRight()
    ensures AtoiValue(Decimal(7, 5, true, true)) == 70000
  {
    assert Numeral(7, 10) == "7";
    assert Decimal(7, 5, true, true) == "70000" by {
      assert Fill('0', 4) == "0000";
    }
    assert "70000"[1..] == "0000" && "0000"[1..] == "000" && "000"[1..] == "00" && "00"[1..] == "0" && "0"[1..] == "";
    assert Parse("", 70000) == 70000;
    assert Parse("0", 7000) == 70000;
    assert Parse("00", 700) == 70000;
    assert Parse("000", 70) == 70000;
    assert Parse("0000", 7) == 70000;
  }
}
