/** What formats print and atoi reads, said without the engine (lib/libc/__printf.c, lib/libc/atoi.c). */
module PrintfLaws {
  import opened Printf
  import opened Snprintf

  // ----- numerals -----

  /** The value of a digit; 16 for a character that is none. */
  function DigitValue(c: char): nat
  {
    if '0' <= c <= '9' then (c - '0') as nat else if 'a' <= c <= 'f' then (c - 'a') as nat + 10 else 16
  }

  /** A numeral read in a base, most significant digit first. */
  function ReadIn(s: string, base: nat): nat
  {
    if s == "" then 0 else ReadIn(s[..|s| - 1], base) * base + DigitValue(s[|s| - 1])
  }

  predicate DigitsOf(s: string, base: nat)
  {
    s != "" && forall i :: 0 <= i < |s| ==> DigitValue(s[i]) < base
  }

  /** s is a prefix and then number n in a base. */
  predicate Shows(s: string, prefix: string, base: nat, n: nat)
  {
    prefix <= s && DigitsOf(s[|prefix|..], base) && ReadIn(s[|prefix|..], base) == n
  }

  lemma DigitBack(d: nat)
    requires d < 16
    ensures DigitValue(DigitChar(d)) == d
  {
  }

  /** A number written in a base is read back in that base, and has no needless zeros. */
  lemma {:induction false} NumeralReads(n: nat, base: nat)
    requires 2 <= base <= 16
    ensures DigitsOf(Numeral(n, base), base) && ReadIn(Numeral(n, base), base) == n
    ensures n > 0 ==> Numeral(n, base)[0] != '0'
    decreases n
  {
    hide DigitValue, DigitChar, ReadIn, DigitsOf, Last, Rest, Numeral;
    NumeralStep(n, base);
    DigitLast(n, base);
    var a, d := if Rest(n, base) == 0 then "" else Numeral(Rest(n, base), base), DigitChar(Last(n, base));
    if Rest(n, base) == 0 {
      DigitAlone(d, base);
      if n > 0 { NotZero(Last(n, base)); }
    } else {
      NumeralReads(Rest(n, base), base);
      DigitAfter(a, d, base);
    }
  }

  /** The last digit is below the base, and with the rest it makes the number. */
  lemma DigitLast(n: nat, base: nat)
    requires 2 <= base <= 16
    ensures Last(n, base) < base && DigitValue(DigitChar(Last(n, base))) == Last(n, base)
    ensures Rest(n, base) * base + Last(n, base) == n && (Rest(n, base) < n || n == 0)
  {
    hide DigitValue, DigitChar;
    DigitBack(Last(n, base));
  }

  lemma DigitAlone(d: char, base: nat)
    requires DigitValue(d) < base
    ensures DigitsOf("" + [d], base) && ReadIn("" + [d], base) == DigitValue(d)
  {
    assert "" + [d] == [d] && [d][..0] == "";
  }

  lemma DigitAfter(a: string, d: char, base: nat)
    requires DigitsOf(a, base) && DigitValue(d) < base
    ensures DigitsOf(a + [d], base) && ReadIn(a + [d], base) == ReadIn(a, base) * base + DigitValue(d)
    ensures (a + [d])[0] == a[0]
  {
    hide DigitValue;
    assert (a + [d])[..|a|] == a;
  }

  lemma NotZero(d: nat)
    requires 0 < d < 16
    ensures DigitChar(d) != '0'
  {
  }

  // ----- fields -----

  /** A field is as wide as asked for, or as its text if that is wider. */
  lemma FieldWidth(prefix: string, prefix2: string, stuff: string, spacing: nat, right: bool, zero: bool)
    ensures var text := prefix + prefix2 + stuff; var w := Field(prefix, prefix2, stuff, spacing, right, zero);
            |w| == (if spacing > |text| then spacing else |text|) && (spacing <= |text| ==> w == text)
  {
    hide Fill;
  }

  /** With blanks, the text is at the end of its field asked for, and blanks fill the rest. */
  lemma FieldBlanks(prefix: string, prefix2: string, stuff: string, spacing: nat, right: bool)
    ensures var text := prefix + prefix2 + stuff; var w := Field(prefix, prefix2, stuff, spacing, right, false);
            && |w| >= |text| && (if right then text <= w else w[|w| - |text|..] == text)
            && forall i :: (if right then |text| <= i < |w| else 0 <= i < |w| - |text|) ==> w[i] == ' '
  {
  }

  /** With zeros asked for and no '-', they stand between the prefixes and the digits. */
  lemma FieldZeros(prefix: string, prefix2: string, stuff: string, spacing: nat)
    ensures var head := prefix + prefix2; var w := Field(prefix, prefix2, stuff, spacing, false, true);
            && head <= w && |head| + |stuff| <= |w| && w[|w| - |stuff|..] == stuff
            && forall i :: |head| <= i < |w| - |stuff| ==> w[i] == '0'
  {
  }

  /** What each conversion prints, unpadded, is its argument: in base 16, 8 or 10, with its prefix. */
  lemma ConversionReads(f: Fmt, bits: nat)
    requires bits < TWO32 && f.spacing == 0
    ensures Shows(IntText(f, 'u', bits), "", 10, bits)
    ensures Shows(IntText(f, 'x', bits), if f.alt then "0x" else "", 16, bits)
    ensures Shows(IntText(f, 'p', bits), "0x", 16, bits)
    ensures Shows(IntText(f, 'o', bits), if f.alt then "0" else "", 8, bits)
    ensures bits < TWO31 ==> Shows(IntText(f, 'd', bits), "", 10, bits)
    ensures bits >= TWO31 ==> Shows(IntText(f, 'd', bits), "-", 10, TWO32 - bits)
  {
    hide Field, Shows, Numeral;
    Shown("", "", bits, f, 10);
    Shown("", "", bits, f, 16);
    Shown("", "0x", bits, f, 16);
    Shown("", "", bits, f, 8);
    Shown("", "0", bits, f, 8);
    Shown("-", "", TWO32 - bits, f, 10);
    assert "" + "" == "" && "" + "0x" == "0x" && "" + "0" == "0" && "-" + "" == "-";
  }

  lemma Shown(p: string, q: string, n: nat, f: Fmt, base: nat)
    requires f.spacing == 0 && 2 <= base <= 16
    ensures Shows(Field(p, q, Numeral(n, base), f.spacing, f.right, f.zero), p + q, base, n)
  {
    hide Field, ReadIn, DigitsOf, Numeral;
    var num := Numeral(n, base);
    NumeralReads(n, base);
    FieldWidth(p, q, num, f.spacing, f.right, f.zero);
    assert (p + q + num)[|p + q|..] == num;
  }

  // ----- formats -----

  predicate Plain(s: string)
  {
    forall i :: 0 <= i < |s| ==> s[i] != '%'
  }

  /** Text without a per cent sign is printed as it is. */
  lemma {:induction false} PlainPrinted(s: string, rest: string, args: seq<Arg>)
    requires Plain(s) && AllServed(IDLE, rest, args)
    ensures AllServed(IDLE, s + rest, args) && Render(IDLE, s + rest, args) == s + Render(IDLE, rest, args)
  {
    if s == "" {
      assert s + rest == rest;
    } else {
      assert (s + rest)[1..] == s[1..] + rest;
      PlainPrinted(s[1..], rest, args);
    }
  }

  /** The flags and width of a field. */
  function Flags(alt: bool, right: bool, zero: bool, width: nat): string
  {
    (if alt then "#" else "") + (if right then "-" else "") + (if zero then "0" else "")
    + if width > 0 then Numeral(width, 10) else ""
  }

  predicate Modifiers(s: string)
  {
    forall i :: 0 <= i < |s| ==> IsModifier(s[i])
  }

  /** What modifiers leave behind. */
  function ModifiedBy(f: Fmt, s: string): Fmt
    requires Modifiers(s)
    decreases |s|
  {
    if s == "" then f else ModifiedBy(Modified(f, s[0]), s[1..])
  }

  lemma {:induction false} ModifiedOn(f: Fmt, a: string, b: string)
    requires Modifiers(a) && Modifiers(b)
    ensures Modifiers(a + b) && ModifiedBy(f, a + b) == ModifiedBy(ModifiedBy(f, a), b)
    decreases |a|
  {
    hide Modified, IsModifier;
    assert forall i :: 0 <= i < |a + b| ==> (a + b)[i] == if i < |a| then a[i] else b[i - |a|];
    if a == "" {
      assert a + b == b;
    } else {
      assert (a + b)[1..] == a[1..] + b;
      ModifiedOn(Modified(f, a[0]), a[1..], b);
    }
  }

  lemma DigitModifies(f: Fmt, d: nat)
    requires d < 10 && (d > 0 || f.spacing > 0)
    ensures IsModifier(DigitChar(d)) && Modified(f, DigitChar(d)) == f.(spacing := f.spacing * 10 + d)
  {
  }

  /** A width is read as the number it is. */
  lemma {:induction false} WidthParsed(f: Fmt, w: nat)
    requires w > 0 && f.spacing == 0
    ensures Modifiers(Numeral(w, 10)) && ModifiedBy(f, Numeral(w, 10)) == f.(spacing := w)
    decreases w
  {
    hide Modified, IsModifier, DigitChar;
    if w < 10 {
      DigitModifies(f, w);
      assert [DigitChar(w)][1..] == "";
    } else {
      WidthParsed(f, w / 10);
      var a, d := Numeral(w / 10, 10), DigitChar(w % 10);
      DigitModifies(f.(spacing := w / 10), w % 10);
      assert [d][1..] == "";
      ModifiedOn(f, a, [d]);
    }
  }

  lemma FlagModifies(f: Fmt, on: bool, c: char)
    requires c in "#-0" && f.spacing == 0
    ensures var s := if on then [c] else "";
            && Modifiers(s)
            && ModifiedBy(f, s)
               == if !on then f else if c == '#' then f.(alt := true) else if c == '-' then f.(right := true)
                  else f.(zero := true)
  {
    assert [c][1..] == "";
  }

  lemma FlagsParsed(alt: bool, right: bool, zero: bool, width: nat)
    ensures Modifiers(Flags(alt, right, zero, width))
    ensures ModifiedBy(IDLE.(inPct := true), Flags(alt, right, zero, width)) == Fmt(true, width, right, zero, alt)
  {
    hide ModifiedBy, Modifiers;
    var a, r, z := if alt then "#" else "", if right then "-" else "", if zero then "0" else "";
    var w := if width > 0 then Numeral(width, 10) else "";
    var f := IDLE.(inPct := true);
    FlagModifies(f, alt, '#');
    FlagModifies(f.(alt := alt), right, '-');
    FlagModifies(f.(alt := alt, right := right), zero, '0');
    if width > 0 { WidthParsed(f.(alt := alt, right := right, zero := zero), width); }
        else { NoneModify(Fmt(true, 0, right, zero, alt)); }
    ModifiedOn(f, a, r);
    ModifiedOn(f, a + r, z);
    ModifiedOn(f, a + r + z, w);
  }

  lemma NoneModify(f: Fmt)
    ensures Modifiers("") && ModifiedBy(f, "") == f
  {
  }

  /** Modifiers print nothing. */
  lemma {:induction false} ModifiersSilent(f: Fmt, s: string, rest: string, args: seq<Arg>)
    requires f.inPct && Modifiers(s) && AllServed(ModifiedBy(f, s), rest, args)
    ensures AllServed(f, s + rest, args) && Render(f, s + rest, args) == Render(ModifiedBy(f, s), rest, args)
    decreases |s|
  {
    if s == "" {
      assert s + rest == rest;
    } else {
      assert (s + rest)[1..] == s[1..] + rest;
      StaysIn(f, s[0]);
      hide Modified;
      ModifiersSilent(Modified(f, s[0]), s[1..], rest, args);
    }
  }

  lemma StaysIn(f: Fmt, ch: char)
    requires f.inPct && IsModifier(ch)
    ensures Modified(f, ch).inPct
  {
  }

  /** A field of a format, whatever its flags and width, is printed as those say, and then the rest of the format. */
  lemma FieldParsed(alt: bool, right: bool, zero: bool, width: nat, ch: char, rest: string, arg: Arg, args: seq<Arg>)
    requires var f := Fmt(true, width, right, zero, alt);
             && !IsModifier(ch) && Takes(f, ch) && Served(f, ch, [arg] + args) && AllServed(IDLE, rest, args)
    ensures var format := "%" + (Flags(alt, right, zero, width) + ([ch] + rest));
            && AllServed(IDLE, format, [arg] + args)
            && Render(IDLE, format, [arg] + args)
               == Text(Fmt(true, width, right, zero, alt), ch, [arg] + args) + Render(IDLE, rest, args)
  {
    var f, s, all := Fmt(true, width, right, zero, alt), Flags(alt, right, zero, width), [arg] + args;
    var tail := [ch] + rest;
    FlagsParsed(alt, right, zero, width);
    assert tail[1..] == rest && all[1..] == args;
    assert AllServed(f, tail, all);
    hide Flags, Text;
    ModifiersSilent(IDLE.(inPct := true), s, tail, all);
    var format := "%" + (s + tail);
    assert format[1..] == s + tail;
  }

  /** Strings, characters and the per cent sign, unpadded, are printed as they are. */
  lemma TextPrinted(f: Fmt, t: string, c: char)
    requires f.inPct && f.spacing == 0
    ensures Text(f, 's', [Str(t)]) == t && Text(f, 's', [Null]) == "(null)" && Text(f, '%', []) == "%"
    ensures c != '\0' ==> Text(f, 'c', [Chr(c)]) == [c]
  {
    hide Field;
    FieldWidth("", "", t, 0, f.right, f.zero);
    FieldWidth("", "", "(null)", 0, f.right, f.zero);
    FieldWidth("", "", "%", 0, f.right, f.zero);
    FieldWidth("", "", [c], 0, f.right, f.zero);
    assert "" + "" + t == t && "" + "" + "(null)" == "(null)" && "" + "" + "%" == "%" && "" + "" + [c] == [c];
  }

  // ----- atoi -----

  predicate Blanks(s: string)
  {
    forall i :: 0 <= i < |s| ==> s[i] == ' ' || s[i] == '\t'
  }

  lemma {:induction false} BlanksSkipped(b: string, rest: string)
    requires Blanks(b) && (rest == "" || (rest[0] != ' ' && rest[0] != '\t'))
    ensures SkipBlanks(b + rest) == rest
  {
    if b == "" {
      assert b + rest == rest;
    } else {
      assert (b + rest)[1..] == b[1..] + rest;
      BlanksSkipped(b[1..], rest);
    }
  }

  /** atoi of any blanks, no sign or either, a number, and anything that is not a digit after it. */
  lemma AtoiReads(b: string, sign: string, n: nat, rest: string)
    requires Blanks(b) && sign in {"", "+", "-"} && n < TWO31 && (rest == "" || !IsDigit(rest[0]))
    ensures AtoiValue(b + (sign + (Numeral(n, 10) + rest))) == if sign == "-" then -(n as int) else n
  {
    hide Numeral, Parse, Blanks;
    ParseRest(n, rest);
    SignRead(b, sign, Numeral(n, 10) + rest, n);
  }

  lemma ParseRest(n: nat, rest: string)
    requires n < TWO31 && (rest == "" || !IsDigit(rest[0]))
    ensures Parse(Numeral(n, 10) + rest, 0) == n && IsDigit((Numeral(n, 10) + rest)[0])
  {
    hide Numeral, Parse;
    ParseNumeral(n);
    ParseAppend(Numeral(n, 10), rest, 0);
    ParseEnds(rest, n);
  }

  lemma ParseEnds(rest: string, n: nat)
    requires rest == "" || !IsDigit(rest[0])
    ensures Parse(rest, n) == n
  {
  }

  lemma SignRead(b: string, sign: string, body: string, n: nat)
    requires Blanks(b) && sign in {"", "+", "-"} && body != "" && IsDigit(body[0]) && Parse(body, 0) == n < TWO31
    ensures AtoiValue(b + (sign + body)) == if sign == "-" then -(n as int) else n
  {
    hide Parse, Blanks, SkipBlanks;
    var t := sign + body;
    assert t[0] == if sign == "" then body[0] else sign[0];
    BlanksSkipped(b, t);
    assert sign != "" ==> t[1..] == body;
    assert sign == "" ==> t == body;
  }
}
