/** The printf engine printing into a bounded buffer (lib/libc/__printf.c, lib/libc/snprintf.c). */
module Snprintf {
  import opened Printf

  /** An argument: a 32-bit integer or pointer as its bits, a string, a null string, or a character. */
  datatype Arg = Num(bits: nat) | Str(text: string) | Null | Chr(c: char)

  /** What the engine remembers between characters of a format: whether it is in a field, and the field's modifiers. */
  datatype Fmt = Fmt(inPct: bool, spacing: nat, right: bool, zero: bool, alt: bool)

  const IDLE := Fmt(false, 0, false, false, false)

  predicate IsModifier(ch: char)
  {
    ch in "#-ql0123456789"
  }

  predicate IsInteger(ch: char)
  {
    ch in "doupx"
  }

  /** __pf_modifier; int and long have the same size. */
  function Modified(f: Fmt, ch: char): Fmt
    requires IsModifier(ch)
  {
    if ch == '#' then f.(alt := true)
    else if ch == '-' then f.(right := true)
    else if ch == 'l' || ch == 'q' then f
    else if ch == '0' then (if f.spacing > 0 then f.(spacing := f.spacing * 10) else f.(zero := true))
    else f.(spacing := f.spacing * 10 + (ch - '0') as nat)
  }

  function Base(ch: char): nat
  {
    if ch == 'd' || ch == 'u' then 10 else if ch == 'o' then 8 else 16
  }

  function BasePrefix(base: nat): string
  {
    if base == 16 then "0x" else if base == 8 then "0" else ""
  }

  /** What __pf_getnum, __pf_setbase and __pf_printnum print for an integer. */
  function IntText(f: Fmt, ch: char, bits: nat): string
    requires bits < TWO32
  {
    var neg := ch == 'd' && bits >= TWO31;
    var prefix := if f.alt || ch == 'p' then BasePrefix(Base(ch)) else "";
    var num := Numeral(if neg then TWO32 - bits else bits, Base(ch));
    Field(if neg then "-" else "", prefix, num, f.spacing, f.right, f.zero)
  }

  /** The arguments a character of a field takes are there and of the right kind. */
  predicate Served(f: Fmt, ch: char, args: seq<Arg>)
  {
    !f.inPct || IsModifier(ch)
    || (if IsInteger(ch) then args != [] && args[0].Num? && args[0].bits < TWO32
        else if ch == 's' then args != [] && (args[0].Str? || args[0].Null?)
        else if ch == 'c' then args != [] && args[0].Chr?
        else true)
  }

  predicate Takes(f: Fmt, ch: char)
  {
    f.inPct && !IsModifier(ch) && (IsInteger(ch) || ch == 's' || ch == 'c')
  }

  function NextFmt(f: Fmt, ch: char): Fmt
  {
    if !f.inPct then (if ch == '%' then f.(inPct := true) else f) else if IsModifier(ch) then Modified(f, ch) else IDLE
  }

  function NextArgs(f: Fmt, ch: char, args: seq<Arg>): seq<Arg>
    requires Served(f, ch, args)
  {
    if Takes(f, ch) then args[1..] else args
  }

  /** A character as a C string: the zero character ends it at once. */
  function OneChar(c: char): string
  {
    if c == '\0' then "" else [c]
  }

  /** What __pf_send prints at one character of the format. */
  function Text(f: Fmt, ch: char, args: seq<Arg>): string
    requires Served(f, ch, args)
  {
    if !f.inPct then (if ch == '%' then "" else [ch])
    else if IsModifier(ch) then ""
    else if IsInteger(ch) then IntText(f, ch, args[0].bits)
    else
      var stuff := if ch == 's' then (if args[0].Null? then "(null)" else args[0].text)
                   else if ch == 'c' then OneChar(args[0].c)
                   else [ch];
      Field("", "", stuff, f.spacing, f.right, f.zero)
  }

  predicate AllServed(f: Fmt, format: string, args: seq<Arg>)
    decreases |format|
  {
    format == "" || (Served(f, format[0], args)
        && AllServed(NextFmt(f, format[0]), format[1..], NextArgs(f, format[0], args)))
  }

  /** The whole text of a format. */
  function Render(f: Fmt, format: string, args: seq<Arg>): string
    requires AllServed(f, format, args)
    decreases |format|
  {
    if format == "" then ""
    else Text(f, format[0], args) + Render(NextFmt(f, format[0]), format[1..], NextArgs(f, format[0], args))
  }

  function Min(a: nat, b: nat): nat
  {
    if a < b then a else b
  }

  /** SNP: a buffer that takes the first buflen characters sent to it. */
  class Snp {
    const buf: array<char>
    const buflen: nat
    var bufpos: nat
    ghost var sent: string

    ghost predicate Valid()
      reads this, buf
    {
      && buflen <= buf.Length && bufpos == Min(|sent|, buflen)
      && buf[..bufpos] == sent[..bufpos]
    }

    constructor (b: array<char>, n: nat)
      requires n <= b.Length
      ensures Valid() && sent == "" && buf == b && buflen == n
    {
      buf, buflen, bufpos, sent := b, n, 0, "";
    }

    /** __snprintf_send. */
    method Send(data: string)
      requires Valid()
      modifies this, buf
      ensures Valid() && sent == old(sent) + data && buf[buflen..] == old(buf[buflen..])
    {
      for i := 0 to |data|
        invariant Valid() && sent == old(sent) + data[..i] && buf[buflen..] == old(buf[buflen..])
      {
        assert data[..i + 1] == data[..i] + [data[i]];
        ghost var c, was := data[i], sent;
        if bufpos < buflen {
          assert |sent| == bufpos;
          buf[bufpos] := data[i];
          bufpos := bufpos + 1;
        }
        sent := sent + [c];
        assert forall j :: 0 <= j < |was| ==> sent[j] == was[j];
      }
      assert data[..|data|] == data;
    }
  }

  /** PF: the state of a printf session. */
  class Printer {
    const snp: Snp
    var f: Fmt
    var charcount: nat

    ghost predicate Valid()
      reads this, snp, snp.buf
    {
      snp.Valid() && charcount == |snp.sent|
    }

    constructor (s: Snp)
      requires s.Valid() && s.sent == ""
      ensures Valid() && snp == s && f == IDLE
    {
      snp, f, charcount := s, IDLE, 0;
    }

    /** __pf_print. */
    method Print(txt: string)
      requires Valid()
      modifies this`charcount, snp, snp.buf
      ensures Valid() && snp.sent == old(snp.sent) + txt && snp.buf[snp.buflen..] == old(snp.buf[snp.buflen..])
    {
      snp.Send(txt);
      charcount := charcount + |txt|;
    }

    /** __pf_fill. */
    method PrintFill(spc: nat, c: char)
      requires Valid()
      modifies this`charcount, snp, snp.buf
      ensures Valid() && snp.sent == old(snp.sent) + Fill(c, spc) && snp.buf[snp.buflen..] == old(snp.buf[snp.buflen..])
    {
      for i := 0 to spc
        invariant Valid() && snp.sent == old(snp.sent) + Fill(c, i)
                  && snp.buf[snp.buflen..] == old(snp.buf[snp.buflen..])
      {
        Print([c]);
        assert Fill(c, i + 1) == Fill(c, i) + [c];
      }
    }

    /** __pf_printstuff. */
    method PrintStuff(prefix: string, prefix2: string, stuff: string)
      requires Valid()
      modifies this`charcount, snp, snp.buf
      ensures Valid() && snp.sent == old(snp.sent) + Field(prefix, prefix2, stuff, f.spacing, f.right, f.zero)
      ensures snp.buf[snp.buflen..] == old(snp.buf[snp.buflen..])
    {
      hide Fill, Field;
      var spc := Padding(f.spacing, |prefix| + |prefix2| + |stuff|);
      ghost var s0 := snp.sent;
      ghost var a := FillIf(spc > 0 && !f.right && !f.zero, spc, ' ');
      Print(prefix);
      Print(prefix2);
      ghost var b := FillIf(spc > 0 && !f.right && f.zero, spc, '0');
      Print(stuff);
      ghost var c := FillIf(spc > 0 && f.right, spc, if f.zero then '0' else ' ');
      Joined(s0, a, prefix, prefix2, b, stuff, c);
      FieldParts(prefix, prefix2, stuff, f.spacing, f.right, f.zero, a, b, c);
    }

    method FillIf(wanted: bool, spc: nat, c: char) returns (ghost pad: string)
      requires Valid()
      modifies this`charcount, snp, snp.buf
      ensures Valid() && pad == (if wanted then Fill(c, spc) else "") && snp.sent == old(snp.sent) + pad
      ensures snp.buf[snp.buflen..] == old(snp.buf[snp.buflen..])
    {
      pad := "";
      if wanted {
        pad := Fill(c, spc);
        PrintFill(spc, c);
      }
    }

    /** __pf_getnum, __pf_setbase and __pf_printnum. */
    method PrintNum(ch: char, bits: nat)
      requires Valid() && IsInteger(ch) && bits < TWO32
      modifies this`charcount, snp, snp.buf
      ensures Valid() && snp.sent == old(snp.sent) + IntText(f, ch, bits)
      ensures snp.buf[snp.buflen..] == old(snp.buf[snp.buflen..])
    {
      hide Field;
      var num, sign := bits, false;
      if ch == 'd' && bits >= TWO31 {
        num, sign := TWO32 - bits, true;
      }
      var base := Base(ch);
      var baseprefix := f.alt || ch == 'p';
      var x := Digits(num, base);
      var bprefix := if baseprefix && base == 16 then "0x" else if baseprefix && base == 8 then "0" else "";
      var sprefix := if sign then "-" else "";
      PrintStuff(sprefix, bprefix, x);
    }

    /** __pf_send. */
    method SendChar(ch: char, args: seq<Arg>) returns (rest: seq<Arg>)
      requires Valid() && Served(f, ch, args)
      modifies this`charcount, this`f, snp, snp.buf
      ensures Valid() && f == NextFmt(old(f), ch) && rest == NextArgs(old(f), ch, args)
      ensures snp.sent == old(snp.sent) + Text(old(f), ch, args) && snp.buf[snp.buflen..] == old(snp.buf[snp.buflen..])
    {
      hide Field, IntText, Modified;
      rest := args;
      if !f.inPct && ch != '%' {
        Print([ch]);
      } else if !f.inPct {
        f := f.(inPct := true);
      } else if IsModifier(ch) {
        f := Modified(f, ch);
      } else if IsInteger(ch) {
        PrintNum(ch, args[0].bits);
        rest := args[1..];
        f := IDLE;
      } else if ch == 's' {
        PrintStuff("", "", if args[0].Null? then "(null)" else args[0].text);
        rest := args[1..];
        f := IDLE;
      } else {
        if ch == 'c' {
          PrintStuff("", "", OneChar(args[0].c));
          rest := args[1..];
        } else {
          PrintStuff("", "", [ch]);
        }
        f := IDLE;
      }
    }

    /** __vprintf on a printer that has printed nothing. */
    method VPrintf(format: string, args: seq<Arg>) returns (chars: nat)
      requires Valid() && f == IDLE && snp.sent == "" && AllServed(IDLE, format, args)
      modifies this, snp, snp.buf
      ensures Valid() && snp.sent == Render(IDLE, format, args) && chars == |snp.sent|
      ensures snp.buf[snp.buflen..] == old(snp.buf[snp.buflen..])
    {
      hide Text, NextFmt, NextArgs, Served;
      var ap := args;
      assert format[0..] == format;
      for i := 0 to |format|
        invariant Valid() && AllServed(f, format[i..], ap) && snp.buf[snp.buflen..] == old(snp.buf[snp.buflen..])
        invariant snp.sent + Render(f, format[i..], ap) == Render(IDLE, format, args)
      {
        assert format[i..][0] == format[i] && format[i..][1..] == format[i + 1..];
        ap := SendChar(format[i], ap);
      }
      chars := charcount;
    }
  }

  /**
   vsnprintf into a buffer of at least len characters: the first len - 1
   characters of the text are stored and a terminator after them, nothing else
   is touched, and the length of the whole text is returned, as section
   7.19.6.5 of ISO C99 asks.
   */
  method VSnprintf(buf: array<char>, len: nat, format: string, args: seq<Arg>) returns (chars: nat)
    requires len <= buf.Length && AllServed(IDLE, format, args)
    modifies buf
    ensures chars == |Render(IDLE, format, args)|
    ensures len > 0 ==> var m := Min(chars, len - 1); buf[..m] == Render(IDLE, format, args)[..m] && buf[m] == '\0'
    ensures buf[len..] == old(buf[len..])
  {
    var snp := new Snp(buf, if len == 0 then 0 else len - 1);
    var pf := new Printer(snp);
    ghost var n := snp.buflen;
    ghost var tail := buf[n..];
    chars := pf.VPrintf(format, args);
    assert buf[len..] == tail[len - n..];
    assert old(buf[len..]) == tail[len - n..];
    if len > 0 {
      buf[snp.bufpos] := '\0';
    }
  }

  /** The text of %d, with any modifiers, is the decimal field that atoi reads back. */
  lemma PercentD(f: Fmt, bits: nat)
    requires f.inPct && bits < TWO32
    ensures Text(f, 'd', [Num(bits)]) == Decimal(Signed(bits), f.spacing, f.right, f.zero)
    ensures !(f.right && f.zero) ==> AtoiValue(Text(f, 'd', [Num(bits)])) == Signed(bits)
  {
    hide Field, AtoiValue, Numeral;
    if !(f.right && f.zero) { RoundTrip(Signed(bits), f.spacing, f.right, f.zero); }
  }

  lemma Joined(s0: string, a: string, p: string, q: string, b: string, t: string, c: string)
    ensures s0 + a + p + q + b + t + c == s0 + (a + p + q + b + t + c)
  {
  }

  lemma FieldParts(prefix: string, prefix2: string, stuff: string, spacing: nat, right: bool, zero: bool, a: string,
      b: string, c: string)
    requires var spc := Padding(spacing, |prefix| + |prefix2| + |stuff|);
             && a == (if spc > 0 && !right && !zero then Fill(' ', spc) else "")
             && b == (if spc > 0 && !right && zero then Fill('0', spc) else "")
             && c == (if spc > 0 && right then Fill(if zero then '0' else ' ', spc) else "")
    ensures a + prefix + prefix2 + b + stuff + c == Field(prefix, prefix2, stuff, spacing, right, zero)
  {
    var spc := Padding(spacing, |prefix| + |prefix2| + |stuff|);
    if spc == 0 {
      assert Fill(' ', 0) == "" && Fill('0', 0) == "";
    }
  }
}
