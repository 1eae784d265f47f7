/**
 lib/libc/__printf.c and lib/libc/snprintf.c. The formatter eats the format
 one character at a time; the reference takes a whole conversion at once.
 */
module Printf {
  import opened Digits
  import opened AtoiLib

  // ---------- the reference ----------

  datatype Arg = Int(n: int) | Str(s: string) | Null

  const MODIFIERS := "#-ql0123456789"
  const PLAIN := Spec(0, false, ' ', false)

  // What one modifier does to a conversion. The width is a 32-bit integer
  // and goes round.
  function Modify(sp: Spec, ch: char): Spec {
    if ch == '#' then sp.(alt := true)
    else if ch == '-' then sp.(right := true)
    else if ch == '0' && sp.spacing <= 0 then sp.(fill := '0')
    else if DigitValue(ch) >= 0 then sp.(spacing := Signed(sp.spacing * 10 + DigitValue(ch)))
    else sp
  }

  function ModifyAll(sp: Spec, m: string): Spec
    decreases |m|
  {
    if m == "" then sp else ModifyAll(Modify(sp, m[0]), m[1..])
  }

  // How many modifiers a string starts with.
  function Mods(f: string): (k: nat)
    ensures k <= |f|
  {
    if f != "" && f[0] in MODIFIERS then 1 + Mods(f[1..]) else 0
  }

  function IntArg(args: seq<Arg>): int {
    if args != [] && args[0].Int? then args[0].n else 0
  }

  function StrArg(args: seq<Arg>): string {
    if args != [] && args[0].Str? then args[0].s else "(null)"
  }

  function CharArg(args: seq<Arg>): string {
    var c := IntArg(args) % 256;
    if c == 0 then "" else [c as char]
  }

  function BaseOf(ch: char): nat {
    if ch == 'd' || ch == 'u' then 10 else if ch == 'o' then 8 else 16
  }

  function BasePrefix(sp: Spec, ch: char): string {
    if (sp.alt || ch == 'p') && BaseOf(ch) == 16 then "0x"
    else if sp.alt && BaseOf(ch) == 8 then "0" else ""
  }

  // The text of one conversion.
  function FieldText(sp: Spec, ch: char, args: seq<Arg>): string {
    if ch == 'd' then Decimal(sp, Signed(IntArg(args)))
    else if ch in "oupx" then Padded(sp, "", BasePrefix(sp, ch), NumText(IntArg(args) % WORD, BaseOf(ch)))
    else if ch == 's' then Padded(sp, "", "", StrArg(args))
    else if ch == 'c' then Padded(sp, "", "", CharArg(args))
    else Padded(sp, "", "", [ch])
  }

  function Rest(args: seq<Arg>, ch: char): seq<Arg> {
    if ch in "doupxsc" && args != [] then args[1..] else args
  }

  // The text of a format.
  function Render(fmt: string, args: seq<Arg>): string
    decreases |fmt|
  {
    if fmt == "" then ""
    else if fmt[0] != '%' then [fmt[0]] + Render(fmt[1..], args)
    else RenderField(PLAIN, fmt[1..], args)
  }

  // The same from within a conversion; one that is never finished prints
  // nothing.
  function RenderField(sp: Spec, f: string, args: seq<Arg>): string
    decreases |f|
  {
    var k := Mods(f);
    if k == |f| then "" else FieldText(ModifyAll(sp, f[..k]), f[k], args) + Render(f[k + 1..], Rest(args, f[k]))
  }

  lemma FieldModifier(sp: Spec, f: string, args: seq<Arg>)
    requires f != "" && f[0] in MODIFIERS
    ensures RenderField(sp, f, args) == RenderField(Modify(sp, f[0]), f[1..], args)
  {
    hide FieldText, Modify;
    var k := Mods(f);
    assert k == 1 + Mods(f[1..]);
    if k < |f| {
      assert f[..k][1..] == f[1..][..k - 1];
      assert f[1..][k..] == f[k + 1..];
    }
  }

  lemma FieldEnds(sp: Spec, f: string, args: seq<Arg>)
    requires f != "" && f[0] !in MODIFIERS
    ensures RenderField(sp, f, args) == FieldText(sp, f[0], args) + Render(f[1..], Rest(args, f[0]))
  {
    hide FieldText, Render;
    assert f[..0] == "";
  }

  // ---------- a %d field, printed and parsed ----------

  lemma {:induction false} ModsAll(m: string, rest: string)
    requires (forall i :: 0 <= i < |m| ==> m[i] in MODIFIERS) && rest != "" && rest[0] !in MODIFIERS
    ensures Mods(m + rest) == |m|
  {
    var f := m + rest;
    if m != "" {
      ModsAll(m[1..], rest);
      assert f[0] == m[0] && f[1..] == m[1..] + rest;
    } else {
      assert f == rest;
    }
  }

  lemma {:induction false} ModifyFill(sp: Spec, m: string)
    requires sp.fill == ' ' || sp.fill == '0'
    ensures ModifyAll(sp, m).fill == ' ' || ModifyAll(sp, m).fill == '0'
    decreases |m|
  {
    if m != "" {
      ModifyFill(Modify(sp, m[0]), m[1..]);
    }
  }

  // A conversion and what follows it
  lemma FieldThen(m: string, ch: char, b: string, args: seq<Arg>)
    requires (forall i :: 0 <= i < |m| ==> m[i] in MODIFIERS) && ch !in MODIFIERS
    ensures Render("%" + m + [ch] + b, args) == FieldText(ModifyAll(PLAIN, m), ch, args) + Render(b, Rest(args, ch))
  {
    hide FieldText, ModifyAll, Mods, Render;
    var f := m + [ch] + b;
    ModsAll(m, [ch] + b);
    assert f == m + ([ch] + b);
    assert f[..|m|] == m && f[|m| + 1..] == b && f[|m|] == ch;
    Percent(f, args);
    assert "%" + m + [ch] + b == "%" + f;
  }

  lemma FieldWhole(m: string, ch: char, args: seq<Arg>)
    requires (forall i :: 0 <= i < |m| ==> m[i] in MODIFIERS) && ch !in MODIFIERS
    ensures Render("%" + m + [ch], args) == FieldText(ModifyAll(PLAIN, m), ch, args)
  {
    hide FieldText, ModifyAll, Render;
    FieldThen(m, ch, "", args);
    assert "%" + m + [ch] + "" == "%" + m + [ch];
    NothingLeft(PLAIN, Rest(args, ch));
  }

  lemma RenderDecimal(m: string, n: int)
    requires (forall i :: 0 <= i < |m| ==> m[i] in MODIFIERS) && IsInt(n)
    ensures Render("%" + m + "d", [Int(n)]) == Decimal(ModifyAll(PLAIN, m), n)
  {
    hide Decimal, ModifyAll, Render, RenderField, FieldText;
    FieldWhole(m, 'd', [Int(n)]);
    FieldDecimal(ModifyAll(PLAIN, m), n);
  }

  lemma FieldDecimal(sp: Spec, n: int)
    requires IsInt(n)
    ensures FieldText(sp, 'd', [Int(n)]) == Decimal(sp, n)
  {
    hide Decimal, Signed;
    SignedInt(n);
  }

  lemma Percent(f: string, args: seq<Arg>)
    ensures Render("%" + f, args) == RenderField(PLAIN, f, args)
  {
    hide RenderField;
    assert ("%" + f)[1..] == f;
  }

  // Whatever flags and width stand before the d, atoi reads the number back,
  // unless '-' and '0' together put zeros after one that is not 0.
  lemma FormatParse(m: string, n: int)
    requires (forall i :: 0 <= i < |m| ==> m[i] in MODIFIERS) && IsInt(n)
    ensures Parsed(Render("%" + m + "d", [Int(n)])) == n <==> !(ZerosAfter(ModifyAll(PLAIN, m), n) && n != 0)
  {
    hide Decimal, ModifyAll, Render, Parsed, ZerosAfter;
    RenderDecimal(m, n);
    ModifyFill(PLAIN, m);
    PrintParse(ModifyAll(PLAIN, m), n);
  }

  // ---------- the buffer of snprintf ----------

  function Least(a: nat, b: nat): nat {
    if a < b then a else b
  }

  class Snp {
    const buf: array<char>
    const buflen: nat
    var bufpos: nat
    ghost var text: string       // all that was sent
    ghost const before: string   // what the buffer held

    // The buffer holds the beginning of the text and is otherwise untouched.
    ghost predicate Valid()
      reads this, buf
    {
      && buflen <= buf.Length == |before| && bufpos == Least(|text|, buflen)
      && buf[..] == text[..bufpos] + before[bufpos..]
    }

    constructor (buf: array<char>, buflen: nat)
      requires buflen <= buf.Length
      ensures Valid() && text == "" && this.buf == buf && this.buflen == buflen && before == buf[..]
    {
      this.buf, this.buflen, bufpos := buf, buflen, 0;
      text, before := "", buf[..];
    }

    // __snprintf_send
    method Send(data: string)
      requires Valid()
      modifies this, buf
      ensures Valid() && text == old(text) + data
    {
      for i := 0 to |data|
        invariant Valid() && text == old(text) + data[..i]
      {
        ghost var held, t := buf[..], text;
        if bufpos < buflen {
          buf[bufpos] := data[i];
          bufpos := bufpos + 1;
          assert buf[..] == held[bufpos - 1 := data[i]];
        }
        text := text + [data[i]];
        assert data[..i + 1] == data[..i] + [data[i]];
      }
      assert data[..|data|] == data;
    }
  }

  // ---------- the formatter ----------

  // The padding on one side
  function Side(fill: char, spc: nat, here: bool): string {
    if here then Fill(fill, spc) else ""
  }

  lemma InPieces(t: string, a: string, b: string, c: string, d: string, e: string, f: string)
    ensures t + a + b + c + d + e + f == t + (a + b + c + d + e + f)
  {}

  class Formatter {
    const snp: Snp
    var args: seq<Arg>
    var charcount: nat
    var inPct: bool
    var spacing: int
    var rightspc: bool
    var fillchar: char
    var altformat: bool

    ghost predicate Valid()
      reads this, snp, snp.buf
    {
      snp.Valid() && charcount == |snp.text| && (!inPct ==> S() == PLAIN)
    }

    function S(): Spec
      reads this
    {
      Spec(spacing, rightspc, fillchar, altformat)
    }

    constructor (snp: Snp, args: seq<Arg>)
      requires snp.Valid() && snp.text == ""
      ensures Valid() && this.snp == snp && this.args == args && !inPct && S() == PLAIN
    {
      this.snp, this.args, charcount, inPct := snp, args, 0, false;
      spacing, rightspc, fillchar, altformat := 0, false, ' ', false;
    }

    // __pf_print
    method Print(txt: string)
      requires Valid()
      modifies this`charcount, snp, snp.buf
      ensures Valid() && snp.text == old(snp.text) + txt
    {
      snp.Send(txt);
      charcount := charcount + |txt|;
    }

    // __pf_endfield
    method EndField()
      requires Valid()
      modifies this
      ensures Valid() && !inPct && S() == PLAIN && args == old(args) && charcount == old(charcount)
    {
      inPct, spacing, rightspc, fillchar, altformat := false, 0, false, ' ', false;
    }

    // __pf_modifier
    method Modifier(ch: char)
      requires Valid() && inPct && ch in MODIFIERS
      modifies this
      ensures Valid() && S() == Modify(old(S()), ch) && args == old(args) && inPct == old(inPct) &&
              charcount == old(charcount)
    {
      if ch == '#' {
        altformat := true;
      } else if ch == '-' {
        rightspc := true;
      } else if ch == 'l' || ch == 'q' {
      } else if ch == '0' {
        if spacing > 0 {
          spacing := Signed(spacing * 10);
        } else {
          fillchar := '0';
        }
      } else {
        assert '0' < ch <= '9';
        spacing := Signed(spacing * 10 + DigitValue(ch));
      }
    }

    // __pf_fill
    method PrintFill(spc: nat)
      requires Valid()
      modifies this`charcount, snp, snp.buf
      ensures Valid() && snp.text == old(snp.text) + Fill(fillchar, spc)
    {
      for i := 0 to spc
        invariant Valid() && snp.text == old(snp.text) + Fill(fillchar, i)
      {
        Print([fillchar]);
        assert Fill(fillchar, i + 1) == Fill(fillchar, i) + [fillchar];
      }
    }

    // __pf_printstuff
    method PrintStuff(prefix: string, prefix2: string, stuff: string)
      requires Valid()
      modifies this`charcount, snp, snp.buf
      ensures Valid() && snp.text == old(snp.text) + Padded(S(), prefix, prefix2, stuff)
    {
      hide Snp.Valid, Fill;
      var len := |prefix| + |prefix2| + |stuff|;
      var spc := if spacing > len then spacing - len else 0;
      ghost var t := snp.text;
      PrintPad(spc, !rightspc && fillchar != '0');
      Print(prefix);
      Print(prefix2);
      PrintPad(spc, !rightspc && fillchar == '0');
      Print(stuff);
      PrintPad(spc, rightspc);
      InPieces(t, Side(fillchar, spc, !rightspc && fillchar != '0'), prefix, prefix2,
               Side(fillchar, spc, !rightspc && fillchar == '0'), stuff, Side(fillchar, spc, rightspc));
    }

    // The padding, if it goes here
    method PrintPad(spc: nat, here: bool)
      requires Valid()
      modifies this`charcount, snp, snp.buf
      ensures Valid() && snp.text == old(snp.text) + Side(fillchar, spc, here)
    {
      hide Snp.Valid;
      if spc > 0 && here {
        PrintFill(spc);
      }
    }

    // __pf_printnum
    method PrintNum(num: nat, neg: bool, base: nat, baseprefix: bool)
      requires Valid() && IsBase(base) && num < WORD
      modifies this`charcount, snp, snp.buf
      ensures Valid()
      ensures var prefix := if neg then "-" else "";
              var prefix2 := if baseprefix && base == 16 then "0x" else if baseprefix && base == 8 then "0" else "";
              snp.text == old(snp.text) + Padded(S(), prefix, prefix2, NumText(num, base))
    {
      hide Snp.Valid, NumText, Padded;
      var buf := new char[12];
      var x := FillDigits(buf, num, base);
      var bprefix := if baseprefix && base == 16 then "0x" else if baseprefix && base == 8 then "0" else "";
      PrintStuff(if neg then "-" else "", bprefix, buf[x..11]);
    }

    // The integer conversions of __pf_send: __pf_getnum, __pf_setbase and
    // __pf_printnum
    method Integer(ch: char)
      requires Valid() && ch in "doupx"
      modifies this, snp, snp.buf
      ensures Valid() && snp.text == old(snp.text) + FieldText(S(), ch, old(args))
      ensures args == Rest(old(args), ch) && S() == old(S()) && inPct == old(inPct)
    {
      hide Snp.Valid, NumText, Padded;
      var arg := IntArg(args);
      args := if args != [] then args[1..] else args;
      if ch == 'd' {
        var signednum := Signed(arg);
        if signednum < 0 {
          PrintNum(-signednum, true, 10, altformat);
        } else {
          PrintNum(signednum, false, 10, altformat);
        }
      } else {
        var base := if ch == 'u' then 10 else if ch == 'o' then 8 else 16;
        PrintNum(arg % WORD, false, base, altformat || ch == 'p');
      }
    }

    // A conversion and the reset after it, in __pf_send
    method Conversion(ch: char)
      requires Valid() && inPct && ch !in MODIFIERS
      modifies this, snp, snp.buf
      ensures Valid() && !inPct && snp.text == old(snp.text) + old(FieldText(S(), ch, args)) &&
              args == Rest(old(args), ch)
    {
      hide Snp.Valid, NumText, Padded, Decimal;
      if ch in "doupx" {
        Integer(ch);
      } else if ch == 's' {
        var str := StrArg(args);
        args := if args != [] then args[1..] else args;
        PrintStuff("", "", str);
      } else {
        var x := if ch == 'c' then CharArg(args) else [ch];
        args := if ch == 'c' && args != [] then args[1..] else args;
        PrintStuff("", "", x);
      }
      EndField();
    }

    // What is still to be printed for the rest of a format.
    ghost function Remaining(rest: string): string
      reads this
    {
      if inPct then RenderField(S(), rest, args) else Render(rest, args)
    }

    // __pf_send on the first character of rest
    method SendChar(ch: char, ghost rest: string)
      requires Valid() && rest != "" && rest[0] == ch
      modifies this, snp, snp.buf
      ensures Valid() && snp.text + Remaining(rest[1..]) == old(snp.text) + old(Remaining(rest))
    {
      hide Snp.Valid, FieldText, RenderField, Render, Modify, Padded;
      ghost var t := snp.text;
      if !inPct && ch != '%' {
        RenderPlain(rest, args);
        Print([ch]);
        assert t + [ch] + Render(rest[1..], args) == t + ([ch] + Render(rest[1..], args));
      } else if !inPct {
        RenderPlain(rest, args);
        inPct := true;
      } else if ch in MODIFIERS {
        FieldModifier(S(), rest, args);
        Modifier(ch);
      } else {
        FieldEnds(S(), rest, args);
        ghost var field := FieldText(S(), ch, args);
        Conversion(ch);
        assert t + field + Render(rest[1..], args) == t + (field + Render(rest[1..], args));
      }
    }

    // __vprintf
    method Vprintf(format: string) returns (chars: nat)
      requires Valid() && !inPct && snp.text == ""
      modifies this, snp, snp.buf
      ensures snp.Valid() && snp.text == Render(format, old(args)) && chars == |snp.text|
    {
      hide Snp.Valid, FieldText, RenderField, Render;
      ghost var whole := Render(format, args);
      assert format[0..] == format;
      for i := 0 to |format|
        invariant Valid() && snp.text + Remaining(format[i..]) == whole
      {
        assert format[i..][1..] == format[i + 1..];
        SendChar(format[i], format[i..]);
      }
      NothingLeft(S(), args);
      return charcount;
    }
  }

  lemma RenderPlain(f: string, args: seq<Arg>)
    requires f != ""
    ensures Render(f, args) == if f[0] != '%' then [f[0]] + Render(f[1..], args) else RenderField(PLAIN, f[1..], args)
  {}

  lemma NothingLeft(sp: Spec, args: seq<Arg>)
    ensures Render("", args) == "" && RenderField(sp, "", args) == ""
  {}

  lemma Terminated(text: string, before: string, m: nat)
    requires m <= |text| && m < |before|
    ensures (text[..m] + before[m..])[m := '\0'] == text[..m] + ['\0'] + before[m + 1..]
  {}

  // vsnprintf: at most len - 1 characters and a terminator are stored, the
  // whole length is returned, and nothing else in the buffer changes.
  method Vsnprintf(buf: array<char>, len: nat, fmt: string, args: seq<Arg>) returns (chars: nat)
    requires len <= buf.Length
    modifies buf
    ensures chars == |Render(fmt, args)|
    ensures len == 0 ==> buf[..] == old(buf[..])
    ensures len > 0 ==> var m := Least(chars, len - 1);
                        buf[..] == Render(fmt, args)[..m] + ['\0'] + old(buf[..])[m + 1..]
  {
    hide Render;
    ghost var before := buf[..];
    var snp := new Snp(buf, if len == 0 then 0 else len - 1);
    var pf := new Formatter(snp, args);
    chars := pf.Vprintf(fmt);
    ghost var m, held := snp.bufpos, buf[..];
    assert m == Least(chars, if len == 0 then 0 else len - 1);
    if len > 0 {
      Terminated(snp.text, before, m);
      buf[snp.bufpos] := '\0';
      assert buf[..] == held[m := '\0'];
    }
  }
}
