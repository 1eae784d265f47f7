/**
 What printed text means: digits by the characters themselves, fields by the
 flags and digits of the format, and reading back what %u, %o, %x and %p print.
 */
module PrintfLaws {
  import opened Digits
  import opened AtoiLib
  import opened Printf

  // ---------- numerals ----------

  function DigitOf(c: char): int {
    if '0' <= c <= '9' then c as int - '0' as int
    else if 'a' <= c <= 'f' then c as int - 'a' as int + 10
    else -1
  }

  predicate DigitsBelow(s: string, base: nat) {
    forall i :: 0 <= i < |s| ==> 0 <= DigitOf(s[i]) < base
  }

  // Digits of the base, none of them a leading zero
  predicate Numeral(s: string, base: nat) {
    s != "" && DigitsBelow(s, base) && (|s| > 1 ==> s[0] != '0')
  }

  // The number that digits spell in a base.
  function BaseValue(s: string, base: nat): int {
    if s == "" then 0 else BaseValue(s[..|s| - 1], base) * base + DigitOf(s[|s| - 1])
  }

  lemma LastDigit(s: string, c: char, base: nat)
    ensures BaseValue(s + [c], base) == BaseValue(s, base) * base + DigitOf(c)
  {
    assert (s + [c])[..|s|] == s;
  }

  lemma DigitNames(d: nat)
    requires d < 16
    ensures DigitOf(DIGITS[d]) == d
  {}

  lemma NamedDigit(c: char)
    requires DigitOf(c) >= 0
    ensures DigitOf(c) < 16 && DIGITS[DigitOf(c)] == c
  {}

  lemma SplitOff(n: nat, base: nat)
    requires IsBase(base)
    ensures n / base * base + n % base == n && 0 <= n % base < base && (n >= base ==> 0 < n / base < n)
  {
    if base == 8 {
    } else if base == 10 {
    } else {
    }
  }

  lemma Joined(v: nat, d: nat, base: nat)
    requires IsBase(base) && d < base
    ensures (v * base + d) / base == v && (v * base + d) % base == d && (v > 0 ==> v * base + d >= base)
  {
    if base == 8 {
    } else if base == 10 {
    } else {
    }
  }

  lemma OneDigit(c: char, base: nat)
    ensures BaseValue([c], base) == DigitOf(c)
  {
    LastDigit("", c, base);
    assert "" + [c] == [c];
  }

  lemma MoreDigits(s: string, c: char, base: nat)
    requires DigitsBelow(s, base) && 0 <= DigitOf(c) < base
    ensures DigitsBelow(s + [c], base)
  {
    hide DigitOf;
  }

  // The printed digits are a numeral of the number.
  lemma {:induction false} TextIsNumeral(n: nat, base: nat)
    requires IsBase(base)
    ensures Numeral(NumText(n, base), base) && BaseValue(NumText(n, base), base) == n
    ensures NumText(n, base)[0] == '0' ==> n == 0
  {
    hide BaseValue, IsBase, DigitsBelow, DigitOf;
    SplitOff(n, base);
    Front(n, base);
    DigitNames(n % base);
    NoDigits(base);
    OneDigit(DIGITS[n % base], base);
    MoreDigits("", DIGITS[n % base], base);
    if n >= base {
      TextIsNumeral(n / base, base);
      LastDigit(NumText(n / base, base), DIGITS[n % base], base);
      MoreDigits(NumText(n / base, base), DIGITS[n % base], base);
    }
  }

  lemma NoDigits(base: nat)
    ensures DigitsBelow("", base) && DigitOf('0') == 0
  {}

  // It is the only one.
  lemma {:induction false} OnlyNumeral(s: string, base: nat)
    requires IsBase(base) && Numeral(s, base)
    ensures BaseValue(s, base) >= 0 && s == NumText(BaseValue(s, base), base)
  {
    hide IsBase, DigitOf, NumText, BaseValue;
    var t, c := s[..|s| - 1], s[|s| - 1];
    assert s == t + [c];
    NamedDigit(c);
    LastDigit(t, c, base);
    if t != "" {
      OnlyNumeral(t, base);
      TextIsNumeral(0, base);
      Zero(base);
    } else {
      OneDigit(c, base);
      Joined(0, DigitOf(c), base);
      assert BaseValue(t, base) == 0;
    }
    Joined(BaseValue(t, base), DigitOf(c), base);
    Front(BaseValue(s, base), base);
  }

  lemma Zero(base: nat)
    requires IsBase(base)
    ensures NumText(0, base) == "0"
  {}

  // ---------- flags and width ----------

  predicate Flags(m: string) {
    forall i :: 0 <= i < |m| ==> m[i] in "#-ql0123456789"
  }

  // The digits among the flags
  function DigitsIn(m: string): (s: string)
    ensures AllDigits(s)
  {
    if m == "" then ""
    else DigitsIn(m[..|m| - 1]) + if '0' <= m[|m| - 1] <= '9' then [m[|m| - 1]] else ""
  }

  // They are the width, and fill with zeros if the first is one.
  function Width(m: string): nat {
    Value(DigitsIn(m))
  }

  predicate ZeroFill(m: string) {
    DigitsIn(m) != "" && DigitsIn(m)[0] == '0'
  }

  lemma {:induction false} ModifyLast(sp: Spec, m: string, c: char)
    ensures ModifyAll(sp, m + [c]) == Modify(ModifyAll(sp, m), c)
    decreases |m|
  {
    hide Modify;
    if m != "" {
      ModifyLast(Modify(sp, m[0]), m[1..], c);
      assert (m + [c])[1..] == m[1..] + [c];
    } else {
      assert m + [c] == [c] && [c][1..] == "";
    }
  }

  lemma {:induction false} NoValue(ds: string)
    requires AllDigits(ds) && ds != "" && Value(ds) == 0
    ensures ds[0] == '0'
  {
    if |ds| > 1 {
      NoValue(ds[..|ds| - 1]);
    }
  }

  lemma DigitAdded(ds: string, c: char)
    requires AllDigits(ds) && '0' <= c <= '9'
    ensures AllDigits(ds + [c]) && Value(ds + [c]) == Value(ds) * 10 + DigitValue(c)
  {
    assert (ds + [c])[..|ds|] == ds;
  }

  // What one more character does to the width and the fill
  lemma FlagStep(t: string, c: char)
    ensures '0' <= c <= '9' ==> DigitsIn(t + [c]) == DigitsIn(t) + [c]
    ensures '0' <= c <= '9' ==> Width(t + [c]) == Width(t) * 10 + DigitValue(c)
    ensures !('0' <= c <= '9') ==> DigitsIn(t + [c]) == DigitsIn(t)
    ensures Width(t) == 0 ==> DigitsIn(t) == "" || ZeroFill(t)
    ensures DigitsIn(t) == "" ==> Width(t) == 0
  {
    hide Value;
    assert (t + [c])[..|t|] == t;
    if '0' <= c <= '9' {
      DigitAdded(DigitsIn(t), c);
    }
    if Width(t) == 0 && DigitsIn(t) != "" {
      NoValue(DigitsIn(t));
    }
    NoWidth();
  }

  lemma {:induction false} FlagsMean(m: string)
    ensures ModifyAll(PLAIN, m).right <==> '-' in m
    ensures ModifyAll(PLAIN, m).alt <==> '#' in m
    ensures Width(m) < 0x8000_0000 ==> ModifyAll(PLAIN, m).spacing == Width(m)
    ensures Width(m) < 0x8000_0000 ==> ModifyAll(PLAIN, m).fill == if ZeroFill(m) then '0' else ' '
  {
    hide ModifyAll, Value, DigitsIn;
    if m != "" {
      var t, c := m[..|m| - 1], m[|m| - 1];
      assert m == t + [c];
      FlagsMean(t);
      ModifyLast(PLAIN, t, c);
      FlagStep(t, c);
    } else {
      NoWidth();
    }
  }

  lemma NoWidth()
    ensures Value("") == 0 && DigitsIn("") == "" && ModifyAll(PLAIN, "") == Spec(0, false, ' ', false)
  {}

  // ---------- fields ----------

  // A text with a head laid out in a field: filled to the width, on the
  // right with '-', between head and body with zeros, else on the left.
  function Laid(m: string, head: string, body: string): string {
    var natural := |head| + |body|;
    var k := if Width(m) > natural then Width(m) - natural else 0;
    if '-' in m then head + body + Fill(if ZeroFill(m) then '0' else ' ', k)
    else if ZeroFill(m) then head + Fill('0', k) + body
    else Fill(' ', k) + head + body
  }

  lemma PaddedLaid(m: string, p: string, p2: string, body: string)
    requires Width(m) < 0x8000_0000
    ensures Padded(ModifyAll(PLAIN, m), p, p2, body) == Laid(m, p + p2, body)
  {
    hide ModifyAll, Width, ZeroFill, Fill;
    FlagsMean(m);
  }

  // %u, %o, %x and %p print the word's numeral in base 10, 8, 16 and 16.
  lemma WordField(m: string, ch: char, base: nat, n: int, ds: string)
    requires Flags(m) && Width(m) < 0x8000_0000
    requires (ch, base) in [('u', 10), ('o', 8), ('x', 16), ('p', 16)]
    requires Numeral(ds, base) && BaseValue(ds, base) == n % 0x1_0000_0000
    ensures var head := if ch == 'p' || (ch == 'x' && '#' in m) then "0x"
                        else if ch == 'o' && '#' in m then "0" else "";
            Render("%" + m + [ch], [Int(n)]) == Laid(m, head, ds)
  {
    hide Render, ModifyAll, Laid, Padded, NumText, Numeral, BaseValue, Width;
    FieldWhole(m, ch, [Int(n)]);
    OnlyNumeral(ds, base);
    FlagsMean(m);
    var prefix := BasePrefix(ModifyAll(PLAIN, m), ch);
    PaddedLaid(m, "", prefix, ds);
    assert "" + prefix == prefix;
  }

  // %d prints the numeral of the magnitude after the sign.
  lemma DecimalField(m: string, n: int, ds: string)
    requires Flags(m) && Width(m) < 0x8000_0000 && IsInt(n)
    requires Numeral(ds, 10) && BaseValue(ds, 10) == Abs(n)
    ensures Render("%" + m + "d", [Int(n)]) == Laid(m, if n < 0 then "-" else "", ds)
  {
    hide Render, ModifyAll, Laid, Padded, NumText, Numeral, BaseValue, Width;
    RenderDecimal(m, n);
    OnlyNumeral(ds, 10);
    PaddedLaid(m, if n < 0 then "-" else "", "", ds);
    assert (if n < 0 then "-" else "") + "" == if n < 0 then "-" else "";
  }

  // %s prints the string, (null) for none, %c the character unless it is the
  // terminator, and a letter that is no conversion, such as a second %,
  // prints itself.
  lemma TextField(m: string, s: string, n: int, ch: char)
    requires Flags(m) && Width(m) < 0x8000_0000 && ch !in "#-ql0123456789doupxsc"
    ensures Render("%" + m + "s", [Str(s)]) == Laid(m, "", s)
    ensures Render("%" + m + "s", [Null]) == Laid(m, "", "(null)")
    ensures 0 < n % 256 ==> Render("%" + m + "c", [Int(n)]) == Laid(m, "", [(n % 256) as char])
    ensures n % 256 == 0 ==> Render("%" + m + "c", [Int(n)]) == Laid(m, "", "")
    ensures Render("%" + m + [ch], []) == Laid(m, "", [ch])
  {
    hide Render, ModifyAll, Laid, Padded, NumText, Width;
    FieldWhole(m, 's', [Str(s)]);
    FieldWhole(m, 's', [Null]);
    FieldWhole(m, 'c', [Int(n)]);
    FieldWhole(m, ch, []);
    PaddedLaid(m, "", "", s);
    PaddedLaid(m, "", "", "(null)");
    PaddedLaid(m, "", "", CharArg([Int(n)]));
    PaddedLaid(m, "", "", [ch]);
    assert "" + "" == "";
  }

  // Text prints as it stands.
  lemma {:induction false} PlainThen(a: string, f: string, args: seq<Arg>)
    requires '%' !in a
    ensures Render(a + f, args) == a + Render(f, args)
    decreases |a|
  {
    hide Render, RenderField;
    if a != "" {
      PlainThen(a[1..], f, args);
      assert (a + f)[1..] == a[1..] + f;
      RenderPlain(a + f, args);
      assert [a[0]] + (a[1..] + Render(f, args)) == a + Render(f, args);
    } else {
      assert a + f == f && a + Render(f, args) == Render(f, args);
    }
  }

  // Conversions print one after another; those of doupxsc take an argument
  // each.
  lemma FieldsInOrder(m: string, ch: char, b: string, args: seq<Arg>)
    requires Flags(m) && ch !in "#-ql0123456789"
    ensures Render("%" + m + [ch] + b, args) ==
            Render("%" + m + [ch], args) + Render(b, if ch in "doupxsc" && args != [] then args[1..] else args)
  {
    hide ModifyAll, FieldText, Render;
    FieldWhole(m, ch, args);
    FieldThen(m, ch, b, args);
  }

  // ---------- reading back ----------

  // How many digits of the base a string starts with.
  function Run(s: string, base: nat): (k: nat)
    ensures k <= |s|
  {
    if s != "" && 0 <= DigitOf(s[0]) < base then 1 + Run(s[1..], base) else 0
  }

  // The number a string starts with: blanks, 0x in base 16, digits.
  function Scanned(s: string, base: nat): int {
    var t := s[Blanks(s)..];
    var u := if base == 16 && |t| >= 2 && t[..2] == "0x" then t[2..] else t;
    BaseValue(u[..Run(u, base)], base)
  }

  lemma {:induction false} RunOf(ds: string, rest: string, base: nat)
    requires DigitsBelow(ds, base) && (rest == "" || DigitOf(rest[0]) < 0)
    ensures Run(ds + rest, base) == |ds|
  {
    hide DigitOf;
    var s := ds + rest;
    if ds != "" {
      RunOf(ds[1..], rest, base);
      assert s[1..] == ds[1..] + rest;
    } else {
      assert s == rest;
    }
  }

  lemma NotBlank(c: char)
    requires DigitOf(c) >= 0
    ensures !IsBlank(c) && c != 'x'
  {}

  lemma ScannedForm(k: nat, head: string, ds: string, rest: string, base: nat)
    requires ds != "" && DigitsBelow(ds, base) && (rest == "" || DigitOf(rest[0]) < 0)
    requires head == "" || (base == 16 && head == "0x")
    requires rest != "" ==> rest[0] != 'x'
    ensures Scanned(Fill(' ', k) + head + ds + rest, base) == BaseValue(ds, base)
  {
    hide Blanks, Run, BaseValue, Fill, DigitOf;
    var s, t := Fill(' ', k) + head + ds + rest, head + ds + rest;
    assert s == Fill(' ', k) + t;
    NotBlank(ds[0]);
    SkipBlanks(Fill(' ', k), t);
    assert s[k..] == t;
    RunOf(ds, rest, base);
    assert (ds + rest)[..|ds|] == ds;
    if head != "" {
      assert t[..2] == "0x" && t[2..] == ds + rest;
    } else {
      assert t == ds + rest;
      if |ds| >= 2 { NotBlank(ds[1]); }
      assert |t| >= 2 ==> t[..2][1] == t[1] && t[1] != 'x';
    }
  }

  lemma {:induction false} ZerosBefore(k: nat, t: string, base: nat)
    requires DigitsBelow(t, base) && base > 0
    ensures DigitsBelow(Fill('0', k) + t, base) && BaseValue(Fill('0', k) + t, base) == BaseValue(t, base)
    decreases |t|, k
  {
    hide Fill;
    var s := Fill('0', k) + t;
    if t != "" {
      ZerosBefore(k, t[..|t| - 1], base);
      assert s[..|s| - 1] == Fill('0', k) + t[..|t| - 1];
    } else if k > 0 {
      ZerosBefore(k - 1, t, base);
      assert s[..|s| - 1] == Fill('0', k - 1) + t;
    }
  }

  lemma {:induction false} ZerosBehind(t: string, k: nat, base: nat)
    requires DigitsBelow(t, base) && base > 1 && BaseValue(t, base) >= 0
    ensures DigitsBelow(t + Fill('0', k), base) && BaseValue(t + Fill('0', k), base) >= BaseValue(t, base)
    ensures BaseValue(t, base) == 0 ==> BaseValue(t + Fill('0', k), base) == 0
    ensures BaseValue(t, base) > 0 && k > 0 ==> BaseValue(t + Fill('0', k), base) > BaseValue(t, base)
  {
    hide Fill, BaseValue, DigitsBelow, DigitOf;
    var s := t + Fill('0', k);
    if k > 0 {
      var u := t + Fill('0', k - 1);
      ZerosBehind(t, k - 1, base);
      assert s == u + ['0'];
      NoDigits(base);
      MoreDigits(u, '0', base);
      LastDigit(u, '0', base);
      Shifted(BaseValue(u, base), base);
    } else {
      assert s == t;
    }
  }

  lemma Shifted(v: int, base: nat)
    requires v >= 0 && base > 1
    ensures v * base >= v && (v > 0 ==> v * base > v) && (v == 0 ==> v * base == 0)
  {}

  // The parts of a prefix: what marks base 16, and octal's zeros
  lemma PrefixParts(prefix: string, base: nat) returns (head: string, o: nat)
    requires prefix == "" || (base == 16 && prefix == "0x") || prefix == "0"
    ensures head == "" || (base == 16 && head == "0x")
    ensures prefix == head + Fill('0', o)
  {
    head, o := if prefix == "0" then "" else prefix, if prefix == "0" then 1 else 0;
  }

  // The shapes of a field with its zeros taken together
  lemma PaddedShape(sp: Spec, head: string, o: nat, ds: string)
    ensures var natural := |head| + o + |ds|;
            var k := if sp.spacing > natural then sp.spacing - natural else 0;
            Padded(sp, "", head + Fill('0', o), ds) ==
            if sp.right then Fill(' ', 0) + head + (Fill('0', o) + ds) + Fill(sp.fill, k)
            else if sp.fill == '0' then Fill(' ', 0) + head + (Fill('0', o) + (Fill('0', k) + ds)) + ""
            else Fill(sp.fill, k) + head + (Fill('0', o) + ds) + ""
  {
    hide Fill;
  }

  // Every padding of a number is read back, but zeros on its right.
  lemma PaddedScanned(sp: Spec, prefix: string, n: nat, base: nat)
    requires IsBase(base) && (sp.fill == ' ' || sp.fill == '0')
    requires prefix == "" || (base == 16 && prefix == "0x") || prefix == "0"
    ensures Scanned(Padded(sp, "", prefix, NumText(n, base)), base) == n <==>
            !(sp.right && sp.fill == '0' && sp.spacing > |prefix| + |NumText(n, base)| && n != 0)
  {
    hide NumText, Scanned, BaseValue, Fill, Padded, DigitOf, DigitsBelow, IsBase;
    var ds := NumText(n, base);
    TextIsNumeral(n, base);
    BaseAboveOne(base);
    var head, o := PrefixParts(prefix, base);
    PaddedShape(sp, head, o, ds);
    var natural := |head| + o + |ds|;
    var k := if sp.spacing > natural then sp.spacing - natural else 0;
    ZerosBefore(o, ds, base);
    NoDigit();
    if sp.right && sp.fill == ' ' {
      ScannedForm(0, head, Fill('0', o) + ds, Fill(' ', k), base);
    } else if sp.right {
      ZerosBehind(Fill('0', o) + ds, k, base);
      var body := Fill('0', o) + ds + Fill('0', k);
      ScannedForm(0, head, body, "", base);
      assert Fill(' ', 0) + head + body + "" == Fill(' ', 0) + head + (Fill('0', o) + ds) + Fill('0', k);
      assert k == 0 ==> body == Fill('0', o) + ds;
    } else if sp.fill == '0' {
      ZerosBefore(k, ds, base);
      ZerosBefore(o, Fill('0', k) + ds, base);
      ScannedForm(0, head, Fill('0', o) + (Fill('0', k) + ds), "", base);
    } else {
      ScannedForm(k, head, Fill('0', o) + ds, "", base);
    }
  }

  lemma BaseAboveOne(base: nat)
    requires IsBase(base)
    ensures base > 1
  {}

  lemma NoDigit()
    ensures DigitOf(' ') < 0
  {}

  // Whatever flags and width stand before u, o, x or p, the word is read back
  // in base 10, 8, 16 and 16, unless '-' and '0' together put zeros after a
  // number that is not 0.
  lemma WordReadBack(m: string, ch: char, base: nat, n: int)
    requires Flags(m) && (ch, base) in [('u', 10), ('o', 8), ('x', 16), ('p', 16)]
    ensures var w, sp := n % 0x1_0000_0000, ModifyAll(PLAIN, m);
            Scanned(Render("%" + m + [ch], [Int(n)]), base) == w <==>
            !(sp.right && sp.fill == '0' && sp.spacing > |BasePrefix(sp, ch)| + |NumText(w, base)| && w != 0)
  {
    hide Render, ModifyAll, Padded, NumText, Scanned;
    FieldWhole(m, ch, [Int(n)]);
    ModifyFill(PLAIN, m);
    PaddedScanned(ModifyAll(PLAIN, m), BasePrefix(ModifyAll(PLAIN, m), ch), n % WORD, base);
  }
}
