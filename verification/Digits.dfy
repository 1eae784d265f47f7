/**
 Numbers as text: digit generation in lib/libc/__printf.c and parsing in
 lib/libc/atoi.c, and the padded field between them.
 */
module Digits {

  // ---------- digits ----------

  predicate IsBase(b: nat) {
    b == 8 || b == 10 || b == 16
  }

  const DIGITS := "0123456789abcdef"

  // The digits of n, most significant first.
  function NumText(n: nat, base: nat): (s: string)
    requires IsBase(base)
    ensures |s| > 0
  {
    if n < base then [DIGITS[n]] else NumText(n / base, base) + [DIGITS[n % base]]
  }

  function DigitValue(c: char): int {
    if '0' <= c <= '9' then c as int - '0' as int else -1
  }

  // The number that decimal digits spell.
  function Value(s: string): nat
    requires forall i :: 0 <= i < |s| ==> DigitValue(s[i]) >= 0
  {
    if s == "" then 0 else Value(s[..|s| - 1]) * 10 + DigitValue(s[|s| - 1])
  }

  lemma {:induction false} TextValue(n: nat)
    ensures forall i :: 0 <= i < |NumText(n, 10)| ==> DigitValue(NumText(n, 10)[i]) >= 0
    ensures Value(NumText(n, 10)) == n
  {
    if n >= 10 {
      TextValue(n / 10);
      var s, t := NumText(n, 10), NumText(n / 10, 10);
      assert s[..|s| - 1] == t;
    }
  }

  // Eleven digits are enough for 32 bits in any of the bases.
  lemma {:induction false} TextBound(n: nat, base: nat, k: nat)
    requires IsBase(base) && k > 0 && n < Pow8(k)
    ensures |NumText(n, base)| <= k
  {
    if n >= base {
      assert n / base < Pow8(k - 1);
      assert k > 1;
      TextBound(n / base, base, k - 1);
    }
  }

  function Pow8(k: nat): nat {
    if k == 0 then 1 else 8 * Pow8(k - 1)
  }

  lemma WordText(n: nat, base: nat)
    requires IsBase(base) && n < 0x1_0000_0000
    ensures |NumText(n, base)| <= 11
  {
    assert Pow8(11) == 0x2_0000_0000;
    TextBound(n, base, 11);
  }

  // The digit loop of __pf_printnum, in a buffer of NUMBER_BUF_SIZE bytes:
  // x is where the text starts.
  method FillDigits(buf: array<char>, num: nat, base: nat) returns (x: nat)
    requires buf.Length == 12 && IsBase(base) && num < 0x1_0000_0000
    modifies buf
    ensures x < 11 && buf[11] == '\0' && buf[x..11] == NumText(num, base)
  {
    hide NumText, IsBase;
    WordText(num, base);
    buf[11] := '\0';
    var xnum := num;
    var at: int := 10;
    Front(xnum, base);
    buf[at] := DIGITS[xnum % base];
    at := at - 1;
    xnum := xnum / base;
    while xnum > 0
      invariant -1 <= at <= 9 && buf[11] == '\0' && xnum >= 0
      invariant NumText(num, base) == (if xnum > 0 then NumText(xnum, base) else "") + buf[at + 1..11]
      decreases xnum
    {
      ghost var before := buf[at + 1..11];
      Front(xnum, base);
      buf[at] := DIGITS[xnum % base];
      assert buf[at..11] == [DIGITS[xnum % base]] + before;
      at := at - 1;
      xnum := xnum / base;
    }
    x := at + 1;
  }

  lemma Front(n: nat, base: nat)
    requires IsBase(base)
    ensures 0 <= n % base < base <= |DIGITS| && 0 <= n / base && (n > 0 ==> n / base < n)
    ensures NumText(n, base) == (if n / base > 0 then NumText(n / base, base) else "") + [DIGITS[n % base]]
  {
    if base == 8 {
      assert n >= 8 <==> n / 8 > 0;
    } else if base == 10 {
      assert n >= 10 <==> n / 10 > 0;
    } else {
      assert n >= 16 <==> n / 16 > 0;
    }
  }

  // ---------- fields ----------

  function Fill(c: char, n: nat): (s: string)
    ensures |s| == n && forall i :: 0 <= i < n ==> s[i] == c
  {
    seq(n, _ => c)
  }

  // What stands between % and the type: width, '-', fill character and '#'.
  datatype Spec = Spec(spacing: int, right: bool, fill: char, alt: bool)

  // The characters of a field: two prefixes and some text, padded.
  function Padded(sp: Spec, prefix: string, prefix2: string, stuff: string): string {
    var len := |prefix| + |prefix2| + |stuff|;
    var pad := Fill(sp.fill, if sp.spacing > len then sp.spacing - len else 0);
    (if !sp.right && sp.fill != '0' then pad else "") + prefix + prefix2
    + (if !sp.right && sp.fill == '0' then pad else "") + stuff
    + (if sp.right then pad else "")
  }

  // A field is as wide as asked for, or as its text if that is wider.
  lemma FieldWidth(sp: Spec, prefix: string, prefix2: string, stuff: string)
    ensures var natural := |prefix| + |prefix2| + |stuff|;
            |Padded(sp, prefix, prefix2, stuff)| == if sp.spacing > natural then sp.spacing else natural
  {}

  // What %d prints for n.
  function Decimal(sp: Spec, n: int): string {
    if n < 0 then Padded(sp, "-", "", NumText(-n, 10)) else Padded(sp, "", "", NumText(n, 10))
  }
}
