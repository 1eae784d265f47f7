/**
 lib/libc/atoi.c, and when it reads back what %d prints.
 */
module AtoiLib {
  import opened Arith
  import opened Digits

  const WORD := 0x1_0000_0000

  // A 32-bit word as a signed integer
  function Signed(w: int): int {
    var r := w % WORD;
    if r < 0x8000_0000 then r else r - WORD
  }

  function WithSign(neg: bool, v: int): int {
    if neg then -v else v
  }

  predicate IsBlank(c: char) {
    c == ' ' || c == '\t'
  }

  // How many blanks, and how many digits, a string starts with.
  function Blanks(s: string): (k: nat)
    ensures k <= |s|
  {
    if s != "" && IsBlank(s[0]) then 1 + Blanks(s[1..]) else 0
  }

  function DigitRun(s: string): (k: nat)
    ensures k <= |s| && forall i :: 0 <= i < k ==> DigitValue(s[i]) >= 0
  {
    if s != "" && DigitValue(s[0]) >= 0 then 1 + DigitRun(s[1..]) else 0
  }

  function SignLength(s: string): nat {
    if s != "" && (s[0] == '-' || s[0] == '+') then 1 else 0
  }

  // The number a string starts with: blanks, a sign, digits.
  function Parsed(s: string): int {
    var t := s[Blanks(s)..];
    var u := t[SignLength(t)..];
    var v := Value(u[..DigitRun(u)]);
    Signed(WithSign(t != "" && t[0] == '-', v))
  }

  lemma WrapDigit(a: nat, d: nat)
    ensures (a % WORD * 10 + d) % WORD == (a * 10 + d) % WORD
  {
    var q := a / WORD;
    var r := (a % WORD * 10 + d) % WORD;
    var p := (a % WORD * 10 + d) / WORD;
    assert a * 10 + d == WORD * (10 * q + p) + r;
    DivMod(a * 10 + d, WORD, 10 * q + p, r);
  }

  // atoi, on the characters before the terminator
  method Atoi(s: string) returns (r: int)
    ensures r == Parsed(s)
  {
    var i := 0;
    while i < |s| && (s[i] == ' ' || s[i] == '\t')
      invariant i <= |s| && Blanks(s) == i + Blanks(s[i..])
    {
      assert s[i..][1..] == s[i + 1..];
      i := i + 1;
    }
    ghost var t := s[i..];
    var neg := false;
    if i < |s| && s[i] == '-' {
      neg := true;
      i := i + 1;
    } else if i < |s| && s[i] == '+' {
      i := i + 1;
    }
    r := Accumulate(s[i..], neg);
    assert s[i..] == t[SignLength(t)..];
  }

  // The digit loop of atoi and what follows it
  method Accumulate(u: string, neg: bool) returns (r: int)
    ensures var v := Value(u[..DigitRun(u)]); r == Signed(WithSign(neg, v))
  {
    var val, j := 0, 0;
    while j < |u|
      invariant j <= DigitRun(u) && DigitRun(u) == j + DigitRun(u[j..])
      invariant val == Value(u[..j]) % WORD
    {
      var digit := DigitValue(u[j]);
      if digit < 0 {
        break;
      }
      assert u[j..][1..] == u[j + 1..];
      assert u[..j + 1][..j] == u[..j];
      WrapDigit(Value(u[..j]), digit);
      val := (val * 10 + digit) % WORD;
      j := j + 1;
    }
    SignedMod(Value(u[..j]), neg);
    r := Signed(WithSign(neg, val));
  }

  lemma SignedMod(v: nat, neg: bool)
    ensures Signed(WithSign(neg, v % WORD)) == Signed(WithSign(neg, v))
  {
    assert v == WORD * (v / WORD) + v % WORD;
    if neg {
      var w: int, q: int := WithSign(true, v % WORD), v / WORD;
      DivMod(WithSign(true, v), WORD, w / WORD - q, w % WORD);
    }
  }

  // ---------- reading back a field ----------

  predicate AllDigits(s: string) {
    forall i :: 0 <= i < |s| ==> DigitValue(s[i]) >= 0
  }

  lemma {:induction false} SkipBlanks(bs: string, t: string)
    requires (forall i :: 0 <= i < |bs| ==> bs[i] == ' ' || bs[i] == '\t') && (t == "" || !IsBlank(t[0]))
    ensures Blanks(bs + t) == |bs|
  {
    var s := bs + t;
    if bs != "" {
      SkipBlanks(bs[1..], t);
      assert s[1..] == bs[1..] + t;
    } else {
      assert s == t;
    }
  }

  lemma {:induction false} TakeDigits(ds: string, rest: string)
    requires AllDigits(ds) && (rest == "" || DigitValue(rest[0]) < 0)
    ensures DigitRun(ds + rest) == |ds|
  {
    var s := ds + rest;
    if ds != "" {
      TakeDigits(ds[1..], rest);
      assert s[1..] == ds[1..] + rest;
    } else {
      assert s == rest;
    }
  }

  // A sign and what follows it
  lemma SignForm(sign: string, u: string)
    requires sign == "" || sign == "-" || sign == "+"
    requires sign == "" && u != "" ==> u[0] !in " \t+-"
    ensures var t := sign + u;
            && t[SignLength(t)..] == u && (t != "" ==> !IsBlank(t[0]))
            && (t != "" && t[0] == '-' <==> sign == "-")
  {
    if sign == "" {
      assert sign + u == u;
    }
  }

  // Any string is blanks, perhaps a sign, digits, and then something else;
  // what it reads as is the digits with the sign.
  lemma ParsedForm(bs: string, sign: string, ds: string, rest: string)
    requires forall i :: 0 <= i < |bs| ==> bs[i] == ' ' || bs[i] == '\t'
    requires sign == "" || sign == "-" || sign == "+"
    requires AllDigits(ds) && (rest == "" || DigitValue(rest[0]) < 0)
    requires sign == "" && ds == "" && rest != "" ==> rest[0] !in " \t+-"
    ensures var v: int := Value(ds);
            Parsed(bs + sign + ds + rest) == Signed(if sign == "-" then -v else v)
  {
    hide Blanks, DigitRun, Value, Signed, SignLength;
    var s, u := bs + sign + ds + rest, ds + rest;
    var t := sign + u;
    assert s == bs + t;
    assert ds != "" ==> DigitValue(ds[0]) >= 0;
    SignForm(sign, u);
    SkipBlanks(bs, t);
    assert s[|bs|..] == t;
    TakeDigits(ds, rest);
    assert u[..|ds|] == ds;
  }

  function Pow10(k: nat): (p: nat)
    ensures p > 0
  {
    if k == 0 then 1 else Pow10(k - 1) * 10
  }

  lemma {:induction false} LeadingZeros(k: nat, t: string)
    requires AllDigits(t)
    ensures AllDigits(Fill('0', k) + t) && Value(Fill('0', k) + t) == Value(t)
    decreases |t|, k
  {
    var s := Fill('0', k) + t;
    if t != "" {
      LeadingZeros(k, t[..|t| - 1]);
      assert s[..|s| - 1] == Fill('0', k) + t[..|t| - 1];
    } else if k > 0 {
      LeadingZeros(k - 1, t);
      assert s[..|s| - 1] == Fill('0', k - 1) + t;
    }
  }

  lemma {:induction false} TrailingZeros(t: string, k: nat)
    requires AllDigits(t)
    ensures AllDigits(t + Fill('0', k)) && Value(t + Fill('0', k)) == Value(t) * Pow10(k)
  {
    var s := t + Fill('0', k);
    if k > 0 {
      TrailingZeros(t, k - 1);
      assert s[..|s| - 1] == t + Fill('0', k - 1);
    } else {
      assert s == t;
    }
  }

  // ---------- wrapping multiples of powers of ten ----------

  function Pow2(j: nat): (p: nat)
    ensures p > 0
  {
    if j == 0 then 1 else 2 * Pow2(j - 1)
  }

  lemma Cancel(p: int, a: int, b: int)
    requires p > 0 && p * a == p * b
    ensures a == b
  {
    assert p * (a - b) == 0;
  }

  // An odd factor does not help towards a power of two.
  lemma {:induction false} OddCancels(j: nat, n: int, h: int, q: int) returns (r: int)
    requires n * (2 * h + 1) == Pow2(j) * q
    ensures n == Pow2(j) * r
  {
    if j == 0 {
      r := n;
    } else {
      var p := Pow2(j - 1);
      assert Pow2(j) * q == p * (2 * q);
      var s := OddCancels(j - 1, n, h, 2 * q);
      assert (p * s) * (2 * h + 1) == p * (s * (2 * h + 1));
      Cancel(p, s * (2 * h + 1), 2 * q);
      assert s * (2 * h + 1) == 2 * (s * h) + s;
      r := q - s * h;
      assert p * (2 * r) == Pow2(j) * r;
    }
  }

  // Powers of ten past the first are even.
  lemma TenEven(k: nat)
    requires k > 0
    ensures Pow10(k) == 2 * (5 * Pow10(k - 1))
  {}

  // Zeros after it change what a word reads as, unless it is 0.
  lemma ShiftChanges(n: int, k: nat)
    requires -0x8000_0000 <= n < 0x8000_0000 && n != 0 && k > 0
    ensures Signed(n * Pow10(k)) != n
  {
    hide Pow10, Signed, Pow2;
    if Signed(n * Pow10(k)) == n {
      var q := SignedIs(n * Pow10(k), n);
      TenEven(k);
      var h := 5 * Pow10(k - 1) - 1;
      Distribute(n, Pow10(k), h);
      Pow2Word();
      var r := OddCancels(32, n, h, q);
      TooBig(n, r);
    }
  }

  lemma SignedIs(x: int, n: int) returns (q: int)
    requires Signed(x) == n
    ensures x == WORD * q + n
  {
    q := if x % WORD < 0x8000_0000 then x / WORD else x / WORD + 1;
  }

  lemma Distribute(n: int, p: int, h: int)
    requires p == 2 * (h + 1)
    ensures n * (2 * h + 1) == n * p - n
  {
    assert 2 * h + 1 == p - 1;
    assert n * (p - 1) == n * p - n;
  }

  lemma Pow2Word()
    ensures Pow2(32) == WORD
  {
    assert Pow2(8) == 0x100;
    assert Pow2(16) == 0x1_0000;
    assert Pow2(24) == 0x100_0000;
  }

  lemma TooBig(n: int, r: int)
    requires n == WORD * r && n != 0
    ensures n < -0x8000_0000 || n >= 0x8000_0000
  {}

  // ---------- the round trip ----------

  predicate IsInt(n: int) {
    -0x8000_0000 <= n < 0x8000_0000
  }

  function Abs(n: int): nat {
    if n < 0 then -n else n
  }

  // How wide %d is without padding.
  function Natural(n: int): nat {
    |NumText(Abs(n), 10)| + if n < 0 then 1 else 0
  }

  // '-' and '0' together pad with zeros on the right.
  predicate ZerosAfter(sp: Spec, n: int) {
    sp.right && sp.fill == '0' && sp.spacing > Natural(n)
  }

  lemma SignedInt(n: int)
    requires IsInt(n)
    ensures Signed(n) == n && WithSign(n < 0, Abs(n)) == n
  {}

  function Sign(n: int): string {
    if n < 0 then "-" else ""
  }

  function Pad(sp: Spec, n: int): nat {
    if sp.spacing > Natural(n) then sp.spacing - Natural(n) else 0
  }

  // The four shapes of a field.
  lemma DecimalShape(sp: Spec, n: int)
    ensures var ds, pad := NumText(Abs(n), 10), Fill(sp.fill, Pad(sp, n));
            Decimal(sp, n) == if sp.right then Sign(n) + ds + pad
                              else if sp.fill == '0' then Sign(n) + pad + ds
                              else pad + Sign(n) + ds
  {
    hide NumText, Fill;
  }

  // Padding on the left, or none, or with blanks on the right.
  lemma ReadsBack(sp: Spec, n: int)
    requires IsInt(n) && (sp.fill == ' ' || sp.fill == '0') && !ZerosAfter(sp, n)
    ensures Parsed(Decimal(sp, n)) == n
  {
    hide NumText, Parsed, Signed, Value, Fill, Decimal;
    var ds, pad := NumText(Abs(n), 10), Pad(sp, n);
    TextValue(Abs(n));
    SignedInt(n);
    DecimalShape(sp, n);
    if sp.right {
      assert Fill(' ', 0) + Sign(n) + ds + Fill(sp.fill, pad) == Sign(n) + ds + Fill(sp.fill, pad);
      ParsedForm(Fill(' ', 0), Sign(n), ds, Fill(sp.fill, pad));
    } else if sp.fill == ' ' {
      assert Fill(' ', pad) + Sign(n) + ds + "" == Fill(' ', pad) + Sign(n) + ds;
      ParsedForm(Fill(' ', pad), Sign(n), ds, "");
    } else {
      LeadingZeros(pad, ds);
      assert Fill(' ', 0) + Sign(n) + (Fill('0', pad) + ds) + "" == Sign(n) + Fill('0', pad) + ds;
      ParsedForm(Fill(' ', 0), Sign(n), Fill('0', pad) + ds, "");
    }
  }

  lemma ReadsShifted(sp: Spec, n: int)
    requires IsInt(n) && ZerosAfter(sp, n)
    ensures Parsed(Decimal(sp, n)) == Signed(n * Pow10(sp.spacing - Natural(n)))
  {
    hide NumText, Parsed, Signed, Value, Fill, Pow10, Decimal;
    var ds, pad := NumText(Abs(n), 10), Pad(sp, n);
    TextValue(Abs(n));
    TrailingZeros(ds, pad);
    DecimalShape(sp, n);
    assert Fill(' ', 0) + Sign(n) + (ds + Fill('0', pad)) + "" == Sign(n) + ds + Fill('0', pad);
    ParsedForm(Fill(' ', 0), Sign(n), ds + Fill('0', pad), "");
    assert WithSign(n < 0, Abs(n) * Pow10(pad)) == n * Pow10(pad);
  }

  // atoi reads back what %d prints, for every int, width and flags, except
  // when '-' and '0' together put zeros after a number that is not 0.
  lemma PrintParse(sp: Spec, n: int)
    requires IsInt(n) && (sp.fill == ' ' || sp.fill == '0')
    ensures Parsed(Decimal(sp, n)) == n <==> !(ZerosAfter(sp, n) && n != 0)
  {
    hide Parsed, Decimal, ZerosAfter, Signed, Natural, Pow10;
    if !ZerosAfter(sp, n) {
      ReadsBack(sp, n);
    } else {
      ReadsShifted(sp, n);
      PadPositive(sp, n);
      if n != 0 {
        ShiftChanges(n, sp.spacing - Natural(n));
      } else {
        SignedInt(0);
      }
    }
  }

  lemma PadPositive(sp: Spec, n: int)
    requires ZerosAfter(sp, n)
    ensures sp.spacing - Natural(n) > 0
  {}

  lemma LeftZerosExample()
    ensures Parsed(Decimal(Spec(3, true, '0', false), 7)) == 700
  {
    hide Parsed, Decimal;
    var sp := Spec(3, true, '0', false);
    assert Natural(7) == 1;
    ReadsShifted(sp, 7);
    assert Pow10(2) == 100;
  }
}
