/** Numbers written as digits, in bases up to sixteen: decimal amounts and hexadecimal words. */
module Numerals {
  import opened Radix
  import opened Text

  /** The value of one digit, in either case of letters. */
  function DigitOf(c: char): (d: nat)
    ensures d < 16 && (IsDigit(c) ==> d < 10)
  {
    if IsDigit(c) then (c - '0') as nat
    else if 'a' <= c <= 'f' then (c - 'a') as nat + 10
    else if 'A' <= c <= 'F' then (c - 'A') as nat + 10
    else 0
  }

  function DigitsOf(s: string): (ds: Digits)
    ensures |ds| == |s|
  {
    seq(|s|, i requires 0 <= i < |s| => DigitOf(s[i]))
  }

  /** The number a string of digits writes; zero for the empty string. */
  function TextNat(base: nat, s: string): nat {
    Value(base, DigitsOf(s))
  }

  function DigitChar(d: nat): (c: char)
    ensures IsHex(c) && (d < 10 ==> IsDigit(c)) && (d < 16 ==> DigitOf(c) == d)
  {
    if d < 10 then '0' + d as char else if d < 16 then 'a' + (d - 10) as char else '0'
  }

  /** `toString(base)` of a non-negative integer. */
  function Show(base: nat, v: nat): (s: string)
    requires 2 <= base <= 16
    ensures s != [] && All(IsHex, s) && (base == 10 ==> All(IsDigit, s))
  {
    var ds := Numeral(base, v);
    if v == 0 then "0" else seq(|ds|, i requires 0 <= i < |ds| => DigitChar(ds[i]))
  }

  function ZeroChars(n: nat): (z: string)
    ensures |z| == n && forall i | 0 <= i < n :: z[i] == '0'
  {
    seq(n, _ => '0')
  }

  function PadStart(s: string, n: nat): string {
    if |s| < n then ZeroChars(n - |s|) + s else s
  }

  function PadEnd(s: string, n: nat): string {
    if |s| < n then s + ZeroChars(n - |s|) else s
  }

  lemma {:induction false} ValueAppend(base: nat, x: Digits, y: Digits)
    ensures Value(base, x + y) == Value(base, x) * Pow(base, |y|) + Value(base, y)
    decreases |y|
  {
    if y == [] {
      assert x + y == x;
    } else {
      var init, last := y[..|y| - 1], y[|y| - 1];
      ValueAppend(base, x, init);
      ValueSnoc(base, x + init, last);
      assert x + y == (x + init) + [last];
      Shift(base, Value(base, x), Pow(base, |init|), Value(base, init), last);
    }
  }

  lemma Shift(base: nat, v: nat, p: nat, w: nat, last: nat)
    ensures (v * p + w) * base + last == v * (base * p) + (w * base + last)
  {
  }

  lemma DigitsAppend(s: string, t: string)
    ensures DigitsOf(s + t) == DigitsOf(s) + DigitsOf(t)
  {
  }

  lemma TextAppend(base: nat, s: string, t: string)
    ensures TextNat(base, s + t) == TextNat(base, s) * Pow(base, |t|) + TextNat(base, t)
  {
    DigitsAppend(s, t);
    ValueAppend(base, DigitsOf(s), DigitsOf(t));
  }

  lemma TextZeros(base: nat, n: nat, s: string)
    ensures TextNat(base, ZeroChars(n) + s) == TextNat(base, s)
  {
    assert DigitsOf(ZeroChars(n) + s) == Radix.Zeros(n) + DigitsOf(s);
    ValueSkipsZeros(base, n, DigitsOf(s));
  }

  lemma TextOfZeros(base: nat, n: nat)
    ensures TextNat(base, ZeroChars(n)) == 0
  {
    TextZeros(base, n, []);
    assert ZeroChars(n) + [] == ZeroChars(n) && DigitsOf([]) == [];
  }

  lemma TextOfDigit(base: nat, c: char)
    ensures TextNat(base, [c]) == DigitOf(c)
  {
    assert DigitsOf([c]) == [] + [DigitOf(c)];
    ValueSnoc(base, [], DigitOf(c));
  }

  lemma TextOfShow(base: nat, v: nat)
    requires 2 <= base <= 16
    ensures TextNat(base, Show(base, v)) == v
  {
    if v == 0 {
      assert DigitsOf("0") == Radix.Zeros(1) + [];
      ValueSkipsZeros(base, 1, []);
    } else {
      var ds := Numeral(base, v);
      assert forall i | 0 <= i < |ds| :: ds[i] < base && DigitOf(Show(base, v)[i]) == ds[i];
      assert DigitsOf(Show(base, v)) == ds;
      ValueOfNumeral(base, v);
    }
  }

  /** Padding on the left to `n` places keeps the value, and makes exactly `n` digits of one that fits. */
  lemma ShowPadded(base: nat, v: nat, n: nat)
    requires 2 <= base <= 16 && n > 0 && v < Pow(base, n)
    ensures var s := PadStart(Show(base, v), n);
      |s| == n && TextNat(base, s) == v && All(IsHex, s) && (base == 10 ==> All(IsDigit, s))
  {
    NumeralLength(base, v, n);
    TextOfShow(base, v);
    TextZeros(base, n - |Show(base, v)|, Show(base, v));
  }
}
