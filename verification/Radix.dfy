/** Positional numerals: digits and values in any base, and re-coding between bases. */
module Radix {

  type Digits = seq<nat>

  predicate InBase(base: nat, ds: Digits) {
    forall i | 0 <= i < |ds| :: ds[i] < base
  }

  /** Most significant digit first. */
  function Value(base: nat, ds: Digits): nat {
    if ds == [] then 0 else Value(base, ds[..|ds| - 1]) * base + ds[|ds| - 1]
  }

  /** The shortest numeral of `v`; nothing for zero. */
  function Numeral(base: nat, v: nat): (ds: Digits)
    requires base >= 2
    ensures InBase(base, ds)
    ensures ds != [] ==> ds[0] != 0
    ensures ds == [] <==> v == 0
    decreases v
  {
    if v == 0 then [] else Numeral(base, v / base) + [v % base]
  }

  predicate Shortest(ds: Digits) { ds != [] ==> ds[0] != 0 }

  lemma Euclid(base: nat, v: nat)
    requires base >= 2
    ensures v / base * base + v % base == v
  {
  }

  lemma ValueSnoc(base: nat, init: Digits, last: nat)
    ensures Value(base, init + [last]) == Value(base, init) * base + last
  {
    var ds := init + [last];
    assert ds[..|ds| - 1] == init && ds[|ds| - 1] == last;
  }

  lemma NumeralStep(base: nat, v: nat) returns (q: nat, r: nat)
    requires base >= 2 && v > 0
    ensures Numeral(base, v) == Numeral(base, q) + [r] && q < v && q * base + r == v
  {
    q, r := v / base, v % base;
    Euclid(base, v);
    Shrinks(base, v);
    Unfold(base, v);
  }

  lemma Shrinks(base: nat, v: nat)
    requires base >= 2 && v > 0
    ensures v / base < v
  {
  }

  lemma Unfold(base: nat, v: nat)
    requires base >= 2 && v > 0
    ensures Numeral(base, v) == Numeral(base, v / base) + [v % base]
  {
  }

  lemma {:induction false} ValueOfNumeral(base: nat, v: nat)
    requires base >= 2
    ensures Value(base, Numeral(base, v)) == v
    decreases v
  {
    if v > 0 {
      var q, r := NumeralStep(base, v);
      ValueOfNumeral(base, q);
      ValueSnoc(base, Numeral(base, q), r);
    }
  }

  lemma {:induction false} NumeralOfValue(base: nat, ds: Digits)
    requires base >= 2 && InBase(base, ds) && Shortest(ds)
    ensures Numeral(base, Value(base, ds)) == ds
    decreases |ds|
  {
    if ds != [] {
      var init, last := ds[..|ds| - 1], ds[|ds| - 1];
      NumeralOfValue(base, init);
      QuotientRemainder(base, Value(base, init), last);
      assert ds == init + [last];
      assert init == [] ==> last != 0;
      assert Value(base, ds) > 0 by {
        if init != [] { assert Numeral(base, Value(base, init)) == init; Positive(base, Value(base, init), last); }
      }
    }
  }

  lemma Positive(base: nat, q: nat, r: nat)
    requires base >= 2 && q > 0
    ensures q * base + r > 0
  {
  }

  lemma QuotientRemainder(base: nat, q: nat, r: nat)
    requires r < base
    ensures (q * base + r) / base == q && (q * base + r) % base == r
  {
    var n := q * base + r;
    assert base * (n / base) + n % base == n;
    Unique(base, n / base, n % base, q, r);
  }

  lemma Unique(base: nat, q: int, r: int, p: int, s: int)
    requires base * q + r == base * p + s && 0 <= r < base && 0 <= s < base
    ensures q == p && r == s
  {
    if q < p { Apart(base, q, p); }
    if p < q { Apart(base, p, q); }
  }

  lemma Apart(base: nat, q: int, p: int)
    requires q < p
    ensures base * q + base <= base * p
  {
    MulAbove(base, q + 1, p);
    assert base * (q + 1) == base * q + base;
  }

  lemma {:induction false} MulAbove(base: nat, x: int, y: int)
    requires x <= y
    ensures base * x <= base * y
    decreases y - x
  {
    if x < y {
      MulAbove(base, x, y - 1);
      assert base * y == base * (y - 1) + base;
    }
  }

  /** The number of leading zero digits. */
  function Lead(ds: Digits): (n: nat)
    ensures n <= |ds| && (forall i | 0 <= i < n :: ds[i] == 0) && (n < |ds| ==> ds[n] != 0)
  {
    if ds == [] || ds[0] != 0 then 0 else 1 + Lead(ds[1..])
  }

  function Zeros(n: nat): (z: Digits)
    ensures |z| == n && forall i | 0 <= i < n :: z[i] == 0
  {
    seq(n, _ => 0)
  }

  lemma {:induction false} LeadOf(n: nat, ds: Digits)
    requires Shortest(ds)
    ensures Lead(Zeros(n) + ds) == n
    decreases n
  {
    if n == 0 {
      assert Zeros(0) + ds == ds;
    } else {
      LeadOf(n - 1, ds);
      assert (Zeros(n) + ds)[1..] == Zeros(n - 1) + ds;
    }
  }

  lemma {:induction false} ValueSkipsZeros(base: nat, n: nat, ds: Digits)
    ensures Value(base, Zeros(n) + ds) == Value(base, ds)
    decreases n + |ds|
  {
    var all := Zeros(n) + ds;
    if ds != [] {
      ValueSkipsZeros(base, n, ds[..|ds| - 1]);
      assert all[..|all| - 1] == Zeros(n) + ds[..|ds| - 1];
    } else if n > 0 {
      ValueSkipsZeros(base, n - 1, []);
      assert all[..|all| - 1] == Zeros(n - 1) + [];
    }
  }

  /** Leading zeros are kept digit for digit; the rest is the value in the other base. */
  function Recode(source: nat, target: nat, ds: Digits): (r: Digits)
    requires target >= 2
    ensures InBase(target, r)
  {
    Zeros(Lead(ds)) + Numeral(target, Value(source, ds))
  }

  lemma SplitLead(ds: Digits)
    ensures ds == Zeros(Lead(ds)) + ds[Lead(ds)..] && Shortest(ds[Lead(ds)..])
  {
  }

  /** Re-coding back gives the same digits: nothing is lost, in either direction. */
  lemma RecodeInverts(source: nat, target: nat, ds: Digits)
    requires source >= 2 && target >= 2 && InBase(source, ds)
    ensures Recode(target, source, Recode(source, target, ds)) == ds
  {
    var n, core := Lead(ds), ds[Lead(ds)..];
    var v := Value(source, ds);
    SplitLead(ds);
    ValueSkipsZeros(source, n, core);
    NumeralOfValue(source, core);
    LeadOf(n, Numeral(target, v));
    ValueSkipsZeros(target, n, Numeral(target, v));
    ValueOfNumeral(target, v);
  }

  // ---- Lengths ------------------------------------------------------------

  function Pow(base: nat, n: nat): nat {
    if n == 0 then 1 else base * Pow(base, n - 1)
  }

  lemma {:induction false} ValueBelow(base: nat, ds: Digits)
    requires base >= 2 && InBase(base, ds)
    ensures Value(base, ds) < Pow(base, |ds|)
    decreases |ds|
  {
    if ds != [] {
      var init, last := ds[..|ds| - 1], ds[|ds| - 1];
      ValueBelow(base, init);
      StepBounds(base, Value(base, init), last, Pow(base, |init|));
    }
  }

  lemma {:induction false} ValueAtLeast(base: nat, ds: Digits)
    requires base >= 2 && ds != [] && ds[0] != 0
    ensures Value(base, ds) >= Pow(base, |ds| - 1)
    decreases |ds|
  {
    var init, last := ds[..|ds| - 1], ds[|ds| - 1];
    if init != [] {
      ValueAtLeast(base, init);
      MulMonotone(Pow(base, |init| - 1), Value(base, init), base, base);
      Commute(base, Pow(base, |init| - 1));
    } else {
      assert Value(base, init) == 0 && Value(base, ds) == ds[0];
    }
  }

  lemma Commute(a: nat, b: nat)
    ensures a * b == b * a
  {
  }

  lemma StepBounds(base: nat, v: nat, last: nat, bound: nat)
    requires v < bound && last < base
    ensures v * base + last < base * bound
  {
    assert (v + 1) * base <= bound * base;
  }

  lemma {:induction false} PowMonotone(base: nat, m: nat, n: nat)
    requires base >= 1 && m <= n
    ensures 0 < Pow(base, m) <= Pow(base, n)
    decreases n
  {
    if m < n {
      PowMonotone(base, m, n - 1);
      assert base * Pow(base, n - 1) >= Pow(base, n - 1);
    } else if n > 0 {
      PowMonotone(base, n - 1, n - 1);
      assert base * Pow(base, n - 1) > 0;
    }
  }

  lemma {:induction false} PowBases(b: nat, c: nat, n: nat)
    requires b <= c
    ensures Pow(b, n) <= Pow(c, n)
  {
    if n > 0 {
      PowBases(b, c, n - 1);
      MulMonotone(b, c, Pow(b, n - 1), Pow(c, n - 1));
    }
  }

  lemma MulMonotone(a: nat, b: nat, c: nat, d: nat)
    requires a <= b && c <= d
    ensures a * c <= b * d
  {
    assert a * c <= b * c <= b * d;
  }

  /** A value below Pow(base, n) has at most n digits, and one of at least Pow(base, n) more than n. */
  lemma NumeralLength(base: nat, v: nat, n: nat)
    requires base >= 2
    ensures v < Pow(base, n) <==> |Numeral(base, v)| <= n
  {
    var ds := Numeral(base, v);
    ValueOfNumeral(base, v);
    ValueBelow(base, ds);
    if |ds| <= n { PowMonotone(base, |ds|, n); }
    if |ds| > n {
      ValueAtLeast(base, ds);
      PowMonotone(base, n, |ds| - 1);
    }
  }
}
