/** Exact decimal amounts: lamports as SOL text and back, and token units at any precision. */
module Amounts {
  import opened Bytes
  import opened Numerals
  import opened Radix
  import opened Text

  const LAMPORTS_PER_SOL := 1_000_000_000

  predicate AllDigits(s: string) {
    All(IsDigit, s)
  }

  function StripStart(s: string): string {
    if s != [] && s[0] == '0' then StripStart(s[1..]) else s
  }

  function StripEnd(s: string): string {
    if s != [] && s[|s| - 1] == '0' then StripEnd(s[..|s| - 1]) else s
  }

  // ---- The three operations -----------------------------------------------

  function FormatSol(lamports: int): string {
    var value: nat := if lamports < 0 then -lamports else lamports;
    var whole := Show(10, value / LAMPORTS_PER_SOL);
    var trimmed := StripEnd(PadStart(Show(10, value % LAMPORTS_PER_SOL), 9));
    (if lamports < 0 then "-" else "") + if trimmed != [] then whole + ("." + trimmed) else whole
  }

  /** An optional sign, digits, and optionally a point with more digits. */
  function SolShape(t: string): Option<(bool, string, string)> {
    var negative := t != [] && t[0] == '-';
    var (whole, rest) := Span(IsDigit, if negative then t[1..] else t);
    if rest == [] then Some((negative, whole, []))
    else if rest[0] == '.' && AllDigits(rest[1..]) then Some((negative, whole, rest[1..]))
    else None
  }

  function SolValue(whole: string, fraction: string): nat {
    TextNat(10, whole) * LAMPORTS_PER_SOL + TextNat(10, PadEnd(fraction, 9))
  }

  function Signed(negative: bool, v: int): int {
    if negative then -v else v
  }

  function ParseSol(amount: string): Option<int> {
    var shape := SolShape(Trim(amount));
    if shape.None? then None
    else
      var (negative, whole, fraction) := shape.value;
      if (whole == [] && fraction == []) || |fraction| > 9 then None
      else Some(Signed(negative, SolValue(whole, fraction)))
  }

  /** Digits and at most one point, given whether one was seen already. */
  predicate Scans(t: string, hasDot: bool) {
    t == [] || if t[0] == '.' then !hasDot && Scans(t[1..], true) else IsDigit(t[0]) && Scans(t[1..], hasDot)
  }

  /** The integer part without leading zeros. */
  function Kept(whole: string): string {
    if StripStart(whole) != [] then StripStart(whole) else "0"
  }

  function UnitsValue(whole: string, fraction: string, decimals: nat): nat {
    TextNat(10, Kept(whole) + PadEnd(fraction, decimals))
  }

  function Units(amount: string, decimals: int): Option<nat> {
    var t := Trim(amount);
    if decimals < 0 || decimals > 255 || !Scans(t, false) || t == "" || t == "." then None
    else
      var parts := Split('.', t);
      var fraction := if |parts| > 1 then parts[1] else [];
      if |fraction| > decimals then None else Some(UnitsValue(parts[0], fraction, decimals))
  }

  method ParseUnits(amount: string, decimals: int) returns (r: Option<nat>)
    ensures r == Units(amount, decimals)
  {
    if decimals < 0 || decimals > 255 { return None; }
    var trimmed := Trim(amount);
    var hasDot := false;
    for i := 0 to |trimmed|
      invariant Scans(trimmed, false) == Scans(trimmed[i..], hasDot)
    {
      var ch := trimmed[i];
      assert trimmed[i..][0] == ch && trimmed[i..][1..] == trimmed[i + 1..];
      if ch == '.' {
        if hasDot { return None; }
        hasDot := true;
      } else if ch < '0' || ch > '9' { return None; }
    }
    if trimmed == "" || trimmed == "." { return None; }
    var parts := Split('.', trimmed);
    var fraction := if |parts| > 1 then parts[1] else [];
    if |fraction| > decimals { return None; }
    return Some(TextNat(10, Kept(parts[0]) + PadEnd(fraction, decimals)));
  }

  // ---- What a decimal text means ------------------------------------------

  /** Digit by digit after the point. */
  function FractionValue(f: string): real {
    if f == [] then 0.0 else (DigitOf(f[0]) as real + FractionValue(f[1..])) / 10.0
  }

  function Amount(whole: string, fraction: string): real {
    TextNat(10, whole) as real + FractionValue(fraction)
  }

  /** A number with the decimal point moved `n` places. */
  function Scaled(v: real, n: nat): real {
    if n == 0 then v else 10.0 * Scaled(v, n - 1)
  }

  /** `t` writes the unsigned number with these digits around the point. */
  predicate Writes(t: string, whole: string, fraction: string) {
    && AllDigits(whole) && AllDigits(fraction) && whole + fraction != []
    && ((t == whole && fraction == []) || t == whole + ("." + fraction))
  }

  predicate WritesSigned(t: string, negative: bool, whole: string, fraction: string) {
    if negative then t != [] && t[0] == '-' && Writes(t[1..], whole, fraction) else Writes(t, whole, fraction)
  }

  // ---- Values of digit strings --------------------------------------------

  lemma {:induction false} StripStartKeeps(s: string)
    ensures TextNat(10, StripStart(s)) == TextNat(10, s)
  {
    if s != [] && s[0] == '0' {
      StripStartKeeps(s[1..]);
      TextZeros(10, 1, s[1..]);
      assert ZeroChars(1) + s[1..] == s;
    }
  }

  lemma {:induction false} StripEndKeeps(s: string)
    ensures |StripEnd(s)| <= |s| && PadEnd(StripEnd(s), |s|) == s
    ensures AllDigits(s) ==> AllDigits(StripEnd(s))
    decreases |s|
  {
    if s != [] && s[|s| - 1] == '0' {
      StripEndKeeps(s[..|s| - 1]);
      assert s == s[..|s| - 1] + "0";
    }
  }

  lemma NinePlaces()
    ensures Pow(10, 9) == LAMPORTS_PER_SOL
  {
    assert Pow(10, 3) == 1000;
    assert Pow(10, 6) == 1000 * Pow(10, 3);
    assert Pow(10, 9) == 1000 * Pow(10, 6);
  }

  lemma PaddedHead(f: string, n: nat)
    requires 0 < |f| <= n
    ensures |PadEnd(f[1..], n - 1)| == n - 1
    ensures TextNat(10, PadEnd(f, n)) == DigitOf(f[0]) * Pow(10, n - 1) + TextNat(10, PadEnd(f[1..], n - 1))
  {
    assert PadEnd(f, n) == [f[0]] + PadEnd(f[1..], n - 1);
    TextAppend(10, [f[0]], PadEnd(f[1..], n - 1));
    TextOfDigit(10, f[0]);
  }

  lemma {:induction false} ScaledSum(x: real, y: real, n: nat)
    ensures Scaled(x + y, n) == Scaled(x, n) + Scaled(y, n)
  {
    if n > 0 { ScaledSum(x, y, n - 1); }
  }

  lemma {:induction false} ScaledTenth(x: real, n: nat)
    requires n > 0
    ensures Scaled(x / 10.0, n) == Scaled(x, n - 1)
  {
    if n > 1 { ScaledTenth(x, n - 1); }
  }

  lemma {:induction false} ScaledNat(k: nat, n: nat)
    ensures Scaled(k as real, n) == (k * Pow(10, n)) as real
  {
    if n > 0 {
      ScaledNat(k, n - 1);
      Shift(10, k, Pow(10, n - 1), 0, 0);
    }
  }

  /** Padding a fraction with zeros moves the point behind it. */
  lemma {:induction false} FractionScaled(f: string, n: nat)
    requires |f| <= n
    ensures Scaled(FractionValue(f), n) == TextNat(10, PadEnd(f, n)) as real
    decreases |f|
  {
    if f == [] {
      TextOfZeros(10, n);
      assert PadEnd(f, n) == ZeroChars(n);
      ScaledNat(0, n);
    } else {
      FractionScaled(f[1..], n - 1);
      PaddedHead(f, n);
      ScaledTenth(DigitOf(f[0]) as real + FractionValue(f[1..]), n);
      ScaledSum(DigitOf(f[0]) as real, FractionValue(f[1..]), n - 1);
      ScaledNat(DigitOf(f[0]), n - 1);
    }
  }

  // ---- Scanning and matching accept the same unsigned texts ---------------

  lemma {:induction false} ScansAfterDot(t: string)
    ensures Scans(t, true) <==> AllDigits(t)
  {
    if t != [] {
      ScansAfterDot(t[1..]);
      assert t == [t[0]] + t[1..];
    }
  }

  lemma {:induction false} ScansWhole(w: string, rest: string)
    requires AllDigits(w)
    ensures Scans(w + rest, false) <==> Scans(rest, false)
  {
    if w == [] {
      assert w + rest == rest;
    } else {
      ScansWhole(w[1..], rest);
      assert (w + rest)[0] == w[0] && (w + rest)[1..] == w[1..] + rest;
    }
  }

  lemma WrittenScans(t: string, whole: string, fraction: string)
    requires Writes(t, whole, fraction)
    ensures Scans(t, false) && t != "" && t != "."
    ensures var parts := Split('.', t); parts[0] == whole && fraction == if |parts| > 1 then parts[1] else []
  {
    ScansAfterDot(fraction);
    if t == whole && fraction == [] {
      ScansWhole(whole, []);
      assert whole + [] == whole;
    } else {
      var rest := "." + fraction;
      assert rest[0] == '.' && rest[1..] == fraction;
      ScansWhole(whole, rest);
      SplitStep('.', whole, fraction);
      assert t[|whole|..] == rest;
    }
  }

  lemma ScannedIsWritten(t: string)
    requires Scans(t, false) && t != "" && t != "."
    ensures exists whole, fraction :: Writes(t, whole, fraction)
  {
    var (whole, rest) := Span(IsDigit, t);
    ScansWhole(whole, rest);
    if rest == [] {
      assert Writes(t, whole, []);
    } else {
      ScansAfterDot(rest[1..]);
      assert rest == "." + rest[1..];
      assert Writes(t, whole, rest[1..]);
    }
  }

  lemma WrittenMatches(t: string, whole: string, fraction: string)
    requires Writes(t, whole, fraction)
    ensures t[0] != '-' && SolShape(t) == Some((false, whole, fraction))
    ensures SolShape("-" + t) == Some((true, whole, fraction))
  {
    assert ("-" + t)[1..] == t;
    if t == whole && fraction == [] {
      SpanOf(IsDigit, whole, []);
      assert whole + [] == whole;
    } else {
      SpanOf(IsDigit, whole, "." + fraction);
      assert ("." + fraction)[1..] == fraction;
    }
  }

  lemma MatchedIsWritten(t: string)
    requires SolShape(t).Some? && (SolShape(t).value.1 != [] || SolShape(t).value.2 != [])
    ensures var (negative, whole, fraction) := SolShape(t).value;
      Writes(if negative then t[1..] else t, whole, fraction) && negative == (t[0] == '-')
  {
    var (negative, whole, fraction) := SolShape(t).value;
    var u := if negative then t[1..] else t;
    var rest := Span(IsDigit, u).1;
    assert u == whole + rest;
    if rest != [] { assert rest == "." + fraction; }
  }

  // ---- Exactness ----------------------------------------------------------

  lemma KeptValue(whole: string)
    ensures TextNat(10, Kept(whole)) == TextNat(10, whole)
  {
    StripStartKeeps(whole);
    TextOfZeros(10, 1);
    assert ZeroChars(1) == "0" && DigitsOf([]) == [];
  }

  lemma UnitsValueIs(whole: string, fraction: string, d: nat)
    requires |fraction| <= d
    ensures UnitsValue(whole, fraction, d) == TextNat(10, whole) * Pow(10, d) + TextNat(10, PadEnd(fraction, d))
  {
    KeptValue(whole);
    TextAppend(10, Kept(whole), PadEnd(fraction, d));
  }

  lemma UnitsValueExact(whole: string, fraction: string, d: nat)
    requires |fraction| <= d
    ensures UnitsValue(whole, fraction, d) as real == Scaled(Amount(whole, fraction), d)
  {
    UnitsValueIs(whole, fraction, d);
    ScaledAmount(TextNat(10, whole), FractionValue(fraction), d, TextNat(10, PadEnd(fraction, d))) by {
      FractionScaled(fraction, d);
    }
  }

  lemma ScaledAmount(w: nat, f: real, d: nat, q: nat)
    requires Scaled(f, d) == q as real
    ensures Scaled(w as real + f, d) == (w * Pow(10, d) + q) as real
  {
    ScaledSum(w as real, f, d);
    ScaledNat(w, d);
  }

  lemma UnitsOfWritten(amount: string, d: nat, whole: string, fraction: string)
    requires Writes(Trim(amount), whole, fraction) && d <= 255
    ensures Units(amount, d) == if |fraction| <= d then Some(UnitsValue(whole, fraction, d)) else None
  {
    WrittenScans(Trim(amount), whole, fraction);
  }

  lemma UnitsAreWritten(amount: string, d: int) returns (whole: string, fraction: string)
    requires Units(amount, d).Some?
    ensures 0 <= d <= 255 && Writes(Trim(amount), whole, fraction)
  {
    ScannedIsWritten(Trim(amount));
    whole, fraction :| Writes(Trim(amount), whole, fraction);
  }

  /** What `parseUnits` should return: the text's value at `d` places. */
  predicate IsUnits(t: string, whole: string, fraction: string, d: nat, v: nat) {
    Writes(t, whole, fraction) && |fraction| <= d && v as real == Scaled(Amount(whole, fraction), d)
  }

  lemma OneValue(whole: string, fraction: string, d: nat, v: nat)
    requires |fraction| <= d && v as real == Scaled(Amount(whole, fraction), d)
    ensures v == UnitsValue(whole, fraction, d)
  {
    UnitsValueExact(whole, fraction, d);
  }

  /** `parseUnits` accepts exactly the unsigned decimals with at most `d` places, as their value times ten to the `d`. */
  lemma UnitsExact(amount: string, d: int, v: nat)
    ensures Units(amount, d) == Some(v) <==>
      0 <= d <= 255 && exists whole, fraction :: IsUnits(Trim(amount), whole, fraction, d, v)
  {
    if 0 <= d <= 255 {
      forall whole, fraction | IsUnits(Trim(amount), whole, fraction, d, v)
        ensures Units(amount, d) == Some(v)
      {
        UnitsOfWritten(amount, d, whole, fraction);
        OneValue(whole, fraction, d, v);
      }
    }
    if Units(amount, d) == Some(v) {
      var whole, fraction := UnitsAreWritten(amount, d);
      UnitsOfWritten(amount, d, whole, fraction);
      UnitsValueExact(whole, fraction, d);
      assert IsUnits(Trim(amount), whole, fraction, d, v);
    }
  }

  lemma SolOfWritten(amount: string, negative: bool, whole: string, fraction: string)
    requires WritesSigned(Trim(amount), negative, whole, fraction)
    ensures ParseSol(amount) == if |fraction| > 9 then None else Some(Signed(negative, SolValue(whole, fraction)))
  {
    ShapeOfWritten(Trim(amount), negative, whole, fraction);
  }

  lemma ShapeOfWritten(t: string, negative: bool, whole: string, fraction: string)
    requires WritesSigned(t, negative, whole, fraction)
    ensures SolShape(t) == Some((negative, whole, fraction)) && (whole != [] || fraction != [])
  {
    var u := if negative then t[1..] else t;
    WrittenMatches(u, whole, fraction);
    if negative { assert t == "-" + u; }
  }

  lemma SolValueExact(whole: string, fraction: string)
    requires |fraction| <= 9
    ensures SolValue(whole, fraction) == UnitsValue(whole, fraction, 9)
    ensures SolValue(whole, fraction) as real == Scaled(Amount(whole, fraction), 9)
  {
    UnitsValueIs(whole, fraction, 9);
    UnitsValueExact(whole, fraction, 9);
    NinePlaces();
  }

  /** What `parseSol` should return: the text's signed value in lamports. */
  predicate IsLamports(t: string, negative: bool, whole: string, fraction: string, x: int) {
    && WritesSigned(t, negative, whole, fraction) && |fraction| <= 9
    && Signed(negative, x) as real == Scaled(Amount(whole, fraction), 9)
  }

  lemma OneSolValue(negative: bool, whole: string, fraction: string, x: int)
    requires |fraction| <= 9
    ensures Signed(negative, x) as real == Scaled(Amount(whole, fraction), 9) <==>
      x == Signed(negative, SolValue(whole, fraction))
  {
    SolValueExact(whole, fraction);
  }

  /** `parseSol` accepts exactly the decimals, perhaps negative, with at most nine places, as their value in lamports. */
  lemma SolExact(amount: string, x: int)
    ensures ParseSol(amount) == Some(x) <==>
      exists negative, whole, fraction :: IsLamports(Trim(amount), negative, whole, fraction, x)
  {
    var t := Trim(amount);
    forall negative, whole, fraction | IsLamports(t, negative, whole, fraction, x)
      ensures ParseSol(amount) == Some(x)
    {
      SolOfWritten(amount, negative, whole, fraction);
      OneSolValue(negative, whole, fraction, x);
    }
    if ParseSol(amount) == Some(x) {
      MatchedIsWritten(t);
      var (negative, whole, fraction) := SolShape(t).value;
      OneSolValue(negative, whole, fraction, x);
      assert IsLamports(t, negative, whole, fraction, x);
    }
  }

  /** On texts without a sign the two parsers accept the same and return the same; with one, `parseUnits` refuses. */
  lemma ParsersAgree(amount: string)
    ensures if Trim(amount) != [] && Trim(amount)[0] == '-' then Units(amount, 9) == None
      else ParseSol(amount) == Units(amount, 9)
  {
    var t := Trim(amount);
    if t != [] && t[0] != '-' {
      if w, f :| Writes(t, w, f) {
        UnitsOfWritten(amount, 9, w, f);
        SolOfWritten(amount, false, w, f);
        if |f| <= 9 { SolValueExact(w, f); }
      } else {
        if Units(amount, 9).Some? { var _, _ := UnitsAreWritten(amount, 9); }
        if ParseSol(amount).Some? { MatchedIsWritten(t); }
      }
    }
  }

  // ---- The round trip -----------------------------------------------------

  lemma SolValueOfParts(v: nat)
    ensures SolValue(Show(10, v / LAMPORTS_PER_SOL), StripEnd(PadStart(Show(10, v % LAMPORTS_PER_SOL), 9))) == v
    ensures var f := StripEnd(PadStart(Show(10, v % LAMPORTS_PER_SOL), 9)); |f| <= 9 && AllDigits(f)
  {
    var r := v % LAMPORTS_PER_SOL;
    TextOfShow(10, v / LAMPORTS_PER_SOL);
    NinePlaces();
    ShowPadded(10, r, 9);
    StripEndKeeps(PadStart(Show(10, r), 9));
  }

  lemma UnsignedIsTrimmed(u: string, sign: string)
    requires exists whole, fraction :: Writes(u, whole, fraction) && whole != [] && (fraction == [] ==> u == whole)
    requires sign == "" || sign == "-"
    ensures Trim(sign + u) == sign + u
  {
    var whole, fraction :| Writes(u, whole, fraction) && whole != [] && (fraction == [] ==> u == whole);
    assert IsDigit(u[0]) && IsDigit(u[|u| - 1]);
    TrimmedIsFixed(sign + u);
  }

  /** Formatting then parsing gives back every amount of lamports, negative ones included. */
  lemma ParseUndoesFormat(x: int)
    ensures ParseSol(FormatSol(x)) == Some(x)
  {
    var v: nat := if x < 0 then -x else x;
    var whole := Show(10, v / LAMPORTS_PER_SOL);
    var fraction := StripEnd(PadStart(Show(10, v % LAMPORTS_PER_SOL), 9));
    var u := if fraction != [] then whole + ("." + fraction) else whole;
    var sign := if x < 0 then "-" else "";
    SolValueOfParts(v);
    assert Writes(u, whole, fraction);
    UnsignedIsTrimmed(u, sign);
    assert FormatSol(x) == sign + u;
    assert (sign + u)[|sign|..] == u;
    SolOfWritten(FormatSol(x), x < 0, whole, fraction);
  }

  // ---- The form of the text -----------------------------------------------

  /** The one way to write an amount: no leading zero, no bare point, no trailing zero behind it. */
  ghost predicate Canonical(t: string, negative: bool, whole: string, fraction: string) {
    && t == (if negative then "-" else "") + (if fraction == [] then whole else whole + ("." + fraction))
    && AllDigits(whole) && AllDigits(fraction) && |fraction| <= 9
    && whole != [] && (whole[0] == '0' ==> whole == "0")
    && (fraction != [] ==> fraction[|fraction| - 1] != '0')
  }

  lemma {:induction false} StripEndEnds(s: string)
    ensures StripEnd(s) != [] ==> StripEnd(s)[|StripEnd(s)| - 1] != '0'
    decreases |s|
  {
    if s != [] && s[|s| - 1] == '0' { StripEndEnds(s[..|s| - 1]); }
  }

  lemma ShowStarts(v: nat)
    ensures Show(10, v)[0] == '0' ==> Show(10, v) == "0"
  {
    if v != 0 {
      var ds := Numeral(10, v);
      assert ds[0] != 0 && ds[0] < 10;
      assert DigitOf(Show(10, v)[0]) == ds[0];
    }
  }

  /** `formatSol` writes every amount in its one canonical form. */
  lemma FormatIsCanonical(x: int)
    ensures var negative := x < 0; exists whole, fraction :: Canonical(FormatSol(x), negative, whole, fraction)
  {
    var v: nat := if x < 0 then -x else x;
    var whole := Show(10, v / LAMPORTS_PER_SOL);
    var padded := PadStart(Show(10, v % LAMPORTS_PER_SOL), 9);
    SolValueOfParts(v);
    ShowStarts(v / LAMPORTS_PER_SOL);
    StripEndEnds(padded);
    assert Canonical(FormatSol(x), x < 0, whole, StripEnd(padded));
  }
}
