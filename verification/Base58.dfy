/** Base58 over the Solana and XRPL alphabets, the address test and the two codecs' loops. */
module Base58 {
  import opened Bytes
  import opened Radix

  datatype Alphabet = Solana | Xrpl

  // ---- Alphabets ----------------------------------------------------------

  /** 123456789ABCDEFGHJKLMNPQRSTUVWXYZabcdefghijkmnopqrstuvwxyz */
  function SolanaSymbol(d: nat): char
    requires d < 58
  {
    if d < 9 then ('1' as int + d) as char
    else if d < 17 then ('A' as int + d - 9) as char
    else if d < 22 then ('J' as int + d - 17) as char
    else if d < 33 then ('P' as int + d - 22) as char
    else if d < 44 then ('a' as int + d - 33) as char
    else ('m' as int + d - 44) as char
  }

  function SolanaRank(c: char): int {
    if '1' <= c <= '9' then c as int - '1' as int
    else if 'A' <= c <= 'H' then c as int - 'A' as int + 9
    else if 'J' <= c <= 'N' then c as int - 'J' as int + 17
    else if 'P' <= c <= 'Z' then c as int - 'P' as int + 22
    else if 'a' <= c <= 'k' then c as int - 'a' as int + 33
    else if 'm' <= c <= 'z' then c as int - 'm' as int + 44
    else -1
  }

  /** rpshnaf39wBUDNEGHJKLM4PQRST7VWXYZ2bcdeCg65jkm8oFqi1tuvAxyz */
  function XrplSymbol(d: nat): char
    requires d < 58
  {
    match d
    case 0 => 'r' case 1 => 'p' case 2 => 's' case 3 => 'h' case 4 => 'n' case 5 => 'a'
    case 6 => 'f' case 7 => '3' case 8 => '9' case 9 => 'w' case 10 => 'B' case 11 => 'U'
    case 12 => 'D' case 13 => 'N' case 14 => 'E' case 15 => 'G' case 16 => 'H' case 17 => 'J'
    case 18 => 'K' case 19 => 'L' case 20 => 'M' case 21 => '4' case 22 => 'P' case 23 => 'Q'
    case 24 => 'R' case 25 => 'S' case 26 => 'T' case 27 => '7' case 28 => 'V' case 29 => 'W'
    case 30 => 'X' case 31 => 'Y' case 32 => 'Z' case 33 => '2' case 34 => 'b' case 35 => 'c'
    case 36 => 'd' case 37 => 'e' case 38 => 'C' case 39 => 'g' case 40 => '6' case 41 => '5'
    case 42 => 'j' case 43 => 'k' case 44 => 'm' case 45 => '8' case 46 => 'o' case 47 => 'F'
    case 48 => 'q' case 49 => 'i' case 50 => '1' case 51 => 't' case 52 => 'u' case 53 => 'v'
    case 54 => 'A' case 55 => 'x' case 56 => 'y' case _ => 'z'
  }

  function XrplRank(c: char): int {
    match c
    case 'r' => 0 case 'p' => 1 case 's' => 2 case 'h' => 3 case 'n' => 4 case 'a' => 5
    case 'f' => 6 case '3' => 7 case '9' => 8 case 'w' => 9 case 'B' => 10 case 'U' => 11
    case 'D' => 12 case 'N' => 13 case 'E' => 14 case 'G' => 15 case 'H' => 16 case 'J' => 17
    case 'K' => 18 case 'L' => 19 case 'M' => 20 case '4' => 21 case 'P' => 22 case 'Q' => 23
    case 'R' => 24 case 'S' => 25 case 'T' => 26 case '7' => 27 case 'V' => 28 case 'W' => 29
    case 'X' => 30 case 'Y' => 31 case 'Z' => 32 case '2' => 33 case 'b' => 34 case 'c' => 35
    case 'd' => 36 case 'e' => 37 case 'C' => 38 case 'g' => 39 case '6' => 40 case '5' => 41
    case 'j' => 42 case 'k' => 43 case 'm' => 44 case '8' => 45 case 'o' => 46 case 'F' => 47
    case 'q' => 48 case 'i' => 49 case '1' => 50 case 't' => 51 case 'u' => 52 case 'v' => 53
    case 'A' => 54 case 'x' => 55 case 'y' => 56 case 'z' => 57 case _ => -1
  }

  function Symbol(a: Alphabet, d: nat): char
    requires d < 58
  {
    if a.Solana? then SolanaSymbol(d) else XrplSymbol(d)
  }

  /** The position of a character in the alphabet, or -1. */
  function Rank(a: Alphabet, c: char): int {
    if a.Solana? then SolanaRank(c) else XrplRank(c)
  }

  /** The characters both address expressions allow. */
  predicate InClass(c: char) {
    '1' <= c <= '9' || 'A' <= c <= 'H' || 'J' <= c <= 'N' || 'P' <= c <= 'Z' || 'a' <= c <= 'k' || 'm' <= c <= 'z'
  }

  lemma XrplSymbols0(d: nat)
    requires 0 <= d < 22
    ensures XrplRank(XrplSymbol(d)) == d
  {
  }

  lemma XrplSymbols1(d: nat)
    requires 22 <= d < 34
    ensures XrplRank(XrplSymbol(d)) == d
  {
  }

  lemma XrplSymbols2(d: nat)
    requires 34 <= d < 44
    ensures XrplRank(XrplSymbol(d)) == d
  {
  }

  lemma XrplSymbols3(d: nat)
    requires 44 <= d < 52
    ensures XrplRank(XrplSymbol(d)) == d
  {
  }

  lemma XrplSymbols4(d: nat)
    requires 52 <= d < 58
    ensures XrplRank(XrplSymbol(d)) == d
  {
  }

  /** Each symbol has its own rank. */
  lemma SymbolRank(a: Alphabet, d: nat)
    requires d < 58
    ensures Rank(a, Symbol(a, d)) == d
  {
    if a.Xrpl? {
      if d < 22 { XrplSymbols0(d); }
      else if d < 34 { XrplSymbols1(d); }
      else if d < 44 { XrplSymbols2(d); }
      else if d < 52 { XrplSymbols3(d); }
      else if d < 58 { XrplSymbols4(d); }
    }
  }

  lemma XrplRanks(c: char)
    requires InClass(c)
    ensures 0 <= XrplRank(c) < 58 && XrplSymbol(XrplRank(c)) == c
  {
  }

  lemma XrplNoRank(c: char)
    requires !InClass(c)
    ensures XrplRank(c) == -1
  {
  }

  /** Each allowed character is a symbol, and no other is. */
  lemma RankSymbol(a: Alphabet, c: char)
    ensures InClass(c) ==> 0 <= Rank(a, c) < 58 && Symbol(a, Rank(a, c)) == c
    ensures !InClass(c) ==> Rank(a, c) == -1
  {
    if a.Xrpl? {
      if InClass(c) { XrplRanks(c); } else { XrplNoRank(c); }
    }
  }

  // ---- Encoding and decoding ----------------------------------------------

  function Write(a: Alphabet, ds: Digits): (s: string)
    requires InBase(58, ds)
    ensures |s| == |ds| && forall i | 0 <= i < |ds| :: s[i] == Symbol(a, ds[i])
  {
    seq(|ds|, i requires 0 <= i < |ds| => Symbol(a, ds[i]))
  }

  predicate Allowed(s: string) {
    forall i | 0 <= i < |s| :: InClass(s[i])
  }

  function Read(a: Alphabet, s: string): (ds: Digits)
    requires Allowed(s)
    ensures |ds| == |s| && InBase(58, ds) && forall i | 0 <= i < |s| :: ds[i] == Rank(a, s[i])
  {
    assert forall i | 0 <= i < |s| :: 0 <= Rank(a, s[i]) < 58 by {
      forall i | 0 <= i < |s| ensures 0 <= Rank(a, s[i]) < 58 { RankSymbol(a, s[i]); }
    }
    seq(|s|, i requires 0 <= i < |s| => Rank(a, s[i]))
  }

  lemma ReadWrite(a: Alphabet, ds: Digits)
    requires InBase(58, ds)
    ensures Allowed(Write(a, ds)) && Read(a, Write(a, ds)) == ds
  {
    forall i | 0 <= i < |ds| ensures InClass(Write(a, ds)[i]) && Rank(a, Write(a, ds)[i]) == ds[i] {
      SymbolRank(a, ds[i]);
      RankSymbol(a, Symbol(a, ds[i]));
    }
  }

  lemma WriteRead(a: Alphabet, s: string)
    requires Allowed(s)
    ensures Write(a, Read(a, s)) == s
  {
    forall i | 0 <= i < |s| ensures Symbol(a, Read(a, s)[i]) == s[i] {
      RankSymbol(a, s[i]);
    }
  }

  /** The bytes as digits of base 256. */
  function Octets(b: Bytes): (ds: Digits)
    ensures |ds| == |b| && InBase(256, ds) && forall i | 0 <= i < |b| :: ds[i] == b[i]
  {
    seq(|b|, i requires 0 <= i < |b| => b[i])
  }

  function ToBytes(ds: Digits): (b: Bytes)
    requires InBase(256, ds)
    ensures |b| == |ds| && forall i | 0 <= i < |ds| :: b[i] == ds[i]
  {
    seq(|ds|, i requires 0 <= i < |ds| => ds[i])
  }

  function Encode(a: Alphabet, b: Bytes): string {
    Write(a, Recode(256, 58, Octets(b)))
  }

  /** None for the empty string and for characters outside the class. */
  function Decode(a: Alphabet, s: string): Option<Bytes> {
    if s == [] || !Allowed(s) then None else Some(ToBytes(Recode(58, 256, Read(a, s))))
  }

  lemma NothingFromNothing(source: nat, target: nat)
    requires target >= 2
    ensures Recode(source, target, []) == []
  {
  }

  /** Decoding inverts encoding on every non-empty byte string, over either alphabet. */
  lemma DecodeUndoesEncode(a: Alphabet, b: Bytes)
    requires b != []
    ensures Decode(a, Encode(a, b)) == Some(b)
  {
    var ds := Recode(256, 58, Octets(b));
    RecodeInverts(256, 58, Octets(b));
    ReadWrite(a, ds);
    assert ToBytes(Octets(b)) == b;
    NothingFromNothing(58, 256);
  }

  /** And encoding inverts decoding: every accepted string is the encoding of what it decodes to. */
  lemma EncodeUndoesDecode(a: Alphabet, s: string)
    requires Decode(a, s).Some?
    ensures Encode(a, Decode(a, s).value) == s
  {
    var ds := Read(a, s);
    RecodeInverts(58, 256, ds);
    WriteRead(a, s);
    assert Octets(Decode(a, s).value) == Recode(58, 256, ds);
  }

  // ---- Hexadecimal on the way ---------------------------------------------

  /** Hex digits of the value, padded to an even count. */
  function PaddedHex(v: nat): (h: Digits)
    ensures InBase(16, h) && |h| % 2 == 0
  {
    var h := Numeral(16, v);
    if |h| % 2 == 1 then [0] + h else h
  }

  function Pairs(h: Digits): (b: Digits)
    requires InBase(16, h) && |h| % 2 == 0
    ensures InBase(256, b) && |b| == |h| / 2
    ensures forall i | 0 <= i < |b| :: b[i] == 16 * h[2 * i] + h[2 * i + 1]
  {
    seq(|h| / 2, i requires 0 <= i < |h| / 2 => 16 * h[2 * i] + h[2 * i + 1])
  }

  lemma PairsSnoc(init: Digits, x: nat, y: nat)
    requires InBase(16, init) && |init| % 2 == 0 && x < 16 && y < 16
    ensures Pairs(init + [x, y]) == Pairs(init) + [16 * x + y]
  {
    var h := init + [x, y];
    var b := Pairs(h);
    var m := |init| / 2;
    assert |b| == m + 1 && h[2 * m] == x && h[2 * m + 1] == y;
    assert b[m] == 16 * x + y;
    forall i | 0 <= i < m ensures b[i] == Pairs(init)[i] {
      assert h[2 * i] == init[2 * i] && h[2 * i + 1] == init[2 * i + 1];
    }
  }

  lemma TwoDigits(init: Digits, x: nat, y: nat)
    ensures Value(16, init + [x, y]) == Value(16, init) * 256 + (16 * x + y)
  {
    ValueSnoc(16, init, x);
    ValueSnoc(16, init + [x], y);
    assert (init + [x]) + [y] == init + [x, y];
  }

  lemma {:induction false} PairsKeepValue(h: Digits)
    requires InBase(16, h) && |h| % 2 == 0
    ensures Value(256, Pairs(h)) == Value(16, h)
    decreases |h|
  {
    if h != [] {
      var n := |h|;
      var init, x, y := h[..n - 2], h[n - 2], h[n - 1];
      PairsKeepValue(init);
      assert h == init + [x, y];
      PairsSnoc(init, x, y);
      TwoDigits(init, x, y);
      ValueSnoc(256, Pairs(init), 16 * x + y);
    }
  }

  /** Pairing the padded hex digits gives the value's bytes, without a leading zero. */
  lemma HexBytes(v: nat)
    ensures Pairs(PaddedHex(v)) == Numeral(256, v)
  {
    var h := PaddedHex(v);
    PairsKeepValue(h);
    ValueOfNumeral(16, v);
    if |Numeral(16, v)| % 2 == 1 {
      ValueSkipsZeros(16, 1, Numeral(16, v));
      assert Radix.Zeros(1) == [0];
    }
    NumeralOfValue(256, Pairs(h));
  }

  // ---- The Solana address test --------------------------------------------

  /** 32 to 44 allowed characters whose leading ones and value make up 32 bytes. */
  predicate IsValidSolana(s: string) {
    32 <= |s| <= 44 && Allowed(s)
    && var ds := Read(Solana, s); Lead(ds) + |PaddedHex(Value(58, ds))| / 2 == 32
  }

  lemma ValidIsDecoded(s: string)
    requires Allowed(s) && s != []
    ensures Decode(Solana, s).Some?
    ensures Lead(Read(Solana, s)) + |PaddedHex(Value(58, Read(Solana, s)))| / 2 == |Decode(Solana, s).value|
  {
    HexBytes(Value(58, Read(Solana, s)));
  }

  lemma {:induction false} PowAdd(b: nat, m: nat, n: nat)
    ensures Pow(b, m + n) == Pow(b, m) * Pow(b, n)
  {
    if m > 0 {
      PowAdd(b, m - 1, n);
      MulAssoc(b, Pow(b, m - 1), Pow(b, n));
    }
  }

  lemma MulAssoc(a: nat, b: nat, c: nat)
    ensures (a * b) * c == a * (b * c)
  {
  }

  lemma EightBytes()
    ensures Pow(256, 8) <= Pow(58, 11)
  {
    assert Pow(256, 2) == 65536;
    PowAdd(256, 2, 2);
    PowAdd(256, 4, 4);
    assert Pow(58, 2) == 3364;
    PowAdd(58, 2, 2);
    PowAdd(58, 4, 4);
    PowAdd(58, 8, 2);
    PowAdd(58, 10, 1);
    assert Pow(58, 1) == 58;
  }

  lemma ThirtyTwoBytes()
    ensures Pow(256, 32) <= Pow(58, 44)
  {
    EightBytes();
    PowAdd(256, 8, 8);
    PowAdd(58, 11, 11);
    MulMonotone(Pow(256, 8), Pow(58, 11), Pow(256, 8), Pow(58, 11));
    PowAdd(256, 16, 16);
    PowAdd(58, 22, 22);
    MulMonotone(Pow(256, 16), Pow(58, 22), Pow(256, 16), Pow(58, 22));
  }

  /** Up to 32 bytes need at most twelve more base-58 digits than bytes. */
  lemma {:induction false} DigitsOfBytes(m: nat)
    requires m <= 32
    ensures Pow(256, m) <= Pow(58, m + 12)
    decreases 32 - m
  {
    if m == 32 {
      ThirtyTwoBytes();
    } else {
      DigitsOfBytes(m + 1);
      assert 256 * Pow(256, m) <= 58 * Pow(58, m + 12);
    }
  }

  lemma EncodingLength(b: Bytes)
    requires |b| == 32
    ensures 32 <= |Encode(Solana, b)| <= 44
  {
    var ds := Octets(b);
    var n, core := Lead(ds), ds[Lead(ds)..];
    var v, m := Value(256, ds), 32 - Lead(ds);
    SplitLead(ds);
    ValueSkipsZeros(256, n, core);
    NumeralOfValue(256, core);
    NumeralLength(256, v, m);
    DigitsOfBytes(m);
    NumeralLength(58, v, m + 12);
    if m > 0 {
      NumeralLength(256, v, m - 1);
      PowBases(58, 256, m - 1);
      NumeralLength(58, v, m - 1);
    }
  }

  /** Every 32-byte key encodes to 32 to 44 characters that pass the address test. */
  lemma KeysPass(b: Bytes)
    requires |b| == 32
    ensures 32 <= |Encode(Solana, b)| <= 44 && IsValidSolana(Encode(Solana, b))
  {
    EncodingLength(b);
    DecodeUndoesEncode(Solana, b);
    ValidIsDecoded(Encode(Solana, b));
  }

  /** Every string that passes is the encoding of exactly one 32-byte key. */
  lemma PassingIsOneKey(s: string)
    requires IsValidSolana(s)
    ensures Decode(Solana, s).Some? && |Decode(Solana, s).value| == 32 && Encode(Solana, Decode(Solana, s).value) == s
    ensures forall b: Bytes | |b| == 32 && Encode(Solana, b) == s :: b == Decode(Solana, s).value
  {
    ValidIsDecoded(s);
    EncodeUndoesDecode(Solana, s);
    forall b: Bytes | |b| == 32 && Encode(Solana, b) == s ensures b == Decode(Solana, s).value {
      DecodeUndoesEncode(Solana, b);
    }
  }

  // ---- The loops ----------------------------------------------------------

  lemma WriteAppend(a: Alphabet, x: Digits, y: Digits)
    requires InBase(58, x) && InBase(58, y)
    ensures Write(a, x + y) == Write(a, x) + Write(a, y)
  {
  }

  method ByteValue(b: Bytes) returns (value: nat)
    ensures value == Value(256, Octets(b))
  {
    ghost var ds := Octets(b);
    value := 0;
    for i := 0 to |b|
      invariant value == Value(256, ds[..i])
    {
      assert ds[..i + 1] == ds[..i] + [ds[i]];
      ValueSnoc(256, ds[..i], ds[i]);
      value := value * 256 + b[i];
    }
    assert ds[..|b|] == ds;
  }

  method WriteValue(v: nat) returns (result: string)
    ensures result == Write(Solana, Numeral(58, v))
  {
    var value := v;
    result := [];
    while value > 0
      invariant Write(Solana, Numeral(58, v)) == Write(Solana, Numeral(58, value)) + result
    {
      Unfold(58, value);
      WriteAppend(Solana, Numeral(58, value / 58), [value % 58]);
      result := [Symbol(Solana, value % 58)] + result;
      value := value / 58;
    }
  }

  lemma WriteZeros(n: nat, digits: Digits)
    requires InBase(58, digits)
    ensures Write(Solana, Radix.Zeros(n) + digits) == seq(n, _ => '1') + Write(Solana, digits)
  {
    WriteAppend(Solana, Radix.Zeros(n), digits);
  }

  /** One leading `1` for each leading zero byte. */
  method PrependOnes(b: Bytes, text: string) returns (result: string)
    ensures result == seq(Lead(Octets(b)), _ => '1') + text
  {
    result := text;
    var i := 0;
    while i < |b| && b[i] == 0
      invariant 0 <= i <= Lead(Octets(b))
      invariant result == seq(i, _ => '1') + text
    {
      result := ['1'] + result;
      i := i + 1;
    }
  }

  lemma EncodeEmpty(b: Bytes)
    ensures Encode(Solana, b) == [] <==> b == []
  {
    if b == [] {
      assert Octets(b) == [];
      NothingFromNothing(256, 58);
    } else {
      DecodeUndoesEncode(Solana, b);
    }
  }

  /** The voucher encoder's `base58`: value, digits, leading ones; the empty input gives "1". */
  method Base58(b: Bytes) returns (result: string)
    ensures result == if b == [] then "1" else Encode(Solana, b)
  {
    var value := ByteValue(b);
    result := WriteValue(value);
    WriteZeros(Lead(Octets(b)), Numeral(58, value));
    result := PrependOnes(b, result);
    EncodeEmpty(b);
    if result == [] { result := "1"; }
  }

  /** The digit loop of both address tests; None at a character outside the alphabet. */
  method TextValue(a: Alphabet, s: string) returns (r: Option<nat>)
    requires Allowed(s)
    ensures r == Some(Value(58, Read(a, s)))
  {
    ghost var ds := Read(a, s);
    var value: nat := 0;
    for i := 0 to |s|
      invariant value == Value(58, ds[..i])
    {
      var digit := Rank(a, s[i]);
      RankSymbol(a, s[i]);
      assert ds[..i + 1] == ds[..i] + [ds[i]];
      ValueSnoc(58, ds[..i], ds[i]);
      if digit < 0 { return None; }
      value := value * 58 + digit;
    }
    assert ds[..|s|] == ds;
    return Some(value);
  }

  /** How many characters at the front are the alphabet's zero. */
  method LeadingZeros(a: Alphabet, s: string) returns (n: nat)
    requires Allowed(s)
    ensures n == Lead(Read(a, s))
  {
    n := 0;
    var zero := Symbol(a, 0);
    SymbolRank(a, 0);
    while n < |s| && s[n] == zero
      invariant n <= Lead(Read(a, s))
    {
      n := n + 1;
    }
    if n < |s| { RankSymbol(a, s[n]); }
  }

  method IsValidSolanaAddress(s: string) returns (ok: bool)
    ensures ok <==> IsValidSolana(s)
  {
    if |s| < 32 || |s| > 44 || !Allowed(s) { return false; }
    var value := TextValue(Solana, s);
    if value.None? { return false; }
    var leading := LeadingZeros(Solana, s);
    return leading + |PaddedHex(value.value)| / 2 == 32;
  }

  /** The hex pairs, behind `leading` zero bytes. */
  method FillBytes(leading: nat, hex: Digits) returns (result: Bytes)
    requires InBase(16, hex) && |hex| % 2 == 0
    ensures result == ToBytes(Radix.Zeros(leading) + Pairs(hex))
  {
    var bytes := new byte[leading + |hex| / 2](i => 0);
    for i := 0 to |hex| / 2
      invariant forall j | 0 <= j < leading :: bytes[j] == 0
      invariant forall j | 0 <= j < i :: bytes[leading + j] == Pairs(hex)[j]
    {
      bytes[leading + i] := 16 * hex[2 * i] + hex[2 * i + 1];
    }
    result := bytes[..];
  }

  /** The XRPL decoder, through hex pairs into a byte array behind the leading zeros. */
  method DecodeXrplBase58(input: string) returns (result: Option<Bytes>)
    ensures result == Decode(Xrpl, input)
  {
    if |input| == 0 || !Allowed(input) { return None; }
    var value := TextValue(Xrpl, input);
    if value.None? { return None; }
    var leading := LeadingZeros(Xrpl, input);
    var bytes := FillBytes(leading, PaddedHex(value.value));
    HexBytes(value.value);
    return Some(bytes);
  }
}
