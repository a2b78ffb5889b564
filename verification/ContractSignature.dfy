/**
 * Contract-account signatures: unwrapping the ERC-6492 envelope, and the
 * ERC-1271 call. Payloads are hexadecimal text, cut with JavaScript's string
 * and number functions.
 */
module ContractSignature {
  import opened Bytes
  import opened Numerals
  import opened Radix
  import opened Text

  /** Number.MAX_SAFE_INTEGER, also the longest string the language allows. */
  const MAX_SAFE := 9007199254740991

  const MAGIC_VALUE := "0x1626ba7e"

  function Repeat(s: string, n: nat): string {
    if n == 0 then [] else s + Repeat(s, n - 1)
  }

  const MAGIC_SUFFIX := Repeat("6492", 16)

  // ---- Strings and numbers as the language has them -----------------------

  function Strip0x(s: string): string {
    if |s| >= 2 && s[0] == '0' && s[1] == 'x' then s[2..] else s
  }

  /** `slice`: negative positions count from the end, and both are clamped. */
  function At(i: int, n: nat): (k: nat)
    ensures k <= n
  {
    if i < 0 then (if n + i < 0 then 0 else n + i) else if i > n then n else i
  }

  function Slice(s: string, from: int, to: int): string {
    if At(from, |s|) < At(to, |s|) then s[At(from, |s|)..At(to, |s|)] else []
  }

  /** `Number.parseInt(s, 16)`: white space, a sign and `0x` are skipped, and anything after the digits is ignored. */
  function ParseHex(s: string): Option<int> {
    var t := Drop(IsWhite, s);
    var signed := t != [] && (t[0] == '-' || t[0] == '+');
    var u := if signed then t[1..] else t;
    var v := if |u| >= 2 && u[0] == '0' && (u[1] == 'x' || u[1] == 'X') then u[2..] else u;
    var digits := Span(IsHex, v).0;
    if digits == [] then None
    else if signed && t[0] == '-' then Some(-(TextNat(16, digits) as int))
    else Some(TextNat(16, digits))
  }

  /** A number the code goes on with. */
  function SafeHex(s: string): Option<int> {
    var n := ParseHex(s);
    if n.Some? && -MAX_SAFE <= n.value <= MAX_SAFE then n else None
  }

  // ---- The envelope -------------------------------------------------------

  datatype Envelope = Envelope(factory: string, factoryCalldata: string, signature: string)

  predicate IsErc6492Signature(signature: string) {
    var raw := Lower(Strip0x(signature));
    |raw| > 64 && raw[|raw| - 64..] == MAGIC_SUFFIX
  }

  function ReadBytesAt(body: string, offsetWord: string): Option<string> {
    var offset :- SafeHex(offsetWord);
    var at := offset * 2;
    if at + 64 > |body| then None
    else
      var length :- SafeHex(Slice(body, at, at + 64));
      var start := at + 64;
      var end := start + length * 2;
      if end > |body| then None else Some("0x" + Slice(body, start, end))
  }

  /** What precedes the suffix. */
  function Body(signature: string): string
    requires IsErc6492Signature(signature)
  {
    Strip0x(signature)[..|Strip0x(signature)| - 64]
  }

  function DecodeErc6492Signature(signature: string): Option<Envelope> {
    if !IsErc6492Signature(signature) then None
    else DecodeBody(Body(signature))
  }

  function DecodeBody(body: string): Option<Envelope> {
    if |body| < 192 then None
    else
      var factory := Slice(body[..64], 24, 64);
      if !(|factory| == 40 && All(IsHex, factory)) then None
      else
        var factoryCalldata :- ReadBytesAt(body, body[64..128]);
        var inner :- ReadBytesAt(body, body[128..192]);
        Some(Envelope("0x" + factory, factoryCalldata, inner))
  }

  // ---- The standard encoding ----------------------------------------------

  function Word(n: nat): string {
    PadStart(Show(16, n), 64)
  }

  function RoundUp(n: nat): (r: nat)
    ensures n <= r < n + 64 && r % 64 == 0
  {
    (n + 63) / 64 * 64
  }

  /** A dynamic `bytes`: its length in bytes, then its data padded to whole words. */
  function Tail(b: string): string {
    Word(|b| / 2) + PadEnd(b, RoundUp(|b|))
  }

  /** `abi.encode(address, bytes, bytes)` of hexadecimal strings. */
  function AbiEncode(factory: string, calldata: string, inner: string): string {
    Head(factory, 96 + |Tail(calldata)| / 2) + Tail(calldata) + Tail(inner)
  }

  function Head(factory: string, second: nat): string {
    PadStart(factory, 64) + Word(96) + Word(second)
  }

  // ---- Reading words ------------------------------------------------------

  lemma WordFits(n: nat)
    requires n <= MAX_SAFE
    ensures n < Pow(16, 64)
  {
    assert Pow(16, 4) == 65536;
    assert Pow(16, 8) == 65536 * Pow(16, 4);
    assert Pow(16, 12) == 65536 * Pow(16, 8);
    assert Pow(16, 16) == 65536 * Pow(16, 12);
    PowMonotone(16, 16, 64);
  }

  lemma WordReads(n: nat)
    requires n <= MAX_SAFE
    ensures |Word(n)| == 64 && All(IsHex, Word(n)) && TextNat(16, Word(n)) == n && SafeHex(Word(n)) == Some(n)
  {
    WordFits(n);
    ShowPadded(16, n, 64);
    HexReads(Word(n));
  }

  lemma HexIsPlain(c: char)
    requires IsHex(c)
    ensures !IsWhite(c) && c != '-' && c != '+' && c != 'x' && c != 'X'
  {
  }

  /** On a word of hexadecimal digits alone, the lenient reader returns the number it writes. */
  lemma HexReads(w: string)
    requires w != [] && All(IsHex, w)
    ensures ParseHex(w) == Some(TextNat(16, w))
  {
    hide Span, TextNat, IsHex, IsWhite;
    HexIsPlain(w[0]);
    if |w| > 1 { HexIsPlain(w[1]); }
    SpanOf(IsWhite, [], w);
    assert [] + w == w;
    SpanOf(IsHex, w, []);
    assert w + [] == w;
  }

  /** With hexadecimal words, a field is exactly the bytes the encoding points at, or nothing when they run past the end. */
  lemma HexFieldExact(body: string, w: string)
    requires |body| <= MAX_SAFE && w != [] && All(IsHex, w)
    ensures var at := 2 * TextNat(16, w);
      && (at + 64 > |body| ==> ReadBytesAt(body, w) == None)
      && (at + 64 <= |body| && All(IsHex, body[at..at + 64]) ==>
          var end := at + 64 + 2 * TextNat(16, body[at..at + 64]);
          ReadBytesAt(body, w) == if end <= |body| then Some("0x" + body[at + 64..end]) else None)
  {
    hide ParseHex, TextNat, Slice;
    HexReads(w);
    var at := 2 * TextNat(16, w);
    if at + 64 <= |body| && All(IsHex, body[at..at + 64]) {
      SliceInside(body, at, at + 64);
      HexReads(body[at..at + 64]);
      var end := at + 64 + 2 * TextNat(16, body[at..at + 64]);
      if end <= |body| { SliceInside(body, at + 64, end); }
    }
  }

  /** A number word of the strict encoding. */
  function AbiWord(w: string): Option<nat> {
    if |w| == 64 && All(IsHex, w) then Some(TextNat(16, w)) else None
  }

  // ---- A strict decoder ---------------------------------------------------

  /** A field as the encoding has it: both words are hexadecimal digits alone. */
  function StrictReadBytesAt(body: string, w: string): Option<string> {
    var offset :- AbiWord(w);
    var start := offset * 2 + 64;
    if start > |body| then None
    else
      var length :- AbiWord(body[offset * 2..start]);
      if start + length * 2 > |body| then None else Some("0x" + body[start..start + length * 2])
  }

  function StrictDecodeBody(body: string): Option<Envelope> {
    if |body| < 192 || !All(IsHex, body[24..64]) then None
    else
      var factoryCalldata :- StrictReadBytesAt(body, body[64..128]);
      var inner :- StrictReadBytesAt(body, body[128..192]);
      Some(Envelope("0x" + body[24..64], factoryCalldata, inner))
  }

  function StrictDecode(signature: string): Option<Envelope> {
    if !IsErc6492Signature(signature) then None else StrictDecodeBody(Body(signature))
  }

  /** An offset word and the length word it points at are hexadecimal digits alone. */
  predicate HexField(body: string, w: string) {
    AbiWord(w).Some? && var at := 2 * AbiWord(w).value;
    at + 64 <= |body| && All(IsHex, body[at..at + 64])
  }

  predicate HexWords(body: string) {
    |body| >= 192 && HexField(body, body[64..128]) && HexField(body, body[128..192])
  }

  lemma FieldStrictExactly(body: string, w: string)
    requires |body| <= MAX_SAFE && |w| == 64
    ensures StrictReadBytesAt(body, w).Some? ==> ReadBytesAt(body, w) == StrictReadBytesAt(body, w)
    ensures ReadBytesAt(body, w).Some? ==> (StrictReadBytesAt(body, w) == ReadBytesAt(body, w) <==> HexField(body, w))
  {
    hide ReadBytesAt, TextNat;
    if All(IsHex, w) { HexFieldExact(body, w); }
  }

  lemma BodyStrictExactly(body: string)
    requires |body| <= MAX_SAFE
    ensures StrictDecodeBody(body).Some? ==> DecodeBody(body) == StrictDecodeBody(body)
    ensures DecodeBody(body).Some? ==> (StrictDecodeBody(body) == DecodeBody(body) <==> HexWords(body))
  {
    if |body| >= 192 {
      hide ReadBytesAt, StrictReadBytesAt, HexField;
      assert Slice(body[..64], 24, 64) == body[24..64];
      FieldStrictExactly(body, body[64..128]);
      FieldStrictExactly(body, body[128..192]);
    }
  }

  /**
   * Whatever the strict decoder reads, the code reads the same; and what the
   * code accepts is what the strict decoder reads exactly when both offset
   * words and the length words they point at are hexadecimal digits.
   */
  lemma StrictDecodeExactly(signature: string)
    requires |signature| <= MAX_SAFE
    ensures StrictDecode(signature).Some? ==> DecodeErc6492Signature(signature) == StrictDecode(signature)
    ensures DecodeErc6492Signature(signature).Some? ==>
      (StrictDecode(signature) == DecodeErc6492Signature(signature) <==> HexWords(Body(signature)))
  {
    hide DecodeBody, StrictDecodeBody, HexWords;
    if IsErc6492Signature(signature) { BodyStrictExactly(Body(signature)); }
  }

  lemma SliceInside(s: string, from: nat, to: nat)
    requires from <= to <= |s|
    ensures Slice(s, from, to) == s[from..to]
  {
  }

  lemma SliceFromEnd(s: string, from: nat, to: nat)
    requires 0 < to <= from <= |s|
    ensures Slice(s, -(from as int), -(to as int)) == s[|s| - from..|s| - to]
  {
  }

  /** Where the two parts of a tail stand in a text. */
  lemma PartsAt(pre: string, word: string, data: string, post: string, n: nat)
    requires n <= |data|
    ensures var body := pre + (word + data) + post;
      && |body| == |pre| + |word| + |data| + |post|
      && body[|pre|..|pre| + |word|] == word && body[|pre| + |word|..|pre| + |word| + n] == data[..n]
  {
    var body := pre + (word + data) + post;
    assert body == pre + word + data + post;
    assert forall i | 0 <= i < n :: body[|pre| + |word| + i] == data[i];
  }

  lemma TailReads(pre: string, b: string, post: string)
    requires |pre| % 2 == 0 && |b| % 2 == 0 && |pre + Tail(b) + post| <= MAX_SAFE
    ensures ReadBytesAt(pre + Tail(b) + post, Word(|pre| / 2)) == Some("0x" + b)
  {
    hide SafeHex, Word, PadEnd, RoundUp, Slice;
    var body := pre + Tail(b) + post;
    PaddedStart(b);
    PartsAt(pre, Word(|b| / 2), PadEnd(b, RoundUp(|b|)), post, |b|);
    WordReads(|pre| / 2);
    WordReads(|b| / 2);
    SliceInside(body, |pre|, |pre| + 64);
    SliceInside(body, |pre| + 64, |pre| + 64 + |b|);
  }

  lemma PaddedStart(b: string)
    ensures |PadEnd(b, RoundUp(|b|))| >= |b| && PadEnd(b, RoundUp(|b|))[..|b|] == b
  {
  }

  // ---- Unwrapping inverts encoding ----------------------------------------

  lemma SuffixShape()
    ensures |MAGIC_SUFFIX| == 64 && All(IsDigit, MAGIC_SUFFIX)
  {
    RepeatShape("6492", 16);
  }

  lemma {:induction false} RepeatShape(s: string, n: nat)
    requires All(IsDigit, s)
    ensures |Repeat(s, n)| == |s| * n && All(IsDigit, Repeat(s, n))
  {
    if n > 0 {
      RepeatShape(s, n - 1);
      assert |s| * n == |s| + |s| * (n - 1);
    }
  }

  /** A payload followed by the suffix is recognised, with or without `0x`. */
  lemma SuffixRecognised(body: string, prefixed: bool)
    requires |body| > 1 && body[1] != 'x'
    ensures var s := (if prefixed then "0x" else "") + (body + MAGIC_SUFFIX);
      IsErc6492Signature(s) && Body(s) == body
  {
    SuffixShape();
    hide Repeat;
    var raw := body + MAGIC_SUFFIX;
    var s := (if prefixed then "0x" else "") + raw;
    assert prefixed ==> ("0x" + raw)[2..] == raw;
    assert !prefixed ==> s == raw;
    assert Strip0x(s) == raw;
    assert Lower(raw)[|raw| - 64..] == MAGIC_SUFFIX;
    assert raw[..|raw| - 64] == body;
  }

  predicate HeadSays(body: string, factory: string, second: nat) {
    && |body| >= 192 && body[0] == '0' == body[1]
    && Slice(body[..64], 24, 64) == factory && body[64..128] == Word(96) && body[128..192] == Word(second)
  }

  lemma HeadReads(factory: string, second: nat, tails: string)
    requires |factory| == 40 && second <= MAX_SAFE
    ensures |Head(factory, second)| == 192 && HeadSays(Head(factory, second) + tails, factory, second)
  {
    hide SafeHex, Word;
    WordReads(96);
    WordReads(second);
    var first := PadStart(factory, 64);
    var body := Head(factory, second) + tails;
    assert body[..64] == first;
    assert first[24..64] == factory;
  }

  lemma EncodedIsLonger(factory: string, calldata: string, inner: string)
    ensures AbiEncode(factory, calldata, inner) == Head(factory, 96 + |Tail(calldata)| / 2) + Tail(calldata) + Tail(inner)
    ensures |AbiEncode(factory, calldata, inner)| >= |Tail(calldata)| >= |calldata|
  {
  }

  lemma PaddedLength(s: string, n: nat)
    requires |s| <= n
    ensures |PadEnd(s, n)| == n
  {
  }

  lemma NextMultiple(n: nat)
    requires n % 64 == 0
    ensures (64 + n) % 64 == 0
  {
  }

  lemma TailIsEven(b: string)
    requires |b| / 2 <= MAX_SAFE
    ensures |Tail(b)| % 64 == 0 && |Tail(b)| >= 64
  {
    hide SafeHex, Word, PadEnd, RoundUp;
    WordReads(|b| / 2);
    PaddedLength(b, RoundUp(|b|));
    NextMultiple(RoundUp(|b|));
  }

  lemma NothingAfter(s: string)
    ensures s + [] == s
  {
  }

  /** The encoding in its three parts, and what its head says. */
  lemma EncodingParts(factory: string, calldata: string, inner: string) returns (head: string, a: string, b: string)
    requires |factory| == 40 && |AbiEncode(factory, calldata, inner)| <= MAX_SAFE
    ensures a == Tail(calldata) && b == Tail(inner) && |head| == 192 && |a| % 2 == 0 && |head| / 2 == 96
    ensures var body := AbiEncode(factory, calldata, inner);
      body == head + a + b && HeadSays(body, factory, |head + a| / 2)
  {
    hide *;
    var second := 96 + |Tail(calldata)| / 2;
    head, a, b := Head(factory, second), Tail(calldata), Tail(inner);
    EncodedIsLonger(factory, calldata, inner);
    HalfFits(|calldata|);
    HalfFits(|Tail(calldata)|);
    TailIsEven(calldata);
    HeadReads(factory, second, a + b);
    Assoc(head, a, b);
    HalfOf(head, a);
  }

  lemma HalfFits(n: nat)
    requires n <= MAX_SAFE
    ensures n / 2 <= MAX_SAFE && 96 + n / 2 <= MAX_SAFE
  {
  }

  lemma HalfOf(head: string, a: string)
    requires |head| == 192 && |a| % 2 == 0
    ensures |head| / 2 == 96 && |head + a| / 2 == 96 + |a| / 2
  {
  }

  /** The encoded body, too long for any JavaScript string only when the precondition fails, decodes to its three parts. */
  lemma BodyUnwraps(factory: string, calldata: string, inner: string)
    requires |factory| == 40 && All(IsHex, factory) && |calldata| % 2 == 0 && |inner| % 2 == 0
    requires |AbiEncode(factory, calldata, inner)| <= MAX_SAFE
    ensures DecodeBody(AbiEncode(factory, calldata, inner)) == Some(Envelope("0x" + factory, "0x" + calldata, "0x" + inner))
    ensures |AbiEncode(factory, calldata, inner)| >= 192 && AbiEncode(factory, calldata, inner)[1] == '0'
  {
    hide ReadBytesAt, Word, Slice, Tail, AbiEncode;
    var head, a, b := EncodingParts(factory, calldata, inner);
    TailReads(head, calldata, b);
    NothingAfter(head + a + b);
    TailReads(head + a, inner, []);
  }

  /** For any factory, calldata and signature whose wrapper is a possible string, unwrapping returns all three. */
  lemma UnwrapUndoesWrap(factory: string, calldata: string, inner: string, prefixed: bool)
    requires |factory| == 40 && All(IsHex, factory) && |calldata| % 2 == 0 && |inner| % 2 == 0
    requires |AbiEncode(factory, calldata, inner)| <= MAX_SAFE
    ensures DecodeErc6492Signature((if prefixed then "0x" else "") + (AbiEncode(factory, calldata, inner) + MAGIC_SUFFIX))
         == Some(Envelope("0x" + factory, "0x" + calldata, "0x" + inner))
  {
    hide DecodeBody, AbiEncode, IsErc6492Signature;
    BodyUnwraps(factory, calldata, inner);
    SuffixRecognised(AbiEncode(factory, calldata, inner), prefixed);
  }

  lemma TailIsHex(pre: string, b: string, post: string)
    requires |pre| % 2 == 0 && |b| % 2 == 0 && |pre + Tail(b) + post| <= MAX_SAFE
    ensures HexField(pre + Tail(b) + post, Word(|pre| / 2))
  {
    hide Word, TextNat, PadEnd, RoundUp, HexField;
    PartsAt(pre, Word(|b| / 2), PadEnd(b, RoundUp(|b|)), post, 0);
    PaddedStart(b);
    WordReads(|pre| / 2);
    WordReads(|b| / 2);
    HexFieldIf(pre + Tail(b) + post, Word(|pre| / 2));
  }

  lemma HexFieldIf(body: string, w: string)
    requires |w| == 64 && All(IsHex, w)
    requires var at := 2 * TextNat(16, w); at + 64 <= |body| && All(IsHex, body[at..at + 64])
    ensures HexField(body, w)
  {
  }

  lemma EncodingIsHex(factory: string, calldata: string, inner: string)
    requires |factory| == 40 && |calldata| % 2 == 0 && |inner| % 2 == 0
    requires |AbiEncode(factory, calldata, inner)| <= MAX_SAFE
    ensures HexWords(AbiEncode(factory, calldata, inner))
  {
    hide Word, Tail, HexField, Slice, AbiEncode;
    var head, a, b := EncodingParts(factory, calldata, inner);
    TailIsHex(head, calldata, b);
    NothingAfter(head + a + b);
    TailIsHex(head + a, inner, []);
  }

  /** The strict decoder inverts the standard encoding too. */
  lemma StrictUndoesWrap(factory: string, calldata: string, inner: string, prefixed: bool)
    requires |factory| == 40 && All(IsHex, factory) && |calldata| % 2 == 0 && |inner| % 2 == 0
    requires |AbiEncode(factory, calldata, inner)| <= MAX_SAFE
    ensures StrictDecode((if prefixed then "0x" else "") + (AbiEncode(factory, calldata, inner) + MAGIC_SUFFIX))
         == Some(Envelope("0x" + factory, "0x" + calldata, "0x" + inner))
  {
    hide DecodeBody, StrictDecodeBody, AbiEncode, HexWords, IsErc6492Signature;
    var body := AbiEncode(factory, calldata, inner);
    BodyUnwraps(factory, calldata, inner);
    SuffixRecognised(body, prefixed);
    EncodingIsHex(factory, calldata, inner);
    BodyStrictExactly(body);
  }

  // ---- Nothing is made up -------------------------------------------------

  ghost predicate Within(field: string, body: string) {
    exists i, j | 0 <= i <= j <= |body| :: field == "0x" + body[i..j]
  }

  lemma SliceIsWithin(s: string, from: int, to: int)
    ensures Within("0x" + Slice(s, from, to), s)
  {
    if At(from, |s|) < At(to, |s|) {
      assert Slice(s, from, to) == s[At(from, |s|)..At(to, |s|)];
    } else {
      assert Slice(s, from, to) == s[0..0];
    }
  }

  /** Whatever the words say, every returned field is a slice of the payload, and the factory is an address. */
  lemma FieldsAreSlices(signature: string)
    requires DecodeErc6492Signature(signature).Some?
    ensures var body, e := Body(signature), DecodeErc6492Signature(signature).value;
      && |body| >= 192 && e.factory == "0x" + body[24..64] && All(IsHex, body[24..64])
      && Within(e.factoryCalldata, body) && Within(e.signature, body)
  {
    var body := Body(signature);
    assert Slice(body[..64], 24, 64) == body[24..64];
    ReadIsWithin(body, body[64..128]);
    ReadIsWithin(body, body[128..192]);
  }

  lemma ReadIsWithin(body: string, w: string)
    requires ReadBytesAt(body, w).Some?
    ensures Within(ReadBytesAt(body, w).value, body)
  {
    var at := SafeHex(w).value * 2;
    var length := SafeHex(Slice(body, at, at + 64)).value;
    SliceIsWithin(body, at + 64, at + 64 + length * 2);
  }

  /** The reader is wider than the encoding: a signed offset word counts from the end of the payload. */
  lemma SignedOffsetIsRead(body: string)
    requires |body| >= 192 && body[|body| - 128..|body| - 64] == Word(0)
    ensures ReadBytesAt(body, "-" + PadStart("40", 63)) == Some("0x")
  {
    hide SafeHex, Word, PadStart, Slice;
    var digits := PadStart("40", 63);
    MinusForty(digits);
    WordReads(0);
    SliceFromEnd(body, 128, 64);
    SliceFromEnd(body, 64, 64);
    assert Slice(body, -64, -64) == [] && "0x" + [] == "0x";
  }

  /** A payload with a signed offset word: the calldata is read 64 bytes before its end. */
  function SignedPayload(factory: string, rest: string): string {
    PadStart(factory, 64) + ("-" + PadStart("40", 63)) + Word(96) + Word(0) + rest
  }

  lemma SignedBodyIsRead(factory: string, rest: string)
    requires |factory| == 40 && All(IsHex, factory) && |rest| == 64
    ensures var body := SignedPayload(factory, rest);
      |body| == 320 && body[1] == '0' && body[64..128] == "-" + PadStart("40", 63)
      && DecodeBody(body) == Some(Envelope("0x" + factory, "0x", "0x"))
  {
    hide ReadBytesAt, SafeHex, Word, Slice;
    WordReads(96);
    WordReads(0);
    var first, signed := PadStart(factory, 64), "-" + PadStart("40", 63);
    var body := SignedPayload(factory, rest);
    assert body[..64] == first && first[24..64] == factory;
    SliceInside(first, 24, 64);
    assert body[64..128] == signed && body[128..192] == Word(96) && body[192..256] == Word(0);
    SignedOffsetIsRead(body);
    EmptyFieldReads(body);
  }

  lemma EmptyFieldReads(body: string)
    requires 256 <= |body| <= MAX_SAFE && body[192..256] == Word(0)
    ensures ReadBytesAt(body, Word(96)) == Some("0x")
  {
    hide SafeHex, Word, Slice;
    WordReads(96);
    WordReads(0);
    SliceInside(body, 192, 256);
    SliceInside(body, 256, 256);
    assert "0x" + [] == "0x";
  }

  lemma NothingBefore(s: string)
    ensures "" + s == s
  {
  }

  lemma MinusRefused(body: string, digits: string)
    requires |body| >= 192 && body[64..128] == "-" + digits
    ensures StrictDecodeBody(body) == None
  {
    hide StrictReadBytesAt;
    assert body[64..128][0] == '-';
    NoMinusField(body, body[64..128]);
  }

  lemma NoMinusField(body: string, w: string)
    requires w != [] && w[0] == '-'
    ensures StrictReadBytesAt(body, w) == None
  {
    assert !IsHex('-');
  }

  /** The decoder accepts such a payload, for any factory; a strict one refuses it. */
  lemma SignedPayloadIsAccepted(factory: string, rest: string)
    requires |factory| == 40 && All(IsHex, factory) && |rest| == 64
    ensures var signature := SignedPayload(factory, rest) + MAGIC_SUFFIX;
      DecodeErc6492Signature(signature) == Some(Envelope("0x" + factory, "0x", "0x")) && StrictDecode(signature) == None
  {
    hide DecodeBody, SignedPayload, IsErc6492Signature, StrictDecodeBody, Body, Repeat;
    var body := SignedPayload(factory, rest);
    SignedBodyIsRead(factory, rest);
    SuffixRecognised(body, false);
    NothingBefore(body + MAGIC_SUFFIX);
    MinusRefused(body, PadStart("40", 63));
  }

  lemma MinusForty(digits: string)
    requires digits == PadStart("40", 63)
    ensures SafeHex("-" + digits) == Some(-64)
  {
    hide TextNat, Span;
    Forty(63);
    SignedReads(digits);
  }

  lemma SignedReads(digits: string)
    requires |digits| > 1 && digits[1] == '0' && All(IsHex, digits)
    ensures ParseHex("-" + digits) == Some(-(TextNat(16, digits) as int))
  {
    var w := "-" + digits;
    SpanOf(IsWhite, [], w);
    assert [] + w == w && w[1..] == digits;
    SpanOf(IsHex, digits, []);
    assert digits + [] == digits;
  }

  lemma Forty(n: nat)
    requires n > 3
    ensures var w := PadStart("40", n); |w| == n && w[1] == '0' && All(IsHex, w) && TextNat(16, w) == 64
  {
    TextZeros(16, n - 2, "40");
    assert DigitsOf("40") == [4, 0];
    ValueSnoc(16, [4], 0);
    ValueSnoc(16, [], 4);
    assert [] + [4] == [4] && [4] + [0] == [4, 0];
  }

  // ---- The ERC-1271 call --------------------------------------------------

  /** `(n / 2).toString(16)`: an odd count of digits leaves a half. */
  function HalfHex(n: nat): string {
    Show(16, n / 2) + if n % 2 == 1 then ".8" else ""
  }

  function EncodeIsValidSignatureCall(hash: string, signature: string): string {
    var h := PadStart(Strip0x(hash), 64);
    var sig := Strip0x(signature);
    MAGIC_VALUE + (h + PadStart("40", 64) + PadStart(HalfHex(|sig|), 64) + PadEnd(sig, RoundUp(|sig|)))
  }

  /** A strict decoder of the arguments `(bytes32, bytes)`, aligned to whole words. */
  function DecodeArguments(args: string): Option<(string, string)> {
    if |args| % 64 != 0 || |args| < 128 then None
    else
      var offset :- AbiWord(args[64..128]);
      if offset * 2 + 64 > |args| || offset % 32 != 0 then None
      else
        var length :- AbiWord(args[offset * 2..offset * 2 + 64]);
        var start := offset * 2 + 64;
        if start + RoundUp(length * 2) != |args| then None
        else Some((args[..64], args[start..start + length * 2]))
  }

  function DecodeCall(data: string): Option<(string, string)> {
    if |data| < 10 || data[..10] != MAGIC_VALUE then None else DecodeArguments(data[10..])
  }

  lemma OffsetWord()
    ensures |PadStart("40", 64)| == 64 && AbiWord(PadStart("40", 64)) == Some(64)
  {
    Forty(64);
  }

  lemma LengthWord(n: nat)
    requires n <= MAX_SAFE
    ensures |PadStart(HalfHex(n), 64)| == 64
    ensures AbiWord(PadStart(HalfHex(n), 64)) == if n % 2 == 0 then Some(n / 2) else None
  {
    WordFits(n / 2);
    if n % 2 == 0 {
      assert HalfHex(n) == Show(16, n / 2);
      ShowPadded(16, n / 2, 64);
    } else {
      HalfIsShort(n / 2);
      var w := PadStart(HalfHex(n), 64);
      assert w[|w| - 2] == '.' && !IsHex('.');
    }
  }

  lemma HalfIsShort(k: nat)
    requires k <= MAX_SAFE
    ensures |Show(16, k)| <= 16
  {
    assert Pow(16, 4) == 65536;
    assert Pow(16, 8) == 65536 * Pow(16, 4);
    assert Pow(16, 12) == 65536 * Pow(16, 8);
    assert Pow(16, 16) == 65536 * Pow(16, 12);
    NumeralLength(16, k, 16);
  }

  lemma PartsDecode(h: string, offset: string, length: string, data: string, n: nat)
    requires |h| == 64 && |offset| == 64 && |length| == 64 && |data| == RoundUp(n)
    requires AbiWord(offset) == Some(64) && AbiWord(length) == if n % 2 == 0 then Some(n / 2) else None
    ensures var args := h + offset + length + data;
      |args| % 64 == 0 && DecodeArguments(args) == if n % 2 == 0 then Some((h, data[..n])) else None
  {
    hide AbiWord, RoundUp;
    FourParts(h, offset, length, data, n);
  }

  lemma FourParts(h: string, offset: string, length: string, data: string, n: nat)
    requires |h| == 64 && |offset| == 64 && |length| == 64 && n <= |data|
    ensures var args := h + offset + length + data;
      && |args| == 192 + |data| && args[..64] == h && args[64..128] == offset && args[128..192] == length
      && args[192..192 + n] == data[..n]
  {
  }

  /** With a 64-digit hash, the arguments decode to the hash and an even signature, and an odd one is refused. */
  lemma ArgumentsDecode(h: string, sig: string)
    requires |h| == 64 && |sig| <= MAX_SAFE
    ensures var args := h + PadStart("40", 64) + PadStart(HalfHex(|sig|), 64) + PadEnd(sig, RoundUp(|sig|));
      |args| % 64 == 0 && DecodeArguments(args) == if |sig| % 2 == 0 then Some((h, sig)) else None
  {
    hide AbiWord, HalfHex, RoundUp, DecodeArguments;
    OffsetWord();
    LengthWord(|sig|);
    var data := PadEnd(sig, RoundUp(|sig|));
    assert data[..|sig|] == sig;
    PartsDecode(h, PadStart("40", 64), PadStart(HalfHex(|sig|), 64), data, |sig|);
  }

  /**
   * The call decodes back to its hash and signature, aligned to 32 bytes,
   * exactly when the hash fits one word and the signature has whole bytes.
   */
  lemma CallDecodes(hash: string, signature: string)
    requires |Strip0x(signature)| <= MAX_SAFE
    ensures DecodeCall(EncodeIsValidSignatureCall(hash, signature)) == Some((PadStart(Strip0x(hash), 64), Strip0x(signature)))
      <==> |Strip0x(hash)| <= 64 && |Strip0x(signature)| % 2 == 0
    ensures |Strip0x(hash)| <= 64 ==> (|EncodeIsValidSignatureCall(hash, signature)| - 10) % 64 == 0
  {
    var h, sig := PadStart(Strip0x(hash), 64), Strip0x(signature);
    var args := h + PadStart("40", 64) + PadStart(HalfHex(|sig|), 64) + PadEnd(sig, RoundUp(|sig|));
    CallArguments(args);
    if |h| == 64 {
      ArgumentsDecode(h, sig);
    } else {
      HashIsOneWord(args);
    }
  }

  lemma CallArguments(args: string)
    ensures DecodeCall(MAGIC_VALUE + args) == DecodeArguments(args)
  {
    assert (MAGIC_VALUE + args)[..10] == MAGIC_VALUE && (MAGIC_VALUE + args)[10..] == args;
  }

  lemma HashIsOneWord(args: string)
    ensures DecodeArguments(args).Some? ==> |DecodeArguments(args).value.0| == 64
  {
  }
}
