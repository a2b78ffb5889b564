/**
 * The v0 transaction bytes: the compact length prefix, the index-based
 * transaction they carry, and a parser that is exactly the inverse of the
 * serializer.
 */
module WireFormat {
  import opened Bytes

  const TRANSACTION_LIMIT := 1232
  const MAX_SHORT_VEC := 0x20_0000

  // ---- Compact length prefix ----------------------------------------------

  function ShortVec(n: nat): (r: Bytes)
    ensures |r| > 0
  {
    if n < 128 then [n] else [n % 128 + 128] + ShortVec(n / 128)
  }

  /** The encoding loop; for `n` below 2^31 the code's bit operations are this arithmetic. */
  method EncodeShortVec(n: nat) returns (out: Bytes)
    ensures out == ShortVec(n)
  {
    out := [];
    var rest := n;
    while true
      invariant out + ShortVec(rest) == ShortVec(n)
      decreases rest
    {
      var low := rest % 128;
      var more := rest / 128;
      if more == 0 {
        out := out + [low];
        return;
      }
      assert out + ([low + 128] + ShortVec(more)) == (out + [low + 128]) + ShortVec(more);
      out := out + [low + 128];
      rest := more;
    }
  }

  function At(b: Bytes, i: nat): (r: int)
    ensures 0 <= r < 256
  {
    if i < |b| then b[i] else 0
  }

  /** The prefix at the head of `b`, at most three bytes, and what follows it. */
  function ReadShortVec(b: Bytes): Option<(nat, Bytes)> {
    var b0, b1, b2 := At(b, 0), At(b, 1), At(b, 2);
    if |b| >= 1 && b0 < 128 then Some((b0, b[1..]))
    else if |b| >= 2 && 0 < b1 < 128 then Some((b0 - 128 + 128 * b1, b[2..]))
    else if |b| >= 3 && b1 >= 128 && 0 < b2 < 128 then
      Some((b0 - 128 + 128 * (b1 - 128) + 16384 * b2, b[3..]))
    else None
  }

  lemma ShortVecForms(n: nat)
    requires n < MAX_SHORT_VEC
    ensures n < 128 ==> ShortVec(n) == [n]
    ensures 128 <= n < 16384 ==> ShortVec(n) == [n % 128 + 128, n / 128]
    ensures 16384 <= n ==> ShortVec(n) == [n % 128 + 128, n / 128 % 128 + 128, n / 16384]
  {
    if 16384 <= n {
      assert n / 128 / 128 == n / 16384 < 128;
      assert ShortVec(n / 128) == [n / 128 % 128 + 128] + ShortVec(n / 16384);
    }
  }

  /** The reader accepts precisely the canonical prefixes of numbers below 2^21. */
  lemma ShortVecExact(b: Bytes, n: nat, rest: Bytes)
    ensures ReadShortVec(b) == Some((n, rest)) <==> n < MAX_SHORT_VEC && b == ShortVec(n) + rest
  {
    if n < MAX_SHORT_VEC && b == ShortVec(n) + rest {
      ShortVecForms(n);
    }
    if ReadShortVec(b) == Some((n, rest)) {
      ShortVecForms(n);
      if b[0] < 128 {
      } else if b[1] < 128 {
        assert n % 128 == b[0] - 128 && n / 128 == b[1];
      } else {
        var b2: int := b[2];
        assert n / 128 == b[1] - 128 + 128 * b2;
      }
    }
  }

  // ---- Parsers that are exact inverses ------------------------------------

  type Parser<!T> = Bytes -> Option<(T, Bytes)>

  /** `p` accepts exactly the encodings of `ok` values, and returns the rest. */
  ghost predicate Exact<T(!new)>(p: Parser<T>, ok: T -> bool, enc: T -> Bytes) {
    && (forall b | p(b).Some? :: ok(p(b).value.0) && b == enc(p(b).value.0) + p(b).value.1)
    && (forall x, rest | ok(x) :: p(enc(x) + rest) == Some((x, rest)))
  }

  function Concat<T>(enc: T -> Bytes, xs: seq<T>): Bytes {
    if xs == [] then [] else enc(xs[0]) + Concat(enc, xs[1..])
  }

  function Many<T>(p: Parser<T>, n: nat, b: Bytes): (r: Option<(seq<T>, Bytes)>)
    ensures r.Some? ==> |r.value.0| == n
  {
    if n == 0 then Some(([], b))
    else
      var (x, b1) :- p(b);
      var (xs, b2) :- Many(p, n - 1, b1);
      Some(([x] + xs, b2))
  }

  lemma {:induction false} ManyExact<T(!new)>(p: Parser<T>, ok: T -> bool, enc: T -> Bytes, xs: seq<T>, b: Bytes, rest: Bytes)
    requires Exact(p, ok, enc)
    ensures Many(p, |xs|, b) == Some((xs, rest)) <==> (forall i | 0 <= i < |xs| :: ok(xs[i])) && b == Concat(enc, xs) + rest
  {
    if xs == [] {
      assert Concat(enc, xs) + rest == rest;
    } else {
      var head, tail := xs[0], xs[1..];
      assert xs == [head] + tail;
      assert Concat(enc, xs) + rest == enc(head) + (Concat(enc, tail) + rest);
      if p(b).Some? {
        ManyExact(p, ok, enc, tail, p(b).value.1, rest);
      }
      if b == Concat(enc, xs) + rest && ok(head) {
        assert p(enc(head) + (Concat(enc, tail) + rest)) == Some((head, Concat(enc, tail) + rest));
      }
    }
  }

  function Take(n: nat, b: Bytes): Option<(Bytes, Bytes)> {
    if |b| < n then None else Some((b[..n], b[n..]))
  }

  function ReadSignature(b: Bytes): Option<(Signature, Bytes)> {
    if |b| < 64 then None else Some((b[..64], b[64..]))
  }

  function ReadKey(b: Bytes): Option<(Address, Bytes)> {
    if |b| < 32 then None else Some((b[..32], b[32..]))
  }

  function ReadByte(b: Bytes): Option<(byte, Bytes)> {
    if b == [] then None else Some((b[0], b[1..]))
  }

  /** An account index, refused when it is not below `keyCount`. */
  function ReadIndex(keyCount: nat, b: Bytes): Option<(byte, Bytes)> {
    if b == [] || b[0] >= keyCount then None else Some((b[0], b[1..]))
  }

  function IndexParser(keyCount: nat): Parser<byte> {
    (b: Bytes) => ReadIndex(keyCount, b)
  }

  // ---- The index-based transaction ----------------------------------------

  datatype RawInstruction = RawInstruction(program: byte, accounts: seq<byte>, data: Bytes)

  datatype RawTransaction = RawTransaction(
    signatures: seq<Signature>,
    numRequiredSignatures: byte,
    numReadonlySigned: byte,
    numReadonlyUnsigned: byte,
    accountKeys: seq<Address>,
    recentBlockhash: Address,
    instructions: seq<RawInstruction>)

  predicate InstructionOk(keyCount: nat, ix: RawInstruction) {
    && ix.program < keyCount
    && (forall i | 0 <= i < |ix.accounts| :: ix.accounts[i] < keyCount)
    && |ix.accounts| < MAX_SHORT_VEC
    && |ix.data| < MAX_SHORT_VEC
  }

  predicate BodyOk(keyCount: nat, ixs: seq<RawInstruction>) {
    |ixs| < MAX_SHORT_VEC && forall i | 0 <= i < |ixs| :: InstructionOk(keyCount, ixs[i])
  }

  predicate HeaderOk(required: nat, readonlySigned: nat, readonlyUnsigned: nat, keyCount: nat) {
    0 < required && readonlySigned < required && required + readonlyUnsigned <= keyCount
  }

  predicate WellFormed(t: RawTransaction) {
    && |t.signatures| == t.numRequiredSignatures
    && HeaderOk(t.numRequiredSignatures, t.numReadonlySigned, t.numReadonlyUnsigned, |t.accountKeys|)
    && |t.accountKeys| < MAX_SHORT_VEC
    && BodyOk(|t.accountKeys|, t.instructions)
  }

  function OneByte(b: byte): Bytes { [b] }
  function SignatureBytes(s: Signature): Bytes { s }
  function KeyBytes(k: Address): Bytes { k }

  function InstructionBytes(ix: RawInstruction): Bytes {
    [ix.program] + (ShortVec(|ix.accounts|) + (ix.accounts + (ShortVec(|ix.data|) + ix.data)))
  }

  function Header(t: RawTransaction): Bytes {
    [0x80, t.numRequiredSignatures, t.numReadonlySigned, t.numReadonlyUnsigned]
  }

  /** Everything after the account keys. */
  function Body(t: RawTransaction): Bytes {
    t.recentBlockhash + (ShortVec(|t.instructions|) + (Concat(InstructionBytes, t.instructions) + ShortVec(0)))
  }

  /** The bytes that are signed. */
  function Message(t: RawTransaction): Bytes {
    Header(t) + (ShortVec(|t.accountKeys|) + (Concat(KeyBytes, t.accountKeys) + Body(t)))
  }

  function Serialize(t: RawTransaction): Bytes {
    ShortVec(|t.signatures|) + (Concat(SignatureBytes, t.signatures) + Message(t))
  }

  // ---- Reading it back ----------------------------------------------------

  function ReadInstruction(keyCount: nat, b: Bytes): Option<(RawInstruction, Bytes)> {
    var (program, b1) :- ReadIndex(keyCount, b);
    var (n, b2) :- ReadShortVec(b1);
    var (accounts, b3) :- Many(IndexParser(keyCount), n, b2);
    var (m, b4) :- ReadShortVec(b3);
    var (data, b5) :- Take(m, b4);
    Some((RawInstruction(program, accounts, data), b5))
  }

  function InstructionParser(keyCount: nat): Parser<RawInstruction> {
    (b: Bytes) => ReadInstruction(keyCount, b)
  }

  /** Blockhash, instructions and the empty lookup-table list, up to the end. */
  function ReadBody(keyCount: nat, b: Bytes): Option<(Address, seq<RawInstruction>)> {
    var (blockhash, b1) :- ReadKey(b);
    var (n, b2) :- ReadShortVec(b1);
    var (ixs, b3) :- Many(InstructionParser(keyCount), n, b2);
    var (tables, b4) :- ReadShortVec(b3);
    if tables == 0 && b4 == [] then Some((blockhash, ixs)) else None
  }

  function ReadMessage(signatures: seq<Signature>, b: Bytes): Option<RawTransaction> {
    var (header, b1) :- Take(4, b);
    var (n, b2) :- ReadShortVec(b1);
    var (keys, b3) :- Many(ReadKey, n, b2);
    if header[0] != 0x80 || header[1] != |signatures| || !HeaderOk(header[1], header[2], header[3], n) then None
    else
      var (blockhash, ixs) :- ReadBody(n, b3);
      Some(RawTransaction(signatures, header[1], header[2], header[3], keys, blockhash, ixs))
  }

  function ParseRaw(wire: Bytes): Option<RawTransaction> {
    if |wire| > TRANSACTION_LIMIT then None
    else
      var (n, b1) :- ReadShortVec(wire);
      var (signatures, b2) :- Many(ReadSignature, n, b1);
      ReadMessage(signatures, b2)
  }

  // ---- Exactness ----------------------------------------------------------

  predicate AnyKey(k: Address) { true }
  predicate AnySignature(s: Signature) { true }

  function Below(keyCount: nat): byte -> bool {
    (i: byte) => i < keyCount
  }

  function InstructionFits(keyCount: nat): RawInstruction -> bool {
    (ix: RawInstruction) => InstructionOk(keyCount, ix)
  }

  lemma SplitAt(a: Bytes, b: Bytes)
    ensures (a + b)[..|a|] == a && (a + b)[|a|..] == b
  {
  }

  lemma LeafParsersExact(keyCount: nat)
    ensures Exact(ReadKey, AnyKey, KeyBytes)
    ensures Exact(ReadSignature, AnySignature, SignatureBytes)
    ensures Exact(IndexParser(keyCount), Below(keyCount), OneByte)
  {
    forall x: Address, rest: Bytes ensures ReadKey(KeyBytes(x) + rest) == Some((x, rest)) {
      SplitAt(x, rest);
    }
    forall x: Signature, rest: Bytes ensures ReadSignature(SignatureBytes(x) + rest) == Some((x, rest)) {
      SplitAt(x, rest);
    }
    forall x: byte, rest: Bytes | x < keyCount
      ensures IndexParser(keyCount)(OneByte(x) + rest) == Some((x, rest))
    {
      SplitAt([x], rest);
    }
  }

  lemma TakeExact(n: nat, b: Bytes, x: Bytes, rest: Bytes)
    ensures Take(n, b) == Some((x, rest)) <==> |x| == n && b == x + rest
  {
    if |x| == n && b == x + rest { SplitAt(x, rest); }
  }

  lemma {:induction false} ConcatOneByte(s: Bytes)
    ensures Concat(OneByte, s) == s
  {
    if s != [] { ConcatOneByte(s[1..]); }
  }

  lemma InstructionSound(keyCount: nat, b: Bytes, ix: RawInstruction, rest: Bytes)
    requires ReadInstruction(keyCount, b) == Some((ix, rest))
    ensures InstructionOk(keyCount, ix) && b == InstructionBytes(ix) + rest
  {
    var b1 := b[1..];
    assert b == [b[0]] + b1;
    var (n, b2) := ReadShortVec(b1).value;
    var (accounts, b3) := Many(IndexParser(keyCount), n, b2).value;
    var (m, b4) := ReadShortVec(b3).value;
    TakeExact(m, b4, ix.data, rest);
    ShortVecExact(b3, m, b4);
    LeafParsersExact(keyCount);
    ConcatOneByte(accounts);
    ManyExact(IndexParser(keyCount), Below(keyCount), OneByte, accounts, b2, b3);
    assert forall i | 0 <= i < |accounts| :: Below(keyCount)(accounts[i]);
    ShortVecExact(b1, n, b2);
    InstructionShape(ix, rest);
  }

  lemma InstructionShape(ix: RawInstruction, rest: Bytes)
    ensures InstructionBytes(ix) + rest
         == [ix.program] + (ShortVec(|ix.accounts|) + (ix.accounts + (ShortVec(|ix.data|) + (ix.data + rest))))
  {
  }

  lemma InstructionComplete(keyCount: nat, ix: RawInstruction, rest: Bytes)
    requires InstructionOk(keyCount, ix)
    ensures ReadInstruction(keyCount, InstructionBytes(ix) + rest) == Some((ix, rest))
  {
    var e4 := ix.data + rest;
    var e3 := ShortVec(|ix.data|) + e4;
    var e2 := ix.accounts + e3;
    var e1 := ShortVec(|ix.accounts|) + e2;
    InstructionShape(ix, rest);
    SplitAt([ix.program], e1);
    LeafParsersExact(keyCount);
    ConcatOneByte(ix.accounts);
    ManyExact(IndexParser(keyCount), Below(keyCount), OneByte, ix.accounts, e2, e3);
    ShortVecExact(e1, |ix.accounts|, e2);
    ShortVecExact(e3, |ix.data|, e4);
    TakeExact(|ix.data|, e4, ix.data, rest);
  }

  lemma InstructionParserExact(keyCount: nat)
    ensures Exact(InstructionParser(keyCount), InstructionFits(keyCount), InstructionBytes)
  {
    forall b | InstructionParser(keyCount)(b).Some?
      ensures InstructionOk(keyCount, ReadInstruction(keyCount, b).value.0)
      ensures b == InstructionBytes(ReadInstruction(keyCount, b).value.0) + ReadInstruction(keyCount, b).value.1
    {
      var (ix, rest) := ReadInstruction(keyCount, b).value;
      InstructionSound(keyCount, b, ix, rest);
    }
    forall ix, rest | InstructionOk(keyCount, ix)
      ensures InstructionParser(keyCount)(InstructionBytes(ix) + rest) == Some((ix, rest))
    {
      InstructionComplete(keyCount, ix, rest);
    }
  }

  lemma BodySound(keyCount: nat, b: Bytes, t: RawTransaction)
    requires ReadBody(keyCount, b) == Some((t.recentBlockhash, t.instructions))
    ensures BodyOk(keyCount, t.instructions) && b == Body(t)
  {
    var b1 := b[32..];
    assert b == b[..32] + b1;
    var (n, b2) := ReadShortVec(b1).value;
    var (ixs, b3) := Many(InstructionParser(keyCount), n, b2).value;
    ShortVecExact(b3, 0, []);
    assert b3 == ShortVec(0);
    InstructionParserExact(keyCount);
    ManyExact(InstructionParser(keyCount), InstructionFits(keyCount), InstructionBytes, ixs, b2, b3);
    ShortVecExact(b1, n, b2);
    assert forall i | 0 <= i < |ixs| :: InstructionFits(keyCount)(ixs[i]);
  }

  lemma BodyComplete(keyCount: nat, t: RawTransaction)
    requires BodyOk(keyCount, t.instructions)
    ensures ReadBody(keyCount, Body(t)) == Some((t.recentBlockhash, t.instructions))
  {
    var e3 := ShortVec(0);
    var e2 := Concat(InstructionBytes, t.instructions) + e3;
    var e1 := ShortVec(|t.instructions|) + e2;
    SplitAt(t.recentBlockhash, e1);
    ShortVecExact(e1, |t.instructions|, e2);
    InstructionParserExact(keyCount);
    ManyExact(InstructionParser(keyCount), InstructionFits(keyCount), InstructionBytes, t.instructions, e2, e3);
    assert e3 == ShortVec(0) + [];
    ShortVecExact(e3, 0, []);
  }

  lemma MessageSound(b: Bytes, t: RawTransaction)
    requires ReadMessage(t.signatures, b) == Some(t)
    ensures WellFormed(t) && b == Message(t)
  {
    var (header, b1) := Take(4, b).value;
    TakeExact(4, b, header, b1);
    var (n, b2) := ReadShortVec(b1).value;
    var (keys, b3) := Many(ReadKey, n, b2).value;
    assert header == Header(t);
    BodySound(n, b3, t);
    LeafParsersExact(0);
    ManyExact(ReadKey, AnyKey, KeyBytes, keys, b2, b3);
    ShortVecExact(b1, n, b2);
  }

  lemma MessageComplete(t: RawTransaction)
    requires WellFormed(t)
    ensures ReadMessage(t.signatures, Message(t)) == Some(t)
  {
    hide Body, Concat, ShortVec, ReadShortVec, Many, ReadBody;
    var k := |t.accountKeys|;
    var e2 := Concat(KeyBytes, t.accountKeys) + Body(t);
    var e1 := ShortVec(k) + e2;
    TakeExact(4, Message(t), Header(t), e1);
    ShortVecExact(e1, k, e2);
    LeafParsersExact(0);
    ManyExact(ReadKey, AnyKey, KeyBytes, t.accountKeys, e2, Body(t));
    BodyComplete(k, t);
  }

  /**
   * The parser is the exact inverse of the serializer: within the packet limit
   * it accepts the serializations of well-formed transactions, each one as that
   * transaction, and nothing else.
   */
  lemma ParseRawExact(wire: Bytes, t: RawTransaction)
    ensures ParseRaw(wire) == Some(t) <==> |wire| <= TRANSACTION_LIMIT && WellFormed(t) && wire == Serialize(t)
  {
    LeafParsersExact(0);
    if ParseRaw(wire) == Some(t) {
      var (n, b1) := ReadShortVec(wire).value;
      var (signatures, b2) := Many(ReadSignature, n, b1).value;
      assert t.signatures == signatures;
      MessageSound(b2, t);
      ManyExact(ReadSignature, AnySignature, SignatureBytes, signatures, b1, b2);
      ShortVecExact(wire, n, b1);
    }
    if |wire| <= TRANSACTION_LIMIT && WellFormed(t) && wire == Serialize(t) {
      var e := Concat(SignatureBytes, t.signatures) + Message(t);
      ShortVecExact(wire, |t.signatures|, e);
      ManyExact(ReadSignature, AnySignature, SignatureBytes, t.signatures, e, Message(t));
      MessageComplete(t);
    }
  }
}
