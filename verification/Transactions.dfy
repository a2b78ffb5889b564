/** A parsed transaction in terms of addresses, and what its header permits. */
module Transactions {
  import opened Bytes
  import opened WireFormat

  datatype Instruction = Instruction(program: Address, accounts: seq<Address>, data: Bytes)

  datatype Transaction = Transaction(
    signatures: seq<Signature>,
    message: Bytes,
    numRequiredSignatures: byte,
    numReadonlySigned: byte,
    numReadonlyUnsigned: byte,
    accountKeys: seq<Address>,
    recentBlockhash: Address,
    instructions: seq<Instruction>)

  predicate InRange(keyCount: nat, indices: seq<byte>) {
    forall i | 0 <= i < |indices| :: indices[i] < keyCount
  }

  function Named(keys: seq<Address>, indices: seq<byte>): seq<Address>
    requires InRange(|keys|, indices)
  {
    seq(|indices|, i requires 0 <= i < |indices| => keys[indices[i]])
  }

  function ResolveInstruction(keys: seq<Address>, ix: RawInstruction): Instruction
    requires InstructionOk(|keys|, ix)
  {
    Instruction(keys[ix.program], Named(keys, ix.accounts), ix.data)
  }

  function Resolved(keys: seq<Address>, raw: seq<RawInstruction>): seq<Instruction>
    requires forall i | 0 <= i < |raw| :: InstructionOk(|keys|, raw[i])
  {
    seq(|raw|, i requires 0 <= i < |raw| => ResolveInstruction(keys, raw[i]))
  }

  function Resolve(t: RawTransaction): Transaction
    requires WellFormed(t)
  {
    Transaction(t.signatures, Message(t), t.numRequiredSignatures, t.numReadonlySigned, t.numReadonlyUnsigned,
                t.accountKeys, t.recentBlockhash,
                Resolved(t.accountKeys, t.instructions))
  }

  function Parse(wire: Bytes): Option<Transaction> {
    var raw :- ParseRaw(wire);
    ParseRawExact(wire, raw);
    Some(Resolve(raw))
  }

  // ---- Writing the structured fields back ---------------------------------

  function ToByte(i: int): byte { i % 256 }

  function IndexIn(keys: seq<Address>, a: Address): byte {
    ToByte(IndexOf(keys, a))
  }

  function IndexInstruction(keys: seq<Address>, ix: Instruction): RawInstruction {
    RawInstruction(IndexIn(keys, ix.program),
                   seq(|ix.accounts|, i requires 0 <= i < |ix.accounts| => IndexIn(keys, ix.accounts[i])),
                   ix.data)
  }

  function Unresolve(t: Transaction): RawTransaction {
    RawTransaction(t.signatures, t.numRequiredSignatures, t.numReadonlySigned, t.numReadonlyUnsigned,
                   t.accountKeys, t.recentBlockhash, 
                   seq(|t.instructions|, i requires 0 <= i < |t.instructions| => IndexInstruction(t.accountKeys, t.instructions[i])))
  }

  predicate FirstOccurrence(keys: seq<Address>, i: byte) {
    i < |keys| && forall j | 0 <= j < i :: keys[j] != keys[i]
  }

  predicate CanonicalInstruction(keys: seq<Address>, ix: RawInstruction) {
    FirstOccurrence(keys, ix.program) && forall i | 0 <= i < |ix.accounts| :: FirstOccurrence(keys, ix.accounts[i])
  }

  /** Every account index in the wire names the first occurrence of its key. */
  predicate CanonicalIndices(t: RawTransaction) {
    forall i | 0 <= i < |t.instructions| :: CanonicalInstruction(t.accountKeys, t.instructions[i])
  }

  lemma FirstOccurrenceIsIndex(keys: seq<Address>, i: byte)
    requires i < |keys|
    ensures FirstOccurrence(keys, i) <==> IndexIn(keys, keys[i]) == i
  {
    assert keys[i] in keys;
  }

  lemma ReindexInstruction(keys: seq<Address>, ix: RawInstruction)
    requires InstructionOk(|keys|, ix)
    ensures IndexInstruction(keys, ResolveInstruction(keys, ix)) == ix <==> CanonicalInstruction(keys, ix)
  {
    var back := IndexInstruction(keys, ResolveInstruction(keys, ix));
    FirstOccurrenceIsIndex(keys, ix.program);
    forall i | 0 <= i < |ix.accounts|
      ensures back.accounts[i] == ix.accounts[i] <==> FirstOccurrence(keys, ix.accounts[i])
    {
      FirstOccurrenceIsIndex(keys, ix.accounts[i]);
    }
  }

  lemma ReindexAll(t: RawTransaction)
    requires WellFormed(t)
    ensures Unresolve(Resolve(t)) == t <==> CanonicalIndices(t)
  {
    var back := Unresolve(Resolve(t));
    forall i | 0 <= i < |t.instructions|
      ensures back.instructions[i] == t.instructions[i] <==> CanonicalInstruction(t.accountKeys, t.instructions[i])
    {
      ReindexInstruction(t.accountKeys, t.instructions[i]);
    }
  }

  predicate Mentions(keys: seq<Address>, ix: Instruction) {
    ix.program in keys && forall i | 0 <= i < |ix.accounts| :: ix.accounts[i] in keys
  }

  lemma IndexInstructionOk(keys: seq<Address>, ix: Instruction)
    requires |keys| <= 256 && Mentions(keys, ix) && |ix.accounts| < MAX_SHORT_VEC && |ix.data| < MAX_SHORT_VEC
    ensures InstructionOk(|keys|, IndexInstruction(keys, ix))
    ensures ResolveInstruction(keys, IndexInstruction(keys, ix)) == ix
  {
    hide IndexOf;
    var raw := IndexInstruction(keys, ix);
    assert forall i | 0 <= i < |ix.accounts| :: raw.accounts[i] == ToByte(IndexOf(keys, ix.accounts[i]));
    assert Named(keys, raw.accounts) == ix.accounts;
  }

  lemma ReindexWellFormed(t: RawTransaction)
    requires WellFormed(t) && |t.accountKeys| <= 256
    ensures WellFormed(Unresolve(Resolve(t)))
  {
    var back := Unresolve(Resolve(t));
    forall i | 0 <= i < |back.instructions| ensures InstructionOk(|t.accountKeys|, back.instructions[i]) {
      IndexInstructionOk(t.accountKeys, Resolve(t).instructions[i]);
    }
  }

  /** The wire bytes of the structured fields, each address at its first position. */
  function Reserialize(t: Transaction): Bytes {
    Serialize(Unresolve(t))
  }

  lemma {:induction false} ConcatLength<T>(enc: T -> Bytes, xs: seq<T>, width: nat)
    requires forall x | x in xs :: |enc(x)| == width
    ensures |Concat(enc, xs)| == |xs| * width
  {
    if xs != [] {
      ConcatLength(enc, xs[1..], width);
      assert |xs| * width == width + (|xs| - 1) * width;
    }
  }

  lemma KeyCountBound(t: RawTransaction)
    requires |Serialize(t)| <= TRANSACTION_LIMIT
    ensures |t.accountKeys| <= 38
  {
    ConcatLength(KeyBytes, t.accountKeys, 32);
    assert |Serialize(t)| >= |Message(t)| >= |Concat(KeyBytes, t.accountKeys)|;
  }

  /**
   * Re-serialising what the parser returned gives the same bytes exactly when
   * the wire names every account by the first occurrence of its key.
   */
  lemma ReserializeExact(wire: Bytes, raw: RawTransaction)
    requires ParseRaw(wire) == Some(raw)
    ensures Parse(wire).Some?
    ensures Reserialize(Parse(wire).value) == wire <==> CanonicalIndices(raw)
  {
    ParseRawExact(wire, raw);
    ReindexAll(raw);
    KeyCountBound(raw);
    ReindexWellFormed(raw);
    var back := Unresolve(Resolve(raw));
    if Serialize(back) == wire {
      ParseRawExact(wire, back);
    }
  }

  /** With pairwise distinct keys the parser loses nothing. */
  lemma DistinctKeysReserialize(wire: Bytes)
    requires Parse(wire).Some? && Distinct(Parse(wire).value.accountKeys)
    ensures Reserialize(Parse(wire).value) == wire
  {
    var raw := ParseRaw(wire).value;
    ParseRawExact(wire, raw);
    assert CanonicalIndices(raw);
    ReserializeExact(wire, raw);
  }

  /** A wire with a repeated key is accepted, and its second position is lost. */
  lemma RepeatedKeyIsLost(key: Address, blockhash: Address, signature: Signature)
    ensures var raw := RawTransaction([signature], 1, 0, 1, [key, key], blockhash, [RawInstruction(1, [], [])]);
      ParseRaw(Serialize(raw)) == Some(raw) && Reserialize(Parse(Serialize(raw)).value) != Serialize(raw)
  {
    var raw := RawTransaction([signature], 1, 0, 1, [key, key], blockhash, [RawInstruction(1, [], [])]);
    RepeatedKeyFits(raw);
    ParseRawExact(Serialize(raw), raw);
    assert !FirstOccurrence(raw.accountKeys, raw.instructions[0].program);
    assert !CanonicalInstruction(raw.accountKeys, raw.instructions[0]);
    ReserializeExact(Serialize(raw), raw);
  }

  lemma RepeatedKeyFits(raw: RawTransaction)
    requires |raw.signatures| == 1 && |raw.accountKeys| == 2 && raw.instructions == [RawInstruction(1, [], [])]
    ensures |Serialize(raw)| <= TRANSACTION_LIMIT
  {
    ConcatLength(SignatureBytes, raw.signatures, 64);
    ConcatLength(KeyBytes, raw.accountKeys, 32);
    var ix := raw.instructions[0];
    assert Concat(InstructionBytes, raw.instructions) == InstructionBytes(ix) + Concat(InstructionBytes, []);
    assert |ShortVec(0)| == |ShortVec(1)| == |ShortVec(2)| == 1;
    assert |Body(raw)| <= 60;
    assert |Message(raw)| <= 200;
  }

  // ---- Permissions by position --------------------------------------------

  predicate IsSigner(t: Transaction, a: Address) {
    0 <= IndexOf(t.accountKeys, a) < t.numRequiredSignatures
  }

  predicate IsWritable(t: Transaction, a: Address) {
    var i := IndexOf(t.accountKeys, a);
    if i < 0 then false
    else if i < t.numRequiredSignatures then i < t.numRequiredSignatures - t.numReadonlySigned
    else i < |t.accountKeys| - t.numReadonlyUnsigned
  }

  /** The required signers, as positions in the header, are these addresses and no others. */
  ghost predicate SignersAre(tx: Transaction, signers: set<Address>) {
    tx.numRequiredSignatures <= |tx.accountKeys| && ToSet(tx.accountKeys[..tx.numRequiredSignatures]) == signers
      && Distinct(tx.accountKeys[..tx.numRequiredSignatures])
  }
}
