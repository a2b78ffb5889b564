/**
 * Wire bytes of a transaction laid out in the four privilege groups a header
 * can describe: `compileV0` and the payment builder both emit this shape.
 */
module Layout {
  import opened Bytes
  import opened WireFormat
  import opened Transactions

  datatype Groups = Groups(signed: seq<Address>, readonlySigned: seq<Address>, writable: seq<Address>, readonly: seq<Address>) {
    function Keys(): seq<Address> {
      signed + readonlySigned + writable + readonly
    }

    function Signers(): nat {
      |signed| + |readonlySigned|
    }
  }

  /** The transaction with these signature slots, one-byte header counts and indices. */
  function Laid(g: Groups, ixs: seq<Instruction>, blockhash: Address, slots: seq<Signature>): RawTransaction {
    var keys := g.Keys();
    RawTransaction(slots, ToByte(g.Signers()), ToByte(|g.readonlySigned|), ToByte(|g.readonly|), keys, blockhash,
                   seq(|ixs|, i requires 0 <= i < |ixs| => IndexInstruction(keys, ixs[i])))
  }

  function EmptySlots(n: nat): (slots: seq<Signature>)
    ensures |slots| == n && forall i | 0 <= i < n :: slots[i] == Zeros(64)
  {
    seq(n, _ => Zeros(64))
  }

  /** The unsigned transaction: one zeroed slot per required signer. */
  function Encode(g: Groups, ixs: seq<Instruction>, blockhash: Address): Bytes {
    Serialize(Laid(g, ixs, blockhash, EmptySlots(g.Signers())))
  }

  ghost predicate AllMentioned(keys: seq<Address>, ixs: seq<Instruction>) {
    forall i | 0 <= i < |ixs| :: Mentions(keys, ixs[i])
  }

  lemma {:induction false} ConcatCovers(ixs: seq<RawInstruction>, i: nat)
    requires i < |ixs|
    ensures |Concat(InstructionBytes, ixs)| >= |ixs|
    ensures |Concat(InstructionBytes, ixs)| >= |InstructionBytes(ixs[i])|
  {
    if |ixs| > 1 { ConcatCovers(ixs[1..], if i == 0 then 0 else i - 1); }
  }

  lemma InstructionsFit(t: RawTransaction)
    requires |Serialize(t)| <= TRANSACTION_LIMIT
    ensures |t.instructions| <= TRANSACTION_LIMIT
    ensures forall i | 0 <= i < |t.instructions| ::
      |t.instructions[i].accounts| <= TRANSACTION_LIMIT && |t.instructions[i].data| <= TRANSACTION_LIMIT
  {
    assert |Serialize(t)| >= |Message(t)| >= |Body(t)| >= |Concat(InstructionBytes, t.instructions)|;
    forall i | 0 <= i < |t.instructions|
      ensures |t.instructions| <= TRANSACTION_LIMIT
      ensures |t.instructions[i].accounts| <= TRANSACTION_LIMIT && |t.instructions[i].data| <= TRANSACTION_LIMIT
    {
      ConcatCovers(t.instructions, i);
    }
    if |t.instructions| > 0 { ConcatCovers(t.instructions, 0); }
  }

  /** What the parser returns for a layout: nothing is lost and nothing added. */
  ghost predicate Faithful(tx: Transaction, g: Groups, ixs: seq<Instruction>, blockhash: Address) {
    && tx.accountKeys == g.Keys()
    && tx.numRequiredSignatures == g.Signers() == |tx.signatures|
    && tx.numReadonlySigned == |g.readonlySigned|
    && tx.numReadonlyUnsigned == |g.readonly|
    && tx.recentBlockhash == blockhash
    && tx.instructions == ixs
  }

  lemma IndexedInstructionFits(keys: seq<Address>, ix: Instruction)
    requires |keys| <= 256 && Mentions(keys, ix)
    requires |IndexInstruction(keys, ix).accounts| < MAX_SHORT_VEC && |IndexInstruction(keys, ix).data| < MAX_SHORT_VEC
    ensures InstructionOk(|keys|, IndexInstruction(keys, ix))
    ensures ResolveInstruction(keys, IndexInstruction(keys, ix)) == ix
  {
    IndexInstructionOk(keys, ix);
  }

  lemma LaidWellFormed(g: Groups, ixs: seq<Instruction>, blockhash: Address, slots: seq<Signature>)
    requires |Serialize(Laid(g, ixs, blockhash, slots))| <= TRANSACTION_LIMIT
    requires g.signed != [] && AllMentioned(g.Keys(), ixs) && |slots| == g.Signers()
    ensures WellFormed(Laid(g, ixs, blockhash, slots))
    ensures Faithful(Resolve(Laid(g, ixs, blockhash, slots)), g, ixs, blockhash)
  {
    hide IndexInstruction, InstructionOk, ResolveInstruction, Mentions, Serialize;
    var t := Laid(g, ixs, blockhash, slots);
    KeyCountBound(t);
    InstructionsFit(t);
    forall i | 0 <= i < |ixs|
      ensures InstructionOk(|t.accountKeys|, t.instructions[i])
      ensures ResolveInstruction(t.accountKeys, t.instructions[i]) == ixs[i]
    {
      assert t.instructions[i] == IndexInstruction(g.Keys(), ixs[i]) && Mentions(g.Keys(), ixs[i]);
      IndexedInstructionFits(g.Keys(), ixs[i]);
    }
  }

  /** A layout that fits a packet is accepted and read back unchanged. */
  lemma LayoutParses(g: Groups, ixs: seq<Instruction>, blockhash: Address, slots: seq<Signature>)
    requires |Serialize(Laid(g, ixs, blockhash, slots))| <= TRANSACTION_LIMIT
    requires g.signed != [] && AllMentioned(g.Keys(), ixs) && |slots| == g.Signers()
    ensures var tx := Parse(Serialize(Laid(g, ixs, blockhash, slots)));
      && tx.Some? && Faithful(tx.value, g, ixs, blockhash)
      && tx.value.signatures == slots && tx.value.message == Message(Laid(g, ixs, blockhash, slots))
  {
    LaidWellFormed(g, ixs, blockhash, slots);
    ParseRawExact(Serialize(Laid(g, ixs, blockhash, slots)), Laid(g, ixs, blockhash, slots));
  }

  /** Position decides permission: with distinct keys the groups are read back. */
  lemma LayoutPermissions(tx: Transaction, g: Groups, ixs: seq<Instruction>, blockhash: Address, a: Address)
    requires Faithful(tx, g, ixs, blockhash) && Distinct(g.Keys())
    ensures IsSigner(tx, a) <==> a in g.signed || a in g.readonlySigned
    ensures IsWritable(tx, a) <==> a in g.signed || a in g.writable
  {
    var keys := g.Keys();
    var i := IndexOf(keys, a);
    if 0 <= i {
      PositionInGroups(g, i);
    }
    assert forall x :: x in keys <==> x in g.signed || x in g.readonlySigned || x in g.writable || x in g.readonly;
  }

  lemma PositionInGroups(g: Groups, i: nat)
    requires Distinct(g.Keys()) && i < |g.Keys()|
    ensures g.Keys()[i] in g.signed <==> i < |g.signed|
    ensures g.Keys()[i] in g.readonlySigned <==> |g.signed| <= i < g.Signers()
    ensures g.Keys()[i] in g.writable <==> g.Signers() <= i < |g.Keys()| - |g.readonly|
  {
    var keys, a := g.Keys(), g.Keys()[i];
    var n1, n2, n3 := |g.signed|, g.Signers(), |g.Keys()| - |g.readonly|;
    assert keys[..n1] == g.signed && keys[n1..n2] == g.readonlySigned && keys[n2..n3] == g.writable;
    assert forall j | 0 <= j < |keys| :: keys[j] == a <==> j == i;
  }
}
