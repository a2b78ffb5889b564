/** Checking what a wallet returns for a payment: the loops, and what acceptance means. */
module SplVerify {
  import opened Bytes
  import opened Programs
  import opened WireFormat
  import opened Transactions
  import opened Layout
  import opened Compiler
  import opened Refinement
  import opened Pda
  import opened SplPayment
  import Reading

  const MAX_INSTRUCTIONS := 6

  /** `a` is a required signer whose slot holds a valid signature over the message. */
  predicate SignedBy(c: Crypto, tx: Transaction, a: Address) {
    var i := IndexOf(tx.accountKeys, a);
    0 <= i < tx.numRequiredSignatures && i < |tx.signatures| && c.verifies(tx.signatures[i], tx.message, a)
  }

  function Count(ixs: seq<Instruction>, program: Address): nat {
    if ixs == [] then 0 else (if ixs[0].program == program then 1 else 0) + Count(ixs[1..], program)
  }

  /** An instruction after the transfer that does not change the payment. */
  predicate HarmlessExtra(expected: seq<Instruction>, allowLighthouse: bool, ix: Instruction) {
    if ix.program == MEMO then |expected| > 3 && ix.accounts == [] && ix.data == expected[3].data
    else allowLighthouse && ix.program == LIGHTHOUSE
  }

  predicate AcceptedTransaction(c: Crypto, tx: Transaction, expected: seq<Instruction>, p: Payment, allowLighthouse: bool)
    requires |expected| >= 3 && |expected[2].accounts| == 4
  {
    && tx.accountKeys != [] && tx.accountKeys[0] == p.feePayer
    && tx.recentBlockhash == p.recentBlockhash
    && 3 <= |tx.instructions| <= MAX_INSTRUCTIONS
    && (forall i | 0 <= i < 3 :: tx.instructions[i] == expected[i])
    && IsWritable(tx, expected[2].accounts[0]) && IsWritable(tx, expected[2].accounts[2]) && IsSigner(tx, p.authority)
    && (forall i | 3 <= i < |tx.instructions| :: HarmlessExtra(expected, allowLighthouse, tx.instructions[i]))
    && Count(tx.instructions[3..], MEMO) == (if |expected| > 3 then 1 else 0)
    && SignedBy(c, tx, p.authority)
    && tx.numRequiredSignatures == (if p.SelfFunded() then 1 else 2)
  }

  predicate Accepted(c: Crypto, wire: Bytes, p: Payment, allowLighthouse: bool) {
    var expected, tx := PaymentInstructions(c, p), Parse(wire);
    expected.Some? && tx.Some? && AcceptedTransaction(c, tx.value, expected.value, p, allowLighthouse)
  }

  // ---- The checking loops -------------------------------------------------

  method SameInstruction(got: Instruction, want: Instruction) returns (same: bool)
    ensures same <==> got == want
  {
    if got.program != want.program || |got.accounts| != |want.accounts| { return false; }
    for j := 0 to |got.accounts|
      invariant forall k | 0 <= k < j :: got.accounts[k] == want.accounts[k]
    {
      if got.accounts[j] != want.accounts[j] { return false; }
    }
    same := Equal(got.data, want.data);
  }

  lemma CountSnoc(ixs: seq<Instruction>, ix: Instruction, program: Address)
    ensures Count(ixs + [ix], program) == Count(ixs, program) + (if ix.program == program then 1 else 0)
  {
    if ixs == [] {
      assert [] + [ix] == [ix];
    } else {
      CountSnoc(ixs[1..], ix, program);
      assert (ixs + [ix])[1..] == ixs[1..] + [ix];
    }
  }

  /** Counts memo instructions after the transfer; None when one is not harmless. */
  method CountExtras(expected: seq<Instruction>, extras: seq<Instruction>, allowLighthouse: bool) returns (memos: Option<nat>)
    requires |expected| >= 3
    ensures memos.Some? <==> forall i | 0 <= i < |extras| :: HarmlessExtra(expected, allowLighthouse, extras[i])
    ensures memos.Some? ==> memos.value == Count(extras, MEMO)
  {
    assert Count(extras[..0], MEMO) == 0;
    hide Count;
    var count := 0;
    for i := 0 to |extras|
      invariant forall j | 0 <= j < i :: HarmlessExtra(expected, allowLighthouse, extras[j])
      invariant count == Count(extras[..i], MEMO)
    {
      var ix := extras[i];
      CountSnoc(extras[..i], ix, MEMO);
      assert extras[..i + 1] == extras[..i] + [ix];
      if ix.program == MEMO {
        count := count + 1;
        if |expected| == 3 || |ix.accounts| != 0 { return None; }
        var same := Equal(ix.data, expected[3].data);
        if !same { return None; }
      } else if !allowLighthouse || ix.program != LIGHTHOUSE {
        return None;
      }
    }
    assert extras[..|extras|] == extras;
    return Some(count);
  }

  lemma ParsedShape(wire: Bytes)
    requires Parse(wire).Some?
    ensures var tx := Parse(wire).value;
      tx.accountKeys != [] && |tx.signatures| == tx.numRequiredSignatures && 0 < tx.numRequiredSignatures <= |tx.accountKeys|
  {
    ParseRawExact(wire, ParseRaw(wire).value);
  }

  method FirstThree(got: seq<Instruction>, expected: seq<Instruction>) returns (same: bool)
    requires |expected| >= 3
    ensures same <==> |got| >= 3 && forall j | 0 <= j < 3 :: got[j] == expected[j]
  {
    for i := 0 to 3
      invariant i <= |got|
      invariant forall j | 0 <= j < i :: got[j] == expected[j]
    {
      if i >= |got| { return false; }
      same := SameInstruction(got[i], expected[i]);
      if !same { return; }
    }
    return true;
  }

  method CheckTransaction(c: Crypto, tx: Transaction, expected: seq<Instruction>, p: Payment, allowLighthouse: bool) returns (ok: bool)
    requires 3 <= |expected| <= 4 && |expected[2].accounts| == 4 && tx.accountKeys != []
    ensures ok <==> AcceptedTransaction(c, tx, expected, p, allowLighthouse)
  {
    if tx.accountKeys[0] != p.feePayer { return false; }
    if tx.recentBlockhash != p.recentBlockhash { return false; }
    if |tx.instructions| > MAX_INSTRUCTIONS { return false; }
    var same := FirstThree(tx.instructions, expected);
    if !same { return false; }
    var accounts := expected[2].accounts;
    if !IsWritable(tx, accounts[0]) || !IsWritable(tx, accounts[2]) || !IsSigner(tx, p.authority) { return false; }
    var extras := tx.instructions[3..];
    var memos := CountExtras(expected, extras, allowLighthouse);
    assert forall i | 0 <= i < |extras| :: extras[i] == tx.instructions[i + 3];
    assert forall i | 3 <= i < |tx.instructions| :: tx.instructions[i] == extras[i - 3];
    if memos.None? || memos.value != |expected| - 3 { return false; }
    if !SignedBy(c, tx, p.authority) { return false; }
    if p.SelfFunded() && tx.numRequiredSignatures != 1 { return false; }
    if !p.SelfFunded() && tx.numRequiredSignatures != 2 { return false; }
    return true;
  }

  /** Returns the wire (as base64 in the code) or refuses. */
  method VerifySignedSplTransfer(c: Crypto, wire: Bytes, p: Payment, allowLighthouse: bool) returns (result: Option<Bytes>)
    ensures result == if Accepted(c, wire, p, allowLighthouse) then Some(wire) else None
  {
    var expected := PaymentInstructions(c, p);
    if expected.None? { return None; }
    var tx :- Reading.ParseSolanaTransaction(wire);
    ParsedShape(wire);
    var ok := CheckTransaction(c, tx, expected.value, p, allowLighthouse);
    return if ok then Some(wire) else None;
  }

  // ---- Soundness ----------------------------------------------------------

  lemma {:induction false} CountZero(ixs: seq<Instruction>, program: Address)
    requires Count(ixs, program) == 0
    ensures forall i | 0 <= i < |ixs| :: ixs[i].program != program
  {
    if ixs != [] { CountZero(ixs[1..], program); }
  }

  lemma {:induction false} CountOne(ixs: seq<Instruction>, program: Address) returns (k: nat)
    requires Count(ixs, program) == 1
    ensures k < |ixs| && ixs[k].program == program
    ensures forall i | 0 <= i < |ixs| && i != k :: ixs[i].program != program
  {
    if ixs[0].program == program {
      CountZero(ixs[1..], program);
      k := 0;
    } else {
      var r := CountOne(ixs[1..], program);
      k := r + 1;
    }
  }

  /** Exactly one memo, the requested one, and otherwise only Lighthouse. */
  ghost predicate OnlyExtras(extras: seq<Instruction>, memo: Option<Bytes>) {
    match memo
    case None => forall i | 0 <= i < |extras| :: extras[i].program == LIGHTHOUSE
    case Some(m) =>
      exists k :: 0 <= k < |extras| && extras[k] == MemoInstruction(m)
        && forall i | 0 <= i < |extras| && i != k :: extras[i].program == LIGHTHOUSE
  }

  lemma ExpectedMemo(c: Crypto, p: Payment, expected: seq<Instruction>)
    requires PaymentInstructions(c, p) == Some(expected)
    ensures p.memo.Some? ==> |expected| == 4 && expected[3] == MemoInstruction(p.memo.value)
  {
  }

  lemma ExtrasMeaning(extras: seq<Instruction>, expected: seq<Instruction>, memo: Option<Bytes>, allowLighthouse: bool)
    requires |expected| == if memo.Some? then 4 else 3
    requires memo.Some? ==> expected[3] == MemoInstruction(memo.value)
    requires forall i | 0 <= i < |extras| :: HarmlessExtra(expected, allowLighthouse, extras[i])
    requires Count(extras, MEMO) == |expected| - 3
    ensures OnlyExtras(extras, memo)
  {
    if memo.Some? {
      var k := CountOne(extras, MEMO);
      assert HarmlessExtra(expected, allowLighthouse, extras[k]);
      assert extras[k] == MemoInstruction(memo.value);
    } else {
      CountZero(extras, MEMO);
    }
  }

  lemma PaymentSigners(tx: Transaction, p: Payment)
    requires tx.accountKeys != [] && tx.accountKeys[0] == p.feePayer && IsSigner(tx, p.authority)
    requires tx.numRequiredSignatures == (if p.SelfFunded() then 1 else 2) <= |tx.accountKeys|
    ensures SignersAre(tx, {p.feePayer, p.authority})
  {
    var signers := tx.accountKeys[..tx.numRequiredSignatures];
    if p.SelfFunded() {
      assert signers == [p.feePayer];
    } else {
      assert IndexOf(tx.accountKeys, p.authority) == 1;
      assert signers == [p.feePayer, p.authority];
    }
  }

  /** Some required signer's slot is `a`'s and holds a signature of the message that verifies. */
  ghost predicate ValidSignature(c: Crypto, tx: Transaction, a: Address) {
    exists i | 0 <= i < tx.numRequiredSignatures && i < |tx.accountKeys| && i < |tx.signatures| ::
      tx.accountKeys[i] == a && c.verifies(tx.signatures[i], tx.message, a)
  }

  /** With pairwise distinct signers, the check of the first occurrence is a check of any. */
  lemma SignedByExactly(c: Crypto, tx: Transaction, a: Address, signers: set<Address>)
    requires SignersAre(tx, signers) && |tx.signatures| == tx.numRequiredSignatures
    ensures SignedBy(c, tx, a) <==> ValidSignature(c, tx, a)
  {
    if ValidSignature(c, tx, a) {
      var i :| 0 <= i < tx.numRequiredSignatures && i < |tx.accountKeys| && i < |tx.signatures|
        && tx.accountKeys[i] == a && c.verifies(tx.signatures[i], tx.message, a);
      var slots, j := tx.accountKeys[..tx.numRequiredSignatures], IndexOf(tx.accountKeys, a);
      assert j <= i;
      assert slots[j] == slots[i];
    }
  }

  /** The transfer's data says which amount is moved, and its width loses nothing. */
  lemma TransferAmount(c: Crypto, p: Payment, ixs: seq<Instruction>)
    requires PaymentInstructions(c, p) == Some(ixs)
    ensures |ixs[2].data| == 10 && ixs[2].data[0] == 12
    ensures FromLittleEndian(ixs[2].data[1..9]) == p.amount && ixs[2].data[9] == p.decimals
  {
    hide PaymentInstructions;
    PaymentInstructionsSay(c, p, ixs);
  }

  /**
   * Whatever is accepted moves the requested amount once: the only instruction
   * of a token program is the intended transfer, third; the requested memo
   * occurs exactly once and no other does; everything else is Lighthouse; and
   * the required signers are exactly the fee payer and the authority.
   */
  lemma AcceptedPaymentIsIntended(c: Crypto, wire: Bytes, p: Payment, allowLighthouse: bool)
    requires Accepted(c, wire, p, allowLighthouse)
    ensures var tx, expected := Parse(wire).value, PaymentInstructions(c, p).value;
      && 3 <= |tx.instructions| <= MAX_INSTRUCTIONS
      && tx.instructions[..3] == expected[..3]
      && (forall i | 0 <= i < |tx.instructions| :: tx.instructions[i].program in [TOKEN, TOKEN_2022] <==> i == 2)
      && FromLittleEndian(tx.instructions[2].data[1..9]) == p.amount
      && OnlyExtras(tx.instructions[3..], p.memo)
      && (!allowLighthouse ==> |tx.instructions| == |expected|)
      && SignersAre(tx, {p.feePayer, p.authority})
      && SignedBy(c, tx, p.authority)
      && tx.accountKeys[0] == p.feePayer && tx.recentBlockhash == p.recentBlockhash
      && IsWritable(tx, expected[2].accounts[0]) && IsWritable(tx, expected[2].accounts[2])
  {
    hide IsWritable, Parse, PaymentInstructions, Count, SignedBy, FromLittleEndian, OnlyExtras, SignersAre, HarmlessExtra;
    var tx, expected := Parse(wire).value, PaymentInstructions(c, p).value;
    ParsedShape(wire);
    var extras := tx.instructions[3..];
    assert forall i | 0 <= i < |extras| :: HarmlessExtra(expected, allowLighthouse, extras[i]);
    ExpectedMemo(c, p, expected);
    ExtrasMeaning(extras, expected, p.memo, allowLighthouse);
    TransferAmount(c, p, expected);
    PaymentSigners(tx, p);
    ProgramsDistinct();
    assert tx.instructions[2] == expected[2];
    OneTokenInstruction(c, p, tx.instructions, expected, allowLighthouse);
    if !allowLighthouse { AllMemos(extras, expected); }
  }

  /** What a returned transaction must be, in terms of what was asked. */
  ghost predicate Intended(c: Crypto, tx: Transaction, expected: seq<Instruction>, p: Payment, allowLighthouse: bool)
    requires |expected| >= 3 && |expected[2].accounts| == 4
  {
    && tx.accountKeys != [] && tx.accountKeys[0] == p.feePayer && tx.recentBlockhash == p.recentBlockhash
    && 3 <= |tx.instructions| <= 6 && tx.instructions[..3] == expected[..3]
    && OnlyExtras(tx.instructions[3..], p.memo) && (allowLighthouse || |tx.instructions| == |expected|)
    && SignersAre(tx, {p.feePayer, p.authority}) && ValidSignature(c, tx, p.authority)
    && IsWritable(tx, expected[2].accounts[0]) && IsWritable(tx, expected[2].accounts[2])
  }

  lemma AcceptedIsIntended(c: Crypto, wire: Bytes, p: Payment, allowLighthouse: bool)
    requires Accepted(c, wire, p, allowLighthouse)
    ensures Intended(c, Parse(wire).value, PaymentInstructions(c, p).value, p, allowLighthouse)
  {
    hide Parse, PaymentInstructions, Count, SignedBy, OnlyExtras, SignersAre, HarmlessExtra, IsWritable, ValidSignature;
    var tx := Parse(wire).value;
    AcceptedPaymentIsIntended(c, wire, p, allowLighthouse);
    ParsedShape(wire);
    SignedByExactly(c, tx, p.authority, {p.feePayer, p.authority});
  }

  lemma {:induction false} CountAll(ixs: seq<Instruction>, program: Address, k: int)
    requires forall i | 0 <= i < |ixs| :: ixs[i].program == program <==> i == k
    ensures Count(ixs, program) == if 0 <= k < |ixs| then 1 else 0
  {
    if ixs != [] {
      CountAll(ixs[1..], program, k - 1);
    }
  }

  lemma CountOnly(ixs: seq<Instruction>, program: Address, other: Address, k: int)
    requires other != program && (0 <= k < |ixs| ==> ixs[k].program == program)
    requires forall i | 0 <= i < |ixs| && i != k :: ixs[i].program == other
    ensures Count(ixs, program) == if 0 <= k < |ixs| then 1 else 0
  {
    CountAll(ixs, program, k);
  }

  lemma AllowedLighthouse(expected: seq<Instruction>, ix: Instruction)
    requires ix.program == LIGHTHOUSE
    ensures HarmlessExtra(expected, true, ix)
  {
    LighthouseIsNotMemo();
  }

  lemma OnlyMemo(extras: seq<Instruction>, memo: Option<Bytes>)
    requires OnlyExtras(extras, memo)
    ensures Count(extras, MEMO) == if memo.Some? then 1 else 0
  {
    var k := MemoPosition(extras, memo);
    hide *;
    LighthouseIsNotMemo();
    CountOnly(extras, MEMO, LIGHTHOUSE, k);
  }

  lemma OnlyExtrasHarmless(extras: seq<Instruction>, expected: seq<Instruction>, memo: Option<Bytes>, allowLighthouse: bool)
    requires OnlyExtras(extras, memo) && |expected| == if memo.Some? then 4 else 3
    requires memo.Some? ==> expected[3] == MemoInstruction(memo.value)
    requires allowLighthouse || |extras| == |expected| - 3
    ensures Count(extras, MEMO) == |expected| - 3
    ensures forall i | 0 <= i < |extras| :: HarmlessExtra(expected, allowLighthouse, extras[i])
  {
    hide *;
    OnlyMemo(extras, memo);
    var k := MemoPosition(extras, memo);
    if k >= 0 { MemoHarmless(expected, memo, allowLighthouse); }
    forall i | 0 <= i < |extras| ensures HarmlessExtra(expected, allowLighthouse, extras[i]) {
      if i != k { AllowedLighthouse(expected, extras[i]); }
    }
  }

  lemma MemoPosition(extras: seq<Instruction>, memo: Option<Bytes>) returns (k: int)
    requires OnlyExtras(extras, memo)
    ensures memo.None? ==> k == -1
    ensures memo.Some? ==> 0 <= k < |extras| && extras[k] == MemoInstruction(memo.value) && extras[k].program == MEMO
    ensures forall i | 0 <= i < |extras| && i != k :: extras[i].program == LIGHTHOUSE
  {
    match memo
    case None => k := -1;
    case Some(m) =>
      k :| 0 <= k < |extras| && extras[k] == MemoInstruction(m)
        && forall i | 0 <= i < |extras| && i != k :: extras[i].program == LIGHTHOUSE;
  }

  lemma ExactSigners(tx: Transaction, a: Address, b: Address)
    requires SignersAre(tx, {a, b})
    ensures tx.numRequiredSignatures == (if a == b then 1 else 2) && IsSigner(tx, a) && IsSigner(tx, b)
  {
    var slots := tx.accountKeys[..tx.numRequiredSignatures];
    DistinctCard(slots);
    assert a == b ==> {a, b} == {a};
    assert a in ToSet(slots) && b in ToSet(slots);
  }

  lemma IntendedIsAccepted(c: Crypto, wire: Bytes, p: Payment, expected: seq<Instruction>, allowLighthouse: bool)
    requires Parse(wire).Some? && PaymentInstructions(c, p) == Some(expected)
    requires Intended(c, Parse(wire).value, expected, p, allowLighthouse)
    ensures Accepted(c, wire, p, allowLighthouse)
  {
    hide Parse, PaymentInstructions, Count, SignedBy, OnlyExtras, SignersAre, HarmlessExtra, IsWritable, ValidSignature, IsSigner;
    var tx := Parse(wire).value;
    var extras := tx.instructions[3..];
    ParsedShape(wire);
    ExpectedMemo(c, p, expected);
    assert |extras| == |tx.instructions| - 3;
    OnlyExtrasHarmless(extras, expected, p.memo, allowLighthouse);
    ExactSigners(tx, p.feePayer, p.authority);
    SignedByExactly(c, tx, p.authority, {p.feePayer, p.authority});
    assert forall i | 0 <= i < 3 :: tx.instructions[i] == tx.instructions[..3][i] == expected[..3][i];
    assert forall i | 3 <= i < |tx.instructions| :: tx.instructions[i] == extras[i - 3];
  }

  /**
   * A wire is accepted for a payment exactly when it parses to a transaction
   * that is intended: its instructions, memo, signers, permissions, fee payer,
   * blockhash, and a signature of the authority that verifies.
   */
  lemma PaymentAcceptedExactly(c: Crypto, wire: Bytes, p: Payment, allowLighthouse: bool)
    ensures Accepted(c, wire, p, allowLighthouse) <==>
      PaymentInstructions(c, p).Some? && Parse(wire).Some?
      && Intended(c, Parse(wire).value, PaymentInstructions(c, p).value, p, allowLighthouse)
  {
    hide Parse, PaymentInstructions, Intended, AcceptedTransaction;
    if Accepted(c, wire, p, allowLighthouse) { AcceptedIsIntended(c, wire, p, allowLighthouse); }
    if PaymentInstructions(c, p).Some? && Parse(wire).Some?
      && Intended(c, Parse(wire).value, PaymentInstructions(c, p).value, p, allowLighthouse)
    {
      IntendedIsAccepted(c, wire, p, PaymentInstructions(c, p).value, allowLighthouse);
    }
  }

  lemma {:induction false} AllMemos(extras: seq<Instruction>, expected: seq<Instruction>)
    requires forall i | 0 <= i < |extras| :: HarmlessExtra(expected, false, extras[i])
    ensures Count(extras, MEMO) == |extras|
  {
    if extras != [] {
      assert HarmlessExtra(expected, false, extras[0]);
      AllMemos(extras[1..], expected);
    }
  }

  lemma OneTokenInstruction(c: Crypto, p: Payment, ixs: seq<Instruction>, expected: seq<Instruction>, allowLighthouse: bool)
    requires PaymentInstructions(c, p) == Some(expected) && |ixs| >= 3
    requires forall i | 0 <= i < 3 :: ixs[i] == expected[i]
    requires forall i | 3 <= i < |ixs| :: HarmlessExtra(expected, allowLighthouse, ixs[i])
    ensures forall i | 0 <= i < |ixs| :: ixs[i].program in [TOKEN, TOKEN_2022] <==> i == 2
  {
    var programs := [TOKEN, TOKEN_2022, ASSOCIATED_TOKEN, COMPUTE_BUDGET, MEMO, LIGHTHOUSE];
    ProgramsDistinct();
    assert programs[3] != programs[0] && programs[3] != programs[1] && programs[4] != programs[0] && programs[4] != programs[1]
        && programs[5] != programs[0] && programs[5] != programs[1];
    forall i | 0 <= i < |ixs| ensures ixs[i].program in [TOKEN, TOKEN_2022] <==> i == 2 {
      if i < 2 { assert ixs[i].program == COMPUTE_BUDGET; }
      if i == 2 { assert ixs[i].program == p.tokenProgram; }
    }
  }

  // ---- Completeness -------------------------------------------------------

  lemma TransferAsks(p: Payment, ixs: seq<Instruction>, extra: seq<MetaInstruction>, a: Address)
    requires |ixs| >= 3 && |ixs[2].accounts| == 4
    ensures var roles, all := WithRoles(ixs), WithRoles(ixs) + extra;
      && (AskedToSign(p.feePayer, roles, |roles|, a) ==> AskedToSign(p.feePayer, all, |all|, a))
      && (AskedToWrite(p.feePayer, roles, |roles|, a) ==> AskedToWrite(p.feePayer, all, |all|, a))
      && (AskedToSign(p.feePayer, all, |all|, a) ==>
            AskedToSign(p.feePayer, roles, |roles|, a) || exists i :: 0 <= i < |extra| && SignerIn(extra[i].accounts, a))
  {
    var roles, all := WithRoles(ixs), WithRoles(ixs) + extra;
    assert forall i | 0 <= i < |roles| :: all[i] == roles[i];
    assert forall i | 0 <= i < |extra| :: all[|roles| + i] == extra[i];
  }

  /** Lighthouse assertions that ask nobody else to sign. */
  ghost predicate Assertions(p: Payment, extra: seq<MetaInstruction>) {
    forall i | 0 <= i < |extra| ::
      extra[i].program == LIGHTHOUSE && forall a | SignerIn(extra[i].accounts, a) :: a == p.feePayer || a == p.authority
  }

  lemma {:induction false} CountAppendNone(ixs: seq<Instruction>, more: seq<Instruction>, program: Address)
    requires forall i | 0 <= i < |more| :: more[i].program != program
    ensures Count(ixs + more, program) == Count(ixs, program)
  {
    if more == [] {
      assert ixs + more == ixs;
    } else {
      var init := more[..|more| - 1];
      CountAppendNone(ixs, init, program);
      CountSnoc(ixs + init, more[|more| - 1], program);
      assert ixs + more == (ixs + init) + [more[|more| - 1]];
    }
  }

  lemma SignerCount(g: Groups, p: Payment, roles: seq<MetaInstruction>)
    requires Grants(g, p.feePayer, roles)
    requires forall a :: AskedToSign(p.feePayer, roles, |roles|, a) <==> a == p.feePayer || a == p.authority
    ensures g.Signers() == if p.SelfFunded() then 1 else 2
  {
    var s := g.signed + g.readonlySigned;
    PrefixDistinct(s, g.writable + g.readonly, g.Keys());
    var t := if p.SelfFunded() then [p.feePayer] else [p.feePayer, p.authority];
    forall a ensures a in s <==> a in t {
      assert AskedToSign(p.feePayer, roles, |roles|, a) <==> (a in g.signed || a in g.readonlySigned);
    }
    SameMembersSameLength(s, t);
  }

  lemma ExtrasHarmless(expected: seq<Instruction>, extra: seq<MetaInstruction>, memo: Option<Bytes>, allowLighthouse: bool)
    requires |expected| == if memo.Some? then 4 else 3
    requires memo.Some? ==> expected[3] == MemoInstruction(memo.value)
    requires extra == [] || allowLighthouse
    requires forall i | 0 <= i < |extra| :: extra[i].program == LIGHTHOUSE
    ensures var ixs := expected + StripAll(extra);
      && (forall i | 3 <= i < |ixs| :: HarmlessExtra(expected, allowLighthouse, ixs[i]))
      && Count(ixs[3..], MEMO) == |expected| - 3
  {
    hide Count, MemoInstruction, HarmlessExtra;
    ExtrasNotMemo(extra);
    CountTail(expected, StripAll(extra), MEMO);
    MemoCount(expected[3..], memo);
    if memo.Some? { MemoHarmless(expected, memo, allowLighthouse); }
    LighthouseHarmless(expected, extra, allowLighthouse);
  }

  lemma ExtrasNotMemo(extra: seq<MetaInstruction>)
    requires forall i | 0 <= i < |extra| :: extra[i].program == LIGHTHOUSE
    ensures forall i | 0 <= i < |StripAll(extra)| :: StripAll(extra)[i].program != MEMO
  {
    LighthouseIsNotMemo();
  }

  lemma CountTail(expected: seq<Instruction>, more: seq<Instruction>, program: Address)
    requires |expected| >= 3 && forall i | 0 <= i < |more| :: more[i].program != program
    ensures Count((expected + more)[3..], program) == Count(expected[3..], program)
  {
    assert (expected + more)[3..] == expected[3..] + more;
    CountAppendNone(expected[3..], more, program);
  }

  lemma LighthouseHarmless(expected: seq<Instruction>, extra: seq<MetaInstruction>, allowLighthouse: bool)
    requires extra == [] || allowLighthouse
    requires forall i | 0 <= i < |extra| :: extra[i].program == LIGHTHOUSE
    ensures forall i | 0 <= i < |StripAll(extra)| :: HarmlessExtra(expected, allowLighthouse, StripAll(extra)[i])
  {
    LighthouseIsNotMemo();
  }

  lemma LighthouseIsNotMemo()
    ensures LIGHTHOUSE != MEMO
  {
    ProgramsDistinct();
    var programs := [TOKEN, TOKEN_2022, ASSOCIATED_TOKEN, COMPUTE_BUDGET, MEMO, LIGHTHOUSE];
    assert programs[4] != programs[5];
  }

  lemma MemoCount(tail: seq<Instruction>, memo: Option<Bytes>)
    requires tail == if memo.Some? then [MemoInstruction(memo.value)] else []
    ensures Count(tail, MEMO) == |tail|
  {
  }

  lemma MemoHarmless(expected: seq<Instruction>, memo: Option<Bytes>, allowLighthouse: bool)
    requires memo.Some? && |expected| == 4 && expected[3] == MemoInstruction(memo.value)
    ensures HarmlessExtra(expected, allowLighthouse, expected[3])
  {
  }

  lemma StripAppend(ixs: seq<MetaInstruction>, extra: seq<MetaInstruction>)
    ensures StripAll(ixs + extra) == StripAll(ixs) + StripAll(extra)
  {
  }

  /** Slots are filled so that the authority's slot verifies over the message. */
  ghost predicate ValidSlots(c: Crypto, g: Groups, ixs: seq<Instruction>, p: Payment, slots: seq<Signature>) {
    var i := IndexOf(g.Keys(), p.authority);
    && |slots| == g.Signers() && 0 <= i < |slots|
    && c.verifies(slots[i], Message(Laid(g, ixs, p.recentBlockhash, slots)), p.authority)
  }

  /** Any layout of the payment plus assertions is accepted once the authority has signed it. */
  lemma GrantingPaymentAccepted(c: Crypto, p: Payment, expected: seq<Instruction>, extra: seq<MetaInstruction>,
                                g: Groups, slots: seq<Signature>, allowLighthouse: bool)
    requires PaymentInstructions(c, p) == Some(expected)
    requires Assertions(p, extra) && |expected| + |extra| <= MAX_INSTRUCTIONS && (extra == [] || allowLighthouse)
    requires Grants(g, p.feePayer, WithRoles(expected) + extra)
    requires |Encode(g, expected + StripAll(extra), p.recentBlockhash)| <= TRANSACTION_LIMIT
    requires ValidSlots(c, g, expected + StripAll(extra), p, slots)
    ensures Accepted(c, Serialize(Laid(g, expected + StripAll(extra), p.recentBlockhash, slots)), p, allowLighthouse)
  {
    var roles := WithRoles(expected) + extra;
    var ixs := expected + StripAll(extra);
    RolesStrip(c, p, expected);
    StripAppend(WithRoles(expected), extra);
    assert StripAll(roles) == ixs;
    GrantingLayoutParses(g, p.feePayer, roles, p.recentBlockhash, slots);
    ExpectedMemo(c, p, expected);
    ExtrasHarmless(expected, extra, p.memo, allowLighthouse);
    AskedByPayment(c, p, expected, extra);
    SignerCount(g, p, roles);
    var tx := Parse(Serialize(Laid(g, ixs, p.recentBlockhash, slots))).value;
    assert IsSigner(tx, p.authority);
    assert IsWritable(tx, expected[2].accounts[0]) && IsWritable(tx, expected[2].accounts[2]);
    assert AcceptedTransaction(c, tx, expected, p, allowLighthouse);
  }

  lemma AskedByPayment(c: Crypto, p: Payment, expected: seq<Instruction>, extra: seq<MetaInstruction>)
    requires PaymentInstructions(c, p) == Some(expected) && Assertions(p, extra)
    ensures var all := WithRoles(expected) + extra;
      && (forall a :: AskedToSign(p.feePayer, all, |all|, a) <==> a == p.feePayer || a == p.authority)
      && AskedToWrite(p.feePayer, all, |all|, expected[2].accounts[0])
      && AskedToWrite(p.feePayer, all, |all|, expected[2].accounts[2])
  {
    var all := WithRoles(expected) + extra;
    PaymentPrograms(c, p, expected, p.authority);
    forall a ensures AskedToSign(p.feePayer, all, |all|, a) <==> a == p.feePayer || a == p.authority {
      RolesAsked(p.feePayer, expected, a);
      TransferAsks(p, expected, extra, a);
    }
    RolesAsked(p.feePayer, expected, expected[2].accounts[0]);
    TransferAsks(p, expected, extra, expected[2].accounts[0]);
    RolesAsked(p.feePayer, expected, expected[2].accounts[2]);
    TransferAsks(p, expected, extra, expected[2].accounts[2]);
  }

  /** The wire with its signature slots replaced. */
  function FillSlots(wire: Bytes, slots: seq<Signature>): Option<Bytes> {
    var raw :- ParseRaw(wire);
    Some(Serialize(raw.(signatures := slots)))
  }

  /** `slots` fill `wire`'s signature slots and hold a valid signature of `signer` over its message. */
  ghost predicate ValidlySigned(c: Crypto, wire: Bytes, slots: seq<Signature>, signer: Address) {
    var tx := Parse(wire);
    tx.Some? && |slots| == |tx.value.signatures| && SignedBy(c, tx.value.(signatures := slots), signer)
  }

  /** The built payment, signed by its authority, is accepted whether or not assertions are allowed. */
  lemma SignedPaymentAccepted(c: Crypto, p: Payment, slots: seq<Signature>, allowLighthouse: bool)
    requires BuildTransfer(c, p).Some? && ValidlySigned(c, BuildTransfer(c, p).value, slots, p.authority)
    ensures FillSlots(BuildTransfer(c, p).value, slots).Some?
    ensures Accepted(c, FillSlots(BuildTransfer(c, p).value, slots).value, p, allowLighthouse)
  {
    hide Accepted, PaymentInstructions, WithRoles, Grants;
    var expected, g := BuiltPayment(c, p);
    GrantingLayoutParses(g, p.feePayer, WithRoles(expected), p.recentBlockhash, EmptySlots(g.Signers()));
    FilledLayout(g, p.feePayer, WithRoles(expected), p.recentBlockhash, slots, BuildTransfer(c, p).value);
    assert WithRoles(expected) + [] == WithRoles(expected) && expected + StripAll([]) == expected;
    GrantingPaymentAccepted(c, p, expected, [], g, slots, allowLighthouse);
  }

  lemma FilledLayout(g: Groups, feePayer: Address, roles: seq<MetaInstruction>, blockhash: Address, slots: seq<Signature>, wire: Bytes)
    requires Grants(g, feePayer, roles) && wire == Encode(g, StripAll(roles), blockhash) && |wire| <= TRANSACTION_LIMIT
    requires |slots| == g.Signers()
    ensures FillSlots(wire, slots) == Some(Serialize(Laid(g, StripAll(roles), blockhash, slots)))
    ensures var tx := Parse(wire);
      tx.Some? && tx.value.message == Message(Laid(g, StripAll(roles), blockhash, slots)) && Faithful(tx.value, g, StripAll(roles), blockhash)
  {
    var empty := EmptySlots(g.Signers());
    GrantingLayoutParses(g, feePayer, roles, blockhash, empty);
    GrantsMention(g, feePayer, roles);
    LaidWellFormed(g, StripAll(roles), blockhash, empty);
    ParseRawExact(wire, Laid(g, StripAll(roles), blockhash, empty));
  }

  /**
   * A wallet may append Lighthouse assertions and recompile: when the result
   * fits a packet, has at most six instructions, asks nobody else to sign and
   * is signed by the authority, it is accepted.
   */
  lemma RecompiledPaymentAccepted(c: Crypto, p: Payment, extra: seq<MetaInstruction>, slots: seq<Signature>)
    requires PaymentInstructions(c, p).Some?
    requires Assertions(p, extra) && |PaymentInstructions(c, p).value| + |extra| <= MAX_INSTRUCTIONS
    requires var wire := Compile(p.feePayer, WithRoles(PaymentInstructions(c, p).value) + extra, p.recentBlockhash);
      |wire| <= TRANSACTION_LIMIT && ValidlySigned(c, wire, slots, p.authority)
    ensures var wire := Compile(p.feePayer, WithRoles(PaymentInstructions(c, p).value) + extra, p.recentBlockhash);
      FillSlots(wire, slots).Some? && Accepted(c, FillSlots(wire, slots).value, p, true)
  {
    var expected := PaymentInstructions(c, p).value;
    var roles := WithRoles(expected) + extra;
    var g := GroupsOf(Metas(p.feePayer, roles));
    var wire := Compile(p.feePayer, roles, p.recentBlockhash);
    CompilerGrants(p.feePayer, roles);
    RolesStrip(c, p, expected);
    StripAppend(WithRoles(expected), extra);
    GrantingLayoutParses(g, p.feePayer, roles, p.recentBlockhash, EmptySlots(g.Signers()));
    FilledLayout(g, p.feePayer, roles, p.recentBlockhash, slots, wire);
    GrantingPaymentAccepted(c, p, expected, extra, g, slots, true);
  }
}
