/** One SPL payment: its instructions, and the hand-laid-out transaction that carries them. */
module SplPayment {
  import opened Bytes
  import opened Programs
  import opened WireFormat
  import opened Transactions
  import opened Layout
  import opened Compiler
  import opened Refinement
  import opened Pda

  const DEFAULT_UNIT_LIMIT := 40_000
  const DEFAULT_UNIT_PRICE := 1
  const MAX_UNIT_LIMIT := 1_400_000
  const MAX_MEMO := 566

  /** The memo is its UTF-8 bytes. */
  datatype Payment = Payment(
    feePayer: Address,
    authority: Address,
    sourceOwner: Option<Address>,
    mint: Address,
    tokenProgram: Address,
    decimals: int,
    recipient: Address,
    amount: int,
    memo: Option<Bytes>,
    recentBlockhash: Address,
    computeUnitLimit: Option<int>,
    computeUnitPrice: Option<int>)
  {
    predicate SelfFunded() { feePayer == authority }
  }

  function GetOr<T>(o: Option<T>, default: T): T {
    if o.Some? then o.value else default
  }

  /** The checked compute unit limit and price. */
  function CheckPayment(p: Payment): (r: Option<(nat, nat)>)
    ensures r.Some? ==> 0 < r.value.0 <= MAX_UNIT_LIMIT && r.value.1 <= U64_MAX
    ensures r.Some? ==> p.tokenProgram in [TOKEN, TOKEN_2022] && 0 <= p.decimals <= 255 && 0 < p.amount <= U64_MAX
    ensures r.Some? ==> p.recipient != p.authority && p.sourceOwner != Some(p.recipient)
  {
    if p.tokenProgram != TOKEN && p.tokenProgram != TOKEN_2022 then None
    else if p.decimals < 0 || p.decimals > 255 then None
    else if p.amount <= 0 || p.amount > U64_MAX then None
    else if p.recipient == p.authority || p.sourceOwner == Some(p.recipient) then None
    else
      var limit := GetOr(p.computeUnitLimit, DEFAULT_UNIT_LIMIT);
      var price := GetOr(p.computeUnitPrice, DEFAULT_UNIT_PRICE);
      if limit <= 0 || limit > MAX_UNIT_LIMIT then None
      else if price < 0 || price > U64_MAX then None
      else Some((limit, price))
  }

  function LimitInstruction(limit: nat): Instruction {
    Instruction(COMPUTE_BUDGET, [], [2] + LittleEndian(limit, 4))
  }

  function PriceInstruction(price: nat): Instruction {
    Instruction(COMPUTE_BUDGET, [], [3] + LittleEndian(price, 8))
  }

  function TransferInstruction(p: Payment, source: Address, destination: Address): Instruction
    requires 0 <= p.amount && 0 <= p.decimals <= 255
  {
    Instruction(p.tokenProgram, [source, p.mint, destination, p.authority], [12] + LittleEndian(p.amount, 8) + [p.decimals])
  }

  function MemoInstruction(memo: Bytes): Instruction {
    Instruction(MEMO, [], memo)
  }

  function PaymentInstructions(c: Crypto, p: Payment): (r: Option<seq<Instruction>>)
    ensures r.Some? ==> CheckPayment(p).Some? && |r.value| == 3 + (if p.memo.Some? then 1 else 0)
    ensures r.Some? ==> |r.value[2].accounts| == 4
  {
    var (limit, price) :- CheckPayment(p);
    var source :- AssociatedToken(c, GetOr(p.sourceOwner, p.authority), p.mint, p.tokenProgram);
    var destination :- AssociatedToken(c, p.recipient, p.mint, p.tokenProgram);
    var base := [LimitInstruction(limit), PriceInstruction(price), TransferInstruction(p, source, destination)];
    if p.memo.None? then Some(base)
    else if p.memo.value == [] || |p.memo.value| > MAX_MEMO then None
    else Some(base + [MemoInstruction(p.memo.value)])
  }

  /** Every condition the payment's checks ask of it. */
  predicate PassesChecks(p: Payment) {
    && p.tokenProgram in [TOKEN, TOKEN_2022] && 0 <= p.decimals <= 255 && 0 < p.amount <= U64_MAX
    && p.recipient != p.authority && p.sourceOwner != Some(p.recipient)
    && 0 < GetOr(p.computeUnitLimit, DEFAULT_UNIT_LIMIT) <= MAX_UNIT_LIMIT
    && 0 <= GetOr(p.computeUnitPrice, DEFAULT_UNIT_PRICE) <= U64_MAX
    && (p.memo.Some? ==> 0 < |p.memo.value| <= MAX_MEMO)
  }

  /** The instructions exist exactly when the payment passes its checks and both token accounts have an address. */
  lemma PaymentInstructionsExist(c: Crypto, p: Payment)
    ensures PaymentInstructions(c, p).Some? <==>
      PassesChecks(p)
      && AssociatedToken(c, GetOr(p.sourceOwner, p.authority), p.mint, p.tokenProgram).Some?
      && AssociatedToken(c, p.recipient, p.mint, p.tokenProgram).Some?
  {
    hide AssociatedToken;
  }

  /** What each instruction says, read back from its bytes: limit, price, the transfer of the amount between the derived accounts, the memo. */
  lemma PaymentInstructionsSay(c: Crypto, p: Payment, ixs: seq<Instruction>)
    requires PaymentInstructions(c, p) == Some(ixs)
    ensures |ixs| == (if p.memo.Some? then 4 else 3)
    ensures ixs[0].program == ixs[1].program == COMPUTE_BUDGET && ixs[0].accounts == ixs[1].accounts == []
    ensures |ixs[0].data| == 5 && ixs[0].data[0] == 2
      && FromLittleEndian(ixs[0].data[1..]) == GetOr(p.computeUnitLimit, DEFAULT_UNIT_LIMIT)
    ensures |ixs[1].data| == 9 && ixs[1].data[0] == 3
      && FromLittleEndian(ixs[1].data[1..]) == GetOr(p.computeUnitPrice, DEFAULT_UNIT_PRICE)
    ensures ixs[2].program == p.tokenProgram && |ixs[2].data| == 10 && ixs[2].data[0] == 12
      && FromLittleEndian(ixs[2].data[1..9]) == p.amount && ixs[2].data[9] == p.decimals
    ensures |ixs[2].accounts| == 4 && ixs[2].accounts[1] == p.mint && ixs[2].accounts[3] == p.authority
      && Some(ixs[2].accounts[0]) == AssociatedToken(c, GetOr(p.sourceOwner, p.authority), p.mint, p.tokenProgram)
      && Some(ixs[2].accounts[2]) == AssociatedToken(c, p.recipient, p.mint, p.tokenProgram)
    ensures p.memo.Some? ==> ixs[3] == Instruction(MEMO, [], p.memo.value)
  {
    hide LittleEndian, FromLittleEndian, AssociatedToken;
    var limit, price := GetOr(p.computeUnitLimit, DEFAULT_UNIT_LIMIT), GetOr(p.computeUnitPrice, DEFAULT_UNIT_PRICE);
    IntegerWidths();
    LittleEndianRoundTrip(limit, 4);
    LittleEndianRoundTrip(price, 8);
    LittleEndianRoundTrip(p.amount, 8);
    assert ixs[0].data[1..] == LittleEndian(limit, 4) && ixs[1].data[1..] == LittleEndian(price, 8);
    assert ixs[2].data[1..9] == LittleEndian(p.amount, 8);
  }

  // ---- The hand-laid-out encoder ------------------------------------------

  function PaymentGroups(p: Payment, source: Address, destination: Address): Groups {
    Groups([p.feePayer], if p.SelfFunded() then [] else [p.authority], [source, destination],
           [p.mint, p.tokenProgram, COMPUTE_BUDGET] + (if p.memo.Some? then [MEMO] else []))
  }

  function BuildTransfer(c: Crypto, p: Payment): Option<Bytes> {
    var ixs :- PaymentInstructions(c, p);
    var g := PaymentGroups(p, ixs[2].accounts[0], ixs[2].accounts[2]);
    if !Distinct(g.Keys()) then None
    else
      var wire := Encode(g, ixs, p.recentBlockhash);
      if |wire| > TRANSACTION_LIMIT then None else Some(wire)
  }

  /** The same instructions with the roles a transfer gives its accounts. */
  function WithRoles(ixs: seq<Instruction>): seq<MetaInstruction>
    requires |ixs| >= 3 && |ixs[2].accounts| == 4
  {
    var t := ixs[2].accounts;
    seq(|ixs|, i requires 0 <= i < |ixs| =>
      MetaInstruction(ixs[i].program,
        if i == 2 then [Meta(t[0], false, true), Meta(t[1], false, false), Meta(t[2], false, true), Meta(t[3], true, false)] else [],
        ixs[i].data))
  }

  lemma RolesStrip(c: Crypto, p: Payment, ixs: seq<Instruction>)
    requires PaymentInstructions(c, p) == Some(ixs)
    ensures StripAll(WithRoles(ixs)) == ixs
  {
    forall i | 0 <= i < |ixs| ensures StripAll(WithRoles(ixs))[i] == ixs[i] {
      assert i != 2 ==> ixs[i].accounts == [];
      assert Strip(WithRoles(ixs)[i]).accounts == ixs[i].accounts;
    }
  }

  lemma TransferUses(t: seq<Address>, a: Address)
    requires |t| == 4
    ensures var accounts := [Meta(t[0], false, true), Meta(t[1], false, false), Meta(t[2], false, true), Meta(t[3], true, false)];
      && (SignerIn(accounts, a) <==> a == t[3])
      && (WritableIn(accounts, a) <==> a == t[0] || a == t[2])
      && (UsedIn(accounts, a) <==> a in t)
  {
    var accounts := [Meta(t[0], false, true), Meta(t[1], false, false), Meta(t[2], false, true), Meta(t[3], true, false)];
    assert accounts[0].address == t[0] && accounts[1].address == t[1] && accounts[2].address == t[2] && accounts[3].address == t[3];
  }

  /** The privileges a payment asks for, spelled out. */
  lemma RolesAsked(feePayer: Address, ixs: seq<Instruction>, a: Address)
    requires |ixs| >= 3 && |ixs[2].accounts| == 4
    ensures var roles, t := WithRoles(ixs), ixs[2].accounts;
      && (AskedToSign(feePayer, roles, |roles|, a) <==> a == feePayer || a == t[3])
      && (AskedToWrite(feePayer, roles, |roles|, a) <==> a == feePayer || a == t[0] || a == t[2])
      && (Referenced(feePayer, roles, |roles|, a) <==> a == feePayer || a in t || exists i :: 0 <= i < |ixs| && ixs[i].program == a)
  {
    var roles, t := WithRoles(ixs), ixs[2].accounts;
    TransferUses(t, a);
    assert forall i | 0 <= i < |roles| :: roles[i].program == ixs[i].program && (i != 2 ==> roles[i].accounts == []);
    if a == t[3] { assert SignerIn(roles[2].accounts, a); }
    if a == t[0] || a == t[2] { assert WritableIn(roles[2].accounts, a); }
    if a in t { assert UsedIn(roles[2].accounts, a); }
    if i :| 0 <= i < |ixs| && ixs[i].program == a { assert roles[i].program == a; }
  }

  lemma PaymentPrograms(c: Crypto, p: Payment, ixs: seq<Instruction>, a: Address)
    requires PaymentInstructions(c, p) == Some(ixs)
    ensures (exists i :: 0 <= i < |ixs| && ixs[i].program == a)
       <==> a == COMPUTE_BUDGET || a == p.tokenProgram || (p.memo.Some? && a == MEMO)
    ensures ixs[2].accounts[1] == p.mint && ixs[2].accounts[3] == p.authority
  {
    assert ixs[0].program == COMPUTE_BUDGET && ixs[1].program == COMPUTE_BUDGET && ixs[2].program == p.tokenProgram;
    if p.memo.Some? { assert ixs[3].program == MEMO; }
  }

  lemma PaymentGroupMembers(p: Payment, source: Address, destination: Address, a: Address)
    ensures var g := PaymentGroups(p, source, destination);
      && (a in g.signed || a in g.readonlySigned <==> a == p.feePayer || a == p.authority)
      && (a in g.signed || a in g.writable <==> a == p.feePayer || a == source || a == destination)
      && (a in g.Keys() <==> (a == p.feePayer || a == p.authority || a == source || a == destination
                              || a == p.mint || a == p.tokenProgram || a == COMPUTE_BUDGET || (p.memo.Some? && a == MEMO)))
  {
    var g := PaymentGroups(p, source, destination);
    var keys := g.Keys();
    assert a in keys <==> a in g.signed || a in g.readonlySigned || a in g.writable || a in g.readonly;
    assert a in g.readonly <==> a in [p.mint, p.tokenProgram, COMPUTE_BUDGET] || (p.memo.Some? && a == MEMO);
  }

  /** The hand-written groups are exactly the privileges the instructions ask for. */
  lemma RolesMeaning(c: Crypto, p: Payment, ixs: seq<Instruction>, a: Address)
    requires PaymentInstructions(c, p) == Some(ixs)
    ensures var roles := WithRoles(ixs);
            var g := PaymentGroups(p, ixs[2].accounts[0], ixs[2].accounts[2]);
      && (AskedToSign(p.feePayer, roles, |roles|, a) <==> a in g.signed || a in g.readonlySigned)
      && (AskedToWrite(p.feePayer, roles, |roles|, a) <==> a in g.signed || a in g.writable)
      && (Referenced(p.feePayer, roles, |roles|, a) <==> a in g.Keys())
  {
    hide PaymentInstructions, PaymentGroups, WithRoles, AskedToSign, AskedToWrite;
    var t := ixs[2].accounts;
    RolesAsked(p.feePayer, ixs, a);
    PaymentPrograms(c, p, ixs, a);
    PaymentGroupMembers(p, t[0], t[2], a);
    assert a in t <==> a == t[0] || a == t[1] || a == t[2] || a == t[3];
  }

  lemma PaymentGrants(c: Crypto, p: Payment, ixs: seq<Instruction>)
    requires PaymentInstructions(c, p) == Some(ixs) && BuildTransfer(c, p).Some?
    ensures Grants(PaymentGroups(p, ixs[2].accounts[0], ixs[2].accounts[2]), p.feePayer, WithRoles(ixs))
  {
    forall a {
      RolesMeaning(c, p, ixs, a);
    }
  }

  /** A built payment is a granting layout of its instructions that fits a packet. */
  lemma BuiltPayment(c: Crypto, p: Payment) returns (ixs: seq<Instruction>, g: Groups)
    requires BuildTransfer(c, p).Some?
    ensures PaymentInstructions(c, p) == Some(ixs) && StripAll(WithRoles(ixs)) == ixs
    ensures Grants(g, p.feePayer, WithRoles(ixs))
    ensures BuildTransfer(c, p) == Some(Encode(g, ixs, p.recentBlockhash))
    ensures |Encode(g, ixs, p.recentBlockhash)| <= TRANSACTION_LIMIT
  {
    ixs := PaymentInstructions(c, p).value;
    g := PaymentGroups(p, ixs[2].accounts[0], ixs[2].accounts[2]);
    RolesStrip(c, p, ixs);
    PaymentGrants(c, p, ixs);
  }

  // ---- A payment always fits a packet -------------------------------------

  lemma ShortPrefix(n: nat)
    requires n < 0x4000
    ensures |ShortVec(n)| <= 2 && (n < 128 ==> |ShortVec(n)| == 1)
  {
    ShortVecForms(n);
  }

  lemma InstructionSize(keys: seq<Address>, ix: Instruction)
    requires |ix.accounts| < 128 && |ix.data| < 0x4000
    ensures |InstructionBytes(IndexInstruction(keys, ix))| <= |ix.accounts| + |ix.data| + 4
  {
    ShortPrefix(|ix.accounts|);
    ShortPrefix(|ix.data|);
  }

  lemma ConcatStep(raw: seq<RawInstruction>, size: nat)
    requires raw != [] && |InstructionBytes(raw[0])| <= size
    ensures |Concat(InstructionBytes, raw)| <= size + |Concat(InstructionBytes, raw[1..])|
  {
  }

  lemma FourInstructions(keys: seq<Address>, ixs: seq<Instruction>, raw: seq<RawInstruction>)
    requires 3 <= |ixs| <= 4 && |raw| == |ixs| && forall i | 0 <= i < |ixs| :: raw[i] == IndexInstruction(keys, ixs[i])
    requires forall i | 0 <= i < |ixs| :: |ixs[i].accounts| <= 4 && |ixs[i].data| <= MAX_MEMO
    requires forall i | 0 <= i < 3 :: |ixs[i].data| <= 10
    ensures |Concat(InstructionBytes, raw)| <= 640
  {
    hide InstructionBytes, IndexInstruction;
    forall i | 0 <= i < |ixs| ensures |InstructionBytes(raw[i])| <= if i < 3 then 18 else 574 {
      InstructionSize(keys, ixs[i]);
    }
    ConcatStep(raw, 18);
    ConcatStep(raw[1..], 18);
    assert raw[1..][1..] == raw[2..];
    ConcatStep(raw[2..], 18);
    assert raw[2..][1..] == raw[3..];
    if |raw| == 4 {
      ConcatStep(raw[3..], 574);
      assert raw[3..][1..] == [];
    }
  }

  lemma LaidSize(g: Groups, ixs: seq<Instruction>, blockhash: Address)
    requires |g.Keys()| <= 8 && g.Signers() <= 2 && |ixs| <= 4
    requires |Concat(InstructionBytes, Laid(g, ixs, blockhash, EmptySlots(g.Signers())).instructions)| <= 640
    ensures |Encode(g, ixs, blockhash)| <= TRANSACTION_LIMIT
  {
    var slots := EmptySlots(g.Signers());
    var t := Laid(g, ixs, blockhash, slots);
    ConcatLength(SignatureBytes, slots, 64);
    ConcatLength(KeyBytes, t.accountKeys, 32);
    ShortPrefix(|slots|);
    ShortPrefix(|t.accountKeys|);
    ShortPrefix(|ixs|);
    assert |Body(t)| <= 32 + 1 + 640 + 1;
    assert |Message(t)| <= 4 + 1 + 256 + 674;
  }

  lemma PaymentShape(c: Crypto, p: Payment, ixs: seq<Instruction>)
    requires PaymentInstructions(c, p) == Some(ixs)
    ensures forall i | 0 <= i < |ixs| :: |ixs[i].accounts| <= 4 && |ixs[i].data| <= MAX_MEMO
    ensures forall i | 0 <= i < 3 :: |ixs[i].data| <= 10
  {
  }

  /** A payment is built exactly when it passes its checks and its accounts do not overlap: the size limit never refuses one. */
  lemma BuiltWhenDistinct(c: Crypto, p: Payment)
    ensures BuildTransfer(c, p).Some? <==>
      PaymentInstructions(c, p).Some? && var ixs := PaymentInstructions(c, p).value;
      Distinct(PaymentGroups(p, ixs[2].accounts[0], ixs[2].accounts[2]).Keys())
  {
    if PaymentInstructions(c, p).Some? {
      var ixs := PaymentInstructions(c, p).value;
      var g := PaymentGroups(p, ixs[2].accounts[0], ixs[2].accounts[2]);
      PaymentShape(c, p, ixs);
      hide PaymentInstructions, Encode;
      FourInstructions(g.Keys(), ixs, Laid(g, ixs, p.recentBlockhash, EmptySlots(g.Signers())).instructions);
      LaidSize(g, ixs, p.recentBlockhash);
    }
  }

  // ---- Refinement ---------------------------------------------------------

  /**
   * The hand-laid-out payment refines the general compiler: whenever it is
   * built, self-funded or sponsored, it and the compiled transaction of the
   * same instructions parse to the same meaning.
   */
  lemma PaymentRefinesCompiler(c: Crypto, p: Payment)
    requires BuildTransfer(c, p).Some?
    ensures PaymentInstructions(c, p).Some?
    ensures var ixs := PaymentInstructions(c, p).value;
            var hand, general := Parse(BuildTransfer(c, p).value), Parse(Compile(p.feePayer, WithRoles(ixs), p.recentBlockhash));
      && hand.Some? && general.Some? && SameMeaning(hand.value, general.value)
      && hand.value.accountKeys[0] == p.feePayer && hand.value.recentBlockhash == p.recentBlockhash
      && hand.value.instructions == ixs
  {
    var ixs, g := BuiltPayment(c, p);
    GrantingLayoutRefinesCompiler(g, p.feePayer, WithRoles(ixs), p.recentBlockhash);
  }
}
