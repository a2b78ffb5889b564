/** Opening a payment channel: the canonical transaction and the check of the signed one. */
module Channel {
  import opened Bytes
  import opened Programs
  import opened WireFormat
  import opened Transactions
  import opened Layout
  import opened Compiler
  import opened Refinement
  import opened Pda
  import opened SplVerify
  import opened Mint
  import Reading

  const MAX_OPEN_INSTRUCTIONS := 6
  const U32_MAX := 0xFFFF_FFFF
  // "channel" and "event_authority"
  const CHANNEL_SEED: Bytes := [99, 104, 97, 110, 110, 101, 108]
  const EVENT_AUTHORITY_SEED: Bytes := [101, 118, 101, 110, 116, 95, 97, 117, 116, 104, 111, 114, 105, 116, 121]

  datatype MintAccount = MintAccount(address: Address, owner: Address, data: Bytes)

  datatype OpenChannel = OpenChannel(
    programAddress: Option<Address>,
    feePayer: Address,
    payer: Address,
    payee: Address,
    mint: Address,
    authorizedSigner: Address,
    salt: int,
    openSlot: int,
    mintAccount: MintAccount,
    deposit: int,
    gracePeriod: int,
    recentBlockhash: Address)
  {
    function Program(): Address {
      match programAddress
      case None => CHANNEL_PROGRAM
      case Some(a) => a
    }
  }

  function U64(v: int): (r: Option<Bytes>)
    ensures r.Some? <==> 0 <= v <= U64_MAX
    ensures r.Some? ==> |r.value| == 8
  {
    if v < 0 || v > U64_MAX then None else Some(LittleEndian(v, 8))
  }

  function U32(v: int): (r: Option<Bytes>)
    ensures r.Some? <==> 0 <= v <= U32_MAX
    ensures r.Some? ==> |r.value| == 4
  {
    if v < 0 || v > U32_MAX then None else Some(LittleEndian(v, 4))
  }

  function ChannelPda(c: Crypto, input: OpenChannel): Option<Address> {
    var salt :- U64(input.salt);
    var slot :- U64(input.openSlot);
    var (a, _) :- Derive(c, CHANNEL_SEED + input.payer + input.payee + input.mint + input.authorizedSigner + salt + slot,
                         input.Program());
    Some(a)
  }

  /** The addresses an open refers to besides its input. */
  datatype Derived = Derived(channel: Address, eventAuthority: Address, payerTokens: Address, channelTokens: Address, tokenProgram: Address)

  function DeriveAccounts(c: Crypto, input: OpenChannel): Option<Derived> {
    var (tokenProgram, _) :- ReadMint(input.mintAccount.owner, input.mintAccount.data);
    var channel :- ChannelPda(c, input);
    var (eventAuthority, _) :- Derive(c, EVENT_AUTHORITY_SEED, input.Program());
    var payerTokens :- AssociatedToken(c, input.payer, input.mint, tokenProgram);
    var channelTokens :- AssociatedToken(c, channel, input.mint, tokenProgram);
    Some(Derived(channel, eventAuthority, payerTokens, channelTokens, tokenProgram))
  }

  function OpenData(input: OpenChannel): (r: Option<Bytes>)
    ensures r.Some? ==> |r.value| == 33
  {
    var salt :- U64(input.salt);
    var deposit :- U64(input.deposit);
    var grace :- U32(input.gracePeriod);
    var slot :- U64(input.openSlot);
    Some([1] + salt + deposit + grace + slot + LittleEndian(0, 4))
  }

  function OpenAccounts(input: OpenChannel, d: Derived): (r: seq<Meta>)
    ensures |r| == 14
  {
    [Meta(input.payer, true, true),
     Meta(input.feePayer, true, true),
     Meta(input.payee, false, false),
     Meta(input.mint, false, false),
     Meta(input.authorizedSigner, false, false),
     Meta(d.channel, false, true),
     Meta(d.payerTokens, false, true),
     Meta(d.channelTokens, false, true),
     Meta(d.tokenProgram, false, false),
     Meta(SYSTEM, false, false),
     Meta(RENT, false, false),
     Meta(ASSOCIATED_TOKEN, false, false),
     Meta(d.eventAuthority, false, false),
     Meta(input.Program(), false, false)]
  }

  function OpenInstruction(c: Crypto, input: OpenChannel): (r: Option<MetaInstruction>)
    ensures r.Some? ==> |r.value.accounts| == 14 && |r.value.data| == 33 && 0 < input.deposit <= U64_MAX
  {
    if input.mint != input.mintAccount.address then None
    else if input.deposit <= 0 || input.deposit > U64_MAX then None
    else
      var d :- DeriveAccounts(c, input);
      var data :- OpenData(input);
      Some(MetaInstruction(input.Program(), OpenAccounts(input, d), data))
  }

  function BuildOpen(c: Crypto, input: OpenChannel): Option<Bytes> {
    var open :- OpenInstruction(c, input);
    Some(Compile(input.feePayer, [open], input.recentBlockhash))
  }

  lemma OpenDataReads(input: OpenChannel, data: Bytes)
    requires OpenData(input) == Some(data)
    ensures data[0] == 1 && FromLittleEndian(data[1..9]) == input.salt && FromLittleEndian(data[9..17]) == input.deposit
    ensures FromLittleEndian(data[17..21]) == input.gracePeriod && FromLittleEndian(data[21..29]) == input.openSlot
  {
    hide LittleEndian, FromLittleEndian;
    IntegerWidths();
    LittleEndianRoundTrip(input.salt, 8);
    LittleEndianRoundTrip(input.deposit, 8);
    LittleEndianRoundTrip(input.gracePeriod, 4);
    LittleEndianRoundTrip(input.openSlot, 8);
    assert data[1..9] == LittleEndian(input.salt, 8) && data[9..17] == LittleEndian(input.deposit, 8);
    assert data[17..21] == LittleEndian(input.gracePeriod, 4) && data[21..29] == LittleEndian(input.openSlot, 8);
  }

  /** The open's bytes say which deposit, grace period, salt and slot, and only payer, fee payer and the channel's three accounts may change. */
  lemma OpenCarriesInput(c: Crypto, input: OpenChannel)
    requires OpenInstruction(c, input).Some?
    ensures var open := OpenInstruction(c, input).value;
      && FromLittleEndian(open.data[1..9]) == input.salt && FromLittleEndian(open.data[9..17]) == input.deposit
      && FromLittleEndian(open.data[17..21]) == input.gracePeriod && FromLittleEndian(open.data[21..29]) == input.openSlot
      && Some(open.accounts[5].address) == ChannelPda(c, input)
      && (forall i | 0 <= i < 14 :: open.accounts[i].signer <==> i < 2)
      && (forall i | 0 <= i < 14 :: open.accounts[i].writable <==> i < 2 || 5 <= i <= 7)
  {
    hide OpenData, ChannelPda;
    OpenDataReads(input, OpenInstruction(c, input).value.data);
  }

  /** Where the open's addresses come from: the seeds of each derived one are spelled out. */
  ghost predicate OpenAddresses(c: Crypto, input: OpenChannel, a: seq<Address>)
    requires |a| == 14 && 0 <= input.salt && 0 <= input.openSlot
  {
    var program := if input.programAddress.Some? then input.programAddress.value else CHANNEL_PROGRAM;
    var owner := input.mintAccount.owner;
    && a[0] == input.payer && a[1] == input.feePayer && a[2] == input.payee && a[3] == input.mint
    && a[4] == input.authorizedSigner
    && HighestOffCurve(c, CHANNEL_SEED + input.payer + input.payee + input.mint + input.authorizedSigner
                          + LittleEndian(input.salt, 8) + LittleEndian(input.openSlot, 8), program, a[5])
    && HighestOffCurve(c, input.payer + owner + input.mint, ASSOCIATED_TOKEN, a[6])
    && HighestOffCurve(c, a[5] + owner + input.mint, ASSOCIATED_TOKEN, a[7])
    && a[8] == owner && a[9] == SYSTEM && a[10] == RENT && a[11] == ASSOCIATED_TOKEN
    && HighestOffCurve(c, EVENT_AUTHORITY_SEED, program, a[12])
    && a[13] == program
  }

  lemma ChannelHash(c: Crypto, input: OpenChannel)
    requires ChannelPda(c, input).Some?
    ensures 0 <= input.salt <= U64_MAX && 0 <= input.openSlot <= U64_MAX
    ensures HighestOffCurve(c, CHANNEL_SEED + input.payer + input.payee + input.mint + input.authorizedSigner
                               + LittleEndian(input.salt, 8) + LittleEndian(input.openSlot, 8),
                            input.Program(), ChannelPda(c, input).value)
  {
    hide LittleEndian, HighestOffCurve;
    DerivedIsHighest(c, CHANNEL_SEED + input.payer + input.payee + input.mint + input.authorizedSigner
                        + LittleEndian(input.salt, 8) + LittleEndian(input.openSlot, 8), input.Program());
  }

  lemma DerivedShape(c: Crypto, input: OpenChannel, d: Derived)
    requires DeriveAccounts(c, input) == Some(d)
    ensures ChannelPda(c, input) == Some(d.channel) && d.tokenProgram == input.mintAccount.owner
    ensures Derive(c, EVENT_AUTHORITY_SEED, input.Program()).Some?
      && d.eventAuthority == Derive(c, EVENT_AUTHORITY_SEED, input.Program()).value.0
    ensures AssociatedToken(c, input.payer, input.mint, d.tokenProgram) == Some(d.payerTokens)
    ensures AssociatedToken(c, d.channel, input.mint, d.tokenProgram) == Some(d.channelTokens)
  {
    hide ChannelPda, AssociatedToken, Derive, ScreenedExtensions;
  }

  function Addresses(accounts: seq<Meta>): (r: seq<Address>)
    ensures |r| == |accounts|
  {
    seq(|accounts|, i requires 0 <= i < |accounts| => accounts[i].address)
  }

  lemma AddressesAt(input: OpenChannel, d: Derived)
    ensures var a := Addresses(OpenAccounts(input, d));
      && a[0] == input.payer && a[1] == input.feePayer && a[2] == input.payee && a[3] == input.mint
      && a[4] == input.authorizedSigner && a[5] == d.channel && a[6] == d.payerTokens && a[7] == d.channelTokens
      && a[8] == d.tokenProgram && a[9] == SYSTEM && a[10] == RENT && a[11] == ASSOCIATED_TOKEN
      && a[12] == d.eventAuthority && a[13] == input.Program()
  {
  }

  lemma DerivedAccounts(c: Crypto, input: OpenChannel, d: Derived)
    requires DeriveAccounts(c, input) == Some(d)
    ensures 0 <= input.salt && 0 <= input.openSlot && OpenAddresses(c, input, Addresses(OpenAccounts(input, d)))
  {
    hide HighestOffCurve, ChannelPda, AssociatedToken, Derive, LittleEndian, DeriveAccounts, OpenAccounts, Addresses;
    AddressesAt(input, d);
    DerivedShape(c, input, d);
    ChannelHash(c, input);
    DerivedIsHighest(c, EVENT_AUTHORITY_SEED, input.Program());
    AssociatedTokenHash(c, input.payer, input.mint, input.mintAccount.owner);
    AssociatedTokenHash(c, d.channel, input.mint, input.mintAccount.owner);
  }

  lemma ParsedOpen(c: Crypto, input: OpenChannel)
    requires BuildOpen(c, input).Some?
    ensures OpenInstruction(c, input).Some? && Parse(BuildOpen(c, input).value).Some?
    ensures Parse(BuildOpen(c, input).value).value.instructions == [Strip(OpenInstruction(c, input).value)]
  {
    hide OpenInstruction, Grants, Serialize, Parse;
    var open, g := CanonicalOpen(c, input);
    GrantingLayoutParses(g, input.feePayer, [open], input.recentBlockhash, EmptySlots(g.Signers()));
    assert StripAll([open]) == [Strip(open)];
  }

  lemma OpenParts(c: Crypto, input: OpenChannel)
    requires OpenInstruction(c, input).Some?
    ensures DeriveAccounts(c, input).Some? && OpenInstruction(c, input).value.program == input.Program()
    ensures OpenInstruction(c, input).value.accounts == OpenAccounts(input, DeriveAccounts(c, input).value)
  {
    hide DeriveAccounts, OpenAccounts, OpenData;
  }

  /** The parsed canonical open names its program and its fourteen accounts, each in its place. */
  lemma OpenNamesAccounts(c: Crypto, input: OpenChannel)
    requires BuildOpen(c, input).Some?
    ensures Parse(BuildOpen(c, input).value).Some? && 0 <= input.salt && 0 <= input.openSlot
    ensures var ixs := Parse(BuildOpen(c, input).value).value.instructions;
      && |ixs| == 1 && |ixs[0].accounts| == 14 && OpenAddresses(c, input, ixs[0].accounts)
      && ixs[0].program == if input.programAddress.Some? then input.programAddress.value else CHANNEL_PROGRAM
  {
    hide BuildOpen, Parse, OpenAddresses, OpenAccounts, OpenInstruction, DeriveAccounts;
    ParsedOpen(c, input);
    OpenParts(c, input);
    var open, d := OpenInstruction(c, input).value, DeriveAccounts(c, input).value;
    DerivedAccounts(c, input, d);
    assert Strip(open).accounts == Addresses(OpenAccounts(input, d));
  }

  // ---- The canonical open always fits a packet ----------------------------

  lemma {:induction false} SetNoLarger<T>(s: seq<T>)
    ensures |ToSet(s)| <= |s|
  {
    if s != [] {
      SetNoLarger(s[1..]);
      assert ToSet(s) == {s[0]} + ToSet(s[1..]);
    }
  }

  lemma Subset<T>(s: set<T>, t: set<T>)
    requires s <= t
    ensures |s| <= |t|
  {
    assert t == s + (t - s);
  }

  lemma DistinctWithin<T>(s: seq<T>, t: seq<T>)
    requires Distinct(s) && forall x :: x in s ==> x in t
    ensures |s| <= |t|
  {
    DistinctCard(s);
    SetNoLarger(t);
    Subset(ToSet(s), ToSet(t));
  }

  /** Only the payer and the fee payer are asked to sign an open. */
  lemma OpenFirstTwo(c: Crypto, input: OpenChannel, open: MetaInstruction)
    requires OpenInstruction(c, input) == Some(open)
    ensures open.accounts[0] == Meta(input.payer, true, true) && open.accounts[1] == Meta(input.feePayer, true, true)
    ensures forall i | 2 <= i < 14 :: !open.accounts[i].signer
  {
    hide OpenData, DeriveAccounts;
  }

  lemma OpenSigners(c: Crypto, input: OpenChannel, open: MetaInstruction)
    requires OpenInstruction(c, input) == Some(open)
    ensures forall a :: AskedToSign(input.feePayer, [open], 1, a) <==> a == input.feePayer || a == input.payer
  {
    hide UsedIn, WritableIn, OpenInstruction;
    var accounts := open.accounts;
    OpenFirstTwo(c, input, open);
    forall a ensures AskedToSign(input.feePayer, [open], 1, a) <==> a == input.feePayer || a == input.payer {
      assert SignerIn(accounts, input.payer);
      assert SignerIn([open][0].accounts, a) ==> a == input.feePayer || a == input.payer;
    }
  }

  lemma OneInstructionKeys(feePayer: Address, ix: MetaInstruction, g: Groups)
    requires Grants(g, feePayer, [ix])
    ensures |g.Keys()| <= |ix.accounts| + 2
  {
    var addresses := Strip(ix).accounts;
    var all := addresses + [feePayer, ix.program];
    forall a | a in g.Keys() ensures a in all {
      assert Referenced(feePayer, [ix], 1, a);
      if UsedIn(ix.accounts, a) {
        var j :| 0 <= j < |ix.accounts| && ix.accounts[j].address == a;
        assert addresses[j] == a;
      }
    }
    DistinctWithin(g.Keys(), all);
  }

  lemma SmallShortVec(n: nat)
    requires n < 128
    ensures |ShortVec(n)| == 1
  {
  }

  lemma OneInstructionSize(g: Groups, ix: Instruction, blockhash: Address)
    requires |g.Keys()| <= 16 && g.Signers() <= 2 && |ix.accounts| == 14 && |ix.data| == 33
    ensures |Encode(g, [ix], blockhash)| <= TRANSACTION_LIMIT
  {
    var slots := EmptySlots(g.Signers());
    var t := Laid(g, [ix], blockhash, slots);
    ConcatLength(SignatureBytes, slots, 64);
    ConcatLength(KeyBytes, t.accountKeys, 32);
    SmallShortVec(|slots|);
    SmallShortVec(|t.accountKeys|);
    SmallShortVec(1);
    assert |InstructionBytes(t.instructions[0])| == 50;
    assert Concat(InstructionBytes, t.instructions) == InstructionBytes(t.instructions[0]) + [];
    assert |Body(t)| == 84;
    assert |Message(t)| <= 4 + 1 + 512 + 84;
  }

  /** What the canonical open grants, and that it fits a packet. */
  lemma CanonicalOpen(c: Crypto, input: OpenChannel) returns (open: MetaInstruction, g: Groups)
    requires BuildOpen(c, input).Some?
    ensures OpenInstruction(c, input) == Some(open) && g == GroupsOf(Metas(input.feePayer, [open]))
    ensures BuildOpen(c, input) == Some(Encode(g, StripAll([open]), input.recentBlockhash))
    ensures Grants(g, input.feePayer, [open])
    ensures |Encode(g, StripAll([open]), input.recentBlockhash)| <= TRANSACTION_LIMIT
    ensures forall a :: AskedToSign(input.feePayer, [open], 1, a) <==> a == input.feePayer || a == input.payer
  {
    open := OpenInstruction(c, input).value;
    g := GroupsOf(Metas(input.feePayer, [open]));
    CompilerGrants(input.feePayer, [open]);
    OpenSigners(c, input, open);
    OneInstructionKeys(input.feePayer, open, g);
    OpenSignerCount(g, input, open);
    assert StripAll([open]) == [Strip(open)];
    OneInstructionSize(g, Strip(open), input.recentBlockhash);
  }

  lemma OpenSignerCount(g: Groups, input: OpenChannel, open: MetaInstruction)
    requires Grants(g, input.feePayer, [open])
    requires forall a :: AskedToSign(input.feePayer, [open], 1, a) <==> a == input.feePayer || a == input.payer
    ensures g.Signers() == |{input.feePayer, input.payer}|
  {
    var s := g.signed + g.readonlySigned;
    PrefixDistinct(s, g.writable + g.readonly, g.Keys());
    DistinctCard(s);
    forall a ensures a in s <==> a in {input.feePayer, input.payer} {
      assert AskedToSign(input.feePayer, [open], 1, a) <==> (a in g.signed || a in g.readonlySigned);
    }
    assert ToSet(s) == {input.feePayer, input.payer};
  }

  // ---- The check ----------------------------------------------------------

  predicate SamePermissions(got: Transaction, wanted: Transaction, a: Address) {
    (IsSigner(got, a) <==> IsSigner(wanted, a)) && (IsWritable(got, a) <==> IsWritable(wanted, a))
  }

  predicate AcceptedOpenTransaction(c: Crypto, got: Transaction, wanted: Transaction, input: OpenChannel) {
    && got.accountKeys != [] && got.accountKeys[0] == input.feePayer
    && got.recentBlockhash == input.recentBlockhash
    && got.numRequiredSignatures == wanted.numRequiredSignatures
    && 0 < |got.instructions| <= MAX_OPEN_INSTRUCTIONS
    && wanted.instructions != [] && got.instructions[0] == wanted.instructions[0]
    && (forall i | 0 <= i < |wanted.accountKeys| :: SamePermissions(got, wanted, wanted.accountKeys[i]))
    && (forall i | 1 <= i < |got.instructions| :: got.instructions[i].program == LIGHTHOUSE)
    && SignedBy(c, got, input.payer)
  }

  predicate AcceptedOpen(c: Crypto, signed: Bytes, input: OpenChannel) {
    var wire := BuildOpen(c, input);
    wire.Some? && Parse(wire.value).Some? && Parse(signed).Some?
    && AcceptedOpenTransaction(c, Parse(signed).value, Parse(wire.value).value, input)
  }

  method CheckOpen(c: Crypto, got: Transaction, wanted: Transaction, input: OpenChannel) returns (ok: bool)
    requires got.accountKeys != []
    ensures ok <==> AcceptedOpenTransaction(c, got, wanted, input)
  {
    if got.accountKeys[0] != input.feePayer { return false; }
    if got.recentBlockhash != input.recentBlockhash { return false; }
    if got.numRequiredSignatures != wanted.numRequiredSignatures || |got.instructions| == 0 || |got.instructions| > MAX_OPEN_INSTRUCTIONS {
      return false;
    }
    if |wanted.instructions| == 0 { return false; }
    var same := SameInstruction(got.instructions[0], wanted.instructions[0]);
    if !same { return false; }
    for i := 0 to |wanted.accountKeys|
      invariant forall j | 0 <= j < i :: SamePermissions(got, wanted, wanted.accountKeys[j])
    {
      if !SamePermissions(got, wanted, wanted.accountKeys[i]) { return false; }
    }
    for i := 1 to |got.instructions|
      invariant forall j | 1 <= j < i :: got.instructions[j].program == LIGHTHOUSE
    {
      if got.instructions[i].program != LIGHTHOUSE { return false; }
    }
    return SignedBy(c, got, input.payer);
  }

  method VerifySignedChannelOpen(c: Crypto, signed: Bytes, input: OpenChannel) returns (result: Option<Bytes>)
    ensures result == if AcceptedOpen(c, signed, input) then Some(signed) else None
  {
    var unsigned := BuildOpen(c, input);
    if unsigned.None? { return None; }
    var wanted :- Reading.ParseSolanaTransaction(unsigned.value);
    var got :- Reading.ParseSolanaTransaction(signed);
    ParsedShape(signed);
    var ok := CheckOpen(c, got, wanted, input);
    return if ok then Some(signed) else None;
  }

  // ---- Soundness ----------------------------------------------------------

  lemma {:induction false} FullCardDistinct<T>(s: seq<T>)
    requires |ToSet(s)| == |s|
    ensures Distinct(s)
  {
    if s != [] {
      var t := s[1..];
      assert ToSet(s) == {s[0]} + ToSet(t);
      SetNoLarger(t);
      assert s[0] in t ==> ToSet(s) == ToSet(t);
      FullCardDistinct(t);
    }
  }

  /** As many required signers as distinct addresses that must sign: there is room for no other. */
  lemma Pigeonhole(tx: Transaction, signers: set<Address>)
    requires tx.numRequiredSignatures == |signers| && tx.numRequiredSignatures <= |tx.accountKeys|
    requires forall a | a in signers :: IsSigner(tx, a)
    ensures SignersAre(tx, signers)
  {
    var slots := tx.accountKeys[..tx.numRequiredSignatures];
    forall a | a in signers ensures a in ToSet(slots) {
      assert slots[IndexOf(tx.accountKeys, a)] == a;
    }
    SetNoLarger(slots);
    Subset(signers, ToSet(slots));
    if a :| a in ToSet(slots) && a !in signers {
      Subset(signers + {a}, ToSet(slots));
    }
    FullCardDistinct(slots);
  }

  /**
   * Whatever is accepted opens the intended channel: the canonical instruction
   * first and unchanged, only Lighthouse after it, required signers exactly
   * the fee payer and the payer, and every account of the open writable
   * exactly when the canonical transaction makes it writable.
   */
  lemma AcceptedOpenIsIntended(c: Crypto, signed: Bytes, input: OpenChannel)
    requires AcceptedOpen(c, signed, input)
    ensures OpenInstruction(c, input).Some?
    ensures var tx, open := Parse(signed).value, OpenInstruction(c, input).value;
      && 1 <= |tx.instructions| <= MAX_OPEN_INSTRUCTIONS
      && tx.instructions[0] == Strip(open)
      && (forall i | 1 <= i < |tx.instructions| :: tx.instructions[i].program == LIGHTHOUSE)
      && SignersAre(tx, {input.feePayer, input.payer})
      && (forall a | Referenced(input.feePayer, [open], 1, a) ::
            IsWritable(tx, a) <==> AskedToWrite(input.feePayer, [open], 1, a))
      && tx.accountKeys[0] == input.feePayer && tx.recentBlockhash == input.recentBlockhash
      && SignedBy(c, tx, input.payer)
  {
    var open, g := CanonicalOpen(c, input);
    GrantingLayoutParses(g, input.feePayer, [open], input.recentBlockhash, EmptySlots(g.Signers()));
    var tx, wanted := Parse(signed).value, Parse(BuildOpen(c, input).value).value;
    assert wanted.instructions == StripAll([open]) == [Strip(open)];
    OpenSignerCount(g, input, open);
    forall a | Referenced(input.feePayer, [open], 1, a) ensures SamePermissions(tx, wanted, a) {
      assert a in g.Keys();
      assert SamePermissions(tx, wanted, wanted.accountKeys[IndexOf(wanted.accountKeys, a)]);
    }
    forall a | a in {input.feePayer, input.payer} ensures IsSigner(tx, a) {
      assert AskedToSign(input.feePayer, [open], 1, a);
      assert a in g.Keys() by { assert a in g.signed || a in g.readonlySigned; }
      assert Referenced(input.feePayer, [open], 1, a);
    }
    ParsedShape(signed);
    Pigeonhole(tx, {input.feePayer, input.payer});
  }

  /** What a returned open must be, in terms of what was asked. */
  ghost predicate IntendedOpen(c: Crypto, tx: Transaction, open: MetaInstruction, input: OpenChannel) {
    && tx.accountKeys != [] && tx.accountKeys[0] == input.feePayer && tx.recentBlockhash == input.recentBlockhash
    && 1 <= |tx.instructions| <= 6 && tx.instructions[0] == Strip(open)
    && (forall i | 1 <= i < |tx.instructions| :: tx.instructions[i].program == LIGHTHOUSE)
    && SignersAre(tx, {input.feePayer, input.payer}) && ValidSignature(c, tx, input.payer)
    && (forall a | Referenced(input.feePayer, [open], 1, a) :: IsWritable(tx, a) <==> AskedToWrite(input.feePayer, [open], 1, a))
  }

  lemma SignersDecide(tx: Transaction, signers: set<Address>, a: Address)
    requires SignersAre(tx, signers)
    ensures IsSigner(tx, a) <==> a in signers
  {
    var slots := tx.accountKeys[..tx.numRequiredSignatures];
    if a in signers {
      var i :| 0 <= i < |slots| && slots[i] == a;
      assert IndexOf(tx.accountKeys, a) <= i;
    }
    if IsSigner(tx, a) { assert slots[IndexOf(tx.accountKeys, a)] == a; }
  }

  lemma IntendedOpenIsAccepted(c: Crypto, signed: Bytes, input: OpenChannel)
    requires OpenInstruction(c, input).Some? && Parse(signed).Some?
    requires IntendedOpen(c, Parse(signed).value, OpenInstruction(c, input).value, input)
    ensures AcceptedOpen(c, signed, input)
  {
    hide OpenInstruction, Grants, SignedBy, SignersAre, ValidSignature, IsSigner, IsWritable, Parse, AskedToSign, AskedToWrite, Referenced;
    var open, g := CanonicalOpen(c, input);
    GrantingLayoutParses(g, input.feePayer, [open], input.recentBlockhash, EmptySlots(g.Signers()));
    var tx, wanted := Parse(signed).value, Parse(BuildOpen(c, input).value).value;
    assert wanted.instructions == StripAll([open]) == [Strip(open)];
    OpenSignerCount(g, input, open);
    ParsedShape(signed);
    ExactSigners(tx, input.feePayer, input.payer);
    SignedByExactly(c, tx, input.payer, {input.feePayer, input.payer});
    forall i | 0 <= i < |wanted.accountKeys| ensures SamePermissions(tx, wanted, wanted.accountKeys[i]) {
      var a := wanted.accountKeys[i];
      SignersDecide(tx, {input.feePayer, input.payer}, a);
      GrantedIsReferenced(g, input.feePayer, open, a);
    }
    assert input.feePayer == input.payer ==> {input.feePayer, input.payer} == {input.payer};
  }

  lemma GrantedIsReferenced(g: Groups, feePayer: Address, open: MetaInstruction, a: Address)
    requires Grants(g, feePayer, [open]) && a in g.Keys()
    ensures Referenced(feePayer, [open], 1, a)
  {
  }

  /** A wire is accepted for an open exactly when it parses to a transaction that is the intended one. */
  lemma OpenAcceptedExactly(c: Crypto, signed: Bytes, input: OpenChannel)
    ensures AcceptedOpen(c, signed, input) <==>
      OpenInstruction(c, input).Some? && Parse(signed).Some?
      && IntendedOpen(c, Parse(signed).value, OpenInstruction(c, input).value, input)
  {
    hide AcceptedOpenTransaction, OpenInstruction, Parse, Referenced, AskedToWrite, SignersAre, ValidSignature, SignedBy, IsWritable;
    if AcceptedOpen(c, signed, input) {
      AcceptedOpenIsIntended(c, signed, input);
      ParsedShape(signed);
      SignedByExactly(c, Parse(signed).value, input.payer, {input.feePayer, input.payer});
    }
    if OpenInstruction(c, input).Some? && Parse(signed).Some?
      && IntendedOpen(c, Parse(signed).value, OpenInstruction(c, input).value, input)
    {
      IntendedOpenIsAccepted(c, signed, input);
    }
  }

  // ---- Completeness -------------------------------------------------------

  /** Every open that can be built is accepted once the payer has signed it. */
  lemma SignedOpenAccepted(c: Crypto, input: OpenChannel, slots: seq<Signature>)
    requires BuildOpen(c, input).Some?
    ensures Parse(BuildOpen(c, input).value).Some?
    ensures ValidlySigned(c, BuildOpen(c, input).value, slots, input.payer) ==>
      FillSlots(BuildOpen(c, input).value, slots).Some? && AcceptedOpen(c, FillSlots(BuildOpen(c, input).value, slots).value, input)
  {
    hide OpenInstruction, Grants, SignedBy, Serialize, IsSigner, IsWritable;
    var open, g := CanonicalOpen(c, input);
    var wire := BuildOpen(c, input).value;
    GrantingLayoutParses(g, input.feePayer, [open], input.recentBlockhash, EmptySlots(g.Signers()));
    if ValidlySigned(c, wire, slots, input.payer) {
      FilledLayout(g, input.feePayer, [open], input.recentBlockhash, slots, wire);
      GrantingLayoutParses(g, input.feePayer, [open], input.recentBlockhash, slots);
      var got, wanted := Parse(FillSlots(wire, slots).value).value, Parse(wire).value;
      assert got.instructions == wanted.instructions == [Strip(open)];
      assert AcceptedOpenTransaction(c, got, wanted, input);
    }
  }
}
