/** Any layout that grants exactly the requested privileges means the same as the compiled one. */
module Refinement {
  import opened Bytes
  import opened WireFormat
  import opened Transactions
  import opened Layout
  import opened Compiler

  lemma {:induction false} SameLengths(xs: seq<RawInstruction>, ys: seq<RawInstruction>)
    requires |xs| == |ys|
    requires forall i | 0 <= i < |xs| :: |xs[i].accounts| == |ys[i].accounts| && |xs[i].data| == |ys[i].data|
    ensures |Concat(InstructionBytes, xs)| == |Concat(InstructionBytes, ys)|
  {
    if xs != [] {
      assert |InstructionBytes(xs[0])| == |InstructionBytes(ys[0])|;
      SameLengths(xs[1..], ys[1..]);
    }
  }

  /** The size of a layout depends only on how many keys and signers it has. */
  lemma LayoutSize(g: Groups, h: Groups, ixs: seq<Instruction>, blockhash: Address)
    requires |g.Keys()| == |h.Keys()| && g.Signers() == h.Signers()
    ensures |Encode(g, ixs, blockhash)| == |Encode(h, ixs, blockhash)|
  {
    var t := Laid(g, ixs, blockhash, EmptySlots(g.Signers()));
    var u := Laid(h, ixs, blockhash, EmptySlots(h.Signers()));
    SameLengths(t.instructions, u.instructions);
    ConcatLength(KeyBytes, t.accountKeys, 32);
    ConcatLength(KeyBytes, u.accountKeys, 32);
    assert |Body(t)| == |Body(u)|;
    assert |Message(t)| == |Message(u)|;
    assert t.signatures == u.signatures;
  }

  lemma SameMembersSameLength<T>(s: seq<T>, t: seq<T>)
    requires Distinct(s) && Distinct(t) && forall x :: x in s <==> x in t
    ensures |s| == |t|
  {
    DistinctCard(s);
    DistinctCard(t);
    assert ToSet(s) == ToSet(t);
  }

  lemma SlotsKeepSize(g: Groups, ixs: seq<Instruction>, blockhash: Address, slots: seq<Signature>)
    requires |slots| == g.Signers()
    ensures |Serialize(Laid(g, ixs, blockhash, slots))| == |Encode(g, ixs, blockhash)|
  {
    var empty := EmptySlots(g.Signers());
    assert Message(Laid(g, ixs, blockhash, slots)) == Message(Laid(g, ixs, blockhash, empty));
    ConcatLength(SignatureBytes, slots, 64);
    ConcatLength(SignatureBytes, empty, 64);
  }

  lemma PrefixDistinct<T>(s: seq<T>, t: seq<T>, all: seq<T>)
    requires all == s + t && Distinct(all)
    ensures Distinct(s)
  {
    assert forall i | 0 <= i < |s| :: s[i] == all[i];
  }

  /** The groups of `g` are the privileges the instructions ask for, fee payer first. */
  ghost predicate Grants(g: Groups, feePayer: Address, roles: seq<MetaInstruction>) {
    && Distinct(g.Keys()) && g.signed != [] && g.signed[0] == feePayer
    && (forall a :: (a in g.signed || a in g.readonlySigned) <==> AskedToSign(feePayer, roles, |roles|, a))
    && (forall a :: (a in g.signed || a in g.writable) <==> AskedToWrite(feePayer, roles, |roles|, a))
    && (forall a :: a in g.Keys() <==> Referenced(feePayer, roles, |roles|, a))
  }

  lemma CompilerGrants(feePayer: Address, roles: seq<MetaInstruction>)
    ensures Grants(GroupsOf(Metas(feePayer, roles)), feePayer, roles)
  {
    forall a {
      CompiledGroups(feePayer, roles, a);
    }
    CompiledGroups(feePayer, roles, feePayer);
  }

  /** Two layouts with the same grants have as many keys and as many signers. */
  lemma GrantsFixCounts(g: Groups, h: Groups, feePayer: Address, roles: seq<MetaInstruction>)
    requires Grants(g, feePayer, roles) && Grants(h, feePayer, roles)
    ensures |g.Keys()| == |h.Keys()| && g.Signers() == h.Signers()
  {
    SameMembersSameLength(g.Keys(), h.Keys());
    var gs, hs := g.signed + g.readonlySigned, h.signed + h.readonlySigned;
    PrefixDistinct(gs, g.writable + g.readonly, g.Keys());
    PrefixDistinct(hs, h.writable + h.readonly, h.Keys());
    forall a ensures a in gs <==> a in hs {
      assert AskedToSign(feePayer, roles, |roles|, a) <==> (a in g.signed || a in g.readonlySigned);
      assert AskedToSign(feePayer, roles, |roles|, a) <==> (a in h.signed || a in h.readonlySigned);
    }
    SameMembersSameLength(gs, hs);
  }

  lemma GrantsMention(g: Groups, feePayer: Address, roles: seq<MetaInstruction>)
    requires Grants(g, feePayer, roles)
    ensures AllMentioned(g.Keys(), StripAll(roles))
  {
    forall i | 0 <= i < |roles| ensures Mentions(g.Keys(), StripAll(roles)[i]) {
      assert Referenced(feePayer, roles, |roles|, roles[i].program);
      forall j | 0 <= j < |roles[i].accounts| ensures roles[i].accounts[j].address in g.Keys() {
        assert UsedIn(roles[i].accounts, roles[i].accounts[j].address);
        assert Referenced(feePayer, roles, |roles|, roles[i].accounts[j].address);
      }
    }
  }

  /** What the parser reads back from a granting layout with these signature slots. */
  lemma GrantingLayoutParses(g: Groups, feePayer: Address, roles: seq<MetaInstruction>, blockhash: Address, slots: seq<Signature>)
    requires Grants(g, feePayer, roles) && |slots| == g.Signers()
    requires |Encode(g, StripAll(roles), blockhash)| <= TRANSACTION_LIMIT
    ensures var filled := Laid(g, StripAll(roles), blockhash, slots);
            var tx := Parse(Serialize(filled));
      && tx.Some? && Faithful(tx.value, g, StripAll(roles), blockhash)
      && tx.value.signatures == slots && tx.value.message == Message(filled)
      && tx.value.accountKeys[0] == feePayer
      && (forall a :: IsSigner(tx.value, a) <==> AskedToSign(feePayer, roles, |roles|, a))
      && (forall a :: IsWritable(tx.value, a) <==> AskedToWrite(feePayer, roles, |roles|, a))
  {
    GrantsMention(g, feePayer, roles);
    SlotsKeepSize(g, StripAll(roles), blockhash, slots);
    LayoutParses(g, StripAll(roles), blockhash, slots);
    var tx := Parse(Serialize(Laid(g, StripAll(roles), blockhash, slots))).value;
    forall a ensures (IsSigner(tx, a) <==> AskedToSign(feePayer, roles, |roles|, a)) && (IsWritable(tx, a) <==> AskedToWrite(feePayer, roles, |roles|, a)) {
      LayoutPermissions(tx, g, StripAll(roles), blockhash, a);
    }
  }

  /**
   * A granting layout refines the compiler: it fits a packet exactly when the
   * compiled transaction does, and then both are read back as the same
   * instructions, blockhash, fee payer, signers and writable accounts.
   */
  lemma GrantingLayoutRefinesCompiler(g: Groups, feePayer: Address, roles: seq<MetaInstruction>, blockhash: Address)
    requires Grants(g, feePayer, roles)
    ensures |Encode(g, StripAll(roles), blockhash)| == |Compile(feePayer, roles, blockhash)|
    ensures |Encode(g, StripAll(roles), blockhash)| <= TRANSACTION_LIMIT ==>
      var hand, general := Parse(Encode(g, StripAll(roles), blockhash)), Parse(Compile(feePayer, roles, blockhash));
      && hand.Some? && general.Some? && SameMeaning(hand.value, general.value)
      && hand.value.accountKeys[0] == feePayer && hand.value.recentBlockhash == blockhash
      && hand.value.instructions == StripAll(roles)
  {
    var h := GroupsOf(Metas(feePayer, roles));
    CompilerGrants(feePayer, roles);
    GrantsFixCounts(g, h, feePayer, roles);
    LayoutSize(g, h, StripAll(roles), blockhash);
    if |Encode(g, StripAll(roles), blockhash)| <= TRANSACTION_LIMIT {
      GrantingLayoutParses(g, feePayer, roles, blockhash, EmptySlots(g.Signers()));
      GrantingLayoutParses(h, feePayer, roles, blockhash, EmptySlots(h.Signers()));
    }
  }

  /** Equal up to the order of the account keys. */
  ghost predicate SameMeaning(t: Transaction, u: Transaction) {
    && t.accountKeys != [] && u.accountKeys != [] && t.accountKeys[0] == u.accountKeys[0]
    && t.recentBlockhash == u.recentBlockhash
    && t.instructions == u.instructions
    && t.signatures == u.signatures
    && (forall a :: IsSigner(t, a) <==> IsSigner(u, a))
    && (forall a :: IsWritable(t, a) <==> IsWritable(u, a))
  }
}
