/** `compileV0`: merge account privileges, group the accounts, write indices and bytes. */
module Compiler {
  import opened Bytes
  import opened WireFormat
  import opened Transactions
  import opened Layout

  datatype Meta = Meta(address: Address, signer: bool, writable: bool)

  datatype MetaInstruction = MetaInstruction(program: Address, accounts: seq<Meta>, data: Bytes)

  // ---- The merge: an insertion-ordered map from address to privileges -------

  function Find(metas: seq<Meta>, a: Address): (i: int)
    ensures -1 <= i < |metas|
    ensures 0 <= i ==> metas[i].address == a && forall j | 0 <= j < i :: metas[j].address != a
    ensures i == -1 ==> forall j | 0 <= j < |metas| :: metas[j].address != a
  {
    if metas == [] then -1
    else if metas[0].address == a then 0
    else
      var r := Find(metas[1..], a);
      assert forall j | 0 < j < |metas| :: metas[j] == metas[1..][j - 1];
      if r == -1 then -1 else r + 1
  }

  /** `Map.set` of the joined privileges: a seen address keeps its place. */
  function Add(metas: seq<Meta>, m: Meta): seq<Meta> {
    var i := Find(metas, m.address);
    if i == -1 then metas + [m]
    else metas[i := Meta(m.address, m.signer || metas[i].signer, m.writable || metas[i].writable)]
  }

  function Merge(uses: seq<Meta>): seq<Meta> {
    if uses == [] then [] else Add(Merge(uses[..|uses| - 1]), uses[|uses| - 1])
  }

  /** Every use of an address up to instruction `n`, in the order they are added. */
  function Uses(feePayer: Address, ixs: seq<MetaInstruction>, n: nat): seq<Meta>
    requires n <= |ixs|
  {
    if n == 0 then [Meta(feePayer, true, true)]
    else Uses(feePayer, ixs, n - 1) + ixs[n - 1].accounts + [Meta(ixs[n - 1].program, false, false)]
  }

  ghost predicate SignerIn(uses: seq<Meta>, a: Address) {
    exists i :: 0 <= i < |uses| && uses[i].address == a && uses[i].signer
  }

  ghost predicate WritableIn(uses: seq<Meta>, a: Address) {
    exists i :: 0 <= i < |uses| && uses[i].address == a && uses[i].writable
  }

  ghost predicate UsedIn(uses: seq<Meta>, a: Address) {
    exists i :: 0 <= i < |uses| && uses[i].address == a
  }

  /** One entry per used address, in first-use order, holding the join of its uses. */
  ghost predicate JoinOf(metas: seq<Meta>, uses: seq<Meta>) {
    && (forall i, j | 0 <= i < j < |metas| :: metas[i].address != metas[j].address)
    && (forall i | 0 <= i < |metas| ::
          && UsedIn(uses, metas[i].address)
          && (metas[i].signer <==> SignerIn(uses, metas[i].address))
          && (metas[i].writable <==> WritableIn(uses, metas[i].address)))
    && (forall i | 0 <= i < |uses| :: Find(metas, uses[i].address) >= 0)
    && (uses != [] ==> metas != [] && metas[0].address == uses[0].address)
  }

  lemma UsesSnoc(uses: seq<Meta>, m: Meta, a: Address)
    ensures SignerIn(uses + [m], a) <==> SignerIn(uses, a) || (m.address == a && m.signer)
    ensures WritableIn(uses + [m], a) <==> WritableIn(uses, a) || (m.address == a && m.writable)
    ensures UsedIn(uses + [m], a) <==> UsedIn(uses, a) || m.address == a
  {
    var all := uses + [m];
    assert all[|uses|] == m;
    assert forall i | 0 <= i < |uses| :: all[i] == uses[i];
  }

  lemma AddKeepsJoin(metas: seq<Meta>, uses: seq<Meta>, m: Meta)
    requires JoinOf(metas, uses)
    ensures JoinOf(Add(metas, m), uses + [m])
  {
    hide SignerIn, WritableIn, UsedIn, Find;
    var all := uses + [m];
    forall a ensures
      && (SignerIn(all, a) <==> SignerIn(uses, a) || (m.address == a && m.signer))
      && (WritableIn(all, a) <==> WritableIn(uses, a) || (m.address == a && m.writable))
      && (UsedIn(all, a) <==> UsedIn(uses, a) || m.address == a)
    {
      UsesSnoc(uses, m, a);
    }
    if Find(metas, m.address) == -1 { NeverUsed(metas, uses, m.address); }
    AddKeepsOrder(metas, uses, m);
    AddKeepsMembers(metas, uses, m);
  }

  lemma AddKeepsOrder(metas: seq<Meta>, uses: seq<Meta>, m: Meta)
    requires JoinOf(metas, uses)
    ensures var after := Add(metas, m);
      && (forall i, j | 0 <= i < j < |after| :: after[i].address != after[j].address)
      && after != [] && after[0].address == (uses + [m])[0].address
  {
    hide SignerIn, WritableIn, UsedIn;
    if uses == [] { NothingUsed(metas); }
  }

  lemma NothingUsed(metas: seq<Meta>)
    requires JoinOf(metas, [])
    ensures metas == []
  {
    assert |metas| == 0 || UsedIn([], metas[0].address);
  }

  lemma NeverUsed(metas: seq<Meta>, uses: seq<Meta>, a: Address)
    requires JoinOf(metas, uses) && Find(metas, a) == -1
    ensures !UsedIn(uses, a) && !SignerIn(uses, a) && !WritableIn(uses, a)
  {
  }

  lemma AddKeepsMembers(metas: seq<Meta>, uses: seq<Meta>, m: Meta)
    requires JoinOf(metas, uses)
    ensures forall i | 0 <= i < |uses + [m]| :: Find(Add(metas, m), (uses + [m])[i].address) >= 0
  {
    var after, all := Add(metas, m), uses + [m];
    var k := Find(metas, m.address);
    forall i | 0 <= i < |all| ensures Find(after, all[i].address) >= 0 {
      var at := if i == |uses| then k else Find(metas, uses[i].address);
      assert at >= 0 ==> after[at].address == all[i].address;
      assert at == -1 ==> after[|metas|].address == all[i].address;
    }
  }

  lemma {:induction false} MergeIsJoin(uses: seq<Meta>)
    ensures JoinOf(Merge(uses), uses)
  {
    if uses != [] {
      var init, last := uses[..|uses| - 1], uses[|uses| - 1];
      MergeIsJoin(init);
      AddKeepsJoin(Merge(init), init, last);
      assert uses == init + [last];
    }
  }

  // ---- Grouping -----------------------------------------------------------

  function Group(metas: seq<Meta>, signer: bool, writable: bool): seq<Address> {
    if metas == [] then []
    else (if metas[0].signer == signer && metas[0].writable == writable then [metas[0].address] else [])
         + Group(metas[1..], signer, writable)
  }

  lemma {:induction false} GroupMembers(metas: seq<Meta>, signer: bool, writable: bool, a: Address)
    ensures a in Group(metas, signer, writable)
       <==> exists i :: 0 <= i < |metas| && metas[i] == Meta(a, signer, writable)
  {
    if metas != [] {
      GroupMembers(metas[1..], signer, writable, a);
      assert forall i | 0 < i < |metas| :: metas[i] == metas[1..][i - 1];
      if m :| 0 <= m < |metas[1..]| && metas[1..][m] == Meta(a, signer, writable) {
        assert metas[m + 1] == Meta(a, signer, writable);
      }
    }
  }

  ghost predicate UniqueAddresses(metas: seq<Meta>) {
    forall i, j | 0 <= i < j < |metas| :: metas[i].address != metas[j].address
  }

  lemma {:induction false} GroupDistinct(metas: seq<Meta>, signer: bool, writable: bool)
    requires UniqueAddresses(metas)
    ensures Distinct(Group(metas, signer, writable))
  {
    if metas != [] {
      GroupDistinct(metas[1..], signer, writable);
      GroupMembers(metas[1..], signer, writable, metas[0].address);
    }
  }

  function GroupsOf(metas: seq<Meta>): Groups {
    Groups(Group(metas, true, true), Group(metas, true, false), Group(metas, false, true), Group(metas, false, false))
  }

  /** Membership of the four groups is exactly the privileges of the entry. */
  lemma GroupsRead(metas: seq<Meta>, a: Address)
    requires UniqueAddresses(metas)
    ensures var g, i := GroupsOf(metas), Find(metas, a);
      && (a in g.signed <==> i >= 0 && metas[i].signer && metas[i].writable)
      && (a in g.readonlySigned <==> i >= 0 && metas[i].signer && !metas[i].writable)
      && (a in g.writable <==> i >= 0 && !metas[i].signer && metas[i].writable)
      && (a in g.readonly <==> i >= 0 && !metas[i].signer && !metas[i].writable)
  {
    GroupMembers(metas, true, true, a);
    GroupMembers(metas, true, false, a);
    GroupMembers(metas, false, true, a);
    GroupMembers(metas, false, false, a);
    var i := Find(metas, a);
    assert i >= 0 ==> metas[i] == Meta(a, metas[i].signer, metas[i].writable);
  }

  lemma DistinctAppend<T>(s: seq<T>, t: seq<T>)
    requires Distinct(s) && Distinct(t) && forall x | x in s :: x !in t
    ensures Distinct(s + t)
  {
    var u := s + t;
    forall i, j | 0 <= i < j < |u| ensures u[i] != u[j] {
      if i < |s| <= j { assert s[i] in s && t[j - |s|] in t; }
    }
  }

  lemma GroupsDistinct(metas: seq<Meta>)
    requires UniqueAddresses(metas)
    ensures Distinct(GroupsOf(metas).Keys())
  {
    var g := GroupsOf(metas);
    GroupDistinct(metas, true, true);
    GroupDistinct(metas, true, false);
    GroupDistinct(metas, false, true);
    GroupDistinct(metas, false, false);
    forall a: Address ensures a in g.signed ==> a !in g.readonlySigned
      ensures a in g.signed + g.readonlySigned ==> a !in g.writable
      ensures a in g.signed + g.readonlySigned + g.writable ==> a !in g.readonly
    {
      GroupsRead(metas, a);
    }
    DistinctAppend(g.signed, g.readonlySigned);
    DistinctAppend(g.signed + g.readonlySigned, g.writable);
    DistinctAppend(g.signed + g.readonlySigned + g.writable, g.readonly);
  }

  // ---- compileV0 ----------------------------------------------------------

  function Strip(ix: MetaInstruction): Instruction {
    Instruction(ix.program, seq(|ix.accounts|, i requires 0 <= i < |ix.accounts| => ix.accounts[i].address), ix.data)
  }

  function StripAll(ixs: seq<MetaInstruction>): seq<Instruction> {
    seq(|ixs|, i requires 0 <= i < |ixs| => Strip(ixs[i]))
  }

  function Metas(feePayer: Address, ixs: seq<MetaInstruction>): seq<Meta> {
    Merge(Uses(feePayer, ixs, |ixs|))
  }

  function Compile(feePayer: Address, ixs: seq<MetaInstruction>, blockhash: Address): Bytes {
    Encode(GroupsOf(Metas(feePayer, ixs)), StripAll(ixs), blockhash)
  }

  lemma {:induction false} ZeroSlots(slots: seq<Signature>)
    requires forall i | 0 <= i < |slots| :: slots[i] == Zeros(64)
    ensures Concat(SignatureBytes, slots) == Zeros(64 * |slots|)
  {
    if slots != [] {
      ZeroSlots(slots[1..]);
    }
  }

  lemma MergeSnoc(uses: seq<Meta>, m: Meta)
    ensures Merge(uses + [m]) == Add(Merge(uses), m)
  {
    assert (uses + [m])[..|uses|] == uses;
  }

  method AddAll(metas: seq<Meta>, ghost uses: seq<Meta>, accounts: seq<Meta>) returns (result: seq<Meta>)
    requires metas == Merge(uses)
    ensures result == Merge(uses + accounts)
  {
    hide Merge, Add;
    result := metas;
    assert uses + accounts[..0] == uses;
    for j := 0 to |accounts|
      invariant result == Merge(uses + accounts[..j])
    {
      result := Add(result, accounts[j]);
      MergeSnoc(uses + accounts[..j], accounts[j]);
      assert (uses + accounts[..j]) + [accounts[j]] == uses + accounts[..j + 1];
    }
    assert uses + accounts[..|accounts|] == uses + accounts;
  }

  /** The privilege map is filled in place, use by use; the bytes are one concatenation. */
  method CompileV0(feePayer: Address, ixs: seq<MetaInstruction>, blockhash: Address) returns (wire: Bytes)
    ensures wire == Compile(feePayer, ixs, blockhash)
  {
    var metas := Add([], Meta(feePayer, true, true));
    for i := 0 to |ixs|
      invariant metas == Merge(Uses(feePayer, ixs, i))
    {
      metas := AddAll(metas, Uses(feePayer, ixs, i), ixs[i].accounts);
      metas := AddAll(metas, Uses(feePayer, ixs, i) + ixs[i].accounts, [Meta(ixs[i].program, false, false)]);
    }
    var g := GroupsOf(metas);
    var signers := g.Signers();
    var t := Laid(g, StripAll(ixs), blockhash, EmptySlots(signers));
    ZeroSlots(t.signatures);
    wire := ShortVec(signers) + (Zeros(64 * signers) + Message(t));
  }

  // ---- What a transaction is asked to do ----------------------------------

  /** `a` must sign: it pays the fee or one of the first `n` instructions marks it a signer. */
  ghost predicate AskedToSign(feePayer: Address, ixs: seq<MetaInstruction>, n: nat, a: Address)
    requires n <= |ixs|
  {
    a == feePayer || exists i :: 0 <= i < n && SignerIn(ixs[i].accounts, a)
  }

  ghost predicate AskedToWrite(feePayer: Address, ixs: seq<MetaInstruction>, n: nat, a: Address)
    requires n <= |ixs|
  {
    a == feePayer || exists i :: 0 <= i < n && WritableIn(ixs[i].accounts, a)
  }

  /** `a` occurs at all: as fee payer, account or program. */
  ghost predicate Referenced(feePayer: Address, ixs: seq<MetaInstruction>, n: nat, a: Address)
    requires n <= |ixs|
  {
    a == feePayer || exists i :: 0 <= i < n && (ixs[i].program == a || UsedIn(ixs[i].accounts, a))
  }

  lemma AskedStep(feePayer: Address, ixs: seq<MetaInstruction>, n: nat, a: Address)
    requires 0 < n <= |ixs|
    ensures AskedToSign(feePayer, ixs, n, a) <==> AskedToSign(feePayer, ixs, n - 1, a) || SignerIn(ixs[n - 1].accounts, a)
    ensures AskedToWrite(feePayer, ixs, n, a) <==> AskedToWrite(feePayer, ixs, n - 1, a) || WritableIn(ixs[n - 1].accounts, a)
    ensures Referenced(feePayer, ixs, n, a) <==>
      Referenced(feePayer, ixs, n - 1, a) || ixs[n - 1].program == a || UsedIn(ixs[n - 1].accounts, a)
  {
    hide SignerIn, WritableIn, UsedIn;
  }

  lemma UsesAppend(u: seq<Meta>, v: seq<Meta>, a: Address)
    ensures SignerIn(u + v, a) <==> SignerIn(u, a) || SignerIn(v, a)
    ensures WritableIn(u + v, a) <==> WritableIn(u, a) || WritableIn(v, a)
    ensures UsedIn(u + v, a) <==> UsedIn(u, a) || UsedIn(v, a)
  {
    var w := u + v;
    assert forall i | 0 <= i < |u| :: w[i] == u[i];
    assert forall i | 0 <= i < |v| :: w[|u| + i] == v[i];
  }

  lemma {:induction false} UsesMeaning(feePayer: Address, ixs: seq<MetaInstruction>, n: nat, a: Address)
    requires n <= |ixs|
    ensures SignerIn(Uses(feePayer, ixs, n), a) <==> AskedToSign(feePayer, ixs, n, a)
    ensures WritableIn(Uses(feePayer, ixs, n), a) <==> AskedToWrite(feePayer, ixs, n, a)
    ensures UsedIn(Uses(feePayer, ixs, n), a) <==> Referenced(feePayer, ixs, n, a)
  {
    if n == 0 {
      UsesSnoc([], Meta(feePayer, true, true), a);
      assert Uses(feePayer, ixs, 0) == [] + [Meta(feePayer, true, true)];
    } else {
      hide SignerIn, WritableIn, UsedIn, AskedToSign, AskedToWrite, Referenced;
      AskedStep(feePayer, ixs, n, a);
      UsesMeaning(feePayer, ixs, n - 1, a);
      UsesAppend(Uses(feePayer, ixs, n - 1), ixs[n - 1].accounts, a);
      UsesSnoc(Uses(feePayer, ixs, n - 1) + ixs[n - 1].accounts, Meta(ixs[n - 1].program, false, false), a);
    }
  }

  lemma {:induction false} FeePayerFirst(feePayer: Address, ixs: seq<MetaInstruction>, n: nat)
    requires n <= |ixs|
    ensures Uses(feePayer, ixs, n) != [] && Uses(feePayer, ixs, n)[0] == Meta(feePayer, true, true)
  {
    if n > 0 { FeePayerFirst(feePayer, ixs, n - 1); }
  }

  /** The groups are the requested privileges, and the fee payer leads them. */
  lemma CompiledGroups(feePayer: Address, ixs: seq<MetaInstruction>, a: Address)
    ensures var g := GroupsOf(Metas(feePayer, ixs));
      && Distinct(g.Keys()) && g.signed != [] && g.Keys()[0] == feePayer
      && (a in g.signed || a in g.readonlySigned <==> AskedToSign(feePayer, ixs, |ixs|, a))
      && (a in g.signed || a in g.writable <==> AskedToWrite(feePayer, ixs, |ixs|, a))
      && (a in g.Keys() <==> Referenced(feePayer, ixs, |ixs|, a))
  {
    var uses := Uses(feePayer, ixs, |ixs|);
    var metas := Metas(feePayer, ixs);
    MergeIsJoin(uses);
    GroupsDistinct(metas);
    GroupsRead(metas, a);
    UsesMeaning(feePayer, ixs, |ixs|, a);
    FeePayerFirst(feePayer, ixs, |ixs|);
    UsesMeaning(feePayer, ixs, |ixs|, feePayer);
    assert metas[0] == Meta(feePayer, true, true);
    if UsedIn(uses, a) {
      var i :| 0 <= i < |uses| && uses[i].address == a;
      assert Find(metas, a) >= 0;
    }
    assert Find(metas, a) >= 0 ==> UsedIn(uses, a) && metas[Find(metas, a)].address == a;
    var g := GroupsOf(metas);
    assert a in g.Keys() <==> a in g.signed || a in g.readonlySigned || a in g.writable || a in g.readonly;
  }

  lemma CompiledMentions(feePayer: Address, ixs: seq<MetaInstruction>)
    ensures AllMentioned(GroupsOf(Metas(feePayer, ixs)).Keys(), StripAll(ixs))
  {
    var keys := GroupsOf(Metas(feePayer, ixs)).Keys();
    forall i | 0 <= i < |ixs| ensures Mentions(keys, StripAll(ixs)[i]) {
      CompiledGroups(feePayer, ixs, ixs[i].program);
      forall j | 0 <= j < |ixs[i].accounts| ensures ixs[i].accounts[j].address in keys {
        CompiledGroups(feePayer, ixs, ixs[i].accounts[j].address);
        assert UsedIn(ixs[i].accounts, ixs[i].accounts[j].address);
      }
    }
  }

  /**
   * Compiling preserves meaning: output that fits a packet is accepted by the
   * parser, with the same instructions in order, the same blockhash, zeroed
   * signature slots, the fee payer first, and exactly the referenced addresses
   * as pairwise distinct keys. Anything larger is refused.
   */
  lemma CompilePreservesMeaning(feePayer: Address, ixs: seq<MetaInstruction>, blockhash: Address)
    ensures Parse(Compile(feePayer, ixs, blockhash)).Some? <==> |Compile(feePayer, ixs, blockhash)| <= TRANSACTION_LIMIT
    ensures var parsed := Parse(Compile(feePayer, ixs, blockhash));
      parsed.Some? ==>
      && parsed.value.instructions == StripAll(ixs)
      && parsed.value.recentBlockhash == blockhash
      && parsed.value.accountKeys != [] && parsed.value.accountKeys[0] == feePayer
      && Distinct(parsed.value.accountKeys)
      && (forall a :: a in parsed.value.accountKeys <==> Referenced(feePayer, ixs, |ixs|, a))
      && parsed.value.signatures == EmptySlots(parsed.value.numRequiredSignatures)
  {
    if |Compile(feePayer, ixs, blockhash)| > TRANSACTION_LIMIT { return; }
    var g := GroupsOf(Metas(feePayer, ixs));
    CompiledGroups(feePayer, ixs, feePayer);
    CompiledMentions(feePayer, ixs);
    LayoutParses(g, StripAll(ixs), blockhash, EmptySlots(g.Signers()));
    forall a ensures a in g.Keys() <==> Referenced(feePayer, ixs, |ixs|, a) {
      CompiledGroups(feePayer, ixs, a);
    }
  }

  /** Read back by position, an address's privileges are the join of its uses. */
  lemma PrivilegesAreTheJoin(feePayer: Address, ixs: seq<MetaInstruction>, blockhash: Address, a: Address)
    requires |Compile(feePayer, ixs, blockhash)| <= TRANSACTION_LIMIT
    ensures var parsed := Parse(Compile(feePayer, ixs, blockhash));
      && parsed.Some?
      && (IsSigner(parsed.value, a) <==> AskedToSign(feePayer, ixs, |ixs|, a))
      && (IsWritable(parsed.value, a) <==> AskedToWrite(feePayer, ixs, |ixs|, a))
  {
    var g := GroupsOf(Metas(feePayer, ixs));
    CompiledGroups(feePayer, ixs, a);
    CompiledMentions(feePayer, ixs);
    LayoutParses(g, StripAll(ixs), blockhash, EmptySlots(g.Signers()));
    LayoutPermissions(Parse(Compile(feePayer, ixs, blockhash)).value, g, StripAll(ixs), blockhash, a);
  }

  // ---- The order of the keys ----------------------------------------------

  /** The addresses stand in the order of their first use. */
  ghost predicate InUseOrder(uses: seq<Meta>, group: seq<Address>) {
    && (forall i | 0 <= i < |group| :: Find(uses, group[i]) >= 0)
    && (forall i, j | 0 <= i < j < |group| :: Find(uses, group[i]) < Find(uses, group[j]))
  }

  lemma {:induction false} FindSnoc(uses: seq<Meta>, m: Meta, a: Address)
    ensures Find(uses + [m], a) == if Find(uses, a) >= 0 then Find(uses, a) else if m.address == a then |uses| else -1
  {
    if uses == [] {
      assert uses + [m] == [m];
      assert [m][1..] == [];
    } else {
      FindSnoc(uses[1..], m, a);
      assert (uses + [m])[1..] == uses[1..] + [m];
    }
  }

  ghost predicate MetasInOrder(uses: seq<Meta>, metas: seq<Meta>) {
    && (forall i | 0 <= i < |metas| :: Find(uses, metas[i].address) >= 0)
    && (forall i, j | 0 <= i < j < |metas| :: Find(uses, metas[i].address) < Find(uses, metas[j].address))
  }

  /** What one use adds: the old entries keep their rank, a new one ranks last. */
  lemma AddRank(metas: seq<Meta>, uses: seq<Meta>, m: Meta, i: nat)
    requires JoinOf(metas, uses) && i < |Add(metas, m)|
    ensures Find(uses + [m], Add(metas, m)[i].address) == if i < |metas| then Find(uses, metas[i].address) else |uses|
    ensures i < |metas| ==> 0 <= Find(uses, metas[i].address) < |uses|
  {
    hide SignerIn, WritableIn;
    FindSnoc(uses, m, Add(metas, m)[i].address);
    if i < |metas| {
      UsedIsFound(uses, metas[i].address);
      assert Add(metas, m)[i].address == metas[i].address;
    } else {
      NeverUsed(metas, uses, m.address);
      NotFound(uses, m.address);
    }
  }

  lemma AddKeepsUseOrder(metas: seq<Meta>, uses: seq<Meta>, m: Meta)
    requires JoinOf(metas, uses) && MetasInOrder(uses, metas)
    ensures MetasInOrder(uses + [m], Add(metas, m))
  {
    hide Find, JoinOf;
    var after := Add(metas, m);
    assert |after| <= |metas| + 1 by { hide MetasInOrder; }
    forall i | 0 <= i < |after| ensures Find(uses + [m], after[i].address) >= 0 { AddRank(metas, uses, m, i); }
    forall i, j | 0 <= i < j < |after| ensures Find(uses + [m], after[i].address) < Find(uses + [m], after[j].address) {
      AddRank(metas, uses, m, i);
      AddRank(metas, uses, m, j);
    }
  }

  lemma UsedIsFound(uses: seq<Meta>, a: Address)
    requires UsedIn(uses, a)
    ensures 0 <= Find(uses, a) < |uses|
  {
  }

  lemma NotFound(uses: seq<Meta>, a: Address)
    requires !UsedIn(uses, a)
    ensures Find(uses, a) == -1
  {
  }

  lemma {:induction false} MergeInUseOrder(uses: seq<Meta>)
    ensures MetasInOrder(uses, Merge(uses))
  {
    if uses != [] {
      hide Merge, Add, Find, JoinOf, MetasInOrder;
      var init, last := uses[..|uses| - 1], uses[|uses| - 1];
      assert uses == init + [last];
      MergeInUseOrder(init);
      MergeIsJoin(init);
      MergeSnoc(init, last);
      AddKeepsUseOrder(Merge(init), init, last);
    }
  }

  ghost predicate Holds(metas: seq<Meta>, a: Address) {
    exists j :: 0 <= j < |metas| && metas[j].address == a
  }

  lemma {:induction false} GroupHolds(metas: seq<Meta>, signer: bool, writable: bool, i: nat)
    requires i < |Group(metas, signer, writable)|
    ensures Holds(metas, Group(metas, signer, writable)[i])
    decreases |metas|
  {
    var rest := metas[1..];
    var takes := metas[0].signer == signer && metas[0].writable == writable;
    if takes && i == 0 {
      assert metas[0].address == Group(metas, signer, writable)[i];
    } else {
      GroupHolds(rest, signer, writable, if takes then i - 1 else i);
      var j :| 0 <= j < |rest| && rest[j].address == Group(metas, signer, writable)[i];
      assert rest[j] == metas[j + 1];
    }
  }

  lemma TailInOrder(uses: seq<Meta>, metas: seq<Meta>)
    requires metas != [] && MetasInOrder(uses, metas)
    ensures MetasInOrder(uses, metas[1..])
    ensures Find(uses, metas[0].address) >= 0
    ensures forall a | Holds(metas[1..], a) :: Find(uses, metas[0].address) < Find(uses, a)
  {
    hide Find;
    var rest := metas[1..];
    forall i | 0 <= i < |rest| ensures Find(uses, rest[i].address) >= 0 {
      assert rest[i] == metas[i + 1];
    }
    forall i, j | 0 <= i < j < |rest| ensures Find(uses, rest[i].address) < Find(uses, rest[j].address) {
      assert rest[i] == metas[i + 1] && rest[j] == metas[j + 1];
    }
    forall a | Holds(rest, a) ensures Find(uses, metas[0].address) < Find(uses, a) {
      var j :| 0 <= j < |rest| && rest[j].address == a;
      assert rest[j] == metas[j + 1];
    }
  }

  ghost predicate Before(uses: seq<Meta>, a: Address, group: seq<Address>) {
    Find(uses, a) >= 0 && forall b | b in group :: Find(uses, a) < Find(uses, b)
  }

  lemma InUseOrderCons(uses: seq<Meta>, a: Address, group: seq<Address>)
    requires InUseOrder(uses, group) && Before(uses, a, group)
    ensures InUseOrder(uses, [a] + group)
  {
    hide Find;
    var all := [a] + group;
    forall i | 0 <= i < |all| ensures Find(uses, all[i]) >= 0 {
      if i == 0 { assert all[i] == a; } else { assert all[i] == group[i - 1]; }
    }
    forall i, j | 0 <= i < j < |all| ensures Find(uses, all[i]) < Find(uses, all[j]) {
      assert all[j] == group[j - 1] && all[j] in group;
      if i == 0 { assert all[i] == a; } else { assert all[i] == group[i - 1]; }
    }
  }

  lemma {:induction false} GroupInUseOrder(uses: seq<Meta>, metas: seq<Meta>, signer: bool, writable: bool)
    requires MetasInOrder(uses, metas)
    ensures InUseOrder(uses, Group(metas, signer, writable))
    decreases |metas|
  {
    hide MetasInOrder, Holds;
    if metas != [] {
      var more := Group(metas[1..], signer, writable);
      TailInOrder(uses, metas);
      GroupInUseOrder(uses, metas[1..], signer, writable);
      forall b | b in more ensures Find(uses, metas[0].address) < Find(uses, b) {
        var i :| 0 <= i < |more| && more[i] == b;
        GroupHolds(metas[1..], signer, writable, i);
      }
      InUseOrderCons(uses, metas[0].address, more);
    }
  }

  /** Within each privilege group, a compiled transaction's keys stand in the order the instructions first use them. */
  lemma CompiledOrder(feePayer: Address, ixs: seq<MetaInstruction>)
    ensures var g, uses := GroupsOf(Metas(feePayer, ixs)), Uses(feePayer, ixs, |ixs|);
      && InUseOrder(uses, g.signed) && InUseOrder(uses, g.readonlySigned)
      && InUseOrder(uses, g.writable) && InUseOrder(uses, g.readonly)
  {
    var metas, uses := Metas(feePayer, ixs), Uses(feePayer, ixs, |ixs|);
    hide Merge, InUseOrder, MetasInOrder, Group;
    MergeInUseOrder(uses);
    GroupInUseOrder(uses, metas, true, true);
    GroupInUseOrder(uses, metas, true, false);
    GroupInUseOrder(uses, metas, false, true);
    GroupInUseOrder(uses, metas, false, false);
  }
}
