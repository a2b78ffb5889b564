/** Program-derived addresses over an uninterpreted hash and curve test. */
module Pda {
  import opened Bytes
  import opened Programs

  /** The primitives the model leaves open: SHA-256, the ed25519 point test, ed25519 verification. */
  datatype Crypto = Crypto(
    sha256: Bytes -> Address,
    onCurve: Address -> bool,
    verifies: (Signature, Bytes, Address) -> bool)

  // "ProgramDerivedAddress"
  const PDA_MARKER: Bytes := [80, 114, 111, 103, 114, 97, 109, 68, 101, 114, 105, 118, 101, 100, 65, 100, 100, 114, 101, 115, 115]

  function Candidate(c: Crypto, seeds: Bytes, program: Address, bump: byte): Address {
    c.sha256(seeds + [bump] + program + PDA_MARKER)
  }

  /** The candidate of the highest bump, at most `bump`, that is off the curve. */
  function DeriveFrom(c: Crypto, seeds: Bytes, program: Address, bump: int): (r: Option<(Address, byte)>)
    requires bump < 256
    ensures r.None? ==> forall b: byte | b <= bump :: c.onCurve(Candidate(c, seeds, program, b))
    ensures r.Some? ==>
      && r.value.0 == Candidate(c, seeds, program, r.value.1) && !c.onCurve(r.value.0)
      && r.value.1 <= bump
      && forall b: byte | r.value.1 < b <= bump :: c.onCurve(Candidate(c, seeds, program, b))
    decreases bump + 1
  {
    if bump < 0 then None
    else
      var h := Candidate(c, seeds, program, bump);
      if c.onCurve(h) then DeriveFrom(c, seeds, program, bump - 1) else Some((h, bump))
  }

  function Derive(c: Crypto, seeds: Bytes, program: Address): Option<(Address, byte)> {
    DeriveFrom(c, seeds, program, 255)
  }

  method DerivePda(c: Crypto, seeds: Bytes, program: Address) returns (r: Option<(Address, byte)>)
    ensures r == Derive(c, seeds, program)
  {
    var bump := 255;
    while bump >= 0
      invariant -1 <= bump < 256
      invariant Derive(c, seeds, program) == DeriveFrom(c, seeds, program, bump)
    {
      var hash := Candidate(c, seeds, program, bump);
      if !c.onCurve(hash) { return Some((hash, bump)); }
      bump := bump - 1;
    }
    return None;
  }

  /** Associated token account of `owner` for `mint` under `tokenProgram`. */
  function AssociatedToken(c: Crypto, owner: Address, mint: Address, tokenProgram: Address): Option<Address> {
    var (a, _) :- Derive(c, owner + tokenProgram + mint, ASSOCIATED_TOKEN);
    Some(a)
  }

  /** `a` is the hash of the seeds, the highest bump that leaves the curve, the program and the marker text. */
  ghost predicate HighestOffCurve(c: Crypto, seeds: Bytes, program: Address, a: Address) {
    exists bump: byte ::
      && a == c.sha256(seeds + [bump] + program + PDA_MARKER) && !c.onCurve(a)
      && forall b: byte | b > bump :: c.onCurve(c.sha256(seeds + [b] + program + PDA_MARKER))
  }

  lemma DerivedIsHighest(c: Crypto, seeds: Bytes, program: Address)
    requires Derive(c, seeds, program).Some?
    ensures HighestOffCurve(c, seeds, program, Derive(c, seeds, program).value.0)
  {
    var (a, bump) := Derive(c, seeds, program).value;
    assert a == c.sha256(seeds + [bump] + program + PDA_MARKER);
    forall b: byte | b > bump ensures c.onCurve(c.sha256(seeds + [b] + program + PDA_MARKER)) {
      assert c.onCurve(Candidate(c, seeds, program, b));
    }
  }

  /** The bytes behind a token account's address: owner, token program, mint, bump, the associated-token program, the marker. */
  lemma AssociatedTokenHash(c: Crypto, owner: Address, mint: Address, tokenProgram: Address)
    requires AssociatedToken(c, owner, mint, tokenProgram).Some?
    ensures HighestOffCurve(c, owner + tokenProgram + mint, ASSOCIATED_TOKEN, AssociatedToken(c, owner, mint, tokenProgram).value)
  {
    DerivedIsHighest(c, owner + tokenProgram + mint, ASSOCIATED_TOKEN);
  }
}
