/** The cursor over wire bytes and the parsing loops, proved against the grammar in WireFormat. */
module Reading {
  import opened Bytes
  import opened WireFormat
  import opened Transactions

  /** A read returns what the grammar says and leaves the cursor on what it leaves. */
  ghost predicate Reads<T(!new)>(r: Option<T>, spec: Option<(T, Bytes)>, after: Bytes) {
    match spec
    case None => r == None
    case Some((x, rest)) => r == Some(x) && after == rest
  }

  class Reader {
    const bytes: Bytes
    var offset: nat

    ghost predicate Valid()
      reads this
    {
      offset <= |bytes|
    }

    ghost function Rest(): Bytes
      reads this
      requires Valid()
    {
      bytes[offset..]
    }

    constructor (bytes: Bytes)
      ensures Valid() && this.bytes == bytes && offset == 0
    {
      this.bytes := bytes;
      offset := 0;
    }

    method Byte() returns (r: Option<byte>)
      requires Valid()
      modifies this
      ensures Valid() && Reads(r, ReadByte(old(Rest())), Rest())
    {
      if offset >= |bytes| { return None; }
      offset := offset + 1;
      return Some(bytes[offset - 1]);
    }

    method Take(n: nat) returns (r: Option<Bytes>)
      requires Valid()
      modifies this
      ensures Valid() && Reads(r, WireFormat.Take(n, old(Rest())), Rest())
    {
      if offset + n > |bytes| { return None; }
      var out := bytes[offset..offset + n];
      assert out == Rest()[..n];
      offset := offset + n;
      return Some(out);
    }

    /** Bitwise or and shifts of disjoint 7-bit groups are written as arithmetic. */
    method ShortVec() returns (r: Option<nat>)
      requires Valid()
      modifies this
      ensures Valid() && Reads(r, ReadShortVec(old(Rest())), Rest())
    {
      ghost var before := Rest();
      var value: int, scale: int := 0, 1;
      for i := 0 to 3
        invariant Valid() && i <= |before| && Rest() == before[i..]
        invariant forall j | 0 <= j < i :: before[j] >= 128
        invariant scale == if i == 0 then 1 else if i == 1 then 128 else if i == 2 then 16384 else 2097152
        invariant value == (if i > 0 then before[0] - 128 else 0)
                         + (if i > 1 then 128 * (before[1] as int - 128) else 0)
                         + (if i > 2 then 16384 * (before[2] as int - 128) else 0)
      {
        var b :- Byte();
        var group: int := b % 128;
        value := value + group * scale;
        scale := scale * 128;
        if b < 128 {
          if i > 0 && b == 0 { return None; }
          return Some(value);
        }
      }
      return None;
    }
  }

  ghost function Resume<T>(done: seq<T>, todo: Option<(seq<T>, Bytes)>): Option<(seq<T>, Bytes)> {
    match todo
    case None => None
    case Some((xs, rest)) => Some((done + xs, rest))
  }

  lemma ResumeLaws<T>(p: Parser<T>, done: seq<T>, n: nat, b: Bytes)
    ensures Resume([], Many(p, n, b)) == Many(p, n, b)
    ensures n == 0 ==> Resume(done, Many(p, n, b)) == Some((done, b))
    ensures n > 0 && p(b).None? ==> Resume(done, Many(p, n, b)) == None
    ensures n > 0 && p(b).Some? ==>
      Resume(done, Many(p, n, b)) == Resume(done + [p(b).value.0], Many(p, n - 1, p(b).value.1))
  {
    assert done + [] == done;
    if Many(p, n, b).Some? { assert [] + Many(p, n, b).value.0 == Many(p, n, b).value.0; }
    if n > 0 && Many(p, n, b).Some? {
      var x, xs := p(b).value.0, Many(p, n - 1, p(b).value.1).value.0;
      assert done + ([x] + xs) == (done + [x]) + xs;
    }
  }

  method ReadSignatures(r: Reader, count: nat) returns (result: Option<seq<Signature>>)
    requires r.Valid()
    modifies r
    ensures r.Valid() && Reads(result, Many(ReadSignature, count, old(r.Rest())), r.Rest())
  {
    var signatures: seq<Signature> := [];
    ResumeLaws(ReadSignature, [], count, r.Rest());
    for i := 0 to count
      invariant r.Valid()
      invariant Many(ReadSignature, count, old(r.Rest())) == Resume(signatures, Many(ReadSignature, count - i, r.Rest()))
    {
      ResumeLaws(ReadSignature, signatures, count - i, r.Rest());
      var s :- r.Take(64);
      signatures := signatures + [s];
    }
    ResumeLaws(ReadSignature, signatures, 0, r.Rest());
    return Some(signatures);
  }

  method ReadKeys(r: Reader, count: nat) returns (result: Option<seq<Address>>)
    requires r.Valid()
    modifies r
    ensures r.Valid() && Reads(result, Many(ReadKey, count, old(r.Rest())), r.Rest())
  {
    var keys: seq<Address> := [];
    ResumeLaws(ReadKey, [], count, r.Rest());
    for i := 0 to count
      invariant r.Valid()
      invariant Many(ReadKey, count, old(r.Rest())) == Resume(keys, Many(ReadKey, count - i, r.Rest()))
    {
      ResumeLaws(ReadKey, keys, count - i, r.Rest());
      var k :- r.Take(32);
      keys := keys + [k];
    }
    ResumeLaws(ReadKey, keys, 0, r.Rest());
    return Some(keys);
  }

  /** The addresses named by `count` index bytes. */
  method ReadAccounts(r: Reader, keys: seq<Address>, count: nat) returns (result: Option<seq<Address>>)
    requires r.Valid()
    modifies r
    ensures r.Valid()
    ensures match Many(IndexParser(|keys|), count, old(r.Rest()))
            case None => result == None
            case Some((indices, rest)) => InRange(|keys|, indices) && result == Some(Named(keys, indices)) && r.Rest() == rest
  {
    hide Many, Resume;
    var accounts: seq<Address> := [];
    ghost var raw: seq<byte> := [];
    ResumeLaws(IndexParser(|keys|), [], count, r.Rest());
    for i := 0 to count
      invariant r.Valid() && InRange(|keys|, raw) && accounts == Named(keys, raw)
      invariant Many(IndexParser(|keys|), count, old(r.Rest())) == Resume(raw, Many(IndexParser(|keys|), count - i, r.Rest()))
    {
      ResumeLaws(IndexParser(|keys|), raw, count - i, r.Rest());
      var b :- r.Byte();
      if b >= |keys| { return None; }
      accounts := accounts + [keys[b]];
      raw := raw + [b];
    }
    ResumeLaws(IndexParser(|keys|), raw, 0, r.Rest());
    return Some(accounts);
  }

  method ReadOne(r: Reader, keys: seq<Address>) returns (result: Option<Instruction>)
    requires r.Valid()
    modifies r
    ensures r.Valid()
    ensures match ReadInstruction(|keys|, old(r.Rest()))
            case None => result == None
            case Some((raw, rest)) =>
              InstructionOk(|keys|, raw) && result == Some(ResolveInstruction(keys, raw)) && r.Rest() == rest
  {
    ghost var spec := ReadInstruction(|keys|, r.Rest());
    if spec.Some? { InstructionSound(|keys|, r.Rest(), spec.value.0, spec.value.1); }
    var program :- r.Byte();
    if program >= |keys| { return None; }
    var count :- r.ShortVec();
    var accounts :- ReadAccounts(r, keys, count);
    var length :- r.ShortVec();
    var data :- r.Take(length);
    return Some(Instruction(keys[program], accounts, data));
  }

  method ReadInstructions(r: Reader, keys: seq<Address>, count: nat) returns (result: Option<seq<Instruction>>)
    requires r.Valid()
    modifies r
    ensures r.Valid()
    ensures match Many(InstructionParser(|keys|), count, old(r.Rest()))
            case None => result == None
            case Some((raw, rest)) =>
              (forall i | 0 <= i < |raw| :: InstructionOk(|keys|, raw[i])) && result == Some(Resolved(keys, raw)) && r.Rest() == rest
  {
    hide Many, ReadInstruction, ResolveInstruction, InstructionOk, Resume;
    var instructions: seq<Instruction> := [];
    ghost var raw: seq<RawInstruction> := [];
    ResumeLaws(InstructionParser(|keys|), [], count, r.Rest());
    for i := 0 to count
      invariant r.Valid() && (forall j | 0 <= j < |raw| :: InstructionOk(|keys|, raw[j])) && instructions == Resolved(keys, raw)
      invariant Many(InstructionParser(|keys|), count, old(r.Rest())) == Resume(raw, Many(InstructionParser(|keys|), count - i, r.Rest()))
    {
      ResumeLaws(InstructionParser(|keys|), raw, count - i, r.Rest());
      ghost var next := ReadInstruction(|keys|, r.Rest());
      var ix :- ReadOne(r, keys);
      instructions := instructions + [ix];
      raw := raw + [next.value.0];
    }
    ResumeLaws(InstructionParser(|keys|), raw, 0, r.Rest());
    return Some(instructions);
  }

  /** From the blockhash to the end of the wire. */
  method ReadTail(r: Reader, keys: seq<Address>) returns (result: Option<(Address, seq<Instruction>)>)
    requires r.Valid()
    modifies r
    ensures match ReadBody(|keys|, old(r.Rest()))
            case None => result == None
            case Some((blockhash, raw)) =>
              (forall i | 0 <= i < |raw| :: InstructionOk(|keys|, raw[i])) && result == Some((blockhash, Resolved(keys, raw)))
  {
    var blockhash :- r.Take(32);
    var instructionCount :- r.ShortVec();
    var instructions :- ReadInstructions(r, keys, instructionCount);
    var tables :- r.ShortVec();
    if tables != 0 { return None; }
    if r.offset != |r.bytes| { return None; }
    return Some((blockhash, instructions));
  }

  method ReadHeader(r: Reader) returns (result: Option<(byte, byte, byte)>)
    requires r.Valid()
    modifies r
    ensures r.Valid()
    ensures match WireFormat.Take(4, old(r.Rest()))
            case None => result == None
            case Some((h, rest)) =>
              if h[0] == 0x80 then result == Some((h[1], h[2], h[3])) && r.Rest() == rest else result == None
  {
    var version :- r.Byte();
    if version != 0x80 { return None; }
    var required :- r.Byte();
    var readonlySigned :- r.Byte();
    var readonlyUnsigned :- r.Byte();
    return Some((required, readonlySigned, readonlyUnsigned));
  }

  method ReadUnsigned(r: Reader, signatures: seq<Signature>) returns (result: Option<Transaction>)
    requires r.Valid()
    modifies r
    ensures match ReadMessage(signatures, old(r.Rest()))
            case None => result == None
            case Some(raw) => WellFormed(raw) && result == Some(Resolve(raw))
  {
    var message := r.bytes[r.offset..];
    ghost var raw := ReadMessage(signatures, message);
    if raw.Some? { MessageSound(message, raw.value); }
    var header :- ReadHeader(r);
    var (required, readonlySigned, readonlyUnsigned) := header;
    var keyCount :- r.ShortVec();
    var keys :- ReadKeys(r, keyCount);
    if required == 0 || required != |signatures| || readonlySigned >= required || (required as int) + readonlyUnsigned > keyCount {
      return None;
    }
    var body :- ReadTail(r, keys);
    return Some(Transaction(signatures, message, required, readonlySigned, readonlyUnsigned, keys, body.0, body.1));
  }

  /** Accepts the wire, as the same transaction, exactly when the grammar does. */
  method ParseSolanaTransaction(wire: Bytes) returns (result: Option<Transaction>)
    ensures result == Parse(wire)
  {
    if |wire| > TRANSACTION_LIMIT { return None; }
    var r := new Reader(wire);
    assert r.Rest() == wire;
    var signatureCount :- r.ShortVec();
    var signatures :- ReadSignatures(r, signatureCount);
    result := ReadUnsigned(r, signatures);
  }
}
