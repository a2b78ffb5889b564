/** Reading a mint account, and the scan of its Token-2022 extensions. */
module Mint {
  import opened Bytes
  import opened Programs

  // TransferFeeConfig, NonTransferable, TransferHook, ConfidentialTransferFee, PausableConfig
  const REFUSED_EXTENSIONS: set<int> := {1, 9, 14, 16, 26}
  const BASE_MINT := 82
  const TLV_START := 166

  function U16(b: Bytes, i: nat): (r: nat)
    requires i + 1 < |b|
    ensures r < 65536
  {
    (b[i] as int) + 256 * (b[i + 1] as int)
  }

  /** The scan of the type-length-value list `b`: false when the mint is refused. */
  predicate ScanTlv(b: Bytes) {
    if |b| < 4 then true
    else if U16(b, 0) == 0 then true
    else if U16(b, 0) in REFUSED_EXTENSIONS then false
    else if 4 + U16(b, 2) > |b| then false
    else ScanTlv(b[4 + U16(b, 2)..])
  }

  // ---- The list the scan reads --------------------------------------------

  datatype Extension = Extension(kind: nat, value: Bytes)

  ghost predicate Encodable(e: Extension) {
    0 < e.kind < 65536 && |e.value| < 65536
  }

  ghost predicate AllEncodable(es: seq<Extension>) {
    forall i | 0 <= i < |es| :: Encodable(es[i])
  }

  ghost predicate NoneRefused(es: seq<Extension>) {
    forall i | 0 <= i < |es| :: es[i].kind !in REFUSED_EXTENSIONS
  }

  function Tlv(e: Extension): Bytes {
    LittleEndian(e.kind, 2) + LittleEndian(|e.value|, 2) + e.value
  }

  function TlvList(es: seq<Extension>): Bytes {
    if es == [] then [] else Tlv(es[0]) + TlvList(es[1..])
  }

  /** Too short for another entry, or starting with the uninitialized type. */
  ghost predicate Unused(tail: Bytes) {
    |tail| < 4 || (tail[0] == 0 && tail[1] == 0)
  }

  lemma TlvHead(e: Extension, rest: Bytes)
    requires Encodable(e)
    ensures var b := Tlv(e) + rest;
      |b| >= 4 && U16(b, 0) == e.kind && U16(b, 2) == |e.value| && 4 + |e.value| <= |b| && b[4 + |e.value|..] == rest
  {
    assert LittleEndian(e.kind, 2) == [e.kind % 256, e.kind / 256];
    assert LittleEndian(|e.value|, 2) == [|e.value| % 256, |e.value| / 256];
  }

  /** On any list of extensions followed by unused space, the scan accepts iff none is refused. */
  lemma {:induction false} ScanDecides(es: seq<Extension>, tail: Bytes)
    requires AllEncodable(es) && Unused(tail)
    ensures ScanTlv(TlvList(es) + tail) <==> NoneRefused(es)
  {
    if es == [] {
      assert TlvList(es) + tail == tail;
    } else {
      var rest := TlvList(es[1..]) + tail;
      assert TlvList(es) + tail == Tlv(es[0]) + rest;
      TlvHead(es[0], rest);
      ScanDecides(es[1..], tail);
      assert NoneRefused(es) <==> es[0].kind !in REFUSED_EXTENSIONS && NoneRefused(es[1..]) by {
        assert es == [es[0]] + es[1..];
      }
    }
  }

  /** The entry at the front of the bytes, as the scan reads it. */
  lemma FrontEntry(b: Bytes) returns (e: Extension)
    requires |b| >= 4 && U16(b, 0) != 0 && 4 + U16(b, 2) <= |b|
    ensures Encodable(e) && e.kind == U16(b, 0) && |e.value| == U16(b, 2)
    ensures b == Tlv(e) + b[4 + |e.value|..]
  {
    var n := U16(b, 2);
    e := Extension(U16(b, 0), b[4..4 + n]);
    assert LittleEndian(e.kind, 2) == b[..2] by { assert LittleEndian(e.kind, 2) == [e.kind % 256, e.kind / 256]; }
    assert LittleEndian(n, 2) == b[2..4] by { assert LittleEndian(n, 2) == [n % 256, n / 256]; }
  }

  lemma TlvListCons(e: Extension, more: seq<Extension>, tail: Bytes)
    ensures TlvList([e] + more) + tail == Tlv(e) + (TlvList(more) + tail)
  {
    assert ([e] + more)[1..] == more;
  }

  /** Everything the scan accepts is such a list: complete entries, none refused, then unused space. */
  lemma {:induction false} ScanAccepts(b: Bytes) returns (es: seq<Extension>, tail: Bytes)
    requires ScanTlv(b)
    ensures b == TlvList(es) + tail && AllEncodable(es) && NoneRefused(es) && Unused(tail)
  {
    if |b| < 4 || U16(b, 0) == 0 {
      es, tail := [], b;
    } else {
      hide Tlv, TlvList, Encodable, Unused;
      var e := FrontEntry(b);
      var more, t := ScanAccepts(b[4 + |e.value|..]);
      es, tail := [e] + more, t;
      TlvListCons(e, more, t);
    }
  }

  ghost predicate Listing(b: Bytes, es: seq<Extension>, tail: Bytes) {
    b == TlvList(es) + tail && AllEncodable(es) && Unused(tail)
  }

  /** For every byte string: accepted exactly when it lists complete, unrefused extensions. */
  lemma ScanExact(b: Bytes)
    ensures ScanTlv(b) <==> exists es, tail :: Listing(b, es, tail) && NoneRefused(es)
  {
    if ScanTlv(b) {
      var es, tail := ScanAccepts(b);
      assert Listing(b, es, tail);
    }
    if es, tail :| Listing(b, es, tail) && NoneRefused(es) {
      ScanDecides(es, tail);
    }
  }

  predicate ScreenedExtensions(data: Bytes) {
    |data| == BASE_MINT || (|data| >= TLV_START && data[165] == 1 && ScanTlv(data[TLV_START..]))
  }

  /** The loop over the account data; the cursor may end beyond the data, which is refused. */
  method ScreenMintExtensions(data: Bytes) returns (ok: bool)
    ensures ok <==> ScreenedExtensions(data)
  {
    if |data| == BASE_MINT { return true; }
    if |data| < TLV_START || data[165] != 1 { return false; }
    var offset := TLV_START;
    while offset + 4 <= |data|
      invariant TLV_START <= offset
      invariant ScanTlv(data[TLV_START..]) == if offset <= |data| then ScanTlv(data[offset..]) else false
    {
      var kind := U16(data, offset);
      var length := U16(data, offset + 2);
      if offset + 4 + length <= |data| {
        assert data[offset..][4 + length..] == data[offset + 4 + length..];
      }
      if kind == 0 { break; }
      if kind in REFUSED_EXTENSIONS { return false; }
      offset := offset + 4 + length;
    }
    if offset > |data| { return false; }
    return true;
  }

  /** The token program and decimals of an initialized mint that payments support. */
  function ReadMint(owner: Address, data: Bytes): (r: Option<(Address, byte)>)
    ensures r.Some? <==>
      owner in [TOKEN, TOKEN_2022] && |data| >= BASE_MINT && data[45] == 1 && (owner == TOKEN_2022 ==> ScreenedExtensions(data))
    ensures r.Some? ==> r.value == (owner, data[44])
  {
    if owner != TOKEN && owner != TOKEN_2022 then None
    else if |data| < BASE_MINT || data[45] != 1 then None
    else if owner == TOKEN_2022 && !ScreenedExtensions(data) then None
    else Some((owner, data[44]))
  }

  /**
   * The accounts the screening passes: 82 bytes, or at least 166 with the
   * account type of a mint and then a list of complete extensions, none of
   * them a transfer fee, non-transferable, a hook, a confidential fee or pausable.
   */
  lemma ScreenedExactly(data: Bytes)
    ensures ScreenedExtensions(data) <==>
      |data| == 82 || (|data| >= 166 && data[165] == 1 && exists es: seq<Extension>, tail: Bytes ::
        Listing(data[166..], es, tail) && forall i | 0 <= i < |es| :: es[i].kind !in {1, 9, 14, 16, 26})
  {
    if |data| >= 166 {
      ScanExact(data[166..]);
      forall es: seq<Extension> ensures NoneRefused(es) <==> forall i | 0 <= i < |es| :: es[i].kind !in {1, 9, 14, 16, 26} {
      }
    }
  }
}
