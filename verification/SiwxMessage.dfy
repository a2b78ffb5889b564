/** Printing and parsing the CAIP-122 sign-in text. */
module SiwxMessage {
  import opened Bytes
  import opened Text
  import opened SiwxGrammar

  datatype Params = Params(
    domain: string,
    address: string,
    statement: Option<string>,
    uri: string,
    version: Option<int>,
    chainId: string,
    nonce: string,
    issuedAt: Option<string>,
    expirationTime: Option<string>,
    notBefore: Option<string>,
    requestId: Option<string>,
    resources: seq<string>,
    blockchain: Option<string>)

  datatype Message = Message(
    raw: string,
    domain: string,
    address: string,
    statement: Option<string>,
    uri: string,
    chainId: string,
    nonce: string,
    issuedAt: string,
    expirationTime: Option<string>,
    notBefore: Option<string>,
    resources: seq<string>,
    requestId: Option<string>,
    blockchain: string)

  // ---- Validation and printing --------------------------------------------

  function IssuedAt(p: Params, now: string): string {
    if p.issuedAt.Some? then p.issuedAt.value else now
  }

  predicate OptionOk(p: string -> bool, o: Option<string>) {
    o.Some? ==> p(o.value)
  }

  predicate ValidParams(web: Web, p: Params, now: string) {
    && IsDomain(p.domain)
    && p.address != [] && OneLine(p.address)
    && IsUri(web, p.uri)
    && (p.version.Some? ==> p.version.value == 1)
    && IsCaip2(p.chainId) && Eip155Ok(p.chainId, p.address)
    && IsNonce(p.nonce)
    && IsRfc3339(web, IssuedAt(p, now))
    && (p.expirationTime.Some? ==> IsRfc3339(web, p.expirationTime.value))
    && (p.notBefore.Some? ==> IsRfc3339(web, p.notBefore.value))
    && OptionOk(IsStatement, p.statement)
    && OptionOk(IsRequestId, p.requestId)
    && (forall i | 0 <= i < |p.resources| :: IsUri(web, p.resources[i]))
  }

  function BlockchainName(chainId: string): string {
    if EIP155 <= chainId then "Ethereum"
    else if "solana:" <= chainId then "Solana"
    else if "xrpl:" <= chainId then "XRP Ledger"
    else "blockchain"
  }

  function Name(p: Params): string {
    if p.blockchain.Some? then p.blockchain.value else BlockchainName(p.chainId)
  }

  const ASKS := " wants you to sign in with your"
  const ACCOUNT := " account:"

  function FirstLine(domain: string, name: string): string {
    domain + (ASKS + ([' '] + (name + ACCOUNT)))
  }

  /** The nine field labels in their fixed order. */
  function Label(k: nat): string {
    match k
    case 0 => "URI: "
    case 1 => "Version: "
    case 2 => "Chain ID: "
    case 3 => "Nonce: "
    case 4 => "Issued At: "
    case 5 => "Expiration Time: "
    case 6 => "Not Before: "
    case 7 => "Request ID: "
    case _ => "Resources:"
  }

  /** Empty optional texts print like absent ones. */
  function Shown(o: Option<string>): Option<string> {
    if o == Some("") then None else o
  }

  function OptionalLine(k: nat, o: Option<string>): seq<string> {
    if o.None? then [] else [Label(k) + o.value]
  }

  function ResourceLine(r: string): string { "- " + r }

  function Dashed(rs: seq<string>): seq<string> {
    if rs == [] then [] else [ResourceLine(rs[0])] + Dashed(rs[1..])
  }

  function ResourceLines(rs: seq<string>): seq<string> {
    if rs == [] then [] else [Label(8)] + Dashed(rs)
  }

  function OptionalLines(p: Params): seq<string> {
    OptionalLine(5, p.expirationTime)
    + (OptionalLine(6, p.notBefore) + (OptionalLine(7, Shown(p.requestId)) + ResourceLines(p.resources)))
  }

  function FieldLines(p: Params, now: string): seq<string> {
    [Label(0) + p.uri]
    + ([Label(1) + "1"] + ([Label(2) + p.chainId] + ([Label(3) + p.nonce] + ([Label(4) + IssuedAt(p, now)] + OptionalLines(p)))))
  }

  function StatementLines(p: Params): seq<string> {
    (if Shown(p.statement).Some? then ["", p.statement.value] else []) + [""]
  }

  function Lines(p: Params, now: string): seq<string> {
    [FirstLine(p.domain, Name(p)), p.address] + (StatementLines(p) + FieldLines(p, now))
  }

  function Create(web: Web, p: Params, now: string): Option<string> {
    if ValidParams(web, p, now) then Some(Join('\n', Lines(p, now))) else None
  }

  // ---- Parsing ------------------------------------------------------------

  /** The first position of `part`, or -1. */
  function Find(s: string, part: string): (i: int)
    ensures i == -1 || (0 <= i <= |s| && part <= s[i..])
  {
    if part <= s then 0
    else if s == [] then -1
    else var r := Find(s[1..], part); if r < 0 then -1 else r + 1
  }

  predicate IsTerminator(c: char) { c == '\n' || c == '\r' || c == '\U{2028}' || c == '\U{2029}' }

  /** The text between ` ` and ` account:`, when it is non-empty and on one line. */
  function AccountName(rest: string): Option<string> {
    var n := |rest| - |ACCOUNT|;
    if n >= 2 && rest[0] == ' ' && rest[n..] == ACCOUNT && forall i | 1 <= i < n :: !IsTerminator(rest[i])
    then Some(rest[1..n]) else None
  }

  function ParseFirst(line: string): Option<(string, string)> {
    var i := Find(line, ASKS);
    if i < 0 then None
    else
      var name := AccountName(line[i + |ASKS|..]);
      var trimmed := if name.Some? then Trim(name.value) else "";
      Some((Trim(line[..i]), if trimmed == "" then "blockchain" else trimmed))
  }

  /** The first label from `k` on that the line starts with, or -1. */
  function FieldFrom(line: string, k: nat): (r: int)
    ensures r == -1 || (k <= r <= 8 && Label(r) <= line)
    decreases 9 - k
  {
    if k > 8 then -1 else if Label(k) <= line then k else FieldFrom(line, k + 1)
  }

  /** Which field a line starts, or -1. */
  function FieldOf(line: string): (k: int)
    ensures -1 <= k <= 8
  {
    FieldFrom(line, 0)
  }

  /** The first line from `i` on that starts a field, or -1. */
  function FieldStart(lines: seq<string>, i: nat): (r: int)
    ensures r == -1 || i <= r < |lines|
    decreases |lines| - i
  {
    if i >= |lines| then -1
    else if FieldOf(lines[i]) >= 0 then i
    else FieldStart(lines, i + 1)
  }

  function TrimmedLines(lines: seq<string>): seq<string> {
    if lines == [] then []
    else (if Trim(lines[0]) == [] then [] else [Trim(lines[0])]) + TrimmedLines(lines[1..])
  }

  function StatementOf(lines: seq<string>): Option<string> {
    var kept := TrimmedLines(lines);
    if kept == [] then None else Some(Join('\n', kept))
  }

  /** The locals of the field loop. */
  datatype Fields = Fields(
    uri: string,
    version: int,
    chainId: string,
    nonce: string,
    issuedAt: Option<string>,
    expirationTime: Option<string>,
    notBefore: Option<string>,
    requestId: Option<string>,
    resources: seq<string>,
    inResources: bool,
    seen: set<int>,
    previous: int)

  const NO_FIELDS := Fields("", 0, "", "", None, None, None, None, [], false, {}, -1)

  /** Stores the text of field `k`; None when the parser refuses it. */
  function Store(f: Fields, k: nat, text: string): Option<Fields> {
    match k
    case 0 => Some(f.(uri := text))
    case 1 => if text == "1" then Some(f.(version := 1)) else None
    case 2 => Some(f.(chainId := text))
    case 3 => Some(f.(nonce := text))
    case 4 => Some(f.(issuedAt := Some(text)))
    case 5 => Some(f.(expirationTime := Some(text)))
    case 6 => Some(f.(notBefore := Some(text)))
    case 7 => Some(f.(requestId := Some(text)))
    case _ => if text == "" then Some(f.(inResources := true)) else None
  }

  function TextOf(line: string, k: nat): string {
    if |line| < |Label(k)| then "" else line[|Label(k)|..]
  }

  function FieldLine(f: Fields, line: string): Option<Fields> {
    var k := FieldOf(line);
    if k >= 0 then
      if k in f.seen || k < f.previous then None
      else Store(f.(seen := f.seen + {k}, previous := k), k, TextOf(line, k))
    else if f.inResources && "- " <= line then Some(f.(resources := f.resources + [line[2..]]))
    else None
  }

  function FieldLinesFrom(f: Fields, lines: seq<string>): Option<Fields>
    decreases |lines|
  {
    if lines == [] then Some(f)
    else
      var g :- FieldLine(f, lines[0]);
      FieldLinesFrom(g, lines[1..])
  }

  predicate ValidFields(web: Web, domain: string, address: string, statement: Option<string>, f: Fields) {
    && IsDomain(domain) && address != [] && IsUri(web, f.uri) && f.version == 1
    && IsCaip2(f.chainId) && Eip155Ok(f.chainId, address) && IsNonce(f.nonce)
    && f.issuedAt.Some? && IsRfc3339(web, f.issuedAt.value)
    && OptionOk(IsStatement, statement)
    && (f.expirationTime.Some? ==> IsRfc3339(web, f.expirationTime.value))
    && (f.notBefore.Some? ==> IsRfc3339(web, f.notBefore.value))
    && OptionOk(IsRequestId, f.requestId)
    && (forall i | 0 <= i < |f.resources| :: IsUri(web, f.resources[i]))
  }

  function ParseLines(web: Web, raw: string, lines: seq<string>): Option<Message> {
    if |lines| < 4 then None
    else
      var (domain, blockchain) :- ParseFirst(lines[0]);
      var address := Trim(lines[1]);
      var start := FieldStart(lines, 2);
      if start < 0 then None
      else
        var statement := StatementOf(lines[2..start]);
        var f :- FieldLinesFrom(NO_FIELDS, lines[start..]);
        if ValidFields(web, domain, address, statement, f) then
          Some(Message(raw, domain, address, statement, f.uri, f.chainId, f.nonce, f.issuedAt.value,
                       f.expirationTime, f.notBefore, f.resources, f.requestId, blockchain))
        else None
  }

  function Parse(web: Web, raw: string): Option<Message> {
    if raw == [] || '\r' in raw then None else ParseLines(web, raw, Split('\n', raw))
  }

  // ---- The field loop undoes the field lines ------------------------------

  lemma {:induction false} FirstMatch(line: string, k: nat, i: nat)
    requires i <= k <= 9 && (k <= 8 ==> Label(k) <= line) && forall j | i <= j < k :: !(Label(j) <= line)
    ensures FieldFrom(line, i) == if k <= 8 then k else -1
    decreases k - i
  {
    if i < k { FirstMatch(line, k, i + 1); }
  }

  /** Two labels differ within their first three characters. */
  lemma LabelsDiffer(j: nat, k: nat)
    requires j < k <= 8
    ensures |Label(j)| >= 3 && |Label(k)| >= 3 && Label(j)[..3] != Label(k)[..3]
  {
    assert Label(j)[0] != Label(k)[0] || Label(j)[1] != Label(k)[1] || Label(j)[2] != Label(k)[2];
  }

  lemma LabelOf(k: nat, text: string)
    requires k <= 8
    ensures FieldOf(Label(k) + text) == k && TextOf(Label(k) + text, k) == text
  {
    var line := Label(k) + text;
    forall j | 0 <= j < k ensures !(Label(j) <= line) {
      LabelsDiffer(j, k);
    }
    FirstMatch(line, k, 0);
  }

  /** A field line above every earlier one stores its text. */
  lemma StoreLine(f: Fields, k: nat, text: string)
    requires k <= 8 && f.previous <= k && k !in f.seen
    ensures FieldLine(f, Label(k) + text) == Store(f.(seen := f.seen + {k}, previous := k), k, text)
  {
    LabelOf(k, text);
  }

  lemma Consed(f: Fields, line: string, lines: seq<string>)
    ensures FieldLinesFrom(f, [line] + lines)
         == match FieldLine(f, line) case None => None case Some(g) => FieldLinesFrom(g, lines)
  {
    assert ([line] + lines)[1..] == lines;
  }

  lemma StoreThen(f: Fields, k: nat, text: string, g: Fields, rest: seq<string>)
    requires k <= 8 && f.previous <= k && k !in f.seen
    requires Store(f.(seen := f.seen + {k}, previous := k), k, text) == Some(g)
    ensures FieldLinesFrom(f, [Label(k) + text] + rest) == FieldLinesFrom(g, rest)
  {
    StoreLine(f, k, text);
    Consed(f, Label(k) + text, rest);
  }

  predicate Below(f: Fields, k: int) {
    f.previous < k && forall j | j in f.seen :: j < k
  }

  lemma FirstThreeLines(p: Params, rest: seq<string>) returns (g: Fields)
    ensures FieldLinesFrom(NO_FIELDS, [Label(0) + p.uri] + ([Label(1) + "1"] + ([Label(2) + p.chainId] + rest))) == FieldLinesFrom(g, rest)
    ensures Below(g, 3) && g == NO_FIELDS.(uri := p.uri, version := 1, chainId := p.chainId, seen := g.seen, previous := g.previous)
  {
    var f0 := NO_FIELDS.(uri := p.uri, seen := NO_FIELDS.seen + {0}, previous := 0);
    var f1 := f0.(version := 1, seen := f0.seen + {1}, previous := 1);
    g := f1.(chainId := p.chainId, seen := f1.seen + {2}, previous := 2);
    StoreThen(NO_FIELDS, 0, p.uri, f0, [Label(1) + "1"] + ([Label(2) + p.chainId] + rest));
    StoreThen(f0, 1, "1", f1, [Label(2) + p.chainId] + rest);
    StoreThen(f1, 2, p.chainId, g, rest);
  }

  lemma NextTwoLines(f: Fields, nonce: string, issuedAt: string, rest: seq<string>) returns (g: Fields)
    requires Below(f, 3)
    ensures FieldLinesFrom(f, [Label(3) + nonce] + ([Label(4) + issuedAt] + rest)) == FieldLinesFrom(g, rest)
    ensures Below(g, 5) && g == f.(nonce := nonce, issuedAt := Some(issuedAt), seen := g.seen, previous := g.previous)
  {
    var f3 := f.(nonce := nonce, seen := f.seen + {3}, previous := 3);
    g := f3.(issuedAt := Some(issuedAt), seen := f3.seen + {4}, previous := 4);
    StoreThen(f, 3, nonce, f3, [Label(4) + issuedAt] + rest);
    StoreThen(f3, 4, issuedAt, g, rest);
  }

  /** The five mandatory lines; nothing optional is set yet. */
  lemma MandatoryLines(p: Params, now: string, rest: seq<string>) returns (g: Fields)
    ensures FieldLinesFrom(NO_FIELDS,
              [Label(0) + p.uri] + ([Label(1) + "1"] + ([Label(2) + p.chainId] + ([Label(3) + p.nonce] + ([Label(4) + IssuedAt(p, now)] + rest)))))
         == FieldLinesFrom(g, rest)
    ensures Below(g, 5)
    ensures g == NO_FIELDS.(uri := p.uri, version := 1, chainId := p.chainId, nonce := p.nonce, issuedAt := Some(IssuedAt(p, now)),
                            seen := g.seen, previous := g.previous)
  {
    var f := FirstThreeLines(p, [Label(3) + p.nonce] + ([Label(4) + IssuedAt(p, now)] + rest));
    g := NextTwoLines(f, p.nonce, IssuedAt(p, now), rest);
  }

  /** The value of an optional field `k`. */
  function Field(f: Fields, k: nat): Option<string> {
    if k == 5 then f.expirationTime else if k == 6 then f.notBefore else f.requestId
  }

  lemma OptionalStep(f: Fields, k: nat, o: Option<string>, rest: seq<string>) returns (g: Fields)
    requires 5 <= k <= 7 && Below(f, k) && Field(f, k) == None
    ensures FieldLinesFrom(f, OptionalLine(k, o) + rest) == FieldLinesFrom(g, rest)
    ensures Below(g, k + 1) && Field(g, k) == o
    ensures g == f.(expirationTime := g.expirationTime, notBefore := g.notBefore, requestId := g.requestId, seen := g.seen, previous := g.previous)
    ensures forall j | 5 <= j <= 7 && j != k :: Field(g, j) == Field(f, j)
  {
    if o.None? {
      g := f;
      assert [] + rest == rest;
    } else {
      hide FieldLine, FieldLinesFrom, Label;
      StoreLine(f, k, o.value);
      g := Store(f.(seen := f.seen + {k}, previous := k), k, o.value).value;
      Consed(f, Label(k) + o.value, rest);
    }
  }

  lemma DashLine(f: Fields, r: string)
    requires f.inResources
    ensures FieldLine(f, ResourceLine(r)) == Some(f.(resources := f.resources + [r]))
  {
    var line := ResourceLine(r);
    assert line[0] == '-' && line[2..] == r;
    forall j | 0 <= j < 9 ensures !(Label(j) <= line) {
      assert Label(j)[0] != '-';
    }
    FirstMatch(line, 9, 0);
  }

  lemma DashThen(f: Fields, r: string, rest: seq<string>)
    requires f.inResources
    ensures FieldLinesFrom(f, [ResourceLine(r)] + rest) == FieldLinesFrom(f.(resources := f.resources + [r]), rest)
  {
    DashLine(f, r);
    Consed(f, ResourceLine(r), rest);
  }

  lemma {:induction false} ResourcesStep(f: Fields, rs: seq<string>)
    requires f.inResources
    ensures FieldLinesFrom(f, Dashed(rs)) == Some(f.(resources := f.resources + rs))
    decreases |rs|
  {
    hide FieldLine, ResourceLine;
    if rs == [] {
      assert f.resources + rs == f.resources;
    } else {
      DashThen(f, rs[0], Dashed(rs[1..]));
      ResourcesStep(f.(resources := f.resources + [rs[0]]), rs[1..]);
      assert (f.resources + [rs[0]]) + rs[1..] == f.resources + rs;
    }
  }

  lemma ResourceLinesStep(f: Fields, rs: seq<string>) returns (g: Fields)
    requires Below(f, 8) && f.resources == []
    ensures FieldLinesFrom(f, ResourceLines(rs)) == Some(g)
    ensures g == f.(resources := rs, inResources := g.inResources, seen := g.seen, previous := g.previous)
  {
    if rs == [] {
      g := f;
    } else {
      assert Label(8) + "" == Label(8);
      StoreLine(f, 8, "");
      var h := f.(seen := f.seen + {8}, previous := 8, inResources := true);
      Consed(f, Label(8), Dashed(rs));
      ResourcesStep(h, rs);
      g := h.(resources := rs);
      assert [] + rs == rs;
    }
  }

  lemma OptionalLinesStep(f: Fields, p: Params) returns (g: Fields)
    requires Below(f, 5) && f.resources == [] && f.expirationTime.None? && f.notBefore.None? && f.requestId.None?
    ensures FieldLinesFrom(f, OptionalLines(p)) == Some(g)
    ensures g == f.(expirationTime := p.expirationTime, notBefore := p.notBefore, requestId := Shown(p.requestId), resources := p.resources,
                    inResources := g.inResources, seen := g.seen, previous := g.previous)
  {
    var r8 := ResourceLines(p.resources);
    var r7 := OptionalLine(7, Shown(p.requestId)) + r8;
    var r6 := OptionalLine(6, p.notBefore) + r7;
    var f5 := OptionalStep(f, 5, p.expirationTime, r6);
    assert Field(f5, 6) == None && Field(f5, 7) == None;
    var f6 := OptionalStep(f5, 6, p.notBefore, r7);
    assert Field(f6, 5) == Field(f5, 5) && Field(f6, 7) == None;
    var f7 := OptionalStep(f6, 7, Shown(p.requestId), r8);
    assert Field(f7, 5) == Field(f6, 5) && Field(f7, 6) == Field(f6, 6);
    g := ResourceLinesStep(f7, p.resources);
  }

  /** The field loop reads back every field that was printed. */
  lemma FieldsUndoLines(p: Params, now: string) returns (f: Fields)
    ensures FieldLinesFrom(NO_FIELDS, FieldLines(p, now)) == Some(f)
    ensures f.uri == p.uri && f.version == 1 && f.chainId == p.chainId && f.nonce == p.nonce && f.issuedAt == Some(IssuedAt(p, now))
    ensures f.expirationTime == p.expirationTime && f.notBefore == p.notBefore && f.requestId == Shown(p.requestId)
    ensures f.resources == p.resources
  {
    var f4 := MandatoryLines(p, now, OptionalLines(p));
    f := OptionalLinesStep(f4, p);
  }

  // ---- The first line -----------------------------------------------------

  lemma {:induction false} FindAfter(a: string, part: string, b: string)
    requires part != [] && part[0] !in a
    ensures Find(a + (part + b), part) == |a|
  {
    var s := a + (part + b);
    if a == [] {
      assert s == part + b;
    } else {
      assert s[0] == a[0] && s[1..] == a[1..] + (part + b);
      FindAfter(a[1..], part, b);
    }
  }

  predicate NoTerminator(s: string) {
    forall i | 0 <= i < |s| :: !IsTerminator(s[i])
  }

  lemma AccountNameOf(name: string)
    ensures AccountName([' '] + (name + ACCOUNT)) == if name != [] && NoTerminator(name) then Some(name) else None
  {
    var rest := [' '] + (name + ACCOUNT);
    var n := |rest| - |ACCOUNT|;
    assert n == |name| + 1 && rest[1..n] == name && rest[n..] == ACCOUNT;
    assert forall i | 0 <= i < |name| :: rest[i + 1] == name[i];
  }

  lemma FirstLineParsed(domain: string, name: string)
    requires ' ' !in domain && (domain == [] || Trimmed(domain))
    ensures ParseFirst(FirstLine(domain, name))
         == Some((domain, if name != [] && NoTerminator(name) && Trim(name) != [] then Trim(name) else "blockchain"))
  {
    var rest := [' '] + (name + ACCOUNT);
    FindAfter(domain, ASKS, rest);
    var line := FirstLine(domain, name);
    assert line[..|domain|] == domain && line[|domain| + |ASKS|..] == rest;
    TrimmedIsFixed(domain);
    AccountNameOf(name);
  }

  // ---- The whole text -----------------------------------------------------

  predicate Plain(lines: seq<string>) {
    forall i | 0 <= i < |lines| :: OneLine(lines[i])
  }

  lemma PlainAppend(a: seq<string>, b: seq<string>)
    requires Plain(a) && Plain(b)
    ensures Plain(a + b)
  {
  }

  lemma LabelIsOneLine(k: nat)
    ensures OneLine(Label(k))
  {
  }

  lemma LabelOneLine(k: nat, text: string)
    requires k <= 8 && OneLine(text)
    ensures Plain([Label(k) + text])
  {
    LabelIsOneLine(k);
    hide Label;
    assert OneLine(Label(k) + text);
  }

  lemma OptionalPlain(k: nat, o: Option<string>)
    requires k <= 8 && (o.Some? ==> OneLine(o.value))
    ensures Plain(OptionalLine(k, o))
  {
    if o.Some? { LabelOneLine(k, o.value); }
  }

  lemma {:induction false} DashedPlain(web: Web, rs: seq<string>)
    requires forall i | 0 <= i < |rs| :: IsUri(web, rs[i])
    ensures Plain(Dashed(rs))
  {
    if rs != [] {
      DashedPlain(web, rs[1..]);
      assert IsUri(web, rs[0]);
      AllOneLine(IsUriChar, rs[0]);
    }
  }

  lemma OptionalLinesPlain(web: Web, p: Params, now: string)
    requires ValidParams(web, p, now)
    ensures Plain(OptionalLines(p))
  {
    if p.expirationTime.Some? { DateOneLine(web, p.expirationTime.value); }
    if p.notBefore.Some? { DateOneLine(web, p.notBefore.value); }
    if p.requestId.Some? { RequestOneLine(p.requestId.value); }
    OptionalPlain(5, p.expirationTime);
    OptionalPlain(6, p.notBefore);
    OptionalPlain(7, Shown(p.requestId));
    DashedPlain(web, p.resources);
    LabelOneLine(8, "");
    assert Label(8) + "" == Label(8);
    assert Plain(ResourceLines(p.resources));
    PlainAppend(OptionalLine(7, Shown(p.requestId)), ResourceLines(p.resources));
    PlainAppend(OptionalLine(6, p.notBefore), OptionalLine(7, Shown(p.requestId)) + ResourceLines(p.resources));
  }

  lemma FieldLinesPlain(web: Web, p: Params, now: string)
    requires ValidParams(web, p, now)
    ensures Plain(FieldLines(p, now))
  {
    OptionalLinesPlain(web, p, now);
    AllOneLine(IsUriChar, p.uri);
    AllOneLine(IsAlnum, p.nonce);
    CaipOneLine(p.chainId);
    DateOneLine(web, IssuedAt(p, now));
    LabelOneLine(0, p.uri);
    LabelOneLine(1, "1");
    LabelOneLine(2, p.chainId);
    LabelOneLine(3, p.nonce);
    LabelOneLine(4, IssuedAt(p, now));
    var r4 := [Label(4) + IssuedAt(p, now)] + OptionalLines(p);
    var r3 := [Label(3) + p.nonce] + r4;
    var r2 := [Label(2) + p.chainId] + r3;
    PlainAppend([Label(4) + IssuedAt(p, now)], OptionalLines(p));
    PlainAppend([Label(3) + p.nonce], r4);
    PlainAppend([Label(2) + p.chainId], r3);
    PlainAppend([Label(1) + "1"], r2);
    PlainAppend([Label(0) + p.uri], [Label(1) + "1"] + r2);
  }

  lemma FirstLinePlain(domain: string, name: string)
    requires OneLine(domain) && OneLine(name)
    ensures OneLine(FirstLine(domain, name))
  {
    assert OneLine(ASKS) && OneLine(ACCOUNT);
    assert OneLine(name + ACCOUNT);
    assert OneLine([' '] + (name + ACCOUNT));
  }

  lemma StatementLinesPlain(p: Params)
    requires OptionOk(IsStatement, p.statement)
    ensures Plain(StatementLines(p))
  {
    if p.statement.Some? { AllOneLine(IsStatementChar, p.statement.value); }
  }

  lemma LinesPlain(web: Web, p: Params, now: string)
    requires ValidParams(web, p, now) && OneLine(Name(p))
    ensures Plain(Lines(p, now))
  {
    FieldLinesPlain(web, p, now);
    DomainChars(p.domain);
    FirstLinePlain(p.domain, Name(p));
    StatementLinesPlain(p);
    PlainAppend(StatementLines(p), FieldLines(p, now));
    PlainAppend([FirstLine(p.domain, Name(p)), p.address], StatementLines(p) + FieldLines(p, now));
  }

  lemma ParsedAsLines(web: Web, p: Params, now: string)
    requires ValidParams(web, p, now) && OneLine(Name(p))
    ensures var raw := Join('\n', Lines(p, now)); Parse(web, raw) == ParseLines(web, raw, Lines(p, now))
  {
    var lines := Lines(p, now);
    LinesPlain(web, p, now);
    SplitUndoesJoin('\n', lines);
    JoinMembers('\n', lines, '\r');
    assert Join('\n', lines) != [];
  }

  lemma EmptyLineIsNoField()
    ensures FieldOf("") == -1
  {
    forall j | 0 <= j < 9 ensures !(Label(j) <= "") {
    }
    FirstMatch("", 9, 0);
  }

  lemma LinesShape(p: Params, now: string)
    ensures var lines, s := Lines(p, now), |StatementLines(p)|;
      && |lines| >= 8 && lines[0] == FirstLine(p.domain, Name(p)) && lines[1] == p.address
      && lines[2 + s..] == FieldLines(p, now) && lines[2..2 + s] == StatementLines(p)
      && lines[2 + s] == Label(0) + p.uri
  {
    hide FieldLines, FirstLine, Label, Name;
    FieldLinesStart(p, now);
    var lines, s := Lines(p, now), |StatementLines(p)|;
    assert lines[2..] == StatementLines(p) + FieldLines(p, now);
    assert lines[2 + s] == lines[2 + s..][0];
  }

  lemma FieldLinesStart(p: Params, now: string)
    ensures |FieldLines(p, now)| >= 5 && FieldLines(p, now)[0] == Label(0) + p.uri
  {
  }

  /** Where the fields start when the statement is not mistaken for one. */
  lemma StartAfterStatement(p: Params, now: string)
    requires Shown(p.statement).Some? ==> FieldOf(p.statement.value) == -1
    ensures FieldStart(Lines(p, now), 2) == 2 + |StatementLines(p)|
  {
    var lines, s := Lines(p, now), |StatementLines(p)|;
    LinesShape(p, now);
    EmptyLineIsNoField();
    LabelOf(0, p.uri);
    assert FieldStart(lines, 2 + s) == 2 + s;
    assert forall i | 2 <= i < 2 + s :: lines[i] == StatementLines(p)[i - 2];
    if s == 3 {
      assert FieldStart(lines, 4) == 5 && FieldStart(lines, 3) == 5;
    }
  }

  lemma KeepLine(line: string, rest: seq<string>)
    ensures TrimmedLines([line] + rest) == (if Trim(line) == [] then [] else [Trim(line)]) + TrimmedLines(rest)
  {
    assert ([line] + rest)[1..] == rest;
  }

  lemma StatementRead(p: Params)
    ensures StatementOf(StatementLines(p))
         == if Shown(p.statement).Some? && Trim(p.statement.value) != [] then Some(Trim(p.statement.value)) else None
  {
    TrimmedIsFixed("");
    KeepLine("", []);
    if Shown(p.statement).Some? {
      var s := p.statement.value;
      KeepLine(s, [""]);
      KeepLine("", [s] + [""]);
      assert StatementLines(p) == [""] + ([s] + [""]);
    } else {
      assert StatementLines(p) == [""] + [];
    }
  }

  lemma ValidFieldsOf(web: Web, p: Params, now: string, f: Fields)
    requires ValidParams(web, p, now)
    requires f.uri == p.uri && f.version == 1 && f.chainId == p.chainId && f.nonce == p.nonce && f.issuedAt == Some(IssuedAt(p, now))
    requires f.expirationTime == p.expirationTime && f.notBefore == p.notBefore && f.requestId == Shown(p.requestId)
    requires f.resources == p.resources
    ensures ValidFields(web, p.domain, p.address, Shown(p.statement), f)
  {
  }

  // ---- When the round trip holds ------------------------------------------

  predicate NameOk(name: string) {
    Trimmed(name) && NoTerminator(name)
  }

  /** Everything the text cannot carry otherwise: surrounding white space, line breaks, a statement that looks like a field. */
  predicate Carried(p: Params) {
    && Trimmed(p.address)
    && (Shown(p.statement).Some? ==> Trimmed(p.statement.value) && FieldOf(p.statement.value) == -1)
    && NameOk(Name(p))
  }

  function Expected(p: Params, now: string, raw: string): Message {
    Message(raw, p.domain, p.address, Shown(p.statement), p.uri, p.chainId, p.nonce, IssuedAt(p, now),
            p.expirationTime, p.notBefore, p.resources, Shown(p.requestId), Name(p))
  }

  lemma DerivedNamesOk(chainId: string)
    ensures NameOk(BlockchainName(chainId))
  {
  }

  /** Parameters whose texts are carried come back, absent options as absent. */
  lemma CarriedRoundTrip(web: Web, p: Params, now: string)
    requires ValidParams(web, p, now) && Carried(p)
    ensures var raw := Create(web, p, now).value; Parse(web, raw) == Some(Expected(p, now, raw))
  {
    hide Lines, FieldLines, StatementLines, StatementOf, FieldLinesFrom, FieldStart, FieldOf, ParseFirst, FirstLine, Trim, Join, ValidFields;
    var raw, lines := Create(web, p, now).value, Lines(p, now);
    ParsedAsLines(web, p, now);
    LinesShape(p, now);
    DomainChars(p.domain);
    FirstLineParsed(p.domain, Name(p));
    TrimmedIsFixed(Name(p));
    TrimmedIsFixed(p.address);
    StartAfterStatement(p, now);
    StatementRead(p);
    if Shown(p.statement).Some? { TrimmedIsFixed(p.statement.value); }
    var f := FieldsUndoLines(p, now);
    ValidFieldsOf(web, p, now, f);
  }

  lemma {:induction false} TrimEndSound(s: string)
    ensures |TrimEnd(s)| <= |s| && TrimEnd(s) == s[..|TrimEnd(s)|]
    ensures TrimEnd(s) != [] ==> !IsWhite(TrimEnd(s)[|TrimEnd(s)| - 1])
  {
    if s != [] && IsWhite(s[|s| - 1]) { TrimEndSound(s[..|s| - 1]); }
  }

  /** Trimming leaves nothing, or a trimmed part of the string. */
  lemma TrimSound(s: string)
    ensures Trim(s) == [] || Trimmed(Trim(s))
    ensures forall c | c in Trim(s) :: c in s
  {
    var (white, rest) := Span(IsWhite, s);
    TrimEndSound(rest);
    assert s == white + rest;
  }

  lemma AccountNameSound(rest: string)
    requires AccountName(rest).Some?
    ensures NoTerminator(AccountName(rest).value)
  {
  }

  lemma TrimKeeps(s: string)
    requires NoTerminator(s)
    ensures NoTerminator(Trim(s))
  {
    TrimSound(s);
    var t := Trim(s);
    forall i | 0 <= i < |t| ensures !IsTerminator(t[i]) {
      assert t[i] in s;
    }
  }

  lemma ParsedName(line: string)
    requires ParseFirst(line).Some?
    ensures NameOk(ParseFirst(line).value.1)
  {
    hide Trim, AccountName, Find;
    var rest := line[Find(line, ASKS) + |ASKS|..];
    if AccountName(rest).Some? {
      AccountNameSound(rest);
      TrimSound(AccountName(rest).value);
      TrimKeeps(AccountName(rest).value);
    }
    assert NameOk("blockchain");
  }

  lemma ParsedParts(web: Web, raw: string, lines: seq<string>, m: Message)
    requires ParseLines(web, raw, lines) == Some(m)
    ensures |lines| >= 4 && m.address == Trim(lines[1]) && NameOk(m.blockchain)
    ensures FieldStart(lines, 2) >= 2 && m.statement == StatementOf(lines[2..FieldStart(lines, 2)])
  {
    ParsedName(lines[0]);
  }

  /** A statement that looks like a field makes the text unparseable. */
  lemma FieldStatementRefused(web: Web, p: Params, now: string, raw: string)
    requires Shown(p.statement).Some? && FieldOf(p.statement.value) >= 0
    ensures ParseLines(web, raw, Lines(p, now)).None?
  {
    hide Lines, FieldOf, Label, TextOf, Store, FieldLines;
    var lines := Lines(p, now);
    LinesShape(p, now);
    EmptyLineIsNoField();
    assert lines[2] == "" && lines[3] == p.statement.value && lines[4] == "" by {
      assert forall i | 2 <= i < 5 :: lines[i] == StatementLines(p)[i - 2];
    }
    assert FieldStart(lines, 3) == 3 && FieldStart(lines, 2) == 3;
    var rest := lines[3..];
    assert rest == [lines[3]] + ([""] + lines[5..]);
    Consed(NO_FIELDS, lines[3], [""] + lines[5..]);
    var g := FieldLine(NO_FIELDS, lines[3]);
    if g.Some? {
      Consed(g.value, "", lines[5..]);
      assert FieldLine(g.value, "").None?;
    }
  }

  lemma OnlyCarried(web: Web, p: Params, now: string)
    requires ValidParams(web, p, now)
    requires var raw := Create(web, p, now).value; Parse(web, raw) == Some(Expected(p, now, raw))
    ensures Carried(p)
  {
    var raw, lines := Create(web, p, now).value, Lines(p, now);
    ParsedParts(web, raw, Split('\n', raw), Expected(p, now, raw));
    ParsedAsLines(web, p, now);
    ParsedParts(web, raw, lines, Expected(p, now, raw));
    LinesShape(p, now);
    TrimSound(p.address);
    if Shown(p.statement).Some? {
      StatementCarried(web, p, now, raw);
    }
  }

  lemma StatementCarried(web: Web, p: Params, now: string, raw: string)
    requires Shown(p.statement).Some? && ParseLines(web, raw, Lines(p, now)) == Some(Expected(p, now, raw))
    ensures Trimmed(p.statement.value) && FieldOf(p.statement.value) == -1
  {
    if FieldOf(p.statement.value) >= 0 { FieldStatementRefused(web, p, now, raw); }
    ParsedParts(web, raw, Lines(p, now), Expected(p, now, raw));
    StartAfterStatement(p, now);
    LinesShape(p, now);
    StatementRead(p);
    TrimSound(p.statement.value);
  }

  /**
   * Printing and parsing: for every parameter set validation accepts, the
   * parser returns every field exactly when the address, statement and
   * blockchain name are trimmed, free of line breaks and no field in disguise.
   */
  lemma RoundTripExactly(web: Web, p: Params, now: string)
    requires Create(web, p, now).Some?
    ensures var raw := Create(web, p, now).value;
      Parse(web, raw) == Some(Expected(p, now, raw)) <==> Carried(p)
  {
    if Carried(p) { CarriedRoundTrip(web, p, now); }
    var raw := Create(web, p, now).value;
    if Parse(web, raw) == Some(Expected(p, now, raw)) { OnlyCarried(web, p, now); }
  }

  // ---- The loops ----------------------------------------------------------

  method PushOptional(lines: seq<string>, k: nat, o: Option<string>) returns (r: seq<string>)
    ensures r == lines + OptionalLine(k, o)
  {
    r := lines;
    if o.Some? { r := r + [Label(k) + o.value]; }
  }

  method PushResources(lines: seq<string>, resources: seq<string>) returns (r: seq<string>)
    ensures r == lines + ResourceLines(resources)
  {
    r := lines;
    if |resources| > 0 {
      r := r + [Label(8)];
      for i := 0 to |resources|
        invariant r + Dashed(resources[i..]) == lines + ResourceLines(resources)
      {
        ghost var rest := resources[i..];
        assert rest[1..] == resources[i + 1..];
        assert r + ([ResourceLine(resources[i])] + Dashed(rest[1..])) == (r + [ResourceLine(resources[i])]) + Dashed(rest[1..]);
        r := r + [ResourceLine(resources[i])];
      }
      assert resources[|resources|..] == [];
    }
  }

  method PushFields(p: Params, now: string) returns (fields: seq<string>)
    ensures fields == FieldLines(p, now)
  {
    fields := [Label(0) + p.uri, Label(1) + "1", Label(2) + p.chainId, Label(3) + p.nonce, Label(4) + IssuedAt(p, now)];
    ghost var mandatory := fields;
    fields := PushOptional(fields, 5, p.expirationTime);
    fields := PushOptional(fields, 6, p.notBefore);
    fields := PushOptional(fields, 7, Shown(p.requestId));
    fields := PushResources(fields, p.resources);
    Regroup(mandatory, OptionalLine(5, p.expirationTime), OptionalLine(6, p.notBefore), OptionalLine(7, Shown(p.requestId)), ResourceLines(p.resources));
    Unfolded(mandatory, OptionalLines(p));
  }

  lemma Regroup(a: seq<string>, b: seq<string>, c: seq<string>, d: seq<string>, e: seq<string>)
    ensures a + b + c + d + e == a + (b + (c + (d + e)))
  {
  }

  lemma Unfolded(m: seq<string>, rest: seq<string>)
    requires |m| == 5
    ensures m + rest == [m[0]] + ([m[1]] + ([m[2]] + ([m[3]] + ([m[4]] + rest))))
  {
  }

  /** Pushes the lines in order and joins them. */
  method CreateSiwxMessage(web: Web, p: Params, now: string) returns (r: Option<string>)
    ensures r == Create(web, p, now)
  {
    if !ValidParams(web, p, now) { return None; }
    var head := [FirstLine(p.domain, Name(p)), p.address];
    var lines: seq<string> := [];
    if p.statement.Some? && p.statement.value != "" {
      lines := lines + [""];
      lines := lines + [p.statement.value];
    }
    lines := lines + [""];
    assert lines == StatementLines(p);
    var fields := PushFields(p, now);
    return Some(Join('\n', head + (lines + fields)));
  }

  /** The statement loop: every line up to the first field. */
  method ScanStatement(lines: seq<string>) returns (statementLines: seq<string>, fieldStart: int)
    requires |lines| >= 2
    ensures fieldStart == FieldStart(lines, 2)
    ensures fieldStart >= 0 ==> statementLines == lines[2..fieldStart]
  {
    hide FieldOf;
    statementLines := [];
    for i := 2 to |lines|
      invariant FieldStart(lines, 2) == FieldStart(lines, i)
      invariant statementLines == lines[2..i]
    {
      if FieldOf(lines[i]) >= 0 { return statementLines, i; }
      statementLines := statementLines + [lines[i]];
    }
    return statementLines, -1;
  }

  method ScanFields(lines: seq<string>, start: nat) returns (r: Option<Fields>)
    requires start <= |lines|
    ensures r == FieldLinesFrom(NO_FIELDS, lines[start..])
  {
    hide FieldLine;
    var f := NO_FIELDS;
    for i := start to |lines|
      invariant FieldLinesFrom(NO_FIELDS, lines[start..]) == FieldLinesFrom(f, lines[i..])
    {
      assert lines[i..][1..] == lines[i + 1..];
      f :- FieldLine(f, lines[i]);
    }
    return Some(f);
  }

  method ParseSiwxMessage(web: Web, raw: string) returns (r: Option<Message>)
    ensures r == Parse(web, raw)
  {
    if raw == [] || '\r' in raw { return None; }
    var lines := Split('\n', raw);
    if |lines| < 4 { return None; }
    var first :- ParseFirst(lines[0]);
    var address := Trim(lines[1]);
    var statementLines, start := ScanStatement(lines);
    if start == -1 { return None; }
    var statement := StatementOf(statementLines);
    var f :- ScanFields(lines, start);
    if !ValidFields(web, first.0, address, statement, f) { return None; }
    return Some(Message(raw, first.0, address, statement, f.uri, f.chainId, f.nonce, f.issuedAt.value,
                        f.expirationTime, f.notBefore, f.resources, f.requestId, first.1));
  }
}
