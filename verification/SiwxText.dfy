/** Which texts are sign-in messages, written out line by line, and what they mean. */
module SiwxText {
  import opened Bytes
  import opened Text
  import opened SiwxGrammar
  import opened SiwxMessage

  /** What stands between the request and the end of the first line. */
  datatype Ending = Named(name: string) | Other(text: string)

  /**
   * The lines of a message. `fields` holds the labelled lines as label numbers
   * and texts; `resources` the dashed lines behind `Resources:`, when there is one.
   */
  datatype SiwxText = SiwxText(
    before: string,
    ending: Ending,
    address: string,
    statement: seq<string>,
    fields: seq<(nat, string)>,
    resources: Option<seq<string>>)

  // ---- The text -----------------------------------------------------------

  function EndingOut(e: Ending): string {
    match e
    case Named(name) => [' '] + (name + ACCOUNT)
    case Other(text) => text
  }

  function FirstOut(t: SiwxText): string {
    t.before + (ASKS + EndingOut(t.ending))
  }

  function FieldsOut(fields: seq<(nat, string)>): seq<string> {
    if fields == [] then [] else [Label(fields[0].0) + fields[0].1] + FieldsOut(fields[1..])
  }

  function ResourcesOut(rs: Option<seq<string>>): seq<string> {
    if rs.None? then [] else [Label(8)] + Dashed(rs.value)
  }

  function LinesOut(t: SiwxText): seq<string> {
    [FirstOut(t), t.address] + (t.statement + (FieldsOut(t.fields) + ResourcesOut(t.resources)))
  }

  function TextOut(t: SiwxText): string {
    Join('\n', LinesOut(t))
  }

  // ---- Which texts are well formed ----------------------------------------

  predicate StartsNoField(line: string) {
    forall k | 0 <= k <= 8 :: !(Label(k) <= line)
  }

  /** Field lines in the order of their labels, none twice. */
  predicate Increasing(fields: seq<(nat, string)>, above: int) {
    fields == [] || (above < fields[0].0 < 8 && Increasing(fields[1..], fields[0].0))
  }

  ghost predicate GoodEnding(e: Ending) {
    match e
    case Named(name) => name != [] && NoTerminator(name)
    case Other(text) => forall name :: name != [] && NoTerminator(name) ==> text != [' '] + (name + ACCOUNT)
  }

  /** The first line asks once, before anything else; only the field lines start with labels, and they come in order. */
  ghost predicate GoodText(t: SiwxText) {
    && (forall i | 0 <= i < |t.before| :: !(ASKS <= FirstOut(t)[i..]))
    && GoodEnding(t.ending)
    && (forall i | 0 <= i < |t.statement| :: StartsNoField(t.statement[i]))
    && Increasing(t.fields, -1)
    && Plain(LinesOut(t))
  }

  // ---- What it means ------------------------------------------------------

  /** The text behind label `k`, if there is such a line. */
  function TextAt(fields: seq<(nat, string)>, k: nat): Option<string> {
    if fields == [] then None else if fields[0].0 == k then Some(fields[0].1) else TextAt(fields[1..], k)
  }

  ghost predicate OneKept(lines: seq<string>, s: string, k: int) {
    0 <= k < |lines| && Trim(lines[k]) == s && forall i | 0 <= i < |lines| && i != k :: Trim(lines[i]) == []
  }

  /** Blank lines aside, the statement is one line or there is none. */
  ghost predicate StatementIs(lines: seq<string>, statement: Option<string>) {
    match statement
    case None => forall i | 0 <= i < |lines| :: Trim(lines[i]) == []
    case Some(s) => s != [] && exists k :: OneKept(lines, s, k)
  }

  function EndingMeaning(e: Ending): string {
    match e
    case Named(name) => if Trim(name) == [] then "blockchain" else Trim(name)
    case Other(_) => "blockchain"
  }

  ghost predicate Means(t: SiwxText, m: Message) {
    && m.raw == TextOut(t)
    && m.domain == Trim(t.before) && m.blockchain == EndingMeaning(t.ending) && m.address == Trim(t.address)
    && StatementIs(t.statement, m.statement)
    && TextAt(t.fields, 0) == Some(m.uri) && TextAt(t.fields, 1) == Some("1") && TextAt(t.fields, 2) == Some(m.chainId)
    && TextAt(t.fields, 3) == Some(m.nonce) && TextAt(t.fields, 4) == Some(m.issuedAt)
    && TextAt(t.fields, 5) == m.expirationTime && TextAt(t.fields, 6) == m.notBefore && TextAt(t.fields, 7) == m.requestId
    && m.resources == if t.resources.Some? then t.resources.value else []
  }

  /** Every part is in its grammar. */
  predicate GoodMessage(web: Web, m: Message) {
    && IsDomain(m.domain) && m.address != [] && IsUri(web, m.uri)
    && IsCaip2(m.chainId) && Eip155Ok(m.chainId, m.address) && IsNonce(m.nonce) && IsRfc3339(web, m.issuedAt)
    && (m.statement.Some? ==> IsStatement(m.statement.value))
    && (m.expirationTime.Some? ==> IsRfc3339(web, m.expirationTime.value))
    && (m.notBefore.Some? ==> IsRfc3339(web, m.notBefore.value))
    && (m.requestId.Some? ==> IsRequestId(m.requestId.value))
    && (forall i | 0 <= i < |m.resources| :: IsUri(web, m.resources[i]))
  }

  // ---- Labels -------------------------------------------------------------

  lemma NoFieldExactly(line: string)
    ensures FieldOf(line) == -1 <==> StartsNoField(line)
  {
    if StartsNoField(line) {
      FirstMatch(line, 9, 0);
    } else {
      var k :| 0 <= k <= 8 && Label(k) <= line;
      NotNone(line, 0, k);
    }
  }

  lemma {:induction false} NotNone(line: string, i: nat, k: nat)
    requires i <= k <= 8 && Label(k) <= line
    ensures FieldFrom(line, i) >= 0
    decreases k - i
  {
    if !(Label(i) <= line) { NotNone(line, i + 1, k); }
  }

  lemma LabelledLine(line: string)
    requires FieldOf(line) >= 0
    ensures line == Label(FieldOf(line)) + TextOf(line, FieldOf(line))
  {
    var k := FieldOf(line);
    assert Label(k) <= line;
  }

  // ---- The field loop, forwards -------------------------------------------

  function Or(o: Option<string>, s: string): string {
    if o.Some? then o.value else s
  }

  function OrElse(o: Option<string>, p: Option<string>): Option<string> {
    if o.Some? then o else p
  }

  /** `g` is `f` with the fields' texts written over it. */
  predicate Written(f: Fields, g: Fields, fields: seq<(nat, string)>) {
    && g.uri == Or(TextAt(fields, 0), f.uri) && g.version == (if TextAt(fields, 1).Some? then 1 else f.version)
    && g.chainId == Or(TextAt(fields, 2), f.chainId) && g.nonce == Or(TextAt(fields, 3), f.nonce)
    && g.issuedAt == OrElse(TextAt(fields, 4), f.issuedAt)
    && g.expirationTime == OrElse(TextAt(fields, 5), f.expirationTime)
    && g.notBefore == OrElse(TextAt(fields, 6), f.notBefore) && g.requestId == OrElse(TextAt(fields, 7), f.requestId)
    && g.resources == f.resources && g.inResources == f.inResources
  }

  predicate VersionOk(fields: seq<(nat, string)>) {
    TextAt(fields, 1).Some? ==> TextAt(fields, 1).value == "1"
  }

  lemma {:induction false} NotAt(fields: seq<(nat, string)>, above: int, k: nat)
    requires Increasing(fields, above) && k <= above
    ensures TextAt(fields, k) == None
  {
    if fields != [] { NotAt(fields[1..], fields[0].0, k); }
  }

  lemma StoreField(f: Fields, k: nat, text: string) returns (g: Fields)
    requires k < 8 && (k == 1 ==> text == "1") && Below(f, k)
    ensures Store(f.(seen := f.seen + {k}, previous := k), k, text) == Some(g)
    ensures Below(g, k + 1) && g.previous == k && Written(f, g, [(k, text)])
  {
    g := Store(f.(seen := f.seen + {k}, previous := k), k, text).value;
    assert forall j :: TextAt([(k, text)], j) == if j == k then Some(text) else None by {
      forall j ensures TextAt([(k, text)], j) == if j == k then Some(text) else None {
        assert [(k, text)][1..] == [];
      }
    }
  }

  lemma TextCons(p: (nat, string), rest: seq<(nat, string)>, k: nat)
    requires Increasing(rest, p.0)
    ensures TextAt([p] + rest, k) == OrElse(TextAt([p], k), TextAt(rest, k))
    ensures TextAt([p], k).None? || TextAt(rest, k).None?
  {
    assert ([p] + rest)[1..] == rest && [p][1..] == [];
    if p.0 == k { NotAt(rest, k, k); }
  }

  lemma WrittenThen(f: Fields, g: Fields, h: Fields, p: (nat, string), rest: seq<(nat, string)>)
    requires Written(f, g, [p]) && Written(g, h, rest) && Increasing(rest, p.0)
    ensures Written(f, h, [p] + rest)
  {
    hide TextAt, Increasing;
    TextCons(p, rest, 0);
    TextCons(p, rest, 1);
    TextCons(p, rest, 2);
    TextCons(p, rest, 3);
    TextCons(p, rest, 4);
    TextCons(p, rest, 5);
    TextCons(p, rest, 6);
    TextCons(p, rest, 7);
  }

  lemma NothingWritten(f: Fields)
    ensures Written(f, f, [])
  {
  }

  lemma FieldsForward(f: Fields, fields: seq<(nat, string)>, rest: seq<string>) returns (g: Fields)
    requires Increasing(fields, f.previous) && Below(f, f.previous + 1) && VersionOk(fields)
    ensures FieldLinesFrom(f, FieldsOut(fields) + rest) == FieldLinesFrom(g, rest)
    ensures Written(f, g, fields) && Below(g, g.previous + 1) && (fields == [] ==> g == f) && (fields != [] ==> g.previous < 8)
    decreases |fields|
  {
    hide Written, Store, FieldLinesFrom, Label;
    if fields == [] {
      g := f;
      assert FieldsOut(fields) + rest == rest;
      NothingWritten(f);
    } else {
      var (k, text) := fields[0];
      VersionStep(fields, f.previous);
      var h := StoreField(f, k, text);
      var tail := FieldsOut(fields[1..]) + rest;
      StoreThen(f, k, text, h, tail);
      assert FieldsOut(fields) + rest == [Label(k) + text] + tail;
      g := FieldsForward(h, fields[1..], rest);
      WrittenThen(f, h, g, fields[0], fields[1..]);
      assert [fields[0]] + fields[1..] == fields;
    }
  }

  lemma VersionStep(fields: seq<(nat, string)>, above: int)
    requires fields != [] && VersionOk(fields) && Increasing(fields, above)
    ensures (fields[0].0 == 1 ==> fields[0].1 == "1") && VersionOk(fields[1..])
  {
    if fields[0].0 == 1 { NotAt(fields[1..], 1, 1); }
  }

  /** The resource lines at the end. */
  lemma ResourcesLabel(f: Fields)
    requires Below(f, 8)
    ensures FieldLine(f, Label(8)) == Some(f.(seen := f.seen + {8}, previous := 8, inResources := true))
  {
    hide Label, FieldLine;
    StoreLine(f, 8, "");
    assert Label(8) + "" == Label(8);
  }

  lemma ResourcesForward(f: Fields, rs: Option<seq<string>>) returns (g: Fields)
    requires Below(f, 8) && f.resources == [] && !f.inResources
    ensures FieldLinesFrom(f, ResourcesOut(rs)) == Some(g)
    ensures g == f.(resources := if rs.Some? then rs.value else [], inResources := g.inResources, seen := g.seen, previous := g.previous)
  {
    if rs.None? {
      g := f;
    } else {
      hide Label, FieldLine, FieldLinesFrom;
      ResourcesLabel(f);
      var h := f.(seen := f.seen + {8}, previous := 8, inResources := true);
      Consed(f, Label(8), Dashed(rs.value));
      ResourcesStep(h, rs.value);
      g := h.(resources := rs.value);
      assert [] + rs.value == rs.value;
    }
  }

  // ---- The field loop, backwards ------------------------------------------

  /** A line taken after the resources label is a resource. */
  lemma TakenDashed(f: Fields, line: string)
    requires FieldLine(f, line).Some? && f.inResources && f.previous == 8 && 8 in f.seen
    ensures |line| >= 2 && line == ResourceLine(line[2..])
    ensures var g := FieldLine(f, line).value; g.inResources && g.previous == 8 && 8 in g.seen
  {
    hide FieldOf, Label, TextOf;
    assert FieldOf(line) == -1;
  }

  /** A field line taken before the resources label starts with a later label than any before it. */
  lemma TakenField(f: Fields, line: string)
    requires FieldLine(f, line).Some? && !f.inResources && Below(f, f.previous + 1)
    requires -1 <= f.previous && (f.previous >= 0 ==> f.previous in f.seen)
    ensures var g, k := FieldLine(f, line).value, FieldOf(line);
      f.previous < k && g.previous == k && k in g.seen && Below(g, k + 1) && (g.inResources <==> k == 8)
  {
    hide FieldOf, Label, TextOf;
  }

  lemma {:induction false} DashedBackward(f: Fields, lines: seq<string>) returns (rs: seq<string>)
    requires FieldLinesFrom(f, lines).Some? && f.inResources && f.previous == 8 && 8 in f.seen
    ensures lines == Dashed(rs)
    decreases |lines|
  {
    if lines == [] {
      rs := [];
    } else {
      hide FieldLine, ResourceLine;
      var line := lines[0];
      var g := FieldLine(f, line).value;
      TakenDashed(f, line);
      var more := DashedBackward(g, lines[1..]);
      rs := [line[2..]] + more;
      assert rs[1..] == more && line == ResourceLine(line[2..]);
      assert lines == [line] + lines[1..];
    }
  }

  lemma {:induction false} FieldsBackward(f: Fields, lines: seq<string>) returns (fields: seq<(nat, string)>, rs: Option<seq<string>>)
    requires FieldLinesFrom(f, lines).Some? && !f.inResources && -1 <= f.previous < 8 && Below(f, f.previous + 1)
    requires f.previous >= 0 ==> f.previous in f.seen
    ensures lines == FieldsOut(fields) + ResourcesOut(rs)
    ensures Increasing(fields, f.previous) && VersionOk(fields)
    decreases |lines|
  {
    hide Label, TextOf, FieldLine, FieldOf;
    if lines == [] {
      fields, rs := [], None;
    } else {
      var line := lines[0];
      var k := FieldOf(line);
      TakenField(f, line);
      LabelledLine(line);
      assert lines == [line] + lines[1..];
      var g := FieldLine(f, line).value;
      if k == 8 {
        EmptyText(f, line);
        var dashed := DashedBackward(g, lines[1..]);
        fields, rs := [], Some(dashed);
        assert line + "" == line && Label(8) + "" == Label(8);
        assert [] + ResourcesOut(rs) == ResourcesOut(rs);
      } else {
        var more, last := FieldsBackward(g, lines[1..]);
        fields, rs := [(k, TextOf(line, k))] + more, last;
        FieldsCons(k, TextOf(line, k), more, ResourcesOut(rs));
        VersionCons(f, line, more);
      }
    }
  }

  lemma EmptyText(f: Fields, line: string)
    requires FieldLine(f, line).Some? && FieldOf(line) == 8
    ensures TextOf(line, 8) == ""
  {
  }

  lemma FieldsCons(k: nat, text: string, more: seq<(nat, string)>, rest: seq<string>)
    ensures FieldsOut([(k, text)] + more) + rest == [Label(k) + text] + (FieldsOut(more) + rest)
    ensures ([(k, text)] + more)[1..] == more
  {
    assert ([(k, text)] + more)[1..] == more;
  }

  lemma VersionCons(f: Fields, line: string, more: seq<(nat, string)>)
    requires FieldLine(f, line).Some? && 0 <= FieldOf(line) < 8 && VersionOk(more)
    ensures VersionOk([(FieldOf(line), TextOf(line, FieldOf(line)))] + more)
  {
    var k := FieldOf(line);
    assert ([(k, TextOf(line, k))] + more)[1..] == more;
  }

  // ---- The statement ------------------------------------------------------

  lemma {:induction false} KeptBlank(lines: seq<string>)
    ensures TrimmedLines(lines) == [] <==> forall i | 0 <= i < |lines| :: Trim(lines[i]) == []
  {
    if lines != [] {
      KeptBlank(lines[1..]);
      assert forall i | 1 <= i < |lines| :: lines[i] == lines[1..][i - 1];
      assert forall i | 0 <= i < |lines| - 1 :: lines[1..][i] == lines[i + 1];
    }
  }

  lemma KeptBehind(lines: seq<string>, s: string, k: int)
    requires k > 0
    ensures OneKept(lines, s, k) <==> lines != [] && Trim(lines[0]) == [] && OneKept(lines[1..], s, k - 1)
  {
    hide Trim;
    if lines != [] {
      var rest := lines[1..];
      assert forall i | 1 <= i < |lines| :: lines[i] == rest[i - 1];
      assert forall i | 0 <= i < |rest| :: rest[i] == lines[i + 1];
    }
  }

  lemma KeptFirst(lines: seq<string>, s: string)
    requires s != []
    ensures OneKept(lines, s, 0) <==> lines != [] && Trim(lines[0]) == s && TrimmedLines(lines[1..]) == []
  {
    if lines != [] {
      KeptBlank(lines[1..]);
      hide Trim, TrimmedLines;
      assert forall i | 1 <= i < |lines| :: lines[i] == lines[1..][i - 1];
      assert forall i | 0 <= i < |lines| - 1 :: lines[1..][i] == lines[i + 1];
    }
  }

  lemma KeptUnfold(lines: seq<string>, s: string)
    requires lines != [] && s != []
    ensures TrimmedLines(lines) == [s] <==>
      if Trim(lines[0]) == [] then TrimmedLines(lines[1..]) == [s] else Trim(lines[0]) == s && TrimmedLines(lines[1..]) == []
  {
    hide Trim;
    var x, more := Trim(lines[0]), TrimmedLines(lines[1..]);
    if x != [] && [x] + more == [s] {
      assert ([x] + more)[0] == x && |[x] + more| == 1 + |more|;
    }
  }

  lemma {:induction false} KeptOne(lines: seq<string>, s: string)
    requires s != []
    ensures TrimmedLines(lines) == [s] <==> exists k :: OneKept(lines, s, k)
    decreases |lines|
  {
    if lines != [] {
      KeptOne(lines[1..], s);
      KeptUnfold(lines, s);
      KeptFirst(lines, s);
      hide Trim, TrimmedLines, OneKept;
      if Trim(lines[0]) == [] && TrimmedLines(lines[1..]) == [s] {
        var k :| OneKept(lines[1..], s, k);
        InRange(lines[1..], s, k);
        KeptBehind(lines, s, k + 1);
      }
      if k :| OneKept(lines, s, k) {
        InRange(lines, s, k);
        if k > 0 { KeptBehind(lines, s, k); }
      }
    }
  }

  lemma InRange(lines: seq<string>, s: string, k: int)
    requires OneKept(lines, s, k)
    ensures 0 <= k < |lines|
  {
  }

  lemma TwoKeptJoin(kept: seq<string>)
    requires |kept| >= 2
    ensures '\n' in Join('\n', kept)
  {
    var j := Join('\n', kept);
    assert j[|kept[0]|] == '\n';
  }

  /** With the statement in its grammar, joining the kept lines leaves one line or none. */
  lemma StatementExactly(lines: seq<string>, s: Option<string>)
    requires OptionOk(IsStatement, s)
    ensures StatementOf(lines) == s <==> StatementIs(lines, s)
  {
    var kept := TrimmedLines(lines);
    KeptBlank(lines);
    KeptNonEmpty(lines);
    if s.Some? {
      if s.value != [] {
        KeptOne(lines, s.value);
      }
      if |kept| >= 2 { TwoKeptJoin(kept); }
    }
  }

  lemma {:induction false} KeptNonEmpty(lines: seq<string>)
    ensures forall i | 0 <= i < |TrimmedLines(lines)| :: TrimmedLines(lines)[i] != []
  {
    if lines != [] { KeptNonEmpty(lines[1..]); }
  }

  // ---- The first line -----------------------------------------------------

  lemma {:induction false} FindIs(line: string, part: string, n: nat)
    requires n <= |line| && part <= line[n..] && forall i | 0 <= i < n :: !(part <= line[i..])
    ensures Find(line, part) == n
    decreases n
  {
    if n > 0 {
      assert line[0..] == line;
      forall i | 0 <= i < n - 1 ensures !(part <= line[1..][i..]) {
        assert line[1..][i..] == line[i + 1..];
      }
      assert line[1..][n - 1..] == line[n..];
      FindIs(line[1..], part, n - 1);
    } else {
      assert line[0..] == line;
    }
  }

  lemma {:induction false} FindIsFirst(line: string, part: string)
    requires Find(line, part) >= 0
    ensures forall i | 0 <= i < Find(line, part) :: !(part <= line[i..])
  {
    if !(part <= line) {
      FindIsFirst(line[1..], part);
      forall i | 0 <= i < Find(line, part) ensures !(part <= line[i..]) {
        if i > 0 { assert line[1..][i - 1..] == line[i..]; } else { assert line[0..] == line; }
      }
    }
  }

  lemma NameShape(rest: string)
    requires AccountName(rest).Some?
    ensures var name := AccountName(rest).value;
      name != [] && NoTerminator(name) && rest == [' '] + (name + ACCOUNT)
  {
    var n := |rest| - |ACCOUNT|;
    var name := rest[1..n];
    assert rest == [rest[0]] + (rest[1..n] + rest[n..]);
    assert forall i | 0 <= i < |name| :: name[i] == rest[i + 1];
  }

  lemma EndingReads(e: Ending)
    requires GoodEnding(e)
    ensures AccountName(EndingOut(e)) == match e case Named(name) => Some(name) case Other(_) => None
  {
    match e
    case Named(name) => AccountNameOf(name);
    case Other(text) =>
      if name :| AccountName(text) == Some(name) {
        NameShape(text);
        assert false;
      }
  }

  lemma EndingBackward(rest: string) returns (e: Ending)
    ensures GoodEnding(e) && rest == EndingOut(e)
  {
    if AccountName(rest).Some? {
      NameShape(rest);
      e := Named(AccountName(rest).value);
    } else {
      e := Other(rest);
      forall name | name != [] && NoTerminator(name) ensures rest != [' '] + (name + ACCOUNT) {
        AccountNameOf(name);
      }
    }
  }

  lemma FirstForward(t: SiwxText)
    requires GoodEnding(t.ending) && forall i | 0 <= i < |t.before| :: !(ASKS <= FirstOut(t)[i..])
    ensures ParseFirst(FirstOut(t)) == Some((Trim(t.before), EndingMeaning(t.ending)))
  {
    hide Trim, Find, AccountName, EndingOut, GoodEnding;
    var line, n := FirstOut(t), |t.before|;
    assert line[n..] == ASKS + EndingOut(t.ending) && line[..n] == t.before;
    assert ASKS <= line[n..];
    FindIs(line, ASKS, n);
    EndingReads(t.ending);
    assert line[n + |ASKS|..] == EndingOut(t.ending);
    TrimNothing();
  }

  lemma TrimNothing()
    ensures Trim("") == ""
  {
  }

  lemma SplitAtPart(line: string, part: string, n: nat)
    requires n <= |line| && part <= line[n..]
    ensures n + |part| <= |line| && line == line[..n] + (part + line[n + |part|..])
  {
    assert line[n..] == part + line[n..][|part|..];
    assert line[n..][|part|..] == line[n + |part|..];
  }

  lemma FirstBackward(line: string) returns (before: string, ending: Ending)
    requires ParseFirst(line).Some?
    ensures GoodEnding(ending) && line == before + (ASKS + EndingOut(ending))
    ensures forall i | 0 <= i < |before| :: !(ASKS <= line[i..])
  {
    hide Trim, AccountName, EndingOut, GoodEnding, Find;
    var n := Find(line, ASKS);
    FindIsFirst(line, ASKS);
    SplitAtPart(line, ASKS, n);
    before := line[..n];
    ending := EndingBackward(line[n + |ASKS|..]);
  }

  // ---- Where the fields start ---------------------------------------------

  lemma {:induction false} StartIs(lines: seq<string>, i: nat, n: nat)
    requires i <= n < |lines| && FieldOf(lines[n]) >= 0 && forall j | i <= j < n :: FieldOf(lines[j]) == -1
    ensures FieldStart(lines, i) == n
    decreases n - i
  {
    hide FieldOf;
    if i < n { StartIs(lines, i + 1, n); }
  }

  lemma {:induction false} StartShape(lines: seq<string>, i: nat)
    requires FieldStart(lines, i) >= 0
    ensures FieldOf(lines[FieldStart(lines, i)]) >= 0
    ensures forall j | i <= j < FieldStart(lines, i) :: FieldOf(lines[j]) == -1
    decreases |lines| - i
  {
    hide FieldOf;
    if FieldOf(lines[i]) < 0 { StartShape(lines, i + 1); }
  }

  lemma OutStarts(fields: seq<(nat, string)>)
    requires fields != [] && fields[0].0 <= 8
    ensures FieldsOut(fields) != [] && FieldOf(FieldsOut(fields)[0]) >= 0
  {
    LabelOf(fields[0].0, fields[0].1);
  }

  lemma TwoFields(fields: seq<(nat, string)>)
    requires TextAt(fields, 0).Some? && TextAt(fields, 1).Some?
    ensures |fields| >= 2 && |FieldsOut(fields)| >= 2
  {
    assert TextAt(fields[1..], 0).Some? || TextAt(fields[1..], 1).Some?;
    assert FieldsOut(fields[1..]) != [];
  }

  // ---- Lines and texts ----------------------------------------------------

  lemma JoinCons(sep: char, a: string, rest: seq<string>)
    requires rest != []
    ensures Join(sep, [a] + rest) == a + ([sep] + Join(sep, rest))
  {
    assert ([a] + rest)[1..] == rest;
  }

  lemma {:induction false} JoinUndoesSplit(sep: char, s: string)
    ensures Join(sep, Split(sep, s)) == s
    decreases |s|
  {
    hide Split, IndexOf;
    var i := IndexOf(s, sep);
    SplitUnfolds(sep, s);
    if i >= 0 {
      JoinUndoesSplit(sep, s[i + 1..]);
      JoinCons(sep, s[..i], Split(sep, s[i + 1..]));
      assert s == s[..i] + ([sep] + s[i + 1..]);
    }
  }

  lemma {:induction false} SplitParts(sep: char, s: string, c: char)
    requires c == sep || c !in s
    ensures forall i | 0 <= i < |Split(sep, s)| :: c !in Split(sep, s)[i]
    decreases |s|
  {
    var i := IndexOf(s, sep);
    SplitUnfolds(sep, s);
    if i >= 0 {
      SplitParts(sep, s[i + 1..], c);
      assert c !in s[..i];
    } else {
      assert c !in s;
    }
  }

  lemma LinesRead(t: SiwxText)
    requires Plain(LinesOut(t)) && |LinesOut(t)| >= 4
    ensures TextOut(t) != [] && '\r' !in TextOut(t) && Split('\n', TextOut(t)) == LinesOut(t)
  {
    var lines := LinesOut(t);
    hide LinesOut;
    SplitUndoesJoin('\n', lines);
    JoinMembers('\n', lines, '\r');
    assert Join('\n', lines) == lines[0] + (['\n'] + Join('\n', lines[1..]));
  }

  // ---- Every well-formed text is parsed as its meaning --------------------

  lemma LinesInPlace(t: SiwxText)
    ensures var lines, n := LinesOut(t), 2 + |t.statement|;
      && |lines| == n + |FieldsOut(t.fields)| + |ResourcesOut(t.resources)|
      && lines[0] == FirstOut(t) && lines[1] == t.address && lines[2..n] == t.statement
      && lines[n..] == FieldsOut(t.fields) + ResourcesOut(t.resources)
      && (forall j | 2 <= j < n :: lines[j] == t.statement[j - 2])
      && (FieldsOut(t.fields) != [] ==> lines[n] == FieldsOut(t.fields)[0])
  {
    hide FieldsOut, ResourcesOut, FirstOut;
  }

  lemma StartOfText(t: SiwxText)
    requires GoodText(t) && t.fields != []
    ensures FieldStart(LinesOut(t), 2) == 2 + |t.statement|
  {
    hide FieldsOut, ResourcesOut, FirstOut, LinesOut, Plain, StartsNoField, FieldOf;
    var lines, n := LinesOut(t), 2 + |t.statement|;
    LinesInPlace(t);
    OutStarts(t.fields);
    forall j | 2 <= j < n ensures FieldOf(lines[j]) == -1 {
      NoFieldExactly(t.statement[j - 2]);
    }
    StartIs(lines, 2, n);
  }

  lemma FieldsOfText(t: SiwxText, m: Message) returns (f: Fields)
    requires Increasing(t.fields, -1) && Means(t, m)
    ensures FieldLinesFrom(NO_FIELDS, FieldsOut(t.fields) + ResourcesOut(t.resources)) == Some(f)
    ensures f.uri == m.uri && f.version == 1 && f.chainId == m.chainId && f.nonce == m.nonce && f.issuedAt == Some(m.issuedAt)
    ensures f.expirationTime == m.expirationTime && f.notBefore == m.notBefore && f.requestId == m.requestId
    ensures f.resources == m.resources
  {
    hide FieldLinesFrom, FieldsOut, ResourcesOut, TextOut, StatementIs;
    var g := FieldsForward(NO_FIELDS, t.fields, ResourcesOut(t.resources));
    f := ResourcesForward(g, t.resources);
  }

  lemma TextParses(web: Web, t: SiwxText, m: Message)
    requires GoodText(t) && Means(t, m) && GoodMessage(web, m)
    ensures Parse(web, TextOut(t)) == Some(m)
  {
    TwoFields(t.fields);
    var f := FieldsOfText(t, m);
    StatementExactly(t.statement, m.statement);
    FirstForward(t);
    StartOfText(t);
    LinesInPlace(t);
    LinesRead(t);
    hide TextOut, LinesOut, FieldsOut, ResourcesOut, FieldLinesFrom, ParseFirst, FieldStart, StatementOf, Trim, FirstOut, Split, Plain,
         StartsNoField, IsDomain, IsUri, IsCaip2, Eip155Ok, IsNonce, IsRfc3339, IsStatement, IsRequestId, StatementIs, GoodEnding;
    TextParsesLines(web, TextOut(t), LinesOut(t), t, m, f);
  }

  lemma TextParsesLines(web: Web, raw: string, lines: seq<string>, t: SiwxText, m: Message, f: Fields)
    requires |lines| >= 4 && ParseFirst(lines[0]) == Some((m.domain, m.blockchain)) && Trim(lines[1]) == m.address && m.raw == raw
    requires FieldStart(lines, 2) == 2 + |t.statement| && lines[2..2 + |t.statement|] == t.statement
    requires StatementOf(t.statement) == m.statement
    requires FieldLinesFrom(NO_FIELDS, lines[2 + |t.statement|..]) == Some(f)
    requires f.uri == m.uri && f.version == 1 && f.chainId == m.chainId && f.nonce == m.nonce && f.issuedAt == Some(m.issuedAt)
    requires f.expirationTime == m.expirationTime && f.notBefore == m.notBefore && f.requestId == m.requestId
    requires f.resources == m.resources && GoodMessage(web, m)
    ensures ParseLines(web, raw, lines) == Some(m)
  {
    hide FieldLinesFrom, ParseFirst, FieldStart, StatementOf, Trim,
         IsDomain, IsUri, IsCaip2, Eip155Ok, IsNonce, IsRfc3339, IsStatement, IsRequestId;
  }

  // ---- Every parsed text is well formed -----------------------------------

  lemma ParsedLines(web: Web, raw: string, lines: seq<string>, m: Message) returns (start: nat, f: Fields)
    requires ParseLines(web, raw, lines) == Some(m)
    ensures |lines| >= 4 && ParseFirst(lines[0]) == Some((m.domain, m.blockchain)) && m.address == Trim(lines[1]) && m.raw == raw
    ensures 2 <= start < |lines| && FieldStart(lines, 2) == start && StatementOf(lines[2..start]) == m.statement
    ensures FieldLinesFrom(NO_FIELDS, lines[start..]) == Some(f)
    ensures m.uri == f.uri && f.version == 1 && m.chainId == f.chainId && m.nonce == f.nonce && f.issuedAt == Some(m.issuedAt)
    ensures m.expirationTime == f.expirationTime && m.notBefore == f.notBefore && m.requestId == f.requestId
    ensures m.resources == f.resources && GoodMessage(web, m)
  {
    hide FieldLinesFrom, ParseFirst, FieldStart, StatementOf, Trim,
         IsDomain, IsUri, IsCaip2, Eip155Ok, IsNonce, IsRfc3339, IsStatement, IsRequestId;
    var pair := ParseFirst(lines[0]).value;
    assert pair == (pair.0, pair.1);
    start := FieldStart(lines, 2);
    f := FieldLinesFrom(NO_FIELDS, lines[start..]).value;
  }

  lemma PresentFields(web: Web, fields: seq<(nat, string)>, m: Message, f: Fields)
    requires Written(NO_FIELDS, f.(resources := [], inResources := false), fields) && VersionOk(fields) && GoodMessage(web, m)
    requires m.uri == f.uri && f.version == 1 && m.chainId == f.chainId && m.nonce == f.nonce && f.issuedAt == Some(m.issuedAt)
    requires m.expirationTime == f.expirationTime && m.notBefore == f.notBefore && m.requestId == f.requestId
    ensures TextAt(fields, 0) == Some(m.uri) && TextAt(fields, 1) == Some("1") && TextAt(fields, 2) == Some(m.chainId)
    ensures TextAt(fields, 3) == Some(m.nonce) && TextAt(fields, 4) == Some(m.issuedAt)
    ensures TextAt(fields, 5) == m.expirationTime && TextAt(fields, 6) == m.notBefore && TextAt(fields, 7) == m.requestId
  {
    assert m.uri != "" && m.nonce != "" && m.chainId != "";
    hide TextAt, IsUri, IsNonce, IsCaip2, IsRfc3339, IsDomain, Eip155Ok;
  }

  lemma FieldsRead(web: Web, lines: seq<string>, m: Message, f: Fields)
      returns (fields: seq<(nat, string)>, rs: Option<seq<string>>)
    requires FieldLinesFrom(NO_FIELDS, lines) == Some(f) && GoodMessage(web, m)
    requires m.uri == f.uri && f.version == 1 && m.chainId == f.chainId && m.nonce == f.nonce && f.issuedAt == Some(m.issuedAt)
    requires m.expirationTime == f.expirationTime && m.notBefore == f.notBefore && m.requestId == f.requestId
    requires m.resources == f.resources
    ensures lines == FieldsOut(fields) + ResourcesOut(rs) && Increasing(fields, -1)
    ensures TextAt(fields, 0) == Some(m.uri) && TextAt(fields, 1) == Some("1") && TextAt(fields, 2) == Some(m.chainId)
    ensures TextAt(fields, 3) == Some(m.nonce) && TextAt(fields, 4) == Some(m.issuedAt)
    ensures TextAt(fields, 5) == m.expirationTime && TextAt(fields, 6) == m.notBefore && TextAt(fields, 7) == m.requestId
    ensures m.resources == if rs.Some? then rs.value else []
  {
    fields, rs := FieldsBackward(NO_FIELDS, lines);
    var g := FieldsForward(NO_FIELDS, fields, ResourcesOut(rs));
    var h := ResourcesForward(g, rs);
    hide FieldLinesFrom, FieldsOut, ResourcesOut, TextAt, GoodMessage, VersionOk, Increasing, Dashed;
    assert h == f;
    PresentFields(web, fields, m, f);
  }

  lemma TextIsGood(lines: seq<string>, t: SiwxText)
    requires lines == LinesOut(t) && FieldStart(lines, 2) == 2 + |t.statement|
    requires forall i | 0 <= i < |lines| :: '\n' !in lines[i] && '\r' !in lines[i]
    requires GoodEnding(t.ending) && Increasing(t.fields, -1)
    requires forall i | 0 <= i < |t.before| :: !(ASKS <= FirstOut(t)[i..])
    ensures GoodText(t)
  {
    hide GoodEnding, Increasing, FirstOut, LinesOut, StartsNoField, FieldStart, FieldOf;
    StartShape(lines, 2);
    LinesInPlace(t);
    forall i | 0 <= i < |t.statement| ensures StartsNoField(t.statement[i]) {
      assert t.statement[i] == lines[i + 2];
      NoFieldExactly(t.statement[i]);
    }
  }

  lemma ParseUnfold(web: Web, raw: string, m: Message)
    requires Parse(web, raw) == Some(m)
    ensures '\r' !in raw && ParseLines(web, raw, Split('\n', raw)) == Some(m)
  {
    hide ParseLines, Split;
  }

  lemma TextOfLines(t: SiwxText, raw: string)
    requires LinesOut(t) == Split('\n', raw)
    ensures TextOut(t) == raw
  {
    hide LinesOut;
    JoinUndoesSplit('\n', raw);
  }

  lemma MeansOf(t: SiwxText, m: Message)
    requires m.raw == TextOut(t) && Some((Trim(t.before), EndingMeaning(t.ending))) == Some((m.domain, m.blockchain))
    requires m.address == Trim(t.address) && StatementIs(t.statement, m.statement)
    requires TextAt(t.fields, 0) == Some(m.uri) && TextAt(t.fields, 1) == Some("1") && TextAt(t.fields, 2) == Some(m.chainId)
    requires TextAt(t.fields, 3) == Some(m.nonce) && TextAt(t.fields, 4) == Some(m.issuedAt)
    requires TextAt(t.fields, 5) == m.expirationTime && TextAt(t.fields, 6) == m.notBefore && TextAt(t.fields, 7) == m.requestId
    requires m.resources == if t.resources.Some? then t.resources.value else []
    ensures Means(t, m)
  {
    hide TextOut, Trim, EndingMeaning, StatementIs, TextAt;
  }

  lemma FirstOfText(t: SiwxText, line: string)
    requires line == t.before + (ASKS + EndingOut(t.ending))
    ensures FirstOut(t) == line
  {
    hide EndingOut;
  }

  lemma ParsedIsText(web: Web, raw: string, m: Message) returns (t: SiwxText)
    requires Parse(web, raw) == Some(m)
    ensures GoodText(t) && Means(t, m) && GoodMessage(web, m) && TextOut(t) == raw
  {
    hide *;
    var lines := Split('\n', raw);
    ParseUnfold(web, raw, m);
    SplitParts('\n', raw, '\n');
    SplitParts('\n', raw, '\r');
    var start, f := ParsedLines(web, raw, lines, m);
    var before, ending := FirstBackward(lines[0]);
    var fields, rs := FieldsRead(web, lines[start..], m, f);
    t := SiwxText(before, ending, lines[1], lines[2..start], fields, rs);
    FirstOfText(t, lines[0]);
    FirstForward(t);
    SplitLines(lines, start, t);
    StatementOfText(web, m, t.statement);
    TextIsGood(lines, t);
    TextOfLines(t, raw);
    MeansOf(t, m);
  }

  lemma StatementOfText(web: Web, m: Message, lines: seq<string>)
    requires GoodMessage(web, m) && StatementOf(lines) == m.statement
    ensures StatementIs(lines, m.statement)
  {
    StatementExactly(lines, m.statement);
  }

  lemma SplitLines(lines: seq<string>, start: nat, t: SiwxText)
    requires 2 <= start <= |lines| && lines[0] == FirstOut(t) && lines[1] == t.address && lines[2..start] == t.statement
    requires lines[start..] == FieldsOut(t.fields) + ResourcesOut(t.resources)
    ensures LinesOut(t) == lines
  {
    hide FirstOut, FieldsOut, ResourcesOut;
    assert lines == [lines[0], lines[1]] + (lines[2..start] + lines[start..]);
  }

  /**
   * A text is parsed to a message if and only if it is a request line, an
   * address line, a statement, the labelled lines in order, each at most once
   * and the mandatory ones present, and dashed resources, with this message as
   * its meaning and every part in its grammar.
   */
  lemma ParsedExactly(web: Web, raw: string, m: Message)
    ensures Parse(web, raw) == Some(m) <==>
      GoodMessage(web, m) && exists t :: GoodText(t) && TextOut(t) == raw && Means(t, m)
  {
    hide Parse, GoodText, Means, TextOut, GoodMessage;
    if Parse(web, raw) == Some(m) {
      var t := ParsedIsText(web, raw, m);
      assert GoodText(t) && TextOut(t) == raw && Means(t, m);
    }
    if GoodMessage(web, m) {
      forall t | GoodText(t) && TextOut(t) == raw && Means(t, m) ensures Parse(web, raw) == Some(m) {
        TextParses(web, t, m);
      }
    }
  }

  // ---- Printing what was parsed, and what is printed ----------------------

  /** The explicit lines of a created message. */
  lemma CreatedLines(web: Web, p: Params, now: string)
    ensures Create(web, p, now).Some? <==> ValidParams(web, p, now)
    ensures Create(web, p, now).Some? ==>
      Create(web, p, now).value == Join('\n',
        [p.domain + (" wants you to sign in with your" + ([' '] + (Name(p) + " account:"))), p.address]
        + ((if p.statement.Some? && p.statement.value != "" then ["", p.statement.value, ""] else [""])
        + (["URI: " + p.uri, "Version: 1", "Chain ID: " + p.chainId, "Nonce: " + p.nonce,
            "Issued At: " + if p.issuedAt.Some? then p.issuedAt.value else now]
        + ((if p.expirationTime.Some? then ["Expiration Time: " + p.expirationTime.value] else [])
        + ((if p.notBefore.Some? then ["Not Before: " + p.notBefore.value] else [])
        + ((if p.requestId.Some? && p.requestId.value != "" then ["Request ID: " + p.requestId.value] else [])
        + (if p.resources == [] then [] else ["Resources:"] + Dashed(p.resources))))))))
  {
    hide ValidParams, Join, Dashed, Name;
    FiveLines(p, now, OptionalLines(p));
    VersionLine();
    StatementAndOptions(p);
    hide StatementLines, OptionalLines;
  }

  lemma StatementAndOptions(p: Params)
    ensures StatementLines(p) == if p.statement.Some? && p.statement.value != "" then ["", p.statement.value, ""] else [""]
    ensures OptionalLines(p) ==
      (if p.expirationTime.Some? then ["Expiration Time: " + p.expirationTime.value] else [])
      + ((if p.notBefore.Some? then ["Not Before: " + p.notBefore.value] else [])
      + ((if p.requestId.Some? && p.requestId.value != "" then ["Request ID: " + p.requestId.value] else [])
      + (if p.resources == [] then [] else ["Resources:"] + Dashed(p.resources))))
  {
    hide Dashed;
  }

  lemma VersionLine()
    ensures "Version: " + "1" == "Version: 1"
  {
  }

  lemma FiveLines(p: Params, now: string, rest: seq<string>)
    ensures [Label(0) + p.uri] + ([Label(1) + "1"] + ([Label(2) + p.chainId] + ([Label(3) + p.nonce] + ([Label(4) + IssuedAt(p, now)] + rest))))
         == [Label(0) + p.uri, Label(1) + "1", Label(2) + p.chainId, Label(3) + p.nonce, Label(4) + IssuedAt(p, now)] + rest
  {
    hide Label, IssuedAt;
  }

  /** The parameters that print a message again. */
  function ParamsOfMessage(m: Message): Params {
    Params(m.domain, m.address, m.statement, m.uri, None, m.chainId, m.nonce, Some(m.issuedAt), m.expirationTime, m.notBefore,
           m.requestId, m.resources, Some(m.blockchain))
  }

  lemma ParsedTexts(web: Web, raw: string, m: Message)
    requires Parse(web, raw) == Some(m)
    ensures GoodMessage(web, m) && Trimmed(m.address) && OneLine(m.address) && NameOk(m.blockchain)
    ensures m.statement.Some? ==> Trimmed(m.statement.value)
  {
    hide Parse, GoodMessage, GoodText, Means, TextOut;
    ParsedExactly(web, raw, m);
    var t :| GoodText(t) && TextOut(t) == raw && Means(t, m);
    MeantTexts(web, t, m);
    ParseUnfold(web, raw, m);
    ParsedParts(web, raw, Split('\n', raw), m);
  }

  lemma MeantTexts(web: Web, t: SiwxText, m: Message)
    requires GoodText(t) && Means(t, m) && GoodMessage(web, m)
    ensures Trimmed(m.address) && OneLine(m.address)
    ensures m.statement.Some? ==> Trimmed(m.statement.value)
  {
    TrimSound(t.address);
    LinesInPlace(t);
    hide Trim, TextAt, TextOut, FirstOut, FieldsOut, ResourcesOut, EndingMeaning, LinesOut, IsDomain, IsUri, IsCaip2, IsNonce, IsRfc3339;
    assert OneLine(LinesOut(t)[1]);
    if m.statement.Some? {
      var k :| OneKept(t.statement, m.statement.value, k);
      TrimSound(t.statement[k]);
    }
  }

  lemma Reprintable(web: Web, m: Message, now: string)
    requires GoodMessage(web, m) && OneLine(m.address)
    ensures ValidParams(web, ParamsOfMessage(m), now)
  {
    hide IsDomain, IsUri, IsCaip2, Eip155Ok, IsNonce, IsRfc3339, IsStatement, IsRequestId;
  }

  lemma FieldStatementUnreadable(web: Web, p: Params, now: string)
    requires ValidParams(web, p, now) && OneLine(Name(p)) && Shown(p.statement).Some? && FieldOf(p.statement.value) >= 0
    ensures Parse(web, Create(web, p, now).value) == None
  {
    hide Lines, ParseLines, FieldOf, Join, Parse;
    ParsedAsLines(web, p, now);
    FieldStatementRefused(web, p, now, Create(web, p, now).value);
  }

  lemma NameIsOneLine(name: string)
    requires NameOk(name)
    ensures OneLine(name)
  {
  }

  /**
   * Every message that was parsed can be printed, and comes back as itself
   * exactly when its statement does not start like a field and its request id
   * is not the empty text.
   */
  lemma ReprintExactly(web: Web, raw: string, m: Message, now: string)
    requires Parse(web, raw) == Some(m)
    ensures Create(web, ParamsOfMessage(m), now).Some?
    ensures var again := Create(web, ParamsOfMessage(m), now).value;
      Parse(web, again) == Some(m.(raw := again)) <==>
        (m.statement.Some? ==> StartsNoField(m.statement.value)) && m.requestId != Some("")
  {
    hide Parse, ValidParams, Lines, Join, StartsNoField, FieldOf, GoodMessage, NameOk, Trimmed;
    var p := ParamsOfMessage(m);
    ParsedTexts(web, raw, m);
    Reprintable(web, m, now);
    RoundTripExactly(web, p, now);
    assert m.statement.Some? ==> m.statement.value != "" by { NotBlank(m); }
    if m.statement.Some? {
      NoFieldExactly(m.statement.value);
      NameIsOneLine(m.blockchain);
      if !StartsNoField(m.statement.value) { FieldStatementUnreadable(web, p, now); }
    }
  }

  lemma NotBlank(m: Message)
    requires m.statement.Some? ==> Trimmed(m.statement.value)
    ensures m.statement.Some? ==> m.statement.value != ""
  {
  }
}
