/** What an accepted `WWW-Authenticate` value looks like, written out with its white space, and why nothing else is accepted. */
module AuthenticateGrammar {
  import opened Bytes
  import opened Text
  import opened Authenticate

  /** A character of a quoted-string, perhaps behind a backslash. */
  datatype QuotedChar = QuotedChar(c: char, escaped: bool)

  datatype ValueText = TokenValue(token: string) | QuotedValue(chars: seq<QuotedChar>)

  /** `name = value` with optional white space around the sign. */
  datatype ParamText = ParamText(name: string, before: string, after: string, value: ValueText)

  /** What follows a scheme; each further parameter comes behind its separators. */
  datatype Credentials =
    | Bare
    | Token68(space: string, text: string, padding: string)
    | Parameters(space: string, first: ParamText, more: seq<(string, ParamText)>)

  datatype ChallengeText = ChallengeText(scheme: string, credentials: Credentials)

  /** Each challenge with the separators behind it. */
  datatype Header = Header(lead: string, parts: seq<(ChallengeText, string)>)

  // ---- The texts ----------------------------------------------------------

  function CharsText(qs: seq<QuotedChar>): string {
    if qs == [] then [] else (if qs[0].escaped then ['\\', qs[0].c] else [qs[0].c]) + CharsText(qs[1..])
  }

  function ValueOut(v: ValueText): string {
    match v
    case TokenValue(token) => token
    case QuotedValue(qs) => ['"'] + (CharsText(qs) + ['"'])
  }

  function ParamOut(p: ParamText): string {
    p.name + (p.before + (['='] + (p.after + ValueOut(p.value))))
  }

  function MoreOut(more: seq<(string, ParamText)>): string {
    if more == [] then [] else more[0].0 + (ParamOut(more[0].1) + MoreOut(more[1..]))
  }

  function CredentialsOut(c: Credentials): string {
    match c
    case Bare => []
    case Token68(space, text, padding) => space + (text + padding)
    case Parameters(space, first, more) => space + (ParamOut(first) + MoreOut(more))
  }

  function ChallengeOut(c: ChallengeText): string {
    c.scheme + CredentialsOut(c.credentials)
  }

  function PartsOut(parts: seq<(ChallengeText, string)>): string {
    if parts == [] then [] else ChallengeOut(parts[0].0) + (parts[0].1 + PartsOut(parts[1..]))
  }

  function HeaderOut(h: Header): string {
    h.lead + PartsOut(h.parts)
  }

  // ---- Which texts are well formed ----------------------------------------

  ghost predicate GoodChar(q: QuotedChar) {
    !IsControl(q.c) && (q.escaped || (q.c != '"' && q.c != '\\'))
  }

  ghost predicate GoodValue(v: ValueText) {
    match v
    case TokenValue(token) => IsToken(token)
    case QuotedValue(qs) => forall i | 0 <= i < |qs| :: GoodChar(qs[i])
  }

  ghost predicate GoodParamText(p: ParamText) {
    IsToken(p.name) && All(IsOws, p.before) && All(IsOws, p.after) && GoodValue(p.value)
  }

  /** Commas and white space, at least one comma. */
  ghost predicate GoodGap(s: string) {
    All(IsSeparator, s) && ',' in s
  }

  ghost predicate GoodMore(more: seq<(string, ParamText)>) {
    forall i | 0 <= i < |more| :: GoodGap(more[i].0) && GoodParamText(more[i].1)
  }

  ghost predicate GoodCredentials(c: Credentials) {
    match c
    case Bare => true
    case Token68(space, text, padding) =>
      && All(IsOws, space) && All(IsToken68, text) && All(IsEquals, padding) && text + padding != []
      && (space == [] && text != [] ==> !IsTchar(text[0]))
    case Parameters(space, first, more) => space != [] && All(IsOws, space) && GoodParamText(first) && GoodMore(more)
  }

  ghost predicate GoodChallenge(c: ChallengeText) {
    IsToken(c.scheme) && GoodCredentials(c.credentials)
  }

  /** Separators may follow the last challenge; a comma separates any two. */
  ghost predicate GoodParts(parts: seq<(ChallengeText, string)>) {
    forall i | 0 <= i < |parts| ::
      GoodChallenge(parts[i].0) && All(IsSeparator, parts[i].1) && (i + 1 < |parts| ==> ',' in parts[i].1)
  }

  ghost predicate GoodHeader(h: Header) {
    All(IsSeparator, h.lead) && GoodParts(h.parts)
  }

  // ---- What they mean -----------------------------------------------------

  function CharsMeaning(qs: seq<QuotedChar>): string {
    if qs == [] then [] else [qs[0].c] + CharsMeaning(qs[1..])
  }

  function ValueMeaning(v: ValueText): string {
    match v
    case TokenValue(token) => token
    case QuotedValue(qs) => CharsMeaning(qs)
  }

  /** The first of several values of a name counts, and the repetition is noted. */
  function Recorded(c: Challenge, p: ParamText): Challenge {
    Record(c, Lower(p.name), ValueMeaning(p.value))
  }

  function MoreMeaning(c: Challenge, more: seq<(string, ParamText)>): Challenge
    decreases |more|
  {
    if more == [] then c else MoreMeaning(Recorded(c, more[0].1), more[1..])
  }

  function ChallengeMeaning(c: ChallengeText): Challenge {
    var empty := Challenge(c.scheme, map[], false);
    if c.credentials.Parameters? then MoreMeaning(Recorded(empty, c.credentials.first), c.credentials.more) else empty
  }

  function PartsMeaning(parts: seq<(ChallengeText, string)>): seq<Challenge> {
    if parts == [] then [] else [ChallengeMeaning(parts[0].0)] + PartsMeaning(parts[1..])
  }

  // ---- Joining texts ------------------------------------------------------

  lemma ParamOutThen(p: ParamText, rest: string)
    ensures ParamOut(p) + rest == p.name + (p.before + (['='] + (p.after + (ValueOut(p.value) + rest))))
  {
    hide ValueOut;
    var v := ValueOut(p.value);
    Assoc(p.after, v, rest);
    Assoc(['='], p.after + v, rest);
    Assoc(p.before, ['='] + (p.after + v), rest);
    Assoc(p.name, p.before + (['='] + (p.after + v)), rest);
  }

  lemma ChallengeOutThen(c: ChallengeText, rest: string)
    ensures match c.credentials
            case Bare => ChallengeOut(c) + rest == c.scheme + rest
            case Token68(space, text, padding) => ChallengeOut(c) + rest == c.scheme + (space + (text + (padding + rest)))
            case Parameters(space, first, more) =>
              ChallengeOut(c) + rest == c.scheme + (space + (ParamOut(first) + (MoreOut(more) + rest)))
  {
    hide ParamOut, MoreOut;
    Assoc(c.scheme, CredentialsOut(c.credentials), rest);
    match c.credentials
    case Bare => assert [] + rest == rest;
    case Token68(space, text, padding) =>
      Assoc(text, padding, rest);
      Assoc(space, text + padding, rest);
    case Parameters(space, first, more) =>
      Assoc(ParamOut(first), MoreOut(more), rest);
      Assoc(space, ParamOut(first) + MoreOut(more), rest);
  }

  lemma TcharPlain(c: char)
    requires IsTchar(c)
    ensures c != '"' && c != '=' && !IsSeparator(c) && !IsOws(c)
  {
  }

  // ---- Every well-formed text is read as its meaning ----------------------

  lemma {:induction false} QuotedReads(qs: seq<QuotedChar>, rest: string)
    requires forall i | 0 <= i < |qs| :: GoodChar(qs[i])
    ensures Quoted(CharsText(qs) + (['"'] + rest)) == Some((CharsMeaning(qs), rest))
  {
    var text := CharsText(qs) + (['"'] + rest);
    if qs == [] {
      assert text == ['"'] + rest;
    } else {
      var q, tail := qs[0], CharsText(qs[1..]) + (['"'] + rest);
      QuotedReads(qs[1..], rest);
      if q.escaped {
        assert text == ['\\', q.c] + tail;
        assert text[2..] == tail;
      } else {
        assert text == [q.c] + tail;
        assert text[1..] == tail;
      }
    }
  }

  predicate NoTchar(rest: string) {
    rest == [] || !IsTchar(rest[0])
  }

  lemma TokenReads(token: string, rest: string)
    requires IsToken(token) && NoTchar(rest)
    ensures Value(token + rest) == Some((token, rest)) && AtValue(token + rest) && !IsOws((token + rest)[0])
  {
    SpanOf(IsTchar, token, rest);
    TcharPlain(token[0]);
    hide IsTchar, Span, Quoted;
    assert (token + rest)[0] == token[0];
  }

  lemma QuotedValueReads(qs: seq<QuotedChar>, rest: string)
    requires forall i | 0 <= i < |qs| :: GoodChar(qs[i])
    ensures var s := ValueOut(QuotedValue(qs)) + rest;
      Value(s) == Some((CharsMeaning(qs), rest)) && AtValue(s) && !IsOws(s[0])
  {
    QuotedReads(qs, rest);
    hide Quoted, CharsText, Span, GoodChar;
    var s := ValueOut(QuotedValue(qs)) + rest;
    Assoc(['"'], CharsText(qs) + ['"'], rest);
    Assoc(CharsText(qs), ['"'], rest);
    assert s == ['"'] + (CharsText(qs) + (['"'] + rest));
    assert s[1..] == CharsText(qs) + (['"'] + rest);
  }

  lemma ValueReads(v: ValueText, rest: string)
    requires GoodValue(v) && NoTchar(rest)
    ensures Value(ValueOut(v) + rest) == Some((ValueMeaning(v), rest)) && AtValue(ValueOut(v) + rest)
    ensures !IsOws((ValueOut(v) + rest)[0])
  {
    match v
    case TokenValue(token) => TokenReads(token, rest);
    case QuotedValue(qs) => QuotedValueReads(qs, rest);
  }

  lemma ParamReads(p: ParamText, rest: string)
    requires GoodParamText(p) && NoTchar(rest)
    ensures AtParam(ParamOut(p) + rest) && Param(ParamOut(p) + rest) == Some((Lower(p.name), ValueMeaning(p.value), rest))
  {
    hide Span, Value, ValueOut, GoodValue, ValueMeaning;
    var e3 := ValueOut(p.value) + rest;
    var e2 := p.after + e3;
    var e1 := ['='] + e2;
    var e0 := p.before + e1;
    ParamOutThen(p, rest);
    TokenEnds('=');
    ValueReads(p.value, rest);
    assert e0[0] == if p.before == [] then '=' else p.before[0];
    SpanOf(IsTchar, p.name, e0);
    SpanOf(IsOws, p.before, e1);
    assert e1[1..] == e2;
    SpanOf(IsOws, p.after, e3);
  }

  /** A gap in front of `tail`: past its white space is a comma or nothing, past its separators is `tail`. */
  lemma GapReads(gap: string, tail: string)
    requires All(IsSeparator, gap) && (tail != [] ==> ',' in gap && IsTchar(tail[0]))
    ensures NoTchar(gap + tail) && Drop(IsSeparator, gap + tail) == tail
    ensures var r := Drop(IsOws, gap + tail); (r == [] || r[0] == ',') && Drop(IsSeparator, r) == tail
    ensures var r := Drop(IsOws, gap + tail); r == [] ==> tail == []
  {
    TokenEnds(',');
    TokenEnds(' ');
    TokenEnds('\t');
    if tail != [] { TcharPlain(tail[0]); }
    hide IsTchar, Span;
    SpanOf(IsSeparator, gap, tail);
    var ows, more := OwsFirst(gap);
    Assoc(ows, more, tail);
    assert more + tail != [] ==> more != [] && (more + tail)[0] == ',';
    SpanOf(IsOws, ows, more + tail);
    SpanOf(IsSeparator, more, tail);
    assert gap == [] ==> gap + tail == [];
    assert gap != [] ==> (gap + tail)[0] == gap[0];
  }

  lemma OwsFirst(gap: string) returns (ows: string, more: string)
    requires All(IsSeparator, gap)
    ensures gap == ows + more && All(IsOws, ows) && All(IsSeparator, more)
    ensures more == [] <==> ',' !in gap
    ensures more != [] ==> more[0] == ','
  {
    ows, more := Span(IsOws, gap).0, Span(IsOws, gap).1;
    assert forall i | 0 <= i < |more| :: more[i] == gap[|ows| + i];
    assert forall i | 0 <= i < |ows| :: gap[i] == ows[i];
  }

  lemma MoreStart(more: seq<(string, ParamText)>, rest: string)
    requires GoodMore(more) && NoTchar(rest)
    ensures NoTchar(MoreOut(more) + rest)
  {
    if more != [] {
      TokenEnds(',');
      TokenEnds(' ');
      assert GoodGap(more[0].0) && (MoreOut(more) + rest)[0] == more[0].0[0];
    }
  }

  lemma ParamStart(p: ParamText, rest: string)
    requires GoodParamText(p)
    ensures ParamOut(p) + rest != [] && IsTchar((ParamOut(p) + rest)[0])
  {
    assert (ParamOut(p) + rest)[0] == p.name[0];
  }

  /** Parameters are read up to the next challenge. */
  lemma {:induction false} ParametersRead(c: Challenge, p: ParamText, more: seq<(string, ParamText)>, gap: string, tail: string)
    requires GoodParamText(p) && GoodMore(more) && All(IsSeparator, gap)
    requires tail != [] ==> ',' in gap && IsTchar(tail[0]) && !AtParam(tail)
    ensures Params(c, ParamOut(p) + (MoreOut(more) + (gap + tail))) == Some((MoreMeaning(Recorded(c, p), more), tail))
    decreases |more|
  {
    hide Span, Param, ParamOut, AtParam, GoodParamText, Record, Drop;
    var after := MoreOut(more) + (gap + tail);
    GapReads(gap, tail);
    MoreStart(more, gap + tail);
    ParamReads(p, after);
    if more == [] {
      assert after == gap + tail;
      LastReads(c, ParamOut(p) + after, p, after, tail);
    } else {
      var (g, q) := more[0];
      var t := ParamOut(q) + (MoreOut(more[1..]) + (gap + tail));
      assert GoodGap(g) && GoodParamText(q);
      assert after == g + t;
      MoreStart(more[1..], gap + tail);
      ParamStart(q, MoreOut(more[1..]) + (gap + tail));
      ParamReads(q, MoreOut(more[1..]) + (gap + tail));
      GapReads(g, t);
      NextReads(c, ParamOut(p) + after, p, after, t);
      ParametersRead(Recorded(c, p), q, more[1..], gap, tail);
    }
  }

  lemma NextReads(c: Challenge, s: string, p: ParamText, after: string, next: string)
    requires Param(s) == Some((Lower(p.name), ValueMeaning(p.value), after))
    requires var r := Drop(IsOws, after); r != [] && r[0] == ',' && Drop(IsSeparator, r) == next
    requires AtParam(next)
    ensures Params(c, s) == Params(Recorded(c, p), next)
  {
    hide Param, Drop, AtParam, Record;
  }

  lemma LastReads(c: Challenge, s: string, p: ParamText, after: string, tail: string)
    requires Param(s) == Some((Lower(p.name), ValueMeaning(p.value), after))
    requires var r := Drop(IsOws, after); (r == [] || r[0] == ',') && Drop(IsSeparator, r) == tail && (r == [] ==> tail == [])
    requires tail != [] ==> !AtParam(tail)
    ensures Params(c, s) == Some((Recorded(c, p), tail))
  {
    hide Param, Drop, Record;
    NothingIsNoParam();
  }

  lemma NothingIsNoParam()
    ensures !AtParam([])
  {
  }

  /** Past the text of a token68 and its padding. */
  lemma Token68Reads(text: string, padding: string, rest: string)
    requires All(IsToken68, text) && All(IsEquals, padding) && text + padding != []
    requires rest == [] || IsSeparator(rest[0])
    requires var r := Drop(IsOws, rest); r == [] || r[0] == ','
    ensures SkipToken68(text + (padding + rest)) == Some(Drop(IsOws, rest))
  {
    assert padding + rest == [] || !IsToken68((padding + rest)[0]);
    SpanOf(IsToken68, text, padding + rest);
    SpanOf(IsEquals, padding, rest);
  }

  /** The lookahead never takes a token68 for a parameter. */
  lemma Token68IsNoParam(text: string, padding: string, rest: string)
    requires All(IsToken68, text) && All(IsEquals, padding) && text + padding != []
    requires rest == [] || IsSeparator(rest[0])
    requires var r := Drop(IsOws, rest); r == [] || r[0] == ','
    ensures !AtParam(text + (padding + rest))
  {
    var s := text + (padding + rest);
    var (name, r1) := Span(IsTchar, s);
    TokenEnds('=');
    TokenEnds(',');
    TokenEnds(' ');
    SpanStops(IsTchar, text, padding + rest);
    if |name| < |text| {
      assert r1[0] == text[|name|];
      SpanOf(IsOws, [], r1);
      assert [] + r1 == r1;
    } else {
      assert name == text && r1 == padding + rest;
      AfterName(padding, rest);
    }
  }

  lemma AfterName(padding: string, rest: string)
    requires All(IsEquals, padding)
    requires rest == [] || IsSeparator(rest[0])
    requires var r := Drop(IsOws, rest); r == [] || r[0] == ','
    ensures var r2 := Drop(IsOws, padding + rest); r2 != [] && r2[0] == '=' ==> !AtValue(Drop(IsOws, r2[1..]))
  {
    if padding == [] {
      assert padding + rest == rest;
    } else {
      SpanOf(IsOws, [], padding + rest);
      assert [] + (padding + rest) == padding + rest;
      assert (padding + rest)[1..] == padding[1..] + rest;
      if |padding| > 1 {
        SpanOf(IsOws, [], padding[1..] + rest);
        assert [] + (padding[1..] + rest) == padding[1..] + rest;
      } else {
        assert padding[1..] + rest == rest;
      }
    }
  }

  /** Where a challenge's credentials start, past their white space. */
  lemma SchemeReads(scheme: string, space: string, body: string)
    requires IsToken(scheme) && All(IsOws, space) && (body != [] ==> !IsOws(body[0])) && (space == [] ==> NoTchar(body))
    ensures Span(IsTchar, scheme + (space + body)) == (scheme, space + body)
    ensures Drop(IsOws, space + body) == body
  {
    TokenEnds(' ');
    assert space + body != [] ==> (space + body)[0] == if space == [] then body[0] else space[0];
    SpanOf(IsTchar, scheme, space + body);
    SpanOf(IsOws, space, body);
  }

  /** One challenge is read as its meaning, and what is left starts with its separators. */
  lemma ChallengeReads(c: ChallengeText, gap: string, tail: string)
    requires GoodChallenge(c) && All(IsSeparator, gap)
    requires tail != [] ==> ',' in gap && IsTchar(tail[0]) && !AtParam(tail)
    ensures var r := One(ChallengeOut(c) + (gap + tail));
      r.Some? && r.value.0 == ChallengeMeaning(c) && Drop(IsSeparator, r.value.1) == tail
  {
    hide One, AtParam, ChallengeMeaning, Drop, IsTchar, ChallengeOut;
    var rest := gap + tail;
    GapReads(gap, tail);
    assert rest == [] || IsSeparator(rest[0]) by {
      if gap == [] { assert tail == []; } else { assert rest[0] == gap[0]; }
    }
    match c.credentials
    case Bare => BareReads(c, rest, tail);
    case Token68(space, text, padding) => Token68ChallengeReads(c, rest, tail);
    case Parameters(space, first, more) => ParameterChallengeReads(c, gap, tail);
  }

  lemma ParameterChallengeReads(c: ChallengeText, gap: string, tail: string)
    requires GoodChallenge(c) && c.credentials.Parameters? && All(IsSeparator, gap)
    requires tail != [] ==> ',' in gap && IsTchar(tail[0]) && !AtParam(tail)
    ensures One(ChallengeOut(c) + (gap + tail)) == Some((ChallengeMeaning(c), tail)) && Drop(IsSeparator, tail) == tail
  {
    hide One, Span, Drop, AtParam, ChallengeOut, ParamOut, MoreOut, IsTchar, GoodParamText, GoodMore, Params;
    var Parameters(space, first, more) := c.credentials;
    var rest := gap + tail;
    var body := ParamOut(first) + (MoreOut(more) + rest);
    GapReads(gap, tail);
    ChallengeOutThen(c, rest);
    ParamStart(first, MoreOut(more) + rest);
    TcharPlain(body[0]);
    SchemeReads(c.scheme, space, body);
    MoreStart(more, rest);
    ParamReads(first, MoreOut(more) + rest);
    ParametersRead(Challenge(c.scheme, map[], false), first, more, gap, tail);
    TailStays(gap, tail);
    OneWithParams(c.scheme, ChallengeOut(c) + rest, space + body, body, ChallengeMeaning(c), tail);
  }

  lemma TailStays(gap: string, tail: string)
    requires Drop(IsSeparator, gap + tail) == tail
    ensures Drop(IsSeparator, tail) == tail
  {
    SpanOf(IsSeparator, [], tail);
    assert [] + tail == tail;
  }

  lemma OneWithParams(scheme: string, s: string, r1: string, body: string, c: Challenge, tail: string)
    requires scheme != [] && Span(IsTchar, s) == (scheme, r1) && Drop(IsOws, r1) == body
    requires AtParam(body) && body != [] && body[0] != ','
    requires Params(Challenge(scheme, map[], false), body) == Some((c, tail))
    ensures One(s) == Some((c, tail))
  {
    hide Params, Span, Drop, AtParam;
  }

  lemma BareReads(c: ChallengeText, rest: string, tail: string)
    requires IsToken(c.scheme) && c.credentials.Bare? && NoTchar(rest)
    requires var r := Drop(IsOws, rest); (r == [] || r[0] == ',') && Drop(IsSeparator, r) == tail
    ensures var r := One(ChallengeOut(c) + rest);
      r.Some? && r.value.0 == ChallengeMeaning(c) && Drop(IsSeparator, r.value.1) == tail
  {
    hide Span, Drop, Params, AtParam, ChallengeOut, SkipToken68;
    ChallengeOutThen(c, rest);
    SpanOf(IsTchar, c.scheme, rest);
  }

  lemma Token68ChallengeReads(c: ChallengeText, rest: string, tail: string)
    requires GoodChallenge(c) && c.credentials.Token68? && (rest == [] || IsSeparator(rest[0]))
    requires var r := Drop(IsOws, rest); (r == [] || r[0] == ',') && Drop(IsSeparator, r) == tail
    ensures var r := One(ChallengeOut(c) + rest);
      r.Some? && r.value.0 == ChallengeMeaning(c) && Drop(IsSeparator, r.value.1) == tail
  {
    hide One, Span, Drop, ChallengeOut, AtParam, SkipToken68;
    var Token68(space, text, padding) := c.credentials;
    var body := text + (padding + rest);
    ChallengeOutThen(c, rest);
    Token68Start(space, text, padding, rest);
    SchemeReads(c.scheme, space, body);
    Token68IsNoParam(text, padding, rest);
    Token68Reads(text, padding, rest);
    OneWithToken68(c.scheme, ChallengeOut(c) + rest, space + body, body, Drop(IsOws, rest));
  }

  lemma Token68Start(space: string, text: string, padding: string, rest: string)
    requires All(IsToken68, text) && All(IsEquals, padding) && text + padding != []
    requires space == [] && text != [] ==> !IsTchar(text[0])
    ensures var body := text + (padding + rest);
      body != [] && !IsOws(body[0]) && body[0] != ',' && (space == [] ==> NoTchar(body))
  {
    TokenEnds('=');
    assert (text + (padding + rest))[0] == if text == [] then padding[0] else text[0];
  }

  lemma OneWithToken68(scheme: string, s: string, r1: string, body: string, left: string)
    requires scheme != [] && Span(IsTchar, s) == (scheme, r1) && Drop(IsOws, r1) == body
    requires !AtParam(body) && body != [] && body[0] != ',' && SkipToken68(body) == Some(left)
    ensures One(s) == Some((Challenge(scheme, map[], false), left))
  {
    hide SkipToken68, Params, Span, Drop, AtParam;
  }

  /** No challenge's text looks like a further parameter. */
  lemma SchemeNoParam(s: string, scheme: string, r1: string, r2: string)
    requires Span(IsTchar, s) == (scheme, r1) && Drop(IsOws, r1) == r2
    requires r2 != [] && r2[0] == '=' ==> !AtValue(Drop(IsOws, r2[1..]))
    ensures !AtParam(s)
  {
    hide Span, Drop, AtValue;
  }

  lemma ChallengeIsNoParam(c: ChallengeText, gap: string, tail: string)
    requires GoodChallenge(c) && All(IsSeparator, gap) && (tail != [] ==> ',' in gap && IsTchar(tail[0]))
    ensures ChallengeOut(c) + (gap + tail) != [] && IsTchar((ChallengeOut(c) + (gap + tail))[0])
    ensures !AtParam(ChallengeOut(c) + (gap + tail))
  {
    hide Span, Drop, AtParam, AtValue, IsTchar, ParamOut, MoreOut, GoodParamText, GoodMore, ValueOut;
    var rest := gap + tail;
    var s := ChallengeOut(c) + rest;
    assert s[0] == c.scheme[0];
    GapReads(gap, tail);
    ChallengeOutThen(c, rest);
    match c.credentials
    case Bare =>
      SpanOf(IsTchar, c.scheme, rest);
      SchemeNoParam(s, c.scheme, rest, Drop(IsOws, rest));
    case Token68(space, text, padding) =>
      assert rest == [] || IsSeparator(rest[0]) by {
        if gap == [] { assert tail == []; } else { assert rest[0] == gap[0]; }
      }
      Token68NoEquals(c.scheme, space, text, padding, rest);
      assert s == c.scheme + (space + (text + (padding + rest)));
    case Parameters(space, first, more) =>
      var body := ParamOut(first) + (MoreOut(more) + rest);
      ParamStart(first, MoreOut(more) + rest);
      TcharPlain(body[0]);
      SchemeReads(c.scheme, space, body);
      SchemeNoParam(s, c.scheme, space + body, body);
  }

  lemma Token68Plain(c: char)
    requires IsToken68(c)
    ensures c != '='
  {
  }

  lemma Token68NoEquals(scheme: string, space: string, text: string, padding: string, rest: string)
    requires IsToken(scheme) && GoodCredentials(Token68(space, text, padding))
    requires rest == [] || IsSeparator(rest[0])
    requires var r := Drop(IsOws, rest); r == [] || r[0] == ','
    ensures !AtParam(scheme + (space + (text + (padding + rest))))
  {
    hide Span, Drop, AtParam, AtValue, IsTchar;
    var body := text + (padding + rest);
    Token68Start(space, text, padding, rest);
    SchemeReads(scheme, space, body);
    if text == [] {
      assert body == padding + rest;
      AfterName(padding, rest);
      PaddingStays(padding, rest);
    } else {
      assert IsToken68(text[0]) && body[0] == text[0];
      Token68Plain(text[0]);
    }
    SchemeNoParam(scheme + (space + body), scheme, space + body, body);
  }

  lemma PaddingStays(padding: string, rest: string)
    requires All(IsEquals, padding) && padding != []
    ensures Drop(IsOws, padding + rest) == padding + rest
  {
    SpanOf(IsOws, [], padding + rest);
    assert [] + (padding + rest) == padding + rest;
  }

  lemma PartsStart(parts: seq<(ChallengeText, string)>)
    requires GoodParts(parts) && parts != []
    ensures PartsOut(parts) != [] && IsTchar(PartsOut(parts)[0]) && !AtParam(PartsOut(parts))
    decreases |parts|
  {
    var (c, gap) := parts[0];
    var tail := PartsOut(parts[1..]);
    if |parts| > 1 { PartsStart(parts[1..]); }
    ChallengeIsNoParam(c, gap, tail);
  }

  lemma {:induction false} PartsRead(lead: string, parts: seq<(ChallengeText, string)>)
    requires All(IsSeparator, lead) && GoodParts(parts)
    ensures Challenges(lead + PartsOut(parts)) == Some(PartsMeaning(parts))
    decreases |parts|
  {
    hide One, Span, GoodChallenge, ChallengeOut, AtParam, ChallengeMeaning;
    var s := lead + PartsOut(parts);
    TokenEnds(',');
    TokenEnds(' ');
    if parts == [] {
      SpanOf(IsSeparator, lead, []);
    } else {
      var (c, gap) := parts[0];
      var tail := PartsOut(parts[1..]);
      PartsStart(parts);
      if |parts| > 1 { PartsStart(parts[1..]); }
      SpanOf(IsSeparator, lead, PartsOut(parts));
      ChallengeReads(c, gap, tail);
      PartsRead([], parts[1..]);
      assert [] + tail == tail;
      SpanOf(IsSeparator, [], tail);
      var rest := One(PartsOut(parts)).value.1;
      SameAfterSeparators(rest, tail);
      ChallengesStep(s, PartsOut(parts), ChallengeMeaning(c), rest);
    }
  }

  // ---- Every accepted text is well formed ---------------------------------

  lemma QuotedUnfold(s: string)
    requires Quoted(s).Some? && s[0] != '"'
    ensures var skip := if s[0] == '\\' then 1 else 0;
      && skip < |s| && !IsControl(s[skip]) && Quoted(s[skip + 1..]).Some?
      && Quoted(s).value.1 == Quoted(s[skip + 1..]).value.1
  {
  }

  lemma FirstChar(s: string, n: nat)
    requires 1 <= n <= 2 && n <= |s| && (n == 2 ==> s[0] == '\\')
    ensures s == (if n == 2 then ['\\', s[1]] else [s[0]]) + s[n..]
  {
  }

  lemma CharsCons(q: QuotedChar, more: seq<QuotedChar>, rest: string)
    ensures CharsText([q] + more) + rest == (if q.escaped then ['\\', q.c] else [q.c]) + (CharsText(more) + rest)
  {
    assert ([q] + more)[1..] == more;
    Assoc(if q.escaped then ['\\', q.c] else [q.c], CharsText(more), rest);
  }

  lemma {:induction false} QuotedDecomposes(s: string) returns (qs: seq<QuotedChar>)
    requires Quoted(s).Some?
    ensures (forall i | 0 <= i < |qs| :: GoodChar(qs[i])) && s == CharsText(qs) + (['"'] + Quoted(s).value.1)
    decreases |s|
  {
    if s[0] == '"' {
      qs := [];
      assert s == [] + (['"'] + s[1..]);
    } else {
      QuotedUnfold(s);
      hide Quoted, CharsText;
      var skip := if s[0] == '\\' then 1 else 0;
      var more := QuotedDecomposes(s[skip + 1..]);
      var q := QuotedChar(s[skip], skip == 1);
      qs := [q] + more;
      CharsCons(q, more, ['"'] + Quoted(s).value.1);
      FirstChar(s, skip + 1);
    }
  }

  lemma ValueDecomposes(s: string) returns (v: ValueText)
    requires Value(s).Some?
    ensures GoodValue(v) && s == ValueOut(v) + Value(s).value.1
  {
    if s != [] && s[0] == '"' {
      var qs := QuotedDecomposes(s[1..]);
      v := QuotedValue(qs);
      var rest := Quoted(s[1..]).value.1;
      assert s == ['"'] + s[1..];
      Assoc(['"'], CharsText(qs) + ['"'], rest);
      Assoc(CharsText(qs), ['"'], rest);
    } else {
      v := TokenValue(Span(IsTchar, s).0);
    }
  }

  lemma ParamDecomposes(s: string) returns (p: ParamText)
    requires Param(s).Some? && AtParam(s)
    ensures GoodParamText(p) && s == ParamOut(p) + Param(s).value.2
  {
    hide Value, ValueOut, GoodValue, ParamOut, Span, IsTchar, AtValue;
    var a := Span(IsTchar, s);
    var b := Span(IsOws, a.1);
    var c := Span(IsOws, b.1[1..]);
    var v := ValueDecomposes(c.1);
    p := ParamText(a.0, b.0, c.0, v);
    assert b.1 == ['='] + b.1[1..];
    ParamOutThen(p, Value(c.1).value.1);
  }

  /** Separators between what was read and what is left: a comma comes before anything else. */
  ghost predicate Parting(gap: string, rest: string) {
    All(IsSeparator, gap) && (rest == [] || ',' in gap || rest[0] == ',')
  }

  lemma ParamsUnfold(c: Challenge, s: string)
    requires Params(c, s).Some?
    ensures Param(s).Some?
    ensures var (name, value, r1) := Param(s).value;
      var d, r2 := Record(c, name, value), Drop(IsOws, r1);
      var r3 := Drop(IsSeparator, r2);
      && (r2 == [] ==> Params(c, s) == Some((d, [])))
      && (r2 != [] ==> r2[0] == ',' && Params(c, s) == if AtParam(r3) then Params(d, r3) else Some((d, r3)))
  {
    hide Param, Drop, AtParam, Record;
  }

  /** The separators behind a parameter, when it is not the last thing. */
  lemma SeparatorsBehind(r1: string) returns (g: string)
    requires var r2 := Drop(IsOws, r1); r2 != [] && r2[0] == ','
    ensures GoodGap(g) && r1 == g + Drop(IsSeparator, Drop(IsOws, r1))
  {
    var a := Span(IsOws, r1);
    var b := Span(IsSeparator, a.1);
    g := a.0 + b.0;
    CommaFirst(a.1);
    Assoc(a.0, b.0, b.1);
    hide Span;
    assert ',' in g by { assert g[|a.0|] == ','; }
  }

  lemma CommaFirst(r: string)
    requires r != [] && r[0] == ','
    ensures Span(IsSeparator, r).0 != [] && Span(IsSeparator, r).0[0] == ','
  {
    var a := Span(IsSeparator, r);
    assert a.0 == [] ==> a.1 == r;
  }

  lemma OwsOnly(r1: string) returns (g: string)
    requires Drop(IsOws, r1) == []
    ensures All(IsSeparator, g) && r1 == g + []
  {
    g := Span(IsOws, r1).0;
  }

  lemma {:induction false} ParamsDecompose(c: Challenge, s: string)
    returns (p: ParamText, more: seq<(string, ParamText)>, gap: string)
    requires Params(c, s).Some? && AtParam(s)
    ensures GoodParamText(p) && GoodMore(more) && Parting(gap, Params(c, s).value.1)
    ensures s == ParamOut(p) + (MoreOut(more) + (gap + Params(c, s).value.1))
    decreases |s|
  {
    hide Params, Param, ParamOut, AtParam, Record, Drop, GoodParamText;
    ParamsUnfold(c, s);
    p := ParamDecomposes(s);
    var (name, value, r1) := Param(s).value;
    var d := Record(c, name, value);
    if Drop(IsOws, r1) == [] {
      gap := OwsOnly(r1);
      more := [];
      assert [] + (gap + []) == gap + [];
    } else {
      var g := SeparatorsBehind(r1);
      var r3 := Drop(IsSeparator, Drop(IsOws, r1));
      if AtParam(r3) {
        var q, others, last := ParamsDecompose(d, r3);
        more, gap := [(g, q)] + others, last;
        MoreCons(g, q, others, last + Params(d, r3).value.1);
      } else {
        more, gap := [], g;
        assert [] + (g + r3) == g + r3;
      }
    }
  }

  lemma MoreCons(g: string, q: ParamText, others: seq<(string, ParamText)>, rest: string)
    requires GoodGap(g) && GoodParamText(q) && GoodMore(others)
    ensures GoodMore([(g, q)] + others)
    ensures MoreOut([(g, q)] + others) + rest == g + (ParamOut(q) + (MoreOut(others) + rest))
  {
    hide ParamOut, GoodGap, GoodParamText;
    assert ([(g, q)] + others)[1..] == others;
    Assoc(ParamOut(q), MoreOut(others), rest);
    Assoc(g, ParamOut(q) + MoreOut(others), rest);
  }

  lemma Token68Decomposes(s: string) returns (text: string, padding: string, gap: string)
    requires SkipToken68(s).Some?
    ensures All(IsToken68, text) && All(IsEquals, padding) && text + padding != []
    ensures Parting(gap, SkipToken68(s).value) && s == text + (padding + (gap + SkipToken68(s).value))
  {
    var a := Span(IsToken68, s);
    var b := Span(IsEquals, a.1);
    var c := Span(IsOws, b.1);
    text, padding, gap := a.0, b.0, c.0;
    hide Span;
    assert s == text + (padding + (gap + c.1));
    assert text + padding == [] ==> b.1 == s;
  }

  lemma OneUnfold(s: string)
    requires One(s).Some?
    ensures var scheme, r2 := Span(IsTchar, s).0, Drop(IsOws, Span(IsTchar, s).1);
      var c := Challenge(scheme, map[], false);
      && scheme != []
      && (r2 == [] || r2[0] == ',' ==> One(s).value.1 == r2)
      && (r2 != [] && r2[0] != ',' && !AtParam(r2) ==> SkipToken68(r2) == Some(One(s).value.1))
      && (r2 != [] && r2[0] != ',' && AtParam(r2) ==> Params(c, r2) == One(s))
  {
    hide Span, Drop, AtParam, SkipToken68, Params;
  }

  lemma OneDecomposes(s: string) returns (c: ChallengeText, gap: string)
    requires One(s).Some?
    ensures GoodChallenge(c) && Parting(gap, One(s).value.1)
    ensures s == ChallengeOut(c) + (gap + One(s).value.1)
  {
    hide One, Span, AtParam, SkipToken68, Params, ChallengeOut, GoodParamText, GoodMore, ParamOut, MoreOut, IsTchar;
    OneUnfold(s);
    var a := Span(IsTchar, s);
    var b := Span(IsOws, a.1);
    var scheme, space, r2, left := a.0, b.0, b.1, One(s).value.1;
    if r2 == [] || r2[0] == ',' {
      c, gap := ChallengeText(scheme, Bare), space;
    } else if !AtParam(r2) {
      var text, padding, g := Token68Decomposes(r2);
      c, gap := ChallengeText(scheme, Token68(space, text, padding)), g;
      FirstOfBody(space, text, padding + (g + left), a.1);
    } else {
      var p, more, g := ParamsDecompose(Challenge(scheme, map[], false), r2);
      c, gap := ChallengeText(scheme, Parameters(space, p, more)), g;
      SpaceBeforeParam(s);
    }
    ChallengeOutThen(c, gap + left);
  }

  lemma FirstOfBody(space: string, text: string, rest: string, r1: string)
    requires r1 == space + (text + rest) && NoTchar(r1)
    ensures space == [] && text != [] ==> !IsTchar(text[0])
  {
    hide IsTchar;
    assert space == [] && text != [] ==> r1[0] == text[0];
  }

  /** A parameter cannot follow its scheme directly: the scheme would have swallowed its name. */
  lemma SpaceBeforeParam(s: string)
    requires AtParam(Drop(IsOws, Span(IsTchar, s).1))
    ensures Span(IsOws, Span(IsTchar, s).1).0 != []
  {
    var r1 := Span(IsTchar, s).1;
    var b := Span(IsOws, r1);
    NameFirst(b.1);
    hide Span, AtParam, IsTchar;
    assert b.0 == [] ==> r1 == b.1;
  }

  lemma NameFirst(s: string)
    requires AtParam(s)
    ensures s != [] && IsTchar(s[0])
  {
    var a := Span(IsTchar, s);
    assert s[0] == a.0[0];
  }

  lemma ChallengesUnfold(s: string)
    requires Challenges(s).Some? && Drop(IsSeparator, s) != []
    ensures One(Drop(IsSeparator, s)).Some? && Challenges(One(Drop(IsSeparator, s)).value.1).Some?
  {
    hide One, Drop;
  }

  lemma {:induction false} HeaderDecomposes(s: string) returns (h: Header)
    requires Challenges(s).Some?
    ensures GoodHeader(h) && s == HeaderOut(h)
    decreases |s|
  {
    hide Challenges, One, Span, GoodChallenge, ChallengeOut, PartsOut, GoodParts, AtParam, IsTchar;
    var a := Span(IsSeparator, s);
    var lead, r := a.0, a.1;
    if r == [] {
      h := Header(lead, []);
      NoParts();
    } else {
      ChallengesUnfold(s);
      var c, gap := OneDecomposes(r);
      var rest := One(r).value.1;
      var tail := HeaderDecomposes(rest);
      Leads(gap, rest, tail);
      PartsCons(c, gap + tail.lead, tail.parts);
      h := Header(lead, [(c, gap + tail.lead)] + tail.parts);
      Assoc(gap, tail.lead, PartsOut(tail.parts));
    }
  }

  lemma NoParts()
    ensures PartsOut([]) == [] && GoodParts([])
  {
  }

  /** A comma stands between a challenge and the next. */
  lemma Leads(gap: string, rest: string, h: Header)
    requires Parting(gap, rest) && GoodHeader(h) && rest == HeaderOut(h)
    ensures All(IsSeparator, gap + h.lead) && (h.parts != [] ==> ',' in gap + h.lead)
  {
    hide PartsOut, GoodParts, IsTchar, AtParam;
    if h.parts != [] {
      PartsStart(h.parts);
      TcharPlain(PartsOut(h.parts)[0]);
      assert rest[0] == if h.lead == [] then PartsOut(h.parts)[0] else h.lead[0];
    }
  }

  lemma PartsCons(c: ChallengeText, gap: string, parts: seq<(ChallengeText, string)>)
    requires GoodChallenge(c) && All(IsSeparator, gap) && (parts != [] ==> ',' in gap) && GoodParts(parts)
    ensures GoodParts([(c, gap)] + parts) && PartsOut([(c, gap)] + parts) == ChallengeOut(c) + (gap + PartsOut(parts))
  {
    hide GoodChallenge, ChallengeOut, All;
    var all := [(c, gap)] + parts;
    assert all[1..] == parts;
    assert forall i | 1 <= i < |all| :: all[i] == parts[i - 1];
  }

  /**
   * A field value is accepted as a list of challenges if and only if it is
   * some well-formed text, white space and all, that means this list.
   */
  lemma AcceptedExactly(s: string, cs: seq<Challenge>)
    ensures Challenges(s) == Some(cs) <==> exists h :: GoodHeader(h) && HeaderOut(h) == s && PartsMeaning(h.parts) == cs
  {
    forall h | GoodHeader(h) && HeaderOut(h) == s ensures Challenges(s) == Some(PartsMeaning(h.parts)) {
      PartsRead(h.lead, h.parts);
    }
    if Challenges(s) == Some(cs) {
      var h := HeaderDecomposes(s);
      assert GoodHeader(h) && HeaderOut(h) == s;
    }
  }

  // ---- Repeated names -----------------------------------------------------

  function ParamsOf(more: seq<(string, ParamText)>): seq<ParamText> {
    if more == [] then [] else [more[0].1] + ParamsOf(more[1..])
  }

  /** Every parameter of a challenge, in order. */
  function AllParams(c: ChallengeText): seq<ParamText> {
    if c.credentials.Parameters? then [c.credentials.first] + ParamsOf(c.credentials.more) else []
  }

  /** The first parameter of each name gives its value; the flag is set exactly when a name occurs twice. */
  ghost predicate Says(m: Challenge, ps: seq<ParamText>) {
    && (forall n :: n in m.params <==> Named(ps, n))
    && (forall i | 0 <= i < |ps| && (forall j | 0 <= j < i :: Lower(ps[j].name) != Lower(ps[i].name)) ::
          Lower(ps[i].name) in m.params && m.params[Lower(ps[i].name)] == ValueMeaning(ps[i].value))
    && (m.duplicated <==> Repeats(ps))
  }

  ghost predicate Named(ps: seq<ParamText>, n: string) {
    exists i :: 0 <= i < |ps| && Lower(ps[i].name) == n
  }

  ghost predicate Repeats(ps: seq<ParamText>) {
    exists i, j :: 0 <= i < j < |ps| && Lower(ps[i].name) == Lower(ps[j].name)
  }

  lemma NamedNext(done: seq<ParamText>, p: ParamText, n: string)
    ensures Named(done + [p], n) <==> Named(done, n) || Lower(p.name) == n
  {
    hide Lower;
    var all := done + [p];
    assert all[|done|] == p;
    if Named(done, n) {
      var i :| 0 <= i < |done| && Lower(done[i].name) == n;
      assert Lower(all[i].name) == n;
    }
  }

  lemma RepeatsNext(done: seq<ParamText>, p: ParamText)
    ensures Repeats(done + [p]) <==> Repeats(done) || Named(done, Lower(p.name))
  {
    hide Lower;
    var all := done + [p];
    assert all[|done|] == p;
    assert forall i | 0 <= i < |done| :: all[i] == done[i];
    if Repeats(done) {
      var i, j :| 0 <= i < j < |done| && Lower(done[i].name) == Lower(done[j].name);
      assert Lower(all[i].name) == Lower(all[j].name);
    }
    if Named(done, Lower(p.name)) {
      var i :| 0 <= i < |done| && Lower(done[i].name) == Lower(p.name);
      assert Lower(all[i].name) == Lower(all[|done|].name);
    }
  }

  lemma NextNamed(m: Challenge, done: seq<ParamText>, p: ParamText, n: string)
    requires Says(m, done)
    ensures n in Recorded(m, p).params <==> Named(done + [p], n)
  {
    hide ValueMeaning, Lower, Named, Repeats;
    NamedNext(done, p, n);
  }

  lemma NextRepeats(m: Challenge, done: seq<ParamText>, p: ParamText)
    requires Says(m, done)
    ensures (Recorded(m, p).duplicated <==> Repeats(done + [p])) && Recorded(m, p).scheme == m.scheme
  {
    hide ValueMeaning, Lower, Named, Repeats;
    RepeatsNext(done, p);
  }

  lemma NextSays(m: Challenge, done: seq<ParamText>, p: ParamText)
    requires Says(m, done)
    ensures Says(Recorded(m, p), done + [p]) && Recorded(m, p).scheme == m.scheme
  {
    hide ValueMeaning, Lower, Named, Repeats, Recorded;
    var all, z := done + [p], Recorded(m, p);
    forall n ensures n in z.params <==> Named(all, n) { NextNamed(m, done, p, n); }
    NextRepeats(m, done, p);
    forall i | 0 <= i < |all| && (forall j | 0 <= j < i :: Lower(all[j].name) != Lower(all[i].name))
      ensures Lower(all[i].name) in z.params && z.params[Lower(all[i].name)] == ValueMeaning(all[i].value) {
      FirstOfName(m, done, p, i);
    }
  }

  lemma FirstOfName(m: Challenge, done: seq<ParamText>, p: ParamText, i: nat)
    requires Says(m, done) && i <= |done|
    requires forall j | 0 <= j < i :: Lower((done + [p])[j].name) != Lower((done + [p])[i].name)
    ensures var z, q := Recorded(m, p), (done + [p])[i];
      Lower(q.name) in z.params && z.params[Lower(q.name)] == ValueMeaning(q.value)
  {
    hide ValueMeaning, Lower, Repeats;
    var all := done + [p];
    assert forall j | 0 <= j < |done| :: all[j] == done[j];
    if i == |done| {
      assert !Named(done, Lower(p.name));
    } else {
      assert forall j | 0 <= j < i :: Lower(done[j].name) != Lower(done[i].name);
    }
  }

  lemma {:induction false} MoreSays(m: Challenge, done: seq<ParamText>, more: seq<(string, ParamText)>)
    requires Says(m, done)
    ensures Says(MoreMeaning(m, more), done + ParamsOf(more)) && MoreMeaning(m, more).scheme == m.scheme
    decreases |more|
  {
    hide Says, Recorded;
    if more == [] {
      assert done + [] == done;
    } else {
      NextSays(m, done, more[0].1);
      MoreSays(Recorded(m, more[0].1), done + [more[0].1], more[1..]);
      assert (done + [more[0].1]) + ParamsOf(more[1..]) == done + ParamsOf(more);
    }
  }

  /** What a challenge means, said of its parameters in order. */
  lemma MeaningByName(c: ChallengeText)
    ensures Says(ChallengeMeaning(c), AllParams(c)) && ChallengeMeaning(c).scheme == c.scheme
  {
    var empty := Challenge(c.scheme, map[], false);
    assert Says(empty, []);
    if c.credentials.Parameters? {
      NextSays(empty, [], c.credentials.first);
      MoreSays(Recorded(empty, c.credentials.first), [] + [c.credentials.first], c.credentials.more);
      assert [] + [c.credentials.first] == [c.credentials.first];
    }
  }

  // ---- The character classes ----------------------------------------------

  /** Token characters are the visible ones of ASCII that are no delimiters. */
  lemma TokenCharacters(c: char)
    ensures IsTchar(c) <==> '!' <= c <= '~' && c !in "\"(),/:;<=>?@[\\]{}"
  {
  }

  /** Names are compared without case: only the letters of ASCII change, each to its small form. */
  lemma LowerCase(s: string, i: nat)
    requires i < |s|
    ensures |Lower(s)| == |s| && !('A' <= Lower(s)[i] <= 'Z')
    ensures Lower(s)[i] == s[i] || ('A' <= s[i] <= 'Z' && Lower(s)[i] as int == s[i] as int - 'A' as int + 'a' as int)
  {
  }
}
