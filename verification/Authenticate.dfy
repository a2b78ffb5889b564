/** The `WWW-Authenticate` tokenizer: its grammar on suffixes, its cursor loops, and the text it undoes. */
module Authenticate {
  import opened Bytes
  import opened Text

  predicate IsTchar(c: char) {
    || '0' <= c <= '9' || 'A' <= c <= 'Z' || 'a' <= c <= 'z'
    || c in "!#$%&'*+-.^_`|~"
  }

  predicate IsToken68(c: char) {
    || '0' <= c <= '9' || 'A' <= c <= 'Z' || 'a' <= c <= 'z'
    || c in "-._~+/"
  }

  predicate IsOws(c: char) { c == ' ' || c == '\t' }
  predicate IsSeparator(c: char) { c == ',' || c == ' ' || c == '\t' }
  predicate IsEquals(c: char) { c == '=' }
  predicate IsControl(c: char) { (c < ' ' && c != '\t') || c == '\U{7F}' }

  // ---- Grammar ------------------------------------------------------------

  datatype Challenge = Challenge(scheme: string, params: map<string, string>, duplicated: bool)

  /** Does an auth-param, not token68 padding, start here? */
  predicate AtParam(s: string) {
    var (name, r1) := Span(IsTchar, s);
    var r2 := Drop(IsOws, r1);
    name != [] && r2 != [] && r2[0] == '=' && AtValue(Drop(IsOws, r2[1..]))
  }

  predicate AtValue(s: string) {
    s != [] && s[0] != '=' && s[0] != ','
  }

  /** A quoted-string after its opening quote: its text and what follows the closing one. */
  function Quoted(s: string): (r: Option<(string, string)>)
    ensures r.Some? ==> |r.value.1| < |s|
  {
    if s == [] then None
    else if s[0] == '"' then Some(([], s[1..]))
    else
      var skip := if s[0] == '\\' then 1 else 0;
      if skip >= |s| || IsControl(s[skip]) then None
      else
        var (text, rest) :- Quoted(s[skip + 1..]);
        Some(([s[skip]] + text, rest))
  }

  function Value(s: string): (r: Option<(string, string)>)
    ensures r.Some? ==> |r.value.1| < |s|
  {
    if s != [] && s[0] == '"' then Quoted(s[1..])
    else
      var (token, rest) := Span(IsTchar, s);
      if token == [] then None else Some((token, rest))
  }

  /** `name = value`: the lower-cased name, the value and what follows. */
  function Param(s: string): (r: Option<(string, string, string)>)
    ensures r.Some? ==> |r.value.2| < |s|
  {
    var (name, r1) := Span(IsTchar, s);
    var r2 := Drop(IsOws, r1);
    if r2 == [] || r2[0] != '=' then None
    else
      var (value, rest) :- Value(Drop(IsOws, r2[1..]));
      Some((Lower(name), value, rest))
  }

  function Record(c: Challenge, name: string, value: string): Challenge {
    if name in c.params then c.(duplicated := true) else c.(params := c.params[name := value])
  }

  /** Parameters up to the next challenge's scheme or the end. */
  function Params(c: Challenge, s: string): (r: Option<(Challenge, string)>)
    ensures r.Some? ==> |r.value.1| < |s|
    decreases |s|
  {
    var (name, value, r1) :- Param(s);
    var d := Record(c, name, value);
    var r2 := Drop(IsOws, r1);
    if r2 == [] then Some((d, []))
    else if r2[0] != ',' then None
    else
      var r3 := Drop(IsSeparator, r2);
      if AtParam(r3) then Params(d, r3) else Some((d, r3))
  }

  /** A token68 credential, consumed and ignored. */
  function SkipToken68(s: string): (r: Option<string>)
    ensures r.Some? ==> |r.value| < |s|
  {
    var r1 := Drop(IsEquals, Drop(IsToken68, s));
    if |r1| == |s| then None
    else
      var r2 := Drop(IsOws, r1);
      if r2 != [] && r2[0] != ',' then None else Some(r2)
  }

  /** One challenge and what follows it; `s` starts with its scheme. */
  function One(s: string): (r: Option<(Challenge, string)>)
    ensures r.Some? ==> |r.value.1| < |s|
  {
    var (scheme, r1) := Span(IsTchar, s);
    var c := Challenge(scheme, map[], false);
    var r2 := Drop(IsOws, r1);
    if scheme == [] then None
    else if r2 == [] || r2[0] == ',' then Some((c, r2))
    else if !AtParam(r2) then
      var r3 :- SkipToken68(r2);
      Some((c, r3))
    else Params(c, r2)
  }

  function Challenges(s: string): Option<seq<Challenge>>
    decreases |s|
  {
    var r := Drop(IsSeparator, s);
    if r == [] then Some([])
    else
      var (c, rest) :- One(r);
      var more :- Challenges(rest);
      Some([c] + more)
  }

  // ---- Accumulating -------------------------------------------------------

  function Behind<T>(done: seq<T>, more: Option<seq<T>>): Option<seq<T>> {
    if more.None? then None else Some(done + more.value)
  }

  lemma BehindNothing<T>(more: Option<seq<T>>)
    ensures Behind([], more) == more
  {
    if more.Some? { assert [] + more.value == more.value; }
  }

  lemma LastTurn(done: seq<Challenge>, s: string)
    requires Drop(IsSeparator, s) == []
    ensures Behind(done, Challenges(s)) == Some(done)
  {
    assert done + [] == done;
  }

  /** One turn of the loop over challenges. */
  lemma NextTurn(done: seq<Challenge>, s: string)
    requires Drop(IsSeparator, s) != []
    ensures match One(Drop(IsSeparator, s))
            case None => Behind(done, Challenges(s)) == None
            case Some((c, rest)) => Behind(done, Challenges(s)) == Behind(done + [c], Challenges(rest))
  {
    hide One, Span;
    var r := Drop(IsSeparator, s);
    if One(r).Some? && Challenges(One(r).value.1).Some? {
      var c, more := One(r).value.0, Challenges(One(r).value.1).value;
      assert done + ([c] + more) == (done + [c]) + more;
    }
  }

  lemma QuotedEnds(r: Option<(string, string)>)
    ensures Quoted([]) == None && BehindText([], r) == r
  {
    if r.Some? { assert [] + r.value.0 == r.value.0; }
  }

  function BehindText(done: string, r: Option<(string, string)>): Option<(string, string)> {
    if r.None? then None else Some((done + r.value.0, r.value.1))
  }

  /** One turn of the loop over a quoted string. */
  lemma NextQuoted(done: string, s: string)
    requires s != []
    ensures s[0] == '"' ==> BehindText(done, Quoted(s)) == Some((done, s[1..]))
    ensures s[0] != '"' ==>
      var skip := if s[0] == '\\' then 1 else 0;
      BehindText(done, Quoted(s)) ==
      if skip >= |s| || IsControl(s[skip]) then None else BehindText(done + [s[skip]], Quoted(s[skip + 1..]))
  {
    var skip := if s[0] == '\\' then 1 else 0;
    if s[0] == '"' {
      assert done + [] == done;
    } else if skip < |s| && !IsControl(s[skip]) && Quoted(s[skip + 1..]).Some? {
      var text := Quoted(s[skip + 1..]).value.0;
      assert done + ([s[skip]] + text) == (done + [s[skip]]) + text;
    }
  }

  // ---- The cursor ---------------------------------------------------------

  /** The string being scanned and the closures' shared cursor `i`. */
  class Tokenizer {
    const value: string
    var i: nat

    ghost predicate Valid()
      reads this
    {
      i <= |value|
    }

    ghost function Rest(): string
      reads this
      requires Valid()
    {
      value[i..]
    }

    constructor (value: string)
      ensures Valid() && this.value == value && Rest() == value
    {
      this.value := value;
      i := 0;
    }

    method Skip(p: char -> bool) returns (token: string)
      requires Valid()
      modifies this
      ensures Valid() && (token, Rest()) == Span(p, old(Rest()))
    {
      var start := i;
      while i < |value| && p(value[i])
        invariant start <= i <= |value|
        invariant forall k | start <= k < i :: p(value[k])
      {
        i := i + 1;
      }
      token := value[start..i];
      assert value[start..] == token + value[i..];
      SpanOf(p, token, value[i..]);
    }

    method SkipSeparators()
      requires Valid()
      modifies this
      ensures Valid() && Rest() == Drop(IsSeparator, old(Rest()))
    {
      var _ := Skip(IsSeparator);
    }

    /** Steps over `=` and the white space around it. */
    method ReadEquals() returns (found: bool)
      requires Valid()
      modifies this
      ensures Valid()
      ensures var r2 := Drop(IsOws, old(Rest()));
              found == (r2 != [] && r2[0] == '=') && (found ==> Rest() == Drop(IsOws, r2[1..]))
    {
      var _ := Skip(IsOws);
      if i >= |value| || value[i] != '=' { return false; }
      ghost var r2 := Rest();
      i := i + 1;
      assert Rest() == r2[1..];
      var _ := Skip(IsOws);
      return true;
    }

    /** Looks ahead with its own cursor. */
    method LookParam() returns (r: bool)
      requires Valid()
      ensures r <==> AtParam(Rest())
    {
      hide Span;
      var look := new Tokenizer(value);
      look.i := i;
      var name := look.Skip(IsTchar);
      if name == [] { return false; }
      var found := look.ReadEquals();
      return found && look.i < |value| && value[look.i] != '=' && value[look.i] != ',';
    }

    /** A quoted string; the cursor stands on its opening quote. */
    method ReadQuoted() returns (r: Option<string>)
      requires Valid() && i < |value|
      modifies this
      ensures Valid()
      ensures match Quoted(old(Rest())[1..])
              case None => r == None
              case Some((text, rest)) => r == Some(text) && Rest() == rest
    {
      hide Quoted;
      i := i + 1;
      ghost var before := Rest();
      var out: string := [];
      QuotedEnds(Quoted(before));
      while i < |value|
        invariant Valid()
        invariant Quoted(before) == BehindText(out, Quoted(Rest()))
      {
        NextQuoted(out, Rest());
        ghost var here := Rest();
        var ch := value[i];
        if ch == '"' {
          i := i + 1;
          assert Rest() == here[1..];
          return Some(out);
        }
        if ch == '\\' {
          i := i + 1;
          if i >= |value| { return None; }
          ch := value[i];
        }
        if IsControl(ch) { return None; }
        out := out + [ch];
        i := i + 1;
        assert Rest() == if here[0] == '\\' then here[2..] else here[1..];
      }
      return None;
    }

    method ReadValue() returns (r: Option<string>)
      requires Valid()
      modifies this
      ensures Valid()
      ensures match Value(old(Rest()))
              case None => r == None
              case Some((v, rest)) => r == Some(v) && Rest() == rest
    {
      if i < |value| && value[i] == '"' {
        r := ReadQuoted();
      } else {
        var v := Skip(IsTchar);
        r := if v == [] then None else Some(v);
      }
    }

    /** A parameter, from its name to the end of its value. */
    method ReadParam() returns (r: Option<(string, string)>)
      requires Valid()
      modifies this
      ensures Valid()
      ensures match Param(old(Rest()))
              case None => r == None
              case Some((name, v, rest)) => r == Some((name, v)) && Rest() == rest
    {
      var name := Skip(IsTchar);
      var found := ReadEquals();
      if !found { return None; }
      var v :- ReadValue();
      return Some((Lower(name), v));
    }

    /** Parameters until the next challenge's scheme or the end. */
    method ReadParams(first: Challenge) returns (r: Option<Challenge>)
      requires Valid()
      modifies this
      ensures Valid()
      ensures match Params(first, old(Rest()))
              case None => r == None
              case Some((c, rest)) => r == Some(c) && Rest() == rest
    {
      var c := first;
      while true
        invariant Valid()
        invariant Params(first, old(Rest())) == Params(c, Rest())
        decreases |value| - i
      {
        ghost var here := Rest();
        var param :- ReadParam();
        c := Record(c, param.0, param.1);
        var _ := Skip(IsOws);
        if i >= |value| { return Some(c); }
        if value[i] != ',' { return None; }
        var _ := Skip(IsSeparator);
        var more := LookParam();
        if i >= |value| || !more { return Some(c); }
      }
    }

    method ReadToken68() returns (found: bool)
      requires Valid()
      modifies this
      ensures Valid()
      ensures match SkipToken68(old(Rest()))
              case None => !found
              case Some(rest) => found && Rest() == rest
    {
      hide Span;
      var start := i;
      var _ := Skip(IsToken68);
      var _ := Skip(IsEquals);
      if i == start { return false; }
      var _ := Skip(IsOws);
      return i >= |value| || value[i] == ',';
    }

    method ReadOne() returns (r: Option<Challenge>)
      requires Valid()
      modifies this
      ensures Valid()
      ensures match One(old(Rest()))
              case None => r == None
              case Some((c, rest)) => r == Some(c) && Rest() == rest
    {
      hide Span, Params, SkipToken68, AtParam;
      var scheme := Skip(IsTchar);
      if scheme == [] { return None; }
      var c := Challenge(scheme, map[], false);
      var _ := Skip(IsOws);
      if i >= |value| || value[i] == ',' { return Some(c); }
      var param := LookParam();
      if !param {
        var found := ReadToken68();
        return if found then Some(c) else None;
      }
      r := ReadParams(c);
    }
  }

  /** Splits a field value into challenges; terminates on every input. */
  method ParseAuthenticate(value: string) returns (r: Option<seq<Challenge>>)
    ensures r == Challenges(value)
  {
    hide Challenges, One, Span, Drop, Behind;
    var t := new Tokenizer(value);
    var challenges: seq<Challenge> := [];
    BehindNothing(Challenges(value));
    while true
      invariant t.Valid() && t.value == value
      invariant Challenges(value) == Behind(challenges, Challenges(t.Rest()))
      decreases |value| - t.i
    {
      ghost var here := t.Rest();
      t.SkipSeparators();
      if t.i >= |t.value| {
        LastTurn(challenges, here);
        return Some(challenges);
      }
      NextTurn(challenges, here);
      var c :- t.ReadOne();
      challenges := challenges + [c];
    }
  }

  // ---- The text it undoes -------------------------------------------------

  datatype Source = Source(scheme: string, params: seq<(string, string)>)

  ghost predicate IsToken(s: string) {
    s != [] && forall i | 0 <= i < |s| :: IsTchar(s[i])
  }

  ghost predicate Printable(v: string) {
    forall i | 0 <= i < |v| :: !IsControl(v[i])
  }

  ghost predicate GoodParam(p: (string, string)) {
    IsToken(p.0) && Lower(p.0) == p.0 && Printable(p.1)
  }

  ghost predicate GoodParams(ps: seq<(string, string)>) {
    && (forall i | 0 <= i < |ps| :: GoodParam(ps[i]))
    && (forall i, j | 0 <= i < j < |ps| :: ps[i].0 != ps[j].0)
  }

  ghost predicate GoodSource(c: Source) {
    && IsToken(c.scheme)
    && GoodParams(c.params)
  }

  /** Quote and backslash are escaped by a backslash. */
  function Escape(v: string): string {
    if v == [] then []
    else (if v[0] == '"' || v[0] == '\\' then ['\\', v[0]] else [v[0]]) + Escape(v[1..])
  }

  function PrintParam(p: (string, string)): string {
    p.0 + (['=', '"'] + (Escape(p.1) + ['"']))
  }

  /** Parameters after the first, each behind a comma and a space. */
  function MoreParams(ps: seq<(string, string)>): string {
    if ps == [] then [] else [',', ' '] + (PrintParam(ps[0]) + MoreParams(ps[1..]))
  }

  function PrintOne(c: Source): string {
    c.scheme + (if c.params == [] then [] else [' '] + (PrintParam(c.params[0]) + MoreParams(c.params[1..])))
  }

  function MoreChallenges(cs: seq<Source>): string {
    if cs == [] then [] else [',', ' '] + (PrintOne(cs[0]) + MoreChallenges(cs[1..]))
  }

  /** The field value: challenges joined by commas. */
  function Print(cs: seq<Source>): string {
    if cs == [] then [] else PrintOne(cs[0]) + MoreChallenges(cs[1..])
  }

  function AsMap(ps: seq<(string, string)>): map<string, string> {
    if ps == [] then map[] else AsMap(ps[..|ps| - 1])[ps[|ps| - 1].0 := ps[|ps| - 1].1]
  }

  function Expected(c: Source): Challenge {
    Challenge(c.scheme, AsMap(c.params), false)
  }

  lemma {:induction false} QuotedUndoesEscape(v: string, rest: string)
    requires Printable(v)
    ensures Quoted(Escape(v) + (['"'] + rest)) == Some((v, rest))
  {
    var text := Escape(v) + (['"'] + rest);
    if v == [] {
      assert text == ['"'] + rest;
    } else {
      var tail := Escape(v[1..]) + (['"'] + rest);
      QuotedUndoesEscape(v[1..], rest);
      if v[0] == '"' || v[0] == '\\' {
        assert text == ['\\', v[0]] + tail;
        assert text[2..] == tail;
      } else {
        assert text == [v[0]] + tail;
        assert text[1..] == tail;
      }
      assert [v[0]] + v[1..] == v;
    }
  }

  lemma TokenEnds(c: char)
    requires c == '=' || c == ',' || c == ' ' || c == '\t' || c == '"'
    ensures !IsTchar(c)
  {
  }

  lemma ParamText(p: (string, string), rest: string)
    ensures PrintParam(p) + rest == p.0 + (['='] + (['"'] + (Escape(p.1) + (['"'] + rest))))
  {
  }

  /** A printed parameter is recognised by the lookahead and read back. */
  lemma ParamUndoesPrint(p: (string, string), rest: string)
    requires GoodParam(p)
    ensures AtParam(PrintParam(p) + rest) && Param(PrintParam(p) + rest) == Some((p.0, p.1, rest))
  {
    var e2 := Escape(p.1) + (['"'] + rest);
    var e1 := ['"'] + e2;
    var e0 := ['='] + e1;
    ParamText(p, rest);
    TokenEnds('=');
    SpanOf(IsTchar, p.0, e0);
    SpanOf(IsOws, [], e0);
    SpanOf(IsOws, [], e1);
    assert [] + e0 == e0 && [] + e1 == e1;
    assert e0[1..] == e1 && e1[1..] == e2;
    QuotedUndoesEscape(p.1, rest);
  }

  /** What may follow a scheme: nothing, a comma, or a space and a parameter name. */
  ghost predicate AfterScheme(t: string) {
    t == [] || t[0] == ',' || (t[0] == ' ' && |t| > 1 && IsTchar(t[1]))
  }

  lemma DropOne(t: string)
    requires t != [] && IsTchar(t[0])
    ensures Drop(IsOws, [' '] + t) == t
    ensures Drop(IsSeparator, [',', ' '] + t) == t
  {
    SpanOf(IsOws, [' '], t);
    SpanOf(IsSeparator, [',', ' '], t);
  }

  /** The lookahead refuses the scheme of a next challenge. */
  lemma SchemeIsNoParam(scheme: string, t: string)
    requires IsToken(scheme) && AfterScheme(t)
    ensures Span(IsTchar, scheme + t) == (scheme, t) && !AtParam(scheme + t)
  {
    TokenEnds(',');
    TokenEnds(' ');
    TokenEnds('=');
    SpanOf(IsTchar, scheme, t);
    if t == [] || t[0] == ',' {
      SpanOf(IsOws, [], t);
      assert [] + t == t;
    } else {
      DropOne(t[1..]);
      assert t == [' '] + t[1..];
    }
  }

  /** After the scheme of a printed challenge. */
  function AfterText(c: Source, rest: string): string {
    if c.params == [] then rest else [' '] + (PrintParam(c.params[0]) + (MoreParams(c.params[1..]) + rest))
  }

  lemma OneText(c: Source, rest: string)
    requires GoodSource(c) && (rest == [] || rest[0] == ',')
    ensures PrintOne(c) + rest == c.scheme + AfterText(c, rest) && AfterScheme(AfterText(c, rest))
  {
    if c.params != [] {
      assert GoodParam(c.params[0]);
      assert AfterText(c, rest)[1] == c.params[0].0[0];
    }
  }

  lemma {:induction false} AsMapKeys(ps: seq<(string, string)>, name: string)
    ensures name in AsMap(ps) <==> exists i :: 0 <= i < |ps| && ps[i].0 == name
  {
    if ps != [] {
      AsMapKeys(ps[..|ps| - 1], name);
    }
  }

  lemma RecordNext(c: Challenge, done: seq<(string, string)>, p: (string, string))
    requires c.params == AsMap(done) && forall i | 0 <= i < |done| :: done[i].0 != p.0
    ensures Record(c, p.0, p.1) == c.(params := AsMap(done + [p]))
  {
    AsMapKeys(done, p.0);
    assert (done + [p])[..|done|] == done;
  }

  /** What follows a printed challenge: the end, or a comma, a space and a scheme that is no parameter. */
  ghost predicate NextChallenge(rest: string, next: string) {
    if rest == [] then next == [] else rest == [',', ' '] + next && next != [] && IsTchar(next[0]) && !AtParam(next)
  }

  lemma ParamsStep(c: Challenge, d: Challenge, s: string, p: (string, string), after: string, next: string)
    requires Param(s) == Some((p.0, p.1, after)) && Drop(IsOws, after) == after && d == Record(c, p.0, p.1)
    requires after != [] ==> after[0] == ',' && Drop(IsSeparator, after) == next
    ensures after == [] ==> Params(c, s) == Some((d, []))
    ensures after != [] ==> Params(c, s) == if AtParam(next) then Params(d, next) else Some((d, next))
  {
  }

  /** The first of several printed parameters. */
  lemma FirstParam(c: Challenge, done: seq<(string, string)>, ps: seq<(string, string)>, rest: string)
    requires |ps| > 1 && GoodParams(done + ps) && c.params == AsMap(done)
    ensures Params(c, PrintParam(ps[0]) + (MoreParams(ps[1..]) + rest))
         == Params(c.(params := AsMap(done + [ps[0]])), PrintParam(ps[1]) + (MoreParams(ps[2..]) + rest))
  {
    var p := ps[0];
    var after, t := MoreParams(ps[1..]) + rest, PrintParam(ps[1]) + (MoreParams(ps[2..]) + rest);
    assert ps[1..][1..] == ps[2..];
    assert after == [',', ' '] + t;
    SplitParams(done, ps);
    ParamUndoesPrint(p, after);
    RecordNext(c, done, p);
    ParamUndoesPrint(ps[1], MoreParams(ps[2..]) + rest);
    assert t[0] == ps[1].0[0];
    NextParam(t);
    ParamsStep(c, c.(params := AsMap(done + [p])), PrintParam(p) + after, p, after, t);
  }

  lemma SplitParams(done: seq<(string, string)>, ps: seq<(string, string)>)
    requires GoodParams(done + ps) && ps != []
    ensures GoodParam(ps[0]) && (|ps| > 1 ==> GoodParam(ps[1]))
    ensures forall i | 0 <= i < |done| :: done[i].0 != ps[0].0
  {
    var all := done + ps;
    assert all[|done|] == ps[0] && (|ps| > 1 ==> all[|done| + 1] == ps[1]);
    assert forall i | 0 <= i < |done| :: all[i] == done[i];
  }

  lemma OnlyParam(c: Challenge, done: seq<(string, string)>, p: (string, string), rest: string, next: string)
    requires GoodParam(p) && c.params == AsMap(done) && NextChallenge(rest, next)
    requires forall i | 0 <= i < |done| :: done[i].0 != p.0
    ensures Params(c, PrintParam(p) + rest) == Some((c.(params := AsMap(done + [p])), next))
  {
    ParamUndoesPrint(p, rest);
    RecordNext(c, done, p);
    LastParam(rest, next);
    ParamsStep(c, c.(params := AsMap(done + [p])), PrintParam(p) + rest, p, rest, next);
  }

  lemma {:induction false} ParamsUndoPrint(c: Challenge, done: seq<(string, string)>, ps: seq<(string, string)>, rest: string, next: string)
    requires ps != [] && GoodParams(done + ps) && c.params == AsMap(done) && NextChallenge(rest, next)
    ensures Params(c, PrintParam(ps[0]) + (MoreParams(ps[1..]) + rest)) == Some((c.(params := AsMap(done + ps)), next))
    decreases |ps|
  {
    hide Params, PrintParam, NextChallenge, Span, AsMap, GoodParams, GoodParam;
    var p := ps[0];
    if |ps| == 1 {
      assert MoreParams(ps[1..]) + rest == rest && done + ps == done + [p];
      SplitParams(done, ps);
      OnlyParam(c, done, p, rest, next);
    } else {
      FirstParam(c, done, ps, rest);
      assert (done + [p]) + ps[1..] == done + ps && ps[1..][1..] == ps[2..];
      ParamsUndoPrint(c.(params := AsMap(done + [p])), done + [p], ps[1..], rest, next);
    }
  }

  lemma LastParam(rest: string, next: string)
    requires NextChallenge(rest, next)
    ensures Drop(IsOws, rest) == rest
    ensures rest != [] ==> rest[0] == ',' && Drop(IsSeparator, rest) == next && !AtParam(next)
  {
    SpanOf(IsOws, [], rest);
    assert [] + rest == rest;
    if rest != [] { DropOne(next); }
  }

  lemma NextParam(t: string)
    requires t != [] && IsTchar(t[0])
    ensures Drop(IsOws, [',', ' '] + t) == [',', ' '] + t && Drop(IsSeparator, [',', ' '] + t) == t
  {
    SpanOf(IsOws, [], [',', ' '] + t);
    assert [] + ([',', ' '] + t) == [',', ' '] + t;
    DropOne(t);
  }

  lemma PrintedStart(p: (string, string), rest: string)
    requires GoodParam(p)
    ensures PrintParam(p) + rest != [] && IsTchar((PrintParam(p) + rest)[0])
  {
    assert (PrintParam(p) + rest)[0] == p.0[0];
  }

  /** A printed challenge is read back, leaving what separates it from the next one. */
  lemma OneUndoesPrint(c: Source, rest: string, next: string)
    requires GoodSource(c) && NextChallenge(rest, next)
    ensures One(PrintOne(c) + rest) == Some((Expected(c), if c.params == [] then rest else next))
  {
    hide Span, Params, Param, AtParam, SkipToken68, PrintParam, MoreParams, PrintOne;
    OneText(c, rest);
    SchemeIsNoParam(c.scheme, AfterText(c, rest));
    LastParam(rest, next);
    if c.params != [] {
      var t := PrintParam(c.params[0]) + (MoreParams(c.params[1..]) + rest);
      assert GoodParam(c.params[0]);
      PrintedStart(c.params[0], MoreParams(c.params[1..]) + rest);
      DropOne(t);
      TokenEnds(',');
      ParamUndoesPrint(c.params[0], MoreParams(c.params[1..]) + rest);
      assert [] + c.params == c.params;
      ParamsUndoPrint(Challenge(c.scheme, map[], false), [], c.params, rest, next);
    }
  }

  ghost predicate AllGood(cs: seq<Source>) {
    forall i | 0 <= i < |cs| :: GoodSource(cs[i])
  }

  lemma NextIsChallenge(cs: seq<Source>)
    requires AllGood(cs)
    ensures NextChallenge(MoreChallenges(cs), Print(cs))
    ensures Drop(IsSeparator, MoreChallenges(cs)) == Print(cs) == Drop(IsSeparator, Print(cs))
  {
    if cs != [] {
      var c, rest := cs[0], MoreChallenges(cs[1..]);
      OneText(c, rest);
      SchemeIsNoParam(c.scheme, AfterText(c, rest));
      assert Print(cs)[0] == c.scheme[0];
      DropOne(Print(cs));
      SpanOf(IsSeparator, [], Print(cs));
      assert [] + Print(cs) == Print(cs);
    }
  }

  lemma ChallengesStep(s: string, r: string, c: Challenge, rest: string)
    requires Drop(IsSeparator, s) == r && r != [] && One(r) == Some((c, rest)) && Challenges(rest).Some?
    ensures Challenges(s) == Some([c] + Challenges(rest).value)
  {
  }

  lemma SameAfterSeparators(s: string, t: string)
    requires Drop(IsSeparator, s) == Drop(IsSeparator, t)
    ensures Challenges(s) == Challenges(t)
  {
  }

  lemma PrintStep(cs: seq<Source>, tail: seq<Challenge>)
    requires AllGood(cs) && cs != [] && Challenges(Print(cs[1..])) == Some(tail)
    ensures Challenges(Print(cs)) == Some([Expected(cs[0])] + tail)
  {
    hide Span, One, PrintParam, Challenges;
    var c, more := cs[0], cs[1..];
    NextIsChallenge(cs);
    NextIsChallenge(more);
    assert Print(cs) != [] by { assert c.scheme != []; }
    OneUndoesPrint(c, MoreChallenges(more), Print(more));
    SameAfterSeparators(MoreChallenges(more), Print(more));
    ChallengesStep(Print(cs), Print(cs), Expected(c), if c.params == [] then MoreChallenges(more) else Print(more));
  }

  /**
   * The tokenizer undoes printing: for every list of challenges with token
   * schemes, distinct lower-case token names and printable values, parsing the
   * comma-joined text returns that list.
   */
  lemma {:induction false} ParseUndoesPrint(cs: seq<Source>)
    requires AllGood(cs)
    ensures Challenges(Print(cs)) == Some(Map(Expected, cs))
  {
    hide Print, Challenges, Expected;
    if cs == [] {
      NothingPrinted();
    } else {
      ParseUndoesPrint(cs[1..]);
      PrintStep(cs, Map(Expected, cs[1..]));
      assert Map(Expected, cs) == [Expected(cs[0])] + Map(Expected, cs[1..]);
    }
  }

  lemma NothingPrinted()
    ensures Challenges(Print([])) == Some([])
  {
  }

  /** The expected parameters are exactly the printed ones. */
  lemma {:induction false} ExpectedParams(ps: seq<(string, string)>, i: nat)
    requires i < |ps| && forall j, k | 0 <= j < k < |ps| :: ps[j].0 != ps[k].0
    ensures ps[i].0 in AsMap(ps) && AsMap(ps)[ps[i].0] == ps[i].1
    ensures |AsMap(ps)| == |ps|
  {
    var init := ps[..|ps| - 1];
    AsMapKeys(init, ps[|ps| - 1].0);
    if |ps| > 1 { ExpectedParams(init, if i < |ps| - 1 then i else 0); }
  }
}
