/** String functions shared by the text formats. */
module Text {
  import opened Bytes

  predicate IsDigit(c: char) { '0' <= c <= '9' }
  predicate IsAlnum(c: char) { '0' <= c <= '9' || 'A' <= c <= 'Z' || 'a' <= c <= 'z' }
  predicate IsHex(c: char) { '0' <= c <= '9' || 'A' <= c <= 'F' || 'a' <= c <= 'f' }

  /** `toLowerCase`, on the letters of ASCII. */
  function Lower(s: string): (r: string)
    ensures |r| == |s|
  {
    seq(|s|, i requires 0 <= i < |s| => if 'A' <= s[i] <= 'Z' then ((s[i] as int) + 32) as char else s[i])
  }

  predicate All(p: char -> bool, s: string) {
    forall i | 0 <= i < |s| :: p(s[i])
  }

  /** The longest prefix of characters satisfying `p`, and what follows it. */
  function Span(p: char -> bool, s: string): (r: (string, string))
    ensures r.0 + r.1 == s
    ensures forall i | 0 <= i < |r.0| :: p(r.0[i])
    ensures r.1 != [] ==> !p(r.1[0])
  {
    if s == [] || !p(s[0]) then ([], s)
    else
      var n := |Span(p, s[1..]).0| + 1;
      (s[..n], s[n..])
  }

  lemma SpanStep(p: char -> bool, s: string)
    requires s != [] && p(s[0])
    ensures var n := |Span(p, s[1..]).0| + 1; Span(p, s) == (s[..n], s[n..])
  {
  }

  /** The span of a concatenation whose parts meet where `p` ends. */
  lemma {:induction false} SpanOf(p: char -> bool, a: string, b: string)
    requires (forall i | 0 <= i < |a| :: p(a[i])) && (b == [] || !p(b[0]))
    ensures Span(p, a + b) == (a, b)
  {
    if a == [] {
      assert a + b == b;
    } else {
      var s := a + b;
      assert s[1..] == a[1..] + b;
      SpanOf(p, a[1..], b);
      SpanStep(p, s);
      assert s[..|a|] == a && s[|a|..] == b;
    }
  }

  /** The span does not pass a character that ends it. */
  lemma {:induction false} SpanStops(p: char -> bool, a: string, b: string)
    requires b == [] || !p(b[0])
    ensures |Span(p, a + b).0| <= |a|
  {
    var s := a + b;
    if a == [] {
      assert s == b;
    } else if p(a[0]) {
      assert s[1..] == a[1..] + b;
      SpanStops(p, a[1..], b);
      SpanStep(p, s);
    }
  }

  lemma Assoc(a: string, b: string, c: string)
    ensures (a + b) + c == a + (b + c)
  {
  }

  function Drop(p: char -> bool, s: string): (r: string)
    ensures |r| <= |s|
  {
    Span(p, s).1
  }

  // ---- Lines --------------------------------------------------------------

  function Split(sep: char, s: string): (r: seq<string>)
    ensures r != []
    decreases |s|
  {
    var i := IndexOf(s, sep);
    if i < 0 then [s] else [s[..i]] + Split(sep, s[i + 1..])
  }

  function Join(sep: char, parts: seq<string>): string
    requires parts != []
  {
    if |parts| == 1 then parts[0] else parts[0] + ([sep] + Join(sep, parts[1..]))
  }

  lemma FirstSeparator(sep: char, a: string, b: string)
    requires sep !in a
    ensures IndexOf(a + ([sep] + b), sep) == |a|
  {
    var s := a + ([sep] + b);
    assert s[|a|] == sep;
    assert forall j | 0 <= j < |a| :: s[j] == a[j];
  }

  lemma SplitStep(sep: char, a: string, b: string)
    requires sep !in a
    ensures Split(sep, a + ([sep] + b)) == [a] + Split(sep, b)
  {
    var s := a + ([sep] + b);
    FirstSeparator(sep, a, b);
    assert s[..|a|] == a && s[|a| + 1..] == b;
  }

  /** Splitting undoes joining parts that do not contain the separator. */
  lemma {:induction false} SplitUndoesJoin(sep: char, parts: seq<string>)
    requires parts != [] && forall i | 0 <= i < |parts| :: sep !in parts[i]
    ensures Split(sep, Join(sep, parts)) == parts
  {
    var a, rest := parts[0], parts[1..];
    assert parts == [a] + rest;
    if rest != [] {
      SplitUndoesJoin(sep, rest);
      SplitStep(sep, a, Join(sep, rest));
    }
  }

  lemma {:induction false} JoinMembers(sep: char, parts: seq<string>, c: char)
    requires parts != [] && c != sep && forall i | 0 <= i < |parts| :: c !in parts[i]
    ensures c !in Join(sep, parts)
  {
    if |parts| > 1 { JoinMembers(sep, parts[1..], c); }
  }

  // ---- White space --------------------------------------------------------

  /** The characters JavaScript's `trim` removes. */
  predicate IsWhite(c: char) {
    || '\t' <= c <= '\r' || c == ' ' || c == '\U{A0}' || c == '\U{1680}' || '\U{2000}' <= c <= '\U{200A}'
    || c == '\U{2028}' || c == '\U{2029}' || c == '\U{202F}' || c == '\U{205F}' || c == '\U{3000}' || c == '\U{FEFF}'
  }

  function TrimEnd(s: string): string {
    if s != [] && IsWhite(s[|s| - 1]) then TrimEnd(s[..|s| - 1]) else s
  }

  function Trim(s: string): string {
    TrimEnd(Span(IsWhite, s).1)
  }

  predicate Trimmed(s: string) {
    s != [] && !IsWhite(s[0]) && !IsWhite(s[|s| - 1])
  }

  lemma TrimmedIsFixed(s: string)
    requires s == [] || Trimmed(s)
    ensures Trim(s) == s
  {
    SpanOf(IsWhite, [], s);
    assert [] + s == s;
  }
}
