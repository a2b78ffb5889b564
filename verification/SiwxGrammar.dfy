/** The field grammars a SIWx message is checked against, over uninterpreted URL and date parsers. */
module SiwxGrammar {
  import opened Bytes
  import opened Text

  /** `new URL` and `new Date` as the platform decides them. */
  datatype Web = Web(isUrl: string -> bool, isDate: string -> bool)

  predicate IsLabel(s: string) {
    s != [] && All(IsLabelChar, s) && IsAlnum(s[0]) && IsAlnum(s[|s| - 1])
  }

  predicate IsLabelChar(c: char) { IsAlnum(c) || c == '-' }

  predicate IsHost(s: string) {
    var labels := Split('.', s);
    forall i | 0 <= i < |labels| :: IsLabel(labels[i])
  }

  /** Dot-separated labels and an optional port. */
  predicate IsDomain(s: string) {
    var i := IndexOf(s, ':');
    if i < 0 then IsHost(s) else IsHost(s[..i]) && s[i + 1..] != [] && All(IsDigit, s[i + 1..])
  }

  predicate IsUriChar(c: char) { c > ' ' && c != '\U{7F}' }

  predicate IsUri(web: Web, s: string) {
    s != [] && All(IsUriChar, s) && web.isUrl(s)
  }

  predicate IsNamespaceChar(c: char) { IsDigit(c) || 'a' <= c <= 'z' || c == '-' }
  predicate IsReferenceChar(c: char) { IsAlnum(c) || c == '-' || c == '_' }

  predicate IsCaip2(s: string) {
    var i := IndexOf(s, ':');
    3 <= i <= 8 && All(IsNamespaceChar, s[..i]) && 1 <= |s| - i - 1 <= 32 && All(IsReferenceChar, s[i + 1..])
  }

  const EIP155 := "eip155:"

  /** An EIP-155 chain needs a decimal reference and a 20-byte hex address. */
  predicate Eip155Ok(chainId: string, address: string) {
    EIP155 <= chainId ==>
      && |chainId| > 7 && '1' <= chainId[7] <= '9' && All(IsDigit, chainId[7..])
      && |address| == 42 && "0x" <= address && All(IsHex, address[2..])
  }

  predicate IsNonce(s: string) {
    |s| >= 8 && All(IsAlnum, s)
  }

  /** `d` in the pattern stands for a digit. */
  predicate Matches(pattern: string, s: string) {
    |s| == |pattern| && forall i | 0 <= i < |s| :: if pattern[i] == 'd' then IsDigit(s[i]) else s[i] == pattern[i]
  }

  predicate IsOffset(s: string) {
    s == "Z" || Matches("+dd:dd", s) || Matches("-dd:dd", s)
  }

  predicate IsRfc3339(web: Web, s: string) {
    && |s| >= 20 && Matches("dddd-dd-ddTdd:dd:dd", s[..19])
    && (IsOffset(s[19..])
        || (s[19] == '.' && var (digits, offset) := Span(IsDigit, s[20..]); digits != [] && IsOffset(offset)))
    && web.isDate(s)
  }

  predicate IsRequestChar(c: char) { IsAlnum(c) || c in "._~-!$&'()*+,;=:@" }

  predicate IsRequestId(s: string) {
    if s == [] then true
    else if s[0] == '%' then |s| >= 3 && IsHex(s[1]) && IsHex(s[2]) && IsRequestId(s[3..])
    else IsRequestChar(s[0]) && IsRequestId(s[1..])
  }

  predicate IsStatementChar(c: char) { ' ' <= c < '\U{7F}' }

  /** Single-line ASCII. */
  predicate IsStatement(s: string) { All(IsStatementChar, s) }

  // ---- None of these spans lines ------------------------------------------

  predicate OneLine(s: string) { '\n' !in s && '\r' !in s }

  lemma AllOneLine(p: char -> bool, s: string)
    requires All(p, s) && !p('\n') && !p('\r')
    ensures OneLine(s)
  {
  }

  lemma SplitUnfolds(sep: char, s: string)
    ensures var i := IndexOf(s, sep);
      Split(sep, s) == if i < 0 then [s] else [s[..i]] + Split(sep, s[i + 1..])
  {
  }

  lemma {:induction false} SplitCovers(sep: char, s: string, c: char)
    requires c in s && c != sep
    ensures exists i :: 0 <= i < |Split(sep, s)| && c in Split(sep, s)[i]
    decreases |s|
  {
    hide IndexOf, Split;
    var i := IndexOf(s, sep);
    SplitUnfolds(sep, s);
    if i >= 0 {
      assert s == s[..i] + [sep] + s[i + 1..];
      if c in s[..i] {
        assert Split(sep, s)[0] == s[..i];
      } else {
        SplitCovers(sep, s[i + 1..], c);
        var k :| 0 <= k < |Split(sep, s[i + 1..])| && c in Split(sep, s[i + 1..])[k];
        assert Split(sep, s)[k + 1] == Split(sep, s[i + 1..])[k];
      }
    } else {
      assert Split(sep, s)[0] == s;
    }
  }

  predicate IsDomainChar(c: char) { IsAlnum(c) || c == '-' || c == '.' || c == ':' }

  lemma HostChars(s: string)
    requires IsHost(s)
    ensures All(IsDomainChar, s)
  {
    forall k | 0 <= k < |s| ensures IsDomainChar(s[k]) {
      if s[k] != '.' {
        SplitCovers('.', s, s[k]);
        var i :| 0 <= i < |Split('.', s)| && s[k] in Split('.', s)[i];
        assert IsLabel(Split('.', s)[i]);
      }
    }
  }

  lemma DomainChars(s: string)
    requires IsDomain(s)
    ensures All(IsDomainChar, s) && OneLine(s) && (s == [] || Trimmed(s)) && ' ' !in s
  {
    var i := IndexOf(s, ':');
    if i < 0 {
      HostChars(s);
    } else {
      HostChars(s[..i]);
      assert s == s[..i] + [':'] + s[i + 1..];
    }
    AllOneLine(IsDomainChar, s);
  }

  predicate IsDateChar(c: char) { IsDigit(c) || c in "-T:.Z+" }

  lemma MatchesChars(pattern: string, s: string)
    requires Matches(pattern, s) && forall i | 0 <= i < |pattern| :: pattern[i] == 'd' || IsDateChar(pattern[i])
    ensures All(IsDateChar, s)
  {
    forall i | 0 <= i < |s| ensures IsDateChar(s[i]) {
      assert pattern[i] == 'd' || IsDateChar(pattern[i]);
    }
  }

  lemma OffsetChars(s: string)
    requires IsOffset(s)
    ensures All(IsDateChar, s)
  {
    if Matches("+dd:dd", s) { MatchesChars("+dd:dd", s); }
    if Matches("-dd:dd", s) { MatchesChars("-dd:dd", s); }
  }

  lemma DateOneLine(web: Web, s: string)
    requires IsRfc3339(web, s)
    ensures OneLine(s) && s != []
  {
    MatchesChars("dddd-dd-ddTdd:dd:dd", s[..19]);
    assert s == s[..19] + s[19..];
    if IsOffset(s[19..]) {
      OffsetChars(s[19..]);
    } else {
      var (digits, offset) := Span(IsDigit, s[20..]);
      OffsetChars(offset);
      assert s[19..] == ['.'] + (digits + offset);
    }
    assert All(IsDateChar, s);
    AllOneLine(IsDateChar, s);
  }

  lemma {:induction false} RequestOneLine(s: string)
    requires IsRequestId(s)
    ensures OneLine(s)
  {
    if s == [] {
    } else if s[0] == '%' {
      RequestOneLine(s[3..]);
      assert s == [s[0], s[1], s[2]] + s[3..];
    } else {
      RequestOneLine(s[1..]);
      assert s == [s[0]] + s[1..];
    }
  }

  lemma CaipOneLine(s: string)
    requires IsCaip2(s)
    ensures OneLine(s)
  {
    var i := IndexOf(s, ':');
    AllOneLine(IsNamespaceChar, s[..i]);
    AllOneLine(IsReferenceChar, s[i + 1..]);
    assert s == s[..i] + [':'] + s[i + 1..];
  }
}
