/** Escapes in string literals: a printer that uses them, and reading back what it prints. */
module ShellEscapes {
  import opened Common
  import opened CStrings
  import opened ShellParse
  import opened ShellLex
  import opened ShellRoundTrip

  const BELL := 7 as char
  const BACKSPACE := 8 as char

  /** Bell, backspace, tab, newline and carriage return as a backslash and a letter, any other character as it is. */
  function WrittenChar(c: char): string {
    if c == BELL then "\\a"
    else if c == BACKSPACE then "\\b"
    else if c == '\t' then "\\t"
    else if c == '\n' then "\\n"
    else if c == '\r' then "\\r"
    else [c]
  }

  function Written(v: string): string {
    if v == "" then "" else WrittenChar(v[0]) + Written(v[1..])
  }

  /** Can stand between two of these quotes. */
  predicate Plain(v: string, quote: char) {
    IsQuote(quote) && quote !in v && '\\' !in v && NUL !in v && EOF !in v
  }

  lemma CharRead(text: string, pos: nat, quote: char, c: char, rest: string)
    requires pos <= |text| && IsQuote(quote) && c != quote && c != '\\' && c != EOF
    requires text[pos..] == WrittenChar(c) + rest
    ensures |rest| < |text| - pos && text[|text| - |rest|..] == rest
    ensures StringFrom(text, pos, quote) == Consed(c, StringFrom(text, |text| - |rest|, quote))
  {
    var n := |WrittenChar(c)|;
    Cut(text, pos, WrittenChar(c), rest);
    assert text[pos] == text[pos..][0] == (WrittenChar(c) + rest)[0];
    assert n == 2 ==> text[pos + 1] == text[pos..][1] == (WrittenChar(c) + rest)[1];
    assert |text[pos..]| == n + |rest|;
  }

  /** Written characters are read back, whatever follows them. */
  lemma {:induction false} WrittenRead(text: string, pos: nat, quote: char, v: string, rest: string)
    requires pos <= |text| && Plain(v, quote) && text[pos..] == Written(v) + rest
    ensures |rest| <= |text| - pos && text[|text| - |rest|..] == rest
    ensures StringFrom(text, pos, quote) == Chained(v, StringFrom(text, |text| - |rest|, quote))
    decreases |v|
  {
    hide StringFrom, WrittenChar;
    if v == "" {
      assert Written(v) + rest == rest && |text[pos..]| == |rest|;
      ChainedEnds("", StringFrom(text, pos, quote), 0);
    } else {
      var more := Written(v[1..]) + rest;
      assert Written(v) + rest == WrittenChar(v[0]) + more;
      assert v[0] in v;
      CharRead(text, pos, quote, v[0], more);
      WrittenRead(text, |text| - |more|, quote, v[1..], rest);
      assert [v[0]] + v[1..] == v;
      ChainedCons(v, StringFrom(text, |text| - |rest|, quote));
    }
  }

  lemma ChainedCons(v: string, r: Scan)
    requires v != ""
    ensures Consed(v[0], Chained(v[1..], r)) == Chained(v, r)
  {
    if r.value.Some? {
      assert [v[0]] + (v[1..] + r.value.value) == v + r.value.value;
    }
  }

  /** A text that starts with a quote is read as what its string is. */
  lemma QuotedToken(text: string, quote: char, tail: string)
    requires IsQuote(quote) && text == [quote] + tail
    ensures text[1..] == tail
    ensures NextToken(text, 0) ==
      match StringFrom(text, 1, quote).value
      case None => Lexed(None, StringFrom(text, 1, quote).pos)
      case Some(s) => Lexed(Some(Token(Literal, CString(s))), StringFrom(text, 1, quote).pos)
  {
    hide StringFrom, SymbolEnd;
    assert text[0] == quote;
  }

  /** A string without backslash and one of the quotes is read back from its escapes. */
  lemma EscapedRoundTrip(v: string, more: string)
    requires Quotable(v)
    ensures var q := QuoteFor(v);
      var line := [q] + Written(v) + [q];
      NextToken(line + more, 0) == Lexed(Some(Token(Literal, v)), |line|)
  {
    hide StringFrom, Written;
    var q := QuoteFor(v);
    var tail := Written(v) + ([q] + more);
    var text := [q] + Written(v) + [q] + more;
    assert text == [q] + tail;
    QuotedToken(text, q, tail);
    WrittenRead(text, 1, q, v, [q] + more);
    Ends(text, q, more);
    ChainedEnds(v, Scan(Some(""), 0), |text| - |more|);
    LengthWithout(v);
  }

  lemma Ends(text: string, quote: char, more: string)
    requires IsQuote(quote) && 1 + |more| <= |text| && text[|text| - 1 - |more|..] == [quote] + more
    ensures StringFrom(text, |text| - 1 - |more|, quote) == Scan(Some(""), |text| - |more|)
  {
    assert text[|text| - 1 - |more|] == text[|text| - 1 - |more|..][0];
  }

  /** A `\0`, and a NUL as it is, cuts the literal: what stands behind it is read and not kept. */
  lemma NulCuts(quote: char, v: string, w: string, more: string, nul: string)
    requires Plain(v, quote) && Plain(w, quote) && nul in ["\\0", "\0"]
    ensures var line := [quote] + Written(v) + nul + Written(w) + [quote];
      NextToken(line + more, 0) == Lexed(Some(Token(Literal, v)), |line|)
  {
    hide StringFrom, Written, CString;
    var after := Written(w) + ([quote] + more);
    var tail := Written(v) + (nul + after);
    var text := [quote] + Written(v) + nul + Written(w) + [quote] + more;
    assert text == [quote] + tail;
    QuotedToken(text, quote, tail);
    WrittenRead(text, 1, quote, v, nul + after);
    NulRead(text, |text| - |nul + after|, quote, after, nul);
    WrittenRead(text, |text| - |after|, quote, w, [quote] + more);
    Ends(text, quote, more);
    ChainedEnds(w, Scan(Some(""), 0), |text| - |more|);
    CutAt(v, w);
  }

  lemma NulRead(text: string, pos: nat, quote: char, rest: string, nul: string)
    requires pos <= |text| && IsQuote(quote) && nul in ["\\0", "\0"] && text[pos..] == nul + rest
    ensures |rest| <= |text| && pos == |text| - |rest| - |nul| && text[|text| - |rest|..] == rest
    ensures StringFrom(text, pos, quote) == Consed(NUL, StringFrom(text, |text| - |rest|, quote))
  {
    Cut(text, pos, nul, rest);
    assert text[pos] == text[pos..][0];
    assert |nul| == 2 ==> text[pos + 1] == text[pos..][1];
    assert |text[pos..]| == |nul| + |rest|;
  }

  lemma CutAt(v: string, w: string)
    requires NUL !in v
    ensures CString(v + ([NUL] + w)) == v
  {
    var s := v + ([NUL] + w);
    assert s[..|v|] == v && s[|v|] == NUL;
    LengthAt(s, |v|);
  }

  /** A backslash and any other character, also at the end of the input, refuses the literal. */
  lemma EscapeRefused(quote: char, v: string, d: char, more: string)
    requires Plain(v, quote) && d !in "abtnr0"
    ensures var start := [quote] + Written(v) + "\\";
      && NextToken(start + [d] + more, 0) == Lexed(None, |start| + 1)
      && NextToken(start, 0) == Lexed(None, |start|)
  {
    hide StringFrom, Written;
    var start := [quote] + Written(v) + "\\";
    assert start + [d] + more == [quote] + (Written(v) + (['\\', d] + more));
    QuotedToken(start + [d] + more, quote, Written(v) + (['\\', d] + more));
    WrittenRead(start + [d] + more, 1, quote, v, ['\\', d] + more);
    RefusedAt(start + [d] + more, |start| - 1, quote);
    assert start == [quote] + (Written(v) + "\\");
    QuotedToken(start, quote, Written(v) + "\\");
    WrittenRead(start, 1, quote, v, "\\");
    RefusedAt(start, |start| - 1, quote);
  }

  /** A literal without its second quote, up to the end of the input or to the byte that looks like it, is refused. */
  lemma UnclosedRefused(quote: char, v: string, more: string)
    requires Plain(v, quote)
    ensures var start := [quote] + Written(v);
      && NextToken(start, 0) == Lexed(None, |start|)
      && NextToken(start + [255 as char] + more, 0) == Lexed(None, |start| + 1)
  {
    hide StringFrom, Written;
    var start := [quote] + Written(v);
    assert Written(v) + "" == Written(v);
    QuotedToken(start, quote, Written(v));
    WrittenRead(start, 1, quote, v, "");
    UnclosedAt(start, |start|, quote);
    var text := start + [255 as char] + more;
    assert text == [quote] + (Written(v) + ([255 as char] + more));
    QuotedToken(text, quote, Written(v) + ([255 as char] + more));
    WrittenRead(text, 1, quote, v, [255 as char] + more);
    UnclosedAt(text, |start|, quote);
  }

  lemma UnclosedAt(text: string, pos: nat, quote: char)
    requires pos <= |text| && IsQuote(quote) && (pos < |text| ==> text[pos] == 255 as char)
    ensures StringFrom(text, pos, quote) == Scan(None, if pos < |text| then pos + 1 else pos)
  {
  }

  lemma RefusedAt(text: string, pos: nat, quote: char)
    requires pos < |text| && IsQuote(quote) && text[pos] == '\\'
    requires pos + 1 < |text| ==> text[pos + 1] !in "abtnr0"
    ensures StringFrom(text, pos, quote) == Scan(None, if pos + 1 < |text| then pos + 2 else pos + 1)
  {
    var known := "abtnr0";
    assert known[0] == 'a' && known[1] == 'b' && known[2] == 't';
    assert known[3] == 'n' && known[4] == 'r' && known[5] == '0';
  }
}
