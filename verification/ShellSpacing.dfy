/** Lines with any whitespace between their tokens, and none where none is needed. */
module ShellSpacing {
  import opened Common
  import opened CStrings
  import opened ShellRun
  import opened ShellParse
  import opened ShellLex
  import opened ShellRoundTrip

  predicate Blank(s: string) {
    forall k :: 0 <= k < |s| ==> s[k] in " \t\r"
  }

  /** Token b can stand right behind token a: one of them is an operator, and the two do not make another one. */
  predicate Touches(a: Token, b: Token) {
    !(IsArg(a.category) && IsArg(b.category)) && !(a.category == Bar && (b.category == Bar || b.category == OrOr))
  }

  /** One whitespace in front of each token, which may be empty in front of the first and between tokens that touch. */
  ghost predicate GoodSpacing(tokens: seq<Token>, spaces: seq<string>) {
    && |spaces| == |tokens| && (forall k :: 0 <= k < |tokens| ==> Blank(spaces[k]))
    && forall k :: 0 < k < |tokens| ==> spaces[k] != "" || Touches(tokens[k - 1], tokens[k])
  }

  function Spaced(tokens: seq<Token>, spaces: seq<string>): string
    requires |spaces| == |tokens|
  {
    if tokens == [] then "" else spaces[0] + PrintToken(tokens[0]) + Spaced(tokens[1..], spaces[1..])
  }

  lemma SpacedCons(tokens: seq<Token>, spaces: seq<string>, more: string)
    requires |spaces| == |tokens| && tokens != []
    ensures Spaced(tokens, spaces) + more
         == spaces[0] + (PrintToken(tokens[0]) + (Spaced(tokens[1..], spaces[1..]) + more))
  {
    hide PrintToken;
    Regroup(spaces[0], PrintToken(tokens[0]), Spaced(tokens[1..], spaces[1..]), more);
  }

  /** Whitespace is skipped. */
  lemma {:induction false} BlankSkipped(text: string, pos: nat, n: nat)
    requires pos + n <= |text| && Blank(text[pos..pos + n]) && !IsWhitespace(At(text, pos + n))
    ensures SkipWhitespace(text, pos) == pos + n
    decreases n
  {
    if n > 0 {
      assert text[pos] == text[pos..pos + n][0];
      SymbolChars(text[pos]);
      assert text[pos + 1..pos + n] == text[pos..pos + n][1..];
      BlankSkipped(text, pos + 1, n - 1);
    }
  }

  /** What stands behind a token may follow it: whitespace, or the first character of a token that touches it. */
  lemma NextMayFollow(t: Token, spaces: string, next: Token, rest: string)
    requires GoodToken(t) && GoodToken(next) && Blank(spaces) && (spaces != "" || Touches(t, next))
    ensures PrintToken(next) != "" && MayFollow(t, (spaces + (PrintToken(next) + rest))[0])
  {
    var c := (spaces + (PrintToken(next) + rest))[0];
    var out := NOT_IN_SYMBOLS;
    assert out[0] == ' ' && out[1] == '\t' && out[2] == '\r' && out[3] == '&' && out[4] == '|' && out[5] == ';';
    assert out[6] == '\n';
    if spaces != "" {
      assert c == spaces[0];
    } else {
      assert c == PrintToken(next)[0];
      if next.category == Symbol { SymbolLikeChars(next.value); }
    }
  }

  /** Spaced tokens are read back up to their newline, whatever the input goes on with. */
  lemma {:induction false} SpacedLine(text: string, pos: nat, tokens: seq<Token>, spaces: seq<string>, more: string)
    requires GoodLine(tokens) && GoodSpacing(tokens, spaces) && pos <= |text|
    requires text[pos..] == Spaced(tokens, spaces) + more
    ensures Line(text, pos) == LexedLine(tokens, |text| - |more|)
    decreases |tokens|
  {
    hide GoodToken, PrintToken, Spaced, Line, NextToken, GoodLine, MayFollow, Touches, Blank;
    GoodLineParts(tokens);
    var t, rest := tokens[0], Spaced(tokens[1..], spaces[1..]);
    var p, s := pos + |spaces[0]|, PrintToken(t);
    SpacedCons(tokens, spaces, more);
    Cut(text, pos, spaces[0], s + (rest + more));
    Cut(text, p, s, rest + more);
    if t.category == Newline {
      SpaceFollows(t);
    } else {
      GoodLineParts(tokens[1..]);
      SpacedCons(tokens[1..], spaces[1..], more);
      NextMayFollow(t, spaces[1], tokens[1], Spaced(tokens[2..], spaces[2..]) + more);
      assert tokens[1..][1..] == tokens[2..] && spaces[1..][1..] == spaces[2..];
      NotEmpty(spaces[1], PrintToken(tokens[1]), Spaced(tokens[2..], spaces[2..]) + more);
      assert text[p + |s|] == text[p + |s|..][0];
    }
    TokenPrinted(text, p, t);
    BlankSkipped(text, pos, |spaces[0]|);
    assert NextToken(text, pos) == TokenAt(text, p) by { Skipped(text, pos, p); }
    LineStep(text, pos, t, p + |s|);
    if t.category == Newline {
      assert tokens == [t] && spaces == [spaces[0]];
      NoMore(spaces[1..]);
    } else {
      SpacedLine(text, p + |s|, tokens[1..], spaces[1..], more);
      assert [t] + tokens[1..] == tokens;
    }
  }

  lemma NotEmpty(a: string, b: string, c: string)
    requires b != ""
    ensures a + (b + c) != ""
  {
    assert |a + (b + c)| >= |b|;
  }

  lemma NoMore(spaces: seq<string>)
    requires spaces == []
    ensures Spaced([], spaces) == ""
  {
  }

  lemma Skipped(text: string, pos: nat, p: nat)
    requires pos <= |text| && SkipWhitespace(text, pos) == p
    ensures p <= |text| && !IsWhitespace(At(text, p)) && NextToken(text, pos) == TokenAt(text, p)
  {
  }

  /** A list of commands, written with any good spacing, is read and parsed as itself. */
  lemma SpacedRoundTrip(cmds: seq<Command>, spaces: seq<string>, more: string)
    requires cmds != [] && Printable(cmds) && GoodSpacing(TokensOf(cmds), spaces)
    ensures var text := Spaced(TokensOf(cmds), spaces);
      var line := Line(text + more, 0);
      line.pos == |text| && ClosedLine(line.tokens) && Parse(line.tokens) == cmds
  {
    hide Expressible, ParseFrom, Spaced, Line, GoodToken;
    var tokens := TokensOf(cmds);
    var text := Spaced(tokens, spaces) + more;
    TokensOfGood(cmds);
    assert text[0..] == text;
    SpacedLine(text, 0, tokens, spaces, more);
    assert tokens[0..] == tokens;
    CommandsParsed(tokens, 0, cmds);
    assert tokens[0] == ArgToken(cmds[0].args[0]);
  }

  /** The operators by their characters. A `&` alone is an invalid token; behind `|` and `&` alone the byte that looks
      like the end of the input is lost. */
  lemma OperatorsRead(text: string, pos: nat)
    requires pos < |text|
    ensures text[pos] == '\n' ==> NextToken(text, pos) == Lexed(Some(Token(Newline, "")), pos + 1)
    ensures text[pos] == ';' ==> NextToken(text, pos) == Lexed(Some(Token(Semicolon, "")), pos + 1)
    ensures text[pos] in "|&" ==>
      var twice := pos + 1 < |text| && text[pos + 1] == text[pos];
      var lost := pos + 1 < |text| && text[pos + 1] == 255 as char;
      NextToken(text, pos) == Lexed(
        Some(Token(if text[pos] == '|' then (if twice then OrOr else Bar) else if twice then AndAnd else Invalid, "")),
        if twice || lost then pos + 2 else pos + 1)
  {
    hide StringFrom, SymbolEnd;
    assert "|&"[0] == '|' && "|&"[1] == '&';
    if text[pos] in "\n;|&" {
      SymbolChars(text[pos]);
      assert "\n;|&"[0] == '\n' && "\n;|&"[1] == ';' && "\n;|&"[2] == '|' && "\n;|&"[3] == '&';
      assert SkipWhitespace(text, pos) == pos;
    }
  }

  /** A NUL where a token should start ends the line, with what stands before it. */
  lemma NulEndsLine(text: string, pos: nat, n: nat)
    requires pos + n < |text| && Blank(text[pos..pos + n]) && text[pos + n] == 0 as char
    ensures NextToken(text, pos) == Lexed(None, pos + n + 1)
    ensures Line(text, pos) == LexedLine([], pos + n + 1)
  {
    SymbolChars(text[pos + n]);
    BlankSkipped(text, pos, n);
  }
}
