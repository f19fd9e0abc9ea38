/** Printing a list of commands, and reading it back through the tokenizer and the parser of tp1. */
module ShellRoundTrip {
  import opened Common
  import opened CStrings
  import opened ShellRun
  import opened ShellParse
  import opened ShellLex

  // ---------------------------------------------------------------- which arguments can be written

  /** What a symbol cannot hold, besides NUL and the character that looks like the end of the input. */
  const NOT_IN_SYMBOLS := " \t\r&|;\n"

  /** Can be written as it is. */
  predicate SymbolLike(v: string) {
    && v != "" && v[0] !in "\"'"
    && forall k :: 0 <= k < |v| ==> v[k] !in NOT_IN_SYMBOLS && v[k] != 0 as char && v[k] != 255 as char
  }

  lemma SymbolChars(c: char)
    ensures IsSymbolChar(c) <==> c !in NOT_IN_SYMBOLS && c != 0 as char && c != 255 as char
    ensures IsQuote(c) <==> c in "\"'"
    ensures IsWhitespace(c) <==> c in " \t\r"
  {
    var out, quotes, spaces := NOT_IN_SYMBOLS, "\"'", " \t\r";
    assert out[0] == ' ' && out[1] == '\t' && out[2] == '\r' && out[3] == '&' && out[4] == '|' && out[5] == ';';
    assert out[6] == '\n' && quotes[0] == '"' && quotes[1] == '\'';
    assert spaces[0] == ' ' && spaces[1] == '\t' && spaces[2] == '\r';
  }

  lemma SymbolLikeChars(v: string)
    ensures SymbolLike(v) <==> v != "" && !IsQuote(v[0]) && forall k :: 0 <= k < |v| ==> IsSymbolChar(v[k])
  {
    hide IsSymbolChar, IsQuote;
    if v != "" { SymbolChars(v[0]); }
    forall k | 0 <= k < |v|
      ensures IsSymbolChar(v[k]) <==> v[k] !in NOT_IN_SYMBOLS && v[k] != 0 as char && v[k] != 255 as char
    {
      SymbolChars(v[k]);
    }
  }

  /** Can be written between quotes: a backslash cannot, since the escape that stands for it is refused, and one
      of the quotes must be free. */
  predicate Quotable(v: string) {
    '\\' !in v && NUL !in v && EOF !in v && !('"' in v && '\'' in v)
  }

  predicate Expressible(v: string) {
    SymbolLike(v) || Quotable(v)
  }

  // ---------------------------------------------------------------- printing

  function QuoteFor(v: string): char {
    if '"' in v then '\'' else '"'
  }

  function Quoted(v: string): string {
    [QuoteFor(v)] + v + [QuoteFor(v)]
  }

  function PrintToken(t: Token): string {
    match t.category
    case Invalid => "&"
    case Symbol => t.value
    case Literal => Quoted(t.value)
    case Semicolon => ";"
    case Bar => "|"
    case AndAnd => "&&"
    case OrOr => "||"
    case Newline => "\n"
  }

  /** A space before every token. */
  function PrintTokens(tokens: seq<Token>): string {
    if tokens == [] then "" else " " + PrintToken(tokens[0]) + PrintTokens(tokens[1..])
  }

  function ArgToken(v: string): Token {
    Token(if SymbolLike(v) then Symbol else Literal, v)
  }

  function ArgTokens(args: seq<string>): (r: seq<Token>)
    ensures |r| == |args| && forall k :: 0 <= k < |args| ==> r[k] == ArgToken(args[k])
  {
    if args == [] then [] else [ArgToken(args[0])] + ArgTokens(args[1..])
  }

  function OpToken(op: Op): Token {
    match op
    case Terminator => Token(Newline, "")
    case Separator => Token(Semicolon, "")
    case And => Token(AndAnd, "")
    case Or => Token(OrOr, "")
    case Pipe => Token(Bar, "")
  }

  /** The line of a list of commands; its last operator, if it is not a terminator, is followed by one. */
  function TokensOf(cmds: seq<Command>): (r: seq<Token>)
    ensures r != []
  {
    if cmds == [] then [OpToken(Terminator)]
    else if |cmds| == 1 && cmds[0].op == Terminator then ArgTokens(cmds[0].args) + [OpToken(Terminator)]
    else ArgTokens(cmds[0].args) + ([OpToken(cmds[0].op)] + TokensOf(cmds[1..]))
  }

  function Print(cmds: seq<Command>): string {
    PrintTokens(TokensOf(cmds))
  }

  /** What a line can hold: commands with arguments that can be written, a terminator at most at the end. */
  ghost predicate Printable(cmds: seq<Command>) {
    && (forall i :: 0 <= i < |cmds| ==>
          cmds[i].args != [] && forall k :: 0 <= k < |cmds[i].args| ==> Expressible(cmds[i].args[k]))
    && (forall i :: 0 <= i < |cmds| - 1 ==> cmds[i].op != Terminator)
  }

  // ---------------------------------------------------------------- reading an argument

  lemma {:induction false} StringPlain(text: string, pos: nat, quote: char, v: string)
    requires quote != EOF && quote != '\\' && pos + |v| < |text| && text[pos + |v|] == quote
    requires forall k :: 0 <= k < |v| ==> text[pos + k] == v[k]
    requires quote !in v && '\\' !in v && EOF !in v
    ensures StringFrom(text, pos, quote) == Scan(Some(v), pos + |v| + 1)
    decreases |v|
  {
    if v != [] {
      assert v[0] in v && text[pos + 0] == v[0];
      forall k | 0 <= k < |v| - 1
        ensures text[pos + 1 + k] == v[1..][k]
      {
        assert text[pos + (k + 1)] == v[k + 1];
      }
      StringPlain(text, pos + 1, quote, v[1..]);
      assert [v[0]] + v[1..] == v;
    }
  }

  lemma {:induction false} SymbolPlain(text: string, pos: nat, e: nat)
    requires pos <= e <= |text| && !IsSymbolChar(At(text, e))
    requires forall k :: pos <= k < e ==> IsSymbolChar(text[k])
    ensures SymbolEnd(text, pos) == e
    decreases e - pos
  {
    if pos < e {
      SymbolPlain(text, pos + 1, e);
    }
  }

  ghost predicate GoodToken(t: Token) {
    match t.category
    case Invalid => false
    case Symbol => SymbolLike(t.value)
    case Literal => Quotable(t.value)
    case _ => t.value == ""
  }

  /** A character that ends the token when it stands right behind it. */
  predicate MayFollow(t: Token, c: char) {
    && (t.category == Symbol ==> c in NOT_IN_SYMBOLS)
    && (t.category == Bar ==> c != '|' && c != 255 as char)
  }

  /** A printed token is read as that token, up to a character that may follow it. */
  lemma TokenPrinted(text: string, p: nat, t: Token)
    requires GoodToken(t) && p + |PrintToken(t)| <= |text| && text[p..p + |PrintToken(t)|] == PrintToken(t)
    requires MayFollow(t, At(text, p + |PrintToken(t)|))
    ensures |PrintToken(t)| > 0 && !IsWhitespace(At(text, p))
    ensures TokenAt(text, p) == Lexed(Some(t), p + |PrintToken(t)|)
  {
    var s := PrintToken(t);
    assert forall k :: 0 <= k < |s| ==> text[p + k] == text[p..p + |s|][k] == s[k];
    if t.category == Symbol {
      hide StringFrom, Length;
      SymbolLikeChars(t.value);
      SymbolChars(At(text, p + |s|));
      assert text[p] == s[0] && IsSymbolChar(s[0]);
      forall k | p + 1 <= k < p + |s|
        ensures IsSymbolChar(text[k])
      {
        assert text[p + (k - p)] == s[k - p];
      }
      SymbolPlain(text, p + 1, p + |s|);
    } else if t.category == Literal {
      hide StringFrom, Length, SymbolEnd;
      LiteralPrinted(text, p, t.value);
    } else {
      hide StringFrom, Length, SymbolEnd;
      assert text[p] == s[0];
      assert |s| > 1 ==> text[p + 1] == s[1];
    }
  }

  lemma LiteralPrinted(text: string, p: nat, v: string)
    requires Quotable(v) && p + |v| + 2 <= |text|
    requires forall k :: 0 <= k < |v| + 2 ==> text[p + k] == Quoted(v)[k]
    ensures !IsWhitespace(At(text, p))
    ensures TokenAt(text, p) == Lexed(Some(Token(Literal, v)), p + |v| + 2)
  {
    hide StringFrom, Length, SymbolEnd;
    var q := QuoteFor(v);
    forall k | 0 <= k < |v|
      ensures text[p + 1 + k] == v[k]
    {
      assert text[p + (k + 1)] == Quoted(v)[k + 1];
    }
    assert Quoted(v)[0] == q && Quoted(v)[|v| + 1] == q;
    StringPlain(text, p + 1, q, v);
    LengthWithout(v);
  }

  // ---------------------------------------------------------------- reading a line

  ghost predicate GoodLine(tokens: seq<Token>) {
    && tokens != [] && tokens[|tokens| - 1].category == Newline && OneLine(tokens)
    && forall k :: 0 <= k < |tokens| ==> GoodToken(tokens[k])
  }

  lemma SpaceSkipped(text: string, pos: nat)
    requires pos < |text| && text[pos] == ' ' && !IsWhitespace(At(text, pos + 1))
    ensures NextToken(text, pos) == TokenAt(text, pos + 1)
  {
    assert SkipWhitespace(text, pos + 1) == pos + 1;
  }

  /** Printed tokens are read back up to their newline, whatever the input goes on with. */
  lemma {:induction false} LinePrinted(text: string, pos: nat, tokens: seq<Token>, more: string)
    requires GoodLine(tokens) && pos <= |text| && text[pos..] == PrintTokens(tokens) + more
    ensures Line(text, pos) == LexedLine(tokens, |text| - |more|)
    decreases |tokens|
  {
    hide GoodToken, PrintToken, PrintTokens, Line, NextToken, GoodLine;
    GoodLineParts(tokens);
    var t, rest := tokens[0], PrintTokens(tokens[1..]);
    var p, s := pos + 1, PrintToken(t);
    PrintTokensCons(tokens, more);
    Cut(text, pos, " ", s + (rest + more));
    assert text[pos] == text[pos..p][0];
    Cut(text, p, s, rest + more);
    if t.category != Newline {
      PrintTokensCons(tokens[1..], more);
      assert text[p + |s|] == text[p + |s|..][0];
    }
    SpaceFollows(t);
    TokenPrinted(text, p, t);
    SpaceSkipped(text, pos);
    LineStep(text, pos, t, p + |s|);
    if t.category == Newline {
      assert tokens == [t] && rest == "";
    } else {
      LinePrinted(text, p + |s|, tokens[1..], more);
      assert [t] + tokens[1..] == tokens;
    }
  }

  lemma SpaceFollows(t: Token)
    ensures MayFollow(t, ' ') && (t.category == Newline ==> forall c :: MayFollow(t, c))
  {
    var out := NOT_IN_SYMBOLS;
    assert out[0] == ' ';
  }

  lemma Cut<T>(s: seq<T>, i: nat, a: seq<T>, b: seq<T>)
    requires i <= |s| && s[i..] == a + b
    ensures i + |a| <= |s| && s[i..i + |a|] == a && s[i + |a|..] == b
  {
    assert |s[i..]| == |a| + |b|;
    assert s[i..i + |a|] == s[i..][..|a|];
    assert s[i + |a|..] == s[i..][|a|..];
  }

  lemma GoodLineParts(tokens: seq<Token>)
    requires GoodLine(tokens)
    ensures tokens != [] && GoodToken(tokens[0])
    ensures if tokens[0].category == Newline then tokens[1..] == [] && PrintTokens(tokens[1..]) == ""
            else tokens[1..] != [] && GoodLine(tokens[1..])
  {
    hide GoodToken;
  }

  lemma PrintTokensCons(tokens: seq<Token>, more: string)
    requires tokens != []
    ensures PrintTokens(tokens) + more == " " + (PrintToken(tokens[0]) + (PrintTokens(tokens[1..]) + more))
    ensures (PrintTokens(tokens) + more)[0] == ' '
  {
    hide PrintToken;
    Regroup(" ", PrintToken(tokens[0]), PrintTokens(tokens[1..]), more);
  }

  lemma Regroup<T>(a: seq<T>, b: seq<T>, c: seq<T>, d: seq<T>)
    ensures a + b + c + d == a + (b + (c + d))
    ensures a != [] ==> (a + b + c + d)[0] == a[0]
  {
  }

  lemma LineStep(text: string, pos: nat, t: Token, next: nat)
    requires pos <= |text| && NextToken(text, pos) == Lexed(Some(t), next)
    ensures next <= |text|
    ensures Line(text, pos)
         == if t.category == Newline then LexedLine([t], next)
            else LexedLine([t] + Line(text, next).tokens, Line(text, next).pos)
  {
    hide NextToken;
  }

  // ---------------------------------------------------------------- parsing the tokens of commands

  lemma {:induction false} TokensOfGood(cmds: seq<Command>)
    requires Printable(cmds)
    ensures GoodLine(TokensOf(cmds))
  {
    hide Expressible, GoodToken, GoodLine, TokensOf, ArgTokens;
    OpTokensGood(Terminator);
    if cmds == [] {
      NoCommands();
    } else {
      var c := cmds[0];
      var tail := TokensOfCons(cmds);
      OpTokensGood(c.op);
      if tail == [] {
        assert [OpToken(c.op)] + tail == [OpToken(Terminator)];
      } else {
        TokensOfGood(cmds[1..]);
        GoodConcat([OpToken(c.op)], tail);
      }
      forall k | 0 <= k < |c.args|
        ensures var t := ArgTokens(c.args)[k]; GoodToken(t) && t.category != Newline
      {
        ArgTokenGood(c.args[k]);
      }
      GoodConcat(ArgTokens(c.args), [OpToken(c.op)] + tail);
    }
  }

  lemma NoCommands()
    ensures TokensOf([]) == [OpToken(Terminator)]
  {
  }

  lemma OpTokensGood(op: Op)
    ensures GoodToken(OpToken(op)) && (OpToken(op).category == Newline <==> op == Terminator)
    ensures op == Terminator ==> GoodLine([OpToken(op)])
  {
  }

  lemma GoodConcat(a: seq<Token>, b: seq<Token>)
    requires GoodLine(b) && forall k :: 0 <= k < |a| ==> GoodToken(a[k]) && a[k].category != Newline
    ensures GoodLine(a + b)
  {
    hide GoodToken;
  }

  lemma ArgTokenGood(v: string)
    requires Expressible(v)
    ensures GoodToken(ArgToken(v)) && IsArg(ArgToken(v).category)
  {
  }

  lemma {:induction false} ArgsEndAt(tokens: seq<Token>, i: nat, e: nat)
    requires i <= e < |tokens| && !IsArg(tokens[e].category)
    requires forall k :: i <= k < e ==> IsArg(tokens[k].category)
    ensures ArgsEnd(tokens, i) == e
    decreases e - i
  {
    if i < e {
      ArgsEndAt(tokens, i + 1, e);
    }
  }

  /** One command read from its tokens. */
  lemma CommandParsed(tokens: seq<Token>, i: nat, c: Command)
    requires ClosedLine(tokens) && c.args != [] && i + |c.args| < |tokens|
    requires tokens[i..i + |c.args|] == ArgTokens(c.args) && tokens[i + |c.args|] == OpToken(c.op)
    ensures ParseFrom(tokens, i) == Prepended([c], ParseFrom(tokens, i + |c.args| + 1))
  {
    hide SymbolLike;
    var e := i + |c.args|;
    assert forall k :: i <= k < e ==> tokens[k] == tokens[i..e][k - i] == ArgToken(c.args[k - i]);
    ArgsEndAt(tokens, i, e);
    assert Values(tokens[i..e]) == c.args;
    NextCommand(tokens, i, c);
  }

  lemma {:induction false} CommandsParsed(tokens: seq<Token>, i: nat, cmds: seq<Command>)
    requires ClosedLine(tokens) && i <= |tokens| && tokens[i..] == TokensOf(cmds) && Printable(cmds)
    ensures ParseFrom(tokens, i) == Some(cmds)
    decreases |cmds|
  {
    hide Expressible, ParseFrom, TokensOf, ArgTokens, OpToken, Printable;
    if cmds == [] {
      LastNewline(tokens, i);
    } else {
      PrintableRest(cmds);
      var c := cmds[0];
      var args, e := ArgTokens(c.args), i + |c.args|;
      var tail := TokensOfCons(cmds);
      Cut(tokens, i, args, [OpToken(c.op)] + tail);
      Cut(tokens, e, [OpToken(c.op)], tail);
      assert tokens[e] == tokens[e..e + 1][0];
      CommandParsed(tokens, i, c);
      assert cmds == [c] + cmds[1..];
      if tail == [] {
        NothingLeft(tokens);
        assert e + 1 == |tokens| && cmds[1..] == [];
      } else {
        CommandsParsed(tokens, e + 1, cmds[1..]);
      }
    }
  }

  lemma PrintableRest(cmds: seq<Command>)
    requires cmds != [] && Printable(cmds)
    ensures cmds[0].args != [] && Printable(cmds[1..])
  {
    hide Expressible;
  }

  lemma TokensOfCons(cmds: seq<Command>) returns (tail: seq<Token>)
    requires cmds != []
    ensures TokensOf(cmds) == ArgTokens(cmds[0].args) + ([OpToken(cmds[0].op)] + tail)
    ensures tail == (if |cmds| == 1 && cmds[0].op == Terminator then [] else TokensOf(cmds[1..]))
    ensures tail == [] ==> |cmds| == 1
  {
    hide ArgTokens;
    tail := if |cmds| == 1 && cmds[0].op == Terminator then [] else TokensOf(cmds[1..]);
  }

  lemma LastNewline(tokens: seq<Token>, i: nat)
    requires ClosedLine(tokens) && i <= |tokens| && tokens[i..] == TokensOf([])
    ensures ParseFrom(tokens, i) == Some([])
  {
    assert tokens[i] == tokens[i..][0];
    NothingLeft(tokens);
  }

  /** A printed list of commands, with anything after it on the input, is read as its tokens and no more, and
      parsed as itself. */
  lemma RoundTrip(cmds: seq<Command>, more: string)
    requires cmds != [] && Printable(cmds)
    ensures var line := Line(Print(cmds) + more, 0);
      line.pos == |Print(cmds)| && ClosedLine(line.tokens) && Parse(line.tokens) == cmds
  {
    hide Expressible, ParseFrom, PrintTokens, Line, GoodToken;
    var tokens, text := TokensOf(cmds), Print(cmds) + more;
    TokensOfGood(cmds);
    assert text[0..] == text;
    LinePrinted(text, 0, tokens, more);
    assert tokens[0..] == tokens;
    CommandsParsed(tokens, 0, cmds);
    assert tokens[0] == ArgToken(cmds[0].args[0]);
  }

  // ---------------------------------------------------------------- no other argument can be read

  lemma {:induction false} StringFromIs(text: string, pos: nat, quote: char)
    requires IsQuote(quote) && pos <= |text| && StringFrom(text, pos, quote).value.Some?
    ensures var v := StringFrom(text, pos, quote).value.value;
      quote !in v && '\\' !in v && EOF !in v
    decreases |text| - pos
  {
    var c, p := At(text, pos), After(text, pos);
    if c != quote {
      if c == '\\' {
        StringFromIs(text, After(text, p), quote);
      } else {
        StringFromIs(text, p, quote);
      }
    }
  }

  lemma ReadIsExpressible(text: string, pos: nat)
    requires pos <= |text|
    requires NextToken(text, pos).token.Some? && IsArg(NextToken(text, pos).token.value.category)
    ensures Expressible(NextToken(text, pos).token.value.value)
    ensures var t := NextToken(text, pos).token.value;
      if t.category == Symbol then SymbolLike(t.value) else Quotable(t.value)
  {
    hide StringFrom, IsSymbolChar;
    var p := SkipWhitespace(text, pos);
    SymbolLikeChars(NextToken(text, pos).token.value.value);
    var c, t := At(text, p), NextToken(text, pos).token.value;
    if IsQuote(c) {
      StringFromIs(text, p + 1, c);
      var s := StringFrom(text, p + 1, c).value.value;
      assert t.value == CString(s);
      assert forall x :: x in CString(s) ==> x in s;
    }
  }

  lemma ExpressibleIsRead(v: string) returns (text: string)
    requires Expressible(v)
    ensures NextToken(text, 0).token == Some(ArgToken(v))
  {
    hide Expressible, SymbolLike, Quotable, TokenAt;
    var s := PrintToken(ArgToken(v));
    text := s + " ";
    ArgTokenGood(v);
    assert text[0..0 + |s|] == s;
    assert text[|s|] == ' ';
    SpaceFollows(ArgToken(v));
    TokenPrinted(text, 0, ArgToken(v));
  }

  ghost predicate CanBeRead(v: string) {
    exists text: string, pos: nat :: pos <= |text| && ReadsArg(text, pos, v)
  }

  ghost predicate ReadsArg(text: string, pos: nat, v: string)
    requires pos <= |text|
  {
    var r := NextToken(text, pos).token;
    r.Some? && IsArg(r.value.category) && r.value.value == v
  }

  /** The arguments that some input gives are exactly the expressible ones. */
  lemma CanBeReadIff(v: string)
    ensures CanBeRead(v) <==> Expressible(v)
  {
    hide Expressible, NextToken;
    if CanBeRead(v) {
      var text: string, pos: nat :| pos <= |text| && ReadsArg(text, pos, v);
      ReadIsExpressible(text, pos);
    }
    if Expressible(v) {
      var text := ExpressibleIsRead(v);
      ArgTokenGood(v);
      assert ReadsArg(text, 0, v);
    }
  }
}
