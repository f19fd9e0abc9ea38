/** The tokenizer of tp1: characters of the standard input become tokens, and tokens a line. */
module ShellLex {
  import opened Common
  import opened CStrings
  import opened ShellParse

  /** The character that the end of the input is cast to; byte 255 cannot be told from it. */
  const EOF := 255 as char

  predicate IsWhitespace(c: char) {
    c == ' ' || c == '\t' || c == '\r'
  }

  predicate IsOperator(c: char) {
    c == '&' || c == '|' || c == ';' || c == '\n'
  }

  predicate IsTerminator(c: char) {
    c == NUL || c == EOF
  }

  predicate IsSymbolChar(c: char) {
    !IsWhitespace(c) && !IsOperator(c) && !IsTerminator(c)
  }

  predicate IsQuote(c: char) {
    c == '"' || c == '\''
  }

  function ToEscaped(c: char): char {
    match c
    case 'a' => 7 as char
    case 'b' => 8 as char
    case 't' => '\t'
    case 'n' => '\n'
    case 'r' => '\r'
    case '0' => NUL
    case _ => c
  }

  // ---------------------------------------------------------------- tokens of a text

  function At(text: string, pos: nat): char {
    if pos < |text| then text[pos] else EOF
  }

  function After(text: string, pos: nat): nat {
    if pos < |text| then pos + 1 else pos
  }

  /** The position after a character is read and put back: the end of the input cannot be put back, and neither
      can the byte that looks like it. */
  function PutBack(text: string, pos: nat): nat {
    if At(text, pos) == EOF then After(text, pos) else pos
  }

  datatype Scan = Scan(value: Option<string>, pos: nat)

  /** The characters up to the closing quote, escapes replaced. An escape that stands for itself is an error. */
  function StringFrom(text: string, pos: nat, quote: char): (r: Scan)
    requires quote != EOF && pos <= |text|
    ensures pos <= r.pos <= |text|
    decreases |text| - pos
  {
    var c, p := At(text, pos), After(text, pos);
    if c == quote then Scan(Some(""), p)
    else if c == EOF then Scan(None, p)
    else if c == '\\' then
      var d, q := At(text, p), After(text, p);
      if d == EOF || ToEscaped(d) == d then Scan(None, q)
      else Consed(ToEscaped(d), StringFrom(text, q, quote))
    else Consed(c, StringFrom(text, p, quote))
  }

  function Consed(c: char, r: Scan): Scan {
    match r.value
    case None => r
    case Some(s) => Scan(Some([c] + s), r.pos)
  }

  function SymbolEnd(text: string, pos: nat): (e: nat)
    requires pos <= |text|
    ensures pos <= e <= |text| && forall k :: pos <= k < e ==> IsSymbolChar(text[k])
    ensures !IsSymbolChar(At(text, e))
    decreases |text| - pos
  {
    if pos < |text| && IsSymbolChar(text[pos]) then SymbolEnd(text, pos + 1) else pos
  }

  lemma SymbolStep(text: string, pos: nat)
    requires pos <= |text|
    ensures SymbolEnd(text, pos) == if IsSymbolChar(At(text, pos)) then SymbolEnd(text, pos + 1) else pos
    ensures IsSymbolChar(At(text, pos)) ==> pos < |text|
  {
  }

  function SkipWhitespace(text: string, pos: nat): (p: nat)
    requires pos <= |text|
    ensures pos <= p <= |text| && !IsWhitespace(At(text, p))
    decreases |text| - pos
  {
    if pos < |text| && IsWhitespace(text[pos]) then SkipWhitespace(text, pos + 1) else pos
  }

  datatype Lexed = Lexed(token: Option<Token>, pos: nat)

  /** The token that starts at p, where no whitespace stands. */
  function TokenAt(text: string, p: nat): (r: Lexed)
    requires p <= |text| && !IsWhitespace(At(text, p))
    ensures p <= r.pos <= |text| && (r.token.Some? ==> p < r.pos)
  {
    var c, q := At(text, p), After(text, p);
    if c == EOF then Lexed(None, q)
    else if c == '\n' then Lexed(Some(Token(Newline, "")), q)
    else if c == ';' then Lexed(Some(Token(Semicolon, "")), q)
    else if c == '|' then
      if At(text, q) == '|' then Lexed(Some(Token(OrOr, "")), After(text, q))
      else Lexed(Some(Token(Bar, "")), PutBack(text, q))
    else if c == '&' then
      if At(text, q) == '&' then Lexed(Some(Token(AndAnd, "")), After(text, q))
      else Lexed(Some(Token(Invalid, "")), PutBack(text, q))
    else if IsQuote(c) then
      var r := StringFrom(text, q, c);
      (match r.value
       case None => Lexed(None, r.pos)
       case Some(s) => Lexed(Some(Token(Literal, CString(s))), r.pos))
    else if !IsSymbolChar(c) then Lexed(None, q)
    else
      var e := SymbolEnd(text, q);
      Lexed(Some(Token(Symbol, text[p..e])), PutBack(text, e))
  }

  /** `tok_next` as a function. */
  function NextToken(text: string, pos: nat): (r: Lexed)
    requires pos <= |text|
    ensures pos <= r.pos <= |text| && (r.token.Some? ==> pos < r.pos)
  {
    TokenAt(text, SkipWhitespace(text, pos))
  }

  datatype LexedLine = LexedLine(tokens: seq<Token>, pos: nat)

  /** `tok_next_line` as a function. */
  function Line(text: string, pos: nat): (r: LexedLine)
    requires pos <= |text|
    ensures pos <= r.pos <= |text|
    decreases |text| - pos
  {
    var next := NextToken(text, pos);
    match next.token
    case None => LexedLine([], next.pos)
    case Some(t) =>
      if t.category == Newline then LexedLine([t], next.pos)
      else
        var rest := Line(text, next.pos);
        LexedLine([t] + rest.tokens, rest.pos)
  }

  /** A newline ends a line, and stands nowhere else in it. */
  lemma {:induction false} LineIsOneLine(text: string, pos: nat)
    requires pos <= |text|
    ensures OneLine(Line(text, pos).tokens)
    decreases |text| - pos
  {
    hide TokenAt;
    var next := NextToken(text, pos);
    if next.token.Some? && next.token.value.category != Newline {
      LineIsOneLine(text, next.pos);
    }
  }

  // ---------------------------------------------------------------- the reading loops

  /** The standard input. */
  class Stdin {
    const text: string
    var pos: nat

    ghost predicate Valid()
      reads this
    {
      pos <= |text|
    }

    constructor (text: string)
      ensures Valid() && this.text == text && pos == 0
    {
      this.text := text;
      pos := 0;
    }

    /** `getchar`, cast to a character. */
    method Getchar() returns (c: char)
      requires Valid()
      modifies this`pos
      ensures Valid() && c == At(text, old(pos)) && pos == After(text, old(pos))
    {
      if pos < |text| {
        c := text[pos];
        pos := pos + 1;
      } else {
        c := EOF;
      }
    }

    /** `ungetc` of the character read last: it refuses the end of the input. */
    method Ungetc(c: char)
      requires Valid() && (c != EOF ==> pos > 0 && c == text[pos - 1])
      modifies this`pos
      ensures Valid() && pos == if c == EOF then old(pos) else old(pos) - 1
    {
      if c != EOF {
        pos := pos - 1;
      }
    }
  }

  /** `buffer_check_sub`: afterwards there is room for a character and the final NUL. */
  method BufferCheckSub(buffer: array<char>, size: nat, i: nat) returns (grown: array<char>, newSize: nat)
    requires buffer.Length == size && i < size && size >= 2
    ensures grown.Length == newSize && i + 1 < newSize && newSize >= 2 && (grown == buffer || fresh(grown))
    ensures grown[..i] == buffer[..i]
  {
    if i < size - 1 {
      return buffer, size;
    }
    newSize := size + size / 2;
    grown := new char[newSize](k => if 0 <= k < size then '?' else NUL);
    for k := 0 to size
      invariant forall m :: 0 <= m < k ==> grown[m] == buffer[m]
    {
      grown[k] := buffer[k];
    }
  }

  function Chained(head: string, r: Scan): Scan {
    match r.value
    case None => r
    case Some(s) => Scan(Some(head + s), r.pos)
  }

  lemma ChainedOnce(head: string, c: char, r: Scan)
    ensures Chained(head, Consed(c, r)) == Chained(head + [c], r)
  {
    if r.value.Some? {
      assert head + ([c] + r.value.value) == head + [c] + r.value.value;
    }
  }

  lemma ChainedEnds(head: string, r: Scan, pos: nat)
    ensures Chained("", r) == r && Chained(head, Scan(Some(""), pos)) == Scan(Some(head), pos)
  {
    assert head + "" == head;
    assert r.value.Some? ==> "" + r.value.value == r.value.value;
  }

  /** `read_string_literal`: the string in the buffer, before the NUL that ends it. */
  method ReadStringLiteral(stdin: Stdin, c: char) returns (value: Option<string>)
    requires stdin.Valid() && c != EOF
    modifies stdin`pos
    ensures stdin.Valid()
    ensures Scan(value, stdin.pos) == StringFrom(stdin.text, old(stdin.pos), c)
  {
    var end, size := c, 32;
    var buffer := new char[size];
    var i := 0;
    ghost var text, all := stdin.text, StringFrom(stdin.text, stdin.pos, c);
    ChainedEnds("", all, 0);
    assert buffer[..0] == "";
    while true
      invariant stdin.Valid() && fresh(buffer) && buffer.Length == size && size >= 2 && 0 <= i < size - 1
      invariant Chained(buffer[..i], StringFrom(text, stdin.pos, end)) == all
      decreases |text| - stdin.pos
    {
      ghost var head, rest := buffer[..i], StringFrom(text, stdin.pos, end);
      var current := stdin.Getchar();
      if current == end {
        ChainedEnds(head, rest, stdin.pos);
        break;
      }
      if current == EOF {
        return None;
      }
      if current == '\\' {
        var escape := stdin.Getchar();
        var es := ToEscaped(escape);
        if escape == EOF || es == escape {
          return None;
        }
        current := es;
      }
      ChainedOnce(head, current, StringFrom(text, stdin.pos, end));
      buffer[i] := current;
      i := i + 1;
      assert buffer[..i] == head + [current];
      buffer, size := BufferCheckSub(buffer, size, i);
    }
    buffer[i] := NUL;
    value := Some(buffer[..i]);
  }

  /** `read_symbol`, its first character already read. */
  method ReadSymbol(stdin: Stdin, c: char) returns (value: Option<string>)
    requires stdin.Valid() && stdin.pos > 0 && (c != EOF ==> c == stdin.text[stdin.pos - 1])
    modifies stdin`pos
    ensures stdin.Valid()
    ensures !IsSymbolChar(c) ==> value == None && stdin.pos == old(stdin.pos)
    ensures IsSymbolChar(c) ==>
      var e := SymbolEnd(stdin.text, old(stdin.pos));
      value == Some(stdin.text[old(stdin.pos) - 1..e]) && stdin.pos == PutBack(stdin.text, e)
  {
    hide SymbolEnd, IsSymbolChar;
    SymbolStep(stdin.text, |stdin.text|);
    if !IsSymbolChar(c) {
      return None;
    }
    var size := 64;
    var buffer := new char[size];
    ghost var text, start := stdin.text, stdin.pos - 1;
    var i := 1;
    buffer[0] := c;
    assert buffer[..i] == [c] == text[start..start + i];
    while true
      invariant stdin.Valid() && fresh(buffer) && buffer.Length == size && size >= 2 && 1 <= i < size - 1
      invariant stdin.pos == start + i && buffer[..i] == text[start..start + i]
      invariant SymbolEnd(text, stdin.pos) == SymbolEnd(text, start + 1)
      decreases |text| - stdin.pos
    {
      SymbolStep(text, stdin.pos);
      var current := stdin.Getchar();
      if !IsSymbolChar(current) {
        stdin.Ungetc(current);
        break;
      }
      ghost var head := buffer[..i];
      buffer[i] := current;
      i := i + 1;
      assert buffer[..i] == head + [current] == text[start..start + i];
      buffer, size := BufferCheckSub(buffer, size, i);
    }
    buffer[i] := NUL;
    value := Some(buffer[..i]);
  }

  /** `tok_next`. */
  method TokNext(stdin: Stdin) returns (token: Option<Token>)
    requires stdin.Valid()
    modifies stdin`pos
    ensures stdin.Valid() && Lexed(token, stdin.pos) == NextToken(stdin.text, old(stdin.pos))
  {
    hide StringFrom, SymbolEnd, CString;
    ghost var text := stdin.text;
    ghost var p := stdin.pos;
    var c := stdin.Getchar();
    while IsWhitespace(c)
      invariant stdin.Valid() && p <= |text| && c == At(text, p) && stdin.pos == After(text, p)
      invariant SkipWhitespace(text, p) == SkipWhitespace(text, old(stdin.pos))
      decreases |text| - p
    {
      p := stdin.pos;
      c := stdin.Getchar();
    }
    assert NextToken(text, old(stdin.pos)) == TokenAt(text, p);
    if c == EOF {
      return None;
    }
    if c == '\n' {
      token := Some(Token(Newline, ""));
    } else if c == ';' {
      token := Some(Token(Semicolon, ""));
    } else if c == '|' {
      var peek := stdin.Getchar();
      if peek == '|' {
        token := Some(Token(OrOr, ""));
      } else {
        token := Some(Token(Bar, ""));
        stdin.Ungetc(peek);
      }
    } else if c == '&' {
      token := Some(Token(Invalid, ""));
      var peek := stdin.Getchar();
      if peek == '&' {
        token := Some(Token(AndAnd, ""));
      } else {
        stdin.Ungetc(peek);
      }
    } else if c == '"' || c == '\'' {
      var value := ReadStringLiteral(stdin, c);
      if value.None? {
        return None;
      }
      token := Some(Token(Literal, CString(value.value)));
    } else {
      var value := ReadSymbol(stdin, c);
      if value.None? {
        return None;
      }
      token := Some(Token(Symbol, value.value));
    }
  }

  /** `tok_next_line`; no token stands for the null pointer. */
  method TokNextLine(stdin: Stdin) returns (tokens: seq<Token>)
    requires stdin.Valid()
    modifies stdin`pos
    ensures stdin.Valid() && LexedLine(tokens, stdin.pos) == Line(stdin.text, old(stdin.pos))
  {
    hide NextToken;
    tokens := [];
    ghost var text, all := stdin.text, Line(stdin.text, stdin.pos);
    var token := TokNext(stdin);
    BeforeFirst(all);
    while token.Some?
      invariant stdin.Valid()
      invariant all == Before(tokens, FromToken(text, Lexed(token, stdin.pos)))
      decreases token.Some?, |text| - stdin.pos
    {
      tokens := tokens + [token.value];
      if token.value.category == Newline {
        return;
      }
      BeforeNext(tokens, token.value, Line(text, stdin.pos));
      token := TokNext(stdin);
    }
    assert tokens + [] == tokens;
  }

  /** The rest of a line, its next token already read. */
  ghost function FromToken(text: string, next: Lexed): LexedLine
    requires next.pos <= |text|
  {
    match next.token
    case None => LexedLine([], next.pos)
    case Some(t) =>
      if t.category == Newline then LexedLine([t], next.pos)
      else Before([t], Line(text, next.pos))
  }

  lemma BeforeFirst(rest: LexedLine)
    ensures Before([], rest) == rest
  {
    assert [] + rest.tokens == rest.tokens;
  }

  lemma BeforeNext(tokens: seq<Token>, t: Token, rest: LexedLine)
    requires tokens != [] && tokens[|tokens| - 1] == t
    ensures Before(tokens[..|tokens| - 1], Before([t], rest)) == Before(tokens, rest)
  {
    assert tokens[..|tokens| - 1] + ([t] + rest.tokens) == tokens + rest.tokens;
  }

  ghost function Before(head: seq<Token>, rest: LexedLine): LexedLine {
    LexedLine(head + rest.tokens, rest.pos)
  }

  // ---------------------------------------------------------------- which lines end in an operator

  /** The end of the last token of a line, or its start if it has none. */
  function LastEnd(text: string, pos: nat): (e: nat)
    requires pos <= |text|
    ensures pos <= e <= |text|
    decreases |text| - pos
  {
    var next := NextToken(text, pos);
    match next.token
    case None => pos
    case Some(t) => if t.category == Newline then next.pos else LastEnd(text, next.pos)
  }

  /** An operator character stands right before e, or before the one byte that looks like the end and that a token
      takes along when it tries to put it back. */
  predicate OperatorBefore(text: string, e: nat)
    requires e <= |text|
  {
    && e > 0
    && (IsOperator(text[e - 1]) || (text[e - 1] == EOF && e > 1 && IsOperator(text[e - 2])))
  }

  lemma TokenEnds(text: string, p: nat)
    requires p <= |text| && !IsWhitespace(At(text, p)) && TokenAt(text, p).token.Some?
    ensures IsArg(TokenAt(text, p).token.value.category) <==> !OperatorBefore(text, TokenAt(text, p).pos)
  {
    hide CString;
    var c := At(text, p);
    if IsQuote(c) {
      QuoteEnds(text, p + 1, c);
    }
  }

  lemma {:induction false} QuoteEnds(text: string, pos: nat, quote: char)
    requires IsQuote(quote) && pos <= |text| && StringFrom(text, pos, quote).value.Some?
    ensures var e := StringFrom(text, pos, quote).pos; e > 0 && text[e - 1] == quote
    decreases |text| - pos
  {
    var c, p := At(text, pos), After(text, pos);
    if c != quote {
      QuoteEnds(text, if c == '\\' then After(text, p) else p, quote);
    }
  }

  /** `tok_next_line` gives `cmd_parse` a line that it can parse, one that does not end in an argument, exactly when
      the last token read ends in an operator character; a line that is cut by the end of the input, a NUL or a
      refused literal right after an argument is no such line. */
  lemma {:induction false} ClosedIff(text: string, pos: nat)
    requires pos <= |text|
    ensures var tokens, e := Line(text, pos).tokens, LastEnd(text, pos);
      && (ClosedLine(tokens) <==> e > pos && OperatorBefore(text, e))
      && (e > pos <==> tokens != [])
    decreases |text| - pos
  {
    hide TokenAt, OperatorBefore;
    var p, next := SkipWhitespace(text, pos), NextToken(text, pos);
    if next.token.Some? {
      TokenEnds(text, p);
      if next.token.value.category != Newline {
        ClosedIff(text, next.pos);
        LineCons(next.token.value, Line(text, next.pos).tokens);
        if Line(text, next.pos).tokens == [] {
          NothingMore(text, next.pos);
        }
      }
    }
  }

  lemma LineCons(t: Token, rest: seq<Token>)
    ensures ClosedLine([t] + rest) <==> if rest == [] then !IsArg(t.category) else ClosedLine(rest)
  {
  }

  lemma NothingMore(text: string, pos: nat)
    requires pos <= |text| && Line(text, pos).tokens == []
    ensures LastEnd(text, pos) == pos
  {
    hide NextToken;
  }

  /** In particular a line that a newline ends can be parsed. */
  lemma {:induction false} NewlineCloses(text: string, pos: nat)
    requires pos <= |text|
    requires var tokens := Line(text, pos).tokens; tokens != [] && tokens[|tokens| - 1].category == Newline
    ensures ClosedLine(Line(text, pos).tokens)
  {
  }

  /** And the text "a", with nothing after it, gives a line that cannot. */
  lemma LoneArgument()
    ensures !ClosedLine(Line("a", 0).tokens)
  {
    hide StringFrom;
    assert SymbolEnd("a", 1) == 1 && SymbolEnd("a", 0) == 1;
    assert SkipWhitespace("a", 0) == 0 && SkipWhitespace("a", 1) == 1 && "a"[0..1] == "a";
    assert NextToken("a", 0) == Lexed(Some(Token(Symbol, "a")), 1);
    assert NextToken("a", 1).token == None;
  }
}
