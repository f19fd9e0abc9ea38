/** The parser of tp1: a line of tokens becomes a list of commands. */
module ShellParse {
  import opened Common
  import opened ShellRun

  datatype Category = Invalid | Symbol | Literal | Semicolon | Bar | AndAnd | OrOr | Newline

  /** The value is empty where the source has a null pointer. */
  datatype Token = Token(category: Category, value: string)

  predicate IsArg(c: Category) {
    c == Symbol || c == Literal
  }

  predicate IsInvalidFirst(c: Category) {
    c == Bar || c == AndAnd || c == OrOr
  }

  /** `find_op`. What is not an operator gives EXIT_FAILURE, which is 1, the number of the separator. */
  function FindOp(c: Category): Op {
    match c
    case Semicolon => Separator
    case Bar => Pipe
    case AndAnd => And
    case OrOr => Or
    case Newline => Terminator
    case _ => Separator
  }

  /** What `cmd_parse` needs to look at an operator after the last argument. */
  ghost predicate ClosedLine(tokens: seq<Token>) {
    tokens != [] && !IsArg(tokens[|tokens| - 1].category)
  }

  /** Where the arguments that start at i end. */
  function ArgsEnd(tokens: seq<Token>, i: nat): (e: nat)
    requires i <= |tokens|
    ensures i <= e <= |tokens| && forall k :: i <= k < e ==> IsArg(tokens[k].category)
    ensures e < |tokens| ==> !IsArg(tokens[e].category)
    decreases |tokens| - i
  {
    if i < |tokens| && IsArg(tokens[i].category) then ArgsEnd(tokens, i + 1) else i
  }

  function Values(tokens: seq<Token>): (r: seq<string>)
    ensures |r| == |tokens| && forall k :: 0 <= k < |tokens| ==> r[k] == tokens[k].value
  {
    if tokens == [] then [] else [tokens[0].value] + Values(tokens[1..])
  }

  /** The loop of `cmd_parse` from token i on. None: the line is refused. */
  function ParseFrom(tokens: seq<Token>, i: nat): Option<seq<Command>>
    requires ClosedLine(tokens) && i <= |tokens|
    decreases |tokens| - i
  {
    if i == |tokens| then Some([])
    else if tokens[i].category == Invalid then None
    else
      var e := ArgsEnd(tokens, i);
      if e == i then
        if IsInvalidFirst(tokens[i].category) then None else ParseFrom(tokens, i + 1)
      else
        match ParseFrom(tokens, e + 1)
        case None => None
        case Some(rest) => Some([Command(Values(tokens[i..e]), FindOp(tokens[e].category))] + rest)
  }

  /** `cmd_parse` as a function; no command stands for the null pointer. */
  function Parse(tokens: seq<Token>): seq<Command>
    requires ClosedLine(tokens)
  {
    if IsInvalidFirst(tokens[0].category) || tokens[0].category == Newline then []
    else
      match ParseFrom(tokens, 0)
      case None => []
      case Some(cmds) => cmds
  }

  // ---------------------------------------------------------------- the loops

  /** `count_arguments`. */
  method CountArguments(tokens: seq<Token>, i: nat) returns (counter: nat)
    requires i <= |tokens|
    ensures i + counter == ArgsEnd(tokens, i)
  {
    counter := 0;
    var current := i;
    while current < |tokens| && IsArg(tokens[current].category)
      invariant i <= current == i + counter <= |tokens| && ArgsEnd(tokens, current) == ArgsEnd(tokens, i)
    {
      counter := counter + 1;
      current := current + 1;
    }
  }

  /** One command more on the list, whatever follows. */
  lemma ListGrows(cmds: seq<Command>, c: Command, rest: Option<seq<Command>>)
    ensures Prepended(cmds, Prepended([c], rest)) == Prepended(cmds + [c], rest)
    ensures Prepended([], rest) == rest && Prepended(cmds, Some([])) == Some(cmds)
  {
    PrependedTwice(cmds, [c], rest);
    PrependedEnds(cmds, rest);
  }

  /** The line with a newline after it, if it ends in an argument. */
  function Closed(tokens: seq<Token>): (r: seq<Token>)
    requires tokens != []
    ensures ClosedLine(r)
  {
    if IsArg(tokens[|tokens| - 1].category) then tokens + [Token(Newline, "")] else tokens
  }

  /** Until the end of the list, the line with a newline has the same tokens and the same arguments. */
  lemma ClosedSame(tokens: seq<Token>, i: nat)
    requires tokens != [] && i <= |tokens|
    ensures ArgsEnd(Closed(tokens), i) == ArgsEnd(tokens, i)
    ensures |tokens| <= |Closed(tokens)| && Closed(tokens)[..|tokens|] == tokens
    decreases |tokens| - i
  {
    if i < |tokens| {
      ClosedSame(tokens, i + 1);
    }
  }

  /** `cmd_parse`. It reads the token after the arguments of a command without looking whether there is one:
      `inside` says whether it stays inside the list. It does exactly when the list does not end in an argument, or
      is refused before that; with a newline added it would be accepted otherwise. */
  method CmdParse(tokens: seq<Token>) returns (cmds: seq<Command>, inside: bool)
    requires tokens != []
    ensures inside <==> ClosedLine(tokens) || Parse(Closed(tokens)) == []
    ensures inside ==> cmds == Parse(Closed(tokens))
  {
    hide Prepended, Values, ParseFrom, ArgsEnd;
    cmds, inside := [], true;
    ghost var closed := Closed(tokens);
    ClosedSame(tokens, 0);
    assert closed[0] == closed[..|tokens|][0];
    if IsInvalidFirst(tokens[0].category) {
      return;
    }
    if tokens[0].category == Newline {
      return;
    }
    var i := 0;
    ListGrows([], Command([], Terminator), ParseFrom(closed, 0));
    while i < |tokens|
      invariant 0 <= i <= |tokens| && inside
      invariant i == |tokens| ==> ClosedLine(tokens)
      invariant Prepended(cmds, ParseFrom(closed, i)) == ParseFrom(closed, 0)
    {
      ClosedSame(tokens, i);
      assert closed[i] == closed[..|tokens|][i];
      if tokens[i].category == Invalid {
        InvalidRefused(closed, i);
        Refused(cmds);
        return [], true;
      }
      var count := CountArguments(tokens, i);
      if count == 0 {
        NoArguments(closed, i);
        if IsInvalidFirst(tokens[i].category) {
          Refused(cmds);
          return [], true;
        } else {
          i := i + 1;
          continue;
        }
      }
      var args := StoreArguments(tokens, i, count);
      if i + count == |tokens| {
        RunsOff(tokens, i, cmds);
        return [], false;
      }
      var c := Command(args, FindOp(tokens[i + count].category));
      CommandRead(tokens, i, cmds, c);
      i := i + count + 1;
      cmds := cmds + [c];
    }
    NothingLeft(closed);
    ListGrows(cmds, Command([], Terminator), None);
  }

  /** The loop of `cmd_parse` that stores the arguments of a command. */
  method StoreArguments(tokens: seq<Token>, first: nat, count: nat) returns (stored: seq<string>)
    requires first + count <= |tokens|
    ensures stored == Values(tokens[first..first + count])
  {
    var args := new string[count];
    var i := first;
    for k := 0 to count
      invariant i == first + k
      invariant forall m :: 0 <= m < k ==> args[m] == tokens[first + m].value
    {
      args[k] := tokens[i].value;
      i := i + 1;
    }
    stored := args[..];
  }

  lemma CommandRead(tokens: seq<Token>, i: nat, cmds: seq<Command>, c: Command)
    requires tokens != [] && i < |tokens| && i < ArgsEnd(tokens, i) < |tokens|
    requires c == Command(Values(tokens[i..ArgsEnd(tokens, i)]), FindOp(tokens[ArgsEnd(tokens, i)].category))
    ensures ArgsEnd(tokens, i) + 1 == |tokens| ==> ClosedLine(tokens)
    ensures Prepended(cmds, ParseFrom(Closed(tokens), i))
         == Prepended(cmds + [c], ParseFrom(Closed(tokens), ArgsEnd(tokens, i) + 1))
  {
    hide ParseFrom, Prepended;
    var closed, e := Closed(tokens), ArgsEnd(tokens, i);
    ClosedSame(tokens, i);
    assert closed[e] == closed[..|tokens|][e];
    assert closed[i..e] == closed[..|tokens|][i..e] == tokens[i..e];
    NextCommand(closed, i, c);
    ListGrows(cmds, c, ParseFrom(closed, e + 1));
  }

  lemma InvalidRefused(tokens: seq<Token>, i: nat)
    requires ClosedLine(tokens) && i < |tokens|
    ensures tokens[i].category == Invalid ==> ParseFrom(tokens, i) == None
  {
  }

  lemma NoArguments(tokens: seq<Token>, i: nat)
    requires ClosedLine(tokens) && i < |tokens| && ArgsEnd(tokens, i) == i
    ensures tokens[i].category != Invalid ==>
      ParseFrom(tokens, i) == if IsInvalidFirst(tokens[i].category) then None else ParseFrom(tokens, i + 1)
  {
  }

  lemma NothingLeft(tokens: seq<Token>)
    requires ClosedLine(tokens)
    ensures ParseFrom(tokens, |tokens|) == Some([])
  {
  }

  /** Arguments up to the end of the list: the line with a newline is accepted. */
  lemma RunsOff(tokens: seq<Token>, i: nat, cmds: seq<Command>)
    requires tokens != [] && i < |tokens| && ArgsEnd(tokens, i) == |tokens|
    requires Prepended(cmds, ParseFrom(Closed(tokens), i)) == ParseFrom(Closed(tokens), 0)
    requires !IsInvalidFirst(tokens[0].category) && tokens[0].category != Newline
    ensures !ClosedLine(tokens) && Parse(Closed(tokens)) != []
  {
    ClosedSame(tokens, i);
    ClosedSame(tokens, 0);
    assert Closed(tokens)[0] == Closed(tokens)[..|tokens|][0];
    assert IsArg(tokens[|tokens| - 1].category);
    var closed := Closed(tokens);
    var c := Command(Values(closed[i..|tokens|]), FindOp(closed[|tokens|].category));
    NextCommand(closed, i, c);
    NothingLeft(closed);
    ListGrows(cmds, c, Some([]));
  }

  lemma Refused(cmds: seq<Command>)
    ensures Prepended(cmds, None) == None
  {
  }

  lemma NextCommand(tokens: seq<Token>, i: nat, c: Command)
    requires ClosedLine(tokens) && i < |tokens| && i < ArgsEnd(tokens, i)
    requires c == Command(Values(tokens[i..ArgsEnd(tokens, i)]), FindOp(tokens[ArgsEnd(tokens, i)].category))
    ensures ParseFrom(tokens, i) == Prepended([c], ParseFrom(tokens, ArgsEnd(tokens, i) + 1))
  {
  }

  // ---------------------------------------------------------------- which lines are accepted

  /** An operator that is refused unless an argument stands right before it. */
  predicate NeedsArg(c: Category) {
    c == Bar || c == AndAnd || c == OrOr || c == Invalid
  }

  predicate FollowsArg(tokens: seq<Token>, i: nat)
    requires i < |tokens|
  {
    i > 0 && IsArg(tokens[i - 1].category)
  }

  ghost predicate WellPlaced(tokens: seq<Token>, i: nat)
    requires i <= |tokens|
  {
    forall k :: i <= k < |tokens| && NeedsArg(tokens[k].category) ==> FollowsArg(tokens, k)
  }

  ghost predicate HasArg(tokens: seq<Token>, i: nat)
    requires i <= |tokens|
  {
    exists k :: i <= k < |tokens| && IsArg(tokens[k].category)
  }

  lemma {:induction false} ParsesFromIff(tokens: seq<Token>, i: nat)
    requires ClosedLine(tokens) && i <= |tokens| && (i < |tokens| ==> !FollowsArg(tokens, i))
    ensures ParseFrom(tokens, i).Some? <==> WellPlaced(tokens, i)
    ensures ParseFrom(tokens, i).Some? ==> (ParseFrom(tokens, i).value != [] <==> HasArg(tokens, i))
    decreases |tokens| - i
  {
    hide Values, WellPlaced, HasArg;
    PlacedStep(tokens, i);
    if i < |tokens| {
      var e := ArgsEnd(tokens, i);
      if e == i {
        if !NeedsArg(tokens[i].category) {
          ParsesFromIff(tokens, i + 1);
        }
      } else {
        PlacedArgs(tokens, i, e);
        ParsesFromIff(tokens, e + 1);
      }
    }
  }

  lemma PlacedStep(tokens: seq<Token>, i: nat)
    requires i <= |tokens|
    ensures i == |tokens| ==> WellPlaced(tokens, i) && !HasArg(tokens, i)
    ensures i < |tokens| && !IsArg(tokens[i].category) && !FollowsArg(tokens, i) ==>
      && (WellPlaced(tokens, i) <==> !NeedsArg(tokens[i].category) && WellPlaced(tokens, i + 1))
      && (HasArg(tokens, i) <==> HasArg(tokens, i + 1))
  {
  }

  lemma PlacedArgs(tokens: seq<Token>, i: nat, e: nat)
    requires i < e < |tokens| && forall k :: i <= k < e ==> IsArg(tokens[k].category)
    ensures HasArg(tokens, i) && (WellPlaced(tokens, i) <==> WellPlaced(tokens, e + 1))
  {
    assert IsArg(tokens[i].category) && FollowsArg(tokens, e);
    assert forall k :: i <= k < e ==> !NeedsArg(tokens[k].category);
  }

  /** A line gives commands exactly when it does not start with a newline, holds an argument, and every `|`, `&&`,
      `||` and every invalid token stands right after an argument. */
  lemma ParsesIff(tokens: seq<Token>)
    requires ClosedLine(tokens)
    ensures Parse(tokens) != []
       <==> tokens[0].category != Newline && HasArg(tokens, 0) && WellPlaced(tokens, 0)
  {
    hide ParseFrom;
    ParsesFromIff(tokens, 0);
    assert IsInvalidFirst(tokens[0].category) ==> NeedsArg(tokens[0].category) && !FollowsArg(tokens, 0);
  }

  // ---------------------------------------------------------------- what the commands hold

  datatype Item = Word(text: string) | Operator(op: Op)

  /** The operator that a token behind an argument stands for: an invalid one is a separator. */
  function Stands(c: Category): Op {
    if c == Bar then Pipe
    else if c == AndAnd then And
    else if c == OrOr then Or
    else if c == Newline then Terminator
    else Separator
  }

  lemma FoundStands(c: Category)
    ensures FindOp(c) == Stands(c)
  {
  }

  /** The arguments and the operators that stand right after one, in order. */
  function Skeleton(tokens: seq<Token>, i: nat): seq<Item>
    requires i <= |tokens|
    decreases |tokens| - i
  {
    if i == |tokens| then []
    else if IsArg(tokens[i].category) then [Word(tokens[i].value)] + Skeleton(tokens, i + 1)
    else if FollowsArg(tokens, i) then [Operator(Stands(tokens[i].category))] + Skeleton(tokens, i + 1)
    else Skeleton(tokens, i + 1)
  }

  function Words(args: seq<string>): seq<Item> {
    if args == [] then [] else [Word(args[0])] + Words(args[1..])
  }

  function Items(cmds: seq<Command>): seq<Item> {
    if cmds == [] then [] else Words(cmds[0].args) + [Operator(cmds[0].op)] + Items(cmds[1..])
  }

  lemma {:induction false} SkeletonOfArgs(tokens: seq<Token>, i: nat, e: nat)
    requires i <= e < |tokens| && forall k :: i <= k < e ==> IsArg(tokens[k].category)
    ensures Skeleton(tokens, i) == Words(Values(tokens[i..e])) + Skeleton(tokens, e)
    decreases e - i
  {
    hide Words, Values, Skeleton;
    var tail := Skeleton(tokens, e);
    if i < e {
      SkeletonArg(tokens, i);
      WordsStep(tokens, i, e);
      SkeletonOfArgs(tokens, i + 1, e);
      var words := Words(Values(tokens[i + 1..e]));
      assert [Word(tokens[i].value)] + (words + tail) == [Word(tokens[i].value)] + words + tail;
    } else {
      NoWords(tokens, i);
      assert [] + tail == tail;
    }
  }

  lemma SkeletonArg(tokens: seq<Token>, i: nat)
    requires i < |tokens| && IsArg(tokens[i].category)
    ensures Skeleton(tokens, i) == [Word(tokens[i].value)] + Skeleton(tokens, i + 1)
  {
  }

  lemma NoWords(tokens: seq<Token>, i: nat)
    requires i <= |tokens|
    ensures Words(Values(tokens[i..i])) == []
  {
  }

  lemma WordsStep(tokens: seq<Token>, i: nat, e: nat)
    requires i < e <= |tokens|
    ensures Words(Values(tokens[i..e])) == [Word(tokens[i].value)] + Words(Values(tokens[i + 1..e]))
  {
    assert tokens[i..e][1..] == tokens[i + 1..e];
    assert Values(tokens[i..e])[1..] == Values(tokens[i + 1..e]);
  }

  lemma ItemsCons(c: Command, rest: seq<Command>)
    ensures Items([c] + rest) == Words(c.args) + [Operator(c.op)] + Items(rest)
  {
    assert ([c] + rest)[1..] == rest;
  }

  lemma {:induction false} ItemsOfParse(tokens: seq<Token>, i: nat)
    requires ClosedLine(tokens) && i <= |tokens| && (i < |tokens| ==> !FollowsArg(tokens, i))
    requires ParseFrom(tokens, i).Some?
    ensures Items(ParseFrom(tokens, i).value) == Skeleton(tokens, i)
    ensures Runnable(ParseFrom(tokens, i).value)
    decreases |tokens| - i
  {
    hide Values, Words, Skeleton, Items, FindOp, ParseFrom;
    if i < |tokens| {
      var e := ArgsEnd(tokens, i);
      if e == i {
        InvalidRefused(tokens, i);
        NoArguments(tokens, i);
        SkeletonStep(tokens, i);
        ItemsOfParse(tokens, i + 1);
      } else {
        var c := Command(Values(tokens[i..e]), FindOp(tokens[e].category));
        NextCommand(tokens, i, c);
        ItemsOfParse(tokens, e + 1);
        ItemsOfCommand(tokens, i, c, ParseFrom(tokens, e + 1).value);
      }
    } else {
      NothingLeft(tokens);
      NoItems();
      SkeletonStep(tokens, i);
    }
  }

  lemma ItemsOfCommand(tokens: seq<Token>, i: nat, c: Command, rest: seq<Command>)
    requires ClosedLine(tokens) && i < |tokens| && i < ArgsEnd(tokens, i)
    requires c == Command(Values(tokens[i..ArgsEnd(tokens, i)]), FindOp(tokens[ArgsEnd(tokens, i)].category))
    requires Items(rest) == Skeleton(tokens, ArgsEnd(tokens, i) + 1)
    ensures Items([c] + rest) == Skeleton(tokens, i) && c.args != []
  {
    hide Values, Words, Skeleton, Items, FindOp;
    var e := ArgsEnd(tokens, i);
    SkeletonOfArgs(tokens, i, e);
    SkeletonStep(tokens, e);
    FoundStands(tokens[e].category);
    ItemsCons(c, rest);
    assert Words(c.args) + ([Operator(c.op)] + Items(rest)) == Words(c.args) + [Operator(c.op)] + Items(rest);
  }

  lemma NoItems()
    ensures Items([]) == []
  {
  }

  lemma SkeletonStep(tokens: seq<Token>, i: nat)
    requires i <= |tokens| && (i < |tokens| ==> !IsArg(tokens[i].category))
    ensures i == |tokens| ==> Skeleton(tokens, i) == []
    ensures i < |tokens| ==>
      Skeleton(tokens, i) == (if FollowsArg(tokens, i) then [Operator(Stands(tokens[i].category))] else [])
                             + Skeleton(tokens, i + 1)
  {
  }

  /** The commands hold all arguments of the line in order, cut where an operator follows one, each command with
      that operator; every command has an argument. */
  lemma ParseKeepsItems(tokens: seq<Token>)
    requires ClosedLine(tokens) && Parse(tokens) != []
    ensures Items(Parse(tokens)) == Skeleton(tokens, 0) && Runnable(Parse(tokens))
  {
    hide ParseFrom;
    ItemsOfParse(tokens, 0);
  }

  lemma {:induction false} WordsPrefix(a: seq<string>, b: seq<string>, p: Op, q: Op, x: seq<Item>, y: seq<Item>)
    requires Words(a) + [Operator(p)] + x == Words(b) + [Operator(q)] + y
    ensures a == b && p == q && x == y
    decreases |a|
  {
    var l, r := Words(a) + [Operator(p)] + x, Words(b) + [Operator(q)] + y;
    assert l[0] == r[0];
    if a != [] && b != [] {
      assert l[1..] == Words(a[1..]) + [Operator(p)] + x;
      assert r[1..] == Words(b[1..]) + [Operator(q)] + y;
      WordsPrefix(a[1..], b[1..], p, q, x, y);
      assert a == [a[0]] + a[1..] && b == [b[0]] + b[1..];
    } else {
      assert l[1..] == x && r[1..] == y;
    }
  }

  /** Items determine the commands: `ParseKeepsItems` leaves no other result. */
  lemma {:induction false} ItemsInjective(a: seq<Command>, b: seq<Command>)
    requires Items(a) == Items(b)
    ensures a == b
    decreases |a|
  {
    hide Words;
    if a != [] && b != [] {
      WordsPrefix(a[0].args, b[0].args, a[0].op, b[0].op, Items(a[1..]), Items(b[1..]));
      ItemsInjective(a[1..], b[1..]);
      assert a == [a[0]] + a[1..] && b == [b[0]] + b[1..];
    }
  }

  /** A newline stands at most at the end of what `tok_next_line` returns. */
  ghost predicate OneLine(tokens: seq<Token>) {
    forall k :: 0 <= k < |tokens| - 1 ==> tokens[k].category != Newline
  }

  lemma {:induction false} NoInnerTerminatorFrom(tokens: seq<Token>, i: nat)
    requires ClosedLine(tokens) && OneLine(tokens) && i <= |tokens| && ParseFrom(tokens, i).Some?
    ensures var cmds := ParseFrom(tokens, i).value;
      forall k :: 0 <= k < |cmds| - 1 ==> cmds[k].op != Terminator
    decreases |tokens| - i
  {
    hide Values;
    if i < |tokens| {
      var e := ArgsEnd(tokens, i);
      NoInnerTerminatorFrom(tokens, if e == i then i + 1 else e + 1);
    }
  }

  /** On one line only the last command can have a terminator, so inside the list only `|` continues a pipeline. */
  lemma NoInnerTerminator(tokens: seq<Token>)
    requires ClosedLine(tokens) && OneLine(tokens)
    ensures var cmds := Parse(tokens);
      forall k :: 0 <= k < |cmds| - 1 ==> (Continues(cmds[k].op) <==> cmds[k].op == Pipe)
  {
    hide ParseFrom;
    if ParseFrom(tokens, 0).Some? {
      NoInnerTerminatorFrom(tokens, 0);
    }
  }
}
