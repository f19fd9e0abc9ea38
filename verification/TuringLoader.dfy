/** The loader of tp0: a machine is read from a text, three states and then one transition a line. */
module TuringLoader {
  import opened Common
  import opened CStrings
  import opened TuringMachine

  const STATE_LENGTH := 5
  const LINE_LENGTH := 1024
  /** `parse_line` looks at no more than this many characters. */
  const REACH := 21

  // ---------------------------------------------------------------- lines

  /** `no_of_lines`: newlines, and one more for a last line without one. */
  function LineCount(text: string): nat {
    Newlines(text) + if text != [] && text[|text| - 1] != '\n' then 1 else 0
  }

  function Newlines(text: string): nat {
    if text == [] then 0
    else Newlines(text[..|text| - 1]) + if text[|text| - 1] == '\n' then 1 else 0
  }

  /** The first newline from `pos` on, or the end. */
  function LineEnd(text: string, pos: nat): (e: nat)
    requires pos <= |text|
    ensures pos <= e <= |text| && '\n' !in text[pos..e]
    ensures e < |text| ==> text[e] == '\n'
    decreases |text| - pos
  {
    if pos == |text| || text[pos] == '\n' then pos else
      var e := LineEnd(text, pos + 1);
      assert text[pos..e] == [text[pos]] + text[pos + 1..e];
      e
  }

  function NextLine(text: string, pos: nat): (n: nat)
    requires pos <= |text|
    ensures pos <= n <= |text|
  {
    var e := LineEnd(text, pos);
    if e < |text| then e + 1 else e
  }

  // ---------------------------------------------------------------- one transition

  /** How many characters `read_state` takes from `p` on: up to a comma, five at most. */
  function StateSpan(buf: string, p: nat, k: nat): (n: nat)
    requires k <= STATE_LENGTH && p + STATE_LENGTH < |buf|
    ensures k <= n <= STATE_LENGTH
    decreases STATE_LENGTH - k
  {
    if k == STATE_LENGTH || buf[p + k] == ',' then k else StateSpan(buf, p, k + 1)
  }

  function Movement(c: char): Option<Move> {
    match c
    case 'G' => Some(-1)
    case 'R' => Some(0)
    case 'D' => Some(1)
    case _ => None
  }

  /** Where the next state starts: after the state, the comma, the symbol and `)->(`. */
  function NextAt(buf: string): (p: nat)
    requires REACH <= |buf|
    ensures 7 <= p <= 12
  {
    1 + StateSpan(buf, 1, 0) + 6
  }

  /** Where the symbol to write is. */
  function WriteAt(buf: string): (p: nat)
    requires REACH <= |buf|
    ensures NextAt(buf) < p <= 18
  {
    NextAt(buf) + StateSpan(buf, NextAt(buf), 0) + 1
  }

  /** `parse_line` on a buffer that holds a line of length `len`, a NUL, and whatever was there before. */
  function ParseBuffer(buf: string, len: nat): Option<Transition>
    requires len <= |buf| && REACH <= |buf|
  {
    var current := buf[1..NextAt(buf) - 6];
    var next := buf[NextAt(buf)..WriteAt(buf) - 1];
    match Movement(buf[WriteAt(buf) + 2])
    case None => None
    case Some(movement) =>
      if WriteAt(buf) + 3 > len then None
      else Some(Transition(current[..Length(current)], next[..Length(next)], movement,
                           buf[NextAt(buf) - 5], buf[WriteAt(buf)]))
  }

  function Padding(): (z: string)
    ensures |z| == REACH
  {
    seq(REACH, _ => NUL)
  }

  /** `parse_line` as a function of the line alone. */
  function Parse(line: string): Option<Transition> {
    ParseBuffer(line + Padding(), |line|)
  }

  lemma {:induction false} StateSpanLocal(a: string, b: string, p: nat, k: nat, n: nat)
    requires k <= STATE_LENGTH && p + STATE_LENGTH < |a| && p + STATE_LENGTH < |b|
    requires n <= |a| && n <= |b| && a[..n] == b[..n]
    ensures p + StateSpan(a, p, k) < n ==> StateSpan(b, p, k) == StateSpan(a, p, k)
    ensures p + StateSpan(a, p, k) >= n ==> p + StateSpan(b, p, k) >= n
    decreases STATE_LENGTH - k
  {
    assert forall i :: 0 <= i < n ==> a[i] == a[..n][i] && b[i] == b[..n][i];
    if k < STATE_LENGTH {
      StateSpanLocal(a, b, p, k + 1, n);
    }
  }

  lemma PositionsLocal(a: string, b: string, len: nat)
    requires len <= |a| && len <= |b| && REACH <= |a| && REACH <= |b| && a[..len] == b[..len]
    ensures WriteAt(a) + 3 <= len ==> NextAt(b) == NextAt(a) && WriteAt(b) == WriteAt(a)
    ensures WriteAt(a) + 3 > len ==> WriteAt(b) + 3 > len
  {
    StateSpanLocal(a, b, 1, 0, len);
    if 1 + StateSpan(a, 1, 0) < len {
      StateSpanLocal(a, b, NextAt(a), 0, len);
    }
  }

  lemma SliceLocal(a: string, b: string, len: nat, i: nat, j: nat)
    requires i <= j <= len && len <= |a| && len <= |b| && a[..len] == b[..len]
    ensures a[i..j] == b[i..j]
  {
    assert a[i..j] == a[..len][i..j] && b[i..j] == b[..len][i..j];
  }

  /** What follows the line in the buffer never matters: a line too short to be a transition is refused, and
      any other is read inside its length. */
  lemma PaddingIrrelevant(a: string, b: string, len: nat)
    requires len <= |a| && len <= |b| && REACH <= |a| && REACH <= |b| && a[..len] == b[..len]
    ensures ParseBuffer(a, len) == ParseBuffer(b, len)
  {
    hide NextAt, WriteAt, Length;
    PositionsLocal(a, b, len);
    if WriteAt(a) + 3 <= len {
      var q, r := NextAt(a), WriteAt(a);
      SliceLocal(a, b, len, 1, q - 6);
      SliceLocal(a, b, len, q, r - 1);
      assert forall i :: 0 <= i < len ==> a[i] == a[..len][i] == b[..len][i] == b[i];
    }
  }

  // ---------------------------------------------------------------- the whole description

  /** `get_transitions`: n lines, each a transition. */
  function LoadTransitions(text: string, pos: nat, n: nat): Option<seq<Transition>>
    requires pos <= |text|
    decreases n
  {
    if n == 0 then Some([])
    else
      match Parse(CString(text[pos..LineEnd(text, pos)]))
      case None => None
      case Some(t) =>
        match LoadTransitions(text, NextLine(text, pos), n - 1)
        case None => None
        case Some(ts) => Some([t] + ts)
  }

  /** The loading part of `execute`. With fewer than three lines the table of transitions would get a negative
      size, which no allocation meets. */
  function Load(text: string): Option<Machine> {
    var p := NextLine(text, 0);
    var q := NextLine(text, p);
    var r := NextLine(text, q);
    var count := LineCount(text);
    if count < 3 then None else
    match LoadTransitions(text, r, count - 3)
    case None => None
    case Some(ts) =>
      Some(Machine(CString(text[..LineEnd(text, 0)]), CString(text[p..LineEnd(text, p)]),
                   CString(text[q..LineEnd(text, q)]), ts))
  }

  // ---------------------------------------------------------------- printing

  function MovementChar(m: Move): char {
    if m == -1 then 'G' else if m == 0 then 'R' else 'D'
  }

  function PrintTransition(t: Transition): string {
    "(" + t.current + "," + [t.read] + ")->(" + t.next + "," + [t.write] + "," + [MovementChar(t.movement)] + ")"
  }

  function Lines(m: Machine): seq<string> {
    [m.initial, m.accept, m.reject] + PrintAll(m.transitions)
  }

  function PrintAll(ts: seq<Transition>): (r: seq<string>)
    ensures |r| == |ts|
  {
    if ts == [] then [] else [PrintTransition(ts[0])] + PrintAll(ts[1..])
  }

  /** The lines one after the other, the last one with or without a newline. */
  function Body(lines: seq<string>, final: bool): string {
    if lines == [] then ""
    else if |lines| == 1 && !final then lines[0]
    else lines[0] + "\n" + Body(lines[1..], final)
  }

  function Print(m: Machine, final: bool): string {
    Body(Lines(m), final)
  }

  ghost predicate GoodSymbol(c: char) {
    c != NUL && c != '\n'
  }

  ghost predicate GoodName(s: string) {
    1 <= |s| <= STATE_LENGTH && ',' !in s && NUL !in s && '\n' !in s
  }

  ghost predicate GoodTransition(t: Transition) {
    GoodName(t.current) && GoodName(t.next) && GoodSymbol(t.read) && GoodSymbol(t.write)
  }

  ghost predicate GoodMachine(m: Machine) {
    && GoodName(m.initial) && GoodName(m.accept) && GoodName(m.reject)
    && forall i :: 0 <= i < |m.transitions| ==> GoodTransition(m.transitions[i])
  }

  // ---------------------------------------------------------------- round trip

  lemma {:induction false} StateSpanName(buf: string, p: nat, k: nat, name: string)
    requires k <= |name| <= STATE_LENGTH && p + STATE_LENGTH < |buf| && ',' !in name
    requires buf[p..p + |name|] == name && buf[p + |name|] == ','
    ensures StateSpan(buf, p, k) == |name|
    decreases |name| - k
  {
    if k < |name| {
      assert buf[p + k] == buf[p..p + |name|][k] == name[k];
      StateSpanName(buf, p, k + 1, name);
    }
  }

  /** The parts of a printed transition, by position. */
  lemma Printed(t: Transition, buf: string)
    requires buf == PrintTransition(t) + Padding()
    ensures var a, b := |t.current|, |t.next|;
      && |PrintTransition(t)| == a + b + 12
      && buf[1..1 + a] == t.current && buf[1 + a] == ',' && buf[2 + a] == t.read
      && buf[a + 7..a + 7 + b] == t.next && buf[a + 7 + b] == ','
      && buf[a + b + 8] == t.write && buf[a + b + 10] == MovementChar(t.movement)
  {
    var a, b := |t.current|, |t.next|;
    var left := "(" + t.current + "," + [t.read] + ")->(";
    var right := "," + [t.write] + "," + [MovementChar(t.movement)] + ")";
    assert PrintTransition(t) == left + t.next + right;
    assert buf == left + (t.next + (right + Padding()));
    assert |left| == a + 7;
    assert left[1..1 + a] == t.current;
  }

  lemma PrintedPositions(t: Transition, buf: string)
    requires GoodTransition(t) && buf == PrintTransition(t) + Padding()
    ensures NextAt(buf) == |t.current| + 7
    ensures WriteAt(buf) == |t.current| + |t.next| + 8
  {
    Printed(t, buf);
    hide PrintTransition, Padding;
    StateSpanName(buf, 1, 0, t.current);
    StateSpanName(buf, |t.current| + 7, 0, t.next);
  }

  lemma TransitionRoundTrip(t: Transition)
    requires GoodTransition(t)
    ensures Parse(PrintTransition(t)) == Some(t)
  {
    hide PrintTransition, Padding, StateSpan, Length, NextAt, WriteAt;
    var buf := PrintTransition(t) + Padding();
    Printed(t, buf);
    PrintedPositions(t, buf);
    LengthWithout(t.current);
    LengthWithout(t.next);
  }

  /** A printed transition cut off anywhere is refused, unless its closing parenthesis alone is missing: that one is
      never looked at. */
  lemma TransitionPrefixes(t: Transition, n: nat)
    requires GoodTransition(t) && n <= |PrintTransition(t)|
    ensures Parse(PrintTransition(t)[..n]) == if n + 1 < |PrintTransition(t)| then None else Some(t)
  {
    hide PrintTransition, Padding, StateSpan, Length, NextAt, WriteAt;
    var line := PrintTransition(t);
    var buf := line + Padding();
    Printed(t, buf);
    PrintedPositions(t, buf);
    LengthWithout(t.current);
    LengthWithout(t.next);
    PaddingIrrelevant(line[..n] + Padding(), buf, n);
  }

  ghost predicate ShortName(s: string) {
    1 <= |s| <= 5 && ',' !in s && '\0' !in s && '\n' !in s
  }

  /** A line with the letter G moves the head by -1, with R not at all, with D by 1; any other letter is refused. */
  lemma LettersMove(s: string, x: char, t: string, y: char, letter: char)
    requires ShortName(s) && ShortName(t) && x !in "\0\n" && y !in "\0\n"
    ensures var line := "(" + s + "," + [x] + ")->(" + t + "," + [y] + "," + [letter] + ")";
      Parse(line) == (if letter == 'G' then Some(Transition(s, t, -1, x, y))
                      else if letter == 'R' then Some(Transition(s, t, 0, x, y))
                      else if letter == 'D' then Some(Transition(s, t, 1, x, y))
                      else None)
  {
    var line := "(" + s + "," + [x] + ")->(" + t + "," + [y] + "," + [letter] + ")";
    assert "\0\n"[0] == '\0' && "\0\n"[1] == '\n';
    var buf := line + Padding();
    var like := Transition(s, t, 0, x, y);
    var other := PrintTransition(like) + Padding();
    TransitionRoundTrip(like);
    if letter == 'G' {
      TransitionRoundTrip(like.(movement := -1));
    } else if letter == 'D' {
      TransitionRoundTrip(like.(movement := 1));
    } else if letter != 'R' {
      OtherLetter(s, x, t, y, letter);
    }
  }

  /** The positions do not depend on the letter. */
  lemma OtherLetter(s: string, x: char, t: string, y: char, letter: char)
    requires ShortName(s) && ShortName(t) && x !in "\0\n" && y !in "\0\n" && Movement(letter) == None
    ensures Parse("(" + s + "," + [x] + ")->(" + t + "," + [y] + "," + [letter] + ")") == None
  {
    hide StateSpan, Length;
    var buf := "(" + s + "," + [x] + ")->(" + t + "," + [y] + "," + [letter] + ")" + Padding();
    var n := |s|;
    assert forall k :: 0 <= k < n ==> buf[1 + k] == s[k];
    assert buf[1 + n] == ',';
    StateSpanName(buf, 1, 0, s);
    assert NextAt(buf) == n + 7;
    assert forall k :: 0 <= k < |t| ==> buf[n + 7 + k] == t[k];
    assert buf[n + 7 + |t|] == ',';
    StateSpanName(buf, n + 7, 0, t);
    assert WriteAt(buf) == n + 8 + |t|;
    assert buf[WriteAt(buf) + 2] == letter;
  }

  lemma PrintedIsLine(t: Transition)
    requires GoodTransition(t)
    ensures NUL !in PrintTransition(t) && '\n' !in PrintTransition(t)
    ensures 0 < |PrintTransition(t)| <= LINE_LENGTH
  {
  }

  // ---------------------------------------------------------------- lines and their count

  lemma {:induction false} NewlinesConcat(a: string, b: string)
    ensures Newlines(a + b) == Newlines(a) + Newlines(b)
  {
    if b == [] {
      assert a + b == a;
    } else {
      assert (a + b)[..|a + b| - 1] == a + b[..|b| - 1];
      NewlinesConcat(a, b[..|b| - 1]);
    }
  }

  lemma {:induction false} NewlinesWithout(a: string)
    requires '\n' !in a
    ensures Newlines(a) == 0
  {
    if a != [] {
      NewlinesWithout(a[..|a| - 1]);
    }
  }

  ghost predicate GoodLines(lines: seq<string>) {
    forall i :: 0 <= i < |lines| ==> lines[i] != [] && '\n' !in lines[i] && NUL !in lines[i]
  }

  /** Counting gives the number of lines, whether the last one ends with a newline or not. */
  lemma {:induction false} CountBody(lines: seq<string>, final: bool)
    requires GoodLines(lines)
    ensures LineCount(Body(lines, final)) == |lines|
  {
    if lines != [] {
      var line, rest := lines[0], Body(lines[1..], final);
      NewlinesWithout(line);
      if !(|lines| == 1 && !final) {
        CountBody(lines[1..], final);
        NewlinesConcat(line, "\n");
        NewlinesConcat(line + "\n", rest);
        assert Newlines("\n") == 1;
        assert Body(lines, final) == line + "\n" + rest;
        assert rest != [] ==> (line + "\n" + rest)[|line + "\n" + rest| - 1] == rest[|rest| - 1];
      }
    }
  }

  lemma {:induction false} LineEndAt(text: string, pos: nat, e: nat)
    requires pos <= e <= |text| && '\n' !in text[pos..e] && (e < |text| ==> text[e] == '\n')
    ensures LineEnd(text, pos) == e
    decreases e - pos
  {
    if pos < e {
      assert text[pos] == text[pos..e][0];
      assert text[pos + 1..e] == text[pos..e][1..];
      LineEndAt(text, pos + 1, e);
    }
  }

  /** Reading a line of a body gives its first line and leaves the rest of it. */
  lemma ReadBody(text: string, pos: nat, lines: seq<string>, final: bool)
    requires pos <= |text| && lines != [] && GoodLines(lines) && text[pos..] == Body(lines, final)
    ensures CString(text[pos..LineEnd(text, pos)]) == lines[0]
    ensures text[NextLine(text, pos)..] == Body(lines[1..], final)
    ensures LineEnd(text, pos) - pos == |lines[0]|
  {
    var line, rest := lines[0], Body(lines[1..], final);
    var e := pos + |line|;
    assert text[pos..e] == text[pos..][..|line|];
    if |lines| == 1 && !final {
      assert text[pos..] == line;
      assert rest == "";
    } else {
      assert text[pos..] == line + "\n" + rest;
      assert text[e] == text[pos..][|line|];
      assert text[e + 1..] == text[pos..][|line| + 1..];
    }
    LineEndAt(text, pos, e);
    LengthWithout(line);
  }

  lemma {:induction false} TransitionsRoundTrip(text: string, pos: nat, ts: seq<Transition>, final: bool)
    requires pos <= |text| && text[pos..] == Body(PrintAll(ts), final)
    requires forall i :: 0 <= i < |ts| ==> GoodTransition(ts[i])
    ensures LoadTransitions(text, pos, |ts|) == Some(ts)
    decreases |ts|
  {
    hide Parse, Body, PrintTransition, LineEnd, NextLine, CString, GoodTransition;
    if ts != [] {
      PrintedAllGood(ts);
      ReadBody(text, pos, PrintAll(ts), final);
      TransitionRoundTrip(ts[0]);
      assert PrintAll(ts)[1..] == PrintAll(ts[1..]);
      TransitionsRoundTrip(text, NextLine(text, pos), ts[1..], final);
      assert |ts[1..]| == |ts| - 1 && [ts[0]] + ts[1..] == ts;
    }
  }

  lemma {:induction false} PrintedAllGood(ts: seq<Transition>)
    requires forall i :: 0 <= i < |ts| ==> GoodTransition(ts[i])
    ensures GoodLines(PrintAll(ts))
    ensures forall i :: 0 <= i < |ts| ==> PrintAll(ts)[i] == PrintTransition(ts[i])
  {
    hide PrintTransition, GoodTransition;
    if ts != [] {
      PrintedIsLine(ts[0]);
      PrintedAllGood(ts[1..]);
    }
  }

  /** The first three lines of a printed machine are its states, and the lines after them its transitions. */
  lemma PrintedHeader(m: Machine, final: bool, text: string) returns (r: nat)
    requires GoodMachine(m) && text == Print(m, final)
    ensures var p := NextLine(text, 0);
      var q := NextLine(text, p);
      && CString(text[..LineEnd(text, 0)]) == m.initial && LineEnd(text, 0) == |m.initial|
      && CString(text[p..LineEnd(text, p)]) == m.accept && LineEnd(text, p) - p == |m.accept|
      && CString(text[q..LineEnd(text, q)]) == m.reject && LineEnd(text, q) - q == |m.reject|
      && r == NextLine(text, q) && text[r..] == Body(PrintAll(m.transitions), final)
    ensures LineCount(text) == 3 + |m.transitions|
  {
    hide LineEnd, NextLine, CString, GoodTransition, PrintAll, LineCount, Body;
    var lines := Lines(m);
    PrintedAllGood(m.transitions);
    assert GoodLines(lines);
    CountBody(lines, final);
    assert text[0..] == text && text[..LineEnd(text, 0)] == text[0..LineEnd(text, 0)];
    ReadBody(text, 0, lines, final);
    var p := NextLine(text, 0);
    ReadBody(text, p, lines[1..], final);
    var q := NextLine(text, p);
    assert lines[1..][1..] == lines[2..] && lines[2..][1..] == PrintAll(m.transitions);
    ReadBody(text, q, lines[2..], final);
    r := NextLine(text, q);
  }

  /** Printing a machine and loading the text gives the machine back, with or without a final newline. */
  lemma LoaderRoundTrip(m: Machine, final: bool)
    requires GoodMachine(m)
    ensures Load(Print(m, final)) == Some(m)
  {
    hide LineEnd, NextLine, CString, GoodTransition, LoadTransitions, PrintAll, LineCount, Body, Print;
    var text := Print(m, final);
    var r := PrintedHeader(m, final, text);
    TransitionsRoundTrip(text, r, m.transitions, final);
  }
}
