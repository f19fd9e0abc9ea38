/** The reading loops of tp0: lines of a file into buffers, and buffers into transitions. */
module TuringText {
  import opened Common
  import opened CStrings
  import opened TuringMachine
  import opened TuringLoader

  /** The lines that are read for n transitions, up to the first one that is refused, fit the buffer they are read
      into. */
  ghost predicate LinesFit(text: string, pos: nat, n: nat)
    requires pos <= |text|
    decreases n
  {
    n > 0 ==>
      && LineEnd(text, pos) - pos <= 1024
      && (Parse(CString(text[pos..LineEnd(text, pos)])).Some? ==> LinesFit(text, NextLine(text, pos), n - 1))
  }

  /** No line is longer than the buffer `execute` reads it into. */
  ghost predicate Fits(text: string) {
    var p := NextLine(text, 0);
    var q := NextLine(text, p);
    && LineEnd(text, 0) <= 5 && LineEnd(text, p) - p <= 5 && LineEnd(text, q) - q <= 5
    && (LineCount(text) >= 3 ==> LinesFit(text, NextLine(text, q), LineCount(text) - 3))
  }

  /** A scan that stopped at the end or at a newline, and not past the line, is at the end of the line. */
  lemma NotBefore(text: string, s: nat, i: nat)
    requires s <= i <= |text| && i <= LineEnd(text, s)
    requires i == |text| || text[i] == '\n'
    ensures i == LineEnd(text, s)
  {
    hide LineEnd;
    var e := LineEnd(text, s);
    assert forall k :: s <= k < e ==> text[k] == text[s..e][k - s];
  }

  /** A file open for reading. */
  class TextFile {
    const text: string
    var pos: nat

    ghost predicate Valid()
      reads this
    {
      pos <= |text|
    }

    constructor (text: string)
      ensures Valid() && this.text == text && pos == 0
    {
      this.text := text;
      pos := 0;
    }

    /** `getc`: None at the end. */
    method Getc() returns (c: Option<char>)
      requires Valid()
      modifies this`pos
      ensures Valid()
      ensures old(pos) < |text| ==> c == Some(text[old(pos)]) && pos == old(pos) + 1
      ensures old(pos) == |text| ==> c == None && pos == old(pos)
    {
      if pos < |text| {
        c := Some(text[pos]);
        pos := pos + 1;
      } else {
        c := None;
      }
    }

    /** `no_of_lines`: the position in the file is the same before and after. */
    method NoOfLines() returns (count: nat)
      requires Valid()
      modifies this`pos
      ensures Valid() && pos == old(pos)
      ensures count == LineCount(text)
    {
      var was := pos;
      pos := 0;
      count := 0;
      var previous := '\n';
      var current := Getc();
      ghost var done := 0;
      while current.Some?
        invariant Valid() && 0 <= done <= |text|
        invariant if done < |text| then current == Some(text[done]) && pos == done + 1 else current == None
        invariant count == Newlines(text[..done])
        invariant previous == if done == 0 then '\n' else text[done - 1]
        decreases |text| - done
      {
        assert text[..done + 1][..done] == text[..done];
        if current.value == '\n' {
          count := count + 1;
        }
        previous := current.value;
        current := Getc();
        done := done + 1;
      }
      assert text[..done] == text;
      if previous != '\n' {
        count := count + 1;
      }
      pos := was;
    }

    /** `readline`: the characters of the line as far as the loop takes them, and a NUL at index n. The buffer has
        max_len + 1 places, and the loop lets n reach max_len + 1: then, which is exactly when the line is longer than
        max_len, that last write, and no other, is past the buffer. The model leaves it out and says so. */
    method ReadLine(maxLen: nat) returns (buf: array<char>, n: nat, inside: bool)
      requires Valid()
      modifies this`pos
      ensures Valid() && fresh(buf) && buf.Length == maxLen + 1
      ensures inside <==> LineEnd(text, old(pos)) - old(pos) <= maxLen
      ensures n == Min(LineEnd(text, old(pos)) - old(pos), maxLen + 1)
      ensures buf[..n] == text[old(pos)..old(pos) + n] && pos == Min(old(pos) + n + 1, |text|)
      ensures inside ==> buf[n] == NUL && pos == NextLine(text, old(pos))
    {
      hide LineEnd;
      buf := new char[maxLen + 1];
      ghost var s, e := pos, LineEnd(text, pos);
      var current := Getc();
      n := 0;
      while current.Some? && current.value != '\n' && n <= maxLen
        invariant Valid() && s + n <= e && e == LineEnd(text, s) && n <= maxLen + 1
        invariant if s + n < |text| then current == Some(text[s + n]) && pos == s + n + 1
                  else current == None && pos == |text|
        invariant forall k :: 0 <= k < n ==> buf[k] == text[s + k]
        decreases e - s - n
      {
        assert s + n < e;
        buf[n] := current.value;
        n := n + 1;
        current := Getc();
      }
      if n <= maxLen {
        NotBefore(text, s, s + n);
        assert e == s + n;
        buf[n] := NUL;
      }
      assert buf[..n] == text[s..s + n];
      inside := n <= maxLen;
    }
  }

  /** `strlen2`. */
  method StrLen(s: array<char>) returns (n: nat)
    requires NUL in s[..]
    ensures n == Length(s[..])
  {
    n := 0;
    while s[n] != NUL
      invariant n < s.Length && NUL !in s[..n] && NUL in s[n..]
      decreases s.Length - n
    {
      assert s[n..] == [s[n]] + s[n + 1..];
      assert s[..n + 1] == s[..n] + [s[n]];
      n := n + 1;
    }
    LengthAt(s[..], n);
  }

  lemma SpanStep(buf: string, p: nat, k: nat)
    requires k < STATE_LENGTH && p + STATE_LENGTH < |buf| && buf[p + k] != ','
    ensures StateSpan(buf, p, k) == StateSpan(buf, p, k + 1)
  {
  }

  lemma SpanEnd(buf: string, p: nat, k: nat)
    requires k <= STATE_LENGTH && p + STATE_LENGTH < |buf| && (k == STATE_LENGTH || buf[p + k] == ',')
    ensures StateSpan(buf, p, k) == k
  {
  }

  /** `read_state`: up to five characters before a comma, and the position after that comma. */
  method ReadState(line: array<char>, p: nat) returns (state: array<char>, q: nat)
    requires p + STATE_LENGTH < line.Length
    ensures fresh(state) && NUL in state[..]
    ensures q == p + StateSpan(line[..], p, 0) + 1
    ensures CString(state[..]) == CString(line[p..q - 1])
  {
    hide Length, CString, StateSpan;
    state := new char[STATE_LENGTH + 1];
    var i := 0;
    while line[p + i] != ',' && i < STATE_LENGTH
      invariant 0 <= i <= STATE_LENGTH && StateSpan(line[..], p, 0) == StateSpan(line[..], p, i)
      invariant forall k :: 0 <= k < i ==> state[k] == line[p + k]
      decreases STATE_LENGTH - i
    {
      SpanStep(line[..], p, i);
      state[i] := line[p + i];
      i := i + 1;
    }
    SpanEnd(line[..], p, i);
    state[i] := NUL;
    q := p + i + 1;
    assert state[..][i] == NUL && state[..][..i] == line[p..p + i];
    CStringOf(state[..], line[p..p + i]);
  }

  /** `parse_movement`. */
  method ParseMovement(line: array<char>, p: nat) returns (movement: Option<Move>, q: nat)
    requires p < line.Length
    ensures movement == Movement(line[p]) && q == p + 1
  {
    match line[p] {
      case 'G' => movement := Some(-1);
      case 'R' => movement := Some(0);
      case 'D' => movement := Some(1);
      case _ => movement := None;
    }
    q := p + 1;
  }

  /** `parse_line` on the buffer of a line. */
  method ParseLine(line: array<char>, len: nat) returns (t: Option<Transition>)
    requires len <= line.Length && REACH <= line.Length
    ensures t == Parse(line[..len])
  {
    hide StateSpan, Length, Movement, Parse;
    var current, p := ReadState(line, 1);
    assert p == NextAt(line[..]) - 5 && line[1..p - 1] == line[..][1..p - 1];
    var read := line[p];
    p := p + 1 + 4;
    var next, q := ReadState(line, p);
    assert q == WriteAt(line[..]) && line[p..q - 1] == line[..][p..q - 1];
    var write := line[q];
    q := q + 1 + 1;
    var movement, r := ParseMovement(line, q);
    ParseOfBuffer(line[..], len);
    if movement.None? || r > len {
      t := None;
    } else {
      t := Some(Transition(CString(current[..]), CString(next[..]), movement.value, read, write));
    }
  }

  lemma ParseOfBuffer(buf: string, len: nat)
    requires len <= |buf| && REACH <= |buf|
    ensures Parse(buf[..len]) == ParseBuffer(buf, len)
  {
    PaddingIrrelevant(buf, buf[..len] + Padding(), len);
  }

  /** One round of `get_transitions`; `inside` as for the line. */
  method NextTransition(file: TextFile) returns (t: Option<Transition>, inside: bool)
    requires file.Valid()
    modifies file`pos
    ensures file.Valid() && (inside <==> LineEnd(file.text, old(file.pos)) - old(file.pos) <= LINE_LENGTH)
    ensures inside ==>
      && file.pos == NextLine(file.text, old(file.pos))
      && t == Parse(CString(file.text[old(file.pos)..LineEnd(file.text, old(file.pos))]))
  {
    hide Parse, LineEnd, NextLine;
    ghost var pos := file.pos;
    var line, n;
    line, n, inside := file.ReadLine(LINE_LENGTH);
    if !inside {
      return None, false;
    }
    assert line[..][n] == NUL;
    var len := StrLen(line);
    CStringOf(line[..], file.text[pos..LineEnd(file.text, pos)]);
    t := ParseLine(line, len);
  }

  /** `get_transitions`. */
  method GetTransitions(file: TextFile, count: nat) returns (r: Option<seq<Transition>>, inside: bool)
    requires file.Valid()
    modifies file`pos
    ensures file.Valid() && (inside <==> LinesFit(file.text, old(file.pos), count))
    ensures inside ==> r == LoadTransitions(file.text, old(file.pos), count)
  {
    hide Parse, LineEnd, NextLine, CString;
    var transitions: seq<Transition> := [];
    ghost var all := LoadTransitions(file.text, file.pos, count);
    assert all.Some? ==> transitions + all.value == all.value;
    var i := 0;
    while i < count
      invariant 0 <= i <= count && file.Valid()
      invariant LinesFit(file.text, old(file.pos), count) <==> LinesFit(file.text, file.pos, count - i)
      invariant LoadTransitions(file.text, old(file.pos), count)
             == Prepended(transitions, LoadTransitions(file.text, file.pos, count - i))
    {
      var t;
      t, inside := NextTransition(file);
      if !inside || t.None? {
        return None, inside;
      }
      ghost var tail := LoadTransitions(file.text, file.pos, count - i - 1);
      assert tail.Some? ==> transitions + ([t.value] + tail.value) == transitions + [t.value] + tail.value;
      transitions := transitions + [t.value];
      i := i + 1;
    }
    assert transitions + [] == transitions;
    r, inside := Some(transitions), true;
  }

  /** The name of a state, read at the start of `execute`. */
  method ReadName(file: TextFile) returns (name: string, inside: bool)
    requires file.Valid()
    modifies file`pos
    ensures file.Valid() && (inside <==> LineEnd(file.text, old(file.pos)) - old(file.pos) <= STATE_LENGTH)
    ensures inside ==>
      && file.pos == NextLine(file.text, old(file.pos))
      && name == CString(file.text[old(file.pos)..LineEnd(file.text, old(file.pos))])
  {
    hide LineEnd, NextLine, CString;
    ghost var pos := file.pos;
    var buf, n;
    buf, n, inside := file.ReadLine(STATE_LENGTH);
    if !inside {
      return "", false;
    }
    CStringOf(buf[..], file.text[pos..LineEnd(file.text, pos)]);
    name := CString(buf[..]);
  }

  /** The loading part of `execute`, on a file just opened: it stays inside its buffers exactly when no line that it
      reads is too long, and then loads what the text says. */
  method LoadMachine(file: TextFile) returns (m: Option<Machine>, inside: bool)
    requires file.pos == 0
    modifies file`pos
    ensures inside <==> Fits(file.text)
    ensures inside ==> m == Load(file.text)
  {
    hide LoadTransitions, LineEnd, NextLine, LineCount, LinesFit, CString;
    var count := file.NoOfLines();
    var initial, initialInside := ReadName(file);
    if !initialInside {
      return None, false;
    }
    var accept, acceptInside := ReadName(file);
    if !acceptInside {
      return None, false;
    }
    var reject, rejectInside := ReadName(file);
    if !rejectInside {
      return None, false;
    }
    assert file.text[..LineEnd(file.text, 0)] == file.text[0..LineEnd(file.text, 0)];
    if count < 3 {
      return None, true;
    }
    var ts;
    ts, inside := GetTransitions(file, count - 3);
    match ts {
      case None => m := None;
      case Some(transitions) => m := Some(Machine(initial, accept, reject, transitions));
    }
  }

  // ---------------------------------------------------------------- a printed machine fits

  lemma {:induction false} PrintedLinesFit(text: string, pos: nat, ts: seq<Transition>, final: bool)
    requires pos <= |text| && text[pos..] == Body(PrintAll(ts), final)
    requires forall i :: 0 <= i < |ts| ==> GoodTransition(ts[i])
    ensures LinesFit(text, pos, |ts|)
    decreases |ts|
  {
    hide Body, PrintTransition, LineEnd, NextLine, CString, GoodTransition;
    if ts != [] {
      PrintedAllGood(ts);
      ReadBody(text, pos, PrintAll(ts), final);
      PrintedIsLine(ts[0]);
      assert PrintAll(ts)[1..] == PrintAll(ts[1..]);
      PrintedLinesFit(text, NextLine(text, pos), ts[1..], final);
      assert |ts[1..]| == |ts| - 1;
    }
  }

  /** The printed form of a machine can be read by the loops above, and they give the machine back. */
  lemma PrintedFits(m: Machine, final: bool)
    requires GoodMachine(m)
    ensures Fits(Print(m, final)) && Load(Print(m, final)) == Some(m)
  {
    hide PrintTransition, LineEnd, NextLine, CString, GoodTransition, LinesFit, PrintAll, LineCount, Body;
    hide Load, Print, LoadTransitions;
    LoaderRoundTrip(m, final);
    var text := Print(m, final);
    var r := PrintedHeader(m, final, text);
    PrintedLinesFit(text, r, m.transitions, final);
  }
}
