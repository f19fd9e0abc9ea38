/** The Turing machine of tp0: a growing array that recentres itself simulates a tape without ends. */
module TuringMachine {
  type Move = m: int | -1 <= m <= 1

  datatype Transition = Transition(current: string, next: string, movement: Move, read: char, write: char)

  datatype Machine = Machine(initial: string, accept: string, reject: string, transitions: seq<Transition>)

  const BLANK := ' '
  const MIN_TAPE_LENGTH := 256

  // ---------------------------------------------------------------- a machine on an endless tape

  /** A state, the cell under the head, and every cell of a tape without ends. */
  datatype Config = Config(state: string, head: int, tape: int -> char)

  datatype Verdict = Running | Accepted | Rejected | Stuck

  predicate Matches(t: Transition, state: string, symbol: char) {
    t.current == state && t.read == symbol
  }

  /** The first transition from `i` on that applies, or -1. */
  function Find(ts: seq<Transition>, state: string, symbol: char, i: nat): (r: int)
    requires i <= |ts|
    ensures r == -1 || i <= r < |ts|
    ensures r >= 0 ==> Matches(ts[r], state, symbol) && forall k :: i <= k < r ==> !Matches(ts[k], state, symbol)
    ensures r == -1 ==> forall k :: i <= k < |ts| ==> !Matches(ts[k], state, symbol)
    decreases |ts| - i
  {
    if i == |ts| then -1 else if Matches(ts[i], state, symbol) then i else Find(ts, state, symbol, i + 1)
  }

  ghost function Status(m: Machine, c: Config): Verdict {
    if c.state == m.accept then Accepted
    else if c.state == m.reject then Rejected
    else if Find(m.transitions, c.state, c.tape(c.head), 0) == -1 then Stuck
    else Running
  }

  ghost function Moved(m: Machine, c: Config): Config
    requires Status(m, c).Running?
  {
    var t := m.transitions[Find(m.transitions, c.state, c.tape(c.head), 0)];
    Config(t.next, c.head + t.movement, i => if i == c.head then t.write else c.tape(i))
  }

  /** The configuration after n steps, or where the machine halted before. */
  ghost function After(m: Machine, c: Config, n: nat): Config {
    if n == 0 then c
    else
      var d := After(m, c, n - 1);
      if Status(m, d).Running? then Moved(m, d) else d
  }

  /** The input on a blank tape, the head on its first character. */
  ghost function Initial(m: Machine, input: string): Config {
    Config(m.initial, 0, i => if 0 <= i < |input| then input[i] else BLANK)
  }

  /** The first transition that applies in a state writes one character, stays in the state and moves by d. */
  ghost predicate Marching(m: Machine, state: string, symbol: char, d: Move, written: char) {
    && state != m.accept && state != m.reject
    && exists k :: 0 <= k < |m.transitions|
         && m.transitions[k] == Transition(state, state, d, symbol, written)
         && forall j :: 0 <= j < k ==> m.transitions[j].current != state || m.transitions[j].read != symbol
  }

  /** What the movements mean: a machine that goes on with the movement d, writing, is after n steps n cells further
      in that direction, and has written the n cells that it came through and no other. */
  lemma {:induction false} Marches(m: Machine, c: Config, d: Move, written: char, n: nat)
    requires d != 0 && forall i :: Passed(c.head, d, n, i) ==> Marching(m, c.state, c.tape(i), d, written)
    ensures var r := After(m, c, n);
      && r.state == c.state && r.head == (if d == 1 then c.head + n else c.head - n)
      && forall i :: r.tape(i) == if Passed(c.head, d, n, i) then written else c.tape(i)
  {
    hide Marching;
    if n > 0 {
      assert forall i :: Passed(c.head, d, n - 1, i) ==> Passed(c.head, d, n, i);
      Marches(m, c, d, written, n - 1);
      var r := After(m, c, n - 1);
      assert Passed(c.head, d, n, r.head) && r.tape(r.head) == c.tape(r.head);
      MarchStep(m, r, d, written);
    }
  }

  /** The n cells from `head` on, in the direction d. */
  ghost predicate Passed(head: int, d: Move, n: nat, i: int) {
    if d == 1 then head <= i < head + n else head - n < i <= head
  }

  lemma MarchStep(m: Machine, c: Config, d: Move, written: char)
    requires Marching(m, c.state, c.tape(c.head), d, written)
    ensures Status(m, c).Running?
    ensures var r := Moved(m, c);
      && r.state == c.state && r.head == c.head + d
      && forall i :: r.tape(i) == if i == c.head then written else c.tape(i)
  {
  }

  /** Transition k is the first one of the state and the symbol of a configuration, which is not a last one. */
  ghost predicate Applies(m: Machine, c: Config, k: nat) {
    && k < |m.transitions| && c.state != m.accept && c.state != m.reject
    && m.transitions[k].current == c.state && m.transitions[k].read == c.tape(c.head)
    && forall j :: 0 <= j < k ==> m.transitions[j].current != c.state || m.transitions[j].read != c.tape(c.head)
  }

  /** A machine takes the first transition that applies: it goes to its next state, writes under the head, and moves;
      then it goes on from there. It stays as it is when none applies. Nothing else is left to say of a run. */
  lemma {:induction false} TakesFirst(m: Machine, c: Config, n: nat)
    ensures forall k: nat :: Applies(m, c, k) ==>
      var t, d := m.transitions[k], After(m, c, 1);
      && d.state == t.next && d.head == c.head + t.movement
      && (forall i :: d.tape(i) == if i == c.head then t.write else c.tape(i))
      && After(m, c, n + 1) == After(m, d, n)
    ensures (forall k: nat :: !Applies(m, c, k)) ==> After(m, c, n) == c
  {
    hide Status, Moved;
    AppliesIff(m, c);
    assert After(m, c, 0) == c;
    if n > 0 {
      TakesFirst(m, c, n - 1);
    }
  }

  /** A transition applies exactly as long as the machine has not halted, and is the one of the next step. */
  lemma AppliesIff(m: Machine, c: Config)
    ensures Status(m, c).Running? <==> exists k: nat :: Applies(m, c, k)
    ensures forall k: nat :: Applies(m, c, k) ==>
      && Status(m, c).Running?
      && var t, d := m.transitions[k], Moved(m, c);
         && d.state == t.next && d.head == c.head + t.movement
         && forall i :: d.tape(i) == if i == c.head then t.write else c.tape(i)
    ensures Status(m, c).Accepted? <==> c.state == m.accept
    ensures Status(m, c).Rejected? <==> c.state != m.accept && c.state == m.reject
  {
    var r := Find(m.transitions, c.state, c.tape(c.head), 0);
    assert Status(m, c).Running? ==> Applies(m, c, r);
    forall k: nat | Applies(m, c, k) ensures r == k {
      assert Matches(m.transitions[k], c.state, c.tape(c.head));
    }
  }

  /** The input stands on the cells from 0 on, in order, between blanks. */
  lemma InputCells(m: Machine, input: string, i: int)
    ensures Initial(m, input).head == 0 && Initial(m, input).state == m.initial
    ensures Initial(m, input).tape(i) == if 0 <= i < |input| then input[i] else ' '
  {
  }

  // ---------------------------------------------------------------- growth

  /** A resize: the length it found, and the number of steps done by then. */
  datatype Resize = Resize(length: nat, step: nat)

  ghost function LastStep(log: seq<Resize>): nat {
    if log == [] then 0 else log[|log| - 1].step
  }

  /** Every resize of a tape of length L comes at least L / 4 steps after the one before, or the start. */
  ghost predicate Spaced(log: seq<Resize>) {
    forall k :: 0 <= k < |log| ==>
      MIN_TAPE_LENGTH <= log[k].length && LastStep(log[..k]) + log[k].length / 4 <= log[k].step
  }

  lemma NothingLogged(log: seq<Resize>)
    requires log == []
    ensures Spaced(log) && LastStep(log) == 0
  {
  }

  lemma SpacedAppend(log: seq<Resize>, r: Resize)
    requires Spaced(log) && MIN_TAPE_LENGTH <= r.length && LastStep(log) + r.length / 4 <= r.step
    ensures Spaced(log + [r])
  {
    assert (log + [r])[..|log|] == log;
    assert forall k :: 0 <= k < |log| ==> (log + [r])[..k] == log[..k];
  }

  ghost function Copied(log: seq<Resize>): nat {
    if log == [] then 0 else Copied(log[..|log| - 1]) + log[|log| - 1].length
  }

  /** All the cells ever copied number at most five per step. */
  lemma {:induction false} CopiesAreLinear(log: seq<Resize>)
    requires Spaced(log)
    ensures Copied(log) <= 5 * LastStep(log)
  {
    if log != [] {
      var rest := log[..|log| - 1];
      assert forall k :: 0 <= k < |rest| ==> log[..k] == rest[..k];
      assert Spaced(rest);
      CopiesAreLinear(rest);
    }
  }

  // ---------------------------------------------------------------- the tape in memory

  /** `memcpy2` to a place inside an array. */
  method MemCpy(dest: array<char>, at: nat, src: string)
    requires at + |src| <= dest.Length
    modifies dest
    ensures forall i :: 0 <= i < dest.Length ==>
      dest[i] == if at <= i < at + |src| then src[i - at] else old(dest[i])
  {
    for i := 0 to |src|
      invariant forall k :: 0 <= k < dest.Length ==>
        dest[k] == if at <= k < at + i then src[k - at] else old(dest[k])
    {
      dest[at + i] := src[i];
    }
  }

  class Tape {
    var cells: array<char>
    var position: int
    /** Where cell 0 of the endless tape is kept. */
    ghost var origin: int
    ghost var log: seq<Resize>

    /** The cells of the array, blanks beyond them. */
    ghost function Cell(i: int): char
      reads this, cells
    {
      if 0 <= i + origin < cells.Length then cells[i + origin] else BLANK
    }

    ghost predicate Represents(c: Config)
      reads this, cells
    {
      c.head + origin == position && forall i :: c.tape(i) == Cell(i)
    }

    ghost predicate HeadInside()
      reads this
    {
      MIN_TAPE_LENGTH <= cells.Length && 0 < position < cells.Length
    }

    /** The head is at least `L / 4 - since` cells away from both ends. */
    ghost predicate Centred(since: int)
      reads this
    {
      cells.Length / 4 - since <= position <= cells.Length - cells.Length / 4 + since
    }

    lemma SeesHead(c: Config)
      requires HeadInside() && Represents(c)
      ensures cells[position] == c.tape(c.head)
    {
      assert Cell(c.head) == cells[position];
    }

    /** The tape that `execute` builds for an input. */
    constructor (m: Machine, input: string)
      ensures HeadInside() && Centred(0) && Represents(Initial(m, input)) && log == [] && fresh(cells)
      ensures cells.Length == if |input| < 128 then 256 else 2 * |input|
    {
      var length := 2 * |input|;
      if length < MIN_TAPE_LENGTH {
        length := MIN_TAPE_LENGTH;
      }
      var tape := new char[length](_ => BLANK);
      var start := length / 2 - |input| / 2;
      MemCpy(tape, start, input);
      cells, position, origin, log := tape, start, start, [];
    }

    /** `resize_tape`: twice the length, the old cells in the middle. */
    method ResizeTape(ghost steps: nat)
      requires MIN_TAPE_LENGTH <= cells.Length && 0 <= position <= cells.Length
      modifies this
      ensures fresh(cells) && cells.Length == 2 * old(cells.Length)
      ensures forall i :: Cell(i) == old(Cell(i))
      ensures position - origin == old(position - origin)
      ensures HeadInside() && Centred(0)
      ensures log == old(log) + [Resize(old(cells.Length), steps)]
    {
      var length := cells.Length;
      var bigger := new char[2 * length](_ => BLANK);
      var offset := length / 2;
      MemCpy(bigger, offset, cells[..]);
      log := log + [Resize(length, steps)];
      cells := bigger;
      position := offset + position;
      origin := offset + origin;
    }

    /** The end of one turn of `step`: write, move, and grow the tape if the head reached an end. */
    method Apply(ghost m: Machine, ghost c: Config, t: Transition, ghost n: nat)
      requires HeadInside() && Represents(c) && Status(m, c).Running? && n > 0
      requires t == m.transitions[Find(m.transitions, c.state, c.tape(c.head), 0)]
      requires Spaced(log) && LastStep(log) < n && Centred(n - 1 - LastStep(log))
      modifies this, cells
      ensures HeadInside() && Represents(Moved(m, c))
      ensures Spaced(log) && LastStep(log) <= n && Centred(n - LastStep(log))
      ensures cells == old(cells) || fresh(cells)
    {
      cells[position] := t.write;
      position := position + t.movement;
      assert Represents(Moved(m, c));
      if position <= 0 || position >= cells.Length {
        ghost var was := log;
        assert LastStep(was) + cells.Length / 4 <= n;
        ResizeTape(n);
        SpacedAppend(was, log[|was|]);
      }
    }

    /** `step`, stopped after `limit` steps: whatever the limit, the array, the head and the state are the
        configuration of the machine on an endless tape, and so is the answer. */
    method Run(m: Machine, ghost start: Config, limit: nat) returns (verdict: Verdict, ghost n: nat)
      requires HeadInside() && Centred(0) && Represents(start) && start.state == m.initial
      requires log == []
      modifies this, cells
      ensures n <= limit && (verdict.Running? ==> n == limit)
      ensures Represents(After(m, start, n)) && verdict == Status(m, After(m, start, n))
      ensures var c := After(m, start, n);
        && (verdict.Accepted? <==> c.state == m.accept)
        && (verdict.Rejected? <==> c.state != m.accept && c.state == m.reject)
        && (verdict.Running? <==> exists k: nat :: Applies(m, c, k))
      ensures HeadInside() && Spaced(log) && LastStep(log) <= n
    {
      hide Matches, Cell, LastStep, Applies;
      NothingLogged(log);
      var state := m.initial;
      n := 0;
      var left := limit;
      while left > 0 && state != m.accept && state != m.reject
        invariant n + left == limit
        invariant HeadInside() && Represents(After(m, start, n)) && state == After(m, start, n).state
        invariant Spaced(log) && LastStep(log) <= n
        invariant Centred(n - LastStep(log))
        invariant cells == old(cells) || fresh(cells)
        decreases left
      {
        SeesHead(After(m, start, n));
        var i := FindTransition(m.transitions, state, cells[position]);
        if i == -1 {
          AppliesIff(m, After(m, start, n));
          return Stuck, n;
        }
        state := m.transitions[i].next;
        n := n + 1;
        Apply(m, After(m, start, n - 1), m.transitions[i], n);
        left := left - 1;
      }
      if state == m.accept {
        verdict := Accepted;
      } else if state == m.reject {
        verdict := Rejected;
      } else {
        SeesHead(After(m, start, n));
        var i := FindTransition(m.transitions, state, cells[position]);
        verdict := if i == -1 then Stuck else Running;
      }
      AppliesIff(m, After(m, start, n));
    }
  }

  method FindTransition(ts: seq<Transition>, state: string, symbol: char) returns (r: int)
    ensures r == Find(ts, state, symbol, 0)
  {
    for i := 0 to |ts|
      invariant forall k :: 0 <= k < i ==> !Matches(ts[k], state, symbol)
    {
      if ts[i].current == state && ts[i].read == symbol {
        return i;
      }
    }
    return -1;
  }
}
