/** The shell of tp1: one pass over a list of commands with a skip flag means what the grouped list means. */
module ShellRun {
  datatype Op = Terminator | Separator | And | Or | Pipe

  datatype Command = Command(args: seq<string>, op: Op)

  const EXECUTION_FAILED := -1
  const EXECUTION_SUCCESS := 1
  const EXECUTION_REQUEST_EXIT := 0

  /** Where a command reads from: the input of the shell, or the pipe that a command of the list was given. */
  datatype Input = Standard | FromCommand(index: nat)

  /** How an attempt to run a command ends. NoProcess: no process could be made for it. */
  datatype Outcome = Success | Failure | NoProcess

  datatype Attempt = Attempt(index: nat, input: Input, outcome: Outcome)

  /** The world: what becomes of a command, given all that was run before and where it reads from. */
  type Oracle = (seq<Attempt>, Command, Input) -> Outcome

  /** What was run so far, the last status, the pipe to read next, and whether `exit` was met. */
  datatype Run = Run(trace: seq<Attempt>, succeeded: bool, pipe: Input, exited: bool)

  const START := Run([], true, Standard, false)

  ghost predicate Runnable(cmds: seq<Command>) {
    forall i :: 0 <= i < |cmds| ==> cmds[i].args != []
  }

  predicate AfterPipe(cmds: seq<Command>, i: nat)
    requires i < |cmds|
  {
    i > 0 && cmds[i - 1].op == Pipe
  }

  /** Command i is run, or ends the shell. */
  function Executed(cmds: seq<Command>, i: nat, world: Oracle, run: Run): Run
    requires i < |cmds| && cmds[i].args != []
  {
    if cmds[i].args[0] == "exit" then run.(exited := true)
    else
      var input := if AfterPipe(cmds, i) then run.pipe else Standard;
      var outcome := world(run.trace, cmds[i], input);
      Run(run.trace + [Attempt(i, input, outcome)], outcome == Success,
          if outcome == NoProcess then run.pipe else FromCommand(i), false)
  }

  // ---------------------------------------------------------------- the grouped meaning

  /** Pipelines are ranges of the list; the other operators group to the left. */
  datatype Expr =
    | Pipeline(from: nat, end: nat)
    | Conjunction(left: Expr, from: nat, end: nat)
    | Disjunction(left: Expr, from: nat, end: nat)
    | Sequence(left: Expr, from: nat, end: nat)

  ghost predicate Within(e: Expr, n: nat) {
    e.from <= e.end <= n && (!e.Pipeline? ==> Within(e.left, n))
  }

  /** All the commands of a range, one after the other. */
  function RunPipeline(cmds: seq<Command>, from: nat, end: nat, world: Oracle, run: Run): Run
    requires from <= end <= |cmds| && (forall i :: 0 <= i < |cmds| ==> cmds[i].args != [])
    decreases end - from
  {
    if from == end || run.exited then run
    else RunPipeline(cmds, from + 1, end, world, Executed(cmds, from, world, run))
  }

  ghost function Eval(cmds: seq<Command>, e: Expr, world: Oracle): Run
    requires Runnable(cmds) && Within(e, |cmds|)
  {
    match e
    case Pipeline(from, end) => RunPipeline(cmds, from, end, world, START)
    case Conjunction(left, from, end) =>
      var r := Eval(cmds, left, world);
      if r.succeeded then RunPipeline(cmds, from, end, world, r) else r
    case Disjunction(left, from, end) =>
      var r := Eval(cmds, left, world);
      if r.succeeded then r else RunPipeline(cmds, from, end, world, r)
    case Sequence(left, from, end) => RunPipeline(cmds, from, end, world, Eval(cmds, left, world))
  }

  /** An operator that does not end a pipeline. Inside a list only `|` is one: a terminator ends a list. */
  predicate Continues(op: Op) {
    op == Pipe || op == Terminator
  }

  /** The end of the pipeline that starts at i. */
  function PipelineEnd(cmds: seq<Command>, i: nat): (e: nat)
    requires i < |cmds|
    ensures i < e <= |cmds|
    ensures forall k :: i <= k < e - 1 ==> Continues(cmds[k].op)
    ensures e < |cmds| ==> !Continues(cmds[e - 1].op)
    decreases |cmds| - i
  {
    if i + 1 == |cmds| || !Continues(cmds[i].op) then i + 1 else PipelineEnd(cmds, i + 1)
  }

  function Joined(left: Expr, op: Op, from: nat, end: nat): Expr {
    match op
    case And => Conjunction(left, from, end)
    case Or => Disjunction(left, from, end)
    case _ => Sequence(left, from, end)
  }

  /** The rest of the list, from i on, joined to what stands before it. */
  function Extended(cmds: seq<Command>, left: Expr, i: nat): Expr
    requires 0 < i <= |cmds|
    decreases |cmds| - i
  {
    if i == |cmds| then left
    else
      var e := PipelineEnd(cmds, i);
      Extended(cmds, Joined(left, cmds[i - 1].op, i, e), e)
  }

  /** The list as an expression: pipelines first, then `&&`, `||` and `;` from left to right. */
  function Grouped(cmds: seq<Command>): Expr
    requires cmds != []
  {
    var e := PipelineEnd(cmds, 0);
    Extended(cmds, Pipeline(0, e), e)
  }

  lemma {:induction false} ExtendedWithin(cmds: seq<Command>, left: Expr, i: nat)
    requires 0 < i <= |cmds| && Within(left, |cmds|)
    ensures Within(Extended(cmds, left, i), |cmds|)
    decreases |cmds| - i
  {
    if i < |cmds| {
      var e := PipelineEnd(cmds, i);
      ExtendedWithin(cmds, Joined(left, cmds[i - 1].op, i, e), e);
    }
  }

  ghost function Meaning(cmds: seq<Command>, world: Oracle): Run
    requires Runnable(cmds) && cmds != []
  {
    ExtendedWithin(cmds, Pipeline(0, PipelineEnd(cmds, 0)), PipelineEnd(cmds, 0));
    Eval(cmds, Grouped(cmds), world)
  }

  // ---------------------------------------------------------------- the single pass

  function IsSkippedOp(op: Op): bool {
    !(op == And || op == Or || op == Separator)
  }

  /** What a round of the loop does with its command. */
  datatype Choice = Skip | StaySkipping | Go

  function Choose(previous: Op, succeeded: bool, skipping: bool): Choice {
    if (previous == And && !succeeded) || (previous == Or && succeeded) then Skip
    else if skipping && IsSkippedOp(previous) then StaySkipping
    else Go
  }

  /** The loop from command i on. */
  ghost function Loop(cmds: seq<Command>, i: nat, previous: Op, skipping: bool, world: Oracle, run: Run): Run
    requires Runnable(cmds) && i <= |cmds|
    decreases |cmds| - i
  {
    if i == |cmds| || run.exited then run
    else
      var choice := Choose(previous, run.succeeded, skipping);
      Loop(cmds, i + 1, cmds[i].op, !choice.Go?, world, if choice.Go? then Executed(cmds, i, world, run) else run)
  }

  lemma {:induction false} LoopSkips(cmds: seq<Command>, i: nat, e: nat, previous: Op, world: Oracle, run: Run)
    requires Runnable(cmds) && i < e <= |cmds|
    requires Choose(previous, run.succeeded, true) != Go
    requires forall k :: i <= k < e - 1 ==> Continues(cmds[k].op)
    ensures Loop(cmds, i, previous, true, world, run) == Loop(cmds, e, cmds[e - 1].op, true, world, run)
    decreases e - i
  {
    if i + 1 < e {
      LoopSkips(cmds, i + 1, e, cmds[i].op, world, run);
    }
  }

  lemma {:induction false} LoopRuns(cmds: seq<Command>, i: nat, e: nat, previous: Op, skipping: bool, world: Oracle,
                                    run: Run)
    requires Runnable(cmds) && i < e <= |cmds|
    requires Choose(previous, run.succeeded, skipping) == Go
    requires forall k :: i <= k < e - 1 ==> Continues(cmds[k].op)
    ensures Loop(cmds, i, previous, skipping, world, run)
         == Loop(cmds, e, cmds[e - 1].op, false, world, RunPipeline(cmds, i, e, world, run))
    decreases e - i
  {
    hide Executed;
    if run.exited {
    } else if i + 1 < e {
      LoopRuns(cmds, i + 1, e, cmds[i].op, false, world, Executed(cmds, i, world, run));
    } else {
      var next := Executed(cmds, i, world, run);
      assert RunPipeline(cmds, i, e, world, run) == RunPipeline(cmds, e, e, world, next) == next;
    }
  }

  /** From the start of a pipeline on, the loop computes what the rest of the list adds to what stands before. */
  lemma {:induction false} LoopIsExtended(cmds: seq<Command>, left: Expr, i: nat, skipping: bool, world: Oracle)
    requires Runnable(cmds) && 0 < i <= |cmds| && Within(left, |cmds|)
    requires i < |cmds| ==> !Continues(cmds[i - 1].op)
    ensures Within(Extended(cmds, left, i), |cmds|)
    ensures Loop(cmds, i, cmds[i - 1].op, skipping, world, Eval(cmds, left, world))
         == Eval(cmds, Extended(cmds, left, i), world)
    decreases |cmds| - i
  {
    hide Executed, RunPipeline;
    ExtendedWithin(cmds, left, i);
    if i < |cmds| {
      var e, previous, run := PipelineEnd(cmds, i), cmds[i - 1].op, Eval(cmds, left, world);
      var joined := Joined(left, previous, i, e);
      if Choose(previous, run.succeeded, skipping) == Go {
        LoopRuns(cmds, i, e, previous, skipping, world, run);
        assert Eval(cmds, joined, world) == RunPipeline(cmds, i, e, world, run);
        LoopIsExtended(cmds, joined, e, false, world);
      } else {
        LoopIgnoresFlag(cmds, i, previous, skipping, world, run);
        LoopSkips(cmds, i, e, previous, world, run);
        assert Eval(cmds, joined, world) == run;
        LoopIsExtended(cmds, joined, e, true, world);
      }
    }
  }

  /** After `&&`, `||` and `;` the flag does not matter. */
  lemma LoopIgnoresFlag(cmds: seq<Command>, i: nat, previous: Op, skipping: bool, world: Oracle, run: Run)
    requires Runnable(cmds) && i <= |cmds| && !Continues(previous)
    ensures Loop(cmds, i, previous, skipping, world, run) == Loop(cmds, i, previous, true, world, run)
  {
    hide Executed;
    assert Choose(previous, run.succeeded, skipping) == Choose(previous, run.succeeded, true);
  }

  /** The single pass runs the same commands in the same order, with the same inputs and the same last status, as
      the grouped list, whatever the commands do. */
  lemma PassMeansGrouped(cmds: seq<Command>, world: Oracle)
    requires Runnable(cmds) && cmds != []
    ensures Loop(cmds, 0, Terminator, false, world, START) == Meaning(cmds, world)
  {
    hide Executed, RunPipeline, Loop;
    var e := PipelineEnd(cmds, 0);
    LoopRuns(cmds, 0, e, Terminator, false, world, START);
    LoopIsExtended(cmds, Pipeline(0, e), e, false, world);
  }

  /** What `sh_run` returns after a run. */
  function Returned(run: Run): int {
    if run.exited then EXECUTION_REQUEST_EXIT else EXECUTION_SUCCESS
  }

  // ---------------------------------------------------------------- which commands are run, and how each ends

  ghost predicate Attempted(trace: seq<Attempt>, i: nat) {
    exists k :: 0 <= k < |trace| && trace[k].index == i
  }

  /** The last command that was run before command i succeeded. */
  ghost predicate SucceededBefore(trace: seq<Attempt>, i: nat) {
    trace != [] &&
    var last := trace[|trace| - 1];
    if last.index < i then last.outcome == Success else SucceededBefore(trace[..|trace| - 1], i)
  }

  /** Command i is to be run: the first one, one after `;`, one after `&&` or `||` that the status before it calls
      for, and one after a pipe whose left neighbour was run. */
  ghost predicate Due(cmds: seq<Command>, trace: seq<Attempt>, i: nat)
    requires i < |cmds|
  {
    i == 0 ||
    match cmds[i - 1].op
    case Separator => true
    case And => SucceededBefore(trace, i)
    case Or => !SucceededBefore(trace, i)
    case _ => Attempted(trace, i - 1)
  }

  /** Attempt k of the trace is one of a command of the list that is not `exit`, behind the ones before it; it reads
      the last pipe if it stands after one, and ends as the world has it for this command there. */
  ghost predicate Answered(cmds: seq<Command>, world: Oracle, trace: seq<Attempt>, k: nat)
    requires Runnable(cmds) && k < |trace|
  {
    var a := trace[k];
    && a.index < |cmds| && cmds[a.index].args[0] != "exit" && (k > 0 ==> trace[k - 1].index < a.index)
    && a.input == (if AfterPipe(cmds, a.index) then LastPipe(trace[..k]) else Standard)
    && a.outcome == world(trace[..k], cmds[a.index], a.input)
  }

  /** The trace holds the commands among the first n that are to be run, and those only. */
  ghost predicate Obeys(cmds: seq<Command>, world: Oracle, trace: seq<Attempt>, n: nat)
    requires Runnable(cmds) && n <= |cmds|
  {
    && (forall k :: 0 <= k < |trace| ==> Answered(cmds, world, trace, k) && trace[k].index < n)
    && forall i :: 0 <= i < n ==> (Attempted(trace, i) <==> Due(cmds, trace, i))
  }

  /** What a shell does with the list: it goes through it, or up to the first `exit` that is to be run. */
  ghost predicate Behaves(cmds: seq<Command>, world: Oracle, trace: seq<Attempt>, exited: bool)
    requires Runnable(cmds)
  {
    if exited
    then exists x: nat :: x < |cmds| && Obeys(cmds, world, trace, x) && Due(cmds, trace, x) && cmds[x].args[0] == "exit"
    else Obeys(cmds, world, trace, |cmds|)
  }

  /** What is said of command j does not change by an attempt at a later one. */
  lemma LaterAttempt(cmds: seq<Command>, trace: seq<Attempt>, a: Attempt, j: nat)
    requires j <= a.index
    ensures SucceededBefore(trace + [a], j) == SucceededBefore(trace, j)
    ensures j < |cmds| ==> Due(cmds, trace + [a], j) == Due(cmds, trace, j)
    ensures j < a.index ==> Attempted(trace + [a], j) == Attempted(trace, j)
    ensures Attempted(trace + [a], a.index)
  {
    var more := trace + [a];
    assert more[..|more| - 1] == trace && more[|trace|] == a;
    assert forall k :: 0 <= k < |trace| ==> more[k] == trace[k];
  }

  lemma {:induction false} ObeysMore(cmds: seq<Command>, world: Oracle, trace: seq<Attempt>, a: Attempt, i: nat)
    requires Runnable(cmds) && i < |cmds| && Obeys(cmds, world, trace, i) && Due(cmds, trace, i)
    requires a.index == i && cmds[i].args[0] != "exit"
    requires a.input == if AfterPipe(cmds, i) then LastPipe(trace) else Standard
    requires a.outcome == world(trace, cmds[i], a.input)
    ensures Obeys(cmds, world, trace + [a], i + 1)
  {
    hide LastPipe, Due, Attempted;
    var more := trace + [a];
    assert more[..|trace|] == trace;
    forall k | 0 <= k < |more| ensures Answered(cmds, world, more, k) && more[k].index < i + 1 {
      if k < |trace| {
        assert Answered(cmds, world, trace, k);
        assert more[..k] == trace[..k];
      }
    }
    forall j | 0 <= j < i + 1 ensures Attempted(more, j) <==> Due(cmds, more, j) {
      LaterAttempt(cmds, trace, a, j);
    }
  }

  lemma {:induction false} ObeysSkip(cmds: seq<Command>, world: Oracle, trace: seq<Attempt>, i: nat)
    requires Runnable(cmds) && i < |cmds| && Obeys(cmds, world, trace, i) && !Due(cmds, trace, i)
    ensures Obeys(cmds, world, trace, i + 1)
  {
    hide LastPipe, Due;
    assert !Attempted(trace, i);
  }

  lemma {:induction false} LastIsBefore(trace: seq<Attempt>, i: nat)
    requires trace != [] && trace[|trace| - 1].index < i
    ensures SucceededBefore(trace, i) <==> trace[|trace| - 1].outcome == Success
  {
  }

  lemma {:induction false} LoopObeys(cmds: seq<Command>, i: nat, previous: Op, skipping: bool, world: Oracle, run: Run)
    requires Runnable(cmds) && i <= |cmds| && !run.exited
    requires previous == if i == 0 then Terminator else cmds[i - 1].op
    requires Obeys(cmds, world, run.trace, i) && run.pipe == LastPipe(run.trace)
    requires if i == 0 then !skipping else run.trace != [] && (skipping <==> !Attempted(run.trace, i - 1))
    requires i > 0 ==> (run.succeeded <==> SucceededBefore(run.trace, i))
    ensures var r := Loop(cmds, i, previous, skipping, world, run); Behaves(cmds, world, r.trace, r.exited)
    decreases |cmds| - i
  {
    hide Obeys, Attempted, LastPipe;
    if i < |cmds| {
      assert Choose(previous, run.succeeded, skipping).Go? <==> Due(cmds, run.trace, i);
      if Due(cmds, run.trace, i) {
        var next := Executed(cmds, i, world, run);
        if next.exited {
          assert Loop(cmds, i + 1, cmds[i].op, false, world, next) == next;
        } else {
          var a := next.trace[|run.trace|];
          assert next.trace == run.trace + [a] && next.trace[..|run.trace|] == run.trace;
          ObeysMore(cmds, world, run.trace, a, i);
          LaterAttempt(cmds, run.trace, a, i);
          LastIsBefore(next.trace, i + 1);
          PipeOf(run.trace, a);
          LoopObeys(cmds, i + 1, cmds[i].op, false, world, next);
        }
      } else {
        ObeysSkip(cmds, world, run.trace, i);
        NotYet(cmds, world, run.trace, i);
        LoopObeys(cmds, i + 1, cmds[i].op, true, world, run);
      }
    }
  }

  lemma PipeOf(trace: seq<Attempt>, a: Attempt)
    ensures LastPipe(trace + [a]) == if a.outcome != NoProcess then FromCommand(a.index) else LastPipe(trace)
  {
    assert (trace + [a])[..|trace|] == trace;
  }

  lemma NotYet(cmds: seq<Command>, world: Oracle, trace: seq<Attempt>, i: nat)
    requires Runnable(cmds) && i < |cmds| && Obeys(cmds, world, trace, i) && trace != []
    ensures !Attempted(trace, i) && (SucceededBefore(trace, i + 1) <==> SucceededBefore(trace, i))
  {
  }

  /** Every list, in every world, is run as a shell does. */
  lemma MeaningBehaves(cmds: seq<Command>, world: Oracle)
    requires Runnable(cmds) && cmds != []
    ensures Behaves(cmds, world, Meaning(cmds, world).trace, Meaning(cmds, world).exited)
  {
    hide Loop, Meaning;
    PassMeansGrouped(cmds, world);
    LoopObeys(cmds, 0, Terminator, false, world, START);
  }

  lemma AnsweredPrefix(cmds: seq<Command>, world: Oracle, trace: seq<Attempt>, m: nat, k: nat)
    requires Runnable(cmds) && k < m <= |trace| && Answered(cmds, world, trace, k)
    ensures Answered(cmds, world, trace[..m], k)
  {
    assert trace[..m][..k] == trace[..k];
  }

  /** Without its last attempt, if that is one of the last command, a trace is that of the commands before it. */
  lemma {:induction false} ObeysWithout(cmds: seq<Command>, world: Oracle, trace: seq<Attempt>, n: nat)
    requires Runnable(cmds) && 0 < n <= |cmds| && Obeys(cmds, world, trace, n)
    requires trace != [] && trace[|trace| - 1].index == n - 1
    ensures var less := trace[..|trace| - 1];
      && Obeys(cmds, world, less, n - 1)
      && forall j :: 0 <= j < n ==> (Due(cmds, trace, j) <==> Due(cmds, less, j))
    ensures Due(cmds, trace, n - 1)
  {
    hide Answered, Due, Attempted;
    var m := |trace| - 1;
    var less := trace[..m];
    assert trace == less + [trace[m]];
    forall k | 0 <= k < m ensures Answered(cmds, world, less, k) && less[k].index < n - 1 {
      AnsweredPrefix(cmds, world, trace, m, k);
      IndexBelow(cmds, world, trace, n, k);
    }
    forall j | 0 <= j < n
      ensures Due(cmds, trace, j) <==> Due(cmds, less, j)
      ensures j < n - 1 ==> (Attempted(trace, j) <==> Attempted(less, j))
    {
      LaterAttempt(cmds, less, trace[m], j);
    }
    LaterAttempt(cmds, less, trace[m], n - 1);
  }

  lemma {:induction false} ObeysSame(cmds: seq<Command>, world: Oracle, trace: seq<Attempt>, n: nat)
    requires Runnable(cmds) && 0 < n <= |cmds| && Obeys(cmds, world, trace, n)
    requires trace == [] || trace[|trace| - 1].index != n - 1
    ensures Obeys(cmds, world, trace, n - 1) && !Due(cmds, trace, n - 1)
  {
    hide Answered, Due, Attempted;
    var m := |trace| - 1;
    forall k | 0 <= k < |trace| ensures trace[k].index < n - 1 {
      if k < m { IndexBelow(cmds, world, trace, n, k); }
    }
    NotAttempted(trace, n - 1);
  }

  /** The part of a trace that is about the commands before the last one. */
  lemma ObeysLess(cmds: seq<Command>, world: Oracle, trace: seq<Attempt>, n: nat) returns (less: seq<Attempt>)
    requires Runnable(cmds) && 0 < n <= |cmds| && Obeys(cmds, world, trace, n)
    ensures Obeys(cmds, world, less, n - 1)
    ensures if !Due(cmds, less, n - 1) then trace == less
            else |trace| == |less| + 1 && trace[..|less|] == less && trace[|less|].index == n - 1
    ensures forall j :: 0 <= j < n ==> (Due(cmds, trace, j) <==> Due(cmds, less, j))
  {
    hide Obeys, Due;
    if trace != [] && trace[|trace| - 1].index == n - 1 {
      ObeysWithout(cmds, world, trace, n);
      less := trace[..|trace| - 1];
    } else {
      ObeysSame(cmds, world, trace, n);
      less := trace;
    }
  }

  lemma NotAttempted(trace: seq<Attempt>, n: nat)
    requires forall k :: 0 <= k < |trace| ==> trace[k].index < n
    ensures !Attempted(trace, n)
  {
  }

  lemma {:induction false} IndexBelow(cmds: seq<Command>, world: Oracle, trace: seq<Attempt>, n: nat, k: nat)
    requires Runnable(cmds) && n <= |cmds| && Obeys(cmds, world, trace, n) && k + 1 < |trace|
    ensures trace[k].index < trace[|trace| - 1].index
    decreases |trace| - k
  {
    hide LastPipe, Due, Attempted;
    assert Answered(cmds, world, trace, k + 1);
    if k + 2 < |trace| {
      IndexBelow(cmds, world, trace, n, k + 1);
    }
  }

  lemma ObeysNone(cmds: seq<Command>, world: Oracle, trace: seq<Attempt>)
    requires Runnable(cmds) && Obeys(cmds, world, trace, 0)
    ensures trace == []
  {
    hide Answered;
    assert trace != [] ==> trace[0].index < 0;
  }

  lemma SameAttempt(cmds: seq<Command>, world: Oracle, s: seq<Attempt>, t: seq<Attempt>, n: nat, k: nat)
    requires Runnable(cmds) && n <= |cmds| && Obeys(cmds, world, s, n) && Obeys(cmds, world, t, n)
    requires k < |s| && k < |t| && s[..k] == t[..k] && s[k].index == t[k].index
    ensures s[k] == t[k]
  {
    hide LastPipe, Due, Attempted;
    assert Answered(cmds, world, s, k) && Answered(cmds, world, t, k);
  }

  lemma {:induction false} ObeysUnique(cmds: seq<Command>, world: Oracle, s: seq<Attempt>, t: seq<Attempt>, n: nat)
    requires Runnable(cmds) && n <= |cmds| && Obeys(cmds, world, s, n) && Obeys(cmds, world, t, n)
    ensures s == t
    decreases n
  {
    hide Obeys, Due;
    if n > 0 {
      var a := ObeysLess(cmds, world, s, n);
      var b := ObeysLess(cmds, world, t, n);
      ObeysUnique(cmds, world, a, b, n - 1);
      if Due(cmds, a, n - 1) {
        SameAttempt(cmds, world, s, t, n, |a|);
        assert s == a + [s[|a|]] && t == a + [t[|a|]];
      }
    } else {
      ObeysNone(cmds, world, s);
      ObeysNone(cmds, world, t);
    }
  }

  lemma {:induction false} ObeysUpTo(cmds: seq<Command>, world: Oracle, trace: seq<Attempt>, n: nat, x: nat)
    returns (less: seq<Attempt>)
    requires Runnable(cmds) && x < n <= |cmds| && Obeys(cmds, world, trace, n)
    ensures Obeys(cmds, world, less, x) && (Due(cmds, trace, x) <==> Due(cmds, less, x))
    decreases n
  {
    hide Obeys, Due;
    less := ObeysLess(cmds, world, trace, n);
    if x < n - 1 {
      less := ObeysUpTo(cmds, world, less, n - 1, x);
    }
  }

  lemma ExitNotAttempted(cmds: seq<Command>, world: Oracle, trace: seq<Attempt>, n: nat, x: nat)
    requires Runnable(cmds) && x < n <= |cmds| && Obeys(cmds, world, trace, n) && cmds[x].args[0] == "exit"
    ensures !Due(cmds, trace, x)
  {
    hide LastPipe, Due;
  }

  /** A trace of more commands does not pass an `exit` at which another one ends. */
  lemma NoExitPassed(cmds: seq<Command>, world: Oracle, s: seq<Attempt>, x: nat, t: seq<Attempt>, n: nat)
    requires Runnable(cmds) && x < n <= |cmds| && Obeys(cmds, world, s, x) && Obeys(cmds, world, t, n)
    requires cmds[x].args[0] == "exit"
    ensures !Due(cmds, s, x)
  {
    hide Obeys, Due;
    var u := ObeysUpTo(cmds, world, t, n, x);
    ObeysUnique(cmds, world, s, u, x);
    ExitNotAttempted(cmds, world, t, n, x);
  }

  /** What a shell does with a list in a world is determined: the trace, and whether it exits. */
  lemma BehaviourUnique(cmds: seq<Command>, world: Oracle, s: seq<Attempt>, e: bool, t: seq<Attempt>, f: bool)
    requires Runnable(cmds) && Behaves(cmds, world, s, e) && Behaves(cmds, world, t, f)
    ensures s == t && e == f
  {
    hide Obeys, Due;
    var x := EndOf(cmds, world, s, e);
    var y := EndOf(cmds, world, t, f);
    if x < y {
      NoExitPassed(cmds, world, s, x, t, y);
    } else if y < x {
      NoExitPassed(cmds, world, t, y, s, x);
    } else {
      ObeysUnique(cmds, world, s, t, x);
    }
  }

  lemma EndOf(cmds: seq<Command>, world: Oracle, trace: seq<Attempt>, exited: bool) returns (n: nat)
    requires Runnable(cmds) && Behaves(cmds, world, trace, exited)
    ensures n <= |cmds| && Obeys(cmds, world, trace, n) && (exited <==> n < |cmds|)
    ensures exited ==> Due(cmds, trace, n) && cmds[n].args[0] == "exit"
  {
    hide Obeys, Due;
    n := |cmds|;
    if exited {
      n :| n < |cmds| && Obeys(cmds, world, trace, n) && Due(cmds, trace, n) && cmds[n].args[0] == "exit";
    }
  }

  /** `execute_command`: the status, the skip flag and the pipe output, and what was run. */
  method ExecuteCommand(cmds: seq<Command>, i: nat, previousOp: Op, previousResult: int, isSkipping: bool,
                        pipeOutput: Input, world: Oracle, trace: seq<Attempt>)
    returns (result: int, skipping: bool, output: Input, ran: seq<Attempt>)
    requires i < |cmds| && cmds[i].args != []
    requires previousResult in {EXECUTION_SUCCESS, EXECUTION_FAILED}
    requires previousOp == Pipe <==> AfterPipe(cmds, i)
    ensures var run := Run(trace, previousResult == EXECUTION_SUCCESS, pipeOutput, false);
      var choice := Choose(previousOp, run.succeeded, isSkipping);
      var next := if choice.Go? then Executed(cmds, i, world, run) else run;
      && skipping == !choice.Go? && output == next.pipe && ran == next.trace
      && (next.exited <==> result == EXECUTION_REQUEST_EXIT)
      && (!next.exited ==> result == if next.succeeded then EXECUTION_SUCCESS else EXECUTION_FAILED)
    ensures ran == trace || (cmds[i].args[0] != "exit" &&
                             var input := if previousOp == Pipe then pipeOutput else Standard;
                             ran == trace + [Attempt(i, input, world(trace, cmds[i], input))])
  {
    skipping, output, ran := isSkipping, pipeOutput, trace;
    if (previousOp == And && previousResult == EXECUTION_FAILED)
       || (previousOp == Or && previousResult == EXECUTION_SUCCESS) {
      skipping := true;
      return previousResult, skipping, output, ran;
    } else if isSkipping && IsSkippedOp(previousOp) {
      return previousResult, skipping, output, ran;
    } else {
      skipping := false;
    }
    if cmds[i].args[0] == "exit" {
      return EXECUTION_REQUEST_EXIT, skipping, output, ran;
    }
    var input := if previousOp == Pipe then pipeOutput else Standard;
    var outcome := world(trace, cmds[i], input);
    ran := trace + [Attempt(i, input, outcome)];
    if outcome == NoProcess {
      return EXECUTION_FAILED, skipping, output, ran;
    }
    output := FromCommand(i);
    result := if outcome == Success then EXECUTION_SUCCESS else EXECUTION_FAILED;
  }

  /** Each attempt ends as the world has it for its own command, there and then. */
  ghost predicate EachAnswered(cmds: seq<Command>, world: Oracle, trace: seq<Attempt>) {
    forall k :: 0 <= k < |trace| ==>
      trace[k].index < |cmds| && trace[k].outcome == world(trace[..k], cmds[trace[k].index], trace[k].input)
  }

  lemma BehavesAnswered(cmds: seq<Command>, world: Oracle, trace: seq<Attempt>, exited: bool)
    requires Runnable(cmds) && Behaves(cmds, world, trace, exited)
    ensures EachAnswered(cmds, world, trace)
  {
    hide Due, LastPipe;
    forall k | 0 <= k < |trace|
      ensures trace[k].index < |cmds| && trace[k].outcome == world(trace[..k], cmds[trace[k].index], trace[k].input)
    {
      assert Answered(cmds, world, trace, k);
    }
  }

  lemma LoopStep(cmds: seq<Command>, i: nat, previous: Op, skipping: bool, world: Oracle, run: Run)
    requires Runnable(cmds) && i <= |cmds|
    ensures i == |cmds| || run.exited ==> Loop(cmds, i, previous, skipping, world, run) == run
    ensures i < |cmds| && !run.exited ==>
      var choice := Choose(previous, run.succeeded, skipping);
      var next := if choice.Go? then Executed(cmds, i, world, run) else run;
      Loop(cmds, i, previous, skipping, world, run) == Loop(cmds, i + 1, cmds[i].op, !choice.Go?, world, next)
  {
    hide Executed, Choose;
  }

  lemma LoopExits(cmds: seq<Command>, i: nat, previous: Op, skipping: bool, world: Oracle, run: Run)
    requires Runnable(cmds) && i <= |cmds| && run.exited
    ensures Loop(cmds, i, previous, skipping, world, run) == run
  {
  }

  /** `sh_run`. The first command may be missing or empty. */
  method ShRun(cmds: seq<Command>, world: Oracle) returns (code: int, trace: seq<Attempt>)
    requires forall i :: 0 < i < |cmds| ==> cmds[i].args != []
    ensures cmds == [] || cmds[0].args == [] ==> code == -1 && trace == []
    ensures cmds != [] && cmds[0].args != [] ==>
      && trace == Meaning(cmds, world).trace
      && code == Returned(Meaning(cmds, world))
    ensures cmds != [] && cmds[0].args != [] ==>
      && (code == 0 || code == 1) && Behaves(cmds, world, trace, code == 0) && EachAnswered(cmds, world, trace)
  {
    if cmds == [] || cmds[0].args == [] {
      return EXECUTION_FAILED, [];
    }
    hide Meaning, Executed, Behaves, Loop, Choose, EachAnswered;
    ghost var meaning := Meaning(cmds, world);
    PassMeansGrouped(cmds, world);
    MeaningBehaves(cmds, world);
    BehavesAnswered(cmds, world, meaning.trace, meaning.exited);
    var previousOp := Terminator;
    var previousResult := EXECUTION_SUCCESS;
    var isSkipping := false;
    var pipeOutput := Standard;
    trace := [];
    var i := 0;
    while i < |cmds|
      invariant 0 <= i <= |cmds| && (previousResult == EXECUTION_SUCCESS || previousResult == EXECUTION_FAILED)
      invariant previousOp == if i == 0 then Terminator else cmds[i - 1].op
      invariant Loop(cmds, i, previousOp, isSkipping, world,
                     Run(trace, previousResult == EXECUTION_SUCCESS, pipeOutput, false)) == meaning
    {
      ghost var run := Run(trace, previousResult == EXECUTION_SUCCESS, pipeOutput, false);
      LoopStep(cmds, i, previousOp, isSkipping, world, run);
      ghost var go := Choose(previousOp, run.succeeded, isSkipping).Go?;
      ghost var next := if go then Executed(cmds, i, world, run) else run;
      previousResult, isSkipping, pipeOutput, trace :=
        ExecuteCommand(cmds, i, previousOp, previousResult, isSkipping, pipeOutput, world, trace);
      if previousResult == EXECUTION_REQUEST_EXIT {
        LoopExits(cmds, i + 1, cmds[i].op, isSkipping, world, next);
        return EXECUTION_REQUEST_EXIT, trace;
      }
      assert next == Run(trace, previousResult == EXECUTION_SUCCESS, pipeOutput, false);
      previousOp := cmds[i].op;
      i := i + 1;
    }
    LoopStep(cmds, i, previousOp, isSkipping, world,
             Run(trace, previousResult == EXECUTION_SUCCESS, pipeOutput, false));
    code := EXECUTION_SUCCESS;
  }

  // ---------------------------------------------------------------- the grouping is the only one

  ghost predicate InnerContinue(cmds: seq<Command>, from: nat, end: nat) {
    from < end <= |cmds| && forall k :: from <= k < end - 1 ==> Continues(cmds[k].op)
  }

  /** e is the first n commands of the list: every pipeline is as long as it can be, and every pipeline after the
      first is joined by the operator that stands before it to all that stands before it. */
  ghost predicate Groups(cmds: seq<Command>, e: Expr, n: nat)
    requires n <= |cmds|
    decreases e
  {
    && e.end == n && InnerContinue(cmds, e.from, n)
    && match e
       case Pipeline(_, _) => e.from == 0
       case Conjunction(left, from, _) => 0 < from && cmds[from - 1].op == And && Groups(cmds, left, from)
       case Disjunction(left, from, _) => 0 < from && cmds[from - 1].op == Or && Groups(cmds, left, from)
       case Sequence(left, from, _) => 0 < from && cmds[from - 1].op == Separator && Groups(cmds, left, from)
  }

  lemma {:induction false} ExtendedGroups(cmds: seq<Command>, left: Expr, i: nat)
    requires 0 < i <= |cmds| && Groups(cmds, left, i) && (i < |cmds| ==> !Continues(cmds[i - 1].op))
    ensures Groups(cmds, Extended(cmds, left, i), |cmds|)
    decreases |cmds| - i
  {
    if i < |cmds| {
      var e := PipelineEnd(cmds, i);
      ExtendedGroups(cmds, Joined(left, cmds[i - 1].op, i, e), e);
    }
  }

  lemma {:induction false} GroupsUnique(cmds: seq<Command>, e: Expr, f: Expr, n: nat)
    requires n <= |cmds| && Groups(cmds, e, n) && Groups(cmds, f, n)
    ensures e == f
    decreases n
  {
    assert e.from == f.from by {
      assert e.from > 0 ==> !Continues(cmds[e.from - 1].op);
      assert f.from > 0 ==> !Continues(cmds[f.from - 1].op);
    }
    if !e.Pipeline? {
      GroupsUnique(cmds, e.left, f.left, e.from);
    }
  }

  /** An expression groups the list exactly when it is the one the pass is compared with. */
  lemma GroupedIff(cmds: seq<Command>, e: Expr)
    requires cmds != []
    ensures Groups(cmds, e, |cmds|) <==> e == Grouped(cmds)
  {
    var end := PipelineEnd(cmds, 0);
    ExtendedGroups(cmds, Pipeline(0, end), end);
    hide Groups;
    if Groups(cmds, e, |cmds|) {
      GroupsUnique(cmds, e, Grouped(cmds), |cmds|);
    }
  }

  // ---------------------------------------------------------------- pipes

  /** The pipe of the last command that a process was made for. */
  function LastPipe(trace: seq<Attempt>): Input {
    if trace == [] then Standard
    else
      var a := trace[|trace| - 1];
      if a.outcome != NoProcess then FromCommand(a.index) else LastPipe(trace[..|trace| - 1])
  }

  /** A command after `|` comes right after its left neighbour was run, and reads the pipe of that neighbour
      exactly when a process was made for it; any other command reads what the shell reads. */
  ghost predicate Connected(cmds: seq<Command>, trace: seq<Attempt>, k: nat)
    requires k < |trace|
  {
    var i := trace[k].index;
    && i < |cmds| && (k > 0 ==> trace[k - 1].index < i)
    && if AfterPipe(cmds, i)
       then k > 0 && trace[k - 1].index == i - 1
         && (trace[k].input == FromCommand(i - 1) <==> trace[k - 1].outcome != NoProcess)
       else trace[k].input == Standard
  }

  ghost predicate AllConnected(cmds: seq<Command>, trace: seq<Attempt>, bound: nat) {
    forall k :: 0 <= k < |trace| ==> Connected(cmds, trace, k) && trace[k].index < bound
  }

  lemma {:induction false} LastPipeBefore(trace: seq<Attempt>, bound: nat)
    requires forall k :: 0 <= k < |trace| ==> trace[k].index < bound
    ensures LastPipe(trace).FromCommand? ==> LastPipe(trace).index < bound
  {
    if trace != [] {
      LastPipeBefore(trace[..|trace| - 1], bound);
    }
  }

  lemma ExecutedConnected(cmds: seq<Command>, i: nat, world: Oracle, run: Run)
    requires i < |cmds| && cmds[i].args != [] && !run.exited
    requires AllConnected(cmds, run.trace, i) && run.pipe == LastPipe(run.trace)
    requires AfterPipe(cmds, i) ==> run.trace != [] && run.trace[|run.trace| - 1].index == i - 1
    ensures var next := Executed(cmds, i, world, run);
      && AllConnected(cmds, next.trace, i + 1) && next.pipe == LastPipe(next.trace)
      && (!next.exited ==> next.trace != [] && next.trace[|next.trace| - 1].index == i)
  {
    var next, n := Executed(cmds, i, world, run), |run.trace|;
    hide Executed;
    if !next.exited {
      ExecutedIs(cmds, i, world, run);
      assert next.trace[..n] == run.trace;
      if AfterPipe(cmds, i) {
        var before := run.trace[..n - 1];
        forall k | 0 <= k < n - 1
          ensures before[k].index < i - 1
        {
          IndicesRise(cmds, run.trace, i, k, n - 1);
        }
        LastPipeBefore(before, i - 1);
      }
      assert forall k :: 0 <= k < n ==> Connected(cmds, run.trace, k) && next.trace[k] == run.trace[k];
      forall k | 0 <= k <= n
        ensures Connected(cmds, next.trace, k)
      {
        assert k < n ==> Connected(cmds, run.trace, k);
      }
    }
  }

  lemma ExecutedIs(cmds: seq<Command>, i: nat, world: Oracle, run: Run)
    requires i < |cmds| && cmds[i].args != [] && !run.exited && !Executed(cmds, i, world, run).exited
    ensures var next := Executed(cmds, i, world, run);
      && |next.trace| == |run.trace| + 1 && next.trace[..|run.trace|] == run.trace
      && next.trace[|run.trace|].index == i
      && next.trace[|run.trace|].input == (if AfterPipe(cmds, i) then run.pipe else Standard)
      && next.pipe == if next.trace[|run.trace|].outcome != NoProcess then FromCommand(i) else run.pipe
  {
  }

  lemma {:induction false} IndicesRise(cmds: seq<Command>, trace: seq<Attempt>, bound: nat, k: nat, m: nat)
    requires AllConnected(cmds, trace, bound) && k < m < |trace|
    ensures trace[k].index < trace[m].index
    decreases m
  {
    assert Connected(cmds, trace, m);
    if k < m - 1 {
      IndicesRise(cmds, trace, bound, k, m - 1);
    }
  }

  lemma {:induction false} LoopConnected(cmds: seq<Command>, i: nat, previous: Op, skipping: bool, world: Oracle,
                                         run: Run)
    requires Runnable(cmds) && i <= |cmds| && !run.exited
    requires previous == if i == 0 then Terminator else cmds[i - 1].op
    requires AllConnected(cmds, run.trace, i) && run.pipe == LastPipe(run.trace)
    requires i > 0 && !skipping ==> run.trace != [] && run.trace[|run.trace| - 1].index == i - 1
    ensures AllConnected(cmds, Loop(cmds, i, previous, skipping, world, run).trace, |cmds|)
    decreases |cmds| - i
  {
    hide Executed, Connected, LastPipe;
    if i < |cmds| {
      if Choose(previous, run.succeeded, skipping).Go? {
        ExecutedConnected(cmds, i, world, run);
        var next := Executed(cmds, i, world, run);
        if next.exited {
          assert Loop(cmds, i + 1, cmds[i].op, false, world, next) == next;
        } else {
          LoopConnected(cmds, i + 1, cmds[i].op, false, world, next);
        }
      } else {
        LoopConnected(cmds, i + 1, cmds[i].op, true, world, run);
      }
    }
  }

  /** Whatever the commands do, the pipes of a run connect the commands that `|` connects. */
  lemma PipesConnect(cmds: seq<Command>, world: Oracle)
    requires Runnable(cmds) && cmds != []
    ensures AllConnected(cmds, Meaning(cmds, world).trace, |cmds|)
  {
    hide Loop, Meaning;
    PassMeansGrouped(cmds, world);
    LoopConnected(cmds, 0, Terminator, false, world, START);
  }

  // ---------------------------------------------------------------- the status that is returned

  /** The status of the last command of a run: the request to exit, or how the last attempt ended. */
  function LastStatus(run: Run): int {
    if run.exited then EXECUTION_REQUEST_EXIT
    else if run.trace != [] && run.trace[|run.trace| - 1].outcome == Success then EXECUTION_SUCCESS
    else EXECUTION_FAILED
  }

  /** What is documented for `sh_run` (shell.c:99), for every behaviour of the commands. */
  ghost predicate ReturnsLast(cmds: seq<Command>)
    requires Runnable(cmds) && cmds != []
  {
    forall world: Oracle :: Returned(Meaning(cmds, world)) == LastStatus(Meaning(cmds, world))
  }

  predicate HoldsExit(cmds: seq<Command>, from: nat, end: nat)
    requires from <= end <= |cmds| && (forall i :: 0 <= i < |cmds| ==> cmds[i].args != [])
  {
    exists k :: from <= k < end && cmds[k].args[0] == "exit"
  }

  /** With which statuses a run can get past a point without meeting `exit`. */
  datatype Reach = Reach(success: bool, failure: bool)

  /** A pipeline that runs can end either way, unless it holds `exit`; one that is skipped changes nothing. */
  function Past(before: Reach, runs: Reach, exits: bool): Reach {
    var arrives := (before.success && runs.success) || (before.failure && runs.failure);
    Reach((before.success && !runs.success) || (arrives && !exits),
          (before.failure && !runs.failure) || (arrives && !exits))
  }

  /** Left to right over the pipelines. */
  function Reachable(cmds: seq<Command>, e: Expr): Reach
    requires (forall i :: 0 <= i < |cmds| ==> cmds[i].args != []) && Inside(e, |cmds|)
    decreases e
  {
    var exits := HoldsExit(cmds, e.from, e.end);
    match e
    case Pipeline(_, _) => Reach(!exits, !exits)
    case Conjunction(left, _, _) => Past(Reachable(cmds, left), Reach(true, false), exits)
    case Disjunction(left, _, _) => Past(Reachable(cmds, left), Reach(false, true), exits)
    case Sequence(left, _, _) => Past(Reachable(cmds, left), Reach(true, true), exits)
  }

  predicate Inside(e: Expr, n: nat) {
    e.from < e.end <= n && (e.Pipeline? || Inside(e.left, n))
  }

  /** The list can end failing without meeting `exit`. */
  predicate CanEndFailing(cmds: seq<Command>)
    requires cmds != [] && (forall i :: 0 <= i < |cmds| ==> cmds[i].args != [])
  {
    GroupedInside(cmds);
    Reachable(cmds, Grouped(cmds)).failure
  }

  lemma {:induction false} ExtendedInside(cmds: seq<Command>, left: Expr, i: nat)
    requires 0 < i <= |cmds| && Inside(left, |cmds|)
    ensures Inside(Extended(cmds, left, i), |cmds|)
    decreases |cmds| - i
  {
    if i < |cmds| {
      var e := PipelineEnd(cmds, i);
      ExtendedInside(cmds, Joined(left, cmds[i - 1].op, i, e), e);
    }
  }

  lemma GroupedInside(cmds: seq<Command>)
    requires cmds != []
    ensures Inside(Grouped(cmds), |cmds|) && Within(Grouped(cmds), |cmds|)
  {
    var e := PipelineEnd(cmds, 0);
    ExtendedInside(cmds, Pipeline(0, e), e);
    ExtendedWithin(cmds, Pipeline(0, e), e);
  }

  /** A pipeline exits when it holds `exit`; otherwise its status is that of its last attempt. */
  lemma {:induction false} PipelineStatus(cmds: seq<Command>, from: nat, end: nat, world: Oracle, run: Run)
    requires Runnable(cmds) && from <= end <= |cmds| && !run.exited
    ensures var r := RunPipeline(cmds, from, end, world, run);
      && (r.exited <==> HoldsExit(cmds, from, end))
      && (StatusIsLast(run) && (from < end || run.trace != []) && !r.exited ==> StatusIsLast(r) && r.trace != [])
      && (!r.exited ==> |r.trace| == |run.trace| + end - from)
    decreases end - from
  {
    if from < end {
      var next := Executed(cmds, from, world, run);
      if cmds[from].args[0] == "exit" {
        assert RunPipeline(cmds, from, end, world, run) == next;
      } else {
        PipelineStatus(cmds, from + 1, end, world, next);
        assert HoldsExit(cmds, from, end) <==> HoldsExit(cmds, from + 1, end);
      }
    }
  }

  ghost predicate StatusIsLast(run: Run) {
    run.trace != [] ==> run.succeeded == (run.trace[|run.trace| - 1].outcome == Success)
  }

  /** A run that does not exit ends with a reachable status. */
  lemma {:induction false} EndsReachable(cmds: seq<Command>, e: Expr, world: Oracle)
    requires Runnable(cmds) && Inside(e, |cmds|) && Within(e, |cmds|)
    ensures var r, reach := Eval(cmds, e, world), Reachable(cmds, e);
      !r.exited ==> StatusIsLast(r) && r.trace != [] && (if r.succeeded then reach.success else reach.failure)
    decreases e
  {
    hide RunPipeline, HoldsExit;
    if e.Pipeline? {
      PipelineStatus(cmds, e.from, e.end, world, START);
    } else {
      EndsReachable(cmds, e.left, world);
      var run := Eval(cmds, e.left, world);
      if run.exited {
        ExitedStays(cmds, e.from, e.end, world, run);
      } else {
        PipelineStatus(cmds, e.from, e.end, world, run);
      }
    }
  }

  lemma ExitedStays(cmds: seq<Command>, from: nat, end: nat, world: Oracle, run: Run)
    requires Runnable(cmds) && from <= end <= |cmds| && run.exited
    ensures RunPipeline(cmds, from, end, world, run) == run
  {
  }

  /** Commands that end as planned, in the order in which they are run. */
  ghost predicate Follows(world: Oracle, plan: seq<Outcome>) {
    forall trace: seq<Attempt>, c: Command, input: Input ::
      |trace| < |plan| ==> world(trace, c, input) == plan[|trace|]
  }

  function Planned(plan: seq<Outcome>): Oracle {
    (trace: seq<Attempt>, c: Command, input: Input) => if |trace| < |plan| then plan[|trace|] else Success
  }

  lemma FollowsPrefix(world: Oracle, plan: seq<Outcome>, more: seq<Outcome>)
    requires Follows(world, plan + more)
    ensures Follows(world, plan)
  {
    forall trace: seq<Attempt>, c: Command, input: Input | |trace| < |plan|
      ensures world(trace, c, input) == plan[|trace|]
    {
      assert (plan + more)[|trace|] == plan[|trace|];
    }
  }

  /** n outcomes of which the last is as wanted. */
  function Outcomes(n: nat, good: bool): (r: seq<Outcome>)
    requires n > 0
    ensures |r| == n && r[n - 1] == if good then Success else Failure
  {
    seq(n, _ => if good then Success else Failure)
  }

  ghost predicate EndsAsPlanned(cmds: seq<Command>, e: Expr, plan: seq<Outcome>, good: bool)
    requires Runnable(cmds) && Within(e, |cmds|)
  {
    forall world: Oracle :: Follows(world, plan) ==>
      var r := Eval(cmds, e, world);
      !r.exited && |r.trace| == |plan| && r.trace != [] && StatusIsLast(r) && r.succeeded == good
  }

  /** A pipeline without `exit` ends as planned. */
  lemma {:induction false} PipelinePlanned(cmds: seq<Command>, from: nat, end: nat, world: Oracle, run: Run,
                                           plan: seq<Outcome>)
    requires Runnable(cmds) && from < end <= |cmds| && !run.exited && !HoldsExit(cmds, from, end)
    requires Follows(world, plan) && |plan| == |run.trace| + end - from
    ensures var r := RunPipeline(cmds, from, end, world, run);
      !r.exited && |r.trace| == |plan| && r.trace[|r.trace| - 1].outcome == plan[|plan| - 1]
      && r.succeeded == (plan[|plan| - 1] == Success)
    decreases end - from
  {
    var next := Executed(cmds, from, world, run);
    assert cmds[from].args[0] != "exit";
    if from + 1 < end {
      assert !HoldsExit(cmds, from + 1, end);
      PipelinePlanned(cmds, from + 1, end, world, next, plan);
    } else {
      assert RunPipeline(cmds, from, end, world, run) == RunPipeline(cmds, end, end, world, next) == next;
    }
  }

  /** Every reachable status is reached by a plan. */
  lemma {:induction false} ReachedByPlan(cmds: seq<Command>, e: Expr, good: bool) returns (plan: seq<Outcome>)
    requires Runnable(cmds) && Inside(e, |cmds|) && Within(e, |cmds|)
    requires if good then Reachable(cmds, e).success else Reachable(cmds, e).failure
    ensures EndsAsPlanned(cmds, e, plan, good)
    decreases e
  {
    hide HoldsExit, RunPipeline, EndsAsPlanned;
    if e.Pipeline? {
      plan := PlanFirst(cmds, e, good);
    } else {
      var reach := Reachable(cmds, e.left);
      var runs := Reach(!e.Disjunction?, !e.Conjunction?);
      if if good then reach.success && !runs.success else reach.failure && !runs.failure {
        plan := ReachedByPlan(cmds, e.left, good);
        PlanSkips(cmds, e, plan, good);
      } else {
        var before := reach.success && runs.success;
        var first := ReachedByPlan(cmds, e.left, before);
        plan := PlanRuns(cmds, e, first, before, good);
      }
    }
  }

  lemma PlanFirst(cmds: seq<Command>, e: Expr, good: bool) returns (plan: seq<Outcome>)
    requires Runnable(cmds) && Inside(e, |cmds|) && Within(e, |cmds|) && e.Pipeline?
    requires !HoldsExit(cmds, e.from, e.end)
    ensures EndsAsPlanned(cmds, e, plan, good)
  {
    hide RunPipeline, Follows, HoldsExit;
    plan := Outcomes(e.end - e.from, good);
    forall world: Oracle | Follows(world, plan)
      ensures var r := Eval(cmds, e, world);
        !r.exited && |r.trace| == |plan| && r.trace != [] && StatusIsLast(r) && r.succeeded == good
    {
      PipelinePlanned(cmds, e.from, e.end, world, START, plan);
    }
  }

  lemma PlanSkips(cmds: seq<Command>, e: Expr, plan: seq<Outcome>, good: bool)
    requires Runnable(cmds) && Inside(e, |cmds|) && Within(e, |cmds|)
    requires if good then e.Disjunction? else e.Conjunction?
    requires EndsAsPlanned(cmds, e.left, plan, good)
    ensures EndsAsPlanned(cmds, e, plan, good)
  {
    hide RunPipeline, Follows;
  }

  lemma PlanRuns(cmds: seq<Command>, e: Expr, first: seq<Outcome>, before: bool, good: bool)
    returns (plan: seq<Outcome>)
    requires Runnable(cmds) && Inside(e, |cmds|) && Within(e, |cmds|) && !e.Pipeline?
    requires if before then !e.Disjunction? else !e.Conjunction?
    requires EndsAsPlanned(cmds, e.left, first, before) && !HoldsExit(cmds, e.from, e.end)
    ensures EndsAsPlanned(cmds, e, plan, good)
  {
    hide RunPipeline, Follows, HoldsExit;
    var more := Outcomes(e.end - e.from, good);
    plan := first + more;
    forall world: Oracle | Follows(world, plan)
      ensures var r := Eval(cmds, e, world);
        !r.exited && |r.trace| == |plan| && r.trace != [] && StatusIsLast(r) && r.succeeded == good
    {
      FollowsPrefix(world, first, more);
      PipelinePlanned(cmds, e.from, e.end, world, Eval(cmds, e.left, world), plan);
    }
  }

  lemma PlannedFollows(plan: seq<Outcome>)
    ensures Follows(Planned(plan), plan)
  {
  }

  /** `sh_run` returns the status of the last command, however the commands behave, exactly when the list cannot end
      failing without meeting `exit`. */
  lemma ReturnsLastIff(cmds: seq<Command>)
    requires Runnable(cmds) && cmds != []
    ensures ReturnsLast(cmds) <==> !CanEndFailing(cmds)
  {
    hide Eval, Reachable, Grouped;
    GroupedInside(cmds);
    var e := Grouped(cmds);
    if CanEndFailing(cmds) {
      var plan := ReachedByPlan(cmds, e, false);
      var world := Planned(plan);
      PlannedFollows(plan);
      assert Meaning(cmds, world) == Eval(cmds, e, world);
      assert Returned(Meaning(cmds, world)) != LastStatus(Meaning(cmds, world));
    } else {
      forall world: Oracle ensures Returned(Meaning(cmds, world)) == LastStatus(Meaning(cmds, world)) {
        EndsReachable(cmds, e, world);
      }
    }
  }

  /** One command that fails is such a list, with success returned. */
  lemma FailureNotReturned(name: string)
    requires name != "exit"
    ensures var cmds := [Command([name], Terminator)];
      var run := Meaning(cmds, (_, _, _) => Failure);
      && CanEndFailing(cmds)
      && Returned(run) == EXECUTION_SUCCESS && LastStatus(run) == EXECUTION_FAILED
  {
    var cmds := [Command([name], Terminator)];
    var world: Oracle := (_, _, _) => Failure;
    assert Grouped(cmds) == Pipeline(0, 1);
    assert RunPipeline(cmds, 0, 1, world, START) == Executed(cmds, 0, world, START);
  }
}
