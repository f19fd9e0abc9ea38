/** The running mean of burst lengths that sets the quantum, kept as an integer mean and a count. */
module SchedQuantum {
  import opened Common

  const INITIAL_QUANTUM := 500
  /** 2 to the 64: `quantum` is a uint64_t and the arithmetic wraps. */
  const WORD := 0x1_0000_0000_0000_0000

  /** `queue->quantum` and `queue->quantum_counter`. */
  datatype Mean = Mean(quantum: nat, counter: int)

  const RESET := Mean(INITIAL_QUANTUM, 0)

  function Wrap(x: int): nat {
    x % WORD
  }

  /** Unsigned division. */
  function Share(x: nat, n: nat): nat
    requires n > 0
  {
    x / n
  }

  /** `add_to_quantum_average` of a process whose burst was not found yet; the count must not be -1, by which
      the code would divide. */
  function Added(m: Mean, burst: nat): Mean
    requires m.counter >= 0 && m.counter + 1 < WORD
  {
    Mean(Share(Wrap(m.quantum * m.counter + burst), m.counter + 1), m.counter + 1)
  }

  /** `remove_from_quantum_average` of a process whose burst was found. */
  function Removed(m: Mean, burst: nat): Mean
    requires 0 <= m.counter < WORD
  {
    if m.counter == 1 then RESET
    else
      Mean(Share(Wrap(m.quantum * m.counter - burst), Wrap(m.counter - 1)), m.counter - 1)
  }

  // ---------------------------------------------------------------- what the pair says about the bursts

  /** `sum` is the total of the bursts counted: the mean never exceeds it, and lags it by `sum - quantum *
      counter`, which rounding has lost. */
  ghost function Lost(m: Mean, sum: nat): int {
    sum - m.quantum * m.counter
  }

  lemma DivBounds(x: nat, d: nat)
    requires d > 0
    ensures x / d * d <= x < x / d * d + d
  {
    assert x == x / d * d + x % d;
  }

  /** An addition keeps the mean below the true one and loses at most the old count. */
  lemma AddLosesLittle(m: Mean, sum: nat, burst: nat)
    requires 0 <= m.counter && m.counter + 1 < WORD && Lost(m, sum) >= 0 && sum + burst < WORD
    ensures Added(m, burst).counter == m.counter + 1
    ensures Lost(m, sum) <= Lost(Added(m, burst), sum + burst) <= Lost(m, sum) + m.counter
  {
    var x := m.quantum * m.counter + burst;
    assert 0 <= x < WORD;
    DivBounds(x, m.counter + 1);
  }

  /** A removal keeps the mean below the true one exactly when the burst is at most quantum * counter, or is the
      only one; then it loses at most the new count less one, or nothing at all.  Otherwise the subtraction wraps
      around. */
  lemma RemoveIsSoundIff(m: Mean, sum: nat, burst: nat)
    requires 1 <= m.counter < WORD && Lost(m, sum) >= 0 && burst <= sum && sum + m.counter < WORD
    ensures Lost(Removed(m, burst), sum - burst) >= 0 <==> m.counter == 1 || burst <= m.quantum * m.counter
    ensures m.counter == 1 ==> Removed(m, burst) == Mean(500, 0) && Lost(Removed(m, burst), sum - burst) == sum - burst
    ensures m.counter > 1 ==>
      var x := m.quantum * m.counter - burst + if burst > m.quantum * m.counter then 0x1_0000_0000_0000_0000 else 0;
      var r := Removed(m, burst);
      r.counter == m.counter - 1 && r.quantum * r.counter <= x < r.quantum * r.counter + r.counter
    ensures m.counter > 1 && burst <= m.quantum * m.counter ==>
      Lost(m, sum) <= Lost(Removed(m, burst), sum - burst) <= Lost(m, sum) + m.counter - 2
  {
    if m.counter > 1 {
      var d, c := m.counter - 1, m.quantum * m.counter;
      WrapIs(c - burst);
      WrapIs(d);
      DivBounds(Wrap(c - burst), d);
      assert Removed(m, burst) == Mean(Wrap(c - burst) / d, d);
    }
  }

  lemma WrapIs(x: int)
    requires -WORD < x < WORD
    ensures Wrap(x) == if x >= 0 then x else x + WORD
  {
  }

  function AddedAll(bursts: seq<nat>): (m: Mean)
    requires |bursts| + 1 < WORD
    ensures m.counter == |bursts|
  {
    if bursts == [] then RESET else Added(AddedAll(bursts[..|bursts| - 1]), bursts[|bursts| - 1])
  }

  lemma Triangle(n: nat, before: int, after: int)
    requires n > 0 && 2 * before <= (n - 1) * (n - 2) && after <= before + n - 1
    ensures 2 * after <= n * (n - 1)
  {
  }

  /** After n additions from a reset, the quantum is below the true mean by at most (n - 1) / 2. */
  lemma {:induction false} MeanAfterAdditions(bursts: seq<nat>)
    requires |bursts| + 1 < WORD && Sum(bursts) < WORD
    ensures var m, n := AddedAll(bursts), |bursts|;
      m.quantum * n <= Sum(bursts) && 2 * (Sum(bursts) - m.quantum * n) <= n * (n - 1)
  {
    hide Added;
    if bursts != [] {
      var rest, n := bursts[..|bursts| - 1], |bursts|;
      var m := AddedAll(rest);
      SumSnoc(rest, bursts[n - 1]);
      assert rest + [bursts[n - 1]] == bursts;
      MeanAfterAdditions(rest);
      AddLosesLittle(m, Sum(rest), bursts[n - 1]);
      Triangle(n, Lost(m, Sum(rest)), Lost(AddedAll(bursts), Sum(bursts)));
    }
  }

  /** Bursts of 1 and 0 counted, then the first one removed: the quantum becomes the largest uint64. */
  lemma RemovalWraps()
    ensures Removed(AddedAll([1, 0]), 1) == Mean(WORD - 1, 1)
  {
    assert [1, 0][..1] == [1] && [1][..0] == [];
    assert AddedAll([1]) == Mean(1, 1);
    assert AddedAll([1, 0]) == Mean(0, 2);
  }

  // ---------------------------------------------------------------- every sequence of updates

  /** A process whose `found_burst` is set, with the burst that was counted for it. */
  datatype Counted = Counted(pid: nat, burst: nat)

  datatype Tally = Tally(mean: Mean, found: seq<Counted>)

  /** What calls the updates: a process blocks after a burst, or is done (worker.c:123-146). */
  datatype Event = Blocks(pid: nat, burst: nat) | Ends(pid: nat)

  function IndexOf(found: seq<Counted>, pid: nat): (r: int)
    ensures -1 <= r < |found|
    ensures r >= 0 ==> found[r].pid == pid
    ensures r == -1 ==> forall k :: 0 <= k < |found| ==> found[k].pid != pid
  {
    if found == [] then -1
    else if found[|found| - 1].pid == pid then |found| - 1 else IndexOf(found[..|found| - 1], pid)
  }

  function Without(found: seq<Counted>, i: nat): seq<Counted>
    requires i < |found|
  {
    found[..i] + found[i + 1..]
  }

  /** A burst is counted once, and given back, as it was counted, when its process ends: the burst length of a process
      does not change while it is found (worker.c:59-69, 100-110). */
  function Updated(t: Tally, e: Event): Tally
    requires 0 <= t.mean.counter && t.mean.counter + 1 < WORD
  {
    match e
    case Blocks(pid, burst) =>
      if IndexOf(t.found, pid) >= 0 then t else Tally(Added(t.mean, burst), t.found + [Counted(pid, burst)])
    case Ends(pid) =>
      var i := IndexOf(t.found, pid);
      if i >= 0 then Tally(Removed(t.mean, t.found[i].burst), Without(t.found, i)) else t
  }

  ghost predicate Distinct(found: seq<Counted>) {
    forall i, j :: 0 <= i < j < |found| ==> found[i].pid != found[j].pid
  }

  /** After any events the counter is the number of processes with a burst found: it is never negative, and no
      division is by zero. */
  function After(events: seq<Event>): (t: Tally)
    requires |events| + 1 < WORD
    ensures t.mean.counter == |t.found| <= |events| && Distinct(t.found)
  {
    if events == [] then Tally(RESET, [])
    else
      var t := After(events[..|events| - 1]);
      CountKept(t, events[|events| - 1]);
      Updated(t, events[|events| - 1])
  }

  lemma CountKept(t: Tally, e: Event)
    requires t.mean.counter == |t.found| && |t.found| + 1 < WORD && Distinct(t.found)
    ensures var u := Updated(t, e);
      u.mean.counter == |u.found| <= |t.found| + 1 && Distinct(u.found)
  {
    hide Wrap, Share;
    match e
    case Blocks(pid, burst) =>
    case Ends(pid) =>
      if IndexOf(t.found, pid) >= 0 {
        WithoutDistinct(t.found, IndexOf(t.found, pid));
      }
  }

  lemma WithoutDistinct(found: seq<Counted>, i: nat)
    requires i < |found| && Distinct(found)
    ensures |Without(found, i)| == |found| - 1 && Distinct(Without(found, i))
  {
    assert forall k :: 0 <= k < |found| - 1 ==> Without(found, i)[k] == found[if k < i then k else k + 1];
  }

  function Bursts(found: seq<Counted>): (r: seq<nat>)
    ensures |r| == |found| && forall k :: 0 <= k < |r| ==> r[k] == found[k].burst
  {
    seq(|found|, k requires 0 <= k < |found| => found[k].burst)
  }

  ghost function Total(found: seq<Counted>): nat {
    Sum(Bursts(found))
  }

  lemma TotalAdded(found: seq<Counted>, c: Counted)
    ensures Total(found + [c]) == Total(found) + c.burst
  {
    assert Bursts(found + [c]) == Bursts(found) + [c.burst];
    SumSnoc(Bursts(found), c.burst);
  }

  lemma {:induction false} SumConcat(a: seq<nat>, b: seq<nat>)
    ensures Sum(a + b) == Sum(a) + Sum(b)
  {
    if a == [] {
      assert a + b == b;
    } else {
      assert (a + b)[1..] == a[1..] + b;
      SumConcat(a[1..], b);
    }
  }

  lemma TotalWithout(found: seq<Counted>, i: nat)
    requires i < |found|
    ensures Total(Without(found, i)) == Total(found) - found[i].burst
  {
    var a, b := Bursts(found)[..i], Bursts(found)[i + 1..];
    assert Bursts(Without(found, i)) == a + b;
    assert Bursts(found) == a + ([found[i].burst] + b);
    SumConcat(a, b);
    SumConcat(a, [found[i].burst] + b);
  }

  /** A removal that takes away no more than the counted total of the mean, or the only burst. */
  ghost predicate Guarded(t: Tally, e: Event) {
    e.Ends? && IndexOf(t.found, e.pid) >= 0 && t.mean.counter > 1 ==>
      t.found[IndexOf(t.found, e.pid)].burst <= t.mean.quantum * t.mean.counter
  }

  /** What an event can lose: the old count for an addition, the new count less one for a removal. */
  ghost function Rounding(t: Tally, e: Event): int {
    var i := IndexOf(t.found, e.pid);
    match e
    case Blocks(_, _) => if i >= 0 then 0 else t.mean.counter
    case Ends(_) => if i >= 0 then t.mean.counter - 2 else 0
  }

  /** What all events since the last reset can have lost. */
  ghost function Allowance(events: seq<Event>): int
    requires |events| + 1 < WORD
  {
    if events == [] then 0
    else
      var t := After(events[..|events| - 1]);
      if After(events).mean.counter == 0 then 0
      else Allowance(events[..|events| - 1]) + Rounding(t, events[|events| - 1])
  }

  ghost function Burst(e: Event): nat {
    match e
    case Blocks(_, burst) => burst
    case Ends(_) => 0
  }

  /** The bursts of all events together, small enough for the arithmetic. */
  ghost function Weight(events: seq<Event>): nat {
    if events == [] then 0 else Weight(events[..|events| - 1]) + Burst(events[|events| - 1]) + 1
  }

  ghost predicate AllGuarded(events: seq<Event>)
    requires |events| + 1 < WORD
  {
    forall n {:trigger After(events[..n])} :: 0 <= n < |events| ==> Guarded(After(events[..n]), events[n])
  }

  ghost predicate NeverAbove(events: seq<Event>)
    requires |events| + 1 < WORD
  {
    forall n {:trigger After(events[..n])} :: 0 <= n <= |events| ==>
      Lost(After(events[..n]).mean, Total(After(events[..n]).found)) >= 0
  }

  /** What one event does to the loss, from a state that is not above. */
  ghost predicate Sound(t: Tally, e: Event, u: Tally) {
    && (Lost(u.mean, Total(u.found)) >= 0 <==> Guarded(t, e))
    && (Guarded(t, e) && u.mean.counter > 0 ==>
          Lost(u.mean, Total(u.found)) <= Lost(t.mean, Total(t.found)) + Rounding(t, e))
    && (Guarded(t, e) && u.mean.counter == 0 ==> Lost(u.mean, Total(u.found)) == 0)
    && u.mean.counter == |u.found| && Total(u.found) + |u.found| <= Total(t.found) + |t.found| + Burst(e) + 1
  }

  ghost predicate Fits(t: Tally, e: Event) {
    && t.mean.counter == |t.found| && Total(t.found) + |t.found| + Burst(e) + 1 < WORD
    && Lost(t.mean, Total(t.found)) >= 0
  }

  lemma StepSound(t: Tally, e: Event)
    requires Fits(t, e)
    ensures Sound(t, e, Updated(t, e))
  {
    hide Added, Removed, Total, Lost, Sound;
    var i := IndexOf(t.found, e.pid);
    if e.Blocks? && i < 0 {
      AddSound(t, e);
    } else if e.Ends? && i >= 0 {
      RemoveSound(t, e, i);
    } else {
      SkipSound(t, e);
    }
  }

  lemma SkipSound(t: Tally, e: Event)
    requires Fits(t, e) && (e.Ends? <==> IndexOf(t.found, e.pid) < 0)
    ensures Sound(t, e, t)
  {
    hide Total, Lost;
    NoneFound(t);
  }

  lemma AddSound(t: Tally, e: Event)
    requires Fits(t, e) && e.Blocks? && IndexOf(t.found, e.pid) < 0
    ensures Sound(t, e, Tally(Added(t.mean, e.burst), t.found + [Counted(e.pid, e.burst)]))
  {
    hide Added, Total, Lost;
    TotalAdded(t.found, Counted(e.pid, e.burst));
    AddLosesLittle(t.mean, Total(t.found), e.burst);
  }

  lemma RemoveSound(t: Tally, e: Event, i: nat)
    requires Fits(t, e) && e.Ends? && i == IndexOf(t.found, e.pid)
    ensures Sound(t, e, Tally(Removed(t.mean, t.found[i].burst), Without(t.found, i)))
  {
    hide Removed, Total, Lost;
    var u := Tally(Removed(t.mean, t.found[i].burst), Without(t.found, i));
    TotalWithout(t.found, i);
    RemoveIsSoundIff(t.mean, Total(t.found), t.found[i].burst);
    OnlyOne(t.found, i);
    RemovedCounter(t.mean, t.found[i].burst);
    NoneFound(u);
  }

  lemma RemovedCounter(m: Mean, burst: nat)
    requires 1 <= m.counter < WORD
    ensures Removed(m, burst).counter == m.counter - 1
  {
    hide Wrap, Share;
  }

  lemma OnlyOne(found: seq<Counted>, i: nat)
    requires i < |found|
    ensures |found| == 1 ==> Total(found) == found[i].burst
  {
    if |found| == 1 {
      assert Bursts(found) == [] + [found[0].burst];
      SumSnoc([], found[0].burst);
    }
  }

  lemma NoneFound(t: Tally)
    ensures t.mean.counter == 0 && t.found == [] ==> Lost(t.mean, Total(t.found)) == 0
  {
  }

  lemma PrefixesSnoc(events: seq<Event>)
    requires events != [] && |events| + 1 < WORD
    ensures var n := |events| - 1;
      var rest := events[..n];
      && (AllGuarded(events) <==> AllGuarded(rest) && Guarded(After(rest), events[n]))
      && (NeverAbove(events) <==>
          NeverAbove(rest) && Lost(After(events).mean, Total(After(events).found)) >= 0)
      && (NeverAbove(rest) ==> Lost(After(rest).mean, Total(After(rest).found)) >= 0)
  {
    hide After, Guarded, Lost, Total;
    var n := |events| - 1;
    var rest := events[..n];
    assert events[..n + 1] == events && rest[..n] == rest;
    assert forall k :: 0 <= k <= n ==> rest[..k] == events[..k];
    if AllGuarded(events) {
      forall k | 0 <= k < n ensures Guarded(After(rest[..k]), rest[k]) {
        assert rest[..k] == events[..k];
      }
    }
    if AllGuarded(rest) && Guarded(After(rest), events[n]) {
      forall k | 0 <= k < |events| ensures Guarded(After(events[..k]), events[k]) {
        if k < n {
          assert rest[..k] == events[..k];
        }
      }
    }
    if NeverAbove(events) {
      forall k | 0 <= k <= n ensures Lost(After(rest[..k]).mean, Total(After(rest[..k]).found)) >= 0 {
        assert rest[..k] == events[..k];
      }
    }
    if NeverAbove(rest) && Lost(After(events).mean, Total(After(events).found)) >= 0 {
      forall k | 0 <= k <= |events| ensures Lost(After(events[..k]).mean, Total(After(events[..k]).found)) >= 0 {
        if k <= n {
          assert rest[..k] == events[..k];
        }
      }
    }
  }

  /** Over any sequence of additions and removals, resets included: quantum * counter never exceeds the sum of the
      counted bursts exactly when every removal is guarded, and then it lags the sum by no more than the roundings
      since the last reset. */
  lemma {:induction false} MeanOverRunIff(events: seq<Event>)
    requires Weight(events) + 1 < WORD
    ensures |events| + 1 < WORD
    ensures NeverAbove(events) <==> AllGuarded(events)
    ensures AllGuarded(events) ==>
      0 <= Lost(After(events).mean, Total(After(events).found)) <= Allowance(events)
    ensures AllGuarded(events) ==> Total(After(events).found) + |After(events).found| <= Weight(events)
    decreases |events|
  {
    WeightLength(events);
    hide Lost, Guarded, Rounding, AllGuarded, NeverAbove, Updated, Total, After;
    if events == [] {
      StartSound(events);
    } else {
      var n := |events| - 1;
      var rest, e := events[..n], events[n];
      MeanOverRunIff(rest);
      PrefixesSnoc(events);
      if AllGuarded(rest) {
        StepSound(After(rest), e);
        AfterSnoc(events);
      }
    }
  }

  lemma {:induction false} WeightLength(events: seq<Event>)
    ensures |events| <= Weight(events)
  {
    if events != [] {
      WeightLength(events[..|events| - 1]);
    }
  }

  lemma AfterSnoc(events: seq<Event>)
    requires events != [] && |events| + 1 < WORD
    ensures After(events) == Updated(After(events[..|events| - 1]), events[|events| - 1])
  {
    hide Updated;
  }

  lemma StartSound(events: seq<Event>)
    requires events == []
    ensures AllGuarded(events) && NeverAbove(events)
    ensures Lost(After(events).mean, Total(After(events).found)) == Total(After(events).found) == 0
  {
  }

  lemma WrapNonZero(counter: int)
    requires 0 <= counter < WORD
    ensures Wrap(counter - 1) == 0 <==> counter == 1
  {
  }

  /** The two updates as they run, under the queue's mutex. */
  class ReadyQuantum {
    var quantum: nat
    var counter: int

    ghost function Abs(): Mean
      reads this
    {
      Mean(quantum, counter)
    }

    constructor ()
      ensures Abs() == RESET
    {
      quantum, counter := INITIAL_QUANTUM, 0;
    }

    method Add(foundBurst: bool, burst: nat)
      requires counter >= 0 && counter + 1 < WORD
      modifies this
      ensures Abs() == if foundBurst then old(Abs()) else Added(old(Abs()), burst)
    {
      hide Wrap, Share;
      if foundBurst {
        return;
      }
      quantum := Share(Wrap(quantum * counter + burst), counter + 1);
      counter := counter + 1;
    }

    method Remove(foundBurst: bool, burst: nat)
      requires 0 <= counter < WORD
      modifies this
      ensures Abs() == if foundBurst then Removed(old(Abs()), burst) else old(Abs())
    {
      hide Wrap, Share;
      WrapNonZero(counter);
      if !foundBurst {
        return;
      }
      if counter == 1 {
        quantum, counter := INITIAL_QUANTUM, 0;
        return;
      }
      quantum := Share(Wrap(quantum * counter - burst), Wrap(counter - 1));
      counter := counter - 1;
    }
  }
}
