/** Runs in which worker 0 does all the work: pieces of runs, put together by the scenarios and the shutdown. */
module SchedRuns {
  import opened Common
  import opened SchedLevels
  import opened SchedModel
  import opened SchedWork

  ghost predicate Can(o: Order, jobs: seq<Job>, s: State) {
    exists n :: Reached(o, jobs, s, n)
  }

  lemma CanStart(o: Order, jobs: seq<Job>)
    ensures Can(o, jobs, Start(jobs))
  {
    ReachStart(o, jobs);
  }

  lemma Go(o: Order, jobs: seq<Job>, s: State, a: Action, c: Choice, t: State)
    requires Can(o, jobs, s) && Next(o, s, a, c) == Some(t)
    ensures Can(o, jobs, t)
  {
    hide Reached, Next;
    var n :| Reached(o, jobs, s, n);
    ReachNext(o, jobs, s, n, a, c);
  }

  lemma GoWorker(o: Order, jobs: seq<Job>, s: State, w: nat, c: Choice, t: State)
    requires Can(o, jobs, s) && w < |s.workers| && WorkerNext(s, w, c) == Some(t)
    ensures Can(o, jobs, t)
  {
    hide Can, WorkerNext;
    Go(o, jobs, s, OfWorker(w), c, t);
  }

  lemma GoOs(o: Order, jobs: seq<Job>, s: State, c: Choice, t: State)
    requires Can(o, jobs, s) && OsNext(s, c) == Some(t)
    ensures Can(o, jobs, t)
  {
    hide Can, OsNext;
    Go(o, jobs, s, OfOs, c, t);
  }

  // ---------------------------------------------------------------- lists and workers

  const NO_ITEMS: seq<seq<Item>> := [[], [], [], []]

  /** One process in list l, and nothing else. */
  ghost function Only(l: nat, p: nat): (queues: seq<seq<Item>>)
    requires l < NUM_PRIORITY_LEVELS
    ensures |queues| == NUM_PRIORITY_LEVELS
  {
    NO_ITEMS[l := [Proc(p)]]
  }

  /** Worker 0 as given, the other one at rest. */
  ghost function Working(pc: WorkerPc): (workers: seq<WorkerPc>)
    ensures |workers| == OS_CORES && forall other: WorkerPc :: workers[0 := other] == [other, Scan(0)]
  {
    [pc, Scan(0)]
  }

  /** A slice of one unit, all processes are due, all measured times are zero. */
  const UNIT := Choice(1, false, true, 0)
  const NOT_DUE := Choice(1, false, false, 0)

  ghost predicate Sizes(s: State, n: nat) {
    |s.infos| == |s.procs| == |s.lengths| == n
  }

  /** The states differ in the measured lengths at most. */
  ghost predicate Same(s: State, t: State) {
    t == s.(lengths := t.lengths) && |t.lengths| == |s.lengths|
  }

  // ---------------------------------------------------------------- the worker's steps

  /** Worker 0 passes the empty levels. */
  lemma {:induction false} ScansTo(o: Order, jobs: seq<Job>, s: State, l: nat)
    requires Can(o, jobs, s) && s.workers == Working(Scan(0)) && l < |s.queues|
    requires forall k :: 0 <= k < l ==> s.queues[k] == []
    ensures Can(o, jobs, s.(workers := Working(Scan(l))))
  {
    hide Can;
    if l > 0 {
      ScansTo(o, jobs, s, l - 1);
      GoWorker(o, jobs, s.(workers := Working(Scan(l - 1))), 0, UNIT, s.(workers := Working(Scan(l))));
    } else {
      assert s.(workers := Working(Scan(0))) == s;
    }
  }

  lemma Pops(o: Order, jobs: seq<Job>, s: State, l: nat, p: nat) returns (t: State)
    requires Can(o, jobs, s) && s.workers == Working(Scan(0)) && l < NUM_PRIORITY_LEVELS && s.queues == Only(l, p)
    ensures Can(o, jobs, t) && t == s.(workers := Working(With(p, Popped)), queues := NO_ITEMS)
  {
    hide Can;
    ScansTo(o, jobs, s, l);
    t := s.(workers := Working(With(p, Popped)), queues := NO_ITEMS);
    assert Delete([Proc(p)], 0) == [];
    assert s.queues[l := Delete(s.queues[l], 0)] == NO_ITEMS;
    GoWorker(o, jobs, s.(workers := Working(Scan(l))), 0, UNIT, t);
  }

  lemma Begins(o: Order, jobs: seq<Job>, s: State, p: nat, c: Choice) returns (t: State)
    requires Can(o, jobs, s) && s.workers == Working(With(p, Popped))
    requires Sizes(s, |jobs|) && p < |jobs| && s.procs[p].lock == Free
    requires c.slice > 0 && s.infos[p].cpuIndex < |s.infos[p].remaining|
    ensures Can(o, jobs, t)
    ensures t == s.(workers := Working(With(p, Running(c.slice, s.infos[p].remaining[s.infos[p].cpuIndex]))),
                    procs := s.procs[p := s.procs[p].(lock := ByWorker(0))])
  {
    hide Can;
    var procs := s.procs[p := s.procs[p].(lock := ByWorker(0))];
    var a := s.(workers := Working(With(p, Locked)), procs := procs);
    GoWorker(o, jobs, s, 0, c, a);
    t := a.(workers := Working(With(p, Running(c.slice, s.infos[p].remaining[s.infos[p].cpuIndex]))));
    GoWorker(o, jobs, a, 0, c, t);
  }

  /** What a slice makes of the bursts. */
  ghost function SliceInfo(info: Info, slice: nat): Info
    requires info.cpuIndex < |info.remaining| && info.cpuIndex < |info.ran|
  {
    var b := info.cpuIndex;
    var left := info.remaining[b];
    var charged := info.(ran := info.ran[b := info.ran[b] + Min(slice, left)]);
    if slice < left then charged.(remaining := info.remaining[b := left - slice])
    else charged.(remaining := info.remaining[b := 0], cpuIndex := b + 1)
  }

  ghost function SliceStatus(info: Info, slice: nat): Status
    requires info.cpuIndex < |info.remaining|
  {
    if slice < info.remaining[info.cpuIndex] then RunPreempted
    else if info.cpuIndex + 1 >= |info.remaining| then RunDone else RunBlocked
  }

  /** A slice, up to the point where worker 0 has unlocked the process. */
  lemma Runs(o: Order, jobs: seq<Job>, s: State, p: nat, c: Choice) returns (t: State)
    requires Can(o, jobs, s) && Sizes(s, |jobs|) && p < |jobs| && s.procs[p].lock == ByWorker(0) && !c.again
    requires s.infos[p].cpuIndex < |s.infos[p].remaining| && s.infos[p].cpuIndex < |s.infos[p].ran|
    requires s.workers == Working(With(p, Running(c.slice, s.infos[p].remaining[s.infos[p].cpuIndex])))
    ensures Can(o, jobs, t)
    ensures var status := SliceStatus(s.infos[p], c.slice);
      Same(s.(workers := Working(With(p, Unlocked)),
              infos := s.infos[p := SliceInfo(s.infos[p], c.slice)],
              procs := s.procs[p := s.procs[p].(status := status, lock := Free)],
              done := if status.RunDone? then s.done + 1 else s.done,
              slices := s.slices + 1), t)
  {
    hide Can, Measured;
    var left := s.infos[p].remaining[s.infos[p].cpuIndex];
    var a := SliceEnds(s, 0, p, c.slice, left, c.elapsed).value;
    GoWorker(o, jobs, s, 0, c, a);
    assert a.workers == Working(With(p, Ran));
    t := a.(workers := Working(With(p, Unlocked)), procs := a.procs[p := a.procs[p].(lock := Free)]);
    assert WorkerNext(a, 0, c) == Some(t);
    GoWorker(o, jobs, a, 0, c, t);
    assert a.infos[p] == SliceInfo(s.infos[p], c.slice);
  }

  /** What a demotion or the return to the top makes of a process, and of the monitors. */
  ghost function Relevelled(d: Process): Process {
    if d.status.RunPreempted? then d.(level := Min(d.level + 1, MIN_PRIORITY_LEVEL), waitingBoost := true)
    else d.(level := MAX_PRIORITY_LEVEL)
  }

  ghost function Armed(monitors: seq<Monitor>, d: Process, p: nat): seq<Monitor> {
    if d.status.RunPreempted? && !d.waitingBoost then monitors + [Monitor(p, Asleep)] else monitors
  }

  lemma Relevels(o: Order, jobs: seq<Job>, s: State, p: nat) returns (t: State)
    requires Can(o, jobs, s) && Sizes(s, |jobs|) && p < |jobs| && s.procs[p].lock == Free
    requires s.workers == Working(With(p, Unlocked))
    ensures Can(o, jobs, t)
    ensures t == s.(workers := Working(With(p, Deciding)),
                    procs := s.procs[p := Relevelled(s.procs[p]).(lock := ByWorker(0))],
                    monitors := Armed(s.monitors, s.procs[p], p))
  {
    hide Can;
    var a := LevelUpdated(s, 0, p);
    GoWorker(o, jobs, s, 0, UNIT, a);
    assert a == s.(workers := Working(With(p, Updated)), procs := s.procs[p := Relevelled(s.procs[p])],
                   monitors := Armed(s.monitors, s.procs[p], p));
    t := a.(workers := Working(With(p, Deciding)), procs := a.procs[p := a.procs[p].(lock := ByWorker(0))]);
    GoWorker(o, jobs, a, 0, UNIT, t);
  }

  /** A preempted process goes to the list of its level. */
  lemma Requeues(o: Order, jobs: seq<Job>, s: State, p: nat) returns (t: State)
    requires Can(o, jobs, s) && Sizes(s, |jobs|) && p < |jobs| && s.procs[p].lock == ByWorker(0)
    requires s.procs[p].status.RunPreempted? && s.procs[p].level < NUM_PRIORITY_LEVELS && s.queues == NO_ITEMS
    requires s.workers == Working(With(p, Deciding))
    ensures Can(o, jobs, t)
    ensures t == s.(workers := Working(Scan(0)), procs := s.procs[p := s.procs[p].(lock := Free)],
                    queues := Only(s.procs[p].level, p))
  {
    hide Can, SortedPlace;
    var level := s.procs[p].level;
    var a := s.(workers := Working(With(p, Leaving)), queues := Only(level, p));
    assert Insert([], 0, Proc(p)) == [Proc(p)];
    GoWorker(o, jobs, s, 0, UNIT, a);
    t := a.(workers := Working(Scan(0)), procs := s.procs[p := s.procs[p].(lock := Free)]);
    GoWorker(o, jobs, a, 0, UNIT, t);
  }

  /** A process whose burst is over starts its I/O, or is done. */
  lemma Leaves(o: Order, jobs: seq<Job>, s: State, p: nat) returns (t: State)
    requires Can(o, jobs, s) && Sizes(s, |jobs|) && p < |jobs| && s.procs[p].lock == ByWorker(0)
    requires s.procs[p].status.RunBlocked? || s.procs[p].status.RunDone?
    requires s.workers == Working(With(p, Deciding))
    ensures Can(o, jobs, t)
    ensures Same(s.(workers := Working(Scan(0)), procs := s.procs[p := s.procs[p].(lock := Free)],
                    infos := if s.procs[p].status.RunDone? then s.infos
                             else s.infos[p := s.infos[p].(isWaiting := true, ioIndex := s.infos[p].ioIndex + 1)]), t)
  {
    hide Can;
    var a := Decided(s, 0, p).value;
    GoWorker(o, jobs, s, 0, UNIT, a);
    t := Released(a, 0, p, 0);
    GoWorker(o, jobs, a, 0, UNIT, t);
  }

  // ---------------------------------------------------------------- a whole turn of a process

  /** Process p waits in list l and nothing else does, the workers are at rest, the mutex is free, and its burst has
      so much left. */
  ghost predicate Waits(s: State, n: nat, l: nat, p: nat, left: nat) {
    && Sizes(s, n) && p < n && l < NUM_PRIORITY_LEVELS && s.queues == Only(l, p) && s.workers == Working(Scan(0))
    && s.procs[p].lock == Free
    && s.infos[p].cpuIndex < |s.infos[p].remaining| == |s.infos[p].ran|
    && s.infos[p].remaining[s.infos[p].cpuIndex] == left
  }

  /** From its list to the decision. */
  lemma Turn(o: Order, jobs: seq<Job>, s: State, l: nat, p: nat, left: nat, c: Choice) returns (t: State)
    requires Can(o, jobs, s) && Waits(s, |jobs|, l, p, left) && c.slice > 0 && !c.again
    ensures Can(o, jobs, t)
    ensures var d := s.procs[p].(status := SliceStatus(s.infos[p], c.slice));
      Same(s.(workers := Working(With(p, Deciding)), queues := NO_ITEMS,
              infos := s.infos[p := SliceInfo(s.infos[p], c.slice)],
              procs := s.procs[p := Relevelled(d).(lock := ByWorker(0))],
              monitors := Armed(s.monitors, d, p),
              done := if d.status.RunDone? then s.done + 1 else s.done,
              slices := s.slices + 1), t)
  {
    hide Can, SliceInfo, SliceStatus, Only;
    var a := Pops(o, jobs, s, l, p);
    var b := Begins(o, jobs, a, p, c);
    var d := Runs(o, jobs, b, p, c);
    t := Relevels(o, jobs, d, p);
  }

  /** A slice of one unit, when more is left: one level down, and a monitor if none is waiting. */
  lemma Preempted(o: Order, jobs: seq<Job>, s: State, l: nat, p: nat, left: nat) returns (t: State)
    requires Can(o, jobs, s) && Waits(s, |jobs|, l, p, left) && left > 1 && s.procs[p].level == l
    ensures Can(o, jobs, t) && Waits(t, |jobs|, Min(l + 1, MIN_PRIORITY_LEVEL), p, left - 1)
    ensures t.procs == s.procs[p := Process(Min(l + 1, MIN_PRIORITY_LEVEL), RunPreempted, true, Free)]
    ensures t.monitors == if s.procs[p].waitingBoost then s.monitors else s.monitors + [Monitor(p, Asleep)]
    ensures t.os == s.os && t.done == s.done
    ensures t.infos == s.infos[p := SliceInfo(s.infos[p], 1)]
  {
    hide Can, Only;
    var a := Turn(o, jobs, s, l, p, left, UNIT);
    t := Requeues(o, jobs, a, p);
  }

  /** A slice as long as what is left: the burst is over, and the process is in I/O or done. */
  lemma Completed(o: Order, jobs: seq<Job>, s: State, l: nat, p: nat, left: nat) returns (t: State)
    requires Can(o, jobs, s) && Waits(s, |jobs|, l, p, left)
    ensures Can(o, jobs, t) && Sizes(t, |jobs|) && t.workers == Working(Scan(0)) && t.queues == NO_ITEMS
    ensures t.os == s.os && t.monitors == s.monitors
    ensures t.infos == s.infos[p := t.infos[p]]
    ensures t.infos[p].cpuIndex == s.infos[p].cpuIndex + 1
    ensures t.infos[p].remaining == s.infos[p].remaining[s.infos[p].cpuIndex := 0]
  {
    hide Can, Only;
    var a := Turn(o, jobs, s, l, p, left, Choice(left + 1, false, true, 0));
    t := Leaves(o, jobs, a, p);
  }

  // ---------------------------------------------------------------- the loop of the OS

  /** The OS loop passes processes that are not due. */
  lemma {:induction false} Passes(o: Order, jobs: seq<Job>, s: State, i: nat, j: nat)
    requires Can(o, jobs, s) && s.os == Check(i) && i <= j <= |s.infos|
    ensures Can(o, jobs, s.(os := Check(j)))
    decreases j - i
  {
    hide Can;
    if i < j {
      var t := s.(os := Check(i + 1));
      GoOs(o, jobs, s, NOT_DUE, t);
      Passes(o, jobs, t, i + 1, j);
    } else {
      assert s.(os := Check(j)) == s;
    }
  }

  lemma ToTop(o: Order, jobs: seq<Job>, s: State)
    requires Can(o, jobs, s) && s.os.Check? && s.os.i <= |s.infos|
    ensures Can(o, jobs, s.(os := Top))
  {
    hide Can;
    Passes(o, jobs, s, s.os.i, |s.infos|);
    GoOs(o, jobs, s.(os := Check(|s.infos|)), UNIT, s.(os := Top));
  }

  /** A process that is new or in I/O comes to the list of its level. */
  lemma Arrives(o: Order, jobs: seq<Job>, s: State, p: nat) returns (t: State)
    requires Can(o, jobs, s) && Sizes(s, |jobs|) && p < |jobs| && s.os == Top && s.done < |jobs|
    requires s.queues == NO_ITEMS && (s.infos[p].isNew || s.infos[p].isWaiting)
    requires s.procs[p].level < NUM_PRIORITY_LEVELS
    ensures Can(o, jobs, t)
    ensures var d := if s.infos[p].isNew then Process(MAX_PRIORITY_LEVEL, NotRun, false, Free) else s.procs[p];
      Same(s.(os := Check(p + 1), procs := s.procs[p := d], queues := Only(d.level, p),
              infos := s.infos[p := s.infos[p].(isNew := false, isWaiting := false)]), t)
  {
    hide Can, SortedPlace;
    GoOs(o, jobs, s, UNIT, s.(os := Check(0)));
    Passes(o, jobs, s.(os := Check(0)), 0, p);
    var a := s.(os := Check(p));
    var info := s.infos[p].(isNew := false, isWaiting := false);
    var b := a.(os := Moved(p, s.infos[p].isNew), infos := s.infos[p := info]);
    GoOs(o, jobs, a, UNIT, b);
    var d := OsNext(b, UNIT).value;
    GoOs(o, jobs, b, UNIT, d);
    assert Insert([], 0, Proc(p)) == [Proc(p)];
    t := OsNext(d, UNIT).value;
    GoOs(o, jobs, d, UNIT, t);
  }

  // ---------------------------------------------------------------- the end

  lemma SendsPills(o: Order, jobs: seq<Job>, s: State)
    requires Can(o, jobs, s) && s.os == Top && s.done >= |s.infos| && s.queues == NO_ITEMS
    ensures Can(o, jobs, s.(os := Pills(2), queues := [[], [Pill, Pill], [], []]))
  {
    hide Can;
    var a := s.(os := Pills(0));
    GoOs(o, jobs, s, UNIT, a);
    assert Insert([], 0, Pill) == [Pill] && Insert([Pill], 1, Pill) == [Pill, Pill];
    var b := s.(os := Pills(1), queues := [[], [Pill], [], []]);
    assert NO_ITEMS[1 := [Pill]] == b.queues && b.queues[1 := [Pill, Pill]] == [[], [Pill, Pill], [], []];
    GoOs(o, jobs, a, UNIT, b);
    GoOs(o, jobs, b, UNIT, s.(os := Pills(2), queues := [[], [Pill, Pill], [], []]));
  }

  /** Worker w takes the first of the pills. */
  lemma TakesPill(o: Order, jobs: seq<Job>, s: State, w: nat, pills: seq<Item>)
    requires Can(o, jobs, s) && w < |s.workers| && s.workers[w] == Scan(0) && s.queues == [[], [Pill] + pills, [], []]
    ensures Can(o, jobs, s.(workers := s.workers[w := Exited], queues := [[], pills, [], []]))
  {
    hide Can;
    var a := s.(workers := s.workers[w := Scan(1)]);
    GoWorker(o, jobs, s, w, UNIT, a);
    assert Delete([Pill] + pills, 0) == pills;
    assert s.queues[1 := pills] == [[], pills, [], []] && a.workers[w := Exited] == s.workers[w := Exited];
    GoWorker(o, jobs, a, w, UNIT, s.(workers := s.workers[w := Exited], queues := [[], pills, [], []]));
  }

  /** When all processes are done: the pills, and the join, with the monitors as they are. */
  lemma Joins(o: Order, jobs: seq<Job>, s: State) returns (t: State)
    requires Can(o, jobs, s) && s.os == Top && s.done >= |s.infos| && s.queues == NO_ITEMS
    requires s.workers == Working(Scan(0))
    ensures Can(o, jobs, t) && t.os == Joined && t.monitors == s.monitors
  {
    hide Can;
    SendsPills(o, jobs, s);
    var a := s.(os := Pills(2), queues := [[], [Pill, Pill], [], []]);
    assert [Pill] + [Pill] == [Pill, Pill] && [Pill] + [] == [Pill];
    TakesPill(o, jobs, a, 0, [Pill]);
    var b := a.(workers := Working(Exited), queues := [[], [Pill], [], []]);
    assert b == a.(workers := s.workers[0 := Exited], queues := [[], [Pill], [], []]);
    TakesPill(o, jobs, b, 1, []);
    var c := b.(workers := [Exited, Exited], queues := NO_ITEMS);
    assert c == b.(workers := b.workers[1 := Exited], queues := [[], [], [], []]);
    t := c.(os := Joined);
    GoOs(o, jobs, c, UNIT, t);
  }
}
