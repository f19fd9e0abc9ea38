/** Shutdown: once every process is over, no list holds a process and none is pushed again, sorted
    insertion never meets a poison pill, and each worker takes one pill. */
module SchedShutdown {
  import opened Common
  import opened SchedLevels
  import opened SchedModel
  import opened SchedFrames
  import opened SchedInvariant

  ghost function CountFinished(infos: seq<Info>): nat {
    if infos == [] then 0
    else (if infos[0].cpuIndex >= |infos[0].remaining| then 1 else 0) + CountFinished(infos[1..])
  }

  lemma {:induction false} CountUpdate(infos: seq<Info>, i: nat, info: Info)
    requires i < |infos| && infos[i].cpuIndex < |infos[i].remaining|
    ensures CountFinished(infos[i := info]) ==
      CountFinished(infos) + if info.cpuIndex >= |info.remaining| then 1 else 0
  {
    if i > 0 {
      assert infos[i := info][1..] == infos[1..][i - 1 := info];
      CountUpdate(infos[1..], i - 1, info);
    } else {
      assert infos[0 := info][1..] == infos[1..];
    }
  }

  lemma {:induction false} CountSame(a: seq<Info>, b: seq<Info>)
    requires |a| == |b|
    requires forall p :: 0 <= p < |a| ==> a[p].cpuIndex == b[p].cpuIndex && |a[p].remaining| == |b[p].remaining|
    ensures CountFinished(a) == CountFinished(b)
  {
    if a != [] {
      CountSame(a[1..], b[1..]);
    }
  }

  lemma {:induction false} CountAll(infos: seq<Info>)
    ensures CountFinished(infos) <= |infos|
    ensures CountFinished(infos) == |infos| <==>
      forall p :: 0 <= p < |infos| ==> infos[p].cpuIndex >= |infos[p].remaining|
  {
    if infos != [] {
      CountAll(infos[1..]);
      assert forall p :: 1 <= p < |infos| ==> infos[p] == infos[1..][p - 1];
    }
  }

  ghost predicate NoPills(queues: seq<seq<Item>>) {
    forall l :: 0 <= l < |queues| ==> Pill !in queues[l]
  }

  ghost predicate NoProcs(queues: seq<seq<Item>>) {
    forall l, x :: 0 <= l < |queues| && x in queues[l] ==> x == Pill
  }

  /** Pills are in the pill list only, and `n` of them. */
  ghost predicate PillsLeft(queues: seq<seq<Item>>, n: int)
    requires |queues| == NUM_PRIORITY_LEVELS
  {
    NoProcs(queues) && |queues[PILL_LEVEL]| == n && forall l :: 0 <= l < |queues| && l != PILL_LEVEL ==> queues[l] == []
  }

  ghost function ExitedCount(workers: seq<WorkerPc>): nat
    requires |workers| == OS_CORES
  {
    (if workers[0].Exited? then 1 else 0) + if workers[1].Exited? then 1 else 0
  }

  /** Pills sent and not yet taken are in the pill list; before the loop ends there is none. */
  ghost predicate PillsOk(s: State)
    requires |s.queues| == NUM_PRIORITY_LEVELS && |s.workers| == OS_CORES
  {
    match s.os
    case Pills(k) => s.done >= |s.infos| && k <= OS_CORES && PillsLeft(s.queues, k - ExitedCount(s.workers))
    case Joined => s.done >= |s.infos| && PillsLeft(s.queues, 0) && ExitedCount(s.workers) == OS_CORES
    case _ => NoPills(s.queues) && ExitedCount(s.workers) == 0
  }

  ghost predicate Ending(s: State) {
    && |s.queues| == NUM_PRIORITY_LEVELS && |s.workers| == OS_CORES
    && s.done == CountFinished(s.infos)
    && PillsOk(s)
  }

  lemma {:induction false} StartEnding(jobs: seq<Job>)
    requires forall i :: 0 <= i < |jobs| ==> jobs[i].bursts > 0
    ensures Ending(Start(jobs))
  {
    StartCount(Start(jobs).infos);
  }

  lemma {:induction false} StartCount(infos: seq<Info>)
    requires forall p :: 0 <= p < |infos| ==> infos[p].cpuIndex < |infos[p].remaining|
    ensures CountFinished(infos) == 0
  {
    if infos != [] {
      StartCount(infos[1..]);
    }
  }

  /** When the done count is reached, every process is Finished. */
  lemma AllFinished(s: State, places: seq<Place>, p: nat)
    requires Inv(s, places) && s.done == CountFinished(s.infos) && s.done >= |s.infos| && p < |places|
    ensures Placed(s, places, p) && places[p] == Finished
  {
    CountAll(s.infos);
    assert Placed(s, places, p);
  }

  // ---------------------------------------------------------------- one step

  lemma StepDone(v: Order, s: State, places: seq<Place>, a: Action, c: Choice)
    requires Inv(s, places) && Next(v, s, a, c).Some? && s.done == CountFinished(s.infos)
    ensures var t := Next(v, s, a, c).value; t.done == CountFinished(t.infos)
  {
    hide Inv, WorkerNext, OsNext, MonitorNext;
    match a
    case OfWorker(w) =>
      if InSlice(s, w) {
        SliceDone(s, places, w, c);
      } else {
        QuietWorkerFrame(s, w, c);
        CountSame(s.infos, WorkerNext(s, w, c).value.infos);
      }
    case OfOs =>
      OsFrame(s, c);
      CountSame(s.infos, OsNext(s, c).value.infos);
    case OfMonitor(m) => MonitorFrame(v, s, m);
  }

  lemma SliceDone(s: State, places: seq<Place>, w: nat, c: Choice)
    requires Inv(s, places) && InSlice(s, w) && WorkerNext(s, w, c).Some? && s.done == CountFinished(s.infos)
    ensures var t := WorkerNext(s, w, c).value; t.done == CountFinished(t.infos)
  {
    hide LockOk, FreshIfNew, HaveRun, PlacedInQueues, PlacedAtMonitors, QueuesOk, MonitorsOk, LevelsOk, WorkerNext;
    SliceFrame(s, w, c);
    var t, p := WorkerNext(s, w, c).value, s.workers[w].pid;
    assert Placed(s, places, p);
    CountUpdate(s.infos, p, t.infos[p]);
    assert t.infos == s.infos[p := t.infos[p]];
  }

  /** When the done count is reached, no thread and no list has a process. */
  lemma NothingLeft(s: State, places: seq<Place>)
    requires Inv(s, places) && s.done == CountFinished(s.infos) && s.done >= |s.infos|
    ensures NoProcs(s.queues) && !s.os.Moved? && !s.os.Pushing?
    ensures forall w :: 0 <= w < |s.workers| && s.workers[w].With? ==>
      !WorkerHas(s.workers[w], s.procs[s.workers[w].pid], s.workers[w].pid)
    ensures forall m :: 0 <= m < |s.monitors| ==> !s.monitors[m].pc.Taken?
  {
    hide LockOk, FreshIfNew, HaveRun, WorkerHas, LevelsOk, NoDup, Placed;
    forall l, x | 0 <= l < |s.queues| && x in s.queues[l] ensures x == Pill {
      OnlyPillsQueued(s, places, l, x);
    }
    if s.os.Moved? || s.os.Pushing? {
      AllFinished(s, places, s.os.i);
      FinishedNowhereElse(s, places, s.os.i);
      assert false;
    }
    forall w | 0 <= w < |s.workers| && s.workers[w].With?
      ensures !WorkerHas(s.workers[w], s.procs[s.workers[w].pid], s.workers[w].pid)
    {
      AllFinished(s, places, s.workers[w].pid);
      FinishedNowhereElse(s, places, s.workers[w].pid);
    }
    forall m | 0 <= m < |s.monitors| ensures !s.monitors[m].pc.Taken? {
      AllFinished(s, places, s.monitors[m].pid);
      FinishedNowhereElse(s, places, s.monitors[m].pid);
    }
  }

  lemma OnlyPillsQueued(s: State, places: seq<Place>, l: nat, x: Item)
    requires Inv(s, places) && s.done == CountFinished(s.infos) && s.done >= |s.infos|
    requires l < |s.queues| && x in s.queues[l]
    ensures x == Pill
  {
    hide LockOk, FreshIfNew, HaveRun, WorkerHas, LevelsOk, NoDup, Placed;
    if x.Proc? {
      AllFinished(s, places, x.pid);
      FinishedNowhereElse(s, places, x.pid);
      assert false;
    }
  }

  lemma FinishedNowhereElse(s: State, places: seq<Place>, p: nat)
    requires |s.infos| == |s.procs| == |places| && p < |places| && Placed(s, places, p) && places[p] == Finished
    ensures !OsHas(s, p) && (forall l :: 0 <= l < |s.queues| ==> Proc(p) !in s.queues[l])
    ensures forall w :: 0 <= w < |s.workers| ==> !WorkerHas(s.workers[w], s.procs[p], p)
    ensures forall m :: 0 <= m < |s.monitors| ==> !MonitorHas(s.monitors[m], p)
  {
  }

  ghost predicate EndShape(t: State) {
    |t.queues| == NUM_PRIORITY_LEVELS && |t.workers| == OS_CORES && PillsOk(t)
  }

  /** The pill that a worker takes is one less in the list and one more worker gone. */
  lemma ScanPills(s: State, w: nat, level: nat)
    requires Ending(s) && w < |s.workers| && s.workers[w] == Scan(level)
    requires s.done >= |s.infos| ==> NoProcs(s.queues)
    ensures EndShape(Scanned(s, w, level))
  {
    if level < |s.queues| && s.queues[level] != [] {
      assert s.queues[level][0] in s.queues[level];
    }
  }

  lemma WorkerPills(s: State, places: seq<Place>, w: nat, c: Choice)
    requires Inv(s, places) && Ending(s) && w < |s.workers| && WorkerNext(s, w, c).Some?
    ensures EndShape(WorkerNext(s, w, c).value)
  {
    hide Inv;
    if s.done >= |s.infos| { NothingLeft(s, places); }
    WithInRange(s, places, w, c);
    if s.workers[w].Scan? {
      ScanPills(s, w, s.workers[w].level);
    } else {
      WithPills(s, w, c);
    }
  }

  lemma WithPills(s: State, w: nat, c: Choice)
    requires Ending(s) && w < |s.workers| && s.workers[w].With? && WorkerNext(s, w, c).Some?
    requires s.workers[w].pid < |s.procs|
    requires s.done >= |s.infos| ==> !WorkerHas(s.workers[w], s.procs[s.workers[w].pid], s.workers[w].pid)
    ensures EndShape(WorkerNext(s, w, c).value)
  {
    hide WorkerNext, CountFinished, PillsLeft, NoPills;
    var t := WorkerNext(s, w, c).value;
    if s.workers[w].stage.Deciding? {
      DecideFrame(s, w, c);
      if !s.os.Pills? && !s.os.Joined? {
        DecidePills(s, w, c);
      }
    } else if s.workers[w].stage.Running? {
      SliceFrame(s, w, c);
    } else {
      StageFrame(s, w, c);
    }
    assert ExitedCount(t.workers) == ExitedCount(s.workers);
  }

  lemma DecidePills(s: State, w: nat, c: Choice)
    requires Decides(s, w) && WorkerNext(s, w, c).Some? && NoPills(s.queues)
    ensures NoPills(WorkerNext(s, w, c).value.queues)
  {
    hide WorkerNext;
    DecideFrame(s, w, c);
  }

  lemma HeadIn<T>(q: seq<T>)
    ensures q != [] ==> q[0] in q
  {
  }

  lemma EmptyWithoutItems(queues: seq<seq<Item>>)
    requires NoPills(queues) && NoProcs(queues)
    ensures forall l :: 0 <= l < |queues| ==> queues[l] == []
  {
    forall l | 0 <= l < |queues| ensures queues[l] == [] {
      HeadIn(queues[l]);
    }
  }

  lemma OsPills(s: State, places: seq<Place>, c: Choice)
    requires Inv(s, places) && Ending(s) && OsNext(s, c).Some?
    ensures EndShape(OsNext(s, c).value)
  {
    hide Inv;
    if s.done >= |s.infos| {
      NothingLeft(s, places);
      if s.os.Top? { EmptyWithoutItems(s.queues); }
    }
  }

  lemma MonitorPills(v: Order, s: State, places: seq<Place>, m: nat)
    requires Inv(s, places) && Ending(s) && m < |s.monitors| && MonitorNext(v, s, m).Some?
    ensures EndShape(MonitorNext(v, s, m).value)
  {
    hide Inv, MonitorNext, CountFinished, PillsLeft;
    if s.done >= |s.infos| { NothingLeft(s, places); }
    MonitorFrame(v, s, m);
    MonitorQueues(v, s, m);
  }

  lemma StepEnding(v: Order, s: State, places: seq<Place>, a: Action, c: Choice)
    requires Inv(s, places) && Ending(s) && Next(v, s, a, c).Some?
    ensures Ending(Next(v, s, a, c).value)
  {
    hide Inv, PillsOk, CountFinished, WorkerNext, OsNext, MonitorNext;
    StepDone(v, s, places, a, c);
    match a
    case OfWorker(w) => WorkerPills(s, places, w, c);
    case OfOs => OsPills(s, places, c);
    case OfMonitor(m) => MonitorPills(v, s, places, m);
  }

  lemma {:induction false} ReachedEnding(v: Order, jobs: seq<Job>, s: State, n: nat) returns (places: seq<Place>)
    requires (forall i :: 0 <= i < |jobs| ==> jobs[i].bursts > 0) && Reached(v, jobs, s, n)
    ensures |places| == |jobs| && Inv(s, places) && Ending(s)
    decreases n
  {
    hide Inv, Next, Start, Shape, After, Ending;
    if n == 0 {
      StartInv(jobs);
      StartEnding(jobs);
      places := seq(|jobs|, _ => NotArrived);
    } else {
      var t, a, c :| Reached(v, jobs, t, n - 1) && Next(v, t, a, c) == Some(s);
      var before := ReachedEnding(v, jobs, t, n - 1);
      StepKeeps(v, t, before, a, c);
      StepEnding(v, t, before, a, c);
      InvShape(t, before);
      places := After(v, t, before, a, c);
    }
  }

  // ---------------------------------------------------------------- shutdown

  /** Some thread is about to push a process. */
  ghost predicate AboutToPush(s: State) {
    || s.os.Pushing?
    || (exists w :: 0 <= w < |s.workers| && s.workers[w].With? && s.workers[w].stage.Deciding?
          && s.workers[w].pid < |s.procs| && s.procs[s.workers[w].pid].status.RunPreempted?)
    || (exists m :: 0 <= m < |s.monitors| && s.monitors[m].pc.Taken?)
  }

  /** In every reachable state, once the done count has reached the process count, no list holds a
      process and no thread is about to push one; and whenever a thread is about to push a process, no
      list holds a pill, so that sorted insertion never looks inside a pill. */
  lemma ShutdownSafe(v: Order, jobs: seq<Job>, s: State, n: nat)
    requires (forall i :: 0 <= i < |jobs| ==> jobs[i].bursts > 0) && Reached(v, jobs, s, n)
    ensures s.done >= |jobs| ==> NoProcs(s.queues) && !AboutToPush(s)
    ensures AboutToPush(s) ==> NoPills(s.queues)
  {
    hide Reached, Placed, LockOk, FreshIfNew, HaveRun, CountFinished;
    var places := ReachedEnding(v, jobs, s, n);
    if s.done >= |s.infos| {
      NothingLeft(s, places);
    }
  }

  /** Each worker takes one pill: a pill sent is in the list or was taken by a worker that is gone, and
      when the workers have been joined the lists are empty. */
  lemma OnePillEach(v: Order, jobs: seq<Job>, s: State, n: nat)
    requires (forall i :: 0 <= i < |jobs| ==> jobs[i].bursts > 0) && Reached(v, jobs, s, n)
    ensures |s.workers| == OS_CORES && |s.queues| == NUM_PRIORITY_LEVELS
    ensures s.os.Pills? ==> |s.queues[PILL_LEVEL]| + ExitedCount(s.workers) == s.os.k <= OS_CORES
    ensures s.os.Joined? ==> ExitedCount(s.workers) == OS_CORES && forall l :: 0 <= l < |s.queues| ==> s.queues[l] == []
    ensures ExitedCount(s.workers) > 0 ==> (s.os.Pills? || s.os.Joined?) && s.done >= |jobs|
  {
    hide Reached, Placed, LockOk, FreshIfNew, HaveRun, CountFinished;
    var places := ReachedEnding(v, jobs, s, n);
  }

  // ---------------------------------------------------------------- monitors after the end

  ghost predicate Over(info: Info) {
    info.cpuIndex >= |info.remaining|
  }

  /** A process that is over has its status, and no monitor is about to remove one. */
  ghost predicate Settled(s: State) {
    && |s.infos| == |s.procs|
    && (forall p :: 0 <= p < |s.infos| && Over(s.infos[p]) ==> s.procs[p].status.RunDone?)
    && (forall m :: 0 <= m < |s.monitors| && s.monitors[m].pc.Chosen? ==>
          s.monitors[m].pid < |s.infos| && !Over(s.infos[s.monitors[m].pid]))
  }

  lemma SliceSettles(s: State, places: seq<Place>, w: nat, c: Choice)
    requires Inv(s, places) && Settled(s) && InSlice(s, w) && WorkerNext(s, w, c).Some?
    ensures Settled(WorkerNext(s, w, c).value)
  {
    hide Placed, FreshIfNew, HaveRun, QueuesOk, MonitorsOk, LevelsOk, WorkerNext;
    SliceFrame(s, w, c);
    assert LockOk(s, s.workers[w].pid);
  }

  lemma QuietSettles(s: State, w: nat, c: Choice)
    requires Settled(s) && w < |s.workers| && !InSlice(s, w) && WorkerNext(s, w, c).Some?
    ensures Settled(WorkerNext(s, w, c).value)
  {
    hide WorkerNext;
    QuietWorkerFrame(s, w, c);
    NewMonitorsSleep(s, w, c);
    if s.workers[w].Scan? {
      ScanFrame(s, w, c);
    } else if s.workers[w].stage.Deciding? {
      DecideFrame(s, w, c);
    } else {
      StageFrame(s, w, c);
    }
    var t := WorkerNext(s, w, c).value;
    assert forall p :: 0 <= p < |s.infos| ==>
      SameCharges(s.infos[p], t.infos[p]) && t.procs[p].status == s.procs[p].status;
  }

  lemma OsSettles(s: State, places: seq<Place>, c: Choice)
    requires Inv(s, places) && Settled(s) && OsNext(s, c).Some?
    ensures Settled(OsNext(s, c).value)
  {
    hide LockOk, FreshIfNew, HaveRun, PlacedInQueues, PlacedAtMonitors, PlacedAtWorkers;
    hide QueuesOk, MonitorsOk, LevelsOk, Insert;
    OsFrame(s, c);
    var t := OsNext(s, c).value;
    assert forall p :: 0 <= p < |s.infos| ==> SameCharges(s.infos[p], t.infos[p]);
    if s.os.Moved? {
      assert Placed(s, places, s.os.i);
    }
  }

  lemma MonitorSettles(v: Order, s: State, m: nat)
    requires Settled(s) && m < |s.monitors| && MonitorNext(v, s, m).Some?
    ensures Settled(MonitorNext(v, s, m).value)
  {
    hide Insert, Delete, IndexOf;
    MonitorFrame(v, s, m);
  }

  lemma StepSettles(v: Order, s: State, places: seq<Place>, a: Action, c: Choice)
    requires Inv(s, places) && Settled(s) && Next(v, s, a, c).Some?
    ensures Settled(Next(v, s, a, c).value)
  {
    hide Inv, Settled, WorkerNext, OsNext, MonitorNext;
    match a
    case OfWorker(w) =>
      if InSlice(s, w) {
        SliceSettles(s, places, w, c);
      } else {
        QuietSettles(s, w, c);
      }
    case OfOs => OsSettles(s, places, c);
    case OfMonitor(m) => MonitorSettles(v, s, m);
  }

  lemma StartSettled(jobs: seq<Job>)
    requires forall i :: 0 <= i < |jobs| ==> jobs[i].bursts > 0
    ensures Settled(Start(jobs))
  {
  }

  lemma {:induction false} ReachedSettled(v: Order, jobs: seq<Job>, s: State, n: nat)
    requires (forall i :: 0 <= i < |jobs| ==> jobs[i].bursts > 0) && Reached(v, jobs, s, n)
    ensures Settled(s)
    decreases n
  {
    hide Inv, Next, Start, Settled, Ending;
    if n == 0 {
      StartSettled(jobs);
    } else {
      var t, a, c :| Reached(v, jobs, t, n - 1) && Next(v, t, a, c) == Some(s);
      var places := ReachedEnding(v, jobs, t, n - 1);
      ReachedSettled(v, jobs, t, n - 1);
      StepSettles(v, t, places, a, c);
    }
  }

  ghost predicate NothingCanStep(v: Order, s: State) {
    forall a: Action, c: Choice :: Next(v, s, a, c) == None
  }

  /** When the workers have been joined, and the queue and the processes are about to be freed, a monitor sleeps, or
      is about to unlock its process, or has ended; and no thread can touch them any more exactly when all monitors
      have ended. */
  lemma LateMonitors(v: Order, jobs: seq<Job>, s: State, n: nat)
    requires (forall i :: 0 <= i < |jobs| ==> jobs[i].bursts > 0) && Reached(v, jobs, s, n) && s.os.Joined?
    ensures forall m :: 0 <= m < |s.monitors| ==>
      s.monitors[m].pc.Asleep? || s.monitors[m].pc.Closing? || s.monitors[m].pc.Ended?
    ensures NothingCanStep(v, s) <==> forall m :: 0 <= m < |s.monitors| ==> s.monitors[m].pc.Ended?
  {
    hide Reached, Inv, Settled, Next, CountFinished, Ending, Shape;
    var places := ReachedEnding(v, jobs, s, n);
    ReachedSettled(v, jobs, s, n);
    LatePcs(s, places);
    if forall m :: 0 <= m < |s.monitors| ==> s.monitors[m].pc.Ended? {
      AllStill(v, s);
    } else {
      var m :| 0 <= m < |s.monitors| && !s.monitors[m].pc.Ended?;
      var k := SomeMonitorSteps(v, s, places, m);
      assert Next(v, s, OfMonitor(k), Choice(0, false, false, 0)) != None;
    }
  }

  lemma LatePcs(s: State, places: seq<Place>)
    requires Inv(s, places) && Ending(s) && Settled(s) && s.os.Joined?
    ensures forall m :: 0 <= m < |s.monitors| ==>
      s.monitors[m].pc.Asleep? || s.monitors[m].pc.Closing? || s.monitors[m].pc.Ended?
    ensures forall w :: 0 <= w < |s.workers| ==> s.workers[w].Exited?
  {
    hide Inv, CountFinished;
    NothingLeft(s, places);
    forall m | 0 <= m < |s.monitors| && s.monitors[m].pc.Chosen?
      ensures false
    {
      LateOver(s, places, m);
    }
    assert forall w :: 0 <= w < OS_CORES ==> s.workers[w].Exited?;
  }

  lemma LateOver(s: State, places: seq<Place>, m: nat)
    requires Inv(s, places) && Ending(s) && s.os.Joined? && m < |s.monitors|
    ensures s.monitors[m].pid < |s.infos| && Over(s.infos[s.monitors[m].pid])
  {
    hide CountFinished, LockOk, FreshIfNew, HaveRun;
    AllFinished(s, places, s.monitors[m].pid);
  }

  lemma AllStill(v: Order, s: State)
    requires s.os.Joined? && (forall m :: 0 <= m < |s.monitors| ==> s.monitors[m].pc.Ended?)
    requires forall w :: 0 <= w < |s.workers| ==> s.workers[w].Exited?
    ensures NothingCanStep(v, s)
  {
  }

  /** The monitor itself, or the one that holds its process. */
  lemma SomeMonitorSteps(v: Order, s: State, places: seq<Place>, m: nat) returns (k: nat)
    requires Inv(s, places) && m < |s.monitors| && (s.monitors[m].pc.Asleep? || s.monitors[m].pc.Closing?)
    requires forall x :: 0 <= x < |s.monitors| ==>
      s.monitors[x].pc.Asleep? || s.monitors[x].pc.Closing? || s.monitors[x].pc.Ended?
    requires forall w :: 0 <= w < |s.workers| ==> s.workers[w].Exited?
    ensures Next(v, s, OfMonitor(k), Choice(0, false, false, 0)).Some?
  {
    hide Placed, FreshIfNew, HaveRun, QueuesOk, LevelsOk;
    var p := s.monitors[m].pid;
    assert LockOk(s, p);
    k := if s.procs[p].lock.ByMonitor? then s.procs[p].lock.m else m;
    assert s.procs[p].lock.ByMonitor? ==> MonitorLocking(s.monitors[k], p);
  }
}
