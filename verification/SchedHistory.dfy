/** Runs with their history: what a state owes to the steps that led to it. */
module SchedHistory {
  import opened Common
  import opened SchedLevels
  import opened SchedModel
  import opened SchedFrames
  import opened SchedInvariant
  import opened SchedShutdown
  import opened SchedBoost
  import opened SchedSorted

  /** A step: the state before it, and who does it with which choice. */
  datatype Event = Event(s: State, a: Action, c: Choice)

  /** The steps of `path`, one after the other, lead from the start to `s`. */
  ghost predicate IsRun(v: Order, jobs: seq<Job>, path: seq<Event>, s: State)
    decreases |path|
  {
    if path == [] then s == Start(jobs)
    else
      var e := path[|path| - 1];
      IsRun(v, jobs, path[..|path| - 1], e.s) && Next(v, e.s, e.a, e.c) == Some(s)
  }

  lemma {:induction false} RunReached(v: Order, jobs: seq<Job>, path: seq<Event>, s: State)
    requires IsRun(v, jobs, path, s)
    ensures Reached(v, jobs, s, |path|)
    decreases |path|
  {
    hide Next, Start;
    if path != [] {
      var e := path[|path| - 1];
      RunReached(v, jobs, path[..|path| - 1], e.s);
      assert Next(v, e.s, e.a, e.c) == Some(s);
    }
  }

  lemma {:induction false} ReachedRun(v: Order, jobs: seq<Job>, s: State, n: nat) returns (path: seq<Event>)
    requires Reached(v, jobs, s, n)
    ensures IsRun(v, jobs, path, s) && |path| == n
    decreases n
  {
    hide Next, Start;
    if n == 0 {
      path := [];
    } else {
      var t, a, c :| Reached(v, jobs, t, n - 1) && Next(v, t, a, c) == Some(s);
      var before := ReachedRun(v, jobs, t, n - 1);
      path := before + [Event(t, a, c)];
      assert path[..|path| - 1] == before;
    }
  }

  // ---------------------------------------------------------------- what a step is to a process

  ghost predicate OfWorkerAt(e: Event, p: nat, stage: Stage) {
    e.a.OfWorker? && e.a.w < |e.s.workers| && e.s.workers[e.a.w] == With(p, stage)
  }

  /** A worker ends a slice of the process. */
  ghost predicate EndsSliceOf(e: Event, p: nat) {
    && e.a.OfWorker? && e.a.w < |e.s.workers| && e.s.workers[e.a.w].With?
    && e.s.workers[e.a.w].pid == p && e.s.workers[e.a.w].stage.Running?
  }

  ghost predicate HasStatus(e: Event, p: nat, status: Status) {
    p < |e.s.procs| && e.s.procs[p].status == status
  }

  /** A worker is in worker.c:208-225 with the preempted process. */
  ghost predicate Demotes(e: Event, p: nat) {
    OfWorkerAt(e, p, Unlocked) && HasStatus(e, p, RunPreempted)
  }

  /** A monitor of the process is at worker.c:200-201, its last lines. */
  ghost predicate EndsMonitor(e: Event, p: nat) {
    e.a.OfMonitor? && e.a.m < |e.s.monitors| && e.s.monitors[e.a.m] == Monitor(p, Closing)
  }

  ghost predicate Creates(e: Event, p: nat) {
    e.a.OfOs? && e.s.os == Moved(p, true)
  }

  // ---------------------------------------------------------------- measured lengths

  /** A burst of the process has been counted, and the process has not ended since. */
  ghost predicate BurstFound(path: seq<Event>, p: nat) {
    path != [] &&
    var e := path[|path| - 1];
    || (OfWorkerAt(e, p, Deciding) && HasStatus(e, p, RunBlocked))
    || (!Creates(e, p) && !(OfWorkerAt(e, p, Deciding) && HasStatus(e, p, RunDone))
        && BurstFound(path[..|path| - 1], p))
  }

  /** The times measured for the slices of the process, since it arrived or last ended, until a burst was counted. */
  ghost function SliceTimes(path: seq<Event>, p: nat): seq<nat> {
    if path == [] then []
    else
      var e, rest := path[|path| - 1], path[..|path| - 1];
      if Creates(e, p) || (OfWorkerAt(e, p, Deciding) && HasStatus(e, p, RunDone)) then []
      else if EndsSliceOf(e, p) && !BurstFound(rest, p) then SliceTimes(rest, p) + [e.c.elapsed]
      else SliceTimes(rest, p)
  }

  /** The time measured for the last I/O of the process. */
  ghost function IoTime(path: seq<Event>, p: nat): nat {
    if path == [] then 0
    else
      var e := path[|path| - 1];
      if Creates(e, p) then 0
      else if OfWorkerAt(e, p, Leaving) && HasStatus(e, p, RunBlocked) then e.c.elapsed
      else IoTime(path[..|path| - 1], p)
  }

  /** What a step makes of the lengths of process p. */
  ghost predicate LengthsStep(e: Event, t: State, p: nat)
    requires p < |e.s.lengths| && p < |t.lengths|
  {
    var was, now := e.s.lengths[p], t.lengths[p];
    if EndsSliceOf(e, p) then now == was.(burst := was.burst + if was.found then 0 else e.c.elapsed)
    else if OfWorkerAt(e, p, Deciding) && HasStatus(e, p, RunBlocked) then now == was.(found := true)
    else if OfWorkerAt(e, p, Deciding) && HasStatus(e, p, RunDone) then now == was.(burst := 0, found := false)
    else if OfWorkerAt(e, p, Leaving) && HasStatus(e, p, RunBlocked) then now == was.(io := e.c.elapsed)
    else if Creates(e, p) then now == Lengths(0, 0, false)
    else now == was
  }

  lemma WorkerLengths(s: State, w: nat, c: Choice, p: nat)
    requires w < |s.workers| && WorkerNext(s, w, c).Some? && p < |s.lengths|
    ensures var t := WorkerNext(s, w, c).value;
      |t.lengths| == |s.lengths| && LengthsStep(Event(s, OfWorker(w), c), t, p)
  {
    hide Insert, Delete, PushPlace;
  }

  lemma StepLengths(v: Order, s: State, a: Action, c: Choice, p: nat)
    requires Next(v, s, a, c).Some? && p < |s.lengths|
    ensures var t := Next(v, s, a, c).value;
      |t.lengths| == |s.lengths| && LengthsStep(Event(s, a, c), t, p)
  {
    hide WorkerNext, MonitorNext, Insert, PushPlace;
    match a
    case OfWorker(w) => WorkerLengths(s, w, c, p);
    case OfOs =>
    case OfMonitor(m) => MonitorFrame(v, s, m);
  }

  /** In every run, at every point: the burst length of a process is the sum of the times measured for its slices
      since it arrived or last ended, until its first burst is over; the length of I/O is that of its last one. */
  lemma {:induction false} LengthsMeasured(v: Order, jobs: seq<Job>, path: seq<Event>, s: State, p: nat)
    requires IsRun(v, jobs, path, s) && p < |jobs|
    ensures |s.lengths| == |jobs|
    ensures s.lengths[p] == Lengths(Sum(SliceTimes(path, p)), IoTime(path, p), BurstFound(path, p))
    decreases |path|
  {
    hide Next, EndsSliceOf, OfWorkerAt, HasStatus, Creates;
    if path != [] {
      var e, rest := path[|path| - 1], path[..|path| - 1];
      LengthsMeasured(v, jobs, rest, e.s, p);
      StepLengths(v, e.s, e.a, e.c, p);
      SumSnoc(SliceTimes(rest, p), e.c.elapsed);
      KindsApart(e, p);
    }
  }

  lemma KindsApart(e: Event, p: nat)
    ensures EndsSliceOf(e, p) ==> forall stage: Stage :: !stage.Running? ==> !OfWorkerAt(e, p, stage)
    ensures OfWorkerAt(e, p, Deciding) ==> !OfWorkerAt(e, p, Leaving)
    ensures Creates(e, p) ==> !EndsSliceOf(e, p) && forall stage :: !OfWorkerAt(e, p, stage)
    ensures HasStatus(e, p, RunBlocked) ==> !HasStatus(e, p, RunDone)
  {
  }

  // ---------------------------------------------------------------- pending monitors

  ghost predicate Pending(s: State, m: nat, p: nat) {
    m < |s.monitors| && s.monitors[m].pid == p && !s.monitors[m].pc.Ended?
  }

  /** The flag of process p says whether a monitor of it is pending, and two never are. */
  ghost predicate FlagOk(s: State, p: nat)
    requires p < |s.procs|
  {
    && (s.procs[p].waitingBoost <==> exists m: nat :: Pending(s, m, p))
    && (forall m: nat, k: nat :: Pending(s, m, p) && Pending(s, k, p) ==> m == k)
  }

  lemma QuietFlags(s: State, t: State, p: nat)
    requires p < |s.procs| && p < |t.procs| && FlagOk(s, p) && t.procs[p].waitingBoost == s.procs[p].waitingBoost
    requires |t.monitors| == |s.monitors|
    requires forall m :: 0 <= m < |s.monitors| ==>
      t.monitors[m].pid == s.monitors[m].pid && (t.monitors[m].pc.Ended? <==> s.monitors[m].pc.Ended?)
    ensures FlagOk(t, p)
  {
    assert forall m: nat :: Pending(t, m, p) <==> Pending(s, m, p);
  }

  /** A worker changes flag and monitors at worker.c:208-225 only. */
  lemma WorkerFlags(s: State, w: nat, c: Choice, p: nat)
    requires w < |s.workers| && WorkerNext(s, w, c).Some? && p < |s.procs|
    ensures var t := WorkerNext(s, w, c).value;
      && |t.procs| == |s.procs|
      && (if Demotes(Event(s, OfWorker(w), c), p) then
            && t.procs[p].waitingBoost
            && t.monitors == if s.procs[p].waitingBoost then s.monitors else s.monitors + [Monitor(p, Asleep)]
          else
            && t.procs[p].waitingBoost == s.procs[p].waitingBoost
            && (t.monitors == s.monitors
                || exists q :: q != p && t.monitors == s.monitors + [Monitor(q, Asleep)]))
  {
    hide Insert, Delete, PushPlace;
  }

  lemma WorkerFlagOk(s: State, w: nat, c: Choice, p: nat)
    requires w < |s.workers| && WorkerNext(s, w, c).Some? && p < |s.procs| && FlagOk(s, p)
    ensures p < |WorkerNext(s, w, c).value.procs| && FlagOk(WorkerNext(s, w, c).value, p)
  {
    hide WorkerNext, Demotes, FlagOk;
    WorkerFlags(s, w, c, p);
    var t := WorkerNext(s, w, c).value;
    if Demotes(Event(s, OfWorker(w), c), p) && !s.procs[p].waitingBoost {
      FirstPending(s, t, p);
    } else {
      SamePending(s, t, p);
    }
  }

  lemma FirstPending(s: State, t: State, p: nat)
    requires p < |s.procs| && p < |t.procs| && FlagOk(s, p) && !s.procs[p].waitingBoost && t.procs[p].waitingBoost
    requires t.monitors == s.monitors + [Monitor(p, Asleep)]
    ensures FlagOk(t, p)
  {
    var n := |s.monitors|;
    assert t.monitors[n] == Monitor(p, Asleep);
    assert forall m: nat :: Pending(t, m, p) && m < n ==> Pending(s, m, p);
    assert Pending(t, n, p);
  }

  lemma SamePending(s: State, t: State, p: nat)
    requires p < |s.procs| && p < |t.procs| && FlagOk(s, p) && t.procs[p].waitingBoost == s.procs[p].waitingBoost
    requires t.monitors == s.monitors || exists q :: q != p && t.monitors == s.monitors + [Monitor(q, Asleep)]
    ensures FlagOk(t, p)
  {
    assert forall m: nat :: Pending(t, m, p) <==> Pending(s, m, p);
  }

  lemma OsFlagOk(s: State, places: seq<Place>, c: Choice, p: nat)
    requires Inv(s, places) && OsNext(s, c).Some? && p < |s.procs| && FlagOk(s, p)
    ensures p < |OsNext(s, c).value.procs| && FlagOk(OsNext(s, c).value, p)
  {
    hide QueuesOk, HaveRun, Insert, PushPlace, Placed;
    OsFrame(s, c);
    var t := OsNext(s, c).value;
    assert s.os == Moved(p, true) ==> FreshIfNew(s, places, p);
    assert forall m: nat :: Pending(t, m, p) <==> Pending(s, m, p);
  }

  lemma MonitorFlagOk(v: Order, s: State, m: nat, p: nat)
    requires m < |s.monitors| && MonitorNext(v, s, m).Some? && p < |s.procs| && FlagOk(s, p)
    ensures p < |MonitorNext(v, s, m).value.procs| && FlagOk(MonitorNext(v, s, m).value, p)
  {
    hide Insert, Delete, PushPlace, IndexOf;
    var t := MonitorNext(v, s, m).value;
    if EndsMonitor(Event(s, OfMonitor(m), Choice(0, false, false, 0)), p) {
      assert Pending(s, m, p);
      assert forall k: nat :: Pending(t, k, p) <==> Pending(s, k, p) && k != m;
    } else {
      QuietFlagsOf(v, s, m, p);
    }
  }

  lemma QuietFlagsOf(v: Order, s: State, m: nat, p: nat)
    requires m < |s.monitors| && MonitorNext(v, s, m).Some? && p < |s.procs| && FlagOk(s, p)
    requires s.monitors[m] != Monitor(p, Closing)
    ensures p < |MonitorNext(v, s, m).value.procs| && FlagOk(MonitorNext(v, s, m).value, p)
  {
    hide Insert, Delete, PushPlace, IndexOf, FlagOk;
    var t := MonitorNext(v, s, m).value;
    if s.monitors[m].pc.Closing? {
      OtherMonitorEnds(s, t, m, p);
    } else {
      QuietFlags(s, t, p);
    }
  }

  lemma OtherMonitorEnds(s: State, t: State, m: nat, p: nat)
    requires p < |s.procs| && p < |t.procs| && FlagOk(s, p) && t.procs[p].waitingBoost == s.procs[p].waitingBoost
    requires m < |s.monitors| && s.monitors[m].pid != p && t.monitors == s.monitors[m := s.monitors[m].(pc := Ended)]
    ensures FlagOk(t, p)
  {
    assert forall k: nat :: Pending(t, k, p) <==> Pending(s, k, p);
  }

  lemma StepFlagOk(v: Order, s: State, places: seq<Place>, a: Action, c: Choice, p: nat)
    requires Inv(s, places) && Next(v, s, a, c).Some? && p < |s.procs| && FlagOk(s, p)
    ensures p < |Next(v, s, a, c).value.procs| && FlagOk(Next(v, s, a, c).value, p)
  {
    hide Inv, FlagOk, WorkerNext, OsNext, MonitorNext;
    match a
    case OfWorker(w) => WorkerFlagOk(s, w, c, p);
    case OfOs => OsFlagOk(s, places, c, p);
    case OfMonitor(m) => MonitorFlagOk(v, s, m, p);
  }

  /** In every reachable state, under both orders, `waiting_boost` is set exactly when one monitor of the process has
      not ended, and there are never two. */
  lemma {:induction false} FlagIsPending(v: Order, jobs: seq<Job>, s: State, n: nat, p: nat)
    requires (forall i :: 0 <= i < |jobs| ==> jobs[i].bursts > 0) && Reached(v, jobs, s, n) && p < |jobs|
    ensures p < |s.procs| && FlagOk(s, p)
    decreases n
  {
    hide Inv, Next, FlagOk, Start;
    if n == 0 {
      StartFlags(jobs, p);
    } else {
      var t, a, c :| Reached(v, jobs, t, n - 1) && Next(v, t, a, c) == Some(s);
      var places := ReachedInv(v, jobs, t, n - 1);
      FlagIsPending(v, jobs, t, n - 1, p);
      StepFlagOk(v, t, places, a, c, p);
    }
  }

  lemma StartFlags(jobs: seq<Job>, p: nat)
    requires p < |jobs|
    ensures p < |Start(jobs).procs| && FlagOk(Start(jobs), p)
  {
  }

  // ---------------------------------------------------------------- a demoted process is boosted

  /** A worker has demoted the process and not yet decided what to do with it. */
  ghost predicate Undecided(s: State, w: nat, p: nat) {
    && w < |s.workers| && (s.workers[w] == With(p, Updated) || s.workers[w] == With(p, Deciding))
    && p < |s.procs| && s.procs[p].status.RunPreempted?
  }

  ghost predicate Carried(s: State, m: nat, p: nat) {
    m < |s.monitors| && s.monitors[m] == Monitor(p, Taken)
  }

  /** The process waits in a list below the top, or is on its way to one from its demotion, or from list to list. */
  ghost predicate Demoted(s: State, p: nat) {
    !NotBelow(s.queues, p) || (exists m: nat :: Carried(s, m, p)) || (exists w: nat :: Undecided(s, w, p))
  }

  lemma InsertedBelow(queues: seq<seq<Item>>, l: nat, k: nat, x: Item, p: nat)
    requires l < |queues| && k <= |queues[l]| && !NotBelow(queues[l := Insert(queues[l], k, x)], p)
    ensures !NotBelow(queues, p) || (x == Proc(p) && l > MAX_PRIORITY_LEVEL)
  {
    hide Insert;
  }

  lemma DeletedBelow(queues: seq<seq<Item>>, l: nat, k: nat, p: nat)
    requires l < |queues| && k < |queues[l]| && !NotBelow(queues[l := Delete(queues[l], k)], p)
    ensures !NotBelow(queues, p)
  {
    hide Delete;
  }

  lemma ScanDemotes(s: State, w: nat, c: Choice, p: nat)
    requires w < |s.workers| && s.workers[w].Scan? && WorkerNext(s, w, c).Some?
    requires Demoted(WorkerNext(s, w, c).value, p)
    ensures Demoted(s, p)
  {
    hide NotBelow, WorkerNext, Delete;
    ScanFrame(s, w, c);
    var t, level := WorkerNext(s, w, c).value, s.workers[w].level;
    assert forall x: nat :: Undecided(t, x, p) ==> Undecided(s, x, p);
    assert forall m: nat :: Carried(t, m, p) ==> Carried(s, m, p);
    if level < |s.queues| && s.queues[level] != [] && !NotBelow(t.queues, p) {
      DeletedBelow(s.queues, level, 0, p);
    }
  }

  /** A process in a slice is at its worker and nowhere else. */
  lemma RunningAlone(s: State, places: seq<Place>, w: nat)
    requires Inv(s, places) && InSlice(s, w)
    ensures var p := s.workers[w].pid;
      && NotBelow(s.queues, p) && (forall m: nat :: !Carried(s, m, p))
      && forall x :: 0 <= x < |s.workers| && x != w ==>
           s.workers[x] != With(p, Updated) && s.workers[x] != With(p, Deciding)
  {
    hide FreshIfNew, HaveRun, NoDup, MonitorsOk, LockOk;
    var p := s.workers[w].pid;
    assert Placed(s, places, p);
    assert WorkerHas(s.workers[w], s.procs[p], p);
    assert places[p] == AtWorker(w);
    assert forall m: nat :: Carried(s, m, p) ==> MonitorHas(s.monitors[m], p);
  }

  lemma SliceDemotes(s: State, places: seq<Place>, w: nat, c: Choice, p: nat)
    requires Inv(s, places) && InSlice(s, w) && WorkerNext(s, w, c).Some?
    requires Demoted(WorkerNext(s, w, c).value, p)
    ensures Demoted(s, p) && s.workers[w].pid != p
  {
    hide Inv, NotBelow, WorkerNext, SliceEnds;
    SliceFrame(s, w, c);
    RunningAlone(s, places, w);
    var t := WorkerNext(s, w, c).value;
    assert forall x: nat :: Undecided(t, x, p) ==> x != w && s.workers[x] == t.workers[x];
    assert forall x: nat :: Undecided(t, x, p) && p != s.workers[w].pid ==> Undecided(s, x, p);
    assert forall m: nat :: Carried(t, m, p) ==> Carried(s, m, p);
  }

  lemma DecideDemotes(s: State, w: nat, c: Choice, p: nat)
    requires Decides(s, w) && WorkerNext(s, w, c).Some?
    requires Demoted(WorkerNext(s, w, c).value, p)
    ensures Demoted(s, p)
  {
    hide NotBelow, WorkerNext, Insert, PushPlace;
    DecideFrame(s, w, c);
    var t, q := WorkerNext(s, w, c).value, s.workers[w].pid;
    assert forall x: nat :: Undecided(t, x, p) ==> Undecided(s, x, p);
    assert forall m: nat :: Carried(t, m, p) ==> Carried(s, m, p);
    assert s.procs[q].status.RunPreempted? ==> Undecided(s, w, q);
    if s.procs[q].status.RunPreempted? && !NotBelow(t.queues, p) {
      var level := s.procs[q].level;
      InsertedBelow(s.queues, level, PushPlace(s.queues[level], s.lengths, q, level), Proc(q), p);
    }
  }

  lemma StageDemotes(s: State, w: nat, c: Choice, p: nat)
    requires AtStage(s, w) && WorkerNext(s, w, c).Some?
    requires Demoted(WorkerNext(s, w, c).value, p)
    ensures Demoted(s, p) || Demotes(Event(s, OfWorker(w), c), p)
  {
    hide NotBelow, WorkerNext;
    StageFrame(s, w, c);
    NewMonitorsSleep(s, w, c);
    var t := WorkerNext(s, w, c).value;
    assert forall x: nat :: Undecided(t, x, p) && x != w ==> Undecided(s, x, p);
    assert Undecided(t, w, p) ==> Undecided(s, w, p) || Demotes(Event(s, OfWorker(w), c), p);
    assert forall m: nat :: Carried(t, m, p) ==> Carried(s, m, p);
  }

  lemma OsDemotes(s: State, c: Choice, p: nat)
    requires OsNext(s, c).Some? && (s.os.Pushing? ==> s.os.level == MAX_PRIORITY_LEVEL)
    requires Demoted(OsNext(s, c).value, p)
    ensures Demoted(s, p)
  {
    hide NotBelow, Insert, PushPlace;
    var t := OsNext(s, c).value;
    assert forall x: nat :: Undecided(t, x, p) ==> Undecided(s, x, p);
    assert forall m: nat :: Carried(t, m, p) ==> Carried(s, m, p);
    if !NotBelow(t.queues, p) && t.queues != s.queues {
      if s.os.Pushing? {
        InsertedBelow(s.queues, 0, PushPlace(s.queues[0], s.lengths, s.os.i, 0), Proc(s.os.i), p);
      } else {
        InsertedBelow(s.queues, PILL_LEVEL, |s.queues[PILL_LEVEL]|, Pill, p);
      }
    }
  }

  /** A monitor takes processes from below the top only. */
  lemma TakesFromBelow(v: Order, s: State, places: seq<Place>, m: nat)
    requires Inv(s, places) && Boosts(v, s, places) && m < |s.monitors| && s.monitors[m].pc.Chosen?
    requires var p := s.monitors[m].pid; p < |s.procs| && s.procs[p].level < |s.queues|
    requires Proc(s.monitors[m].pid) in s.queues[s.procs[s.monitors[m].pid].level]
    ensures !NotBelow(s.queues, s.monitors[m].pid)
  {
    hide FreshIfNew, HaveRun, NoDup, LockOk, LevelOk;
    assert BoostOk(v, s, places, m) && Placed(s, places, s.monitors[m].pid);
  }

  lemma MonitorDemotes(v: Order, s: State, places: seq<Place>, m: nat, p: nat)
    requires Inv(s, places) && Boosts(v, s, places) && m < |s.monitors| && MonitorNext(v, s, m).Some?
    requires Demoted(MonitorNext(v, s, m).value, p)
    ensures Demoted(s, p)
  {
    hide Inv, Boosts, NotBelow, Insert, Delete, IndexOf, PushPlace, MonitorNext;
    MonitorFrame(v, s, m);
    MonitorQueues(v, s, m);
    MonitorTakes(v, s, m);
    var t, q := MonitorNext(v, s, m).value, s.monitors[m].pid;
    assert forall x: nat :: Undecided(t, x, p) ==> Undecided(s, x, p);
    assert forall k: nat :: Carried(t, k, p) && k != m ==> Carried(s, k, p);
    if t.monitors[m].pc.Taken? {
      TakesFromBelow(v, s, places, m);
    }
    if !NotBelow(t.queues, p) && t.queues != s.queues {
      var level := s.procs[q].level;
      if s.monitors[m].pc.Chosen? {
        DeletedBelow(s.queues, level, IndexOf(s.queues[level], Proc(q)), p);
      } else {
        assert Carried(s, m, q);
        InsertedBelow(s.queues, level, PushPlace(s.queues[level], s.lengths, q, level), Proc(q), p);
      }
    }
  }

  lemma MonitorTakes(v: Order, s: State, m: nat)
    requires m < |s.monitors| && MonitorNext(v, s, m).Some?
    ensures var t, p := MonitorNext(v, s, m).value, s.monitors[m].pid;
      && m < |t.monitors| && p < |s.procs|
      && (t.monitors[m].pc.Taken? ==>
            s.monitors[m].pc.Chosen? && s.procs[p].level < |s.queues| && Proc(p) in s.queues[s.procs[p].level])
  {
    hide Insert, Delete, IndexOf, PushPlace;
  }

  lemma StepDemotes(v: Order, s: State, places: seq<Place>, a: Action, c: Choice, p: nat)
    requires Inv(s, places) && Boosts(v, s, places) && Next(v, s, a, c).Some?
    requires Demoted(Next(v, s, a, c).value, p)
    ensures !EndsSliceOf(Event(s, a, c), p)
    ensures Demotes(Event(s, a, c), p) || Demoted(s, p)
  {
    hide Inv, Boosts, Demoted, WorkerNext, OsNext, MonitorNext;
    match a {
      case OfWorker(w) =>
        NotExited(s, w, c);
        if s.workers[w].Scan? {
          ScanDemotes(s, w, c, p);
        } else if s.workers[w].stage.Running? {
          SliceDemotes(s, places, w, c, p);
        } else if s.workers[w].stage.Deciding? {
          DecideDemotes(s, w, c, p);
        } else {
          StageDemotes(s, w, c, p);
        }
      case OfOs =>
        BoostsOs(v, s, places);
        OsDemotes(s, c, p);
      case OfMonitor(m) => MonitorDemotes(v, s, places, m, p);
    }
  }

  lemma BoostsOs(v: Order, s: State, places: seq<Place>)
    requires Boosts(v, s, places)
    ensures s.os.Pushing? ==> s.os.level == MAX_PRIORITY_LEVEL
  {
  }

  /** A demoted process is known to no one who would create it. */
  lemma DemotedNotCreated(s: State, places: seq<Place>, p: nat)
    requires Inv(s, places) && p < |places| && Demoted(s, p)
    ensures s.os != Moved(p, true)
  {
    hide FreshIfNew, HaveRun, NoDup, LockOk, MonitorsOk;
    assert Placed(s, places, p);
    assert forall m: nat :: Carried(s, m, p) ==> MonitorHas(s.monitors[m], p);
    assert forall w: nat :: Undecided(s, w, p) ==> WorkerHas(s.workers[w], s.procs[p], p);
  }

  lemma OsKeepsFlag(s: State, c: Choice, p: nat)
    requires OsNext(s, c).Some? && p < |s.procs| && s.os != Moved(p, true)
    ensures p < |OsNext(s, c).value.procs| && OsNext(s, c).value.procs[p] == s.procs[p]
  {
    hide Insert, PushPlace;
  }

  lemma MonitorKeepsFlag(v: Order, s: State, m: nat, p: nat)
    requires m < |s.monitors| && MonitorNext(v, s, m).Some? && p < |s.procs| && s.monitors[m] != Monitor(p, Closing)
    ensures var t := MonitorNext(v, s, m).value;
      p < |t.procs| && t.procs[p].waitingBoost == s.procs[p].waitingBoost
  {
    hide Insert, Delete, IndexOf, PushPlace;
  }

  /** The flag is set by the demotion, and stays until a monitor of the process ends. */
  lemma FlagStays(v: Order, s: State, places: seq<Place>, a: Action, c: Choice, p: nat)
    requires Inv(s, places) && Next(v, s, a, c).Some? && p < |places| && |s.procs| == |places|
    requires Demotes(Event(s, a, c), p) || (Demoted(s, p) && s.procs[p].waitingBoost)
    ensures p < |Next(v, s, a, c).value.procs|
    ensures Next(v, s, a, c).value.procs[p].waitingBoost || EndsMonitor(Event(s, a, c), p)
  {
    hide Inv, Demoted, WorkerNext, OsNext, MonitorNext;
    SameSize(v, s, a, c);
    match a {
      case OfWorker(w) => WorkerFlags(s, w, c, p);
      case OfOs =>
        DemotedNotCreated(s, places, p);
        OsKeepsFlag(s, c, p);
      case OfMonitor(m) =>
        if s.monitors[m] != Monitor(p, Closing) {
          MonitorKeepsFlag(v, s, m, p);
        }
    }
  }

  lemma StartNotDemoted(jobs: seq<Job>, p: nat)
    ensures !Demoted(Start(jobs), p)
  {
  }

  lemma DemotionEndsNone(e: Event, p: nat)
    requires Demotes(e, p)
    ensures !EndsMonitor(e, p)
  {
  }

  lemma SameSize(v: Order, s: State, a: Action, c: Choice)
    requires Next(v, s, a, c).Some?
    ensures |Next(v, s, a, c).value.procs| == |s.procs|
  {
    hide Insert, Delete, PushPlace, IndexOf;
  }

  /** In every run, under both orders: a process that waits below the top, or is about to, was demoted at some step
      and not run since, and then its flag is set, so that a monitor is pending, or a monitor of it has ended since. */
  lemma {:induction false} DemotedIsMonitored(v: Order, jobs: seq<Job>, path: seq<Event>, s: State, p: nat)
    returns (j: nat)
    requires (forall i :: 0 <= i < |jobs| ==> jobs[i].bursts > 0) && IsRun(v, jobs, path, s)
    requires p < |jobs| && Demoted(s, p)
    ensures j < |path| && Demotes(path[j], p) && (forall i :: j < i < |path| ==> !EndsSliceOf(path[i], p))
    ensures p < |s.procs|
    ensures s.procs[p].waitingBoost || exists i :: j < i < |path| && EndsMonitor(path[i], p)
    decreases |path|
  {
    hide Next, Inv, Boosts, Demoted, Demotes, EndsMonitor, EndsSliceOf, Start;
    if path == [] {
      StartNotDemoted(jobs, p);
      assert false;
    } else {
      var e, rest := path[|path| - 1], path[..|path| - 1];
      RunReached(v, jobs, rest, e.s);
      var places := ReachedBoosts(v, jobs, e.s, |rest|);
      StepDemotes(v, e.s, places, e.a, e.c, p);
      if Demotes(e, p) {
        j := |rest|;
        FlagStays(v, e.s, places, e.a, e.c, p);
        DemotionEndsNone(e, p);
      } else {
        j := DemotedIsMonitored(v, jobs, rest, e.s, p);
        if e.s.procs[p].waitingBoost {
          FlagStays(v, e.s, places, e.a, e.c, p);
        } else {
          SameSize(v, e.s, e.a, e.c);
        }
      }
    }
  }

  // ---------------------------------------------------------------- who leaves a list

  /** A worker that takes from a list takes what stands first in it, from the first list that it finds not empty, and
      leaves the rest in order; it goes on with the process, or ends with a pill. */
  lemma PopTakesFirst(s: State, w: nat, c: Choice)
    requires w < |s.workers| && s.workers[w].Scan? && WorkerNext(s, w, c).Some?
    ensures var l, t := s.workers[w].level, WorkerNext(s, w, c).value;
      && |t.workers| == |s.workers| && |t.queues| == |s.queues|
      && (forall k :: 0 <= k < |s.queues| && k != l ==> t.queues[k] == s.queues[k])
      && if l < |s.queues| && s.queues[l] != [] then
           && s.queues[l] == [s.queues[l][0]] + t.queues[l]
           && t.workers[w] == if s.queues[l][0] == Pill then Exited else With(s.queues[l][0].pid, Popped)
         else
           && t.queues == s.queues && t.workers[w] == if l < |s.queues| then Scan(l + 1) else Scan(0)
  {
  }

  /** In every reachable state, under both orders, a step appends to the top list, or takes its first process for a
      worker, or leaves it: processes leave it in the order in which they came. */
  lemma TopIsFirstInFirstOut(v: Order, jobs: seq<Job>, s: State, n: nat, a: Action, c: Choice)
    requires (forall i :: 0 <= i < |jobs| ==> jobs[i].bursts > 0) && Reached(v, jobs, s, n) && Next(v, s, a, c).Some?
    ensures |s.queues| == |Next(v, s, a, c).value.queues| == NUM_PRIORITY_LEVELS
    ensures var t := Next(v, s, a, c).value;
      || t.queues[0] == s.queues[0]
      || (exists p :: t.queues[0] == s.queues[0] + [Proc(p)])
      || (a.OfWorker? && a.w < |s.workers| && a.w < |t.workers| && s.workers[a.w] == Scan(0)
          && s.queues[0] != [] && s.queues[0][0].Proc? && s.queues[0] == [s.queues[0][0]] + t.queues[0]
          && t.workers[a.w] == With(s.queues[0][0].pid, Popped))
  {
    hide Inv, Boosts, WorkerNext, OsNext, MonitorNext, Reached, Ending, NoPills, PillsLeft;
    var places := ReachedBoosts(v, jobs, s, n);
    InvShape(s, places);
    match a {
      case OfWorker(w) =>
        NotExited(s, w, c);
        if s.workers[w].Scan? {
          PopTakesFirst(s, w, c);
          NoPillOnTop(v, jobs, s, n);
        } else {
          WorkerAppends(s, w, c);
        }
      case OfOs => OsAppends(s, c);
      case OfMonitor(m) => MonitorAppends(v, s, places, m);
    }
  }

  /** Between two slices, in every reachable state: the process keeps the core exactly when it was preempted, is below
      the top, and the worker asks for one more slice. Otherwise the worker unlocks it and does no more. */
  lemma RunsOnIff(v: Order, jobs: seq<Job>, s: State, n: nat, w: nat, c: Choice)
    requires (forall i :: 0 <= i < |jobs| ==> jobs[i].bursts > 0) && Reached(v, jobs, s, n)
    requires w < |s.workers| && s.workers[w].With? && s.workers[w].stage.Ran?
    ensures var p := s.workers[w].pid;
      && p < |s.procs| && s.procs[p].lock == ByWorker(w) && !s.procs[p].status.NotRun?
      && WorkerNext(s, w, c) == Some(
           if c.again && s.procs[p].status.RunPreempted? && s.procs[p].level > 0
           then s.(workers := s.workers[w := With(p, Locked)])
           else s.(workers := s.workers[w := With(p, Unlocked)], procs := s.procs[p := s.procs[p].(lock := Free)]))
  {
    hide Reached;
    var places := ReachedInv(v, jobs, s, n);
    HeldAfterSlice(s, places, w);
  }

  lemma HeldAfterSlice(s: State, places: seq<Place>, w: nat)
    requires Inv(s, places) && w < |s.workers| && s.workers[w].With? && s.workers[w].stage.Ran?
    ensures var p := s.workers[w].pid;
      p < |s.procs| && p < |s.infos| && p < |s.lengths| && s.procs[p].lock == ByWorker(w) && !s.procs[p].status.NotRun?
  {
    var p := s.workers[w].pid;
    assert p < |places| && LockOk(s, p);
  }

  lemma NoPillOnTop(v: Order, jobs: seq<Job>, s: State, n: nat)
    requires (forall i :: 0 <= i < |jobs| ==> jobs[i].bursts > 0) && Reached(v, jobs, s, n)
    ensures |s.queues| == NUM_PRIORITY_LEVELS && (s.queues[0] != [] ==> s.queues[0][0].Proc?)
  {
    hide Reached, Inv, CountFinished;
    var places := ReachedEnding(v, jobs, s, n);
    assert s.queues[0] != [] ==> s.queues[0][0] in s.queues[0];
  }

  lemma WorkerAppends(s: State, w: nat, c: Choice)
    requires w < |s.workers| && s.workers[w].With? && WorkerNext(s, w, c).Some? && |s.queues| > 0
    ensures var t := WorkerNext(s, w, c).value;
      |t.queues| == |s.queues| && (t.queues[0] == s.queues[0] || exists p :: t.queues[0] == s.queues[0] + [Proc(p)])
  {
    hide WorkerNext, SortedPlace;
    var p := s.workers[w].pid;
    if s.workers[w].stage.Deciding? {
      DecideFrame(s, w, c);
      assert Insert(s.queues[0], |s.queues[0]|, Proc(p)) == s.queues[0] + [Proc(p)];
    } else if s.workers[w].stage.Running? {
      SliceFrame(s, w, c);
    } else {
      StageFrame(s, w, c);
    }
  }

  lemma OsAppends(s: State, c: Choice)
    requires OsNext(s, c).Some? && |s.queues| > 0
    ensures var t := OsNext(s, c).value;
      |t.queues| == |s.queues| && (t.queues[0] == s.queues[0] || exists p :: t.queues[0] == s.queues[0] + [Proc(p)])
  {
    hide SortedPlace;
    if s.os.Pushing? {
      assert Insert(s.queues[0], |s.queues[0]|, Proc(s.os.i)) == s.queues[0] + [Proc(s.os.i)];
    }
  }

  lemma MonitorAppends(v: Order, s: State, places: seq<Place>, m: nat)
    requires Inv(s, places) && Boosts(v, s, places) && m < |s.monitors| && MonitorNext(v, s, m).Some?
    requires |s.queues| > 0
    ensures var t := MonitorNext(v, s, m).value;
      |t.queues| == |s.queues| && (t.queues[0] == s.queues[0] || exists p :: t.queues[0] == s.queues[0] + [Proc(p)])
  {
    hide Inv, Boosts, MonitorNext, SortedPlace, IndexOf, Delete;
    MonitorFrame(v, s, m);
    MonitorQueues(v, s, m);
    var p := s.monitors[m].pid;
    assert Insert(s.queues[0], |s.queues[0]|, Proc(p)) == s.queues[0] + [Proc(p)];
    if s.monitors[m].pc.Chosen? && s.procs[p].level < |s.queues| && Proc(p) in s.queues[s.procs[p].level] {
      TakesAboveNone(v, s, places, m);
    }
  }

  lemma TakesAboveNone(v: Order, s: State, places: seq<Place>, m: nat)
    requires Inv(s, places) && Boosts(v, s, places) && m < |s.monitors| && s.monitors[m].pc.Chosen?
    requires var p := s.monitors[m].pid; p < |s.procs| && s.procs[p].level < |s.queues|
    requires Proc(s.monitors[m].pid) in s.queues[s.procs[s.monitors[m].pid].level]
    ensures s.procs[s.monitors[m].pid].level > MAX_PRIORITY_LEVEL
  {
    hide FreshIfNew, HaveRun, NoDup, LockOk, LevelOk;
    assert BoostOk(v, s, places, m) && Placed(s, places, s.monitors[m].pid);
  }

  /** A monitor that wakes lowers the number of its process's level to that of the first list below the top, or to
      the top when the process is blocked, unless it is there or above already, or the process is over. */
  lemma MonitorLowers(s: State, m: nat)
    requires m < |s.monitors| && s.monitors[m].pc.Asleep? && MonitorNext(AS_WRITTEN, s, m).Some?
    ensures var p, t := s.monitors[m].pid, MonitorNext(AS_WRITTEN, s, m).value;
      && p < |s.procs| && p < |t.procs| && t.procs[p].status == s.procs[p].status
      && t.procs[p].level == (match s.procs[p].status
                              case RunDone => s.procs[p].level
                              case RunBlocked => 0
                              case _ => Min(s.procs[p].level, 1))
  {
  }

  /** A preempted process goes to the list of its level, behind all shorter ones and in front of all others. */
  lemma PreemptedGoesBehindShorter(v: Order, jobs: seq<Job>, s: State, n: nat, w: nat, c: Choice) returns (k: nat)
    requires (forall i :: 0 <= i < |jobs| ==> jobs[i].bursts > 0) && Reached(v, jobs, s, n)
    requires Decides(s, w) && WorkerNext(s, w, c).Some? && s.workers[w].pid < |s.procs|
    requires s.procs[s.workers[w].pid].status.RunPreempted? && s.procs[s.workers[w].pid].level > 0
    ensures var p, level, t := s.workers[w].pid, s.procs[s.workers[w].pid].level, WorkerNext(s, w, c).value;
      && level < |s.queues| && t.lengths == s.lengths && k <= |s.queues[level]| && p < |s.lengths|
      && t.queues == s.queues[level := s.queues[level][..k] + [Proc(p)] + s.queues[level][k..]]
      && forall i :: 0 <= i < |s.queues[level]| ==>
           var x := s.queues[level][i];
           && x.Proc? && x.pid < |s.lengths|
           && (s.lengths[x.pid].burst + s.lengths[x.pid].io < s.lengths[p].burst + s.lengths[p].io <==> i < k)
  {
    hide Inv, Reached, WorkerNext, AboutToPush, NoPills, NoProcs, SortedBelow, SortedPlace;
    DecideFrame(s, w, c);
    var p, level := s.workers[w].pid, s.procs[s.workers[w].pid].level;
    k := PushPlace(s.queues[level], s.lengths, p, level);
    var places := ReachedInv(v, jobs, s, n);
    ReachedSorted(v, jobs, s, n);
    ShutdownSafe(v, jobs, s, n);
    QueuesInRange(s, places);
    PushIsPlaced(s, w, level);
    forall i | 0 <= i < |s.queues[level]|
      ensures var x := s.queues[level][i];
        && x.Proc? && x.pid < |s.lengths|
        && (Key(s.lengths[x.pid]) < Key(s.lengths[p]) <==> i < k)
    {
      PlaceSplits(s.queues[level], s.lengths, p, i);
    }
  }

  /** The list that a preempted process goes to is sorted and holds processes only. */
  lemma PushIsPlaced(s: State, w: nat, level: nat)
    requires Decides(s, w) && s.workers[w].pid < |s.procs| && s.procs[s.workers[w].pid].status.RunPreempted?
    requires Sorted(s) && QueuesOk(s.queues, |s.lengths|) && 0 < level < |s.queues|
    requires AboutToPush(s) ==> NoPills(s.queues)
    ensures SortedList(s.queues[level], s.lengths)
    ensures forall x :: x in s.queues[level] ==> Timed(x, s.lengths)
  {
    hide SortedList;
    assert AboutToPush(s);
    assert forall x :: x in s.queues[level] ==> x != Pill;
  }
}
