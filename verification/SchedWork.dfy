/** Work conservation: every burst is charged its length exactly, the lifecycle asserts of os.c never
    fail, and the number of dispatches is bounded by the jobs alone. */
module SchedWork {
  import opened Common
  import opened SchedModel
  import opened SchedFrames
  import opened SchedInvariant

  // ---------------------------------------------------------------- the invariant

  /** Bursts before the current one are used up, those after it untouched, and of the current one
      what is charged and what remains add up. */
  ghost predicate BurstsOk(info: Info, job: Job) {
    && |info.remaining| == |info.ran| == job.bursts
    && info.burstTime == job.burstTime
    && info.cpuIndex <= job.bursts
    && (forall b :: 0 <= b < job.bursts ==> info.remaining[b] + info.ran[b] == job.burstTime)
    && (forall b :: 0 <= b < info.cpuIndex ==> info.remaining[b] == 0)
    && (forall b :: info.cpuIndex < b < job.bursts ==> info.ran[b] == 0)
  }

  /** The burst of process p is over and its I/O has not started. */
  ghost predicate IoDue(s: State, place: Place, p: nat)
    requires p < |s.procs|
  {
    && place.AtWorker? && place.w < |s.workers|
    && s.workers[place.w].With? && AfterSlice(s.workers[place.w].stage)
    && s.procs[p].status.RunBlocked?
  }

  ghost predicate IoOk(s: State, places: seq<Place>, p: nat)
    requires p < |s.infos| && p < |s.procs| && p < |places|
  {
    && s.infos[p].ioIndex + (if IoDue(s, places[p], p) || places[p] == Finished then 1 else 0) == s.infos[p].cpuIndex
    && (places[p] == NotArrived || s.os == Moved(p, true) ==> s.infos[p].cpuIndex == 0)
  }

  /** A worker's local copy of a burst is the burst. */
  ghost predicate CopiesBurst(s: State, pc: WorkerPc)
    requires pc.With? && pc.stage.Running?
  {
    && pc.stage.slice > 0 && pc.pid < |s.infos|
    && s.infos[pc.pid].cpuIndex < |s.infos[pc.pid].remaining|
    && pc.stage.left == s.infos[pc.pid].remaining[s.infos[pc.pid].cpuIndex]
  }

  ghost predicate SlicesOk(s: State) {
    forall w :: 0 <= w < |s.workers| && s.workers[w].With? && s.workers[w].stage.Running? ==>
      CopiesBurst(s, s.workers[w])
  }

  /** Time left plus bursts left. */
  ghost function Potential(info: Info): int {
    Sum(info.remaining) + |info.remaining| - info.cpuIndex
  }

  ghost function Total(infos: seq<Info>): int {
    if infos == [] then 0 else Potential(infos[0]) + Total(infos[1..])
  }

  ghost function Budget(jobs: seq<Job>): nat {
    if jobs == [] then 0 else jobs[0].bursts * (jobs[0].burstTime + 1) + Budget(jobs[1..])
  }

  ghost predicate Work(s: State, places: seq<Place>, jobs: seq<Job>) {
    && |s.infos| == |s.procs| == |places| == |jobs|
    && (forall p :: 0 <= p < |jobs| ==> BurstsOk(s.infos[p], jobs[p]))
    && (forall p :: 0 <= p < |jobs| ==> IoOk(s, places, p))
    && SlicesOk(s)
    && s.slices + Total(s.infos) <= Budget(jobs)
  }

  // ---------------------------------------------------------------- sums

  lemma {:induction false} TotalUpdate(infos: seq<Info>, i: nat, info: Info)
    requires i < |infos|
    ensures Total(infos[i := info]) == Total(infos) - Potential(infos[i]) + Potential(info)
  {
    if i > 0 {
      assert infos[i := info][1..] == infos[1..][i - 1 := info];
      TotalUpdate(infos[1..], i - 1, info);
    } else {
      assert infos[0 := info][1..] == infos[1..];
    }
  }

  lemma {:induction false} StartTotal(jobs: seq<Job>)
    ensures Total(Start(jobs).infos) == Budget(jobs)
  {
    if jobs != [] {
      StartTotal(jobs[1..]);
      assert Start(jobs).infos[1..] == Start(jobs[1..]).infos;
      SumConstant(jobs[0].bursts, jobs[0].burstTime);
    }
  }

  lemma {:induction false} TotalNonNegative(infos: seq<Info>)
    requires forall p :: 0 <= p < |infos| ==> infos[p].cpuIndex <= |infos[p].remaining|
    ensures Total(infos) >= 0
  {
    if infos != [] {
      TotalNonNegative(infos[1..]);
    }
  }

  lemma StartWork(jobs: seq<Job>)
    ensures Work(Start(jobs), seq(|jobs|, _ => NotArrived), jobs)
  {
    StartTotal(jobs);
  }

  // ---------------------------------------------------------------- one step

  lemma ScanIo(s: State, places: seq<Place>, w: nat, c: Choice, q: nat)
    requires Shape(s, places) && w < |s.workers| && WorkerNext(s, w, c).Some? && q < |places|
    requires Placed(s, places, q) && IoOk(s, places, q)
    requires s.workers[w].With? ==> Placed(s, places, s.workers[w].pid)
    requires s.workers[w].Scan?
    ensures IoOk(WorkerNext(s, w, c).value, AfterWorker(s, places, w, c), q)
  {
    hide MonitorsOk, PlacedAtMonitors, NoDup;
  }

  lemma SliceIo(s: State, places: seq<Place>, w: nat, c: Choice, q: nat)
    requires Shape(s, places) && w < |s.workers| && WorkerNext(s, w, c).Some? && q < |places|
    requires Placed(s, places, q) && IoOk(s, places, q)
    requires s.workers[w].With? ==> Placed(s, places, s.workers[w].pid)
    requires s.workers[w].With? && s.workers[w].stage.Running?
    ensures IoOk(WorkerNext(s, w, c).value, AfterWorker(s, places, w, c), q)
  {
    hide MonitorsOk, PlacedAtMonitors, NoDup, QueuesOk, PlacedInQueues;
  }

  lemma DecideIo(s: State, places: seq<Place>, w: nat, c: Choice, q: nat)
    requires Shape(s, places) && w < |s.workers| && WorkerNext(s, w, c).Some? && q < |places|
    requires Placed(s, places, q) && IoOk(s, places, q)
    requires s.workers[w].With? ==> Placed(s, places, s.workers[w].pid)
    requires s.workers[w].With? && s.workers[w].stage.Deciding?
    ensures IoOk(WorkerNext(s, w, c).value, AfterWorker(s, places, w, c), q)
  {
    hide MonitorsOk, PlacedAtMonitors, NoDup;
  }

  lemma StageIo(s: State, places: seq<Place>, w: nat, c: Choice, q: nat)
    requires Shape(s, places) && w < |s.workers| && WorkerNext(s, w, c).Some? && q < |places|
    requires Placed(s, places, q) && IoOk(s, places, q)
    requires s.workers[w].With? ==> Placed(s, places, s.workers[w].pid)
    requires s.workers[w].With? && !s.workers[w].stage.Running? && !s.workers[w].stage.Deciding?
    ensures IoOk(WorkerNext(s, w, c).value, AfterWorker(s, places, w, c), q)
  {
    hide WorkerNext, MonitorsOk, PlacedAtMonitors, QueuesOk, PlacedInQueues;
    StageFrame(s, w, c);
  }

  lemma WorkerIo(s: State, places: seq<Place>, w: nat, c: Choice, q: nat)
    requires Shape(s, places) && w < |s.workers| && WorkerNext(s, w, c).Some? && q < |places|
    requires Placed(s, places, q) && IoOk(s, places, q)
    requires s.workers[w].With? ==> Placed(s, places, s.workers[w].pid)
    ensures IoOk(WorkerNext(s, w, c).value, AfterWorker(s, places, w, c), q)
  {
    hide Placed, IoOk, AfterWorker, QueuesOk, MonitorsOk, LevelsOk, OsOk;
    if s.workers[w].Scan? {
      ScanIo(s, places, w, c, q);
    } else if s.workers[w].With? {
      if s.workers[w].stage.Running? {
        SliceIo(s, places, w, c, q);
      } else if s.workers[w].stage.Deciding? {
        DecideIo(s, places, w, c, q);
      } else {
        StageIo(s, places, w, c, q);
      }
    }
  }

  lemma OsIo(s: State, places: seq<Place>, c: Choice, q: nat)
    requires Shape(s, places) && OsNext(s, c).Some? && q < |places|
    requires Placed(s, places, q) && IoOk(s, places, q)
    ensures IoOk(OsNext(s, c).value, AfterOs(s, places, c), q)
  {
    hide QueuesOk, MonitorsOk, LevelsOk, PlacedInQueues, PlacedAtMonitors;
  }

  lemma MonitorIo(v: Order, s: State, places: seq<Place>, m: nat, q: nat)
    requires Shape(s, places) && m < |s.monitors| && MonitorNext(v, s, m).Some? && q < |places|
    requires Placed(s, places, q) && Placed(s, places, s.monitors[m].pid) && IoOk(s, places, q)
    ensures IoOk(MonitorNext(v, s, m).value, AfterMonitor(v, s, places, m), q)
  {
    hide NoDup, MonitorNext, PlacedAtWorkers, WorkersOk, OsOk;
    MonitorFrame(v, s, m);
  }

  lemma StepIo(v: Order, s: State, places: seq<Place>, a: Action, c: Choice, q: nat)
    requires Inv(s, places) && Next(v, s, a, c).Some? && q < |places| && IoOk(s, places, q)
    ensures Inv(Next(v, s, a, c).value, After(v, s, places, a, c))
    ensures IoOk(Next(v, s, a, c).value, After(v, s, places, a, c), q)
  {
    hide Placed, LockOk, FreshIfNew, HaveRun, WorkerNext, OsNext, MonitorNext, AfterWorker, AfterOs, AfterMonitor, IoOk;
    StepKeeps(v, s, places, a, c);
    assert Placed(s, places, q);
    match a
    case OfWorker(w) =>
      if s.workers[w].With? { assert Placed(s, places, s.workers[w].pid); }
      WorkerIo(s, places, w, c, q);
    case OfOs => OsIo(s, places, c, q);
    case OfMonitor(m) =>
      assert Placed(s, places, s.monitors[m].pid);
      MonitorIo(v, s, places, m, q);
  }

  lemma {:induction false} SameTotal(a: seq<Info>, b: seq<Info>)
    requires |a| == |b| && forall p :: 0 <= p < |a| ==> SameCharges(a[p], b[p])
    ensures Total(a) == Total(b)
  {
    if a != [] {
      SameTotal(a[1..], b[1..]);
    }
  }

  ghost predicate EndsSlice(s: State, a: Action) {
    a.OfWorker? && a.w < |s.workers| && s.workers[a.w].With? && s.workers[a.w].stage.Running?
  }

  lemma QuietBursts(v: Order, s: State, a: Action, c: Choice)
    requires Next(v, s, a, c).Some? && !EndsSlice(s, a)
    ensures var t := Next(v, s, a, c).value;
      && |t.infos| == |s.infos| && t.slices == s.slices
      && forall p :: 0 <= p < |s.infos| ==> SameCharges(s.infos[p], t.infos[p])
  {
    hide WorkerNext, OsNext, MonitorNext;
    match a
    case OfWorker(w) => QuietWorker(s, w, c);
    case OfOs => OsFrame(s, c);
    case OfMonitor(m) => MonitorFrame(v, s, m);
  }

  /** A step of a worker that does not end a slice leaves the bursts alone, and a worker that enters a slice copies
      its burst. */
  lemma QuietWorker(s: State, w: nat, c: Choice)
    requires w < |s.workers| && WorkerNext(s, w, c).Some? && !(s.workers[w].With? && s.workers[w].stage.Running?)
    ensures var t := WorkerNext(s, w, c).value;
      && |t.infos| == |s.infos| && t.slices == s.slices
      && (forall p :: 0 <= p < |s.infos| ==> SameCharges(s.infos[p], t.infos[p]))
      && |t.workers| == |s.workers| && (forall x :: 0 <= x < |s.workers| && x != w ==> t.workers[x] == s.workers[x])
      && (t.workers[w].With? && t.workers[w].stage.Running? ==> CopiesBurst(s, t.workers[w]))
  {
    hide WorkerNext;
    NotExited(s, w, c);
    if s.workers[w].Scan? {
      ScanFrame(s, w, c);
    } else if s.workers[w].stage.Deciding? {
      DecideFrame(s, w, c);
    } else {
      StageFrame(s, w, c);
    }
  }

  /** A slice charges one burst what it takes from its remaining time, and lowers the potential. */
  lemma SliceBursts(s: State, w: nat, p: nat, slice: nat, left: nat, elapsed: nat, job: Job)
    requires w < |s.workers| && p < |s.procs| && p < |s.infos| && p < |s.lengths| && BurstsOk(s.infos[p], job)
    requires slice > 0 && s.infos[p].cpuIndex < job.bursts && left == s.infos[p].remaining[s.infos[p].cpuIndex]
    ensures SliceEnds(s, w, p, slice, left, elapsed).Some?
    ensures var t := SliceEnds(s, w, p, slice, left, elapsed).value;
      BurstsOk(t.infos[p], job) && Potential(t.infos[p]) < Potential(s.infos[p])
  {
    var b := s.infos[p].cpuIndex;
    SumUpdate(s.infos[p].remaining, b, 0);
    SumUpdate(s.infos[p].remaining, b, if slice < left then left - slice else 0);
  }

  lemma SliceWork(s: State, places: seq<Place>, jobs: seq<Job>, w: nat, p: nat, slice: nat, left: nat, elapsed: nat)
    requires Inv(s, places) && Work(s, places, jobs) && w < |s.workers| && p < |jobs|
    requires s.workers[w] == With(p, Running(slice, left))
    ensures SliceEnds(s, w, p, slice, left, elapsed).Some?
    ensures var t := SliceEnds(s, w, p, slice, left, elapsed).value;
      && |t.infos| == |s.infos|
      && (forall q :: 0 <= q < |jobs| ==> BurstsOk(t.infos[q], jobs[q]))
      && t.slices + Total(t.infos) <= Budget(jobs)
  {
    hide Placed, LockOk, FreshIfNew, HaveRun, Shape, IoOk, BurstsOk, Potential, Total;
    InvShape(s, places);
    assert SlicesOk(s) && BurstsOk(s.infos[p], jobs[p]);
    assert slice > 0 && s.infos[p].cpuIndex < |s.infos[p].remaining|;
    assert left == s.infos[p].remaining[s.infos[p].cpuIndex];
    assert |s.infos[p].remaining| == jobs[p].bursts by { BurstCount(s.infos[p], jobs[p]); }
    SliceBursts(s, w, p, slice, left, elapsed, jobs[p]);
    var t := SliceEnds(s, w, p, slice, left, elapsed).value;
    TotalUpdate(s.infos, p, t.infos[p]);
    assert t.infos == s.infos[p := t.infos[p]];
  }

  lemma BurstCount(info: Info, job: Job)
    requires BurstsOk(info, job)
    ensures |info.remaining| == job.bursts
  {
  }

  /** A worker in a slice after a step took its copy then, or had it before. */
  lemma QuietSlices(v: Order, s: State, a: Action, c: Choice)
    requires SlicesOk(s) && Next(v, s, a, c).Some? && !EndsSlice(s, a)
    ensures SlicesOk(Next(v, s, a, c).value)
  {
    QuietBursts(v, s, a, c);
    QuietWorkers(v, s, a, c);
    hide Next;
  }

  lemma QuietWorkers(v: Order, s: State, a: Action, c: Choice)
    requires Next(v, s, a, c).Some? && !EndsSlice(s, a)
    ensures var t := Next(v, s, a, c).value;
      && |t.workers| == |s.workers|
      && forall w :: 0 <= w < |s.workers| && t.workers[w].With? && t.workers[w].stage.Running? ==>
           t.workers[w] == s.workers[w] || CopiesBurst(s, t.workers[w])
  {
    hide WorkerNext, OsNext, MonitorNext;
    match a
    case OfWorker(w) => QuietWorker(s, w, c);
    case OfOs => OsFrame(s, c);
    case OfMonitor(m) => MonitorFrame(v, s, m);
  }

  /** No other worker is in a slice of the same process. */
  lemma EndSlices(s: State, places: seq<Place>, w: nat, p: nat, slice: nat, left: nat, elapsed: nat)
    requires Inv(s, places) && SlicesOk(s) && w < |s.workers| && p < |s.procs|
    requires s.workers[w] == With(p, Running(slice, left)) && SliceEnds(s, w, p, slice, left, elapsed).Some?
    ensures SlicesOk(SliceEnds(s, w, p, slice, left, elapsed).value)
  {
    hide LockOk, FreshIfNew, HaveRun, QueuesOk, MonitorsOk, LevelsOk, OsOk;
    var t := SliceEnds(s, w, p, slice, left, elapsed).value;
    assert Placed(s, places, p);
    assert forall x :: 0 <= x < |t.workers| && x != w && t.workers[x].With? && t.workers[x].stage.Running? ==>
      t.workers[x].pid != p;
  }

  lemma StepWork(v: Order, s: State, places: seq<Place>, jobs: seq<Job>, a: Action, c: Choice)
    requires Inv(s, places) && Work(s, places, jobs) && Next(v, s, a, c).Some?
    ensures Inv(Next(v, s, a, c).value, After(v, s, places, a, c))
    ensures Work(Next(v, s, a, c).value, After(v, s, places, a, c), jobs)
  {
    hide Inv, After, IoOk, SlicesOk, BurstsOk, Total;
    StepKeeps(v, s, places, a, c);
    InvShape(s, places);
    var t, after := Next(v, s, a, c).value, After(v, s, places, a, c);
    InvShape(t, after);
    forall q | 0 <= q < |jobs| ensures IoOk(t, after, q) {
      StepIo(v, s, places, a, c, q);
    }
    if EndsSlice(s, a) {
      var With(p, Running(slice, left)) := s.workers[a.w];
      SliceWork(s, places, jobs, a.w, p, slice, left, c.elapsed);
      EndSlices(s, places, a.w, p, slice, left, c.elapsed);
    } else {
      QuietSlices(v, s, a, c);
      QuietBursts(v, s, a, c);
      SameTotal(s.infos, t.infos);
      forall q | 0 <= q < |jobs| ensures BurstsOk(t.infos[q], jobs[q]) {
        SameBurstsOk(s.infos[q], t.infos[q], jobs[q]);
      }
    }
  }

  lemma SameBurstsOk(a: Info, b: Info, job: Job)
    requires BurstsOk(a, job) && SameCharges(a, b)
    ensures BurstsOk(b, job)
  {
  }

  // ---------------------------------------------------------------- whole runs

  lemma {:induction false} ReachedWork(v: Order, jobs: seq<Job>, s: State, n: nat) returns (places: seq<Place>)
    requires (forall i :: 0 <= i < |jobs| ==> jobs[i].bursts > 0) && Reached(v, jobs, s, n)
    ensures |places| == |jobs| && Inv(s, places) && Work(s, places, jobs)
    decreases n
  {
    hide Inv, Next, Start, Shape, After, Work;
    if n == 0 {
      StartInv(jobs);
      StartWork(jobs);
      places := seq(|jobs|, _ => NotArrived);
    } else {
      var t, a, c :| Reached(v, jobs, t, n - 1) && Next(v, t, a, c) == Some(s);
      var before := ReachedWork(v, jobs, t, n - 1);
      StepWork(v, t, before, jobs, a, c);
      InvShape(t, before);
      places := After(v, t, before, a, c);
    }
  }

  /** In every reachable state: a burst that is over was charged its length, a burst that is not was
      charged what is no longer remaining, and the slices run so far are at most one per unit of time
      and one per burst. */
  lemma WorkConserved(v: Order, jobs: seq<Job>, s: State, n: nat, p: nat, b: nat)
    requires (forall i :: 0 <= i < |jobs| ==> jobs[i].bursts > 0) && Reached(v, jobs, s, n)
    requires p < |jobs| && b < jobs[p].bursts
    ensures |s.infos| == |jobs| && |s.infos[p].ran| == |s.infos[p].remaining| == jobs[p].bursts
    ensures b < s.infos[p].cpuIndex ==> s.infos[p].ran[b] == jobs[p].burstTime
    ensures b == s.infos[p].cpuIndex ==> s.infos[p].ran[b] == jobs[p].burstTime - s.infos[p].remaining[b]
    ensures b > s.infos[p].cpuIndex ==> s.infos[p].ran[b] == 0
    ensures s.slices <= Budget(jobs)
  {
    var places := ReachedWork(v, jobs, s, n);
    assert BurstsOk(s.infos[p], jobs[p]);
    forall q | 0 <= q < |jobs| ensures s.infos[q].cpuIndex <= |s.infos[q].remaining| {
      assert BurstsOk(s.infos[q], jobs[q]);
    }
    TotalNonNegative(s.infos);
    hide Inv;
  }

  /** The asserts that worker w meets: os.c:91 (the process it dispatches is not over) and os.c:156
      (the I/O it starts follows the burst that ended). */
  ghost predicate WorkerAsserts(s: State, w: nat)
    requires w < |s.workers|
  {
    s.workers[w].With? ==>
      var p, stage := s.workers[w].pid, s.workers[w].stage;
      && p < |s.infos| && p < |s.procs|
      && (stage.Locked? || stage.Running? ==> s.infos[p].cpuIndex < |s.infos[p].remaining|)
      && (stage.Deciding? && s.procs[p].status.RunBlocked? ==> s.infos[p].ioIndex + 1 == s.infos[p].cpuIndex)
  }

  /** os.c:248 (a new process is at its first burst) and the index of os.c:251. */
  ghost predicate OsAsserts(s: State) {
    s.os.Moved? ==>
      && s.os.i < |s.infos| && s.infos[s.os.i].cpuIndex < |s.infos[s.os.i].remaining|
      && (s.os.create ==> s.infos[s.os.i].cpuIndex == 0)
  }

  lemma InvAsserts(s: State, places: seq<Place>, w: nat)
    requires Inv(s, places) && w < |s.workers| && forall p :: 0 <= p < |places| ==> IoOk(s, places, p)
    ensures WorkerAsserts(s, w) && OsAsserts(s)
  {
    hide LockOk, FreshIfNew, HaveRun, PlacedInQueues, PlacedAtMonitors, QueuesOk, MonitorsOk;
    if s.workers[w].With? {
      assert Placed(s, places, s.workers[w].pid) && IoOk(s, places, s.workers[w].pid);
    }
    if s.os.Moved? {
      assert Placed(s, places, s.os.i) && IoOk(s, places, s.os.i);
    }
  }

  /** The asserts of the process lifecycle never fail. */
  lemma AssertsNeverFail(v: Order, jobs: seq<Job>, s: State, n: nat, w: nat)
    requires (forall i :: 0 <= i < |jobs| ==> jobs[i].bursts > 0) && Reached(v, jobs, s, n)
    requires w < |s.workers|
    ensures WorkerAsserts(s, w) && OsAsserts(s)
  {
    hide Reached, Inv, IoOk, BurstsOk, Total, Budget, WorkerAsserts, OsAsserts;
    var places := ReachedWork(v, jobs, s, n);
    InvAsserts(s, places, w);
  }

  /** A job without bursts breaks them: the loop reaches the first such process and dates a burst
      that it does not have. */
  lemma NoBurstFails(v: Order, jobs: seq<Job>, i: nat) returns (s: State)
    requires i < |jobs| && jobs[i].bursts == 0
    ensures Reached(v, jobs, s, i + 2) && |s.workers| > 0 && !OsAsserts(s)
  {
    hide Reached, Start, OsNext;
    ReachCheck(v, jobs, i);
    var t := Start(jobs).(os := Check(i));
    StartInfo(jobs, i);
    DatesNoBurst(t, i);
    var c := Choice(0, false, true, 0);
    s := OsNext(t, c).value;
    assert Next(v, t, OfOs, c) == OsNext(t, c);
    ReachNext(v, jobs, t, i + 1, OfOs, c);
  }

  lemma StartInfo(jobs: seq<Job>, i: nat)
    requires i < |jobs|
    ensures var s := Start(jobs); i < |s.infos| && s.infos[i].isNew && |s.infos[i].remaining| == jobs[i].bursts
    ensures Start(jobs).infos[i].cpuIndex == 0 && |Start(jobs).workers| > 0
  {
  }

  lemma DatesNoBurst(s: State, i: nat)
    requires s.os == Check(i) && i < |s.infos| && s.infos[i].isNew && |s.infos[i].remaining| == 0
    ensures var t := OsNext(s, Choice(0, false, true, 0));
      t.Some? && t.value.workers == s.workers && !OsAsserts(t.value)
  {
  }

  lemma ReachNext(v: Order, jobs: seq<Job>, s: State, n: nat, a: Action, c: Choice)
    requires Reached(v, jobs, s, n) && Next(v, s, a, c).Some?
    ensures Reached(v, jobs, Next(v, s, a, c).value, n + 1)
  {
    hide Next;
    assert Next(v, s, a, c) == Some(Next(v, s, a, c).value);
  }

  lemma {:induction false} ReachCheck(v: Order, jobs: seq<Job>, i: nat)
    requires i < |jobs|
    ensures Reached(v, jobs, Start(jobs).(os := Check(i)), i + 1)
  {
    hide Reached;
    var c := Choice(0, false, false, 0);
    if i == 0 {
      assert Reached(v, jobs, Start(jobs), 0) by { ReachStart(v, jobs); }
      ReachNext(v, jobs, Start(jobs), 0, OfOs, c);
    } else {
      ReachCheck(v, jobs, i - 1);
      ReachNext(v, jobs, Start(jobs).(os := Check(i - 1)), i, OfOs, c);
    }
  }

  lemma ReachStart(v: Order, jobs: seq<Job>)
    ensures Reached(v, jobs, Start(jobs), 0)
  {
  }

  ghost predicate AssertsHold(v: Order, jobs: seq<Job>) {
    forall s, n, w: nat :: Reached(v, jobs, s, n) && w < |s.workers| ==> WorkerAsserts(s, w) && OsAsserts(s)
  }

  lemma AssertsHoldAlways(v: Order, jobs: seq<Job>)
    requires forall i :: 0 <= i < |jobs| ==> jobs[i].bursts > 0
    ensures AssertsHold(v, jobs)
  {
    hide Reached, WorkerAsserts, OsAsserts;
    forall s, n, w: nat | Reached(v, jobs, s, n) && w < |s.workers| ensures WorkerAsserts(s, w) && OsAsserts(s) {
      AssertsNeverFail(v, jobs, s, n, w);
    }
  }

  /** The lifecycle asserts hold in every reachable state exactly when every job has a burst. */
  lemma AssertsHoldIff(v: Order, jobs: seq<Job>)
    ensures AssertsHold(v, jobs) <==> forall i :: 0 <= i < |jobs| ==> jobs[i].bursts > 0
  {
    hide Reached, WorkerAsserts, OsAsserts;
    if forall i :: 0 <= i < |jobs| ==> jobs[i].bursts > 0 {
      AssertsHoldAlways(v, jobs);
    } else {
      var i :| 0 <= i < |jobs| && jobs[i].bursts == 0;
      var s := NoBurstFails(v, jobs, i);
      assert !(WorkerAsserts(s, 0) && OsAsserts(s));
    }
  }
}
