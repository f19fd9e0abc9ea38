/** Monitors after the end: whether one can still be at work when the workers have been joined is told by the job
    file. */
module SchedLate {
  import opened Common
  import opened SchedLevels
  import opened SchedModel
  import opened SchedFrames
  import opened SchedInvariant
  import opened SchedWork
  import opened SchedShutdown
  import opened SchedRuns
  import opened SchedScenario

  // ---------------------------------------------------------------- bursts of one unit at most

  /** No process was ever preempted, so that no monitor was started. */
  ghost predicate NonePreempted(s: State) {
    s.monitors == [] && forall p :: 0 <= p < |s.procs| ==> !s.procs[p].status.RunPreempted?
  }

  ghost predicate ShortBursts(jobs: seq<Job>) {
    forall i :: 0 <= i < |jobs| ==> jobs[i].burstTime <= 1
  }

  lemma ShortSlice(s: State, places: seq<Place>, jobs: seq<Job>, w: nat, c: Choice)
    requires Inv(s, places) && Work(s, places, jobs) && NonePreempted(s) && ShortBursts(jobs)
    requires InSlice(s, w) && WorkerNext(s, w, c).Some?
    ensures NonePreempted(WorkerNext(s, w, c).value)
  {
    hide Inv, IoOk, Total, WorkerNext;
    SliceFrame(s, w, c);
    assert BurstsOk(s.infos[s.workers[w].pid], jobs[s.workers[w].pid]) && CopiesBurst(s, s.workers[w]);
  }

  lemma ShortQuiet(s: State, w: nat, c: Choice)
    requires NonePreempted(s) && w < |s.workers| && WorkerNext(s, w, c).Some? && !InSlice(s, w)
    ensures NonePreempted(WorkerNext(s, w, c).value)
  {
    hide Insert, Delete, PushPlace;
  }

  lemma ShortOs(s: State, c: Choice)
    requires NonePreempted(s) && OsNext(s, c).Some?
    ensures NonePreempted(OsNext(s, c).value)
  {
    hide Insert, PushPlace;
  }

  lemma StepShort(v: Order, s: State, places: seq<Place>, jobs: seq<Job>, a: Action, c: Choice)
    requires Inv(s, places) && Work(s, places, jobs) && NonePreempted(s) && ShortBursts(jobs)
    requires Next(v, s, a, c).Some?
    ensures NonePreempted(Next(v, s, a, c).value)
  {
    hide Inv, Work, ShortBursts, WorkerNext, OsNext, MonitorNext;
    match a
    case OfWorker(w) =>
      if InSlice(s, w) {
        ShortSlice(s, places, jobs, w, c);
      } else {
        ShortQuiet(s, w, c);
      }
    case OfOs => ShortOs(s, c);
    case OfMonitor(m) => assert false;
  }

  lemma StartShort(jobs: seq<Job>)
    ensures NonePreempted(Start(jobs))
  {
  }

  lemma {:induction false} ReachedShort(v: Order, jobs: seq<Job>, s: State, n: nat)
    requires (forall i :: 0 <= i < |jobs| ==> jobs[i].bursts > 0) && ShortBursts(jobs) && Reached(v, jobs, s, n)
    ensures NonePreempted(s)
    decreases n
  {
    hide Inv, Next, Start, Work, NonePreempted, ShortBursts;
    if n == 0 {
      StartShort(jobs);
    } else {
      var t, a, c :| Reached(v, jobs, t, n - 1) && Next(v, t, a, c) == Some(s);
      var places := ReachedWork(v, jobs, t, n - 1);
      ReachedShort(v, jobs, t, n - 1);
      StepShort(v, t, places, jobs, a, c);
    }
  }

  // ---------------------------------------------------------------- a run of all jobs to the end

  /** The OS loop is at its start, the lists are empty, the workers are at rest and the monitors asleep. */
  ghost predicate Calm(s: State, n: nat) {
    && Sizes(s, n) && s.workers == Working(Scan(0)) && s.queues == NO_ITEMS && s.os == Top
    && forall m :: 0 <= m < |s.monitors| ==> s.monitors[m].pc.Asleep?
  }

  /** A process that is not over in a calm state has not arrived or is in I/O, and nobody holds it. */
  lemma CalmProcess(s: State, places: seq<Place>, p: nat)
    requires Inv(s, places) && Calm(s, |places|) && p < |places| && !Over(s.infos[p])
    ensures s.infos[p].isWaiting && s.procs[p].lock == Free && s.procs[p].level < NUM_PRIORITY_LEVELS
  {
    hide FreshIfNew, HaveRun, QueuesOk, MonitorsOk;
    assert Placed(s, places, p) && LockOk(s, p);
    var place := places[p];
    assert place.WithMonitor? ==> MonitorHas(s.monitors[place.m], p);
    assert place.AtWorker? ==> WorkerHas(s.workers[place.w], s.procs[p], p);
    NotListed(s.queues, place, p);
    assert s.procs[p].lock.ByWorker? ==> Locking(s.workers[s.procs[p].lock.w], p);
    assert s.procs[p].lock.ByMonitor? ==> MonitorLocking(s.monitors[s.procs[p].lock.m], p);
  }

  lemma NotListed(queues: seq<seq<Item>>, place: Place, p: nat)
    requires PlacedInQueues(queues, place, p) && forall l :: 0 <= l < |queues| ==> queues[l] == []
    ensures !place.InList?
  {
  }

  /** What is known of any state that is reached. */
  lemma ReachedFacts(o: Order, jobs: seq<Job>, s: State) returns (places: seq<Place>)
    requires (forall i :: 0 <= i < |jobs| ==> jobs[i].bursts > 0) && Can(o, jobs, s)
    ensures |places| == |jobs| && Inv(s, places) && Sizes(s, |jobs|)
    ensures s.done == CountFinished(s.infos) && Total(s.infos) >= 0
    ensures forall p :: 0 <= p < |jobs| ==> BurstsOk(s.infos[p], jobs[p])
  {
    hide Reached, Inv, Placed, IoOk, Total, BurstsOk, CountFinished, SlicesOk, PillsOk;
    var n :| Reached(o, jobs, s, n);
    places := ReachedWork(o, jobs, s, n);
    InvShape(s, places);
    var others := ReachedEnding(o, jobs, s, n);
    forall q | 0 <= q < |jobs| ensures s.infos[q].cpuIndex <= |s.infos[q].remaining| {
      InRange(s.infos[q], jobs[q]);
    }
    TotalNonNegative(s.infos);
  }

  lemma InRange(info: Info, job: Job)
    requires BurstsOk(info, job)
    ensures info.cpuIndex <= |info.remaining| == |info.ran|
  {
  }

  /** One burst of one process in a long slice, from calm to calm. */
  lemma RunsBurst(o: Order, jobs: seq<Job>, s: State, p: nat) returns (t: State)
    requires (forall i :: 0 <= i < |jobs| ==> jobs[i].bursts > 0) && Can(o, jobs, s) && Calm(s, |jobs|)
    requires p < |jobs| && !Over(s.infos[p])
    ensures Can(o, jobs, t) && Calm(t, |jobs|) && t.monitors == s.monitors && Total(t.infos) < Total(s.infos)
  {
    hide Can, Inv, BurstsOk, Total, CountFinished, Working, Only;
    var places := ReachedFacts(o, jobs, s);
    CalmProcess(s, places, p);
    CountAll(s.infos);
    InRange(s.infos[p], jobs[p]);
    var a := Arrives(o, jobs, s, p);
    var left := s.infos[p].remaining[s.infos[p].cpuIndex];
    var b := Completed(o, jobs, a, a.procs[p].level, p, left);
    ToTop(o, jobs, b);
    t := b.(os := Top);
    assert b.infos == s.infos[p := b.infos[p]];
    TotalUpdate(s.infos, p, b.infos[p]);
    SumUpdate(s.infos[p].remaining, s.infos[p].cpuIndex, 0);
  }

  /** All processes are run to their end, one burst after the other, while the monitors sleep. */
  lemma {:induction false} RunsAll(o: Order, jobs: seq<Job>, s: State) returns (t: State)
    requires (forall i :: 0 <= i < |jobs| ==> jobs[i].bursts > 0) && Can(o, jobs, s) && Calm(s, |jobs|)
    ensures Can(o, jobs, t) && Calm(t, |jobs|) && t.monitors == s.monitors && t.done >= |t.infos|
    decreases Total(s.infos)
  {
    hide Can, Inv, BurstsOk, Total, CountFinished, Calm;
    var places := ReachedFacts(o, jobs, s);
    CountAll(s.infos);
    if s.done >= |s.infos| {
      t := s;
    } else {
      var p :| 0 <= p < |s.infos| && s.infos[p].cpuIndex < |s.infos[p].remaining|;
      var a := RunsBurst(o, jobs, s, p);
      t := RunsAll(o, jobs, a);
    }
  }

  /** A process with a burst of two units or more is preempted once; then everything runs to the join, and its
      monitor sleeps on. */
  lemma MonitorOutlives(o: Order, jobs: seq<Job>, p: nat) returns (s: State)
    requires forall i :: 0 <= i < |jobs| ==> jobs[i].bursts > 0
    requires p < |jobs| && jobs[p].burstTime > 1
    ensures Can(o, jobs, s) && s.os.Joined? && s.monitors == [Monitor(p, Asleep)]
  {
    hide Can, Only, SliceInfo;
    var a := FirstArrives(o, jobs, p);
    var b := Preempted(o, jobs, a, 0, p, jobs[p].burstTime);
    var c := Completed(o, jobs, b, 1, p, jobs[p].burstTime - 1);
    ToTop(o, jobs, c);
    var d := RunsAll(o, jobs, c.(os := Top));
    s := Joins(o, jobs, d);
  }

  // ---------------------------------------------------------------- the exact condition

  /** Whenever the workers have been joined, no thread can take a step any more. */
  ghost predicate QuietAtJoin(v: Order, jobs: seq<Job>) {
    forall s, n: nat :: Reached(v, jobs, s, n) && s.os.Joined? ==> NothingCanStep(v, s)
  }

  /** Whenever the workers have been joined, all monitors have ended. */
  ghost predicate EndedAtJoin(v: Order, jobs: seq<Job>) {
    forall s, n, m: nat :: Reached(v, jobs, s, n) && s.os.Joined? && m < |s.monitors| ==> s.monitors[m].pc.Ended?
  }

  lemma QuietIsEnded(v: Order, jobs: seq<Job>)
    requires forall i :: 0 <= i < |jobs| ==> jobs[i].bursts > 0
    ensures QuietAtJoin(v, jobs) <==> EndedAtJoin(v, jobs)
  {
    hide Reached, NothingCanStep;
    forall s, n: nat | Reached(v, jobs, s, n) && s.os.Joined?
      ensures NothingCanStep(v, s) <==> forall m :: 0 <= m < |s.monitors| ==> s.monitors[m].pc.Ended?
    {
      LateMonitors(v, jobs, s, n);
    }
  }

  /** When the queue and the processes are freed after the join, nothing can touch them any more, in every run of the
      jobs, exactly when no job has a burst of more than one unit; otherwise some run joins while a monitor of such a
      job sleeps. */
  lemma QuietAtJoinIff(v: Order, jobs: seq<Job>)
    requires forall i :: 0 <= i < |jobs| ==> jobs[i].bursts > 0
    ensures QuietAtJoin(v, jobs) <==> forall i :: 0 <= i < |jobs| ==> jobs[i].burstTime <= 1
    ensures EndedAtJoin(v, jobs) <==> forall i :: 0 <= i < |jobs| ==> jobs[i].burstTime <= 1
  {
    hide Reached, QuietAtJoin;
    QuietIsEnded(v, jobs);
    if ShortBursts(jobs) {
      forall s, n | Reached(v, jobs, s, n) ensures s.monitors == [] {
        ReachedShort(v, jobs, s, n);
      }
    } else {
      var i :| 0 <= i < |jobs| && jobs[i].burstTime > 1;
      var s := MonitorOutlives(v, jobs, i);
      var n :| Reached(v, jobs, s, n);
      assert !s.monitors[0].pc.Ended?;
    }
  }
}
