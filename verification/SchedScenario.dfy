/** Runs of the system with any jobs: a boost that leaves a queued process where it is, and the same boost with the
    removal first. */
module SchedScenario {
  import opened Common
  import opened SchedModel
  import opened SchedRuns

  /** From the start, one process arrives. */
  lemma FirstArrives(o: Order, jobs: seq<Job>, p: nat) returns (t: State)
    requires p < |jobs| && jobs[p].bursts > 0
    ensures Can(o, jobs, t) && Waits(t, |jobs|, 0, p, jobs[p].burstTime)
    ensures t.procs[p] == Process(0, NotRun, false, Free) && t.monitors == [] && t.os == Check(p + 1)
  {
    hide Can;
    CanStart(o, jobs);
    t := Arrives(o, jobs, Start(jobs), p);
  }

  /** Two slices of one unit later it waits at level 2, and its monitor sleeps. */
  lemma TwoDown(o: Order, jobs: seq<Job>, p: nat) returns (t: State)
    requires p < |jobs| && jobs[p].bursts > 0 && jobs[p].burstTime > 2
    ensures Can(o, jobs, t) && Sizes(t, |jobs|) && t.queues == Only(2, p)
    ensures t.procs[p] == Process(2, RunPreempted, true, Free) && t.monitors == [Monitor(p, Asleep)]
  {
    hide Can, Only, SliceInfo;
    var a := FirstArrives(o, jobs, p);
    var b := Preempted(o, jobs, a, 0, p, jobs[p].burstTime);
    t := Preempted(o, jobs, b, 1, p, jobs[p].burstTime - 1);
  }

  /** As written the monitor lowers the process from level 2 to level 1 and looks for it in list 1, while it waits in
      list 2, where it stays. */
  lemma BoostLeavesQueuedProcess(jobs: seq<Job>, p: nat) returns (s: State)
    requires p < |jobs| && jobs[p].bursts > 0 && jobs[p].burstTime > 2
    ensures Can(AS_WRITTEN, jobs, s) && p < |s.procs| && s.procs[p] == Process(1, RunPreempted, true, ByMonitor(0))
    ensures s.monitors == [Monitor(p, Closing)] && s.queues == Only(2, p)
  {
    hide Can;
    var a := TwoDown(AS_WRITTEN, jobs, p);
    var b := Next(AS_WRITTEN, a, OfMonitor(0), UNIT).value;
    Go(AS_WRITTEN, jobs, a, OfMonitor(0), UNIT, b);
    s := Next(AS_WRITTEN, b, OfMonitor(0), UNIT).value;
    Go(AS_WRITTEN, jobs, b, OfMonitor(0), UNIT, s);
  }

  /** With the removal first the process goes to list 1. */
  lemma BoostMovesQueuedProcess(jobs: seq<Job>, p: nat) returns (s: State)
    requires p < |jobs| && jobs[p].bursts > 0 && jobs[p].burstTime > 2
    ensures Can(REMOVAL_FIRST, jobs, s) && p < |s.procs| && s.procs[p] == Process(1, RunPreempted, true, ByMonitor(0))
    ensures s.monitors == [Monitor(p, Closing)] && s.queues == Only(1, p)
  {
    hide Can, SortedPlace;
    var o := REMOVAL_FIRST;
    var a := TwoDown(o, jobs, p);
    var b := Next(o, a, OfMonitor(0), UNIT).value;
    Go(o, jobs, a, OfMonitor(0), UNIT, b);
    assert b.monitors == [Monitor(p, Chosen(2, 1))];
    assert Delete([Proc(p)], 0) == [] && Insert([], 0, Proc(p)) == [Proc(p)];
    var c := Next(o, b, OfMonitor(0), UNIT).value;
    Go(o, jobs, b, OfMonitor(0), UNIT, c);
    assert c.queues == NO_ITEMS && c.monitors == [Monitor(p, Taken)];
    s := Next(o, c, OfMonitor(0), UNIT).value;
    Go(o, jobs, c, OfMonitor(0), UNIT, s);
  }
}
