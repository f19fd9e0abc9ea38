/** What a step leaves as it is, so that a proof about one part of the state need not look at the whole step. */
module SchedFrames {
  import opened Common
  import opened SchedLevels
  import opened SchedModel

  ghost predicate SameStatus(a: seq<Process>, b: seq<Process>) {
    |a| == |b| && forall p :: 0 <= p < |a| ==> a[p].status == b[p].status
  }

  /** Where a worker can be after a stage that is neither a slice nor the decision. */
  ghost predicate StageStep(s: State, p: nat, stage: Stage, pc: WorkerPc) {
    match stage
    case Popped => pc == With(p, Locked)
    case Locked =>
      && p < |s.infos| && s.infos[p].cpuIndex < |s.infos[p].remaining| && pc.With? && pc.pid == p && pc.stage.Running?
      && pc.stage.slice > 0 && pc.stage.left == s.infos[p].remaining[s.infos[p].cpuIndex]
    case Ran =>
      || pc == With(p, Unlocked)
      || (pc == With(p, Locked) && p < |s.procs| && s.procs[p].status.RunPreempted?)
    case Unlocked => pc == With(p, Updated)
    case Updated => pc == With(p, Deciding)
    case Leaving => pc == Scan(0)
    case _ => false
  }

  /** The worker is about to note the length of the I/O of its process. */
  ghost predicate NotesIo(s: State, w: nat) {
    && w < |s.workers| && s.workers[w].With? && s.workers[w].stage.Leaving?
    && s.workers[w].pid < |s.procs| && s.procs[s.workers[w].pid].status.RunBlocked?
    && s.workers[w].pid < |s.lengths|
  }

  ghost predicate AtStage(s: State, w: nat) {
    && w < |s.workers| && s.workers[w].With?
    && !s.workers[w].stage.Running? && !s.workers[w].stage.Deciding?
  }

  lemma StageFrame(s: State, w: nat, c: Choice)
    requires AtStage(s, w) && WorkerNext(s, w, c).Some?
    ensures var t := WorkerNext(s, w, c).value;
      && t.infos == s.infos && t.queues == s.queues && t.os == s.os && t.done == s.done && t.slices == s.slices
      && SameStatus(s.procs, t.procs) && |t.workers| == |s.workers| && |t.lengths| == |s.lengths|
      && (t.lengths != s.lengths ==>
            NotesIo(s, w) && t.lengths == s.lengths[s.workers[w].pid := t.lengths[s.workers[w].pid]])
      && StageStep(s, s.workers[w].pid, s.workers[w].stage, t.workers[w])
      && forall x :: 0 <= x < |s.workers| && x != w ==> t.workers[x] == s.workers[x]
  {
  }

  ghost predicate Decides(s: State, w: nat) {
    w < |s.workers| && s.workers[w].With? && s.workers[w].stage.Deciding?
  }

  lemma DecideFrame(s: State, w: nat, c: Choice)
    requires Decides(s, w) && WorkerNext(s, w, c).Some?
    ensures var t, p := WorkerNext(s, w, c).value, s.workers[w].pid;
      && p < |s.procs| && p < |s.infos| && p < |s.lengths| && |t.lengths| == |s.lengths|
      && t.lengths == s.lengths[p := t.lengths[p]]
      && t.procs == s.procs && t.os == s.os && t.done == s.done && t.slices == s.slices && t.monitors == s.monitors
      && t.workers == s.workers[w := With(p, Leaving)]
      && |t.infos| == |s.infos| && (forall q :: 0 <= q < |s.infos| && q != p ==> t.infos[q] == s.infos[q])
      && (!s.procs[p].status.RunPreempted? ==> t.queues == s.queues)
      && (!s.procs[p].status.RunBlocked? ==> t.infos == s.infos)
      && (s.procs[p].status.RunBlocked? ==>
            t.infos == s.infos[p := s.infos[p].(isWaiting := true, ioIndex := s.infos[p].ioIndex + 1)])
      && (s.procs[p].status.RunPreempted? ==>
            var level := s.procs[p].level;
            && level < |s.queues| && t.lengths == s.lengths
            && t.queues == s.queues[level :=
                 Insert(s.queues[level], PushPlace(s.queues[level], s.lengths, p, level), Proc(p))])
  {
  }

  ghost predicate InSlice(s: State, w: nat) {
    w < |s.workers| && s.workers[w].With? && s.workers[w].stage.Running?
  }

  lemma SliceFrame(s: State, w: nat, c: Choice)
    requires InSlice(s, w) && WorkerNext(s, w, c).Some?
    ensures var t, p := WorkerNext(s, w, c).value, s.workers[w].pid;
      && p < |s.procs| && p < |s.infos| && p < |s.lengths|
      && SliceEnds(s, w, p, s.workers[w].stage.slice, s.workers[w].stage.left, c.elapsed) == Some(t)
      && t.lengths == s.lengths[p := t.lengths[p]]
      && t.queues == s.queues && t.os == s.os && t.monitors == s.monitors && t.slices == s.slices + 1
      && t.workers == s.workers[w := With(p, Ran)]
      && |t.infos| == |s.infos| && |t.procs| == |s.procs|
      && (forall q :: 0 <= q < |s.infos| && q != p ==> t.infos[q] == s.infos[q])
      && (forall q :: 0 <= q < |s.procs| && q != p ==> t.procs[q] == s.procs[q])
      && !t.procs[p].status.NotRun?
      && t.procs[p].level == s.procs[p].level
  {
  }

  lemma ScanFrame(s: State, w: nat, c: Choice)
    requires w < |s.workers| && s.workers[w].Scan? && WorkerNext(s, w, c).Some?
    ensures var t := WorkerNext(s, w, c).value;
      && t == Scanned(s, w, s.workers[w].level)
      && t.infos == s.infos && t.procs == s.procs && t.os == s.os && t.monitors == s.monitors
      && t.lengths == s.lengths
      && t.done == s.done && t.slices == s.slices && |t.workers| == |s.workers| && |t.queues| == |s.queues|
      && (t.workers[w].With? ==> t.workers[w].stage.Popped?)
      && forall x :: 0 <= x < |s.workers| && x != w ==> t.workers[x] == s.workers[x]
  {
  }

  lemma MonitorFrame(v: Order, s: State, m: nat)
    requires m < |s.monitors| && MonitorNext(v, s, m).Some?
    ensures var t := MonitorNext(v, s, m).value;
      && t.infos == s.infos && t.workers == s.workers && t.os == s.os && t.done == s.done && t.slices == s.slices
      && t.lengths == s.lengths
      && SameStatus(s.procs, t.procs) && |t.monitors| == |s.monitors| && |t.queues| == |s.queues|
      && t.monitors[m].pid == s.monitors[m].pid
      && forall x :: 0 <= x < |s.monitors| && x != m ==> t.monitors[x] == s.monitors[x]
  {
  }

  /** A step that is not the end of a slice. */
  lemma QuietWorkerFrame(s: State, w: nat, c: Choice)
    requires w < |s.workers| && WorkerNext(s, w, c).Some? && !InSlice(s, w)
    ensures s.workers[w].Scan? || s.workers[w].With?
    ensures var t := WorkerNext(s, w, c).value;
      && |t.infos| == |s.infos| && t.done == s.done && t.slices == s.slices && t.os == s.os
      && (forall p :: 0 <= p < |s.infos| ==> SameCharges(s.infos[p], t.infos[p]))
      && |t.workers| == |s.workers| && (forall x :: 0 <= x < |s.workers| && x != w ==> t.workers[x] == s.workers[x])
  {
    hide StageNext;
    WorkerStarts(s, w, c);
    hide WorkerNext;
    if s.workers[w].Scan? {
      ScanFrame(s, w, c);
    } else if s.workers[w].stage.Deciding? {
      DecideFrame(s, w, c);
    } else {
      StageFrame(s, w, c);
    }
  }

  /** A worker adds monitors that sleep and leaves the others as they are. */
  lemma NewMonitorsSleep(s: State, w: nat, c: Choice)
    requires w < |s.workers| && WorkerNext(s, w, c).Some?
    ensures var t := WorkerNext(s, w, c).value;
      && |t.monitors| >= |s.monitors| && t.os == s.os
      && (forall m :: 0 <= m < |s.monitors| ==> t.monitors[m] == s.monitors[m])
      && forall m :: |s.monitors| <= m < |t.monitors| ==> t.monitors[m].pc.Asleep?
  {
  }

  lemma WorkerStarts(s: State, w: nat, c: Choice)
    requires w < |s.workers| && WorkerNext(s, w, c).Some?
    ensures s.workers[w].Scan? || (s.workers[w].With? && s.workers[w].pid < |s.procs| && s.workers[w].pid < |s.infos|)
  {
    hide StageNext;
  }

  /** What a monitor does to the lists: nothing, one removal, or one insertion, of its process. */
  lemma MonitorQueues(v: Order, s: State, m: nat)
    requires m < |s.monitors| && MonitorNext(v, s, m).Some?
    ensures var t, p := MonitorNext(v, s, m).value, s.monitors[m].pid;
      && p < |s.procs|
      && (t.queues != s.queues ==>
            var level := s.procs[p].level;
            && level < |s.queues|
            && ((s.monitors[m].pc.Chosen? && Proc(p) in s.queues[level] && t.monitors[m].pc.Taken?
                 && t.queues == s.queues[level := Delete(s.queues[level], IndexOf(s.queues[level], Proc(p)))])
                || (s.monitors[m].pc.Taken? && p < |s.lengths|
                    && t.queues == s.queues[level :=
                         Insert(s.queues[level], PushPlace(s.queues[level], s.lengths, p, level), Proc(p))])))
  {
    hide Insert, Delete, PushPlace;
  }

  lemma OsFrame(s: State, c: Choice)
    requires OsNext(s, c).Some?
    ensures var t := OsNext(s, c).value;
      && t.workers == s.workers && t.monitors == s.monitors && t.done == s.done && t.slices == s.slices
      && |t.infos| == |s.infos| && |t.procs| == |s.procs| && |t.queues| == |s.queues|
      && |t.lengths| == |s.lengths|
      && forall q :: 0 <= q < |s.infos| ==> SameCharges(s.infos[q], t.infos[q])
  {
  }

  /** The bursts of a process and how far it is with them. */
  ghost predicate SameCharges(a: Info, b: Info) {
    a.remaining == b.remaining && a.ran == b.ran && a.cpuIndex == b.cpuIndex && a.burstTime == b.burstTime
  }
}
