/** What a priority boost does to a queued process.  As written the monitor changes the level before
    it asks for the removal, which then searches the wrong list: no boost ever moves a queued process.
    With the removal first, every boost of a queued process moves it. */
module SchedBoost {
  import opened Common
  import opened SchedLevels
  import opened SchedModel
  import opened SchedFrames
  import opened SchedInvariant
  import opened SchedWork

  ghost predicate Outside(place: Place) {
    place == NotArrived || place == WithOs || place == InIo
  }

  /** The worker of process p has gone back to the top level and is about to start its I/O. */
  ghost predicate LevelReset(s: State, place: Place, p: nat)
    requires p < |s.procs|
  {
    IoDue(s, place, p) && (s.workers[place.w].stage.Updated? || s.workers[place.w].stage.Deciding?)
  }

  /** A process in a list has the level of the list, or, as written, was boosted from there. */
  ghost predicate LevelOk(v: Order, s: State, places: seq<Place>, p: nat)
    requires p < |s.procs| && p < |places|
  {
    && (Outside(places[p]) || LevelReset(s, places[p], p) ==> s.procs[p].level == MAX_PRIORITY_LEVEL)
    && (places[p].InList? ==> s.procs[p].level <= places[p].level)
    && (places[p].InList? && !v.levelFirst ==> s.procs[p].level == places[p].level)
  }

  /** A monitor that has chosen a level: as written its process has that level already, and waits in another list
      if it waits at all; with the removal first its process still has the level that it had. */
  ghost predicate BoostOk(v: Order, s: State, places: seq<Place>, m: nat)
    requires m < |s.monitors|
  {
    var p, pc := s.monitors[m].pid, s.monitors[m].pc;
    && (v.levelFirst ==> !pc.Taken?)
    && (pc.Chosen? ==> p < |s.procs| && p < |places|)
    && (pc.Chosen? && v.levelFirst ==>
          s.procs[p].level == pc.to && !Outside(places[p]) && (places[p].InList? ==> pc.to < places[p].level))
    && (pc.Chosen? && !v.levelFirst ==> s.procs[p].level > pc.to)
  }

  ghost predicate Boosts(v: Order, s: State, places: seq<Place>) {
    && (forall p :: 0 <= p < |s.procs| && p < |places| ==> LevelOk(v, s, places, p))
    && (forall m :: 0 <= m < |s.monitors| ==> BoostOk(v, s, places, m))
    && (s.os.Pushing? ==> s.os.level == MAX_PRIORITY_LEVEL)
  }

  // ---------------------------------------------------------------- one step

  lemma WorkerLevel(v: Order, s: State, places: seq<Place>, w: nat, c: Choice, q: nat)
    requires Shape(s, places) && w < |s.workers| && WorkerNext(s, w, c).Some? && q < |places|
    requires Placed(s, places, q) && LevelOk(v, s, places, q)
    requires s.workers[w].With? ==> Placed(s, places, s.workers[w].pid)
    ensures LevelOk(v, WorkerNext(s, w, c).value, AfterWorker(s, places, w, c), q)
  {
    hide Placed, LevelOk, AfterWorker, Shape, WorkerNext;
    NotExited(s, w, c);
    if s.workers[w].Scan? {
      ScanLevel(v, s, places, w, c, q);
    } else if s.workers[w].stage.Running? {
      SliceLevel(v, s, places, w, c, q);
    } else if s.workers[w].stage.Deciding? {
      DecideLevel(v, s, places, w, c, q);
    } else {
      StageLevel(v, s, places, w, c, q);
    }
  }

  lemma ScanLevel(v: Order, s: State, places: seq<Place>, w: nat, c: Choice, q: nat)
    requires Shape(s, places) && w < |s.workers| && WorkerNext(s, w, c).Some? && q < |places|
    requires Placed(s, places, q) && LevelOk(v, s, places, q) && s.workers[w].Scan?
    ensures LevelOk(v, WorkerNext(s, w, c).value, AfterWorker(s, places, w, c), q)
  {
    hide MonitorsOk, PlacedAtMonitors, NoDup;
  }

  lemma SliceLevel(v: Order, s: State, places: seq<Place>, w: nat, c: Choice, q: nat)
    requires Shape(s, places) && w < |s.workers| && WorkerNext(s, w, c).Some? && q < |places|
    requires Placed(s, places, q) && LevelOk(v, s, places, q) && s.workers[w].With? && s.workers[w].stage.Running?
    requires Placed(s, places, s.workers[w].pid)
    ensures LevelOk(v, WorkerNext(s, w, c).value, AfterWorker(s, places, w, c), q)
  {
    hide MonitorsOk, PlacedAtMonitors, PlacedInQueues, QueuesOk, WorkerNext;
    SliceFrame(s, w, c);
  }

  lemma DecideLevel(v: Order, s: State, places: seq<Place>, w: nat, c: Choice, q: nat)
    requires Shape(s, places) && w < |s.workers| && WorkerNext(s, w, c).Some? && q < |places|
    requires Placed(s, places, q) && LevelOk(v, s, places, q) && s.workers[w].With? && s.workers[w].stage.Deciding?
    requires Placed(s, places, s.workers[w].pid)
    ensures LevelOk(v, WorkerNext(s, w, c).value, AfterWorker(s, places, w, c), q)
  {
    hide MonitorsOk, PlacedAtMonitors, WorkerNext, Insert;
    DecideFrame(s, w, c);
  }

  lemma StageLevel(v: Order, s: State, places: seq<Place>, w: nat, c: Choice, q: nat)
    requires Shape(s, places) && w < |s.workers| && WorkerNext(s, w, c).Some? && q < |places|
    requires Placed(s, places, q) && LevelOk(v, s, places, q) && s.workers[w].With?
    requires !s.workers[w].stage.Running? && !s.workers[w].stage.Deciding? && Placed(s, places, s.workers[w].pid)
    ensures LevelOk(v, WorkerNext(s, w, c).value, AfterWorker(s, places, w, c), q)
  {
    hide MonitorsOk, PlacedAtMonitors, QueuesOk, NoDup;
  }

  lemma WorkerBoost(v: Order, s: State, places: seq<Place>, w: nat, c: Choice, m: nat)
    requires Shape(s, places) && w < |s.workers| && WorkerNext(s, w, c).Some? && m < |s.monitors|
    requires BoostOk(v, s, places, m) && LockOk(s, s.monitors[m].pid) && Placed(s, places, s.monitors[m].pid)
    ensures BoostOk(v, WorkerNext(s, w, c).value, AfterWorker(s, places, w, c), m)
  {
    hide PlacedAtMonitors, NoDup, QueuesOk, MonitorsOk, LevelsOk;
  }

  lemma OsLevel(v: Order, s: State, places: seq<Place>, c: Choice, q: nat)
    requires Shape(s, places) && OsNext(s, c).Some? && q < |places|
    requires Placed(s, places, q) && LevelOk(v, s, places, q) && (s.os.Pushing? ==> s.os.level == MAX_PRIORITY_LEVEL)
    ensures LevelOk(v, OsNext(s, c).value, AfterOs(s, places, c), q)
  {
    hide MonitorsOk, PlacedAtMonitors, NoDup;
  }

  lemma OsBoost(v: Order, s: State, places: seq<Place>, c: Choice, m: nat)
    requires Shape(s, places) && OsNext(s, c).Some? && m < |s.monitors|
    requires BoostOk(v, s, places, m) && Placed(s, places, s.monitors[m].pid)
    requires FreshIfNew(s, places, s.monitors[m].pid)
    ensures BoostOk(v, OsNext(s, c).value, AfterOs(s, places, c), m)
  {
    hide PlacedAtMonitors, NoDup;
  }

  lemma MonitorLevel(v: Order, s: State, places: seq<Place>, m: nat, q: nat)
    requires Shape(s, places) && m < |s.monitors| && MonitorNext(v, s, m).Some? && q < |places|
    requires Placed(s, places, q) && LevelOk(v, s, places, q) && BoostOk(v, s, places, m)
    requires LockOk(s, s.monitors[m].pid) && Placed(s, places, s.monitors[m].pid)
    ensures LevelOk(v, MonitorNext(v, s, m).value, AfterMonitor(v, s, places, m), q)
  {
    hide PlacedAtMonitors, NoDup;
  }

  lemma MonitorBoost(v: Order, s: State, places: seq<Place>, m: nat, x: nat)
    requires Shape(s, places) && m < |s.monitors| && MonitorNext(v, s, m).Some? && x < |s.monitors|
    requires BoostOk(v, s, places, m) && BoostOk(v, s, places, x)
    requires LockOk(s, s.monitors[m].pid) && Placed(s, places, s.monitors[m].pid)
    requires LevelOk(v, s, places, s.monitors[m].pid)
    ensures BoostOk(v, MonitorNext(v, s, m).value, AfterMonitor(v, s, places, m), x)
  {
    hide PlacedAtMonitors, NoDup;
  }

  lemma InvAt(s: State, places: seq<Place>, p: nat)
    requires Inv(s, places) && p < |places|
    ensures |s.infos| == |s.procs| == |places| && Placed(s, places, p) && LockOk(s, p) && FreshIfNew(s, places, p)
  {
  }

  lemma InvPids(s: State, places: seq<Place>)
    requires Inv(s, places)
    ensures |s.infos| == |s.procs| == |places|
    ensures forall w :: 0 <= w < |s.workers| && s.workers[w].With? ==> s.workers[w].pid < |places|
    ensures forall m :: 0 <= m < |s.monitors| ==> s.monitors[m].pid < |places|
  {
  }

  lemma WorkerBoosts(v: Order, s: State, places: seq<Place>, w: nat, c: Choice)
    requires Inv(s, places) && Boosts(v, s, places) && w < |s.workers| && WorkerNext(s, w, c).Some?
    ensures Shape(s, places) && Boosts(v, WorkerNext(s, w, c).value, AfterWorker(s, places, w, c))
  {
    hide Inv, LevelOk, BoostOk, WorkerNext, AfterWorker, Shape;
    InvShape(s, places);
    InvPids(s, places);
    NewMonitorsSleep(s, w, c);
    var t, after := WorkerNext(s, w, c).value, AfterWorker(s, places, w, c);
    if s.workers[w].With? { InvAt(s, places, s.workers[w].pid); }
    forall q | 0 <= q < |after| && q < |t.procs| ensures LevelOk(v, t, after, q) {
      InvAt(s, places, q);
      WorkerLevel(v, s, places, w, c, q);
    }
    forall m | 0 <= m < |t.monitors| ensures BoostOk(v, t, after, m) {
      if m < |s.monitors| {
        InvAt(s, places, s.monitors[m].pid);
        WorkerBoost(v, s, places, w, c, m);
      } else {
        AsleepOk(v, t, after, m);
      }
    }
  }

  lemma AsleepOk(v: Order, s: State, places: seq<Place>, m: nat)
    requires m < |s.monitors| && s.monitors[m].pc.Asleep?
    ensures BoostOk(v, s, places, m)
  {
  }

  lemma OsBoosts(v: Order, s: State, places: seq<Place>, c: Choice)
    requires Inv(s, places) && Boosts(v, s, places) && OsNext(s, c).Some?
    ensures Shape(s, places) && Boosts(v, OsNext(s, c).value, AfterOs(s, places, c))
  {
    hide Inv, LevelOk, BoostOk, OsNext, AfterOs, Shape;
    InvShape(s, places);
    InvPids(s, places);
    OsPushesTop(v, s, places, c);
    var t, after := OsNext(s, c).value, AfterOs(s, places, c);
    forall q | 0 <= q < |after| && q < |t.procs| ensures LevelOk(v, t, after, q) {
      InvAt(s, places, q);
      OsLevel(v, s, places, c, q);
    }
    forall m | 0 <= m < |t.monitors| ensures BoostOk(v, t, after, m) {
      InvAt(s, places, s.monitors[m].pid);
      OsBoost(v, s, places, c, m);
    }
  }

  /** The OS loop pushes at the top level only. */
  lemma OsPushesTop(v: Order, s: State, places: seq<Place>, c: Choice)
    requires Inv(s, places) && Boosts(v, s, places) && OsNext(s, c).Some?
    ensures var t := OsNext(s, c).value;
      t.monitors == s.monitors && (t.os.Pushing? ==> t.os.level == MAX_PRIORITY_LEVEL)
  {
    hide LockOk, FreshIfNew, HaveRun, BoostOk;
    if s.os.Moved? {
      assert Placed(s, places, s.os.i) && LevelOk(v, s, places, s.os.i);
    }
  }

  lemma MonitorBoosts(v: Order, s: State, places: seq<Place>, m: nat)
    requires Inv(s, places) && Boosts(v, s, places) && m < |s.monitors| && MonitorNext(v, s, m).Some?
    ensures Shape(s, places) && Boosts(v, MonitorNext(v, s, m).value, AfterMonitor(v, s, places, m))
  {
    hide Inv, LevelOk, BoostOk, MonitorNext, AfterMonitor, Shape;
    InvShape(s, places);
    InvPids(s, places);
    MonitorKeepsOs(v, s, m);
    var t, after := MonitorNext(v, s, m).value, AfterMonitor(v, s, places, m);
    InvAt(s, places, s.monitors[m].pid);
    forall q | 0 <= q < |after| && q < |t.procs| ensures LevelOk(v, t, after, q) {
      InvAt(s, places, q);
      MonitorLevel(v, s, places, m, q);
    }
    forall x | 0 <= x < |t.monitors| ensures BoostOk(v, t, after, x) {
      MonitorBoost(v, s, places, m, x);
    }
  }

  lemma MonitorKeepsOs(v: Order, s: State, m: nat)
    requires m < |s.monitors| && MonitorNext(v, s, m).Some?
    ensures var t := MonitorNext(v, s, m).value;
      |t.monitors| == |s.monitors| && |t.procs| == |s.procs| && (t.os.Pushing? ==> s.os == t.os)
  {
  }

  lemma StepBoosts(v: Order, s: State, places: seq<Place>, a: Action, c: Choice)
    requires Inv(s, places) && Boosts(v, s, places) && Next(v, s, a, c).Some?
    ensures Shape(s, places) && Boosts(v, Next(v, s, a, c).value, After(v, s, places, a, c))
  {
    hide Inv, Boosts, WorkerNext, OsNext, MonitorNext, AfterWorker, AfterOs, AfterMonitor, Shape;
    InvShape(s, places);
    match a
    case OfWorker(w) => WorkerBoosts(v, s, places, w, c);
    case OfOs => OsBoosts(v, s, places, c);
    case OfMonitor(m) => MonitorBoosts(v, s, places, m);
  }

  lemma StartBoosts(v: Order, jobs: seq<Job>)
    ensures Boosts(v, Start(jobs), seq(|jobs|, _ => NotArrived))
  {
  }

  lemma {:induction false} ReachedBoosts(v: Order, jobs: seq<Job>, s: State, n: nat) returns (places: seq<Place>)
    requires (forall i :: 0 <= i < |jobs| ==> jobs[i].bursts > 0) && Reached(v, jobs, s, n)
    ensures Inv(s, places) && Boosts(v, s, places) && |places| == |jobs| == |s.procs|
    decreases n
  {
    hide Inv, Next, Start, Shape, After, Boosts;
    if n == 0 {
      StartInv(jobs);
      StartBoosts(v, jobs);
      places := seq(|jobs|, _ => NotArrived);
    } else {
      var t, a, c :| Reached(v, jobs, t, n - 1) && Next(v, t, a, c) == Some(s);
      var before := ReachedBoosts(v, jobs, t, n - 1);
      InvShape(t, before);
      StepKeeps(v, t, before, a, c);
      StepBoosts(v, t, before, a, c);
      places := After(v, t, before, a, c);
    }
    InvShape(s, places);
  }

  // ---------------------------------------------------------------- what a boost does

  /** As written, no monitor ever takes a process out of a list: in every reachable state the list it is
      about to search does not hold its process, and a process queued at level l stays queued there. */
  lemma QueuedProcessNeverMoves(jobs: seq<Job>, s: State, n: nat, m: nat)
    requires (forall i :: 0 <= i < |jobs| ==> jobs[i].bursts > 0) && Reached(AS_WRITTEN, jobs, s, n)
    requires m < |s.monitors| && MonitorNext(AS_WRITTEN, s, m).Some?
    ensures MonitorNext(AS_WRITTEN, s, m).value.queues == s.queues
    ensures !s.monitors[m].pc.Taken?
  {
    hide Reached, LockOk, FreshIfNew, HaveRun;
    var places := ReachedBoosts(AS_WRITTEN, jobs, s, n);
    assert BoostOk(AS_WRITTEN, s, places, m);
    assert Placed(s, places, s.monitors[m].pid);
  }

  /** With the removal first, a process in a list has the level of that list, in every reachable state. */
  lemma ListIsLevel(jobs: seq<Job>, s: State, n: nat, p: nat, l: nat)
    requires (forall i :: 0 <= i < |jobs| ==> jobs[i].bursts > 0) && Reached(REMOVAL_FIRST, jobs, s, n)
    requires l < |s.queues| && Proc(p) in s.queues[l]
    ensures p < |s.procs| && s.procs[p].level == l
  {
    hide Reached, LockOk, FreshIfNew, HaveRun;
    var places := ReachedBoosts(REMOVAL_FIRST, jobs, s, n);
    assert Placed(s, places, p) && LevelOk(REMOVAL_FIRST, s, places, p);
  }

  ghost predicate Queued(s: State, p: nat) {
    exists l :: 0 <= l < |s.queues| && Proc(p) in s.queues[l]
  }

  /** With the removal first, in every reachable state a monitor that has chosen a level takes its process out of a
      list exactly when the process is in any list, and its next step puts it into the list of the new level, and
      there only. */
  lemma RemovalFirstMovesIff(jobs: seq<Job>, s: State, n: nat, m: nat)
    requires (forall i :: 0 <= i < |jobs| ==> jobs[i].bursts > 0) && Reached(REMOVAL_FIRST, jobs, s, n)
    requires m < |s.monitors| && s.monitors[m].pc.Chosen?
    ensures MonitorNext(REMOVAL_FIRST, s, m).Some?
    ensures var p, to := s.monitors[m].pid, s.monitors[m].pc.to;
      var t := MonitorNext(REMOVAL_FIRST, s, m).value;
      && m < |t.monitors| && (t.monitors[m].pc.Taken? <==> Queued(s, p))
      && (!Queued(s, p) ==> t.queues == s.queues)
      && (Queued(s, p) ==>
            && !Queued(t, p) && MonitorNext(REMOVAL_FIRST, t, m).Some?
            && MovedTo(MonitorNext(REMOVAL_FIRST, t, m).value, p, to))
  {
    hide Reached, Inv, LevelOk, BoostOk, MonitorNext, Queued, MovedTo, Shape, AfterMonitor;
    var places := ReachedBoosts(REMOVAL_FIRST, jobs, s, n);
    InvPids(s, places);
    var p := s.monitors[m].pid;
    InvAt(s, places, p);
    InvShape(s, places);
    ChosenRemoves(s, places, m);
    MonitorKeeps(REMOVAL_FIRST, s, places, m);
    if Queued(s, p) {
      var t, after := MonitorNext(REMOVAL_FIRST, s, m).value, AfterMonitor(REMOVAL_FIRST, s, places, m);
      InvAt(t, after, p);
      InvShape(t, after);
      TakenNotQueued(t, after, m);
      MonitorKeeps(REMOVAL_FIRST, t, after, m);
      InvAt(MonitorNext(REMOVAL_FIRST, t, m).value, AfterMonitor(REMOVAL_FIRST, t, after, m), p);
      TakenMoves(t, after, m);
    }
  }

  /** The process has the level, and is in the list of that level and in no other. */
  ghost predicate MovedTo(s: State, p: nat, level: nat) {
    && p < |s.procs| && s.procs[p].level == level < |s.queues|
    && forall l :: 0 <= l < |s.queues| ==> (Proc(p) in s.queues[l] <==> l == level)
  }

  lemma ChosenRemoves(s: State, places: seq<Place>, m: nat)
    requires Shape(s, places) && m < |s.monitors| && s.monitors[m].pc.Chosen? && s.monitors[m].pid < |s.procs|
    requires s.monitors[m].pid < |places| && Placed(s, places, s.monitors[m].pid)
    requires LevelOk(REMOVAL_FIRST, s, places, s.monitors[m].pid)
    ensures MonitorNext(REMOVAL_FIRST, s, m).Some?
    ensures var p, t := s.monitors[m].pid, MonitorNext(REMOVAL_FIRST, s, m).value;
      && |t.monitors| == |s.monitors| && t.monitors[m].pid == p && |t.procs| == |s.procs|
      && (t.monitors[m].pc.Taken? <==> Queued(s, p)) && (!Queued(s, p) ==> t.queues == s.queues)
      && t.procs[p].level == s.monitors[m].pc.to
  {
    hide PlacedAtWorkers, PlacedAtMonitors, NoDup, IndexOf, Delete;
    var p := s.monitors[m].pid;
    if Queued(s, p) {
      var l :| 0 <= l < |s.queues| && Proc(p) in s.queues[l];
      assert places[p] == InList(l);
    }
  }

  lemma TakenNotQueued(s: State, places: seq<Place>, m: nat)
    requires Shape(s, places) && m < |s.monitors| && s.monitors[m].pc.Taken? && s.monitors[m].pid < |s.procs|
    requires s.monitors[m].pid < |places| && Placed(s, places, s.monitors[m].pid)
    ensures !Queued(s, s.monitors[m].pid) && MonitorNext(REMOVAL_FIRST, s, m).Some?
  {
  }

  lemma TakenMoves(s: State, places: seq<Place>, m: nat)
    requires Shape(s, places) && m < |s.monitors| && s.monitors[m].pc.Taken? && s.monitors[m].pid < |s.procs|
    requires MonitorNext(REMOVAL_FIRST, s, m).Some?
    requires var p, t := s.monitors[m].pid, MonitorNext(REMOVAL_FIRST, s, m).value;
      var after := AfterMonitor(REMOVAL_FIRST, s, places, m);
      p < |t.infos| && p < |t.procs| && p < |after| && Placed(t, after, p)
    ensures MovedTo(MonitorNext(REMOVAL_FIRST, s, m).value, s.monitors[m].pid, s.procs[s.monitors[m].pid].level)
  {
    hide PlacedAtWorkers, PlacedAtMonitors, NoDup, Insert;
  }
}
