/** Under every interleaving each process is in exactly one place. */
module SchedInvariant {
  import opened Common
  import opened SchedLevels
  import opened SchedModel
  import opened SchedFrames

  datatype Place =
    | NotArrived
    | WithOs
    | InList(level: nat)
    | AtWorker(w: nat)
    | InIo
    | WithMonitor(m: nat)
    | Finished

  // ---------------------------------------------------------------- where a process is, read off the state

  ghost predicate OsHas(s: State, p: nat) {
    (s.os.Moved? || s.os.Pushing?) && s.os.i == p
  }

  /** The worker is responsible for the process: it has popped it and neither pushed it back nor
      started its I/O, and the process is not over. */
  ghost predicate WorkerHas(pc: WorkerPc, d: Process, p: nat) {
    && pc.With? && pc.pid == p && !pc.stage.Leaving?
    && (pc.stage.Popped? || pc.stage.Locked? || pc.stage.Running? || !d.status.RunDone?)
  }

  ghost predicate MonitorHas(m: Monitor, p: nat) {
    m.pc.Taken? && m.pid == p
  }

  ghost predicate At(s: State, p: nat, place: Place)
    requires p < |s.infos| && p < |s.procs|
  {
    match place
    case NotArrived => s.infos[p].isNew
    case WithOs => OsHas(s, p)
    case InList(level) => level < |s.queues| && Proc(p) in s.queues[level]
    case AtWorker(w) => w < |s.workers| && WorkerHas(s.workers[w], s.procs[p], p)
    case InIo => s.infos[p].isWaiting && !s.infos[p].isNew
    case WithMonitor(m) => m < |s.monitors| && MonitorHas(s.monitors[m], p)
    case Finished => s.infos[p].cpuIndex >= |s.infos[p].remaining|
  }

  // ---------------------------------------------------------------- the invariant

  ghost predicate QueuesOk(queues: seq<seq<Item>>, n: nat) {
    && |queues| == NUM_PRIORITY_LEVELS
    && (forall l, x :: 0 <= l < |queues| && x in queues[l] && x.Proc? ==> x.pid < n)
    && (forall l :: 0 <= l < |queues| ==> NoDup(queues[l]))
  }

  ghost predicate WorkersOk(workers: seq<WorkerPc>, n: nat) {
    && |workers| == OS_CORES
    && (forall w :: 0 <= w < |workers| && workers[w].With? ==> workers[w].pid < n)
  }

  ghost predicate MonitorsOk(monitors: seq<Monitor>, n: nat) {
    forall m :: 0 <= m < |monitors| ==>
      monitors[m].pid < n && (monitors[m].pc.Chosen? ==> monitors[m].pc.to < NUM_PRIORITY_LEVELS)
  }

  ghost predicate LevelsOk(procs: seq<Process>) {
    forall p :: 0 <= p < |procs| ==> procs[p].level < NUM_PRIORITY_LEVELS
  }

  ghost predicate OsOk(os: OsPc, n: nat) {
    && (os.Moved? || os.Pushing? ==> os.i < n)
    && (os.Pushing? ==> os.level < NUM_PRIORITY_LEVELS)
  }

  ghost predicate Shape(s: State, places: seq<Place>) {
    && |s.infos| == |s.procs| == |s.lengths| == |places|
    && QueuesOk(s.queues, |places|) && WorkersOk(s.workers, |places|) && MonitorsOk(s.monitors, |places|)
    && LevelsOk(s.procs) && OsOk(s.os, |places|)
  }

  ghost predicate PlacedInQueues(queues: seq<seq<Item>>, place: Place, p: nat) {
    && (forall l :: 0 <= l < |queues| ==> (place == InList(l) <==> Proc(p) in queues[l]))
    && (place.InList? ==> place.level < |queues|)
  }

  ghost predicate PlacedAtWorkers(workers: seq<WorkerPc>, d: Process, place: Place, p: nat) {
    && (forall w :: 0 <= w < |workers| ==> (place == AtWorker(w) <==> WorkerHas(workers[w], d, p)))
    && (place.AtWorker? ==> place.w < |workers|)
  }

  ghost predicate PlacedAtMonitors(monitors: seq<Monitor>, place: Place, p: nat) {
    && (forall m :: 0 <= m < |monitors| ==> (place == WithMonitor(m) <==> MonitorHas(monitors[m], p)))
    && (place.WithMonitor? ==> place.m < |monitors|)
  }

  /** Process p is where `places` says, and nowhere else. */
  ghost predicate Placed(s: State, places: seq<Place>, p: nat)
    requires p < |s.infos| && p < |s.procs| && p < |places|
  {
    && (places[p] == NotArrived <==> s.infos[p].isNew)
    && (places[p] == InIo || places[p] == NotArrived <==> s.infos[p].isWaiting)
    && (places[p] == WithOs <==> OsHas(s, p))
    && PlacedInQueues(s.queues, places[p], p)
    && PlacedAtWorkers(s.workers, s.procs[p], places[p], p)
    && PlacedAtMonitors(s.monitors, places[p], p)
    && (places[p] == Finished <==> s.infos[p].cpuIndex >= |s.infos[p].remaining|)
    && (s.procs[p].status.RunDone? ==> places[p] == Finished)
  }

  ghost predicate Locking(pc: WorkerPc, p: nat) {
    pc.With? && pc.pid == p && !pc.stage.Popped? && !pc.stage.Unlocked? && !pc.stage.Updated?
  }

  ghost predicate MonitorLocking(m: Monitor, p: nat) {
    m.pid == p && !m.pc.Asleep? && !m.pc.Ended?
  }

  ghost predicate LockedByWorkers(workers: seq<WorkerPc>, lock: Owner, p: nat) {
    && (forall w :: 0 <= w < |workers| ==> (lock == ByWorker(w) <==> Locking(workers[w], p)))
    && (lock.ByWorker? ==> lock.w < |workers|)
  }

  ghost predicate LockedByMonitors(monitors: seq<Monitor>, lock: Owner, p: nat) {
    && (forall m :: 0 <= m < |monitors| ==> (lock == ByMonitor(m) <==> MonitorLocking(monitors[m], p)))
    && (lock.ByMonitor? ==> lock.m < |monitors|)
  }

  /** The mutex of process p is held by the thread whose program counter says so. */
  ghost predicate LockOk(s: State, p: nat)
    requires p < |s.procs|
  {
    LockedByWorkers(s.workers, s.procs[p].lock, p) && LockedByMonitors(s.monitors, s.procs[p].lock, p)
  }

  /** A process that is not new was created; before that no thread knows it. */
  ghost predicate Fresh(s: State, p: nat)
    requires p < |s.procs|
  {
    && s.procs[p].lock == Free && s.procs[p].level == MAX_PRIORITY_LEVEL
    && (forall m :: 0 <= m < |s.monitors| ==> s.monitors[m].pid != p)
    && (forall w :: 0 <= w < |s.workers| && s.workers[w].With? ==> s.workers[w].pid != p)
  }

  ghost predicate FreshIfNew(s: State, places: seq<Place>, q: nat)
    requires q < |s.procs| && q < |places|
  {
    places[q] == NotArrived || s.os == Moved(q, true) ==> Fresh(s, q)
  }

  predicate AfterSlice(stage: Stage) {
    stage.Ran? || stage.Unlocked? || stage.Updated? || stage.Deciding?
  }

  /** After a slice a process has a status. */
  ghost predicate HaveRun(s: State) {
    forall w :: 0 <= w < |s.workers| && s.workers[w].With? && AfterSlice(s.workers[w].stage) ==>
      s.workers[w].pid < |s.procs| && !s.procs[s.workers[w].pid].status.NotRun?
  }

  ghost predicate Inv(s: State, places: seq<Place>) {
    && Shape(s, places)
    && (forall p :: 0 <= p < |places| ==> Placed(s, places, p))
    && (forall p :: 0 <= p < |places| ==> LockOk(s, p))
    && (forall p :: 0 <= p < |places| ==> FreshIfNew(s, places, p))
    && HaveRun(s)
  }

  lemma StartInv(jobs: seq<Job>)
    requires forall i :: 0 <= i < |jobs| ==> jobs[i].bursts > 0
    ensures Inv(Start(jobs), seq(|jobs|, _ => NotArrived))
  {
  }


  // ---------------------------------------------------------------- one step

  /** Where the processes are after a step of worker w. */
  ghost function AfterWorker(s: State, places: seq<Place>, w: nat, c: Choice): (r: seq<Place>)
    requires Shape(s, places) && w < |s.workers|
    ensures |r| == |places|
  {
    match s.workers[w]
    case Exited => places
    case Scan(level) =>
      if level < |s.queues| && s.queues[level] != [] && s.queues[level][0].Proc?
      then places[s.queues[level][0].pid := AtWorker(w)] else places
    case With(p, stage) =>
      match stage
      case Running(slice, left) =>
        if left <= slice && s.infos[p].cpuIndex + 1 >= |s.infos[p].remaining| then places[p := Finished] else places
      case Deciding =>
        (match s.procs[p].status
         case RunPreempted => places[p := InList(s.procs[p].level)]
         case RunBlocked => places[p := InIo]
         case _ => places)
      case _ => places
  }

  ghost function AfterOs(s: State, places: seq<Place>, c: Choice): (r: seq<Place>)
    requires Shape(s, places)
    ensures |r| == |places|
  {
    match s.os
    case Check(i) =>
      if i < |s.infos| && c.due && (s.infos[i].isWaiting || s.infos[i].isNew) then places[i := WithOs] else places
    case Pushing(i, level) => places[i := InList(level)]
    case _ => places
  }

  ghost function AfterMonitor(v: Order, s: State, places: seq<Place>, m: nat): (r: seq<Place>)
    requires Shape(s, places) && m < |s.monitors|
    ensures |r| == |places|
  {
    var p := s.monitors[m].pid;
    match s.monitors[m].pc
    case Chosen(_, to) =>
      if Proc(p) in s.queues[s.procs[p].level] then places[p := WithMonitor(m)] else places
    case Taken => places[p := InList(s.procs[p].level)]
    case _ => places
  }

  ghost function After(v: Order, s: State, places: seq<Place>, a: Action, c: Choice): (r: seq<Place>)
    requires Shape(s, places) && Next(v, s, a, c).Some?
    ensures |r| == |places|
  {
    match a
    case OfWorker(w) => AfterWorker(s, places, w, c)
    case OfOs => AfterOs(s, places, c)
    case OfMonitor(m) => AfterMonitor(v, s, places, m)
  }

  lemma ScanPlaced(s: State, places: seq<Place>, w: nat, c: Choice, q: nat)
    requires Shape(s, places) && w < |s.workers| && WorkerNext(s, w, c).Some? && q < |places|
    requires Placed(s, places, q) && (s.workers[w].With? ==> Placed(s, places, s.workers[w].pid))
    requires s.workers[w].Scan?
    ensures Placed(WorkerNext(s, w, c).value, AfterWorker(s, places, w, c), q)
  {
    hide NoDup;
  }

  lemma ScanLocks(s: State, places: seq<Place>, w: nat, c: Choice, q: nat)
    requires Shape(s, places) && w < |s.workers| && WorkerNext(s, w, c).Some? && q < |places|
    requires Placed(s, places, q) && LockOk(s, q) && FreshIfNew(s, places, q)
    requires s.workers[w].With? ==> LockOk(s, s.workers[w].pid)
    requires s.workers[w].Scan?
    ensures LockOk(WorkerNext(s, w, c).value, q)
    ensures FreshIfNew(WorkerNext(s, w, c).value, AfterWorker(s, places, w, c), q)
  {
    hide NoDup;
  }

  lemma SlicePlaced(s: State, places: seq<Place>, w: nat, c: Choice, q: nat)
    requires Shape(s, places) && w < |s.workers| && WorkerNext(s, w, c).Some? && q < |places|
    requires Placed(s, places, q) && (s.workers[w].With? ==> Placed(s, places, s.workers[w].pid))
    requires s.workers[w].With? && s.workers[w].stage.Running?
    ensures Placed(WorkerNext(s, w, c).value, AfterWorker(s, places, w, c), q)
  {
    hide NoDup;
  }

  lemma SliceLocks(s: State, places: seq<Place>, w: nat, c: Choice, q: nat)
    requires Shape(s, places) && w < |s.workers| && WorkerNext(s, w, c).Some? && q < |places|
    requires Placed(s, places, q) && LockOk(s, q) && FreshIfNew(s, places, q)
    requires s.workers[w].With? ==> LockOk(s, s.workers[w].pid)
    requires s.workers[w].With? && s.workers[w].stage.Running?
    ensures LockOk(WorkerNext(s, w, c).value, q)
    ensures FreshIfNew(WorkerNext(s, w, c).value, AfterWorker(s, places, w, c), q)
  {
    hide NoDup;
  }

  lemma UpdatePlaced(s: State, places: seq<Place>, w: nat, c: Choice, q: nat)
    requires Shape(s, places) && w < |s.workers| && WorkerNext(s, w, c).Some? && q < |places|
    requires Placed(s, places, q) && (s.workers[w].With? ==> Placed(s, places, s.workers[w].pid))
    requires s.workers[w].With? && s.workers[w].stage.Unlocked?
    ensures Placed(WorkerNext(s, w, c).value, AfterWorker(s, places, w, c), q)
  {
    hide NoDup;
  }

  lemma UpdateLocks(s: State, places: seq<Place>, w: nat, c: Choice, q: nat)
    requires Shape(s, places) && w < |s.workers| && WorkerNext(s, w, c).Some? && q < |places|
    requires Placed(s, places, q) && LockOk(s, q) && FreshIfNew(s, places, q)
    requires s.workers[w].With? ==> LockOk(s, s.workers[w].pid)
    requires s.workers[w].With? && s.workers[w].stage.Unlocked?
    ensures LockOk(WorkerNext(s, w, c).value, q)
    ensures FreshIfNew(WorkerNext(s, w, c).value, AfterWorker(s, places, w, c), q)
  {
    hide NoDup;
  }

  lemma DecidePlaced(s: State, places: seq<Place>, w: nat, c: Choice, q: nat)
    requires Shape(s, places) && w < |s.workers| && WorkerNext(s, w, c).Some? && q < |places|
    requires Placed(s, places, q) && (s.workers[w].With? ==> Placed(s, places, s.workers[w].pid))
    requires s.workers[w].With? && s.workers[w].stage.Deciding? && !s.procs[s.workers[w].pid].status.NotRun?
    ensures Placed(WorkerNext(s, w, c).value, AfterWorker(s, places, w, c), q)
  {
    hide NoDup, WorkerNext, MonitorsOk;
    DecideFrame(s, w, c);
  }

  lemma DecideLocks(s: State, places: seq<Place>, w: nat, c: Choice, q: nat)
    requires Shape(s, places) && w < |s.workers| && WorkerNext(s, w, c).Some? && q < |places|
    requires Placed(s, places, q) && LockOk(s, q) && FreshIfNew(s, places, q)
    requires s.workers[w].With? ==> LockOk(s, s.workers[w].pid)
    requires s.workers[w].With? && s.workers[w].stage.Deciding?
    ensures LockOk(WorkerNext(s, w, c).value, q)
    ensures FreshIfNew(WorkerNext(s, w, c).value, AfterWorker(s, places, w, c), q)
  {
    hide NoDup;
  }

  lemma AcquirePlaced(s: State, places: seq<Place>, w: nat, c: Choice, q: nat)
    requires Shape(s, places) && w < |s.workers| && WorkerNext(s, w, c).Some? && q < |places|
    requires Placed(s, places, q) && (s.workers[w].With? ==> Placed(s, places, s.workers[w].pid))
    requires s.workers[w].With? && (s.workers[w].stage.Popped? || s.workers[w].stage.Updated?)
    ensures Placed(WorkerNext(s, w, c).value, AfterWorker(s, places, w, c), q)
  {
    hide NoDup;
  }

  lemma AcquireLocks(s: State, places: seq<Place>, w: nat, c: Choice, q: nat)
    requires Shape(s, places) && w < |s.workers| && WorkerNext(s, w, c).Some? && q < |places|
    requires Placed(s, places, q) && LockOk(s, q) && FreshIfNew(s, places, q)
    requires s.workers[w].With? ==> LockOk(s, s.workers[w].pid)
    requires s.workers[w].With? && (s.workers[w].stage.Popped? || s.workers[w].stage.Updated?)
    ensures LockOk(WorkerNext(s, w, c).value, q)
    ensures FreshIfNew(WorkerNext(s, w, c).value, AfterWorker(s, places, w, c), q)
  {
    hide NoDup;
  }

  lemma BeginPlaced(s: State, places: seq<Place>, w: nat, c: Choice, q: nat)
    requires Shape(s, places) && w < |s.workers| && WorkerNext(s, w, c).Some? && q < |places|
    requires Placed(s, places, q) && (s.workers[w].With? ==> Placed(s, places, s.workers[w].pid))
    requires s.workers[w].With? && s.workers[w].stage.Locked?
    ensures Placed(WorkerNext(s, w, c).value, AfterWorker(s, places, w, c), q)
  {
    hide NoDup;
  }

  lemma BeginLocks(s: State, places: seq<Place>, w: nat, c: Choice, q: nat)
    requires Shape(s, places) && w < |s.workers| && WorkerNext(s, w, c).Some? && q < |places|
    requires Placed(s, places, q) && LockOk(s, q) && FreshIfNew(s, places, q)
    requires s.workers[w].With? ==> LockOk(s, s.workers[w].pid)
    requires s.workers[w].With? && s.workers[w].stage.Locked?
    ensures LockOk(WorkerNext(s, w, c).value, q)
    ensures FreshIfNew(WorkerNext(s, w, c).value, AfterWorker(s, places, w, c), q)
  {
    hide NoDup;
  }

  lemma ReleasePlaced(s: State, places: seq<Place>, w: nat, c: Choice, q: nat)
    requires Shape(s, places) && w < |s.workers| && WorkerNext(s, w, c).Some? && q < |places|
    requires Placed(s, places, q) && (s.workers[w].With? ==> Placed(s, places, s.workers[w].pid))
    requires s.workers[w].With? && (s.workers[w].stage.Ran? || s.workers[w].stage.Leaving?)
    ensures Placed(WorkerNext(s, w, c).value, AfterWorker(s, places, w, c), q)
  {
    hide NoDup;
  }

  lemma ReleaseLocks(s: State, places: seq<Place>, w: nat, c: Choice, q: nat)
    requires Shape(s, places) && w < |s.workers| && WorkerNext(s, w, c).Some? && q < |places|
    requires Placed(s, places, q) && LockOk(s, q) && FreshIfNew(s, places, q)
    requires s.workers[w].With? ==> LockOk(s, s.workers[w].pid)
    requires s.workers[w].With? && (s.workers[w].stage.Ran? || s.workers[w].stage.Leaving?)
    ensures LockOk(WorkerNext(s, w, c).value, q)
    ensures FreshIfNew(WorkerNext(s, w, c).value, AfterWorker(s, places, w, c), q)
  {
    hide NoDup;
  }

  lemma OsPlaced(s: State, places: seq<Place>, c: Choice, q: nat)
    requires Shape(s, places) && OsNext(s, c).Some? && q < |places| && Placed(s, places, q)
    ensures Placed(OsNext(s, c).value, AfterOs(s, places, c), q)
  {
    hide NoDup;
  }

  lemma OsLocks(s: State, places: seq<Place>, c: Choice, q: nat)
    requires Shape(s, places) && OsNext(s, c).Some? && q < |places|
    requires Placed(s, places, q) && LockOk(s, q) && FreshIfNew(s, places, q)
    ensures LockOk(OsNext(s, c).value, q)
    ensures FreshIfNew(OsNext(s, c).value, AfterOs(s, places, c), q)
  {
    hide NoDup;
  }

  lemma ChoosePlaced(v: Order, s: State, places: seq<Place>, m: nat, q: nat)
    requires Shape(s, places) && m < |s.monitors| && MonitorNext(v, s, m).Some? && q < |places|
    requires Placed(s, places, q) && Placed(s, places, s.monitors[m].pid)
    requires s.monitors[m].pc.Asleep?
    ensures Placed(MonitorNext(v, s, m).value, AfterMonitor(v, s, places, m), q)
  {
    hide NoDup, QueuesOk, PlacedInQueues;
  }

  lemma ChooseLocks(v: Order, s: State, places: seq<Place>, m: nat, q: nat)
    requires Shape(s, places) && m < |s.monitors| && MonitorNext(v, s, m).Some? && q < |places|
    requires Placed(s, places, q) && LockOk(s, q) && FreshIfNew(s, places, q) && LockOk(s, s.monitors[m].pid)
    requires s.monitors[m].pc.Asleep?
    ensures LockOk(MonitorNext(v, s, m).value, q)
    ensures FreshIfNew(MonitorNext(v, s, m).value, AfterMonitor(v, s, places, m), q)
  {
    hide NoDup;
  }

  lemma RemovePlaced(v: Order, s: State, places: seq<Place>, m: nat, q: nat)
    requires Shape(s, places) && m < |s.monitors| && MonitorNext(v, s, m).Some? && q < |places|
    requires Placed(s, places, q) && Placed(s, places, s.monitors[m].pid)
    requires s.monitors[m].pc.Chosen?
    ensures Placed(MonitorNext(v, s, m).value, AfterMonitor(v, s, places, m), q)
  {
    hide NoDup, PlacedAtWorkers;
    MonitorFrame(v, s, m);
    var t := MonitorNext(v, s, m).value;
    SameAtWorkers(s.workers, s.procs[q], t.procs[q], places[q], q);
    if AfterMonitor(v, s, places, m)[q] != places[q] {
      NotAtWorkers(s.workers, t.procs[q], places[q], WithMonitor(m), q);
    }
  }

  lemma SameAtWorkers(workers: seq<WorkerPc>, d: Process, e: Process, place: Place, p: nat)
    requires d.status == e.status
    ensures PlacedAtWorkers(workers, d, place, p) <==> PlacedAtWorkers(workers, e, place, p)
  {
  }

  lemma NotAtWorkers(workers: seq<WorkerPc>, d: Process, place: Place, other: Place, p: nat)
    requires PlacedAtWorkers(workers, d, place, p) && !place.AtWorker? && !other.AtWorker?
    ensures PlacedAtWorkers(workers, d, other, p)
  {
  }

  lemma RemoveLocks(v: Order, s: State, places: seq<Place>, m: nat, q: nat)
    requires Shape(s, places) && m < |s.monitors| && MonitorNext(v, s, m).Some? && q < |places|
    requires Placed(s, places, q) && LockOk(s, q) && FreshIfNew(s, places, q) && LockOk(s, s.monitors[m].pid)
    requires s.monitors[m].pc.Chosen?
    ensures LockOk(MonitorNext(v, s, m).value, q)
    ensures FreshIfNew(MonitorNext(v, s, m).value, AfterMonitor(v, s, places, m), q)
  {
    hide NoDup;
  }

  lemma ReturnPlaced(v: Order, s: State, places: seq<Place>, m: nat, q: nat)
    requires Shape(s, places) && m < |s.monitors| && MonitorNext(v, s, m).Some? && q < |places|
    requires Placed(s, places, q) && Placed(s, places, s.monitors[m].pid)
    requires s.monitors[m].pc.Taken? || s.monitors[m].pc.Closing?
    ensures Placed(MonitorNext(v, s, m).value, AfterMonitor(v, s, places, m), q)
  {
    hide NoDup;
  }

  lemma ReturnLocks(v: Order, s: State, places: seq<Place>, m: nat, q: nat)
    requires Shape(s, places) && m < |s.monitors| && MonitorNext(v, s, m).Some? && q < |places|
    requires Placed(s, places, q) && LockOk(s, q) && FreshIfNew(s, places, q) && LockOk(s, s.monitors[m].pid)
    requires s.monitors[m].pc.Taken? || s.monitors[m].pc.Closing?
    ensures LockOk(MonitorNext(v, s, m).value, q)
    ensures FreshIfNew(MonitorNext(v, s, m).value, AfterMonitor(v, s, places, m), q)
  {
    hide NoDup;
  }


  // ---------------------------------------------------------------- every step keeps the invariant

  lemma InsertOk(queues: seq<seq<Item>>, n: nat, level: nat, k: nat, x: Item)
    requires QueuesOk(queues, n) && level < |queues| && k <= |queues[level]|
    requires x.Proc? ==> x.pid < n && x !in queues[level]
    ensures QueuesOk(queues[level := Insert(queues[level], k, x)], n)
  {
  }

  lemma DeleteOk(queues: seq<seq<Item>>, n: nat, level: nat, i: nat)
    requires QueuesOk(queues, n) && level < |queues| && i < |queues[level]|
    ensures QueuesOk(queues[level := Delete(queues[level], i)], n)
    ensures queues[level][i].Proc? ==> queues[level][i].pid < n
  {
  }

  lemma ElsewhereNotQueued(s: State, places: seq<Place>, p: nat, place: Place)
    requires |s.infos| == |s.procs| == |places| && p < |places| && Placed(s, places, p)
    requires At(s, p, place) && !place.InList?
    ensures forall l :: 0 <= l < |s.queues| ==> Proc(p) !in s.queues[l]
  {
  }

  lemma WorkerShape(s: State, places: seq<Place>, w: nat, c: Choice)
    requires Shape(s, places) && w < |s.workers| && WorkerNext(s, w, c).Some?
    requires s.workers[w].With? ==> Placed(s, places, s.workers[w].pid)
    ensures Shape(WorkerNext(s, w, c).value, AfterWorker(s, places, w, c))
  {
    hide Placed, Shape, WorkerNext, AfterWorker;
    NotExited(s, w, c);
    if s.workers[w].Scan? {
      ScanShape(s, places, w, c);
    } else if s.workers[w].stage.Deciding? {
      DecideShape(s, places, w, c);
    } else {
      StageShape(s, places, w, c);
    }
  }

  lemma NotExited(s: State, w: nat, c: Choice)
    requires w < |s.workers| && WorkerNext(s, w, c).Some?
    ensures s.workers[w].Scan? || s.workers[w].With?
  {
  }

  lemma ScanShape(s: State, places: seq<Place>, w: nat, c: Choice)
    requires Shape(s, places) && w < |s.workers| && s.workers[w].Scan? && WorkerNext(s, w, c).Some?
    ensures Shape(WorkerNext(s, w, c).value, AfterWorker(s, places, w, c))
  {
    hide QueuesOk, Delete;
    var level := s.workers[w].level;
    if level < |s.queues| && s.queues[level] != [] { DeleteOk(s.queues, |places|, level, 0); }
  }

  lemma StageShape(s: State, places: seq<Place>, w: nat, c: Choice)
    requires Shape(s, places) && w < |s.workers| && WorkerNext(s, w, c).Some?
    requires s.workers[w].With? && !s.workers[w].stage.Deciding?
    ensures Shape(WorkerNext(s, w, c).value, AfterWorker(s, places, w, c))
  {
    hide QueuesOk, WorkersOk, MonitorsOk, LevelsOk, WorkerNext;
    StageWorkers(s, w, c, |places|);
    StageLevels(s, w, c);
    StageMonitors(s, w, c, |places|);
    if s.workers[w].stage.Running? {
      SliceFrame(s, w, c);
    } else {
      StageFrame(s, w, c);
    }
  }

  lemma StageWorkers(s: State, w: nat, c: Choice, n: nat)
    requires w < |s.workers| && s.workers[w].With? && !s.workers[w].stage.Deciding? && WorkerNext(s, w, c).Some?
    requires WorkersOk(s.workers, n)
    ensures WorkersOk(WorkerNext(s, w, c).value.workers, n)
  {
  }

  lemma StageLevels(s: State, w: nat, c: Choice)
    requires w < |s.workers| && s.workers[w].With? && !s.workers[w].stage.Deciding? && WorkerNext(s, w, c).Some?
    requires LevelsOk(s.procs)
    ensures LevelsOk(WorkerNext(s, w, c).value.procs)
  {
  }

  lemma StageMonitors(s: State, w: nat, c: Choice, n: nat)
    requires w < |s.workers| && s.workers[w].With? && !s.workers[w].stage.Deciding? && WorkerNext(s, w, c).Some?
    requires MonitorsOk(s.monitors, n) && |s.procs| == n
    ensures MonitorsOk(WorkerNext(s, w, c).value.monitors, n)
  {
  }

  lemma DecideShape(s: State, places: seq<Place>, w: nat, c: Choice)
    requires Shape(s, places) && w < |s.workers| && WorkerNext(s, w, c).Some?
    requires s.workers[w].With? && s.workers[w].stage.Deciding? && Placed(s, places, s.workers[w].pid)
    ensures Shape(WorkerNext(s, w, c).value, AfterWorker(s, places, w, c))
  {
    hide PlacedInQueues, PlacedAtWorkers, PlacedAtMonitors, QueuesOk, Insert, MonitorsOk;
    var p := s.workers[w].pid;
    if s.procs[p].status.RunPreempted? {
      var level := s.procs[p].level;
      ElsewhereNotQueued(s, places, p, AtWorker(w));
      InsertOk(s.queues, |places|, level, PushPlace(s.queues[level], s.lengths, p, level), Proc(p));
    }
  }

  lemma WorkerHaveRun(s: State, places: seq<Place>, w: nat, c: Choice)
    requires Shape(s, places) && HaveRun(s) && w < |s.workers| && WorkerNext(s, w, c).Some?
    ensures HaveRun(WorkerNext(s, w, c).value)
  {
    hide Shape, WorkerNext;
    NotExited(s, w, c);
    if s.workers[w].Scan? {
      ScanFrame(s, w, c);
    } else if s.workers[w].stage.Running? {
      SliceFrame(s, w, c);
    } else if s.workers[w].stage.Deciding? {
      DecideFrame(s, w, c);
    } else {
      StageFrame(s, w, c);
    }
  }

  lemma WorkerKeeps(s: State, places: seq<Place>, w: nat, c: Choice)
    requires Inv(s, places) && w < |s.workers| && WorkerNext(s, w, c).Some?
    ensures Inv(WorkerNext(s, w, c).value, AfterWorker(s, places, w, c))
  {
    hide Placed, LockOk, FreshIfNew, HaveRun, WorkerNext, AfterWorker;
    hide QueuesOk, WorkersOk, MonitorsOk, LevelsOk, OsOk;
    var t, after := WorkerNext(s, w, c).value, AfterWorker(s, places, w, c);
    WithInRange(s, places, w, c);
    WorkerShape(s, places, w, c);
    WorkerHaveRun(s, places, w, c);
    forall q | 0 <= q < |after| ensures Placed(t, after, q) && LockOk(t, q) && FreshIfNew(t, after, q) {
      WorkerKeepsOne(s, places, w, c, q);
    }
  }

  lemma WithInRange(s: State, places: seq<Place>, w: nat, c: Choice)
    requires Inv(s, places) && w < |s.workers| && WorkerNext(s, w, c).Some?
    ensures |s.procs| == |places| == |s.infos| && !s.workers[w].Exited?
    ensures s.workers[w].With? ==>
      && s.workers[w].pid < |places| && Placed(s, places, s.workers[w].pid)
      && (s.workers[w].stage.Deciding? ==> !s.procs[s.workers[w].pid].status.NotRun?)
    ensures Shape(WorkerNext(s, w, c).value, AfterWorker(s, places, w, c))
  {
    assert s.workers[w].With? ==> Placed(s, places, s.workers[w].pid);
    WorkerShape(s, places, w, c);
    hide Placed, LockOk;
  }

  lemma WorkerKeepsOne(s: State, places: seq<Place>, w: nat, c: Choice, q: nat)
    requires Inv(s, places) && w < |s.workers| && WorkerNext(s, w, c).Some? && q < |places|
    ensures var t, after := WorkerNext(s, w, c).value, AfterWorker(s, places, w, c);
      |t.procs| == |t.infos| == |after| == |places| && Placed(t, after, q) && LockOk(t, q) && FreshIfNew(t, after, q)
  {
    hide Placed, LockOk, FreshIfNew, HaveRun, WorkerNext, AfterWorker;
    hide QueuesOk, WorkersOk, MonitorsOk, LevelsOk, OsOk;
    WithInRange(s, places, w, c);
    if s.workers[w].Scan? {
      ScanPlaced(s, places, w, c, q); ScanLocks(s, places, w, c, q);
    } else if s.workers[w].stage.Running? {
      SlicePlaced(s, places, w, c, q); SliceLocks(s, places, w, c, q);
    } else if s.workers[w].stage.Unlocked? {
      UpdatePlaced(s, places, w, c, q); UpdateLocks(s, places, w, c, q);
    } else if s.workers[w].stage.Deciding? {
      DecidePlaced(s, places, w, c, q); DecideLocks(s, places, w, c, q);
    } else if s.workers[w].stage.Locked? {
      BeginPlaced(s, places, w, c, q); BeginLocks(s, places, w, c, q);
    } else if s.workers[w].stage.Popped? || s.workers[w].stage.Updated? {
      AcquirePlaced(s, places, w, c, q); AcquireLocks(s, places, w, c, q);
    } else {
      ReleasePlaced(s, places, w, c, q); ReleaseLocks(s, places, w, c, q);
    }
  }

  lemma OsShape(s: State, places: seq<Place>, c: Choice)
    requires Shape(s, places) && OsNext(s, c).Some?
    requires s.os.Pushing? ==> Placed(s, places, s.os.i)
    ensures Shape(OsNext(s, c).value, AfterOs(s, places, c))
  {
    hide PlacedInQueues, PlacedAtWorkers, PlacedAtMonitors, QueuesOk, Insert, Delete;
    match s.os {
      case Pushing(i, level) =>
        ElsewhereNotQueued(s, places, i, WithOs);
        InsertOk(s.queues, |places|, level, PushPlace(s.queues[level], s.lengths, i, level), Proc(i));
      case Pills(k) =>
        if k < OS_CORES { InsertOk(s.queues, |places|, PILL_LEVEL, |s.queues[PILL_LEVEL]|, Pill); }
      case _ =>
    }
  }

  lemma OsHaveRun(s: State, places: seq<Place>, c: Choice)
    requires Inv(s, places) && OsNext(s, c).Some?
    ensures HaveRun(OsNext(s, c).value)
  {
    hide QueuesOk, MonitorsOk;
    if s.os.Moved? { assert FreshIfNew(s, places, s.os.i); }
  }

  lemma OsKeeps(s: State, places: seq<Place>, c: Choice)
    requires Inv(s, places) && OsNext(s, c).Some?
    ensures Inv(OsNext(s, c).value, AfterOs(s, places, c))
  {
    hide Placed, LockOk, FreshIfNew, HaveRun, OsNext, AfterOs;
    hide QueuesOk, WorkersOk, MonitorsOk, LevelsOk;
    if s.os.Pushing? { assert Placed(s, places, s.os.i); }
    OsShape(s, places, c);
    OsHaveRun(s, places, c);
    var t, after := OsNext(s, c).value, AfterOs(s, places, c);
    forall q | 0 <= q < |after| ensures Placed(t, after, q) && LockOk(t, q) && FreshIfNew(t, after, q) {
      OsPlaced(s, places, c, q);
      OsLocks(s, places, c, q);
    }
  }

  lemma MonitorShape(v: Order, s: State, places: seq<Place>, m: nat)
    requires Shape(s, places) && m < |s.monitors| && MonitorNext(v, s, m).Some?
    requires Placed(s, places, s.monitors[m].pid)
    ensures Shape(MonitorNext(v, s, m).value, AfterMonitor(v, s, places, m))
  {
    hide PlacedInQueues, PlacedAtWorkers, PlacedAtMonitors, QueuesOk, Insert, Delete;
    var p := s.monitors[m].pid;
    var level := s.procs[p].level;
    match s.monitors[m].pc {
      case Chosen(_, to) =>
        if level < |s.queues| && Proc(p) in s.queues[level] {
          DeleteOk(s.queues, |places|, level, IndexOf(s.queues[level], Proc(p)));
        }
      case Taken =>
        ElsewhereNotQueued(s, places, p, WithMonitor(m));
        InsertOk(s.queues, |places|, level, PushPlace(s.queues[level], s.lengths, p, level), Proc(p));
      case _ =>
    }
  }

  lemma MonitorHaveRun(v: Order, s: State, places: seq<Place>, m: nat)
    requires Shape(s, places) && HaveRun(s) && m < |s.monitors| && MonitorNext(v, s, m).Some?
    ensures HaveRun(MonitorNext(v, s, m).value)
  {
    hide QueuesOk;
  }

  lemma MonitorKeeps(v: Order, s: State, places: seq<Place>, m: nat)
    requires Inv(s, places) && m < |s.monitors| && MonitorNext(v, s, m).Some?
    ensures Inv(MonitorNext(v, s, m).value, AfterMonitor(v, s, places, m))
  {
    hide Placed, LockOk, FreshIfNew, HaveRun, MonitorNext, AfterMonitor;
    hide QueuesOk, WorkersOk, LevelsOk, OsOk;
    var p := s.monitors[m].pid;
    assert Placed(s, places, p) && LockOk(s, p);
    MonitorShape(v, s, places, m);
    MonitorHaveRun(v, s, places, m);
    var t, after := MonitorNext(v, s, m).value, AfterMonitor(v, s, places, m);
    forall q | 0 <= q < |after| ensures Placed(t, after, q) && LockOk(t, q) && FreshIfNew(t, after, q) {
      MonitorKeepsOne(v, s, places, m, q);
    }
  }

  lemma MonitorKeepsOne(v: Order, s: State, places: seq<Place>, m: nat, q: nat)
    requires Inv(s, places) && m < |s.monitors| && MonitorNext(v, s, m).Some? && q < |places|
    ensures var t, after := MonitorNext(v, s, m).value, AfterMonitor(v, s, places, m);
      |t.procs| == |t.infos| == |after| == |places| && Placed(t, after, q) && LockOk(t, q) && FreshIfNew(t, after, q)
  {
    hide Placed, LockOk, FreshIfNew, HaveRun, AfterMonitor;
    hide QueuesOk, WorkersOk, LevelsOk, OsOk;
    var p := s.monitors[m].pid;
    assert Placed(s, places, p) && LockOk(s, p);
    MonitorShape(v, s, places, m);
    if s.monitors[m].pc.Asleep? {
      ChoosePlaced(v, s, places, m, q); ChooseLocks(v, s, places, m, q);
    } else if s.monitors[m].pc.Chosen? {
      RemovePlaced(v, s, places, m, q); RemoveLocks(v, s, places, m, q);
    } else {
      ReturnPlaced(v, s, places, m, q); ReturnLocks(v, s, places, m, q);
    }
  }

  lemma StepKeeps(v: Order, s: State, places: seq<Place>, a: Action, c: Choice)
    requires Inv(s, places) && Next(v, s, a, c).Some?
    ensures Inv(Next(v, s, a, c).value, After(v, s, places, a, c))
  {
    hide Inv, WorkerNext, OsNext, MonitorNext, AfterWorker, AfterOs, AfterMonitor, Shape;
    match a
    case OfWorker(w) => WorkerKeeps(s, places, w, c);
    case OfOs => OsKeeps(s, places, c);
    case OfMonitor(m) => MonitorKeeps(v, s, places, m);
  }

  // ---------------------------------------------------------------- conservation

  /** Whatever the order in the monitor, and under every interleaving, each process is in exactly one
      place: none is lost, duplicated or run on two cores. */
  lemma {:induction false} ExactlyOnePlace(v: Order, jobs: seq<Job>, s: State, n: nat, p: nat) returns (place: Place)
    requires (forall i :: 0 <= i < |jobs| ==> jobs[i].bursts > 0) && Reached(v, jobs, s, n) && p < |jobs|
    ensures |s.infos| == |s.procs| == |jobs|
    ensures At(s, p, place)
    ensures forall other :: At(s, p, other) ==> other == place
    ensures forall l :: 0 <= l < |s.queues| ==> NoDup(s.queues[l])
  {
    var places := ReachedInv(v, jobs, s, n);
    assert Placed(s, places, p);
    place := places[p];
  }

  lemma {:induction false} ReachedInv(v: Order, jobs: seq<Job>, s: State, n: nat) returns (places: seq<Place>)
    requires (forall i :: 0 <= i < |jobs| ==> jobs[i].bursts > 0) && Reached(v, jobs, s, n)
    ensures Inv(s, places) && |places| == |jobs|
    decreases n
  {
    hide Inv, Next, Start, Shape, After;
    if n == 0 {
      StartInv(jobs);
      places := seq(|jobs|, _ => NotArrived);
    } else {
      var t, a, c :| Reached(v, jobs, t, n - 1) && Next(v, t, a, c) == Some(s);
      var before := ReachedInv(v, jobs, t, n - 1);
      StepKeeps(v, t, before, a, c);
      InvShape(t, before);
      places := After(v, t, before, a, c);
    }
  }

  lemma InvShape(s: State, places: seq<Place>)
    requires Inv(s, places)
    ensures Shape(s, places) && |s.infos| == |s.procs| == |s.lengths| == |places|
  {
  }
}
