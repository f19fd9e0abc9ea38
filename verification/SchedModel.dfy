/** The multilevel feedback scheduler of tp2 as a step system: two workers, the OS loop and the
    priority monitors, one atomic step per critical section.

    What the threads compare with a clock or compute in floating point is a choice of the step:
    the length of a slice (any positive one), the time that a worker measures, whether a process is
    due, and whether a worker asks for another slice.  Fields named `ran` and `slices` only record
    what happened. */
module SchedModel {
  import opened Common
  import opened SchedLevels

  const OS_CORES := 2

  /** What a node of a ready queue carries: a process, or a poison pill (NULL). */
  datatype Item = Pill | Proc(pid: nat)

  datatype Status = NotRun | RunDone | RunBlocked | RunPreempted

  datatype Owner = Free | ByWorker(w: nat) | ByMonitor(m: nat)

  /** `process_t`: the part shared by workers and monitors, with the holder of its mutex. */
  datatype Process = Process(level: nat, status: Status, waitingBoost: bool, lock: Owner)

  /** The lengths in `process_t` that order the lists, and `found_burst`; `found_io` and `already_executed` are set
      by nothing. */
  datatype Lengths = Lengths(burst: nat, io: nat, found: bool)

  function Key(l: Lengths): nat {
    l.burst + l.io
  }

  /** `process_info_t` with its array of bursts; `ran[b]` is the time burst b was charged. */
  datatype Info = Info(
    burstTime: nat, cpuIndex: nat, ioIndex: nat, isNew: bool, isWaiting: bool,
    remaining: seq<nat>, ran: seq<nat>)

  /** Where a worker is with the process it popped. */
  datatype Stage =
    | Popped                           // worker.c:42, before locking the process
    | Locked                           // process mutex held, before a slice
    | Running(slice: nat, left: nat)   // os.c:96-104, between the two critical sections
    | Ran                              // slice over, process mutex held
    | Unlocked                         // worker.c:117, before update_priority_level
    | Updated                          // worker.c:120, before the second lock
    | Deciding                         // worker.c:121, process mutex held again
    | Leaving                          // worker.c:147, about to unlock

  datatype WorkerPc =
    | Scan(level: nat)                 // in ready_queue_pop, about to look at `level`
    | With(pid: nat, stage: Stage)
    | Exited

  datatype OsPc =
    | Top                                        // os.c:227, about to read the done count
    | Check(i: nat)                              // os.c:239, about to look at process i
    | Moved(i: nat, create: bool)                // os.c:259, process i leaves I/O or arrives
    | Pushing(i: nat, level: nat)                // in ready_queue_push, level read
    | Pills(k: nat)                              // os.c:398, k pills sent
    | Joined

  datatype MonitorPc =
    | Asleep
    | Chosen(from: nat, to: nat)                 // worker.c:187, process mutex held, before the removal
    | Taken                                      // worker.c:194, process removed and not yet pushed
    | Closing
    | Ended

  datatype Monitor = Monitor(pid: nat, pc: MonitorPc)

  datatype State = State(
    infos: seq<Info>, procs: seq<Process>, lengths: seq<Lengths>, queues: seq<seq<Item>>, workers: seq<WorkerPc>,
    monitors: seq<Monitor>, os: OsPc, done: nat, slices: nat)

  /** `levelFirst`: the monitor changes the level before it removes the process (worker.c:188-193). */
  datatype Order = Order(levelFirst: bool)

  const AS_WRITTEN := Order(true)
  const REMOVAL_FIRST := Order(false)

  /** What a step may choose. */
  datatype Choice = Choice(slice: nat, again: bool, due: bool, elapsed: nat)

  datatype Action = OfWorker(w: nat) | OfOs | OfMonitor(m: nat)

  // ---------------------------------------------------------------- queues, head first

  ghost predicate NoDup(q: seq<Item>) {
    forall i, j :: 0 <= i < j < |q| && q[i].Proc? ==> q[i] != q[j]
  }

  function Insert(q: seq<Item>, k: nat, x: Item): (r: seq<Item>)
    requires k <= |q|
    ensures |r| == |q| + 1
    ensures forall y :: y in r <==> y == x || y in q
    ensures NoDup(q) && x !in q ==> NoDup(r)
  {
    assert forall i :: 0 <= i < k ==> q[i] in q;
    assert forall i :: k <= i < |q| ==> q[i] in q;
    q[..k] + [x] + q[k..]
  }

  function Delete(q: seq<Item>, i: nat): (r: seq<Item>)
    requires i < |q|
    ensures |r| == |q| - 1
    ensures forall y :: y in r ==> y in q
    ensures forall y :: y in q && y != q[i] ==> y in r
    ensures NoDup(q) ==> NoDup(r) && (q[i].Proc? ==> q[i] !in r)
  {
    assert forall j :: 0 <= j < i ==> q[j] in q[..i] + q[i + 1..];
    assert forall j :: i < j < |q| ==> q[j] == (q[..i] + q[i + 1..])[j - 1];
    q[..i] + q[i + 1..]
  }

  function IndexOf(q: seq<Item>, x: Item): (i: nat)
    requires x in q
    ensures i < |q| && q[i] == x
  {
    if q[0] == x then 0 else 1 + IndexOf(q[1..], x)
  }

  predicate Smaller(x: Item, lengths: seq<Lengths>, key: nat) {
    x.Proc? && x.pid < |lengths| && Key(lengths[x.pid]) < key
  }

  /** ready_queue.c:120-129: behind the last process, seen from the head, with a smaller key. */
  function SortedPlace(q: seq<Item>, lengths: seq<Lengths>, key: nat): (k: nat)
    ensures k <= |q|
    ensures k > 0 ==> Smaller(q[k - 1], lengths, key)
    ensures forall i :: k <= i < |q| ==> !Smaller(q[i], lengths, key)
  {
    if q == [] || Smaller(q[|q| - 1], lengths, key) then |q| else SortedPlace(q[..|q| - 1], lengths, key)
  }

  /** `ready_queue_push` of a process: at the tail of level 0, at the sorted place elsewhere. */
  function PushPlace(q: seq<Item>, lengths: seq<Lengths>, pid: nat, level: nat): (k: nat)
    requires pid < |lengths|
    ensures k <= |q|
  {
    if level == MAX_PRIORITY_LEVEL then |q| else SortedPlace(q, lengths, Key(lengths[pid]))
  }

  function Pushed(s: State, pid: nat, level: nat): (r: Option<State>) {
    if level < |s.queues| && pid < |s.lengths| then
      var q := s.queues[level];
      Some(s.(queues := s.queues[level := Insert(q, PushPlace(q, s.lengths, pid, level), Proc(pid))]))
    else None
  }

  // ---------------------------------------------------------------- workers

  function SetWorker(s: State, w: nat, pc: WorkerPc): State
    requires w < |s.workers|
  {
    s.(workers := s.workers[w := pc])
  }

  function SetLock(s: State, p: nat, o: Owner): State
    requires p < |s.procs|
  {
    s.(procs := s.procs[p := s.procs[p].(lock := o)])
  }

  /** worker.c:66-69, 107-110: the time of a slice counts until the burst is found. */
  function Measured(l: Lengths, elapsed: nat): Lengths {
    if l.found then l else l.(burst := l.burst + elapsed)
  }

  /** The second critical section of `os_run_user_mode`, and what the worker notes before it unlocks the process. */
  function SliceEnds(s: State, w: nat, p: nat, slice: nat, left: nat, elapsed: nat): Option<State>
    requires w < |s.workers| && p < |s.procs| && p < |s.infos| && p < |s.lengths|
  {
    var info := s.infos[p];
    var b := info.cpuIndex;
    if b < |info.remaining| && b < |info.ran| && left <= info.remaining[b] then
      var preempted := slice < left;
      var time := if preempted then slice else left;
      var charged := info.(ran := info.ran[b := info.ran[b] + time]);
      var last := !preempted && b + 1 >= |info.remaining|;
      var next := if preempted
        then charged.(remaining := info.remaining[b := info.remaining[b] - time])
        else charged.(remaining := info.remaining[b := 0], cpuIndex := b + 1);
      var status := if preempted then RunPreempted else if last then RunDone else RunBlocked;
      Some(SetWorker(s, w, With(p, Ran)).(
        infos := s.infos[p := next],
        procs := s.procs[p := s.procs[p].(status := status)],
        lengths := s.lengths[p := Measured(s.lengths[p], elapsed)],
        done := if last then s.done + 1 else s.done,
        slices := s.slices + 1))
    else None
  }

  /** `update_priority_level`: demote and arm a monitor, or go back to the top. */
  function LevelUpdated(s: State, w: nat, p: nat): State
    requires w < |s.workers| && p < |s.procs|
  {
    var d := s.procs[p];
    var t := SetWorker(s, w, With(p, Updated));
    if d.status.RunPreempted? then
      t.(procs := s.procs[p := d.(level := Min(d.level + 1, MIN_PRIORITY_LEVEL), waitingBoost := true)],
         monitors := if d.waitingBoost then s.monitors else s.monitors + [Monitor(p, Asleep)])
    else
      t.(procs := s.procs[p := d.(level := MAX_PRIORITY_LEVEL)])
  }

  /** The switch of worker.c:122-146; the length of the I/O is noted after its start, see `Released`. */
  function Decided(s: State, w: nat, p: nat): Option<State>
    requires w < |s.workers| && p < |s.procs| && p < |s.infos| && p < |s.lengths|
  {
    var t := SetWorker(s, w, With(p, Leaving));
    match s.procs[p].status
    case RunPreempted => Pushed(t, p, s.procs[p].level)
    case RunBlocked =>
      Some(t.(infos := s.infos[p := s.infos[p].(isWaiting := true, ioIndex := s.infos[p].ioIndex + 1)],
              lengths := s.lengths[p := s.lengths[p].(found := true)]))
    case RunDone => Some(t.(lengths := s.lengths[p := s.lengths[p].(burst := 0, found := false)]))
    case NotRun => Some(t)
  }

  /** The worker unlocks the process; before that it notes the length of the I/O (worker.c:137-140), when the OS may
      have queued the process already. */
  function Released(s: State, w: nat, p: nat, elapsed: nat): State
    requires w < |s.workers| && p < |s.procs| && p < |s.lengths|
  {
    var t := SetWorker(SetLock(s, p, Free), w, Scan(0));
    if s.procs[p].status.RunBlocked? then t.(lengths := s.lengths[p := s.lengths[p].(io := elapsed)]) else t
  }

  /** `ready_queue_pop` at one level: take the head, or go on to the next level. */
  function Scanned(s: State, w: nat, level: nat): State
    requires w < |s.workers|
  {
    if level >= |s.queues| then SetWorker(s, w, Scan(0))
    else if s.queues[level] == [] then SetWorker(s, w, Scan(level + 1))
    else
      var head := s.queues[level][0];
      SetWorker(s, w, if head.Pill? then Exited else With(head.pid, Popped)).(
        queues := s.queues[level := Delete(s.queues[level], 0)])
  }

  function StageNext(s: State, w: nat, p: nat, stage: Stage, c: Choice): Option<State>
    requires w < |s.workers| && p < |s.procs| && p < |s.infos| && p < |s.lengths|
  {
    var d := s.procs[p];
    match stage
    case Popped =>
      if d.lock == Free then Some(SetWorker(SetLock(s, p, ByWorker(w)), w, With(p, Locked))) else None
    case Locked =>
      var info := s.infos[p];
      if c.slice > 0 && info.cpuIndex < |info.remaining|
      then Some(SetWorker(s, w, With(p, Running(c.slice, info.remaining[info.cpuIndex])))) else None
    case Running(slice, left) => SliceEnds(s, w, p, slice, left, c.elapsed)
    case Ran =>
      if c.again && d.status.RunPreempted? && d.level != MAX_PRIORITY_LEVEL
      then Some(SetWorker(s, w, With(p, Locked)))
      else Some(SetWorker(SetLock(s, p, Free), w, With(p, Unlocked)))
    case Unlocked => if d.lock == Free then Some(LevelUpdated(s, w, p)) else None
    case Updated =>
      if d.lock == Free then Some(SetWorker(SetLock(s, p, ByWorker(w)), w, With(p, Deciding))) else None
    case Deciding => Decided(s, w, p)
    case Leaving => Some(Released(s, w, p, c.elapsed))
  }

  function WorkerNext(s: State, w: nat, c: Choice): Option<State>
    requires w < |s.workers|
  {
    match s.workers[w]
    case Exited => None
    case Scan(level) => Some(Scanned(s, w, level))
    case With(p, stage) =>
      if p < |s.procs| && p < |s.infos| && p < |s.lengths| then StageNext(s, w, p, stage, c) else None
  }

  // ---------------------------------------------------------------- os_loop and the pills

  /** The critical section of os.c:239-257. */
  function Checked(s: State, i: nat, due: bool): State
    requires i < |s.infos|
  {
    var info := s.infos[i];
    if due && (info.isWaiting || info.isNew)
    then s.(infos := s.infos[i := info.(isWaiting := false, isNew := false)], os := Moved(i, info.isNew))
    else s.(os := Check(i + 1))
  }

  function OsNext(s: State, c: Choice): Option<State> {
    match s.os
    case Top => Some(s.(os := if s.done >= |s.infos| then Pills(0) else Check(0)))
    case Check(i) => Some(if i >= |s.infos| then s.(os := Top) else Checked(s, i, c.due))
    case Moved(i, create) =>
      if i < |s.procs| && i < |s.lengths| then
        var d := if create then Process(MAX_PRIORITY_LEVEL, NotRun, false, Free) else s.procs[i];
        var l := if create then Lengths(0, 0, false) else s.lengths[i];
        Some(s.(procs := s.procs[i := d], lengths := s.lengths[i := l], os := Pushing(i, d.level)))
      else None
    case Pushing(i, level) => Pushed(s.(os := Check(i + 1)), i, level)
    case Pills(k) =>
      if k < OS_CORES then
        if PILL_LEVEL < |s.queues|
        then var q := s.queues[PILL_LEVEL];
             Some(s.(queues := s.queues[PILL_LEVEL := Insert(q, |q|, Pill)], os := Pills(k + 1)))
        else None
      else if forall w :: 0 <= w < |s.workers| ==> s.workers[w].Exited? then Some(s.(os := Joined))
      else None
    case Joined => None
  }

  // ---------------------------------------------------------------- priority monitors

  function SetMonitor(s: State, m: nat, pc: MonitorPc): State
    requires m < |s.monitors|
  {
    s.(monitors := s.monitors[m := s.monitors[m].(pc := pc)])
  }

  /** worker.c:177-188: lock the process and choose its new level. */
  function Chose(v: Order, s: State, m: nat, p: nat): State
    requires m < |s.monitors| && p < |s.procs|
  {
    var d := s.procs[p];
    var to := if d.status.RunBlocked? then MAX_PRIORITY_LEVEL else MAX_PRIORITY_LEVEL + 1;
    if !d.status.RunDone? && d.level > to
    then SetMonitor(s.(procs := s.procs[p := d.(lock := ByMonitor(m), level := if v.levelFirst then to else d.level)]),
                    m, Chosen(d.level, to))
    else SetMonitor(SetLock(s, p, ByMonitor(m)), m, Closing)
  }

  /** worker.c:193: `ready_queue_remove` searches the queue of the process's current level. */
  function Removed(v: Order, s: State, m: nat, p: nat, to: nat): State
    requires m < |s.monitors| && p < |s.procs|
  {
    var level := s.procs[p].level;
    var t := if v.levelFirst then s else s.(procs := s.procs[p := s.procs[p].(level := to)]);
    if level < |s.queues| && Proc(p) in s.queues[level] then
      var q := s.queues[level];
      SetMonitor(t.(queues := s.queues[level := Delete(q, IndexOf(q, Proc(p)))]), m, Taken)
    else SetMonitor(t, m, Closing)
  }

  function MonitorNext(v: Order, s: State, m: nat): Option<State>
    requires m < |s.monitors|
  {
    var p := s.monitors[m].pid;
    if p >= |s.procs| then None
    else
      match s.monitors[m].pc
      case Asleep => if s.procs[p].lock == Free then Some(Chose(v, s, m, p)) else None
      case Chosen(_, to) => Some(Removed(v, s, m, p, to))
      case Taken => Pushed(SetMonitor(s, m, Closing), p, s.procs[p].level)
      case Closing =>
        Some(SetMonitor(s.(procs := s.procs[p := s.procs[p].(lock := Free, waitingBoost := false)]), m, Ended))
      case Ended => None
  }

  // ---------------------------------------------------------------- the system

  /** One step of one thread; None where the thread is blocked, has finished, or cannot do as chosen. */
  function Next(v: Order, s: State, a: Action, c: Choice): Option<State> {
    match a
    case OfWorker(w) => if w < |s.workers| then WorkerNext(s, w, c) else None
    case OfOs => OsNext(s, c)
    case OfMonitor(m) => if m < |s.monitors| then MonitorNext(v, s, m) else None
  }

  /** A job: the number of its bursts and the length of each (os.c:180-220). */
  datatype Job = Job(bursts: nat, burstTime: nat)

  function Start(jobs: seq<Job>): State {
    State(
      seq(|jobs|, i requires 0 <= i < |jobs| =>
        Info(jobs[i].burstTime, 0, 0, true, true,
             seq(jobs[i].bursts, _ => jobs[i].burstTime), seq(jobs[i].bursts, _ => 0))),
      seq(|jobs|, _ => Process(MAX_PRIORITY_LEVEL, NotRun, false, Free)),
      seq(|jobs|, _ => Lengths(0, 0, false)),
      seq(NUM_PRIORITY_LEVELS, _ => []),
      seq(OS_CORES, _ => Scan(0)),
      [], Top, 0, 0)
  }

  /** `s` is reached from `Start(jobs)` in `n` steps. */
  ghost predicate Reached(v: Order, jobs: seq<Job>, s: State, n: nat)
    decreases n
  {
    if n == 0 then s == Start(jobs)
    else exists t, a, c :: Reached(v, jobs, t, n - 1) && Next(v, t, a, c) == Some(s)
  }
}
