/** The lists below the top level stay in the order of the keys, though keys change while processes wait. */
module SchedSorted {
  import opened Common
  import opened SchedLevels
  import opened SchedModel
  import opened SchedFrames
  import opened SchedInvariant
  import opened SchedShutdown
  import opened SchedBoost

  ghost predicate SortedList(q: seq<Item>, lengths: seq<Lengths>) {
    forall i, j :: 0 <= i < j < |q| && Timed(q[i], lengths) && Timed(q[j], lengths) ==>
      Key(lengths[q[i].pid]) <= Key(lengths[q[j].pid])
  }

  ghost predicate Timed(x: Item, lengths: seq<Lengths>) {
    x.Proc? && x.pid < |lengths|
  }

  ghost predicate SortedBelow(queues: seq<seq<Item>>, lengths: seq<Lengths>) {
    forall l :: MAX_PRIORITY_LEVEL < l < |queues| ==> SortedList(queues[l], lengths)
  }

  ghost predicate NotBelow(queues: seq<seq<Item>>, p: nat) {
    forall l :: MAX_PRIORITY_LEVEL < l < |queues| ==> Proc(p) !in queues[l]
  }

  /** A process whose length of I/O is about to be noted is in no list below the top, though it may be in the top one
      already. */
  ghost predicate NotedAtTop(s: State) {
    forall w :: 0 <= w < |s.workers| && NotesIo(s, w) ==> NotBelow(s.queues, s.workers[w].pid)
  }

  ghost predicate Sorted(s: State) {
    SortedBelow(s.queues, s.lengths) && NotedAtTop(s)
  }

  // ---------------------------------------------------------------- lists

  lemma InsertSorted(q: seq<Item>, lengths: seq<Lengths>, p: nat)
    requires SortedList(q, lengths) && p < |lengths| && (forall x :: x in q ==> Timed(x, lengths))
    ensures SortedList(Insert(q, SortedPlace(q, lengths, Key(lengths[p])), Proc(p)), lengths)
  {
    var k := SortedPlace(q, lengths, Key(lengths[p]));
    var r := Insert(q, k, Proc(p));
    hide Insert, SortedPlace;
    forall i, j | 0 <= i < j < |r| && Timed(r[i], lengths) && Timed(r[j], lengths)
      ensures Key(lengths[r[i].pid]) <= Key(lengths[r[j].pid])
    {
      InsertAt(q, k, Proc(p), i);
      InsertAt(q, k, Proc(p), j);
      PlaceSplits(q, lengths, p, if j == k then i else j - 1);
    }
  }

  lemma InsertAt(q: seq<Item>, k: nat, x: Item, i: nat)
    requires k <= |q| && i <= |q|
    ensures Insert(q, k, x)[i] == if i < k then q[i] else if i == k then x else q[i - 1]
  {
  }

  /** In front of the sorted place the keys are smaller, behind it they are not. */
  lemma PlaceSplits(q: seq<Item>, lengths: seq<Lengths>, p: nat, i: nat)
    requires SortedList(q, lengths) && p < |lengths| && (forall x :: x in q ==> Timed(x, lengths)) && i < |q|
    ensures Timed(q[i], lengths)
    ensures if i < SortedPlace(q, lengths, Key(lengths[p])) then Key(lengths[q[i].pid]) < Key(lengths[p])
            else Key(lengths[p]) <= Key(lengths[q[i].pid])
  {
    hide SortedPlace, Key;
    var k := SortedPlace(q, lengths, Key(lengths[p]));
    assert q[i] in q;
    if i < k {
      assert q[k - 1] in q;
      assert Key(lengths[q[i].pid]) <= Key(lengths[q[k - 1].pid]);
    } else {
      assert !Smaller(q[i], lengths, Key(lengths[p]));
    }
  }

  lemma InsertPillSorted(q: seq<Item>, lengths: seq<Lengths>)
    requires SortedList(q, lengths)
    ensures SortedList(Insert(q, |q|, Pill), lengths)
  {
  }

  lemma DeleteSorted(q: seq<Item>, lengths: seq<Lengths>, i: nat)
    requires SortedList(q, lengths) && i < |q|
    ensures SortedList(Delete(q, i), lengths)
  {
  }

  lemma LengthsElsewhere(queues: seq<seq<Item>>, lengths: seq<Lengths>, p: nat, x: Lengths)
    requires SortedBelow(queues, lengths) && NotBelow(queues, p) && p < |lengths|
    ensures SortedBelow(queues, lengths[p := x])
  {
    forall l | MAX_PRIORITY_LEVEL < l < |queues| ensures SortedList(queues[l], lengths[p := x]) {
      assert SortedList(queues[l], lengths);
      assert forall i :: 0 <= i < |queues[l]| ==> queues[l][i] in queues[l];
    }
  }

  lemma PushSorted(queues: seq<seq<Item>>, lengths: seq<Lengths>, level: nat, p: nat)
    requires SortedBelow(queues, lengths) && QueuesOk(queues, |lengths|) && NoPills(queues)
    requires level < |queues| && p < |lengths|
    ensures SortedBelow(
      queues[level := Insert(queues[level], PushPlace(queues[level], lengths, p, level), Proc(p))], lengths)
  {
    hide Insert, SortedList, SortedPlace;
    if level != MAX_PRIORITY_LEVEL {
      assert forall x :: x in queues[level] ==> x != Pill && Timed(x, lengths);
      InsertSorted(queues[level], lengths, p);
    }
  }

  lemma NotBelowInsert(queues: seq<seq<Item>>, level: nat, k: nat, x: Item, p: nat)
    requires NotBelow(queues, p) && level < |queues| && k <= |queues[level]|
    requires level == MAX_PRIORITY_LEVEL || x != Proc(p)
    ensures NotBelow(queues[level := Insert(queues[level], k, x)], p)
  {
    hide Insert;
  }

  lemma NotBelowDelete(queues: seq<seq<Item>>, level: nat, i: nat, p: nat)
    requires NotBelow(queues, p) && level < |queues| && i < |queues[level]|
    ensures NotBelow(queues[level := Delete(queues[level], i)], p)
  {
    hide Delete;
  }

  lemma DeleteSortedBelow(queues: seq<seq<Item>>, lengths: seq<Lengths>, level: nat, i: nat)
    requires SortedBelow(queues, lengths) && level < |queues| && i < |queues[level]|
    ensures SortedBelow(queues[level := Delete(queues[level], i)], lengths)
  {
    hide Delete, SortedList;
    if level != MAX_PRIORITY_LEVEL {
      DeleteSorted(queues[level], lengths, i);
    }
  }

  // ---------------------------------------------------------------- one step

  /** A process at a worker, before it is left, is in no list, and no other worker leaves it. */
  lemma HeldIsAlone(s: State, places: seq<Place>, w: nat)
    requires Inv(s, places) && w < |s.workers| && s.workers[w].With?
    requires s.workers[w].stage.Running? || s.workers[w].stage.Deciding?
    ensures s.workers[w].pid < |s.procs| && s.workers[w].pid < |s.lengths|
    ensures NotBelow(s.queues, s.workers[w].pid)
    ensures forall x :: 0 <= x < |s.workers| && x != w && NotesIo(s, x) ==> s.workers[x].pid != s.workers[w].pid
  {
    hide FreshIfNew, HaveRun, NoDup, MonitorsOk;
    var p := s.workers[w].pid;
    assert Placed(s, places, p) && LockOk(s, p);
  }

  lemma ScanSorted(s: State, places: seq<Place>, w: nat, c: Choice)
    requires Inv(s, places) && Sorted(s) && w < |s.workers| && s.workers[w].Scan? && WorkerNext(s, w, c).Some?
    ensures Sorted(WorkerNext(s, w, c).value)
  {
    hide Inv, SortedBelow, NotBelow, WorkerNext, Delete;
    ScanFrame(s, w, c);
    var level := s.workers[w].level;
    if level < |s.queues| && s.queues[level] != [] {
      DeleteSortedBelow(s.queues, s.lengths, level, 0);
      forall x | 0 <= x < |s.workers| && NotesIo(s, x)
        ensures NotBelow(s.queues[level := Delete(s.queues[level], 0)], s.workers[x].pid)
      {
        NotBelowDelete(s.queues, level, 0, s.workers[x].pid);
      }
    }
  }

  lemma SliceSorted(s: State, places: seq<Place>, w: nat, c: Choice)
    requires Inv(s, places) && Sorted(s) && InSlice(s, w) && WorkerNext(s, w, c).Some?
    ensures Sorted(WorkerNext(s, w, c).value)
  {
    hide Inv, SortedBelow, NotBelow, WorkerNext, SliceEnds;
    SliceFrame(s, w, c);
    HeldIsAlone(s, places, w);
    var t, p := WorkerNext(s, w, c).value, s.workers[w].pid;
    LengthsElsewhere(s.queues, s.lengths, p, t.lengths[p]);
  }

  lemma DecideSorted(s: State, places: seq<Place>, w: nat, c: Choice)
    requires Inv(s, places) && Sorted(s) && Decides(s, w) && WorkerNext(s, w, c).Some?
    requires AboutToPush(s) ==> NoPills(s.queues)
    ensures Sorted(WorkerNext(s, w, c).value)
  {
    hide Inv, SortedBelow, NotBelow, NoPills, WorkerNext, Insert, PushPlace, QueuesOk;
    DecideFrame(s, w, c);
    HeldIsAlone(s, places, w);
    QueuesInRange(s, places);
    var t, p := WorkerNext(s, w, c).value, s.workers[w].pid;
    if s.procs[p].status.RunPreempted? {
      var level := s.procs[p].level;
      PushSorted(s.queues, s.lengths, level, p);
      forall x | 0 <= x < |s.workers| && NotesIo(s, x) ensures NotBelow(t.queues, s.workers[x].pid) {
        NotBelowInsert(
          s.queues, level, PushPlace(s.queues[level], s.lengths, p, level), Proc(p), s.workers[x].pid);
      }
    } else {
      LengthsElsewhere(s.queues, s.lengths, p, t.lengths[p]);
    }
  }

  lemma QueuesInRange(s: State, places: seq<Place>)
    requires Inv(s, places)
    ensures QueuesOk(s.queues, |s.lengths|) && |s.lengths| == |s.procs| == |s.infos| == |places|
  {
  }

  lemma StageSorted(s: State, w: nat, c: Choice)
    requires Sorted(s) && AtStage(s, w) && WorkerNext(s, w, c).Some?
    ensures Sorted(WorkerNext(s, w, c).value)
  {
    hide SortedBelow, NotBelow, WorkerNext;
    StageFrame(s, w, c);
    var t := WorkerNext(s, w, c).value;
    if t.lengths != s.lengths {
      LengthsElsewhere(s.queues, s.lengths, s.workers[w].pid, t.lengths[s.workers[w].pid]);
    }
  }

  lemma WorkerSorted(s: State, places: seq<Place>, w: nat, c: Choice)
    requires Inv(s, places) && Sorted(s) && w < |s.workers| && WorkerNext(s, w, c).Some?
    requires AboutToPush(s) ==> NoPills(s.queues)
    ensures Sorted(WorkerNext(s, w, c).value)
  {
    hide Inv, Sorted, NoPills, WorkerNext;
    NotExited(s, w, c);
    if s.workers[w].Scan? {
      ScanSorted(s, places, w, c);
    } else if s.workers[w].stage.Running? {
      SliceSorted(s, places, w, c);
    } else if s.workers[w].stage.Deciding? {
      DecideSorted(s, places, w, c);
    } else {
      StageSorted(s, w, c);
    }
  }

  /** A process that is created is in no list, and no worker has it. */
  lemma CreatedIsAlone(s: State, places: seq<Place>, i: nat, create: bool)
    requires Inv(s, places) && s.os == Moved(i, create)
    ensures i < |s.procs| && i < |s.lengths| && NotBelow(s.queues, i)
    ensures create ==> forall w :: 0 <= w < |s.workers| && s.workers[w].With? ==> s.workers[w].pid != i
  {
    hide HaveRun, LockOk, NoDup, MonitorsOk;
    assert Placed(s, places, i) && FreshIfNew(s, places, i);
  }

  lemma MoveSorted(s: State, places: seq<Place>, i: nat, create: bool, c: Choice)
    requires Inv(s, places) && Sorted(s) && s.os == Moved(i, create) && OsNext(s, c).Some?
    ensures Sorted(OsNext(s, c).value)
  {
    hide Inv, SortedBelow, NotBelow;
    CreatedIsAlone(s, places, i, create);
    var t := OsNext(s, c).value;
    LengthsElsewhere(s.queues, s.lengths, i, t.lengths[i]);
  }

  lemma OsPushSorted(s: State, places: seq<Place>, i: nat, c: Choice)
    requires Inv(s, places) && Sorted(s) && s.os == Pushing(i, MAX_PRIORITY_LEVEL) && OsNext(s, c).Some?
    requires NoPills(s.queues)
    ensures Sorted(OsNext(s, c).value)
  {
    hide Inv, SortedBelow, NotBelow, NoPills, Insert, PushPlace, QueuesOk;
    QueuesInRange(s, places);
    PushSorted(s.queues, s.lengths, 0, i);
    var t := OsNext(s, c).value;
    forall x | 0 <= x < |s.workers| && NotesIo(s, x) ensures NotBelow(t.queues, s.workers[x].pid) {
      NotBelowInsert(s.queues, 0, PushPlace(s.queues[0], s.lengths, i, 0), Proc(i), s.workers[x].pid);
    }
  }

  lemma PillSorted(s: State, c: Choice)
    requires Sorted(s) && s.os.Pills? && OsNext(s, c).Some?
    ensures Sorted(OsNext(s, c).value)
  {
    hide NotBelow, Insert, SortedList;
    var t := OsNext(s, c).value;
    if t.queues != s.queues {
      InsertPillSorted(s.queues[PILL_LEVEL], s.lengths);
      forall x | 0 <= x < |s.workers| && NotesIo(s, x) ensures NotBelow(t.queues, s.workers[x].pid) {
        NotBelowInsert(s.queues, PILL_LEVEL, |s.queues[PILL_LEVEL]|, Pill, s.workers[x].pid);
      }
    }
  }

  lemma OsSorted(s: State, places: seq<Place>, c: Choice)
    requires Inv(s, places) && Sorted(s) && OsNext(s, c).Some?
    requires s.os.Pushing? ==> s.os.level == MAX_PRIORITY_LEVEL && NoPills(s.queues)
    ensures Sorted(OsNext(s, c).value)
  {
    hide Inv, NoPills;
    match s.os {
      case Moved(i, create) => MoveSorted(s, places, i, create, c);
      case Pushing(i, level) => OsPushSorted(s, places, i, c);
      case Pills(k) => PillSorted(s, c);
      case _ =>
        hide SortedBelow, NotBelow;
    }
  }

  /** A monitor that pushes a process holds its mutex, so that no worker leaves it. */
  lemma TakenIsAlone(s: State, places: seq<Place>, m: nat)
    requires Inv(s, places) && m < |s.monitors| && s.monitors[m].pc.Taken?
    ensures forall w :: 0 <= w < |s.workers| && NotesIo(s, w) ==> s.workers[w].pid != s.monitors[m].pid
  {
    hide FreshIfNew, HaveRun, Placed, QueuesOk;
    assert LockOk(s, s.monitors[m].pid);
  }

  lemma MonitorSorted(v: Order, s: State, places: seq<Place>, m: nat)
    requires Inv(s, places) && Sorted(s) && m < |s.monitors| && MonitorNext(v, s, m).Some?
    requires AboutToPush(s) ==> NoPills(s.queues)
    ensures Sorted(MonitorNext(v, s, m).value)
  {
    hide Inv, SortedBelow, NotBelow, NoPills, MonitorNext, Insert, Delete, IndexOf, PushPlace, QueuesOk;
    MonitorFrame(v, s, m);
    MonitorQueues(v, s, m);
    QueuesInRange(s, places);
    var t, p := MonitorNext(v, s, m).value, s.monitors[m].pid;
    if t.queues != s.queues {
      var level := s.procs[p].level;
      if s.monitors[m].pc.Chosen? {
        var i := IndexOf(s.queues[level], Proc(p));
        DeleteSortedBelow(s.queues, s.lengths, level, i);
        forall x | 0 <= x < |s.workers| && NotesIo(s, x) ensures NotBelow(t.queues, s.workers[x].pid) {
          NotBelowDelete(s.queues, level, i, s.workers[x].pid);
        }
      } else {
        PushSorted(s.queues, s.lengths, level, p);
        TakenIsAlone(s, places, m);
        var k := PushPlace(s.queues[level], s.lengths, p, level);
        forall x | 0 <= x < |s.workers| && NotesIo(s, x) ensures NotBelow(t.queues, s.workers[x].pid) {
          NotBelowInsert(s.queues, level, k, Proc(p), s.workers[x].pid);
        }
      }
    }
  }

  lemma StepSorted(v: Order, s: State, places: seq<Place>, a: Action, c: Choice)
    requires Inv(s, places) && Sorted(s) && Next(v, s, a, c).Some?
    requires (AboutToPush(s) ==> NoPills(s.queues)) && (s.os.Pushing? ==> s.os.level == MAX_PRIORITY_LEVEL)
    ensures Sorted(Next(v, s, a, c).value)
  {
    hide Inv, Sorted, NoPills, WorkerNext, OsNext, MonitorNext;
    match a
    case OfWorker(w) => WorkerSorted(s, places, w, c);
    case OfOs => OsSorted(s, places, c);
    case OfMonitor(m) => MonitorSorted(v, s, places, m);
  }

  // ---------------------------------------------------------------- every reachable state

  lemma StartSorted(jobs: seq<Job>)
    ensures Sorted(Start(jobs))
  {
  }

  lemma {:induction false} ReachedSorted(v: Order, jobs: seq<Job>, s: State, n: nat)
    requires (forall i :: 0 <= i < |jobs| ==> jobs[i].bursts > 0) && Reached(v, jobs, s, n)
    ensures Sorted(s)
    decreases n
  {
    hide Inv, Next, Start, Shape, Sorted, AboutToPush, NoPills, NoProcs, LevelOk, BoostOk;
    if n == 0 {
      StartSorted(jobs);
    } else {
      var t, a, c :| Reached(v, jobs, t, n - 1) && Next(v, t, a, c) == Some(s);
      ReachedSorted(v, jobs, t, n - 1);
      ShutdownSafe(v, jobs, t, n - 1);
      var places := ReachedBoosts(v, jobs, t, n - 1);
      StepSorted(v, t, places, a, c);
    }
  }

  /** In every reachable state, under both orders of the boost, each list below the top holds its processes in the
      order of their keys, and its head, which a pop takes, is the shortest. */
  lemma ListsSorted(v: Order, jobs: seq<Job>, s: State, n: nat, l: nat)
    requires (forall i :: 0 <= i < |jobs| ==> jobs[i].bursts > 0) && Reached(v, jobs, s, n)
    requires MAX_PRIORITY_LEVEL < l < |s.queues|
    ensures forall x :: x in s.queues[l] && x.Proc? ==> x.pid < |s.lengths|
    ensures forall i, j :: 0 <= i < j < |s.queues[l]| && s.queues[l][i].Proc? && s.queues[l][j].Proc? ==>
      Key(s.lengths[s.queues[l][i].pid]) <= Key(s.lengths[s.queues[l][j].pid])
  {
    hide Reached, Placed, LockOk, FreshIfNew, HaveRun;
    ReachedSorted(v, jobs, s, n);
    var places := ReachedInv(v, jobs, s, n);
    assert SortedList(s.queues[l], s.lengths);
    assert forall i :: 0 <= i < |s.queues[l]| ==> s.queues[l][i] in s.queues[l];
  }
}
