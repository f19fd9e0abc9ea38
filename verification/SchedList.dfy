/** One priority level of the ready queue: a doubly linked list updated in place.  `next` points toward
    the head, where processes leave; `prev` points toward the tail. */
module SchedList {
  import opened SchedLevels

  /** The fields of `process_t` that the lists look at. */
  class Process {
    var burstLength: nat
    var ioLength: nat
    var alreadyExecuted: bool
    var priorityLevel: nat

    function Key(): nat
      reads this
    {
      burstLength + ioLength
    }
  }

  class Node {
    const process: Process?
    var next: Node?
    var prev: Node?

    constructor (process: Process?)
      ensures this.process == process && next == null && prev == null
    {
      this.process, next, prev := process, null, null;
    }
  }

  // ---------------------------------------------------------------- the list as a sequence, head first

  /** Seen from the head, processes come in the order of their keys. */
  ghost predicate SortedByKey(c: seq<Process?>)
    reads set i | 0 <= i < |c| :: c[i]
  {
    forall i, j :: 0 <= i < j < |c| && c[i] != null && c[j] != null ==>
      c[i].burstLength + c[i].ioLength <= c[j].burstLength + c[j].ioLength
  }

  ghost function Inserted<T>(s: seq<T>, k: nat, x: T): (r: seq<T>)
    requires k <= |s|
    ensures |r| == |s| + 1 && r[k] == x
    ensures forall i {:trigger r[i]} :: 0 <= i < k ==> r[i] == s[i]
    ensures forall i {:trigger r[i]} :: k < i < |r| ==> r[i] == s[i - 1]
  {
    s[..k] + [x] + s[k..]
  }

  lemma InsertedAtEnds<T>(s: seq<T>, x: T)
    ensures Inserted(s, |s|, x) == s + [x] && Inserted(s, 0, x) == [x] + s
  {
  }

  ghost function Without<T>(s: seq<T>, k: nat): (r: seq<T>)
    requires k < |s|
    ensures |r| == |s| - 1
    ensures forall i {:trigger r[i]} :: 0 <= i < k ==> r[i] == s[i]
    ensures forall i {:trigger r[i]} :: k <= i < |r| ==> r[i] == s[i + 1]
  {
    s[..k] + s[k + 1..]
  }

  /** Insertion behind the last smaller key keeps a sorted list sorted, and puts the newcomer on the head
      side of its equals: exactly the smaller keys are in front of it. */
  lemma InsertionKeepsSorted(c: seq<Process?>, k: nat, p: Process)
    requires SortedByKey(c) && null !in c && k <= |c|
    requires k > 0 ==> c[k - 1].Key() < p.Key()
    requires forall i :: k <= i < |c| ==> p.Key() <= c[i].Key()
    ensures SortedByKey(Inserted(c, k, p))
    ensures forall i :: 0 <= i < |c| ==> (c[i].Key() < p.Key() <==> i < k)
  {
    var r := Inserted(c, k, p);
    assert forall i :: 0 <= i < k ==> c[i].Key() <= c[k - 1].Key() by {
      assert forall i :: 0 <= i < |c| ==> c[i] in c;
    }
  }

  lemma RemovalKeepsSorted(c: seq<Process?>, k: nat)
    requires SortedByKey(c) && k < |c|
    ensures SortedByKey(Without(c, k))
  {
  }

  /** Right behind the last process, seen from the head, with a smaller key. */
  ghost predicate BehindSmaller(was: seq<Process?>, k: nat, key: nat)
    requires k <= |was|
    reads set i | 0 <= i < |was| :: was[i]
  {
    && (forall i :: k <= i < |was| ==> was[i] != null && key <= was[i].burstLength + was[i].ioLength)
    && (k > 0 ==> was[k - 1] != null && was[k - 1].burstLength + was[k - 1].ioLength < key)
  }

  /** Where `ready_queue_push` puts a process: at the tail of the top level (and any pill), at the head if it
      already ran, otherwise right behind the last process with a smaller key. */
  ghost predicate IsPlace(was: seq<Process?>, k: nat, process: Process?, top: bool)
    requires k <= |was|
    reads process, set i | 0 <= i < |was| :: was[i]
  {
    if process == null || top then k == |was|
    else if process.alreadyExecuted then k == 0
    else BehindSmaller(was, k, process.burstLength + process.ioLength)
  }

  ghost function Processes(nodes: seq<Node>): (c: seq<Process?>)
    ensures |c| == |nodes|
    ensures forall i :: 0 <= i < |c| ==> c[i] == nodes[i].process
  {
    seq(|nodes|, i requires 0 <= i < |nodes| => nodes[i].process)
  }

  lemma ProcessesInserted(nodes: seq<Node>, k: nat, node: Node)
    requires k <= |nodes|
    ensures Processes(Inserted(nodes, k, node)) == Inserted(Processes(nodes), k, node.process)
    ensures null !in Processes(nodes) && node.process != null ==> null !in Processes(Inserted(nodes, k, node))
  {
  }

  // ---------------------------------------------------------------- the list in memory

  class LevelList {
    var head: Node?
    var tail: Node?
    var size: nat
    /** The nodes, head first. */
    ghost var nodes: seq<Node>

    ghost predicate Valid()
      reads this, nodes
    {
      && size == |nodes|
      && head == (if nodes == [] then null else nodes[0])
      && tail == (if nodes == [] then null else nodes[|nodes| - 1])
      && (nodes != [] ==> nodes[0].next == null && nodes[|nodes| - 1].prev == null)
      && (forall i {:trigger nodes[i].next} :: 1 <= i < |nodes| ==> nodes[i].next == nodes[i - 1])
      && (forall i {:trigger nodes[i].prev} :: 0 <= i < |nodes| - 1 ==> nodes[i].prev == nodes[i + 1])
      && (forall i, j :: 0 <= i < j < |nodes| ==> nodes[i] != nodes[j])
    }

    ghost function Contents(): seq<Process?>
      reads this
    {
      Processes(nodes)
    }

    ghost predicate NoPill()
      reads this
    {
      null !in Contents()
    }

    constructor ()
      ensures Valid() && Contents() == [] && nodes == []
    {
      head, tail, size, nodes := null, null, 0, [];
    }

    /** ready_queue.c:101-109: at the tail, as level 0 and the pills do. */
    method PushTail(process: Process?)
      requires Valid()
      modifies this, nodes
      ensures Valid() && Contents() == old(Contents()) + [process]
      ensures |nodes| == |old(nodes)| + 1 && nodes[..|old(nodes)|] == old(nodes) && fresh(nodes[|old(nodes)|])
    {
      var node := new Node(process);
      if tail != null {
        node.next := tail;
        tail.prev := node;
      } else {
        head := node;
      }
      tail := node;
      size := size + 1;
      nodes := nodes + [node];
    }

    method PopHead() returns (process: Process?)
      requires Valid() && size > 0
      modifies this, nodes
      ensures Valid() && old(Contents()) == [process] + Contents()
      ensures nodes == old(nodes)[1..]
    {
      process := head.process;
      head := head.prev;
      size := size - 1;
      nodes := nodes[1..];
      if head == null {
        tail := null;
      } else {
        head.next := null;
      }
    }

    /** ready_queue.c:110-118: at the head, as a process that already ran would. */
    method PushHead(process: Process)
      requires Valid()
      modifies this, nodes
      ensures Valid() && Contents() == [process] + old(Contents())
      ensures |nodes| == |old(nodes)| + 1 && nodes[1..] == old(nodes) && fresh(nodes[0])
    {
      var node := new Node(process);
      if head != null {
        head.next := node;
        node.prev := head;
      } else {
        tail := node;
      }
      head := node;
      size := size + 1;
      nodes := [node] + nodes;
    }

    /** Link a node whose neighbours are known into the list. */
    method LinkAt(node: Node, ghost k: nat)
      requires Valid() && k <= |nodes| && node !in nodes
      requires node.next == (if k == 0 then null else nodes[k - 1])
      requires node.prev == (if k == |nodes| then null else nodes[k])
      modifies this, nodes
      ensures Valid() && nodes == Inserted(old(nodes), k, node)
    {
      if node.prev != null {
        node.prev.next := node;
      } else {
        tail := node;
      }
      if node.next != null {
        node.next.prev := node;
      } else {
        head := node;
      }
      size := size + 1;
      nodes := Inserted(nodes, k, node);
    }

    /** The scan of ready_queue.c:123-131, from the tail: stop in front of the first smaller key. */
    method FindPlace(key: nat) returns (current: Node?, behind: Node?, ghost k: nat)
      requires Valid() && NoPill()
      ensures k <= |nodes|
      ensures current == if k == 0 then null else nodes[k - 1]
      ensures behind == if k == |nodes| then null else nodes[k]
      ensures BehindSmaller(Contents(), k, key)
      ensures current != null ==> current in nodes && current.process != null && current.process.Key() < key
    {
      assert forall i :: 0 <= i < |nodes| ==> Contents()[i] in Contents();
      behind := null;
      current := tail;
      k := |nodes|;
      while current != null
        invariant k <= |nodes|
        invariant current == if k == 0 then null else nodes[k - 1]
        invariant behind == if k == |nodes| then null else nodes[k]
        invariant forall i :: k <= i < |nodes| ==> Contents()[i] != null && key <= Contents()[i].Key()
        decreases k
      {
        if current.process.Key() < key {
          break;
        }
        behind := current;
        current := current.next;
        k := k - 1;
      }
    }

    /** ready_queue.c:119-145: behind the last process, seen from the head, that has a smaller key. */
    method PushSorted(process: Process) returns (ghost k: nat)
      requires Valid() && NoPill()
      modifies this, nodes
      ensures Valid() && k <= |old(nodes)| && |nodes| == |old(nodes)| + 1
      ensures nodes == Inserted(old(nodes), k, nodes[k]) && fresh(nodes[k])
      ensures Contents() == Inserted(old(Contents()), k, process) && NoPill()
      ensures BehindSmaller(old(Contents()), k, process.Key())
    {
      hide Inserted, Processes, BehindSmaller;
      var node := new Node(process);
      node.next, node.prev, k := FindPlace(process.Key());
      LinkAt(node, k);
      ProcessesInserted(old(nodes), k, node);
    }

    /** `ready_queue_push` within a level. */
    method Push(process: Process?, top: bool) returns (ghost k: nat)
      requires Valid() && (process != null && !top ==> NoPill())
      modifies this, nodes
      ensures Valid() && (forall n :: n in nodes ==> n in old(nodes) || fresh(n))
      ensures k <= |old(Contents())| && IsPlace(old(Contents()), k, process, top)
      ensures Contents() == Inserted(old(Contents()), k, process)
    {
      hide Inserted, Processes, BehindSmaller;
      InsertedAtEnds(Contents(), process);
      if process == null || top {
        k := size;
        PushTail(process);
      } else if process.alreadyExecuted {
        k := 0;
        PushHead(process);
      } else {
        k := PushSorted(process);
      }
    }

    /** Take the node at position k, between its neighbours, out of the list. */
    method UnlinkAt(node: Node, behind: Node?, ghost k: nat)
      requires Valid() && k < |nodes| && nodes[k] == node
      requires behind == if k == |nodes| - 1 then null else nodes[k + 1]
      modifies this, nodes
      ensures Valid() && nodes == Without(old(nodes), k)
    {
      if behind == null {
        tail := node.next;
      } else {
        behind.next := node.next;
      }
      if node.next == null {
        head := node.prev;
      } else {
        node.next.prev := behind;
      }
      size := size - 1;
      nodes := Without(nodes, k);
    }

    /** ready_queue.c:205-249: unlink the first node from the tail that carries the process. */
    method Remove(process: Process) returns (found: bool, ghost k: nat)
      requires Valid()
      modifies this, nodes
      ensures Valid() && found == (process in old(Contents()))
      ensures !found ==> nodes == old(nodes) && Contents() == old(Contents())
      ensures found ==>
        && k < |old(nodes)| && old(Contents())[k] == process
        && (forall i :: k < i < |old(nodes)| ==> old(Contents())[i] != process)
        && nodes == Without(old(nodes), k) && Contents() == Without(old(Contents()), k)
    {
      var behind: Node? := null;
      var current := tail;
      k := |nodes|;
      while current != null
        invariant k <= |nodes|
        invariant current == if k == 0 then null else nodes[k - 1]
        invariant behind == if k == |nodes| then null else nodes[k]
        invariant forall i :: k <= i < |nodes| ==> nodes[i].process != process
        decreases k
      {
        if current.process == process {
          k := k - 1;
          assert Contents()[k] == process;
          UnlinkAt(current, behind, k);
          return true, k;
        }
        behind := current;
        current := current.next;
        k := k - 1;
      }
      return false, k;
    }
  }

  // ---------------------------------------------------------------- four levels

  /** The levels below the top one are sorted. */
  ghost predicate Ordered(c: seq<seq<Process?>>)
    reads set l, i | 0 <= l < |c| && 0 <= i < |c[l]| :: c[l][i]
  {
    forall l :: MAX_PRIORITY_LEVEL < l < |c| ==> SortedByKey(c[l])
  }

  /** A push of a process that has not run yet, or of a pill, keeps all levels sorted. */
  lemma PushKeepsOrdered(c: seq<seq<Process?>>, l: nat, k: nat, p: Process?)
    requires Ordered(c) && l < |c| && k <= |c[l]| && IsPlace(c[l], k, p, l == MAX_PRIORITY_LEVEL)
    requires p != null ==> !p.alreadyExecuted && null !in c[l]
    ensures Ordered(c[l := Inserted(c[l], k, p)])
  {
    if p != null && l != MAX_PRIORITY_LEVEL {
      InsertionKeepsSorted(c[l], k, p);
    }
  }

  /** Taking a process out of a list, by a pop or a removal, keeps all levels sorted; a pop takes the shortest. */
  lemma TakingKeepsOrdered(c: seq<seq<Process?>>, l: nat, k: nat)
    requires Ordered(c) && l < |c| && k < |c[l]|
    ensures Ordered(c[l := Without(c[l], k)])
    ensures k == 0 && l != MAX_PRIORITY_LEVEL && c[l][0] != null ==>
      forall i :: 0 <= i < |c[l]| && c[l][i] != null ==> c[l][0].Key() <= c[l][i].Key()
  {
    if l != MAX_PRIORITY_LEVEL {
      RemovalKeepsSorted(c[l], k);
    }
  }

  lemma HeadTaken(c: seq<seq<Process?>>, l: nat, process: Process?, rest: seq<Process?>)
    requires Ordered(c) && l < |c| && c[l] == [process] + rest
    ensures Ordered(c[l := rest])
    ensures l != MAX_PRIORITY_LEVEL && process != null ==>
      forall p :: p in rest && p != null ==> process.Key() <= p.Key()
  {
    hide SortedByKey;
    assert rest == Without(c[l], 0);
    TakingKeepsOrdered(c, l, 0);
    assert forall i :: 0 <= i < |rest| ==> rest[i] == c[l][i + 1];
  }

  class ReadyQueue {
    const levels: seq<LevelList>

    ghost function Nodes(): set<Node>
      reads this, levels
    {
      set i, n | 0 <= i < |levels| && n in levels[i].nodes :: n
    }

    ghost predicate Valid()
      reads this, levels, Nodes()
    {
      && |levels| == NUM_PRIORITY_LEVELS
      && (forall i, j :: 0 <= i < |levels| && 0 <= j < |levels| && i != j ==>
            levels[i] != levels[j] && Apart(levels[i].nodes, levels[j].nodes))
      && (forall i :: 0 <= i < |levels| ==> ValidAt(i))
    }

    ghost predicate ValidAt(i: nat)
      requires i < |levels|
      reads this, levels, Nodes()
    {
      assert forall n :: n in levels[i].nodes ==> n in Nodes();
      levels[i].Valid()
    }

    ghost function Contents(): (c: seq<seq<Process?>>)
      reads this, levels
      ensures |c| == |levels|
    {
      seq(|levels|, i requires 0 <= i < |levels| reads this, levels => levels[i].Contents())
    }

    constructor ()
      ensures Valid() && Contents() == [[], [], [], []]
    {
      var made: seq<LevelList> := [];
      for i := 0 to NUM_PRIORITY_LEVELS
        invariant |made| == i
        invariant forall j :: 0 <= j < i ==> fresh(made[j]) && made[j].Valid() && made[j].nodes == []
        invariant forall j, k :: 0 <= j < k < i ==> made[j] != made[k]
      {
        var list := new LevelList();
        made := made + [list];
      }
      levels := made;
      new;
      assert forall i :: 0 <= i < |levels| ==> ValidAt(i);
    }

    lemma NodesOf(l: nat)
      requires l < |levels|
      ensures levels[l] in levels
      ensures forall k :: 0 <= k < |levels[l].nodes| ==> levels[l].nodes[k] in Nodes()
    {
      assert forall k :: 0 <= k < |levels[l].nodes| ==> levels[l].nodes[k] in levels[l].nodes;
    }

    /** A change to one list and its nodes leaves the others as they are. */
    twostate lemma OthersStay(l: nat)
      requires old(Valid()) && l < |levels|
      requires forall i :: 0 <= i < |levels| && i != l ==> unchanged(levels[i])
      requires forall n: Node :: old(allocated(n)) && n !in old(levels[l].nodes) ==> unchanged(n)
      requires levels[l].Valid()
      requires forall n :: n in levels[l].nodes ==> n in old(levels[l].nodes) || fresh(n)
      ensures Valid() && Contents() == old(Contents())[l := levels[l].Contents()]
    {
      forall i | 0 <= i < |levels| && i != l
        ensures levels[i].Valid() && Apart(levels[i].nodes, levels[l].nodes) && Apart(levels[l].nodes, levels[i].nodes)
      {
        assert old(ValidAt(i));
        assert forall k :: 0 <= k < |levels[i].nodes| ==> levels[i].nodes[k] in levels[i].nodes;
      }
      assert ValidAt(l);
      assert forall i :: 0 <= i < |levels| ==> ValidAt(i);
    }

    /** The level a process is pushed at; the pills go to the level after the default one. */
    function LevelOf(process: Process?): nat
      reads process
    {
      if process == null then PILL_LEVEL else process.priorityLevel
    }

    /** `ready_queue_push`. */
    method Push(process: Process?) returns (ghost k: nat)
      requires Valid() && LevelOf(process) < NUM_PRIORITY_LEVELS
      requires process != null && LevelOf(process) != MAX_PRIORITY_LEVEL ==> null !in Contents()[LevelOf(process)]
      modifies levels[LevelOf(process)], levels[LevelOf(process)].nodes
      ensures Valid()
      ensures var l := if process == null then 1 else process.priorityLevel;
        var was := old(Contents())[l];
        && k <= |was| && IsPlace(was, k, process, l == 0)
        && Contents() == old(Contents())[l := Inserted(was, k, process)]
      ensures process == null || !process.alreadyExecuted ==> old(Ordered(Contents())) ==> Ordered(Contents())
    {
      hide Inserted, Processes, IsPlace, SortedByKey;
      ghost var was := Contents();
      var l := LevelOf(process);
      assert ValidAt(l);
      k := levels[l].Push(process, l == MAX_PRIORITY_LEVEL);
      OthersStay(l);
      if (process == null || !process.alreadyExecuted) && Ordered(was) && (process != null ==> null !in was[l]) {
        PushKeepsOrdered(was, l, k, process);
      }
    }

    /** The scan of ready_queue.c:156-167 without a concurrent thread: the first level that is not empty, or -1. */
    method BestLevel() returns (best: int)
      requires |levels| == NUM_PRIORITY_LEVELS
      ensures -1 <= best < |levels| && (best >= 0 ==> levels[best].size > 0)
      ensures forall l :: 0 <= l < |levels| && (best >= 0 ==> l < best) ==> levels[l].size == 0
    {
      for i := 0 to NUM_PRIORITY_LEVELS
        invariant forall l :: 0 <= l < i ==> levels[l].size == 0
      {
        if levels[i].size > 0 {
          return i;
        }
      }
      return -1;
    }

    /** ready_queue.c:178-201: take the head of the chosen list. */
    method PopAt(best: nat) returns (process: Process?)
      requires Valid() && best < NUM_PRIORITY_LEVELS && levels[best].size > 0
      modifies levels[best], levels[best].nodes
      ensures Valid() && old(Contents())[best] == [process] + Contents()[best]
      ensures Contents() == old(Contents())[best := Contents()[best]]
      ensures old(Ordered(Contents())) ==> Ordered(Contents())
      ensures old(Ordered(Contents())) && best != MAX_PRIORITY_LEVEL && process != null ==>
        forall p :: p in Contents()[best] && p != null ==> process.Key() <= p.Key()
    {
      hide Ordered;
      ghost var was := Contents();
      assert ValidAt(best);
      process := levels[best].PopHead();
      OthersStay(best);
      if Ordered(was) {
        HeadTaken(was, best, process, Contents()[best]);
      }
    }

    /** One round of `ready_queue_pop` without a concurrent thread: the head of the first level that is not empty, or
        nothing when all are, where the code waits for a signal. */
    method Pop() returns (popped: bool, process: Process?, best: nat)
      requires Valid()
      modifies levels, Nodes()
      ensures Valid() && best < NUM_PRIORITY_LEVELS
      ensures !popped ==> Contents() == old(Contents()) && forall l :: 0 <= l < |levels| ==> Contents()[l] == []
      ensures popped ==>
        && (forall l :: 0 <= l < best ==> old(Contents())[l] == [])
        && old(Contents())[best] == [process] + Contents()[best]
        && Contents() == old(Contents())[best := Contents()[best]]
      ensures old(Ordered(Contents())) ==> Ordered(Contents())
      ensures old(Ordered(Contents())) && popped && best != MAX_PRIORITY_LEVEL && process != null ==>
        forall p :: p in Contents()[best] && p != null ==> process.Key() <= p.Key()
    {
      hide Ordered;
      var found := BestLevel();
      EmptyBelow(if found < 0 then |levels| else found);
      if found < 0 {
        return false, null, 0;
      }
      popped, best := true, found;
      NodesOf(best);
      process := PopAt(best);
    }

    lemma EmptyBelow(best: nat)
      requires Valid() && best <= |levels| && forall l :: 0 <= l < best ==> levels[l].size == 0
      ensures forall l :: 0 <= l < best ==> Contents()[l] == []
    {
      forall l | 0 <= l < best ensures Contents()[l] == [] {
        assert ValidAt(l);
      }
    }

    /** `ready_queue_remove`: searches the list of the process's level. */
    method Remove(process: Process) returns (found: bool)
      requires Valid() && process.priorityLevel < NUM_PRIORITY_LEVELS
      modifies levels[process.priorityLevel], levels[process.priorityLevel].nodes
      ensures Valid()
      ensures var l := process.priorityLevel;
        var was := old(Contents())[process.priorityLevel];
        && found == (process in was)
        && (!found ==> Contents() == old(Contents()))
        && (found ==> exists k ::
              0 <= k < |was| && was[k] == process && Contents() == old(Contents())[l := Without(was, k)])
      ensures old(Ordered(Contents())) ==> Ordered(Contents())
    {
      hide SortedByKey;
      ghost var was := Contents();
      var l := process.priorityLevel;
      assert ValidAt(l);
      ghost var k;
      found, k := levels[l].Remove(process);
      OthersStay(l);
      if Ordered(was) && found {
        TakingKeepsOrdered(was, l, k);
      }
    }
  }

  ghost predicate Apart(a: seq<Node>, b: seq<Node>) {
    forall n :: n in a ==> n !in b
  }
}
