/** What the paging code as written does do: no run of any variant is ever stuck, its TLB always agrees with its page
    table, and, while no page is evicted, the two lines that index memory by page number make it a memory with one
    cell for each page. */
module VmCells {
  import opened Common
  import opened VmModel
  import opened VmInvariant
  import opened VmRefinement
  import opened VmAsWritten
  import opened VmMisreads

  // ---------------------------------------------------------------- every variant

  /** The TLB repeats the page table, and a used frame means that there is a page to evict. */
  ghost predicate Kept(s: State) {
    Wf(s) && Mirrors(s, 0) && (SomeValid(s.pt) || forall f :: 0 <= f < |s.used| ==> !s.used[f])
  }

  /** Whichever page an eviction takes for the owner of the frame, it is the one that the TLB forgets, or the TLB
      does not know it. */
  lemma EvictedMirrors(v: Variant, s: State)
    requires Wf(s) && Mirrors(s, 1) && SomeValid(s.pt)
    ensures Mirrors(Evicted(v, s).0, 1)
    ensures forall p :: 0 <= p < NUM_PAGES && !s.pt[p].valid ==> !Evicted(v, s).0.pt[p].valid
  {
    hide VictimPage, CopyBlock, Mirrors;
    var frame := s.pt[VictimPage(s.pt)].frame;
    var k := SlotOfFrame(s.tlb, frame, 0);
    assert Owns(v, s.pt[VictimPage(s.pt)], frame);
    if k >= 0 {
      SlotForgotten(s, Evicted(v, s).0, k);
    } else {
      PageForgotten(s, Evicted(v, s).0, FindPage(v, s.pt, frame, 0), frame);
    }
  }

  lemma SlotForgotten(s: State, t: State, k: nat)
    requires Wf(s) && Wf(t) && Mirrors(s, 1) && k < |s.tlb| && s.tlb[k].frame >= 0
    requires t.tlb == s.tlb[k := s.tlb[k].(frame := -1)]
    requires t.pt == s.pt[s.tlb[k].page := s.pt[s.tlb[k].page].(valid := false)]
    ensures Mirrors(t, 1)
  {
  }

  lemma PageForgotten(s: State, t: State, page: nat, frame: nat)
    requires Wf(s) && Wf(t) && Mirrors(s, 1) && page < NUM_PAGES && s.pt[page].frame == frame
    requires forall k :: 0 <= k < |s.tlb| ==> s.tlb[k].frame != frame
    requires t.tlb == s.tlb && t.pt == s.pt[page := s.pt[page].(valid := false)]
    ensures Mirrors(t, 1)
  {
  }

  lemma NotValidNotInTlb(s: State, lead: nat, page: nat)
    requires Wf(s) && Mirrors(s, lead) && page < NUM_PAGES && !s.pt[page].valid
    ensures !InTlb(s.tlb, page)
  {
  }

  lemma OtherPageMirrors(s: State, t: State, page: nat)
    requires Wf(s) && Wf(t) && t.tlb == s.tlb && Mirrors(s, 1) && page < NUM_PAGES && !InTlb(s.tlb, page)
    requires forall q :: 0 <= q < NUM_PAGES && q != page ==> t.pt[q] == s.pt[q]
    ensures Mirrors(t, 1) && !InTlb(t.tlb, page)
  {
    forall k | 0 <= k < |s.tlb| && s.tlb[k].frame >= 0 ensures s.tlb[k].page != page {
      assert Holds(s.tlb[k], s.tlb[k].page);
    }
  }

  lemma FaultedMirrors(v: Variant, s: State, page: nat, write: bool)
    requires Wf(s) && Mirrors(s, 1) && CanEvict(s) && page < NUM_PAGES && !s.pt[page].valid
    ensures var (t, frame) := Faulted(v, s, page, write);
      Mirrors(t, 1) && !InTlb(t.tlb, page) && t.pt[page].valid && t.pt[page].frame == frame
  {
    hide Mirrors, InTlb, Evicted, CopyBlock;
    var free := FreeFrame(s.used, 0);
    if free >= 0 {
      NotValidNotInTlb(s, 1, page);
      OtherPageMirrors(s, PagedIn(s, page, free, write), page);
    } else {
      EvictedMirrors(v, s);
      var (t, frame) := Evicted(v, s);
      NotValidNotInTlb(t, 1, page);
      OtherPageMirrors(t, PagedIn(t, page, frame, write), page);
    }
  }

  lemma MissedMirrors(v: Variant, s: State, page: nat, write: bool)
    requires Wf(s) && Mirrors(s, 1) && CanEvict(s) && page < NUM_PAGES && !InTlb(s.tlb, page)
    ensures var (t, frame) := Missed(v, s, page, write);
      var u := t.(pt := Touched(t.pt, page));
      Mirrors(u, 0) && u.pt[page].valid && u.pt[page].frame == frame
  {
    hide Mirrors, InTlb, Faulted, Added;
    if s.pt[page].valid {
      var (t, frame) := TableHit(v, s, page, write);
      OtherPageMirrors(s, t, page);
      AddedMirrors(t, page, frame);
    } else {
      FaultedMirrors(v, s, page, write);
      var (t, frame) := Faulted(v, s, page, write);
      AddedMirrors(t, page, frame);
    }
  }

  lemma HitMirrors(s: State, k: nat, page: nat, write: bool)
    requires Wf(s) && Mirrors(s, 1) && page < NUM_PAGES && k < |s.tlb| && Holds(s.tlb[k], page)
    ensures var (t, frame) := Hit(s, k, page, write);
      var u := t.(pt := Touched(t.pt, page));
      Mirrors(u, 0) && u.pt[page].valid && u.pt[page].frame == frame
  {
  }

  lemma AgedMirrors(s: State)
    requires Wf(s) && Mirrors(s, 0)
    ensures var t := s.(tlb := Aged(s.tlb)); Wf(t) && Mirrors(t, 1)
  {
  }

  lemma KeptCanEvict(s: State)
    requires Kept(s)
    ensures CanEvict(s)
  {
    assert (forall f :: 0 <= f < |s.used| ==> s.used[f]) ==> s.used[0];
  }

  /** Under every variant `get_frame` returns the frame that the page table then has for the page. */
  lemma GetFrameMirrors(v: Variant, s: State, page: nat, write: bool)
    requires Kept(s) && page < NUM_PAGES
    ensures CanEvict(s)
    ensures var (t, frame) := GetFrame(v, s, page, write);
      Kept(t) && t.pt[page].valid && t.pt[page].frame == frame
  {
    hide Mirrors, InTlb, Missed, Hit, CanEvict;
    KeptCanEvict(s);
    AgedMirrors(s);
    var s1 := s.(tlb := Aged(s.tlb));
    KeptWf(v, s, page, write);
    SlotIffInTlb(s1.tlb, page);
    var k := SlotOf(s1.tlb, page, 0);
    if k >= 0 {
      HitMirrors(s1, k, page, write);
    } else {
      MissedMirrors(v, s1, page, write);
    }
  }

  lemma KeptWf(v: Variant, s: State, page: nat, write: bool)
    requires Wf(s) && CanEvict(s) && page < NUM_PAGES
    ensures Wf(GetFrame(v, s, page, write).0) && CanEvict(s.(tlb := Aged(s.tlb)))
  {
  }

  lemma StepKept(v: Variant, s: State, a: Command)
    requires Kept(s)
    ensures CanEvict(s) && Kept(Step(v, s, a).0) && SomeValid(Step(v, s, a).0.pt)
  {
    hide GetFrame, CanEvict;
    GetFrameMirrors(v, s, a.addr / PAGE_FRAME_SIZE, a.Write?);
    StepTables(v, s, a);
  }

  /** No run of any variant, the code as written among them, ever looks for a victim among no pages: each goes
      through, and after each command the TLB repeats the page table. */
  lemma {:induction false} NeverStuck(v: Variant, store: seq<char>, cmds: seq<Command>)
    requires |store| == ADDRESS_SPACE
    ensures var r := Run(v, Initial(store), cmds);
      && r.Done? && CanEvict(r.s) && Mirrors(r.s, 0) && (cmds != [] ==> SomeValid(r.s.pt))
    ensures Kept(Run(v, Initial(store), cmds).s)
  {
    hide Step, CanEvict, Mirrors;
    if cmds == [] {
      InitialMirrors(store);
    } else {
      var rest, a := cmds[..|cmds| - 1], cmds[|cmds| - 1];
      NeverStuck(v, store, rest);
      StepKept(v, Run(v, Initial(store), rest).s, a);
    }
    KeptCanEvict(Run(v, Initial(store), cmds).s);
  }

  lemma InitialMirrors(store: seq<char>)
    requires |store| == ADDRESS_SPACE
    ensures Mirrors(Initial(store), 0)
  {
  }

  // ---------------------------------------------------------------- one cell for each page

  ghost function PageOf(a: Command): (p: nat)
    ensures p < NUM_PAGES
  {
    a.addr / PAGE_FRAME_SIZE
  }

  ghost function PageSet(cmds: seq<Command>): set<nat> {
    if cmds == [] then {} else PageSet(cmds[..|cmds| - 1]) + {PageOf(cmds[|cmds| - 1])}
  }

  /** The last character written to the page, at whatever offset. */
  ghost function LastOn(cmds: seq<Command>, page: nat): Option<char> {
    if cmds == [] then None
    else
      var a := cmds[|cmds| - 1];
      if a.Write? && PageOf(a) == page then Some(a.c) else LastOn(cmds[..|cmds| - 1], page)
  }

  /** The last character written to the address. */
  ghost function LastAt(cmds: seq<Command>, addr: nat): Option<char> {
    if cmds == [] then None
    else
      var a := cmds[|cmds| - 1];
      if a.Write? && a.addr == addr then Some(a.c) else LastAt(cmds[..|cmds| - 1], addr)
  }

  /** The cell of a page: what was written to the page last, and before that the byte, at the offset that is the
      number of the page, of the page that came first. */
  ghost function Cell(store: seq<char>, cmds: seq<Command>, page: nat): char
    requires |store| == ADDRESS_SPACE && cmds != [] && page < NUM_PAGES
  {
    match LastOn(cmds, page)
    case Some(c) => c
    case None => At(store, PageOf(cmds[0]), page)
  }

  /** The frames in use are the first ones, one for each page; nothing was saved; frame 0 holds the cells. */
  ghost predicate Filling(s: State, store: seq<char>, cmds: seq<Command>)
    requires Wf(s) && |store| == ADDRESS_SPACE
  {
    && s.store == store
    && (forall f :: 0 <= f < NUM_FRAMES ==> (s.used[f] <==> f < |PageSet(cmds)|))
    && (forall p: nat :: p < NUM_PAGES ==> (s.pt[p].valid <==> p in PageSet(cmds)))
    && (cmds != [] ==> forall q: nat :: q < NUM_PAGES ==> s.mem[q] == Cell(store, cmds, q))
  }

  /** An access to a resident page moves no byte. */
  lemma ResidentFrame(v: Variant, s: State, page: nat, write: bool)
    requires Wf(s) && CanEvict(s) && page < NUM_PAGES && s.pt[page].valid
    ensures var t := GetFrame(v, s, page, write).0;
      && t.mem == s.mem && t.store == s.store && t.used == s.used
      && forall p :: 0 <= p < NUM_PAGES ==> t.pt[p].valid == s.pt[p].valid
  {
  }

  lemma FirstFree(used: seq<bool>, n: nat, i: nat)
    requires i <= n < |used| && forall f :: 0 <= f < |used| ==> (used[f] <==> f < n)
    ensures FreeFrame(used, i) == n
    decreases n - i
  {
  }

  lemma PageSetSnoc(cmds: seq<Command>)
    requires cmds != []
    ensures var rest, page := cmds[..|cmds| - 1], PageOf(cmds[|cmds| - 1]);
      |PageSet(cmds)| == |PageSet(rest)| + if page in PageSet(rest) then 0 else 1
    ensures |cmds| > 1 ==> PageSet(cmds[..|cmds| - 1]) != {} && cmds[..|cmds| - 1][0] == cmds[0]
  {
    var rest, page := cmds[..|cmds| - 1], PageOf(cmds[|cmds| - 1]);
    if page in PageSet(rest) {
      assert PageSet(cmds) == PageSet(rest);
    }
    assert |cmds| > 1 ==> PageOf(rest[|rest| - 1]) in PageSet(rest);
  }

  /** After `get_frame` the page is resident and its frame in use, and frame 0 is as it was, or just loaded. */
  ghost predicate Loaded(s: State, t: State, store: seq<char>, cmds: seq<Command>, page: nat)
    requires Wf(s) && Wf(t) && |store| == ADDRESS_SPACE && page < NUM_PAGES
  {
    && t.store == store
    && (forall f :: 0 <= f < NUM_FRAMES ==>
          (t.used[f] <==> f < |PageSet(cmds)| + if page in PageSet(cmds) then 0 else 1))
    && (forall p: nat :: p < NUM_PAGES ==> (t.pt[p].valid <==> p in PageSet(cmds) || p == page))
    && forall q: nat :: q < NUM_PAGES ==> t.mem[q] == if cmds == [] then At(store, page, q) else s.mem[q]
  }

  lemma FillingFrame(v: Variant, s: State, store: seq<char>, cmds: seq<Command>, page: nat, write: bool)
    requires Kept(s) && CanEvict(s) && |store| == ADDRESS_SPACE && page < NUM_PAGES && Filling(s, store, cmds)
    requires page in PageSet(cmds) || |PageSet(cmds)| < NUM_FRAMES
    requires cmds != [] ==> PageSet(cmds) != {}
    ensures Loaded(s, GetFrame(v, s, page, write).0, store, cmds, page)
  {
    hide Cell, GetFrame, Mirrors, CopyBlock, CanEvict, LastOn;
    if s.pt[page].valid {
      ResidentFrame(v, s, page, write);
      assert cmds != [];
    } else {
      NotValidNotInTlb(s, 0, page);
      var n := |PageSet(cmds)|;
      FirstFree(s.used, n, 0);
      FreeFault(v, s, page, write);
      var t := GetFrame(v, s, page, write).0;
      forall q: nat | q < NUM_PAGES
        ensures t.mem[q] == if cmds == [] then At(store, page, q) else s.mem[q]
      {
        assert At(t.mem, 0, q) == if n == 0 then At(store, page, q) else At(s.mem, 0, q);
      }
    }
  }

  ghost predicate ByPageNumber(v: Variant) {
    !v.physicalRead && !v.physicalWrite
  }

  lemma KeptIsWf(s: State)
    requires Kept(s)
    ensures Wf(s)
  {
  }

  lemma CellSnoc(store: seq<char>, cmds: seq<Command>, q: nat)
    requires |store| == ADDRESS_SPACE && cmds != [] && q < NUM_PAGES
    ensures var rest, a := cmds[..|cmds| - 1], cmds[|cmds| - 1];
      Cell(store, cmds, q) ==
        if a.Write? && PageOf(a) == q then a.c
        else if rest == [] then At(store, PageOf(a), q) else Cell(store, rest, q)
  {
    var rest, a := cmds[..|cmds| - 1], cmds[|cmds| - 1];
    if !(a.Write? && PageOf(a) == q) {
      assert LastOn(cmds, q) == LastOn(rest, q);
      assert if rest == [] then cmds[0] == a else rest[0] == cmds[0];
    }
  }

  /** Reading and writing at the page number. */
  lemma StepMem(v: Variant, s: State, a: Command)
    requires ByPageNumber(v) && Wf(s) && CanEvict(s)
    ensures var u := GetFrame(v, s, PageOf(a), a.Write?).0;
      && |u.mem| == PHYSICAL_MEMORY_SIZE
      && Step(v, s, a).0.mem == (if a.Write? then u.mem[PageOf(a) := a.c] else u.mem)
      && (a.Read? ==> Step(v, s, a).1 == u.mem[PageOf(a)])
  {
    hide GetFrame, CanEvict;
  }

  lemma {:induction false} FillingSnoc(s: State, u: State, t: State, store: seq<char>, cmds: seq<Command>)
    requires Wf(s) && Wf(u) && Wf(t) && |store| == ADDRESS_SPACE && cmds != []
    requires Filling(s, store, cmds[..|cmds| - 1])
    requires Loaded(s, u, store, cmds[..|cmds| - 1], PageOf(cmds[|cmds| - 1]))
    requires t.pt == u.pt && t.used == u.used && t.store == u.store
    requires var a := cmds[|cmds| - 1]; t.mem == if a.Write? then u.mem[PageOf(a) := a.c] else u.mem
    ensures Filling(t, store, cmds)
    ensures cmds[|cmds| - 1].Read? ==> t.mem[PageOf(cmds[|cmds| - 1])] == Cell(store, cmds, PageOf(cmds[|cmds| - 1]))
  {
    hide Cell, At;
    PageSetSnoc(cmds);
    forall q: nat | q < NUM_PAGES ensures t.mem[q] == Cell(store, cmds, q) {
      CellSnoc(store, cmds, q);
    }
  }

  lemma {:induction false} StepFilling(v: Variant, s: State, store: seq<char>, cmds: seq<Command>)
    requires ByPageNumber(v) && |store| == ADDRESS_SPACE && cmds != [] && |PageSet(cmds)| <= NUM_FRAMES
    requires Kept(s) && CanEvict(s) && Filling(s, store, cmds[..|cmds| - 1])
    ensures var (t, c) := Step(v, s, cmds[|cmds| - 1]);
      && Filling(t, store, cmds)
      && (cmds[|cmds| - 1].Read? ==> c == Cell(store, cmds, PageOf(cmds[|cmds| - 1])))
  {
    hide GetFrame, Step, CanEvict, Kept, Filling, Loaded, Cell;
    var rest, a := cmds[..|cmds| - 1], cmds[|cmds| - 1];
    var page := PageOf(a);
    PageSetSnoc(cmds);
    KeptIsWf(s);
    FillingFrame(v, s, store, rest, page, a.Write?);
    StepTables(v, s, a);
    StepMem(v, s, a);
    FillingSnoc(s, GetFrame(v, s, page, a.Write?).0, Step(v, s, a).0, store, cmds);
  }

  /** While no page has to be evicted, the code that reads and writes at the page number has one cell for each page,
      under either choice of the other two lines. */
  lemma {:induction false} RunCells(v: Variant, store: seq<char>, cmds: seq<Command>)
    requires ByPageNumber(v) && |store| == ADDRESS_SPACE && |PageSet(cmds)| <= NUM_FRAMES
    ensures var r := Run(v, Initial(store), cmds);
      && r.Done? && Filling(r.s, store, cmds)
      && (cmds != [] && cmds[|cmds| - 1].Read? ==> r.out[|cmds| - 1] == Cell(store, cmds, PageOf(cmds[|cmds| - 1])))
  {
    hide Step, CanEvict, Kept, Filling, Cell;
    if cmds == [] {
      InitialFilling(store);
    } else {
      var rest, a := cmds[..|cmds| - 1], cmds[|cmds| - 1];
      PageSetSnoc(cmds);
      RunCells(v, store, rest);
      NeverStuck(v, store, rest);
      StepFilling(v, Run(v, Initial(store), rest).s, store, cmds);
    }
  }

  lemma InitialFilling(store: seq<char>)
    requires |store| == ADDRESS_SPACE
    ensures Filling(Initial(store), store, [])
  {
  }

  /** Each read of the code as written returns the cell of its page, in every run, up to the first page that finds no
      free frame. */
  lemma CellMemory(v: Variant, store: seq<char>, cmds: seq<Command>, i: nat)
    requires ByPageNumber(v) && |store| == ADDRESS_SPACE
    requires i < |cmds| && cmds[i].Read? && |PageSet(cmds[..i + 1])| <= NUM_FRAMES
    ensures Run(v, Initial(store), cmds).Done?
    ensures Run(v, Initial(store), cmds).out[i] == Cell(store, cmds[..i + 1], PageOf(cmds[i]))
  {
    hide Run, Cell, Initial;
    NeverStuck(v, store, cmds);
    RunCells(v, store, cmds[..i + 1]);
    RunPrefix(v, Initial(store), cmds, i + 1);
  }

  // ---------------------------------------------------------------- which reads are right

  lemma {:induction false} LatestIs(store: seq<char>, cmds: seq<Command>, addr: nat)
    requires addr < |store|
    ensures Latest(store, cmds, addr) == if LastAt(cmds, addr).Some? then LastAt(cmds, addr).value else store[addr]
    ensures LastAt(cmds, addr).Some? ==> LastOn(cmds, addr / PAGE_FRAME_SIZE).Some?
  {
    if cmds != [] {
      LatestIs(store, cmds[..|cmds| - 1], addr);
    }
  }

  /** The read at `i` returns what its address should hold. */
  ghost predicate Right(v: Variant, store: seq<char>, cmds: seq<Command>, i: nat)
    requires |store| == ADDRESS_SPACE && i < |cmds| && cmds[i].Read?
  {
    var r := Run(v, Initial(store), cmds);
    r.Done? && r.out[i] == Latest(store, cmds[..i], cmds[i].addr)
  }

  /** What was written to the page last is what was written to the address last; or the page was not written, and its
      address is that of its cell's first content. */
  ghost predicate CellIsRight(cmds: seq<Command>, i: nat)
    requires i < |cmds|
  {
    var addr, page := cmds[i].addr, PageOf(cmds[i]);
    match LastOn(cmds[..i], page)
    case Some(c) => LastAt(cmds[..i], addr) == Some(c)
    case None => addr == PageOf(cmds[0]) * PAGE_FRAME_SIZE + page
  }

  /** Exactly which reads of the code as written are right whatever the backing store holds, meeting a guard or not. */
  lemma RightIff(v: Variant, cmds: seq<Command>, i: nat)
    requires ByPageNumber(v) && i < |cmds| && cmds[i].Read? && |PageSet(cmds[..i + 1])| <= NUM_FRAMES
    ensures (forall store: seq<char> :: |store| == ADDRESS_SPACE ==> Right(v, store, cmds, i)) <==> CellIsRight(cmds, i)
  {
    hide Run, Initial, Right;
    forall store: seq<char> | |store| == ADDRESS_SPACE
      ensures Right(v, store, cmds, i) <==> CellAgrees(store, cmds, i)
    {
      RightIsCell(v, store, cmds, i);
    }
    if CellIsRight(cmds, i) {
      forall store: seq<char> | |store| == ADDRESS_SPACE ensures CellAgrees(store, cmds, i) {
        LatestIs(store, cmds[..i], cmds[i].addr);
      }
    } else {
      var c := OtherChar(LastOn(cmds[..i], PageOf(cmds[i])));
      var store := seq(ADDRESS_SPACE, k => if k == cmds[i].addr then c else 'b');
      LatestIs(store, cmds[..i], cmds[i].addr);
      assert !CellAgrees(store, cmds, i);
    }
  }

  ghost predicate CellAgrees(store: seq<char>, cmds: seq<Command>, i: nat)
    requires |store| == ADDRESS_SPACE && i < |cmds|
  {
    var first := match LastOn(cmds[..i], PageOf(cmds[i]))
                 case Some(c) => c
                 case None => At(store, PageOf(cmds[0]), PageOf(cmds[i]));
    first == Latest(store, cmds[..i], cmds[i].addr)
  }

  function OtherChar(o: Option<char>): (c: char)
    ensures c != 'b' && (o.Some? ==> c != o.value)
  {
    if o == Some('a') then 'c' else 'a'
  }

  lemma RightIsCell(v: Variant, store: seq<char>, cmds: seq<Command>, i: nat)
    requires ByPageNumber(v) && i < |cmds| && cmds[i].Read? && |PageSet(cmds[..i + 1])| <= NUM_FRAMES
    requires |store| == ADDRESS_SPACE
    ensures Right(v, store, cmds, i) <==> CellAgrees(store, cmds, i)
  {
    hide Run, Initial, Latest;
    CellMemory(v, store, cmds, i);
    assert cmds[..i + 1][..i] == cmds[..i];
  }

  /** All reads before the first guard that a run meets are right, under any variant. */
  lemma RightBeforeGuard(v: Variant, store: seq<char>, cmds: seq<Command>, n: nat, i: nat)
    requires |store| == ADDRESS_SPACE && i < n <= |cmds| && Safe(v, store, cmds[..n]) && cmds[i].Read?
    ensures Right(v, store, cmds, i)
  {
    hide Safe, Run, Initial, Latest;
    NeverStuck(v, store, cmds);
    SafeRunAgrees(v, store, cmds[..n], i);
    RunPrefix(v, Initial(store), cmds, n);
    assert cmds[..n][..i] == cmds[..i];
  }

  // ---------------------------------------------------------------- beyond the first eviction

  /** The access brings a page into frame 0, over the cells. */
  ghost predicate Reloads(s: State, page: nat)
    requires Wf(s) && CanEvict(s) && page < NUM_PAGES
  {
    !s.pt[page].valid && FrameOf(s, page) == 0
  }

  lemma CellsStay(v: Variant, s: State, page: nat, write: bool)
    requires Kept(s) && CanEvict(s) && page < NUM_PAGES && !Reloads(s, page)
    ensures forall q: nat :: q < NUM_PAGES ==> GetFrame(v, s, page, write).0.mem[q] == s.mem[q]
  {
    hide GetFrame, Mirrors, CanEvict, Missed;
    if s.pt[page].valid {
      ResidentFrame(v, s, page, write);
    } else {
      NotValidNotInTlb(s, 0, page);
      GetFrameIs(v, s, page, write);
      var s1 := s.(tlb := Aged(s.tlb));
      AgedNotInTlb(s, page);
      SlotIffInTlb(s1.tlb, page);
      MissedStays(v, s1, page, write);
    }
  }

  lemma AgedNotInTlb(s: State, page: nat)
    requires !InTlb(s.tlb, page)
    ensures !InTlb(Aged(s.tlb), page)
  {
    forall k | 0 <= k < |s.tlb| ensures !Holds(Aged(s.tlb)[k], page) {
      assert !Holds(s.tlb[k], page);
    }
  }

  lemma MissedStays(v: Variant, s: State, page: nat, write: bool)
    requires Wf(s) && CanEvict(s) && page < NUM_PAGES && !s.pt[page].valid && FrameOf(s, page) != 0
    ensures forall q: nat :: q < NUM_PAGES ==> Missed(v, s, page, write).0.mem[q] == s.mem[q]
  {
    hide Evicted, VictimPage, Added, CopyBlock;
    if FreeFrame(s.used, 0) < 0 {
      EvictedFrame(v, s);
    }
    var t := Missed(v, s, page, write).0;
    forall q: nat | q < NUM_PAGES ensures t.mem[q] == s.mem[q] {
      assert At(t.mem, 0, q) == At(s.mem, 0, q);
    }
  }

  lemma EvictedFrame(v: Variant, s: State)
    requires Wf(s) && SomeValid(s.pt)
    ensures Evicted(v, s).1 == s.pt[VictimPage(s.pt)].frame && Evicted(v, s).0.mem == s.mem
  {
  }

  /** After command `j` no page is brought into frame 0 and nothing is written to `page`. */
  ghost predicate Undisturbed(v: Variant, store: seq<char>, cmds: seq<Command>, j: nat, page: nat)
    requires |store| == ADDRESS_SPACE
  {
    forall n :: j < n < |cmds| ==>
      var r := Run(v, Initial(store), cmds[..n]);
      && r.Done? && CanEvict(r.s) && !Reloads(r.s, PageOf(cmds[n]))
      && !(cmds[n].Write? && PageOf(cmds[n]) == page)
  }

  lemma UndisturbedRest(v: Variant, store: seq<char>, cmds: seq<Command>, j: nat, page: nat)
    requires |store| == ADDRESS_SPACE && j < |cmds| - 1 && Undisturbed(v, store, cmds, j, page)
    ensures var rest, a := cmds[..|cmds| - 1], cmds[|cmds| - 1];
      var r := Run(v, Initial(store), rest);
      && Undisturbed(v, store, rest, j, page)
      && r.Done? && CanEvict(r.s) && !Reloads(r.s, PageOf(a)) && !(a.Write? && PageOf(a) == page)
  {
    hide Run, CanEvict, Initial, Reloads;
    var rest := cmds[..|cmds| - 1];
    assert forall n :: 0 <= n <= |rest| ==> rest[..n] == cmds[..n];
  }

  lemma LastStep(v: Variant, store: seq<char>, cmds: seq<Command>)
    requires |store| == ADDRESS_SPACE && cmds != []
    ensures var rest, a := cmds[..|cmds| - 1], cmds[|cmds| - 1];
      var r, t := Run(v, Initial(store), rest), Run(v, Initial(store), cmds);
      && r.Done? && Kept(r.s) && CanEvict(r.s)
      && t.Done? && t.s == Step(v, r.s, a).0 && t.out[|cmds| - 1] == Step(v, r.s, a).1
  {
    hide Step, CanEvict, Mirrors, Initial, Kept;
    NeverStuck(v, store, cmds[..|cmds| - 1]);
    NeverStuck(v, store, cmds);
  }

  /** In every run, evictions or not, a character written by the code as written is what its page reads as, until the
      page is written again or frame 0 is given to another page. */
  lemma {:induction false} WriteStays(v: Variant, store: seq<char>, cmds: seq<Command>, j: nat)
    requires ByPageNumber(v) && |store| == ADDRESS_SPACE && j < |cmds| && cmds[j].Write?
    requires Undisturbed(v, store, cmds, j, PageOf(cmds[j]))
    ensures var r := Run(v, Initial(store), cmds);
      && r.Done? && |r.s.mem| == PHYSICAL_MEMORY_SIZE && r.s.mem[PageOf(cmds[j])] == cmds[j].c
      && (cmds[|cmds| - 1].Read? && PageOf(cmds[|cmds| - 1]) == PageOf(cmds[j]) ==> r.out[|cmds| - 1] == cmds[j].c)
    decreases |cmds|
  {
    hide Step, GetFrame, CanEvict, Run, Initial, Kept, Reloads, Undisturbed;
    var rest, a := cmds[..|cmds| - 1], cmds[|cmds| - 1];
    LastStep(v, store, cmds);
    var s := Run(v, Initial(store), rest).s;
    KeptIsWf(s);
    StepMem(v, s, a);
    if j < |cmds| - 1 {
      UndisturbedRest(v, store, cmds, j, PageOf(cmds[j]));
      WriteStays(v, store, rest, j);
      CellsStay(v, s, PageOf(a), a.Write?);
    }
  }

  /** A write of address 1 and a read of it. */
  function ThereAndBack(c: char): (cmds: seq<Command>)
    ensures |cmds| == 2 && cmds[1] == Read(1)
  {
    [Write(1, c), Read(1)]
  }

  /** A read can be right though its run is not that of the repaired code: a character is written in the wrong place
      and read back from there. */
  lemma RightThoughUnsafe(store: seq<char>, c: char)
    requires |store| == ADDRESS_SPACE && store[1] != c
    ensures !AgreesUpTo(AS_WRITTEN, store, ThereAndBack(c)) && Right(AS_WRITTEN, store, ThereAndBack(c), 1)
  {
    hide AgreesUpTo, Right, Safe, CellIsRight, PageSet, ThereAndBack;
    OnePage(c);
    assert ThereAndBack(c)[..2] == ThereAndBack(c);
    RightIff(AS_WRITTEN, ThereAndBack(c), 1);
    SafeIff(AS_WRITTEN, store, ThereAndBack(c));
    FirstUnsafe(store, c);
  }

  lemma OnePage(c: char)
    ensures var cmds := ThereAndBack(c);
      |PageSet(cmds)| == 1 && CellIsRight(cmds, 1) && ByPageNumber(AS_WRITTEN)
  {
    var cmds := ThereAndBack(c);
    assert cmds[..1] == [Write(1, c)] && cmds[..1][..0] == [];
    assert LastOn(cmds[..1], 0) == Some(c) && LastAt(cmds[..1], 1) == Some(c);
    assert PageSet(cmds[..1][..0]) == {} && PageSet(cmds[..1]) == {0} && PageSet(cmds) == {0};
  }

  lemma FirstUnsafe(store: seq<char>, c: char)
    requires |store| == ADDRESS_SPACE && store[1] != c
    ensures !Safe(AS_WRITTEN, store, ThereAndBack(c))
  {
    hide Initial, LosesDirty, TakesStale;
    var first := ThereAndBack(c)[..1];
    assert first == [Write(1, c)] && first[..0] == [];
    FirstHarmful(store, c);
    assert !Safe(AS_WRITTEN, store, first);
  }

  lemma FirstHarmful(store: seq<char>, c: char)
    requires |store| == ADDRESS_SPACE && store[1] != c
    ensures CanEvict(Initial(store)) && !IndexHarmless(Initial(store), Write(1, c))
  {
    InitialReady(store);
  }
}
