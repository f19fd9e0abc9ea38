/** Runs on which the lines of the paging code as written make a program read a wrong character. */
module VmMisreads {
  import opened VmModel
  import opened VmInvariant
  import opened VmRefinement
  import opened VmAsWritten

  /** One line as written, the others repaired. */
  const WRITE_AS_WRITTEN := Variant(true, false, true, true)
  const DIRTY_AS_WRITTEN := Variant(true, true, false, true)
  const OWNER_AS_WRITTEN := Variant(true, true, true, false)

  // ---------------------------------------------------------------- vmm.c:54 and vmm.c:72

  lemma InitialReady(store: seq<char>)
    requires |store| == ADDRESS_SPACE
    ensures CanEvict(Initial(store))
  {
    assert !Initial(store).used[0];
  }

  /** What the code as written answers to a first read of offset `off` of `page`. */
  ghost function FirstRead(store: seq<char>, page: nat, off: nat): char
    requires |store| == ADDRESS_SPACE && page < NUM_PAGES && off < PAGE_FRAME_SIZE
  {
    InitialReady(store);
    Step(AS_WRITTEN, Initial(store), Read(page * PAGE_FRAME_SIZE + off)).1
  }

  /** The page goes to frame 0 and is read at its own number, whatever the offset. */
  lemma FirstReadIs(store: seq<char>, page: nat, off: nat)
    requires |store| == ADDRESS_SPACE && page < NUM_PAGES && off < PAGE_FRAME_SIZE
    ensures FirstRead(store, page, off) == store[page * PAGE_FRAME_SIZE + page]
  {
    hide CanEvict, GetFrame, CopyBlock;
    InitialReady(store);
    var s := Initial(store);
    var a := page * PAGE_FRAME_SIZE + off;
    assert a / PAGE_FRAME_SIZE == page && a % PAGE_FRAME_SIZE == off;
    assert FreeFrame(s.used, 0) == 0;
    FreeFault(AS_WRITTEN, s, page, false);
    assert At(CopyBlock(s.mem, 0, store, page), 0, page) == At(store, page, page);
  }

  /** Indexing memory by page number, as written, answers a first read of a page with the right
      character for every backing store exactly when the offset equals the page number. */
  lemma FirstReadIff(page: nat, off: nat)
    requires page < NUM_PAGES && off < PAGE_FRAME_SIZE
    ensures (forall store: seq<char> :: |store| == ADDRESS_SPACE ==>
        FirstRead(store, page, off) == store[page * PAGE_FRAME_SIZE + off])
      <==> off == page
  {
    hide FirstRead;
    forall store: seq<char> | |store| == ADDRESS_SPACE
      ensures FirstRead(store, page, off) == store[page * PAGE_FRAME_SIZE + page]
    {
      FirstReadIs(store, page, off);
    }
    if off != page {
      var store := seq(ADDRESS_SPACE, i => if i == page * PAGE_FRAME_SIZE + page then 'a' else 'b');
      assert FirstRead(store, page, off) == 'a';
    }
  }

  /** What a program sees after a first write of `c` to offset `off` of `page`, with only the write as written. */
  ghost function FirstWrite(store: seq<char>, page: nat, off: nat, c: char): seq<char>
    requires |store| == ADDRESS_SPACE && page < NUM_PAGES && off < PAGE_FRAME_SIZE
  {
    InitialReady(store);
    Flat(Step(WRITE_AS_WRITTEN, Initial(store), Write(page * PAGE_FRAME_SIZE + off, c)).0)
  }

  /** The character lands at the offset that is the page's number, whatever the offset. */
  lemma FirstWriteIs(store: seq<char>, page: nat, off: nat, c: char)
    requires |store| == ADDRESS_SPACE && page < NUM_PAGES && off < PAGE_FRAME_SIZE
    ensures FirstWrite(store, page, off, c) == store[page * PAGE_FRAME_SIZE + page := c]
  {
    hide CanEvict, GetFrame, CopyBlock, Flat, Poked;
    InitialReady(store);
    var s := Initial(store);
    var a := page * PAGE_FRAME_SIZE + off;
    assert a / PAGE_FRAME_SIZE == page && a % PAGE_FRAME_SIZE == off;
    assert FreeFrame(s.used, 0) == 0;
    FreeFault(WRITE_AS_WRITTEN, s, page, true);
    var t := Step(WRITE_AS_WRITTEN, s, Write(a, c)).0;
    InitialFlat(store);
    FlatAfterLoad(s, t, page, c);
    FlatPoked(s, t, page, page, c);
  }

  lemma FlatAfterLoad(s: State, t: State, page: nat, c: char)
    requires Wf(s) && Wf(t) && page < NUM_PAGES && t.store == s.store
    requires forall p :: 0 <= p < NUM_PAGES ==> !s.pt[p].valid && (t.pt[p].valid <==> p == page)
    requires t.pt[page].frame == 0 && t.mem == CopyBlock(s.mem, 0, s.store, page)[page := c]
    ensures Poked(s, t, page, page, c)
  {
    var loaded := CopyBlock(s.mem, 0, s.store, page);
    hide CopyBlock;
    forall o: nat | o < PAGE_FRAME_SIZE
      ensures Logical(t, page, o) == if o == page then c else Logical(s, page, o)
    {
      assert At(loaded, 0, o) == At(s.store, page, o);
      assert At(t.mem, 0, o) == t.mem[o] && At(loaded, 0, o) == loaded[o];
    }
  }

  /** Writing at the page number, as written, puts a first write of a page in its place for every backing store
      and character exactly when the offset equals the page number. */
  lemma FirstWriteIff(page: nat, off: nat)
    requires page < NUM_PAGES && off < PAGE_FRAME_SIZE
    ensures (forall store: seq<char>, c: char :: |store| == ADDRESS_SPACE ==>
        FirstWrite(store, page, off, c) == store[page * PAGE_FRAME_SIZE + off := c])
      <==> off == page
  {
    hide FirstWrite;
    forall store: seq<char>, c: char | |store| == ADDRESS_SPACE
      ensures FirstWrite(store, page, off, c) == store[page * PAGE_FRAME_SIZE + page := c]
    {
      FirstWriteIs(store, page, off, c);
    }
    if off != page {
      var store := seq(ADDRESS_SPACE, _ => 'a');
      var i, j := page * PAGE_FRAME_SIZE + page, page * PAGE_FRAME_SIZE + off;
      assert FirstWrite(store, page, off, 'b')[i] == 'b';
      assert store[j := 'b'][i] == 'a';
    }
  }

  /** A read of a resident page that the TLB does not contradict. */
  lemma ResidentRead(v: Variant, s: State, addr: nat)
    requires Wf(s) && CanEvict(s) && addr < ADDRESS_SPACE && s.pt[addr / PAGE_FRAME_SIZE].valid
    requires forall k :: 0 <= k < |s.tlb| && Holds(s.tlb[k], addr / PAGE_FRAME_SIZE) ==>
      s.tlb[k].frame == s.pt[addr / PAGE_FRAME_SIZE].frame
    ensures var page := addr / PAGE_FRAME_SIZE;
      Step(v, s, Read(addr)).1 == s.mem[Index(v.physicalRead, page, s.pt[page].frame, addr % PAGE_FRAME_SIZE)]
  {
    hide CanEvict;
    var page := addr / PAGE_FRAME_SIZE;
    var t := s.(tlb := Aged(s.tlb));
    var k := SlotOf(t.tlb, page, 0);
    assert k >= 0 ==> Holds(s.tlb[k], page);
  }

  /** Write(1, c) as a first access goes to offset 0.  As written, a read of address 0 then returns `c`; with the
      read repaired, a read of address 1 does not. */
  lemma MisplacedWrite(store: seq<char>, c: char)
    requires |store| == ADDRESS_SPACE && store[0] != c && store[1] != c
    ensures var r := Run(AS_WRITTEN, Initial(store), [Write(1, c), Read(0)]);
      r.Done? && r.out[1] == c && Latest(store, [Write(1, c)], 0) == store[0]
    ensures var r := Run(WRITE_AS_WRITTEN, Initial(store), [Write(1, c), Read(1)]);
      r.Done? && r.out[1] == store[1] && Latest(store, [Write(1, c)], 1) == c
  {
    hide CanEvict, Step;
    MisplacedFirst(AS_WRITTEN, store, c);
    MisplacedFirst(WRITE_AS_WRITTEN, store, c);
    ResidentRead(AS_WRITTEN, Step(AS_WRITTEN, Initial(store), Write(1, c)).0, 0);
    ResidentRead(WRITE_AS_WRITTEN, Step(WRITE_AS_WRITTEN, Initial(store), Write(1, c)).0, 1);
    InitialReady(store);
    OneRun(AS_WRITTEN, store, Write(1, c));
    OneRun(WRITE_AS_WRITTEN, store, Write(1, c));
    RunSnoc(AS_WRITTEN, Initial(store), [Write(1, c)], Read(0));
    RunSnoc(WRITE_AS_WRITTEN, Initial(store), [Write(1, c)], Read(1));
    assert [Write(1, c)] + [Read(0)] == [Write(1, c), Read(0)];
    assert [Write(1, c)] + [Read(1)] == [Write(1, c), Read(1)];
    assert [Write(1, c)][..0] == [];
  }

  lemma OneRun(v: Variant, store: seq<char>, a: Command)
    requires |store| == ADDRESS_SPACE && CanEvict(Initial(store))
    ensures Run(v, Initial(store), [a]) == Done(Step(v, Initial(store), a).0, [Step(v, Initial(store), a).1])
  {
    hide CanEvict, Step, Initial;
    RunSnoc(v, Initial(store), [], a);
    assert [] + [a] == [a];
  }

  lemma MisplacedFirst(v: Variant, store: seq<char>, c: char)
    requires |store| == ADDRESS_SPACE && !v.physicalWrite
    ensures CanEvict(Initial(store))
    ensures var t := Step(v, Initial(store), Write(1, c)).0;
      && Wf(t) && t.pt[0].valid && t.pt[0].frame == 0 && CanEvict(t)
      && t.mem[0] == c && t.mem[1] == store[1]
      && forall k :: 0 <= k < |t.tlb| && Holds(t.tlb[k], 0) ==> t.tlb[k].frame == 0
  {
    hide GetFrame, CopyBlock, CanEvict;
    InitialReady(store);
    var s := Initial(store);
    assert FreeFrame(s.used, 0) == 0;
    FreeFault(v, s, 0, true);
    FirstTlb(v, store);
    assert At(CopyBlock(s.mem, 0, store, 0), 0, 1) == At(store, 0, 1);
    ValidCanEvict(Step(v, s, Write(1, c)).0, 0);
  }

  lemma FirstTlb(v: Variant, store: seq<char>)
    requires |store| == ADDRESS_SPACE && CanEvict(Initial(store))
    ensures var t := GetFrame(v, Initial(store), 0, true).0;
      forall k :: 0 <= k < |t.tlb| && Holds(t.tlb[k], 0) ==> t.tlb[k].frame == 0
  {
    var s := Initial(store);
    assert FreeFrame(s.used, 0) == 0;
  }

  // ---------------------------------------------------------------- runs that fill the frames

  /** The first access to page `base + k`: reads, or writes to all pages but the first. */
  function FillCommand(base: nat, k: nat, dirty: bool): Command
    requires base + k < NUM_PAGES
  {
    var addr := (base + k) * PAGE_FRAME_SIZE;
    if dirty && k > 0 then Write(addr, '!') else Read(addr)
  }

  /** Access `n` consecutive pages, from page `base` on. */
  function Fill(base: nat, n: nat, dirty: bool): (r: seq<Command>)
    requires base + n <= NUM_PAGES
    ensures |r| == n
  {
    if n == 0 then [] else Fill(base, n - 1, dirty) + [FillCommand(base, n - 1, dirty)]
  }

  /** The n pages from `base` on are in frames 0 to n - 1, all clean or only the first, and no other page was
      ever loaded. */
  ghost predicate Filled(s: State, base: nat, n: nat, dirty: bool)
    requires Wf(s)
  {
    && (forall f :: 0 <= f < |s.used| ==> (s.used[f] <==> f < n))
    && (forall p :: 0 <= p < |s.pt| ==>
          if base <= p < base + n
          then s.pt[p].valid && s.pt[p].frame == p - base && (s.pt[p].readonly <==> (dirty ==> p == base))
          else s.pt[p] == PageEntry(false, false, 0, 0))
  }

  lemma {:induction false} FillPages(base: nat, n: nat, dirty: bool)
    requires base + n <= NUM_PAGES
    ensures Pages(Fill(base, n, dirty)) == seq(n, i => base + i)
  {
    if n > 0 {
      FillPages(base, n - 1, dirty);
      var a := (base + n - 1) * PAGE_FRAME_SIZE;
      assert a / PAGE_FRAME_SIZE == base + n - 1;
      assert Fill(base, n, dirty)[..n - 1] == Fill(base, n - 1, dirty);
    }
  }

  /** While frames are free, no variant with physical addresses differs from the repaired code on new pages. */
  lemma FillStep(v: Variant, s: State, h: seq<nat>, base: nat, n: nat, dirty: bool)
    requires Inv(s, h) && n < NUM_FRAMES && base + n < NUM_PAGES && Filled(s, base, n, dirty)
    requires v.physicalRead && v.physicalWrite
    ensures CanEvict(s)
    ensures var a := FillCommand(base, n, dirty);
      var t := Step(v, s, a).0;
      Step(v, s, a) == Step(REPAIRED, s, a) && Filled(t, base, n + 1, dirty) && t.store == s.store
  {
    hide Inv, GetFrame, InTlb, CanEvict, Step;
    InvWf(s, h);
    var page, a := base + n, FillCommand(base, n, dirty);
    assert page * PAGE_FRAME_SIZE / PAGE_FRAME_SIZE == page;
    assert !s.used[n];
    StepAgreesIff(v, s, h, a);
    NotResidentNotInTlb(s, h, page);
    assert FreeFrame(s.used, 0) == n;
    FreeFault(REPAIRED, s, page, a.Write?);
    StepTables(REPAIRED, s, a);
  }

  lemma StepTables(v: Variant, s: State, a: Command)
    requires Wf(s) && CanEvict(s)
    ensures var t, u := Step(v, s, a).0, GetFrame(v, s, a.addr / PAGE_FRAME_SIZE, a.Write?).0;
      t.tlb == u.tlb && t.pt == u.pt && t.used == u.used && t.store == u.store
  {
    hide GetFrame;
  }

  /** A page fault while a frame is free. */
  lemma FreeFault(v: Variant, s: State, page: nat, write: bool)
    requires Wf(s) && CanEvict(s) && page < NUM_PAGES && !s.pt[page].valid && !InTlb(s.tlb, page)
    requires FreeFrame(s.used, 0) >= 0
    ensures var free := FreeFrame(s.used, 0);
      var (t, frame) := GetFrame(v, s, page, write);
      && frame == free
      && t.pt == Touched(s.pt[page := PageEntry(!write, true, free, 0)], page)
      && t.used == s.used[free := true] && t.store == s.store
      && t.mem == CopyBlock(s.mem, free, s.store, page)
  {
    var s1 := s.(tlb := Aged(s.tlb));
    forall k | 0 <= k < |s1.tlb| ensures !Holds(s1.tlb[k], page) {
      assert !Holds(s.tlb[k], page);
    }
  }

  lemma NotResidentNotInTlb(s: State, h: seq<nat>, page: nat)
    requires Inv(s, h) && page < NUM_PAGES && !s.pt[page].valid
    ensures !InTlb(s.tlb, page)
  {
    hide Mapping, Recent, Clean;
  }

  lemma {:induction false} FillRun(v: Variant, store: seq<char>, base: nat, n: nat, dirty: bool)
    requires |store| == ADDRESS_SPACE && n <= NUM_FRAMES && base + n <= NUM_PAGES
    requires v.physicalRead && v.physicalWrite
    ensures var r := Run(v, Initial(store), Fill(base, n, dirty));
      && r.Done? && r.s.store == store && Filled(r.s, base, n, dirty)
      && Inv(r.s, Pages(Fill(base, n, dirty)))
      && r == Run(REPAIRED, Initial(store), Fill(base, n, dirty))
  {
    hide Inv, Step, CanEvict, Pages, Filled, FillCommand;
    RunKeeps(store, Fill(base, n, dirty));
    if n == 0 {
      InitialFilled(store, base, dirty);
    } else {
      FillRun(v, store, base, n - 1, dirty);
      assert Fill(base, n, dirty)[..n - 1] == Fill(base, n - 1, dirty);
      var t := Run(v, Initial(store), Fill(base, n - 1, dirty)).s;
      FillStep(v, t, Pages(Fill(base, n - 1, dirty)), base, n - 1, dirty);
    }
  }

  lemma InitialFilled(store: seq<char>, base: nat, dirty: bool)
    requires |store| == ADDRESS_SPACE
    ensures Filled(Initial(store), base, 0, dirty)
  {
  }

  // ---------------------------------------------------------------- vmm.c:92-130

  /** Pages used at least 8 pages ago have left the TLB. */
  lemma FirstFilledLeavesTlb(s: State, h: seq<nat>, base: nat, n: nat, dirty: bool)
    requires Inv(s, h) && TLB_NUM_ENTRIES < n && base + n <= NUM_PAGES && Filled(s, base, n, dirty)
    requires h == seq(n, i => base + i)
    ensures !InTlb(s.tlb, base) && VictimPage(s.pt) == base
  {
    hide Inv, InTlb, VictimPage;
    InvWf(s, h);
    FilledAges(s, h, base, n, dirty);
    assert Resident(s) == Interval(base, n);
    OldestNotInTlb(s, h, base);
  }

  lemma FilledAges(s: State, h: seq<nat>, base: nat, n: nat, dirty: bool)
    requires Inv(s, h) && 0 < n && base + n <= NUM_PAGES && Filled(s, base, n, dirty)
    requires h == seq(n, i => base + i)
    ensures forall p :: base <= p < base + n ==> s.pt[p].counter == base + n - 1 - p
    ensures SomeValid(s.pt) && VictimPage(s.pt) == base
  {
    hide Mapping, Mirrors, Recent, Clean, SinceUse, VictimPage;
    forall p | base <= p < base + n ensures s.pt[p].counter == base + n - 1 - p {
      SinceUseInFill(h, base, n, p - base);
    }
    FirstIsVictim(s, base, n, dirty);
  }

  lemma FirstIsVictim(s: State, base: nat, n: nat, dirty: bool)
    requires Wf(s) && 0 < n && base + n <= NUM_PAGES && Filled(s, base, n, dirty)
    requires forall p :: base <= p < base + n ==> s.pt[p].counter == base + n - 1 - p
    ensures SomeValid(s.pt) && VictimPage(s.pt) == base
  {
    assert s.pt[base].valid;
  }

  function Interval(base: nat, n: nat): (r: set<nat>)
    ensures |r| == n
    ensures forall p: nat :: p in r <==> base <= p < base + n
  {
    if n == 0 then {} else Interval(base, n - 1) + {base + n - 1}
  }

  lemma {:induction false} SinceUseInFill(h: seq<nat>, base: nat, n: nat, i: nat)
    requires i < n && h == seq(n, k => base + k)
    ensures base + i in h && SinceUse(h, base + i) == n - 1 - i
  {
    assert h[i] == base + i;
    if i < n - 1 {
      assert h[..n - 1] == seq(n - 1, k => base + k);
      SinceUseInFill(h[..n - 1], base, n - 1, i);
    }
  }

  /** The oldest of more than 8 resident pages is not in the TLB. */
  lemma OldestNotInTlb(s: State, h: seq<nat>, page: nat)
    requires Inv(s, h) && page < NUM_PAGES && |Resident(s)| > TLB_NUM_ENTRIES
    requires forall q :: q in Resident(s) ==> s.pt[q].counter <= s.pt[page].counter
    ensures !InTlb(s.tlb, page)
  {
    hide Mapping, Clean, Mirrors, Recent;
    var pages := TlbPages(s.tlb, TLB_NUM_ENTRIES);
    TlbPagesMostRecent(s);
    TlbPagesAre(s.tlb, TLB_NUM_ENTRIES, page);
    if Resident(s) <= pages {
      SubsetSize(Resident(s), pages);
    }
    var q :| q in Resident(s) - pages;
    assert page !in pages;
  }

  /** Evicting a page that the table takes for clean is invisible exactly when its frame still equals
      the backing store; evicting a page marked dirty always is. */
  lemma EvictionInvisibleIff(s: State, lead: nat)
    requires Wf(s) && Mapping(s, -1) && Mirrors(s, lead) && SomeValid(s.pt)
    ensures var victim := VictimPage(s.pt);
      SameLogical(s, Evicted(REPAIRED, s).0) <==>
      (s.pt[victim].readonly ==>
        forall o: nat :: o < PAGE_FRAME_SIZE ==> At(s.mem, s.pt[victim].frame, o) == At(s.store, victim, o))
  {
    EvictedPage(s, lead);
    var victim := VictimPage(s.pt);
    var t := Evicted(REPAIRED, s).0;
    hide Mapping, Mirrors, Evicted, InTlb;
    assert t.mem == s.mem && t.pt == s.pt[victim := s.pt[victim].(valid := false)];
    if s.pt[victim].readonly {
      forall o: nat | o < PAGE_FRAME_SIZE
        ensures Logical(s, victim, o) == At(s.mem, s.pt[victim].frame, o)
        ensures Logical(t, victim, o) == At(s.store, victim, o)
      {
      }
    }
  }

  /** Read pages 0 to 8, then write to page 0, which is resident but has left the TLB: the table still
      takes the page for clean, although memory and the backing store now differ. */
  lemma DirtyBitLost(store: seq<char>, c: char)
    requires |store| == ADDRESS_SPACE && store[0] != c
    ensures var r := Run(DIRTY_AS_WRITTEN, Initial(store), Fill(0, 9, false) + [Write(0, c)]);
      && r.Done?
      && r.s.pt[0].valid && r.s.pt[0].readonly && Logical(r.s, 0, 0) == c && At(r.s.store, 0, 0) == store[0]
      && !Clean(r.s)
  {
    hide Inv, Fill, CanEvict, Step, Run, Filled, InTlb;
    var v := DIRTY_AS_WRITTEN;
    FillRun(v, store, 0, 9, false);
    FillPages(0, 9, false);
    var s := Run(v, Initial(store), Fill(0, 9, false)).s;
    var h := Pages(Fill(0, 9, false));
    FirstFilledLeavesTlb(s, h, 0, 9, false);
    InvWf(s, h);
    FilledFirst(s, 0, 9, false);
    TableHitWrite(v, s, h, 0, 0, c);
    RunSnoc(v, Initial(store), Fill(0, 9, false), Write(0, c));
  }

  lemma FilledFirst(s: State, base: nat, n: nat, dirty: bool)
    requires Wf(s) && n > 0 && base + n <= NUM_PAGES && Filled(s, base, n, dirty)
    ensures s.pt[base].valid && s.pt[base].readonly && s.pt[base].frame == 0
  {
  }

  /** A write to a page that the table maps and the TLB does not. */
  lemma TableHitWrite(v: Variant, s: State, h: seq<nat>, page: nat, off: nat, c: char)
    requires Inv(s, h) && page < NUM_PAGES && off < PAGE_FRAME_SIZE && s.pt[page].valid && !InTlb(s.tlb, page)
    requires v.physicalWrite && !v.dirtyOnTableHit
    ensures CanEvict(s)
    ensures var t := Step(v, s, Write(page * PAGE_FRAME_SIZE + off, c)).0;
      && t.pt[page].valid && t.pt[page].frame == s.pt[page].frame && t.pt[page].readonly == s.pt[page].readonly
      && t.store == s.store && At(t.mem, t.pt[page].frame, off) == c
  {
    hide Inv, CanEvict, InTlb, Added, Touched;
    InvWf(s, h);
    AgedHolds(s.tlb, page);
    var a := page * PAGE_FRAME_SIZE + off;
    assert a / PAGE_FRAME_SIZE == page && a % PAGE_FRAME_SIZE == off;
  }

  /** `get_frame` on a page that is not in the TLB, with its parts apart. */
  lemma TableHitParts(v: Variant, s: State, page: nat)
    requires Wf(s) && page < NUM_PAGES && CanEvict(s) && s.pt[page].valid && !v.dirtyOnTableHit && !InTlb(s.tlb, page)
    ensures var t := GetFrame(v, s, page, true).0;
      && t.pt == Touched(s.pt, page) && t.used == s.used && t.store == s.store
      && t.tlb == Added(Aged(s.tlb), page, s.pt[page].frame, s.pt[page].readonly)
  {
    hide CanEvict, GetFrame, Added;
    GetFrameIs(v, s, page, true);
    AgedHolds(s.tlb, page);
  }

  lemma FullFaultParts(v: Variant, s: State, page: nat)
    requires Wf(s) && page < NUM_PAGES && CanEvict(s) && !s.pt[page].valid && !InTlb(s.tlb, page)
    requires SomeValid(s.pt) && FreeFrame(s.used, 0) < 0
    ensures Wf(s.(tlb := Aged(s.tlb)))
    ensures var (t, frame) := GetFrame(v, s, page, false);
      var (u, f) := Evicted(v, s.(tlb := Aged(s.tlb)));
      && frame == f && t.used == u.used[f := true] && t.store == u.store
      && t.pt == Touched(u.pt[page := PageEntry(true, true, f, 0)], page)
      && t.mem == CopyBlock(u.mem, f, u.store, page)
      && t.tlb == Added(u.tlb, page, f, true)
  {
    hide CanEvict, GetFrame, Added, Evicted, SomeValid, CopyBlock;
    GetFrameIs(v, s, page, false);
    AgedHolds(s.tlb, page);
  }

  lemma AgedHolds(tlb: seq<TlbEntry>, page: nat)
    requires !InTlb(tlb, page)
    ensures SlotOf(Aged(tlb), page, 0) == -1
  {
    forall k | 0 <= k < |tlb| ensures !Holds(Aged(tlb)[k], page) {
      assert !Holds(tlb[k], page);
    }
  }

  /** All frames are in use, page p < 32 in frame p, only page 0 clean. */
  ghost predicate OneClean(pt: seq<PageEntry>, used: seq<bool>) {
    && |pt| == NUM_PAGES && |used| == NUM_FRAMES && (forall f :: 0 <= f < |used| ==> used[f])
    && forall p :: 0 <= p < |pt| ==>
      && (pt[p].valid <==> p < NUM_FRAMES)
      && (p < NUM_FRAMES ==> pt[p].frame == p && (pt[p].readonly <==> p == 0))
  }

  /** The TLB agrees, and has page 0 at most once. */
  ghost predicate Straight(tlb: seq<TlbEntry>) {
    && (forall k :: 0 <= k < |tlb| && tlb[k].frame >= 0 ==> tlb[k].page == tlb[k].frame)
    && (forall j, k :: 0 <= j < k < |tlb| ==> !(Holds(tlb[j], 0) && Holds(tlb[k], 0)))
  }

  lemma FilledIsOneClean(s: State, h: seq<nat>)
    requires Inv(s, h) && Filled(s, 0, NUM_FRAMES, true) && !InTlb(s.tlb, 0)
    ensures OneClean(s.pt, s.used) && Straight(s.tlb)
  {
    hide Mapping, Recent, Clean, DistinctAges, AgesFollow;
    assert forall k :: 0 <= k < |s.tlb| ==> !Holds(s.tlb[k], 0);
  }

  lemma AgedStraight(tlb: seq<TlbEntry>)
    requires Straight(tlb)
    ensures Straight(Aged(tlb))
  {
  }

  lemma AddedStraight(tlb: seq<TlbEntry>)
    requires |tlb| > 0 && Straight(tlb) && !InTlb(tlb, 0)
    ensures Straight(Added(tlb, 0, 0, true))
  {
    var k := VictimSlot(tlb);
    hide VictimSlot;
    assert forall j :: 0 <= j < |tlb| ==> !Holds(tlb[j], 0);
  }

  lemma FirstClean(pt: seq<PageEntry>, used: seq<bool>)
    requires OneClean(pt, used)
    ensures pt[0].valid && pt[0].readonly && pt[0].frame == 0 && !pt[NUM_FRAMES].valid && FreeFrame(used, 0) == -1
    ensures OneClean(Touched(pt, 0), used)
    ensures Replaced(Touched(pt[0 := pt[0].(valid := false)][NUM_FRAMES := PageEntry(true, true, 0, 0)], NUM_FRAMES),
                     used[0 := true])
  {
  }

  /** The write to page 0 that leaves it clean. */
  lemma WriteLeavesClean(s: State, h: seq<nat>, c: char)
    requires Inv(s, h) && Filled(s, 0, NUM_FRAMES, true) && !InTlb(s.tlb, 0)
    ensures CanEvict(s)
    ensures var t := Step(DIRTY_AS_WRITTEN, s, Write(0, c)).0;
      OneClean(t.pt, t.used) && Straight(t.tlb) && t.store == s.store
  {
    hide Inv, Filled, CanEvict, InTlb, GetFrame, Step, Straight, Added, OneClean, Touched, Aged;
    FilledIsOneClean(s, h);
    InvWf(s, h);
    FirstClean(s.pt, s.used);
    TableHitParts(DIRTY_AS_WRITTEN, s, 0);
    StepTables(DIRTY_AS_WRITTEN, s, Write(0, c));
    AgedStraight(s.tlb);
    AgedHolds(s.tlb, 0);
    SlotIffInTlb(Aged(s.tlb), 0);
    AddedStraight(Aged(s.tlb));
  }

  /** Page 0 has left for page 32, which is the one clean page, in frame 0. */
  ghost predicate Replaced(pt: seq<PageEntry>, used: seq<bool>) {
    && |pt| == NUM_PAGES && |used| == NUM_FRAMES && (forall f :: 0 <= f < |used| ==> used[f])
    && forall p :: 0 <= p < |pt| ==>
      && (pt[p].valid <==> 0 < p <= NUM_FRAMES)
      && (pt[p].valid ==> pt[p].frame == p % NUM_FRAMES && (pt[p].readonly <==> p == NUM_FRAMES))
  }

  ghost predicate Turned(tlb: seq<TlbEntry>) {
    forall k :: 0 <= k < |tlb| && tlb[k].frame >= 0 ==>
      0 < tlb[k].page <= NUM_FRAMES && tlb[k].frame == tlb[k].page % NUM_FRAMES
  }

  /** Page 0 is taken for clean, so it is the victim, and is not saved. */
  lemma EvictsUnsaved(v: Variant, s: State)
    requires Wf(s) && v.validOwnerOnly && OneClean(s.pt, s.used) && Straight(s.tlb)
    ensures SomeValid(s.pt)
    ensures var (t, frame) := Evicted(v, s);
      && frame == 0 && t.store == s.store && t.used == s.used && t.pt == s.pt[0 := s.pt[0].(valid := false)]
      && |t.tlb| == |s.tlb|
      && forall k :: 0 <= k < |s.tlb| && t.tlb[k].frame >= 0 ==> 0 < t.tlb[k].page == t.tlb[k].frame
  {
    assert s.pt[0].valid;
    assert VictimPage(s.pt) == 0;
    assert Owns(v, s.pt[0], 0);
    var k := SlotOfFrame(s.tlb, 0, 0);
    if k >= 0 {
      assert Holds(s.tlb[k], 0);
    }
    forall j | 0 <= j < |s.tlb| && j != k && s.tlb[j].frame >= 0
      ensures s.tlb[j].page != 0
    {
      assert s.tlb[j].page == 0 ==> Holds(s.tlb[j], 0);
    }
  }

  lemma AddedTurned(tlb: seq<TlbEntry>)
    requires 0 < |tlb|
    requires forall k :: 0 <= k < |tlb| && tlb[k].frame >= 0 ==> 0 < tlb[k].page == tlb[k].frame < NUM_FRAMES
    ensures Turned(Added(tlb, NUM_FRAMES, 0, true))
  {
    var k := VictimSlot(tlb);
    hide VictimSlot;
  }

  lemma ReadReplaces(v: Variant, s: State)
    requires Wf(s) && v.validOwnerOnly && OneClean(s.pt, s.used) && Straight(s.tlb)
    ensures CanEvict(s)
    ensures var t := Step(v, s, Read(NUM_FRAMES * PAGE_FRAME_SIZE)).0;
      Replaced(t.pt, t.used) && Turned(t.tlb) && t.store == s.store
  {
    hide Evicted, VictimPage, CopyBlock, Straight, GetFrame, Step, InTlb, Added, Turned;
    hide OneClean, Replaced, Touched, Aged, CanEvict;
    FirstClean(s.pt, s.used);
    ValidCanEvict(s, 0);
    NotStraightAbove(s.tlb, s);
    AgedStraight(s.tlb);
    assert SomeValid(s.pt);
    var t := s.(tlb := Aged(s.tlb));
    FullFaultParts(v, s, NUM_FRAMES);
    EvictsUnsaved(v, t);
    StepTables(v, s, Read(NUM_FRAMES * PAGE_FRAME_SIZE));
    assert NUM_FRAMES * PAGE_FRAME_SIZE / PAGE_FRAME_SIZE == NUM_FRAMES;
    AddedTurned(Evicted(v, t).0.tlb);
  }

  lemma NotStraightAbove(tlb: seq<TlbEntry>, s: State)
    requires Wf(s) && s.tlb == tlb && Straight(tlb)
    ensures !InTlb(tlb, NUM_FRAMES)
  {
  }

  lemma EvictsReplaced(v: Variant, s: State)
    requires Wf(s) && v.validOwnerOnly && Replaced(s.pt, s.used) && Turned(s.tlb)
    ensures SomeValid(s.pt)
    ensures var (t, frame) := Evicted(v, s); frame == 0 && t.store == s.store
  {
    assert s.pt[NUM_FRAMES].valid;
    assert VictimPage(s.pt) == NUM_FRAMES;
    assert Owns(v, s.pt[NUM_FRAMES], 0);
  }

  /** Page 32 is the victim, and page 0 comes back from the store. */
  lemma ReloadsPage(v: Variant, s: State)
    requires Wf(s) && v.validOwnerOnly && v.physicalRead && Replaced(s.pt, s.used) && Turned(s.tlb)
    ensures CanEvict(s) && Step(v, s, Read(0)).1 == At(s.store, 0, 0)
  {
    assert s.pt[NUM_FRAMES].valid;
    assert !InTlb(s.tlb, 0);
    assert Turned(Aged(s.tlb));
    hide Evicted, VictimPage, CopyBlock, GetFrame, InTlb, Added, Turned;
    var t := s.(tlb := Aged(s.tlb));
    FullFaultParts(v, s, 0);
    EvictsReplaced(v, t);
    var u := Evicted(v, t).0;
    var mem := CopyBlock(u.mem, 0, u.store, 0);
    assert At(mem, 0, 0) == At(u.store, 0, 0);
    assert Step(v, s, Read(0)).1 == mem[0];
  }

  /** Read page 0 and write to pages 1 to 31; write `c` to page 0, which has left the TLB; read page 32, for which
      page 0 is evicted. */
  function Losing(c: char): (r: seq<Command>)
    ensures |r| == NUM_FRAMES + 2
  {
    Fill(0, NUM_FRAMES, true) + [Write(0, c)] + [Read(NUM_FRAMES * PAGE_FRAME_SIZE)]
  }

  /** The page was not saved: a read of address 0 after that does not return `c`. */
  lemma WriteLost(store: seq<char>, c: char)
    requires |store| == ADDRESS_SPACE && store[0] != c
    ensures var r := Run(DIRTY_AS_WRITTEN, Initial(store), Losing(c) + [Read(0)]);
      r.Done? && r.out[NUM_FRAMES + 2] == store[0] && Latest(store, Losing(c), 0) == c
  {
    hide Inv, Fill, CanEvict, Step, Run, Filled, InTlb, OneClean, Replaced, Straight, Turned;
    var v, fill := DIRTY_AS_WRITTEN, Fill(0, NUM_FRAMES, true);
    FillRun(v, store, 0, NUM_FRAMES, true);
    FillPages(0, NUM_FRAMES, true);
    var s := Run(v, Initial(store), fill).s;
    FirstFilledLeavesTlb(s, Pages(fill), 0, NUM_FRAMES, true);
    WriteLeavesClean(s, Pages(fill), c);
    RunSnoc(v, Initial(store), fill, Write(0, c));
    var t := Step(v, s, Write(0, c)).0;
    ReadReplaces(v, t);
    RunSnoc(v, Initial(store), fill + [Write(0, c)], Read(NUM_FRAMES * PAGE_FRAME_SIZE));
    var u := Step(v, t, Read(NUM_FRAMES * PAGE_FRAME_SIZE)).0;
    ReloadsPage(v, u);
    RunSnoc(v, Initial(store), Losing(c), Read(0));
    LatestIsWrite(store, c);
  }

  lemma LatestIsWrite(store: seq<char>, c: char)
    requires |store| == ADDRESS_SPACE
    ensures Latest(store, Losing(c), 0) == c
  {
    hide Fill;
    var cmds := Losing(c);
    assert cmds[..|cmds| - 1] == Fill(0, NUM_FRAMES, true) + [Write(0, c)];
  }

  // ---------------------------------------------------------------- pt.c:72

  /** Read pages 1 to 32 and then page 33.  The victim is page 1 in frame 0; the search takes page 0,
      never loaded, for its owner, so page 1 stays mapped to a frame that now holds page 33, and
      reading page 1 again returns page 33's character. */
  lemma StaleOwner(store: seq<char>)
    requires |store| == ADDRESS_SPACE
    ensures var cmds := Fill(1, 32, false) + [Read(33 * PAGE_FRAME_SIZE), Read(PAGE_FRAME_SIZE)];
      var r := Run(OWNER_AS_WRITTEN, Initial(store), cmds);
      r.Done? && r.out[33] == store[33 * PAGE_FRAME_SIZE]
  {
    hide Inv, Fill, CanEvict, Step, Filled, InTlb, Run;
    var v := OWNER_AS_WRITTEN;
    var first, second := Read(33 * PAGE_FRAME_SIZE), Read(PAGE_FRAME_SIZE);
    assert Fill(1, 32, false) + [first, second] == Fill(1, 32, false) + [first] + [second];
    FillRun(v, store, 1, 32, false);
    FillPages(1, 32, false);
    var s := Run(v, Initial(store), Fill(1, 32, false)).s;
    var h := Pages(Fill(1, 32, false));
    InvWf(s, h);
    FirstFilledLeavesTlb(s, h, 1, 32, false);
    StaleFault(v, s, h);
    RunSnoc(v, Initial(store), Fill(1, 32, false), first);
    var t := Step(v, s, first).0;
    StaleRead(v, t);
    RunSnoc(v, Initial(store), Fill(1, 32, false) + [first], second);
  }

  lemma RunSnoc(v: Variant, s: State, cmds: seq<Command>, a: Command)
    requires Wf(s) && Run(v, s, cmds).Done? && CanEvict(Run(v, s, cmds).s)
    ensures var r := Run(v, s, cmds);
      Run(v, s, cmds + [a]) == Done(Step(v, r.s, a).0, r.out + [Step(v, r.s, a).1])
  {
    hide CanEvict, Step, Wf;
    assert (cmds + [a])[..|cmds|] == cmds;
  }

  lemma StaleFault(v: Variant, s: State, h: seq<nat>)
    requires v == OWNER_AS_WRITTEN && Inv(s, h) && CanEvict(s) && Filled(s, 1, 32, false)
    requires !InTlb(s.tlb, 1) && VictimPage(s.pt) == 1
    ensures var t := Step(v, s, Read(33 * PAGE_FRAME_SIZE)).0;
      CanEvict(t) && t.pt[1].valid && t.pt[1].frame == 0 && !InTlb(t.tlb, 1) && At(t.mem, 0, 0) == At(s.store, 33, 0)
  {
    hide Inv, CanEvict;
    InvWf(s, h);
    InvMid(s, h);
    NotResidentNotInTlb(s, h, 33);
    var s1 := s.(tlb := Aged(s.tlb));
    var page := 33;
    assert 33 * PAGE_FRAME_SIZE / PAGE_FRAME_SIZE == 33;
    assert SlotOf(s1.tlb, page, 0) == -1 by {
      forall k | 0 <= k < |s1.tlb| ensures !Holds(s1.tlb[k], page) {
        assert !Holds(s.tlb[k], page);
      }
    }
    assert FreeFrame(s1.used, 0) == -1;
    StaleEvicted(v, s1);
    ValidCanEvict(Step(v, s, Read(page * PAGE_FRAME_SIZE)).0, 1);
  }

  lemma ValidCanEvict(s: State, page: nat)
    requires page < |s.pt| && s.pt[page].valid
    ensures CanEvict(s)
  {
  }

  lemma StaleEvicted(v: Variant, s: State)
    requires v == OWNER_AS_WRITTEN && Wf(s) && Mirrors(s, 1) && Filled(s, 1, 32, false)
    requires !InTlb(s.tlb, 1) && SomeValid(s.pt) && VictimPage(s.pt) == 1
    ensures var (t, frame) := Evicted(v, s);
      && frame == 0 && t.tlb == s.tlb && t.pt == s.pt && t.used == s.used && t.mem == s.mem
      && At(t.store, 33, 0) == At(s.store, 33, 0)
  {
    assert Owns(v, s.pt[0], 0);
    forall k | 0 <= k < |s.tlb| ensures s.tlb[k].frame != 0 {
      assert !Holds(s.tlb[k], 1);
    }
  }

  lemma StaleRead(v: Variant, s: State)
    requires v == OWNER_AS_WRITTEN && Wf(s) && CanEvict(s)
    requires s.pt[1].valid && s.pt[1].frame == 0 && !InTlb(s.tlb, 1)
    ensures Step(v, s, Read(PAGE_FRAME_SIZE)).1 == At(s.mem, 0, 0)
  {
    hide CanEvict;
    var s1 := s.(tlb := Aged(s.tlb));
    forall k | 0 <= k < |s1.tlb| ensures !Holds(s1.tlb[k], 1) {
      assert !Holds(s.tlb[k], 1);
    }
    assert PAGE_FRAME_SIZE / PAGE_FRAME_SIZE == 1;
  }
}
