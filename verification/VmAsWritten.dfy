/** The lines where the paging code as written is not a memory: when exactly each one makes a difference,
    in one access and over a run. */
module VmAsWritten {
  import opened VmModel
  import opened VmInvariant
  import opened VmRefinement

  // ---------------------------------------------------------------- the guards

  /** The branch of vmm.c:92-130 that leaves the dirty bit alone: a write to a resident page that
      is not in the TLB and was only read so far. */
  ghost predicate LosesDirty(s: State, page: nat, write: bool)
    requires Wf(s) && page < NUM_PAGES
  {
    write && !InTlb(s.tlb, page) && s.pt[page].valid && s.pt[page].readonly
  }

  /** The search of pt.c:72 meets a page that is not resident before the owner of the frame: a fault
      with no free frame, a victim outside the TLB, and a lower page that once had its frame. */
  ghost predicate TakesStale(s: State, page: nat)
    requires Wf(s) && page < NUM_PAGES
  {
    && !InTlb(s.tlb, page) && !s.pt[page].valid
    && (forall f :: 0 <= f < |s.used| ==> s.used[f])
    && SomeValid(s.pt)
    && !InTlb(s.tlb, VictimPage(s.pt))
    && exists q :: 0 <= q < VictimPage(s.pt) && s.pt[q].frame == s.pt[VictimPage(s.pt)].frame
  }

  lemma InvMid(s: State, h: seq<nat>)
    requires Inv(s, h)
    ensures var t := s.(tlb := Aged(s.tlb));
      && Wf(t) && Mapping(t, -1) && Mirrors(t, 1) && CanEvict(t) && t.pt == s.pt && t.used == s.used
      && forall q: nat :: InTlb(t.tlb, q) <==> InTlb(s.tlb, q)
  {
    AgedMid(s, h);
    var t := s.(tlb := Aged(s.tlb));
    forall q: nat ensures InTlb(t.tlb, q) <==> InTlb(s.tlb, q) {
      if InTlb(s.tlb, q) { InTlbMoves(s.tlb, t.tlb, q); }
      if InTlb(t.tlb, q) { InTlbMoves(t.tlb, s.tlb, q); }
    }
  }

  lemma EvictedAgreesIff(v: Variant, s: State)
    requires Wf(s) && Mapping(s, -1) && Mirrors(s, 1) && SomeValid(s.pt)
    ensures var stale := !v.validOwnerOnly && !InTlb(s.tlb, VictimPage(s.pt))
        && exists q :: 0 <= q < VictimPage(s.pt) && s.pt[q].frame == s.pt[VictimPage(s.pt)].frame;
      && Evicted(v, s).1 == Evicted(REPAIRED, s).1
      && (!stale ==> Evicted(v, s) == Evicted(REPAIRED, s))
      && (stale ==> Evicted(v, s).0.pt[VictimPage(s.pt)].valid)
    ensures !Evicted(REPAIRED, s).0.pt[VictimPage(s.pt)].valid
  {
    hide Mapping, Mirrors, VictimPage, CopyBlock, InTlb;
    EvictedPage(s, 1);
    var victim := VictimPage(s.pt);
    assert Owns(v, s.pt[victim], s.pt[victim].frame);
    SlotOfVictim(s);
  }

  lemma SlotOfVictim(s: State)
    requires Wf(s) && Mapping(s, -1) && Mirrors(s, 1) && SomeValid(s.pt)
    ensures SlotOfFrame(s.tlb, s.pt[VictimPage(s.pt)].frame, 0) >= 0 <==> InTlb(s.tlb, VictimPage(s.pt))
  {
    hide VictimPage;
    EvictedPage(s, 1);
    var k := SlotOfFrame(s.tlb, s.pt[VictimPage(s.pt)].frame, 0);
    if k >= 0 {
      assert Holds(s.tlb[k], VictimPage(s.pt));
    }
  }

  /** In every state the repaired code reaches, `get_frame` under any variant does what the repaired
      one does exactly when none of the variant's unrepaired guards holds. */
  lemma GetFrameAgreesIff(v: Variant, s: State, h: seq<nat>, page: nat, write: bool)
    requires Inv(s, h) && page < NUM_PAGES
    ensures CanEvict(s)
    ensures GetFrame(v, s, page, write) == GetFrame(REPAIRED, s, page, write) <==>
      && (v.dirtyOnTableHit || !LosesDirty(s, page, write))
      && (v.validOwnerOnly || !TakesStale(s, page))
    ensures GetFrame(v, s, page, write) == GetFrame(REPAIRED, s, page, write) <==>
      GetFrame(v, s, page, write).0.pt == GetFrame(REPAIRED, s, page, write).0.pt
  {
    hide Inv, Mapping, Mirrors, GetFrame, Missed, InTlb, CanEvict;
    InvWf(s, h);
    InvMid(s, h);
    GetFrameIs(v, s, page, write);
    GetFrameIs(REPAIRED, s, page, write);
    var t := s.(tlb := Aged(s.tlb));
    SlotIffInTlb(t.tlb, page);
    if SlotOf(t.tlb, page, 0) < 0 {
      if s.pt[page].valid {
        TableHitAgreesIff(v, t, page, write);
      } else {
        FaultAgreesIff(v, t, page, write);
      }
    }
  }

  lemma SlotIffInTlb(tlb: seq<TlbEntry>, page: nat)
    ensures SlotOf(tlb, page, 0) >= 0 <==> InTlb(tlb, page)
  {
  }

  /** `get_frame` after a TLB hit, where the variant plays no part, and after a miss. */
  lemma GetFrameIs(v: Variant, s: State, page: nat, write: bool)
    requires Wf(s) && page < NUM_PAGES && CanEvict(s)
    ensures var t := s.(tlb := Aged(s.tlb));
      var k := SlotOf(t.tlb, page, 0);
      && Wf(t) && CanEvict(t)
      && (k >= 0 ==>
            && GetFrame(v, s, page, write) == GetFrame(REPAIRED, s, page, write)
            && GetFrame(v, s, page, write).0.mem == s.mem && GetFrame(v, s, page, write).1 == t.tlb[k].frame)
      && (k < 0 ==>
            var (u, frame) := Missed(v, t, page, write);
            GetFrame(v, s, page, write) == (u.(pt := Touched(u.pt, page)), frame))
  {
    hide Missed;
  }

  lemma TableHitAgreesIff(v: Variant, s: State, page: nat, write: bool)
    requires Wf(s) && CanEvict(s) && page < NUM_PAGES && s.pt[page].valid
    ensures var (t, f) := Missed(v, s, page, write);
      var (u, g) := Missed(REPAIRED, s, page, write);
      var t1, u1 := t.(pt := Touched(t.pt, page)), u.(pt := Touched(u.pt, page));
      && ((t1, f) == (u1, g) <==> v.dirtyOnTableHit || !(write && s.pt[page].readonly))
      && ((t1, f) == (u1, g) <==> t1.pt == u1.pt)
  {
    var (t, f) := Missed(v, s, page, write);
    var (u, g) := Missed(REPAIRED, s, page, write);
    if !v.dirtyOnTableHit && write && s.pt[page].readonly {
      assert Touched(t.pt, page)[page].readonly && !Touched(u.pt, page)[page].readonly;
    } else {
      assert t.pt == u.pt;
    }
  }

  lemma FaultAgreesIff(v: Variant, s: State, page: nat, write: bool)
    requires Wf(s) && Mapping(s, -1) && Mirrors(s, 1) && CanEvict(s) && page < NUM_PAGES && !s.pt[page].valid
    ensures var (t, f) := Missed(v, s, page, write);
      var (u, g) := Missed(REPAIRED, s, page, write);
      var t1, u1 := t.(pt := Touched(t.pt, page)), u.(pt := Touched(u.pt, page));
      && ((t1, f) == (u1, g) <==>
            v.validOwnerOnly
            || !(&& (forall i :: 0 <= i < |s.used| ==> s.used[i]) && SomeValid(s.pt)
                 && !InTlb(s.tlb, VictimPage(s.pt))
                 && exists q :: 0 <= q < VictimPage(s.pt) && s.pt[q].frame == s.pt[VictimPage(s.pt)].frame))
      && ((t1, f) == (u1, g) <==> t1.pt == u1.pt)
  {
    hide Mapping, Mirrors, InTlb, Evicted;
    if FreeFrame(s.used, 0) < 0 {
      EvictedAgreesIff(v, s);
      var victim := VictimPage(s.pt);
      var (t, f) := Missed(v, s, page, write);
      var (u, g) := Missed(REPAIRED, s, page, write);
      assert victim != page;
      assert Touched(t.pt, page)[victim].valid == Evicted(v, s).0.pt[victim].valid;
      assert Touched(u.pt, page)[victim].valid == Evicted(REPAIRED, s).0.pt[victim].valid;
    }
  }

  // ---------------------------------------------------------------- vmm.c:54 and vmm.c:72

  /** The frame that `get_frame` will return. */
  ghost function FrameOf(s: State, page: nat): (f: nat)
    requires Wf(s) && CanEvict(s) && page < NUM_PAGES
    ensures f < NUM_FRAMES
  {
    if s.pt[page].valid then s.pt[page].frame
    else if FreeFrame(s.used, 0) >= 0 then FreeFrame(s.used, 0)
    else s.pt[VictimPage(s.pt)].frame
  }

  /** The character at the page's number in physical memory once the page is resident: in frame 0, the one at
      that offset of whatever frame 0 then holds. */
  ghost function AtPageNumber(s: State, page: nat): char
    requires Wf(s) && CanEvict(s) && page < NUM_PAGES
  {
    if FrameOf(s, page) == 0 then Logical(s, page, page) else At(s.mem, 0, page)
  }

  predicate Physical(v: Variant, a: Command) {
    if a.Read? then v.physicalRead else v.physicalWrite
  }

  /** Indexing by page number does no harm: it is the physical address, or the character there is the same. */
  ghost predicate IndexHarmless(s: State, a: Command)
    requires Wf(s) && CanEvict(s)
  {
    var page, off := a.addr / PAGE_FRAME_SIZE, a.addr % PAGE_FRAME_SIZE;
    || (FrameOf(s, page) == 0 && off == page)
    || match a
       case Read(_) => AtPageNumber(s, page) == Logical(s, page, off)
       case Write(_, c) => AtPageNumber(s, page) == c && Logical(s, page, off) == c
  }

  lemma HitFrame(s: State, h: seq<nat>, page: nat)
    requires Inv(s, h) && page < NUM_PAGES
    ensures var t := s.(tlb := Aged(s.tlb));
      var k := SlotOf(t.tlb, page, 0);
      (k >= 0 ==> s.pt[page].valid && t.tlb[k].frame == s.pt[page].frame)
  {
    hide Recent, Clean, Mapping, DistinctAges, AgesFollow;
    var t := s.(tlb := Aged(s.tlb));
    var k := SlotOf(t.tlb, page, 0);
    assert k >= 0 ==> Holds(s.tlb[k], page);
  }

  /** `get_frame` returns that frame and writes to no other. */
  lemma FrameIs(s: State, h: seq<nat>, page: nat, write: bool)
    requires Inv(s, h) && page < NUM_PAGES
    ensures CanEvict(s)
    ensures var (t, frame) := GetFrame(REPAIRED, s, page, write);
      && frame == FrameOf(s, page)
      && forall g: nat, o: nat :: g < NUM_FRAMES && g != frame && o < PAGE_FRAME_SIZE ==>
           At(t.mem, g, o) == At(s.mem, g, o)
  {
    hide Inv, GetFrame, Missed, CanEvict;
    HitFrame(s, h, page);
    InvWf(s, h);
    GetFrameIs(REPAIRED, s, page, write);
    var t := s.(tlb := Aged(s.tlb));
    if SlotOf(t.tlb, page, 0) < 0 {
      MissedMem(t, page, write);
    }
  }

  lemma MissedMem(s: State, page: nat, write: bool)
    requires Wf(s) && page < NUM_PAGES && CanEvict(s)
    ensures var (t, frame) := Missed(REPAIRED, s, page, write);
      && frame == FrameOf(s, page)
      && forall g: nat, o: nat :: g < NUM_FRAMES && g != frame && o < PAGE_FRAME_SIZE ==>
           At(t.mem, g, o) == At(s.mem, g, o)
  {
    hide Evicted, VictimPage, Added, At, CopyBlock;
    if !s.pt[page].valid && FreeFrame(s.used, 0) < 0 {
      EvictedMem(s);
    }
  }

  lemma EvictedMem(s: State)
    requires Wf(s) && SomeValid(s.pt)
    ensures Evicted(REPAIRED, s).1 == s.pt[VictimPage(s.pt)].frame && Evicted(REPAIRED, s).0.mem == s.mem
  {
  }

  /** The two bytes that an access can go to, after `get_frame`. */
  lemma BytesAre(s: State, h: seq<nat>, page: nat, write: bool, off: nat)
    requires Inv(s, h) && page < NUM_PAGES && off < PAGE_FRAME_SIZE
    ensures CanEvict(s)
    ensures var (t, frame) := GetFrame(REPAIRED, s, page, write);
      && frame == FrameOf(s, page)
      && t.mem[frame * PAGE_FRAME_SIZE + off] == Logical(s, page, off)
      && t.mem[page] == AtPageNumber(s, page)
      && (frame * PAGE_FRAME_SIZE + off == page <==> frame == 0 && off == page)
  {
    hide Inv, GetFrame, CanEvict;
    InvWf(s, h);
    FrameIs(s, h, page, write);
    GetFrameKeeps(s, page, write, h);
    var (t, frame) := GetFrame(REPAIRED, s, page, write);
    assert Logical(t, page, off) == Logical(s, page, off) && Logical(t, page, page) == Logical(s, page, page);
    assert At(t.mem, 0, page) == t.mem[page];
    if frame != 0 {
      assert At(t.mem, 0, page) == At(s.mem, 0, page);
    }
  }

  /** In every state the repaired code reaches, an access under any variant does what the repaired one does
      exactly when no guard of an unrepaired line holds. */
  lemma StepAgreesIff(v: Variant, s: State, h: seq<nat>, a: Command)
    requires Inv(s, h)
    ensures CanEvict(s)
    ensures var page := a.addr / PAGE_FRAME_SIZE;
      Step(v, s, a) == Step(REPAIRED, s, a) <==>
      && (v.dirtyOnTableHit || !LosesDirty(s, page, a.Write?))
      && (v.validOwnerOnly || !TakesStale(s, page))
      && (Physical(v, a) || IndexHarmless(s, a))
  {
    hide Inv, CanEvict, LosesDirty, TakesStale, GetFrame, Wf, FrameOf, AtPageNumber, Logical;
    var page, off := a.addr / PAGE_FRAME_SIZE, a.addr % PAGE_FRAME_SIZE;
    InvWf(s, h);
    GetFrameAgreesIff(v, s, h, page, a.Write?);
    BytesAre(s, h, page, a.Write?, off);
    if GetFrame(v, s, page, a.Write?) == GetFrame(REPAIRED, s, page, a.Write?) {
      var (t, frame) := GetFrame(REPAIRED, s, page, a.Write?);
      assert |t.mem| == PHYSICAL_MEMORY_SIZE by { WfMem(t); }
      if a.Write? {
        TwoPokes(t.mem, frame * PAGE_FRAME_SIZE + off, page, a.c);
      }
    } else {
      PokesKeepTables(v, s, a);
      PokesKeepTables(REPAIRED, s, a);
    }
  }

  lemma TwoPokes(mem: seq<char>, i: nat, j: nat, c: char)
    requires i < |mem| && j < |mem|
    ensures mem[i := c] == mem[j := c] <==> i == j || (mem[i] == c && mem[j] == c)
  {
    if i != j {
      assert mem[i := c][j] == mem[j] && mem[j := c][i] == mem[i];
      if mem[i] == c && mem[j] == c {
        assert mem[i := c] == mem && mem[j := c] == mem;
      }
    }
  }

  lemma WfMem(s: State)
    requires Wf(s)
    ensures |s.mem| == PHYSICAL_MEMORY_SIZE
  {
  }

  lemma PokesKeepTables(v: Variant, s: State, a: Command)
    requires Wf(s) && CanEvict(s)
    ensures Step(v, s, a).0.pt == GetFrame(v, s, a.addr / PAGE_FRAME_SIZE, a.Write?).0.pt
  {
    hide GetFrame;
  }

  // ---------------------------------------------------------------- runs that meet no guard

  /** No command of the run meets a guard of an unrepaired line of the variant. */
  ghost predicate Safe(v: Variant, store: seq<char>, cmds: seq<Command>)
    requires |store| == ADDRESS_SPACE
  {
    cmds != [] ==>
      var rest, a := cmds[..|cmds| - 1], cmds[|cmds| - 1];
      var r := Run(REPAIRED, Initial(store), rest);
      && Safe(v, store, rest) && r.Done? && CanEvict(r.s)
      && (v.dirtyOnTableHit || !LosesDirty(r.s, a.addr / PAGE_FRAME_SIZE, a.Write?))
      && (v.validOwnerOnly || !TakesStale(r.s, a.addr / PAGE_FRAME_SIZE))
      && (Physical(v, a) || IndexHarmless(r.s, a))
  }

  ghost predicate AgreesUpTo(v: Variant, store: seq<char>, cmds: seq<Command>)
    requires |store| == ADDRESS_SPACE
  {
    forall n :: 0 <= n <= |cmds| ==> Run(v, Initial(store), cmds[..n]) == Run(REPAIRED, Initial(store), cmds[..n])
  }

  /** A run of any variant, the code as written among them, is at every point a run of the repaired code, hence
      of a flat memory, exactly when it meets no guard. */
  lemma {:induction false} SafeIff(v: Variant, store: seq<char>, cmds: seq<Command>)
    requires |store| == ADDRESS_SPACE
    ensures Safe(v, store, cmds) <==> AgreesUpTo(v, store, cmds)
    decreases |cmds|
  {
    hide Inv, CanEvict, LosesDirty, TakesStale, IndexHarmless, Step, Initial, AgreesUpTo;
    if cmds == [] {
      AgreesAtStart(v, store, cmds);
    } else {
      var rest, a := cmds[..|cmds| - 1], cmds[|cmds| - 1];
      SafeIff(v, store, rest);
      AgreesSnoc(v, store, cmds);
      RunKeeps(store, rest);
      var s := Run(REPAIRED, Initial(store), rest).s;
      StepAgreesIff(v, s, Pages(rest), a);
      if Run(v, Initial(store), rest) == Run(REPAIRED, Initial(store), rest) {
        SnocAgrees(v, store, cmds);
      }
    }
  }

  /** After equal runs, one more command gives equal runs exactly when it does the same in both. */
  lemma SnocAgrees(v: Variant, store: seq<char>, cmds: seq<Command>)
    requires |store| == ADDRESS_SPACE && cmds != []
    requires var r := Run(REPAIRED, Initial(store), cmds[..|cmds| - 1]);
      r == Run(v, Initial(store), cmds[..|cmds| - 1]) && r.Done? && CanEvict(r.s)
    ensures var s, a := Run(REPAIRED, Initial(store), cmds[..|cmds| - 1]).s, cmds[|cmds| - 1];
      Run(v, Initial(store), cmds) == Run(REPAIRED, Initial(store), cmds) <==> Step(v, s, a) == Step(REPAIRED, s, a)
  {
    hide Step, CanEvict, Initial, Wf;
    var r := Run(REPAIRED, Initial(store), cmds[..|cmds| - 1]);
    var a := cmds[|cmds| - 1];
    var c, d := Step(v, r.s, a).1, Step(REPAIRED, r.s, a).1;
    assert (r.out + [c])[|r.out|] == c && (r.out + [d])[|r.out|] == d;
  }

  lemma AgreesAtStart(v: Variant, store: seq<char>, cmds: seq<Command>)
    requires |store| == ADDRESS_SPACE && cmds == []
    ensures AgreesUpTo(v, store, cmds)
  {
    hide Initial;
  }

  lemma AgreesSnoc(v: Variant, store: seq<char>, cmds: seq<Command>)
    requires |store| == ADDRESS_SPACE && cmds != []
    ensures var rest := cmds[..|cmds| - 1];
      AgreesUpTo(v, store, cmds) <==>
      && AgreesUpTo(v, store, rest) && Run(v, Initial(store), cmds) == Run(REPAIRED, Initial(store), cmds)
    ensures AgreesUpTo(v, store, cmds[..|cmds| - 1]) ==>
      var rest := cmds[..|cmds| - 1]; Run(v, Initial(store), rest) == Run(REPAIRED, Initial(store), rest)
  {
    hide Run, Initial;
    var n := |cmds| - 1;
    var rest := cmds[..n];
    assert cmds[..n + 1] == cmds && rest[..n] == rest;
    assert forall k :: 0 <= k <= n ==> rest[..k] == cmds[..k];
  }

  /** On a run that meets no guard, each read of the code under any variant returns the character last written. */
  lemma SafeRunAgrees(v: Variant, store: seq<char>, cmds: seq<Command>, i: nat)
    requires |store| == ADDRESS_SPACE && Safe(v, store, cmds) && i < |cmds|
    ensures var r := Run(v, Initial(store), cmds);
      && r == Run(REPAIRED, Initial(store), cmds) && r.Done?
      && (cmds[i].Read? ==> r.out[i] == Latest(store, cmds[..i], cmds[i].addr))
  {
    hide Safe, Run, Initial, Latest;
    SafeIff(v, store, cmds);
    assert cmds[..|cmds|] == cmds;
    FlatMemory(store, cmds, i);
  }
}
