/** The repaired paging code is a flat memory, its TLB is the most recent part of the
    resident pages, and its victims are the least recently used. */
module VmRefinement {
  import opened VmModel
  import opened VmInvariant

  // ---------------------------------------------------------------- one command

  /** The 65536 characters that a program can see. */
  ghost function Flat(s: State): (m: seq<char>)
    requires Wf(s)
    ensures |m| == ADDRESS_SPACE
  {
    seq(ADDRESS_SPACE, a requires 0 <= a < ADDRESS_SPACE => Logical(s, a / PAGE_FRAME_SIZE, a % PAGE_FRAME_SIZE))
  }

  lemma FlatSame(s: State, t: State)
    requires Wf(s) && Wf(t) && SameLogical(s, t)
    ensures Flat(s) == Flat(t)
  {
  }

  /** `t` shows a program `c` at one byte and otherwise what `s` does. */
  ghost predicate Poked(s: State, t: State, page: nat, off: nat, c: char)
    requires Wf(s) && Wf(t)
  {
    forall p: nat, o: nat :: p < NUM_PAGES && o < PAGE_FRAME_SIZE ==>
      Logical(t, p, o) == if p == page && o == off then c else Logical(s, p, o)
  }

  /** Writing one byte of a dirty page's frame changes that logical byte and no other. */
  lemma PokeKeeps(s: State, h: seq<nat>, page: nat, off: nat, c: char)
    requires Inv(s, h) && page < NUM_PAGES && off < PAGE_FRAME_SIZE && s.pt[page].valid && !s.pt[page].readonly
    ensures var t := s.(mem := s.mem[s.pt[page].frame * PAGE_FRAME_SIZE + off := c]);
      Inv(t, h) && Flat(t) == Flat(s)[page * PAGE_FRAME_SIZE + off := c]
  {
    hide Mapping, Recent, Mirrors, DistinctAges, AgesFollow, Clean, Poked, Flat;
    var t := s.(mem := s.mem[s.pt[page].frame * PAGE_FRAME_SIZE + off := c]);
    SameTables(s, t);
    PokeContent(s, page, off, c);
    FlatPoked(s, t, page, off, c);
  }

  lemma FlatPoked(s: State, t: State, page: nat, off: nat, c: char)
    requires Wf(s) && Wf(t) && page < NUM_PAGES && off < PAGE_FRAME_SIZE && Poked(s, t, page, off, c)
    ensures Flat(t) == Flat(s)[page * PAGE_FRAME_SIZE + off := c]
  {
    hide Wf, Logical;
    forall a | 0 <= a < ADDRESS_SPACE
      ensures Flat(t)[a] == Flat(s)[page * PAGE_FRAME_SIZE + off := c][a]
    {
      assert a == a / PAGE_FRAME_SIZE * PAGE_FRAME_SIZE + a % PAGE_FRAME_SIZE;
    }
  }

  lemma PokeContent(s: State, page: nat, off: nat, c: char)
    requires Wf(s) && Mapping(s, -1) && Clean(s)
    requires page < NUM_PAGES && off < PAGE_FRAME_SIZE && s.pt[page].valid && !s.pt[page].readonly
    ensures var t := s.(mem := s.mem[s.pt[page].frame * PAGE_FRAME_SIZE + off := c]);
      Clean(t) && Poked(s, t, page, off, c)
  {
    var frame := s.pt[page].frame;
    var t := s.(mem := s.mem[frame * PAGE_FRAME_SIZE + off := c]);
    assert forall g: nat, o: nat :: g < NUM_FRAMES && o < PAGE_FRAME_SIZE ==>
      At(t.mem, g, o) == if g == frame && o == off then c else At(s.mem, g, o);
    forall p | 0 <= p < NUM_PAGES && s.pt[p].valid && p != page ensures s.pt[p].frame != frame {
      if p < page {} else {}
    }
  }

  lemma SameTables(s: State, t: State)
    requires Wf(s) && Wf(t) && Mapping(s, -1) && Mirrors(s, 0) && Recent(s, 0, -1, false)
    requires s.tlb == t.tlb && s.pt == t.pt && s.used == t.used
    ensures Mapping(t, -1) && Mirrors(t, 0) && Recent(t, 0, -1, false)
  {
  }

  lemma InvWf(s: State, h: seq<nat>)
    requires Inv(s, h)
    ensures Wf(s) && CanEvict(s)
  {
    InvCanEvict(s, -1);
  }

  lemma ReadRefines(s: State, h: seq<nat>, addr: nat)
    requires Inv(s, h) && CanEvict(s) && addr < ADDRESS_SPACE
    ensures var (t, c) := Step(REPAIRED, s, Read(addr));
      Inv(t, h + [addr / PAGE_FRAME_SIZE]) && c == Flat(s)[addr] && Flat(t) == Flat(s)
  {
    hide Inv, SameLogical, Flat, GetFrame, CanEvict, Wf;
    var page, off := addr / PAGE_FRAME_SIZE, addr % PAGE_FRAME_SIZE;
    InvWf(s, h);
    GetFrameKeeps(s, page, false, h);
    var (t, frame) := GetFrame(REPAIRED, s, page, false);
    FlatSame(s, t);
    FlatAt(t, page, off);
  }

  lemma WriteRefines(s: State, h: seq<nat>, addr: nat, c: char)
    requires Inv(s, h) && CanEvict(s) && addr < ADDRESS_SPACE
    ensures var (t, d) := Step(REPAIRED, s, Write(addr, c));
      Inv(t, h + [addr / PAGE_FRAME_SIZE]) && c == d && Flat(t) == Flat(s)[addr := c]
  {
    hide Inv, SameLogical, Flat, GetFrame, CanEvict, Wf;
    var page, off := addr / PAGE_FRAME_SIZE, addr % PAGE_FRAME_SIZE;
    InvWf(s, h);
    GetFrameKeeps(s, page, true, h);
    var (t, frame) := GetFrame(REPAIRED, s, page, true);
    FlatSame(s, t);
    PokeKeeps(t, h + [page], page, off, c);
  }

  /** One command refines one access to the flat memory. */
  lemma StepRefines(s: State, h: seq<nat>, a: Command)
    requires Inv(s, h)
    ensures CanEvict(s)
    ensures var (t, c) := Step(REPAIRED, s, a);
      && Inv(t, h + [a.addr / PAGE_FRAME_SIZE])
      && (match a
          case Read(addr) => c == Flat(s)[addr] && Flat(t) == Flat(s)
          case Write(addr, d) => c == d && Flat(t) == Flat(s)[addr := d])
  {
    hide Inv, Flat, Step, CanEvict, Wf;
    InvWf(s, h);
    match a
    case Read(addr) => ReadRefines(s, h, addr);
    case Write(addr, c) => WriteRefines(s, h, addr, c);
  }

  lemma FlatAt(s: State, page: nat, off: nat)
    requires Wf(s) && page < NUM_PAGES && off < PAGE_FRAME_SIZE && s.pt[page].valid
    ensures Flat(s)[page * PAGE_FRAME_SIZE + off] == s.mem[s.pt[page].frame * PAGE_FRAME_SIZE + off]
  {
    var a := page * PAGE_FRAME_SIZE + off;
    assert a / PAGE_FRAME_SIZE == page && a % PAGE_FRAME_SIZE == off;
  }

  // ---------------------------------------------------------------- whole runs

  /** The state and outputs of a run; `Stuck` where the code would look for a victim among no pages. */
  datatype Outcome = Done(s: State, out: seq<char>) | Stuck

  ghost function Run(v: Variant, s: State, cmds: seq<Command>): (r: Outcome)
    requires Wf(s)
    ensures r.Done? ==> Wf(r.s) && |r.out| == |cmds|
  {
    if cmds == [] then Done(s, [])
    else
      match Run(v, s, cmds[..|cmds| - 1])
      case Stuck => Stuck
      case Done(t, out) =>
        if !CanEvict(t) then Stuck
        else var (u, c) := Step(v, t, cmds[|cmds| - 1]); Done(u, out + [c])
  }

  /** The last character written to `addr`, or the initial one. */
  ghost function Latest(store: seq<char>, cmds: seq<Command>, addr: nat): char
    requires addr < |store|
  {
    if cmds == [] then store[addr]
    else
      var a := cmds[|cmds| - 1];
      if a.Write? && a.addr == addr then a.c else Latest(store, cmds[..|cmds| - 1], addr)
  }

  ghost function Pages(cmds: seq<Command>): (h: seq<nat>)
    ensures |h| == |cmds|
  {
    if cmds == [] then [] else Pages(cmds[..|cmds| - 1]) + [cmds[|cmds| - 1].addr / PAGE_FRAME_SIZE]
  }

  lemma InitialFlat(store: seq<char>)
    requires |store| == ADDRESS_SPACE
    ensures Flat(Initial(store)) == store
  {
  }

  /** Every run goes through, keeps the invariant, and leaves at each address what was last written. */
  lemma {:induction false} RunKeeps(store: seq<char>, cmds: seq<Command>)
    requires |store| == ADDRESS_SPACE
    ensures var r := Run(REPAIRED, Initial(store), cmds);
      && r.Done? && Inv(r.s, Pages(cmds))
      && forall addr :: 0 <= addr < ADDRESS_SPACE ==> Flat(r.s)[addr] == Latest(store, cmds, addr)
  {
    hide Inv, Flat, Step, CanEvict, Initial;
    InitialFlat(store);
    if cmds == [] {
      InitialInv(store);
    } else {
      var rest, a := cmds[..|cmds| - 1], cmds[|cmds| - 1];
      RunKeeps(store, rest);
      var t := Run(REPAIRED, Initial(store), rest).s;
      StepRefines(t, Pages(rest), a);
    }
  }

  lemma {:induction false} RunPrefix(v: Variant, s: State, cmds: seq<Command>, n: nat)
    requires Wf(s) && n <= |cmds| && Run(v, s, cmds).Done?
    ensures Run(v, s, cmds[..n]).Done? && Run(v, s, cmds[..n]).out == Run(v, s, cmds).out[..n]
  {
    hide Step, CanEvict, Wf;
    if n < |cmds| {
      assert cmds[..|cmds| - 1][..n] == cmds[..n];
      RunPrefix(v, s, cmds[..|cmds| - 1], n);
    } else {
      assert cmds[..n] == cmds;
    }
  }

  /** Flat-memory refinement: over every run, each read returns the character last written to its
      address, or the backing store's first content, whatever was evicted and reloaded in between. */
  lemma FlatMemory(store: seq<char>, cmds: seq<Command>, i: nat)
    requires |store| == ADDRESS_SPACE && i < |cmds|
    ensures var r := Run(REPAIRED, Initial(store), cmds);
      && r.Done?
      && (cmds[i].Read? ==> r.out[i] == Latest(store, cmds[..i], cmds[i].addr))
      && (cmds[i].Write? ==> r.out[i] == cmds[i].c)
  {
    hide Inv, Flat, Step, CanEvict, Initial, Wf;
    InitialFlat(store);
    var s := Initial(store);
    RunKeeps(store, cmds);
    RunPrefix(REPAIRED, s, cmds, i + 1);
    RunKeeps(store, cmds[..i]);
    var t := Run(REPAIRED, s, cmds[..i]).s;
    StepRefines(t, Pages(cmds[..i]), cmds[i]);
    assert cmds[..i + 1][..i] == cmds[..i];
    assert Run(REPAIRED, s, cmds).out[i] == Run(REPAIRED, s, cmds).out[..i + 1][i];
  }

  // ---------------------------------------------------------------- replacement

  /** The page evicted on a fault is the only owner of its frame and the least recently used clean
      page, or, when every resident page is dirty, the least recently used page. */
  lemma VictimIsLeastRecent(s: State, h: seq<nat>, q: nat)
    requires Inv(s, h) && SomeValid(s.pt)
    requires q < NUM_PAGES && s.pt[q].valid && q != VictimPage(s.pt)
    ensures var victim := VictimPage(s.pt);
      && s.pt[victim].frame != s.pt[q].frame
      && victim in h && q in h
      && (s.pt[victim].readonly == s.pt[q].readonly ==> SinceUse(h, victim) > SinceUse(h, q))
      && (s.pt[q].readonly ==> s.pt[victim].readonly)
  {
    hide Recent, Mirrors, Clean;
    var victim := VictimPage(s.pt);
    assert s.pt[victim].frame != s.pt[q].frame by {
      if q < victim {} else {}
    }
  }

  /** The page is resident, and dirty if it is written or was dirty; other pages stay as they are, or leave. */
  ghost predicate DirtyAfter(s: seq<PageEntry>, t: seq<PageEntry>, page: nat, write: bool)
    requires |s| == |t| && page < |t|
  {
    && t[page].valid && (t[page].readonly <==> !write && (s[page].valid ==> s[page].readonly))
    && forall q :: 0 <= q < |t| && q != page && t[q].valid ==> s[q].valid && t[q].readonly == s[q].readonly
  }

  lemma DirtyTouched(s: seq<PageEntry>, t: seq<PageEntry>, page: nat, write: bool)
    requires |s| == |t| && page < |t| && DirtyAfter(s, t, page, write)
    ensures DirtyAfter(s, Touched(t, page), page, write)
  {
  }

  lemma DirtyMissed(s: State, page: nat, write: bool)
    requires Wf(s) && page < NUM_PAGES && CanEvict(s)
    ensures DirtyAfter(s.pt, Missed(REPAIRED, s, page, write).0.pt, page, write)
  {
    hide VictimPage, CopyBlock, Added, CanEvict;
  }

  lemma DirtyHit(s: State, k: nat, page: nat, write: bool)
    requires Wf(s) && page < NUM_PAGES && k < |s.tlb| && Holds(s.tlb[k], page) && s.pt[page].valid
    ensures DirtyAfter(s.pt, Hit(s, k, page, write).0.pt, page, write)
  {
  }

  lemma ServedIsValid(s: State, page: nat)
    requires Wf(s) && Mirrors(s, 0) && page < NUM_PAGES
    ensures SlotOf(Aged(s.tlb), page, 0) >= 0 ==> s.pt[page].valid
  {
    var k := SlotOf(Aged(s.tlb), page, 0);
    assert k >= 0 ==> s.tlb[k].page == page && s.tlb[k].frame >= 0;
  }

  /** A write, and nothing else, makes a page dirty; a read brings it in clean; no other bit changes. */
  lemma DirtyStep(s: State, h: seq<nat>, page: nat, write: bool)
    requires Inv(s, h) && page < NUM_PAGES
    ensures CanEvict(s)
    ensures var t := GetFrame(REPAIRED, s, page, write).0;
      && t.pt[page].valid && (t.pt[page].readonly <==> !write && (s.pt[page].valid ==> s.pt[page].readonly))
      && forall q :: 0 <= q < NUM_PAGES && q != page && t.pt[q].valid ==>
           s.pt[q].valid && t.pt[q].readonly == s.pt[q].readonly
  {
    hide Mapping, Mirrors, Recent, Clean, AgesFollow, DistinctAges, Missed, Hit, CanEvict, Touched;
    InvWf(s, h);
    ServedIsValid(s, page);
    var s1 := s.(tlb := Aged(s.tlb));
    AgedCanEvict(s);
    var k := SlotOf(s1.tlb, page, 0);
    if k >= 0 {
      DirtyHit(s1, k, page, write);
      DirtyTouched(s.pt, Hit(s1, k, page, write).0.pt, page, write);
    } else {
      DirtyMissed(s1, page, write);
      DirtyTouched(s.pt, Missed(REPAIRED, s1, page, write).0.pt, page, write);
    }
  }

  lemma AgedCanEvict(s: State)
    requires Wf(s) && CanEvict(s)
    ensures Wf(s.(tlb := Aged(s.tlb))) && CanEvict(s.(tlb := Aged(s.tlb)))
  {
  }

  /** The page was written since it last came into memory. */
  ghost predicate WrittenSince(store: seq<char>, cmds: seq<Command>, page: nat)
    requires |store| == ADDRESS_SPACE && page < NUM_PAGES
  {
    cmds != [] &&
    var rest, a := cmds[..|cmds| - 1], cmds[|cmds| - 1];
    if a.addr / PAGE_FRAME_SIZE != page then WrittenSince(store, rest, page)
    else
      var r := Run(REPAIRED, Initial(store), rest);
      a.Write? || (r.Done? && r.s.pt[page].valid && WrittenSince(store, rest, page))
  }

  /** In every run: a resident page is dirty exactly when it was written since it came in. */
  lemma {:induction false} DirtyIsWritten(store: seq<char>, cmds: seq<Command>, page: nat)
    requires |store| == ADDRESS_SPACE && page < NUM_PAGES
    ensures var r := Run(REPAIRED, Initial(store), cmds);
      r.Done? && (r.s.pt[page].valid ==> (!r.s.pt[page].readonly <==> WrittenSince(store, cmds, page)))
  {
    hide Inv, Flat, Step, GetFrame, CanEvict, Initial;
    RunKeeps(store, cmds);
    if cmds == [] {
      NoneResident(store, page);
    } else {
      var rest, a := cmds[..|cmds| - 1], cmds[|cmds| - 1];
      RunKeeps(store, rest);
      DirtyIsWritten(store, rest, page);
      var s := Run(REPAIRED, Initial(store), rest).s;
      DirtyStep(s, Pages(rest), a.addr / PAGE_FRAME_SIZE, a.Write?);
      SamePt(s, a);
    }
  }

  lemma NoneResident(store: seq<char>, page: nat)
    requires |store| == ADDRESS_SPACE && page < NUM_PAGES
    ensures !Initial(store).pt[page].valid
  {
  }

  lemma SamePt(s: State, a: Command)
    requires Wf(s) && CanEvict(s)
    ensures Step(REPAIRED, s, a).0.pt == GetFrame(REPAIRED, s, a.addr / PAGE_FRAME_SIZE, a.Write?).0.pt
  {
    hide GetFrame, CanEvict;
  }

  /** The scan for the entry to replace: the oldest one; among those of one age a dirty one; among these the first. */
  lemma {:induction false} LruSlotIs(tlb: seq<TlbEntry>, n: nat)
    requires 0 < n <= |tlb| && forall k :: 0 <= k < n ==> tlb[k].frame >= 0
    ensures var r := LruSlot(tlb, n);
      && r < n
      && forall k :: 0 <= k < n && k != r ==>
           || tlb[k].counter < tlb[r].counter
           || (tlb[k].counter == tlb[r].counter && tlb[k].readonly && !tlb[r].readonly)
           || (tlb[k].counter == tlb[r].counter && tlb[k].readonly == tlb[r].readonly && r < k)
  {
    if n > 1 {
      LruSlotIs(tlb, n - 1);
    }
  }

  /** The pages mapped by the first `n` slots. */
  ghost function TlbPages(tlb: seq<TlbEntry>, n: nat): set<nat>
    requires n <= |tlb|
  {
    if n == 0 then {}
    else TlbPages(tlb, n - 1) + if tlb[n - 1].frame >= 0 then {tlb[n - 1].page} else {}
  }

  ghost function Resident(s: State): set<nat> {
    set p: nat | p < |s.pt| && s.pt[p].valid
  }

  lemma {:induction false} TlbPagesAre(tlb: seq<TlbEntry>, n: nat, q: nat)
    requires n <= |tlb|
    ensures q in TlbPages(tlb, n) <==> exists k :: 0 <= k < n && Holds(tlb[k], q)
  {
    if n > 0 {
      TlbPagesAre(tlb, n - 1, q);
      assert q == tlb[n - 1].page && tlb[n - 1].frame >= 0 ==> Holds(tlb[n - 1], q);
    }
  }

  lemma {:induction false} TlbPagesSize(tlb: seq<TlbEntry>, n: nat)
    requires n <= |tlb|
    requires forall j, k :: 0 <= j < k < n && tlb[j].frame >= 0 && tlb[k].frame >= 0 ==> tlb[j].page != tlb[k].page
    ensures |TlbPages(tlb, n)| <= n
    ensures (forall k :: 0 <= k < n ==> tlb[k].frame >= 0) ==> |TlbPages(tlb, n)| == n
  {
    if n > 0 {
      TlbPagesSize(tlb, n - 1);
      TlbPagesAre(tlb, n - 1, tlb[n - 1].page);
    }
  }

  /** The TLB holds the min(TLB size, resident) resident pages used most recently, no two of
      resident pages have the same age, and the TLB's counters are the page table's. */
  lemma TlbIsMostRecent(s: State, h: seq<nat>)
    requires Inv(s, h)
    ensures var pages := TlbPages(s.tlb, TLB_NUM_ENTRIES);
      && pages <= Resident(s)
      && |pages| == (if |Resident(s)| < TLB_NUM_ENTRIES then |Resident(s)| else TLB_NUM_ENTRIES)
      && (forall p :: p in Resident(s) ==> p in h)
      && (forall p, q :: p in pages && q in Resident(s) - pages ==> SinceUse(h, p) < SinceUse(h, q))
      && (forall p, q :: p in Resident(s) && q in Resident(s) && p != q ==> SinceUse(h, p) != SinceUse(h, q))
    ensures forall k :: 0 <= k < TLB_NUM_ENTRIES && s.tlb[k].frame >= 0 ==>
      s.tlb[k].page in h && s.tlb[k].counter == SinceUse(h, s.tlb[k].page)
  {
    hide Mapping, Clean, Mirrors, Recent;
    TlbPagesResident(s);
    TlbPagesMostRecent(s);
  }

  lemma TlbPagesResident(s: State)
    requires Wf(s) && Mirrors(s, 0)
    ensures TlbPages(s.tlb, TLB_NUM_ENTRIES) <= Resident(s)
    ensures forall k :: 0 <= k < |s.tlb| && s.tlb[k].frame >= 0 ==>
      s.tlb[k].page in Resident(s) && s.tlb[k].counter == s.pt[s.tlb[k].page].counter
  {
    forall q | q in TlbPages(s.tlb, TLB_NUM_ENTRIES) ensures q in Resident(s) {
      TlbPagesAre(s.tlb, TLB_NUM_ENTRIES, q);
    }
  }

  lemma TlbPagesMostRecent(s: State)
    requires Wf(s) && Mirrors(s, 0) && Recent(s, 0, -1, false)
    ensures var pages := TlbPages(s.tlb, TLB_NUM_ENTRIES);
      && |pages| == (if |Resident(s)| < TLB_NUM_ENTRIES then |Resident(s)| else TLB_NUM_ENTRIES)
      && (forall p, q :: p in pages && q in Resident(s) - pages ==>
           p < NUM_PAGES && s.pt[p].counter < s.pt[q].counter)
  {
    var pages := TlbPages(s.tlb, TLB_NUM_ENTRIES);
    TlbPagesResident(s);
    TlbPagesSize(s.tlb, TLB_NUM_ENTRIES);
    SubsetSize(pages, Resident(s));
    hide TlbPages, Mirrors, Recent, Resident;
    forall q | q in Resident(s) - pages
      ensures |pages| == TLB_NUM_ENTRIES && forall p :: p in pages ==> s.pt[p].counter < s.pt[q].counter
    {
      LeftOut(s, q);
    }
    assert Resident(s) - pages == {} ==> pages == Resident(s);
  }

  lemma LeftOut(s: State, q: nat)
    requires Wf(s) && Mirrors(s, 0) && Recent(s, 0, -1, false)
    requires q in Resident(s) - TlbPages(s.tlb, TLB_NUM_ENTRIES)
    ensures |TlbPages(s.tlb, TLB_NUM_ENTRIES)| == TLB_NUM_ENTRIES
    ensures forall p :: p in TlbPages(s.tlb, TLB_NUM_ENTRIES) ==> p < NUM_PAGES && s.pt[p].counter < s.pt[q].counter
  {
    TlbPagesAre(s.tlb, TLB_NUM_ENTRIES, q);
    TlbPagesSize(s.tlb, TLB_NUM_ENTRIES);
    forall p | p in TlbPages(s.tlb, TLB_NUM_ENTRIES) ensures p < NUM_PAGES && s.pt[p].counter < s.pt[q].counter {
      TlbPagesAre(s.tlb, TLB_NUM_ENTRIES, p);
    }
  }

  lemma SubsetSize(a: set<nat>, b: set<nat>)
    requires a <= b
    ensures |a| <= |b|
  {
    assert a + (b - a) == b;
  }
}
