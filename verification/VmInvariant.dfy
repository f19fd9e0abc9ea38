/** What every access keeps: the mapping between pages and frames, the TLB as the
    most recent part of the page table, ages as access history, and clean pages
    equal to the backing store. */
module VmInvariant {
  import opened VmModel

  // ---------------------------------------------------------------- the invariant

  ghost predicate Owned(pt: seq<PageEntry>, frame: nat) {
    exists p :: 0 <= p < |pt| && pt[p].valid && pt[p].frame == frame
  }

  /** Valid pages and used frames are in bijection, but for the frame `hole`,
      which no page owns. */
  ghost predicate Mapping(s: State, hole: int)
    requires Wf(s)
  {
    && (forall p :: 0 <= p < |s.pt| && s.pt[p].valid ==> s.pt[p].frame != hole && s.used[s.pt[p].frame])
    && (forall p, q :: 0 <= p < q < |s.pt| && s.pt[p].valid && s.pt[q].valid ==> s.pt[p].frame != s.pt[q].frame)
    && (forall f :: 0 <= f < |s.used| && s.used[f] && f != hole ==> Owned(s.pt, f))
  }

  /** Each TLB entry repeats its page's table entry, its counter being `lead` ahead. */
  ghost predicate Mirrors(s: State, lead: nat)
    requires Wf(s)
  {
    && (forall k :: 0 <= k < |s.tlb| && s.tlb[k].frame >= 0 ==>
          var e, d := s.tlb[k], s.pt[s.tlb[k].page];
          d.valid && e.frame == d.frame && e.readonly == d.readonly && e.counter == d.counter + lead)
    && (forall j, k :: 0 <= j < k < |s.tlb| && s.tlb[j].frame >= 0 && s.tlb[k].frame >= 0 ==>
          s.tlb[j].page != s.tlb[k].page)
  }

  ghost predicate InTlb(tlb: seq<TlbEntry>, page: nat) {
    exists k :: 0 <= k < |tlb| && Holds(tlb[k], page)
  }

  /** A valid page other than `page` is missing from the TLB only if every TLB entry was used
      after it, and no slot is empty (at most one, when `spare`). */
  ghost predicate Recent(s: State, lead: nat, page: int, spare: bool)
    requires Wf(s)
  {
    forall q :: 0 <= q < |s.pt| && s.pt[q].valid && q != page && !InTlb(s.tlb, q) ==>
      && (forall k :: 0 <= k < |s.tlb| && s.tlb[k].frame >= 0 ==> s.tlb[k].counter < s.pt[q].counter + lead)
      && (forall k :: 0 <= k < |s.tlb| && s.tlb[k].frame < 0 ==> spare)
      && (forall j, k :: 0 <= j < k < |s.tlb| ==> s.tlb[j].frame >= 0 || s.tlb[k].frame >= 0)
  }

  /** No two valid pages other than `page` have the same age. */
  ghost predicate DistinctAges(pt: seq<PageEntry>, page: int) {
    forall p, q :: 0 <= p < q < |pt| && pt[p].valid && pt[q].valid && p != page && q != page ==>
      pt[p].counter != pt[q].counter
  }

  /** How many accesses the history `h` holds after the last one to `page`. */
  ghost function SinceUse(h: seq<nat>, page: nat): nat
    requires page in h
  {
    if h[|h| - 1] == page then 0
    else
      assert h == h[..|h| - 1] + [h[|h| - 1]];
      1 + SinceUse(h[..|h| - 1], page)
  }

  /** Ages are accesses since last use; `page` is exempt. */
  ghost predicate AgesFollow(pt: seq<PageEntry>, h: seq<nat>, page: int) {
    forall p :: 0 <= p < |pt| && pt[p].valid && p != page ==> p in h && pt[p].counter == SinceUse(h, p)
  }

  /** The frame of a page that was only read equals its copy in the backing store. */
  ghost predicate Clean(s: State)
    requires Wf(s)
  {
    forall p, o: nat :: 0 <= p < |s.pt| && s.pt[p].valid && s.pt[p].readonly && o < PAGE_FRAME_SIZE ==>
      At(s.mem, s.pt[p].frame, o) == At(s.store, p, o)
  }

  ghost predicate Inv(s: State, h: seq<nat>) {
    && Wf(s)
    && Mapping(s, -1)
    && Mirrors(s, 0)
    && Recent(s, 0, -1, false)
    && DistinctAges(s.pt, -1)
    && AgesFollow(s.pt, h, -1)
    && Clean(s)
  }

  /** The character that the address space holds at offset `o` of page `p`. */
  ghost function Logical(s: State, p: nat, o: nat): char
    requires Wf(s) && p < NUM_PAGES && o < PAGE_FRAME_SIZE
  {
    if s.pt[p].valid then At(s.mem, s.pt[p].frame, o) else At(s.store, p, o)
  }

  ghost predicate SameLogical(s: State, t: State)
    requires Wf(s) && Wf(t)
  {
    forall p: nat, o: nat :: p < NUM_PAGES && o < PAGE_FRAME_SIZE ==> Logical(s, p, o) == Logical(t, p, o)
  }

  lemma InitialInv(store: seq<char>)
    requires |store| == ADDRESS_SPACE
    ensures Inv(Initial(store), [])
  {
  }

  /** With every frame in use there is a page to evict. */
  lemma {:induction false} InvCanEvict(s: State, hole: int)
    requires Wf(s) && Mapping(s, hole) && hole < 0
    ensures CanEvict(s)
  {
    if forall f :: 0 <= f < |s.used| ==> s.used[f] {
      assert s.used[0];
      assert Owned(s.pt, 0);
    }
  }

  // ---------------------------------------------------------------- the owner of a frame

  /** In the repaired code the search returns the one owner of a frame. */
  lemma FindPageIsOwner(s: State, page: nat)
    requires Wf(s) && Mapping(s, -1) && page < NUM_PAGES && s.pt[page].valid
    ensures FindPage(REPAIRED, s.pt, s.pt[page].frame, 0) == page
  {
    var r := FindPage(REPAIRED, s.pt, s.pt[page].frame, 0);
    assert Owns(REPAIRED, s.pt[page], s.pt[page].frame);
    assert r >= 0 && s.pt[r].valid && s.pt[r].frame == s.pt[page].frame;
  }

  /** The page given up by `Evicted`: the owner of the victim's frame. */
  lemma EvictedPage(s: State, lead: nat)
    requires Wf(s) && Mapping(s, -1) && Mirrors(s, lead) && SomeValid(s.pt)
    ensures var page := VictimPage(s.pt);
      var frame := s.pt[page].frame;
      var k := SlotOfFrame(s.tlb, frame, 0);
      && (k >= 0 ==> s.tlb[k].page == page)
      && (k < 0 ==> FindPage(REPAIRED, s.pt, frame, 0) == page && !InTlb(s.tlb, page))
  {
    FindPageIsOwner(s, VictimPage(s.pt));
  }

  // ---------------------------------------------------------------- changes that move no page

  ghost predicate SameMap(old_pt: seq<PageEntry>, pt: seq<PageEntry>) {
    && |pt| == |old_pt|
    && forall p :: 0 <= p < |pt| ==>
         && pt[p].valid == old_pt[p].valid && pt[p].frame == old_pt[p].frame
         && (pt[p].readonly ==> old_pt[p].readonly)
  }

  lemma SameMapKeeps(s: State, t: State)
    requires Wf(s) && Wf(t) && Mapping(s, -1) && Clean(s)
    requires s.used == t.used && s.mem == t.mem && s.store == t.store && SameMap(s.pt, t.pt)
    ensures Mapping(t, -1) && Clean(t) && SameLogical(s, t)
  {
    forall f | 0 <= f < |t.used| && t.used[f] ensures Owned(t.pt, f) {
      var p :| 0 <= p < |s.pt| && s.pt[p].valid && s.pt[p].frame == f;
      assert t.pt[p].frame == f;
    }
  }

  /** A page stays in the TLB when its slot does. */
  lemma InTlbMoves(old_tlb: seq<TlbEntry>, tlb: seq<TlbEntry>, page: nat)
    requires |tlb| == |old_tlb| && InTlb(old_tlb, page)
    requires forall k :: 0 <= k < |tlb| && Holds(old_tlb[k], page) ==> Holds(tlb[k], page)
    ensures InTlb(tlb, page)
  {
    var k :| 0 <= k < |old_tlb| && Holds(old_tlb[k], page);
    assert Holds(tlb[k], page);
  }

  // ---------------------------------------------------------------- eviction

  /** The state that `Evicted` leaves, by what it gave up. */
  ghost predicate Forgets(s: State, t: State, page: nat, frame: nat)
    requires Wf(s) && Wf(t) && page < NUM_PAGES && frame < NUM_FRAMES
  {
    && s.pt[page].valid && s.pt[page].frame == frame
    && t.pt == s.pt[page := s.pt[page].(valid := false)]
    && t.used == s.used && t.mem == s.mem
    && |t.tlb| == |s.tlb|
    && (forall k :: 0 <= k < |t.tlb| ==>
          t.tlb[k] == if Holds(s.tlb[k], page) then s.tlb[k].(frame := -1) else s.tlb[k])
    && t.store == (if s.pt[page].readonly then s.store else CopyBlock(s.store, page, s.mem, frame))
  }

  lemma EvictedForgets(s: State)
    requires Wf(s) && Mapping(s, -1) && Mirrors(s, 1) && SomeValid(s.pt)
    ensures var (t, frame) := Evicted(REPAIRED, s); Forgets(s, t, VictimPage(s.pt), frame)
  {
    EvictedPage(s, 1);
  }

  lemma ForgetsMapping(s: State, t: State, page: nat, frame: nat)
    requires Wf(s) && Wf(t) && page < NUM_PAGES && frame < NUM_FRAMES && Forgets(s, t, page, frame)
    requires Mapping(s, -1)
    ensures Mapping(t, frame) && t.used[frame]
  {
    forall f | 0 <= f < |t.used| && t.used[f] && f != frame ensures Owned(t.pt, f) {
      var p :| 0 <= p < |s.pt| && s.pt[p].valid && s.pt[p].frame == f;
      assert t.pt[p].valid;
    }
  }

  lemma ForgetsContent(s: State, t: State, page: nat, frame: nat)
    requires Wf(s) && Wf(t) && page < NUM_PAGES && frame < NUM_FRAMES && Forgets(s, t, page, frame)
    requires Clean(s)
    ensures Clean(t) && SameLogical(s, t)
  {
  }

  lemma ForgetsTlb(s: State, t: State, page: nat, frame: nat)
    requires Wf(s) && Wf(t) && page < NUM_PAGES && frame < NUM_FRAMES && Forgets(s, t, page, frame)
    requires Mirrors(s, 1) && Recent(s, 1, -1, false)
    ensures Mirrors(t, 1) && Recent(t, 1, -1, true)
  {
    forall q | 0 <= q < |t.pt| && t.pt[q].valid && InTlb(s.tlb, q) ensures InTlb(t.tlb, q) {
      InTlbMoves(s.tlb, t.tlb, q);
    }
  }

  /** What holds between the TLB's answer and the rest of `get_frame`. */
  ghost predicate Mid(s: State, h: seq<nat>)
    requires Wf(s)
  {
    && Mapping(s, -1) && Mirrors(s, 1) && Recent(s, 1, -1, false) && Clean(s)
    && DistinctAges(s.pt, -1) && AgesFollow(s.pt, h, -1)
  }

  /** Eviction frees the victim's frame without a visible change: no write is lost. */
  lemma EvictedKeeps(s: State, h: seq<nat>)
    requires Wf(s) && Mid(s, h) && SomeValid(s.pt)
    ensures var (t, frame) := Evicted(REPAIRED, s);
      && Mapping(t, frame) && Clean(t) && SameLogical(s, t) && Mirrors(t, 1) && Recent(t, 1, -1, true)
      && DistinctAges(t.pt, -1) && AgesFollow(t.pt, h, -1)
      && (forall p :: 0 <= p < NUM_PAGES && !s.pt[p].valid ==> !t.pt[p].valid)
  {
    hide Mapping, Clean, SameLogical, Mirrors, Recent;
    EvictedForgets(s);
    var (t, frame) := Evicted(REPAIRED, s);
    var victim := VictimPage(s.pt);
    ForgetsMapping(s, t, victim, frame);
    ForgetsContent(s, t, victim, frame);
    ForgetsTlb(s, t, victim, frame);
  }

  // ---------------------------------------------------------------- page-in

  lemma PagedInMapping(s: State, page: nat, frame: nat, write: bool)
    requires Wf(s) && Mapping(s, frame) && page < NUM_PAGES && frame < NUM_FRAMES && !s.pt[page].valid
    ensures Mapping(PagedIn(s, page, frame, write), -1)
  {
    var t := PagedIn(s, page, frame, write);
    forall f | 0 <= f < |t.used| && t.used[f] ensures Owned(t.pt, f) {
      if f == frame {
        assert t.pt[page].frame == f;
      } else {
        var p :| 0 <= p < |s.pt| && s.pt[p].valid && s.pt[p].frame == f;
        assert t.pt[p].frame == f;
      }
    }
  }

  lemma PagedInContent(s: State, page: nat, frame: nat, write: bool)
    requires Wf(s) && Mapping(s, frame) && Clean(s) && page < NUM_PAGES && frame < NUM_FRAMES && !s.pt[page].valid
    ensures Clean(PagedIn(s, page, frame, write)) && SameLogical(s, PagedIn(s, page, frame, write))
  {
  }

  lemma PagedInTlb(s: State, page: nat, frame: nat, write: bool)
    requires Wf(s) && Mirrors(s, 1) && Recent(s, 1, -1, true)
    requires page < NUM_PAGES && frame < NUM_FRAMES && !s.pt[page].valid
    ensures var t := PagedIn(s, page, frame, write);
      Mirrors(t, 1) && Recent(t, 1, page, true) && !InTlb(t.tlb, page)
  {
  }

  /** The page just served: mapped to `frame`, and dirty if it was written. */
  ghost predicate Serves(t: State, page: nat, frame: nat, write: bool)
    requires Wf(t) && page < NUM_PAGES
  {
    t.pt[page].valid && t.pt[page].frame == frame && (write ==> !t.pt[page].readonly)
  }

  /** What a TLB miss has established before the TLB entry is added. */
  ghost predicate Ready(s: State, t: State, page: nat, frame: nat, write: bool, h: seq<nat>)
    requires Wf(s) && Wf(t) && page < NUM_PAGES
  {
    && Mapping(t, -1) && Clean(t) && SameLogical(s, t)
    && Mirrors(t, 1) && Recent(t, 1, page, true) && !InTlb(t.tlb, page)
    && DistinctAges(t.pt, page) && AgesFollow(t.pt, h, page)
    && Serves(t, page, frame, write)
  }

  lemma PagedInReady(s: State, t: State, page: nat, frame: nat, write: bool, h: seq<nat>)
    requires Wf(s) && Wf(t) && page < NUM_PAGES && frame < NUM_FRAMES && !t.pt[page].valid
    requires Mapping(t, frame) && Clean(t) && SameLogical(s, t) && Mirrors(t, 1) && Recent(t, 1, -1, true)
    requires DistinctAges(t.pt, -1) && AgesFollow(t.pt, h, -1)
    ensures Ready(s, PagedIn(t, page, frame, write), page, frame, write, h)
  {
    PagedInMapping(t, page, frame, write);
    PagedInContent(t, page, frame, write);
    PagedInTlb(t, page, frame, write);
  }

  /** A page fault leaves the page mapped, and nothing else changed to the eye. */
  lemma FaultedReady(s: State, page: nat, write: bool, h: seq<nat>)
    requires Wf(s) && Mid(s, h) && CanEvict(s) && page < NUM_PAGES && !s.pt[page].valid
    ensures var (t, frame) := Faulted(REPAIRED, s, page, write); Ready(s, t, page, frame, write, h)
  {
    var free := FreeFrame(s.used, 0);
    if free >= 0 {
      PagedInReady(s, s, page, free, write, h);
    } else {
      EvictedKeeps(s, h);
      var (t, frame) := Evicted(REPAIRED, s);
      PagedInReady(s, t, page, frame, write, h);
    }
  }

  lemma TableHitReady(s: State, page: nat, write: bool, h: seq<nat>)
    requires Wf(s) && Mid(s, h) && page < NUM_PAGES && s.pt[page].valid && !InTlb(s.tlb, page)
    ensures var (t, frame) := TableHit(REPAIRED, s, page, write); Ready(s, t, page, frame, write, h)
  {
    hide Mapping, Clean, SameLogical, Mirrors, Recent;
    var (t, frame) := TableHit(REPAIRED, s, page, write);
    SameMapKeeps(s, t);
    TableHitTlb(s, page, write);
  }

  lemma TableHitTlb(s: State, page: nat, write: bool)
    requires Wf(s) && Mirrors(s, 1) && Recent(s, 1, -1, false) && page < NUM_PAGES && !InTlb(s.tlb, page)
    ensures var t := TableHit(REPAIRED, s, page, write).0; Mirrors(t, 1) && Recent(t, 1, page, true)
  {
    var t := TableHit(REPAIRED, s, page, write).0;
    OtherPage(s, t, page);
  }

  /** A change to one page that is not in the TLB. */
  lemma OtherPage(s: State, t: State, page: nat)
    requires Wf(s) && Wf(t) && t.tlb == s.tlb && Mirrors(s, 1) && Recent(s, 1, -1, false)
    requires page < NUM_PAGES && !InTlb(s.tlb, page)
    requires forall q :: 0 <= q < NUM_PAGES && q != page ==> t.pt[q] == s.pt[q]
    ensures Mirrors(t, 1) && Recent(t, 1, page, true)
  {
    forall k | 0 <= k < |s.tlb| && s.tlb[k].frame >= 0 ensures s.tlb[k].page != page {
      assert Holds(s.tlb[k], s.tlb[k].page);
    }
  }

  // ---------------------------------------------------------------- TLB insertion

  lemma {:induction false} LruSlotOldest(tlb: seq<TlbEntry>, n: nat)
    requires 0 < |tlb| && n <= |tlb|
    requires forall k :: 0 <= k < |tlb| ==> tlb[k].frame >= 0
    ensures forall k :: 0 <= k < n ==> tlb[k].counter <= tlb[LruSlot(tlb, n)].counter
  {
    if n > 0 {
      LruSlotOldest(tlb, n - 1);
    }
  }

  lemma AddedMirrors(s: State, page: nat, frame: nat)
    requires Wf(s) && Mirrors(s, 1)
    requires page < NUM_PAGES && s.pt[page].valid && s.pt[page].frame == frame && !InTlb(s.tlb, page)
    ensures var t := s.(tlb := Added(s.tlb, page, frame, s.pt[page].readonly), pt := Touched(s.pt, page));
      Mirrors(t, 0)
  {
  }

  /** A page that the insertion leaves out is older than all that it keeps. */
  lemma LeftOutIsOlder(s: State, page: nat, q: nat)
    requires Wf(s) && Mirrors(s, 1) && Recent(s, 1, page, true) && DistinctAges(s.pt, page)
    requires page < NUM_PAGES && !InTlb(s.tlb, page)
    requires q < NUM_PAGES && q != page && s.pt[q].valid
    requires InTlb(s.tlb, q) ==> Holds(s.tlb[VictimSlot(s.tlb)], q)
    ensures forall k :: 0 <= k < |s.tlb| && k != VictimSlot(s.tlb) ==>
      0 <= s.tlb[k].frame && s.tlb[k].counter <= s.pt[q].counter
  {
    if LastEmpty(s.tlb, |s.tlb|) < 0 {
      LruSlotOldest(s.tlb, |s.tlb|);
    }
  }

  lemma AddedRecent(s: State, page: nat, frame: nat)
    requires Wf(s) && Mirrors(s, 1) && Recent(s, 1, page, true) && DistinctAges(s.pt, page)
    requires page < NUM_PAGES && s.pt[page].valid && s.pt[page].frame == frame && !InTlb(s.tlb, page)
    ensures var t := s.(tlb := Added(s.tlb, page, frame, s.pt[page].readonly), pt := Touched(s.pt, page));
      Recent(t, 0, -1, false)
  {
    var t := s.(tlb := Added(s.tlb, page, frame, s.pt[page].readonly), pt := Touched(s.pt, page));
    forall q | 0 <= q < |t.pt| && t.pt[q].valid && !InTlb(t.tlb, q)
      ensures forall k :: 0 <= k < |t.tlb| ==> 0 <= t.tlb[k].frame && t.tlb[k].counter < t.pt[q].counter
    {
      hide Recent, Mirrors, DistinctAges;
      AddedLeavesOut(s.tlb, page, frame, s.pt[page].readonly, q);
      LeftOutIsOlder(s, page, q);
    }
  }

  lemma AddedLeavesOut(tlb: seq<TlbEntry>, page: nat, frame: nat, readonly: bool, q: nat)
    requires 0 < |tlb| && !InTlb(Added(tlb, page, frame, readonly), q)
    ensures q != page && (InTlb(tlb, q) ==> Holds(tlb[VictimSlot(tlb)], q))
  {
    hide VictimSlot;
    var added := Added(tlb, page, frame, readonly);
    assert Holds(added[VictimSlot(tlb)], page);
    if InTlb(tlb, q) {
      var j :| 0 <= j < |tlb| && Holds(tlb[j], q);
      assert !Holds(added[j], q);
    }
  }

  // ---------------------------------------------------------------- one access

  lemma AgedMid(s: State, h: seq<nat>)
    requires Inv(s, h)
    ensures var t := s.(tlb := Aged(s.tlb)); Wf(t) && Mid(t, h) && CanEvict(t) && SameLogical(s, t)
  {
    InvCanEvict(s, -1);
    var t := s.(tlb := Aged(s.tlb));
    SameMapKeeps(s, t);
    AgedTlb(s);
  }

  lemma AgedTlb(s: State)
    requires Wf(s) && Mirrors(s, 0) && Recent(s, 0, -1, false)
    ensures var t := s.(tlb := Aged(s.tlb)); Wf(t) && Mirrors(t, 1) && Recent(t, 1, -1, false)
  {
    var t := s.(tlb := Aged(s.tlb));
    assert Mirrors(t, 1) by {
      hide Recent;
    }
    assert Recent(t, 1, -1, false) by {
      hide Mirrors;
      AgedRecent(s);
    }
  }

  lemma AgedRecent(s: State)
    requires Wf(s) && Recent(s, 0, -1, false)
    ensures var t := s.(tlb := Aged(s.tlb)); Wf(t) && Recent(t, 1, -1, false)
  {
    var t := s.(tlb := Aged(s.tlb));
    forall q | 0 <= q < |t.pt| && t.pt[q].valid && InTlb(s.tlb, q) ensures InTlb(t.tlb, q) {
      InTlbMoves(s.tlb, t.tlb, q);
    }
  }

  lemma TouchedAges(pt: seq<PageEntry>, page: nat, h: seq<nat>)
    requires page < |pt| && DistinctAges(pt, page) && AgesFollow(pt, h, page)
    ensures DistinctAges(Touched(pt, page), -1) && AgesFollow(Touched(pt, page), h + [page], -1)
  {
    assert (h + [page])[..|h|] == h;
  }

  lemma HitTlb(s: State, k: nat, page: nat, write: bool)
    requires Wf(s) && Mirrors(s, 1) && Recent(s, 1, -1, false)
    requires page < NUM_PAGES && k < |s.tlb| && Holds(s.tlb[k], page)
    ensures var t := Hit(s, k, page, write).0;
      var u := t.(pt := Touched(t.pt, page));
      Mirrors(u, 0) && Recent(u, 0, -1, false)
  {
    var t := Hit(s, k, page, write).0;
    var u := t.(pt := Touched(t.pt, page));
    assert Mirrors(u, 0) by {
      hide Recent;
    }
    assert Recent(u, 0, -1, false) by {
      hide Mirrors;
      HitRecent(s, k, page, write);
    }
  }

  lemma HitRecent(s: State, k: nat, page: nat, write: bool)
    requires Wf(s) && Recent(s, 1, -1, false)
    requires page < NUM_PAGES && k < |s.tlb| && Holds(s.tlb[k], page)
    ensures var t := Hit(s, k, page, write).0; Recent(t.(pt := Touched(t.pt, page)), 0, -1, false)
  {
    var t := Hit(s, k, page, write).0;
    var u := t.(pt := Touched(t.pt, page));
    forall q | 0 <= q < |u.pt| && u.pt[q].valid && InTlb(s.tlb, q) ensures InTlb(u.tlb, q) {
      InTlbMoves(s.tlb, u.tlb, q);
    }
  }

  lemma HitKeeps(s: State, k: nat, page: nat, write: bool, h: seq<nat>)
    requires Wf(s) && Mid(s, h) && page < NUM_PAGES && k < |s.tlb| && Holds(s.tlb[k], page)
    ensures var (t, frame) := Hit(s, k, page, write);
      var u := t.(pt := Touched(t.pt, page));
      Inv(u, h + [page]) && SameLogical(s, u) && Serves(u, page, frame, write)
  {
    var (t, frame) := Hit(s, k, page, write);
    var u := t.(pt := Touched(t.pt, page));
    HitTlb(s, k, page, write);
    SameMapKeeps(s, u);
    TouchedAges(t.pt, page, h);
  }

  lemma MissedKeeps(s: State, page: nat, write: bool, h: seq<nat>)
    requires Wf(s) && Mid(s, h) && CanEvict(s) && page < NUM_PAGES && !InTlb(s.tlb, page)
    ensures var (t, frame) := Missed(REPAIRED, s, page, write);
      var u := t.(pt := Touched(t.pt, page));
      Inv(u, h + [page]) && SameLogical(s, u) && Serves(u, page, frame, write)
  {
    hide Inv, Ready, Mid, SameLogical, Serves;
    if s.pt[page].valid {
      var (t, frame) := TableHit(REPAIRED, s, page, write);
      TableHitReady(s, page, write, h);
      ReadyFinishes(s, t, page, frame, write, h);
    } else {
      var (t, frame) := Faulted(REPAIRED, s, page, write);
      FaultedReady(s, page, write, h);
      ReadyFinishes(s, t, page, frame, write, h);
    }
  }

  lemma ReadyFinishes(s: State, t: State, page: nat, frame: nat, write: bool, h: seq<nat>)
    requires Wf(s) && Wf(t) && page < NUM_PAGES && frame < NUM_FRAMES && Ready(s, t, page, frame, write, h)
    ensures var u := t.(tlb := Added(t.tlb, page, frame, t.pt[page].readonly), pt := Touched(t.pt, page));
      Inv(u, h + [page]) && SameLogical(s, u) && Serves(u, page, frame, write)
  {
    var u := t.(tlb := Added(t.tlb, page, frame, t.pt[page].readonly), pt := Touched(t.pt, page));
    AddedMirrors(t, page, frame);
    AddedRecent(t, page, frame);
    TouchedAges(t.pt, page, h);
    SameMapKeeps(t, u);
  }

  /** `get_frame` keeps the invariant, maps the page to the frame it returns, marks it dirty on a
      write, and changes nothing that a program can see. */
  lemma GetFrameKeeps(s: State, page: nat, write: bool, h: seq<nat>)
    requires Inv(s, h) && page < NUM_PAGES
    ensures CanEvict(s)
    ensures var (t, frame) := GetFrame(REPAIRED, s, page, write);
      Inv(t, h + [page]) && SameLogical(s, t) && Serves(t, page, frame, write)
  {
    AgedMid(s, h);
    InvCanEvict(s, -1);
    var s1 := s.(tlb := Aged(s.tlb));
    var k := SlotOf(s1.tlb, page, 0);
    if k >= 0 {
      HitKeeps(s1, k, page, write, h);
    } else {
      MissedKeeps(s1, page, write, h);
    }
  }
}
