/** The demand-paged memory of tp3 as pure state: what each C function does to the
    TLB, the page table, the frame bitmap, physical memory and the backing store.

    Four lines of the C code keep it from being a memory at all.  `Variant` says,
    line by line, whether the code is taken as written or repaired. */
module VmModel {
  const NUM_FRAMES := 32
  const NUM_PAGES := 256
  const PAGE_FRAME_SIZE := 256
  const TLB_NUM_ENTRIES := 8
  const PHYSICAL_MEMORY_SIZE := NUM_FRAMES * PAGE_FRAME_SIZE
  const ADDRESS_SPACE := NUM_PAGES * PAGE_FRAME_SIZE

  datatype TlbEntry = TlbEntry(page: nat, frame: int, readonly: bool, counter: nat)

  datatype PageEntry = PageEntry(readonly: bool, valid: bool, frame: nat, counter: nat)

  datatype State = State(
    tlb: seq<TlbEntry>, pt: seq<PageEntry>, used: seq<bool>, mem: seq<char>, store: seq<char>)

  /** physicalRead:    memory is read at the physical address (vmm.c:54 reads it at the page number);
      physicalWrite:   memory is written at the physical address (vmm.c:72 writes it at the page number);
      dirtyOnTableHit: a write that misses the TLB and hits the page table marks the page (vmm.c:92-130 do not);
      validOwnerOnly:  the owner of a frame is sought among valid pages (pt.c:72 takes stale ones). */
  datatype Variant =
    Variant(physicalRead: bool, physicalWrite: bool, dirtyOnTableHit: bool, validOwnerOnly: bool)

  const AS_WRITTEN := Variant(false, false, false, false)
  const REPAIRED := Variant(true, true, true, true)

  /** Sizes and ranges that the C declarations give. */
  ghost predicate Wf(s: State) {
    && |s.tlb| == TLB_NUM_ENTRIES
    && |s.pt| == NUM_PAGES
    && |s.used| == NUM_FRAMES
    && |s.mem| == PHYSICAL_MEMORY_SIZE
    && |s.store| == ADDRESS_SPACE
    && (forall k :: 0 <= k < |s.tlb| ==> s.tlb[k].page < NUM_PAGES && -1 <= s.tlb[k].frame < NUM_FRAMES)
    && (forall p :: 0 <= p < |s.pt| ==> s.pt[p].frame < NUM_FRAMES)
  }

  function Initial(store: seq<char>): (s: State)
    requires |store| == ADDRESS_SPACE
    ensures Wf(s)
  {
    State(
      seq(TLB_NUM_ENTRIES, _ => TlbEntry(0, -1, false, 0)),
      seq(NUM_PAGES, _ => PageEntry(false, false, 0, 0)),
      seq(NUM_FRAMES, _ => false),
      seq(PHYSICAL_MEMORY_SIZE, _ => '\0'),
      store)
  }

  // ---------------------------------------------------------------- TLB

  function Aged(tlb: seq<TlbEntry>): (r: seq<TlbEntry>)
    ensures |r| == |tlb|
    ensures forall k :: 0 <= k < |r| ==>
      r[k] == if tlb[k].frame >= 0 then tlb[k].(counter := tlb[k].counter + 1) else tlb[k]
  {
    seq(|tlb|, k requires 0 <= k < |tlb| =>
      if tlb[k].frame >= 0 then tlb[k].(counter := tlb[k].counter + 1) else tlb[k])
  }

  predicate Holds(e: TlbEntry, page: nat) {
    e.frame >= 0 && e.page == page
  }

  /** The first slot from `i` on that maps `page`, or -1. */
  function SlotOf(tlb: seq<TlbEntry>, page: nat, i: nat): (r: int)
    requires i <= |tlb|
    ensures r == -1 || i <= r < |tlb|
    ensures r >= 0 ==> Holds(tlb[r], page) && forall k :: i <= k < r ==> !Holds(tlb[k], page)
    ensures r == -1 ==> forall k :: i <= k < |tlb| ==> !Holds(tlb[k], page)
    decreases |tlb| - i
  {
    if i == |tlb| then -1 else if Holds(tlb[i], page) then i else SlotOf(tlb, page, i + 1)
  }

  /** The first slot from `i` on whose frame is `frame`, or -1. */
  function SlotOfFrame(tlb: seq<TlbEntry>, frame: int, i: nat): (r: int)
    requires i <= |tlb|
    ensures r == -1 || i <= r < |tlb|
    ensures r >= 0 ==> tlb[r].frame == frame && forall k :: i <= k < r ==> tlb[k].frame != frame
    ensures r == -1 ==> forall k :: i <= k < |tlb| ==> tlb[k].frame != frame
    decreases |tlb| - i
  {
    if i == |tlb| then -1 else if tlb[i].frame == frame then i else SlotOfFrame(tlb, frame, i + 1)
  }

  /** The last empty slot among the first `n`, or -1. */
  function LastEmpty(tlb: seq<TlbEntry>, n: nat): (r: int)
    requires n <= |tlb|
    ensures -1 <= r < n
    ensures r >= 0 ==> tlb[r].frame == -1
    ensures forall k :: r < k < n ==> tlb[k].frame != -1
  {
    if n == 0 then -1 else if tlb[n - 1].frame == -1 then n - 1 else LastEmpty(tlb, n - 1)
  }

  /** One turn of the replacement scan: does entry `e` displace the current choice `lru`? */
  predicate Displaces(e: TlbEntry, lru: TlbEntry) {
    && e.frame >= 0
    && (e.counter > lru.counter || (e.counter == lru.counter && lru.readonly && !e.readonly))
  }

  function LruSlot(tlb: seq<TlbEntry>, n: nat): (r: nat)
    requires 0 < |tlb| && n <= |tlb|
    ensures r < |tlb| && (r < n || r == 0)
  {
    if n == 0 then 0
    else
      var r := LruSlot(tlb, n - 1);
      if Displaces(tlb[n - 1], tlb[r]) then n - 1 else r
  }

  function VictimSlot(tlb: seq<TlbEntry>): (r: nat)
    requires 0 < |tlb|
    ensures r < |tlb|
  {
    var empty := LastEmpty(tlb, |tlb|);
    if empty >= 0 then empty else LruSlot(tlb, |tlb|)
  }

  function Added(tlb: seq<TlbEntry>, page: nat, frame: int, readonly: bool): (r: seq<TlbEntry>)
    requires 0 < |tlb|
  {
    tlb[VictimSlot(tlb) := TlbEntry(page, frame, readonly, 0)]
  }

  // ---------------------------------------------------------------- page table

  /** The valid page of the given kind with the largest counter among the first `n`
      (the lowest number on a tie), or -1. */
  function Lru(pt: seq<PageEntry>, readonly: bool, n: nat): (r: int)
    requires n <= |pt|
    ensures -1 <= r < n
    ensures r >= 0 ==> pt[r].valid && pt[r].readonly == readonly
    ensures r >= 0 ==> forall p :: 0 <= p < n && pt[p].valid && pt[p].readonly == readonly ==>
      pt[p].counter < pt[r].counter || (pt[p].counter == pt[r].counter && r <= p)
    ensures r == -1 ==> forall p :: 0 <= p < n ==> !(pt[p].valid && pt[p].readonly == readonly)
  {
    if n == 0 then -1
    else
      var r := Lru(pt, readonly, n - 1);
      if pt[n - 1].valid && pt[n - 1].readonly == readonly && (r == -1 || pt[n - 1].counter > pt[r].counter)
      then n - 1 else r
  }

  ghost predicate SomeValid(pt: seq<PageEntry>) {
    exists p :: 0 <= p < |pt| && pt[p].valid
  }

  /** The page that will be evicted: a clean one if there is one. */
  function VictimPage(pt: seq<PageEntry>): (r: nat)
    requires SomeValid(pt)
    ensures r < |pt| && pt[r].valid
  {
    var clean, dirty := Lru(pt, true, |pt|), Lru(pt, false, |pt|);
    if clean != -1 then clean else dirty
  }

  predicate Owns(v: Variant, e: PageEntry, frame: nat) {
    e.frame == frame && (v.validOwnerOnly ==> e.valid)
  }

  /** The first page from `i` on that the variant takes for the owner of `frame`, or -1. */
  function FindPage(v: Variant, pt: seq<PageEntry>, frame: nat, i: nat): (r: int)
    requires i <= |pt|
    ensures r == -1 || i <= r < |pt|
    ensures r >= 0 ==> Owns(v, pt[r], frame) && forall p :: i <= p < r ==> !Owns(v, pt[p], frame)
    ensures r == -1 ==> forall p :: i <= p < |pt| ==> !Owns(v, pt[p], frame)
    decreases |pt| - i
  {
    if i == |pt| then -1 else if Owns(v, pt[i], frame) then i else FindPage(v, pt, frame, i + 1)
  }

  /** Every valid page gets older by one, then `page` becomes the youngest. */
  function Touched(pt: seq<PageEntry>, page: nat): (r: seq<PageEntry>)
    requires page < |pt|
    ensures |r| == |pt|
    ensures forall p :: 0 <= p < |r| ==>
      r[p] == pt[p].(counter := if p == page then 0 else if pt[p].valid then pt[p].counter + 1 else pt[p].counter)
  {
    seq(|pt|, p requires 0 <= p < |pt| =>
      pt[p].(counter := if p == page then 0 else if pt[p].valid then pt[p].counter + 1 else pt[p].counter))
  }

  // ---------------------------------------------------------------- frames and backing store

  /** The first free frame from `i` on, or -1. */
  function FreeFrame(used: seq<bool>, i: nat): (r: int)
    requires i <= |used|
    ensures r == -1 || i <= r < |used|
    ensures r >= 0 ==> !used[r] && forall f :: i <= f < r ==> used[f]
    ensures r == -1 ==> forall f :: i <= f < |used| ==> used[f]
    decreases |used| - i
  {
    if i == |used| then -1 else if !used[i] then i else FreeFrame(used, i + 1)
  }

  /** Byte `off` of block `block`. */
  function At(bytes: seq<char>, block: nat, off: nat): char
    requires off < PAGE_FRAME_SIZE && block * PAGE_FRAME_SIZE + off < |bytes|
  {
    bytes[block * PAGE_FRAME_SIZE + off]
  }

  /** `dst` with its block `d` replaced by block `b` of `src`. */
  function CopyBlock(dst: seq<char>, d: nat, src: seq<char>, b: nat): (r: seq<char>)
    requires (d + 1) * PAGE_FRAME_SIZE <= |dst| && (b + 1) * PAGE_FRAME_SIZE <= |src|
    ensures |r| == |dst|
    ensures forall g: nat, o: nat :: o < PAGE_FRAME_SIZE && (g + 1) * PAGE_FRAME_SIZE <= |dst| ==>
      At(r, g, o) == if g == d then At(src, b, o) else At(dst, g, o)
  {
    dst[..d * PAGE_FRAME_SIZE]
    + src[b * PAGE_FRAME_SIZE..(b + 1) * PAGE_FRAME_SIZE]
    + dst[(d + 1) * PAGE_FRAME_SIZE..]
  }

  // ---------------------------------------------------------------- get_frame

  /** Make room: pick the victim, save it if it was written, and forget it. */
  function Evicted(v: Variant, s: State): (r: (State, nat))
    requires Wf(s) && SomeValid(s.pt)
    ensures Wf(r.0) && r.1 < NUM_FRAMES
  {
    var frame := s.pt[VictimPage(s.pt)].frame;
    var k := SlotOfFrame(s.tlb, frame, 0);
    var page := if k >= 0 then s.tlb[k].page else FindPage(v, s.pt, frame, 0);
    var tlb := if k >= 0 then s.tlb[k := s.tlb[k].(frame := -1)] else s.tlb;
    var store := if s.pt[page].readonly then s.store else CopyBlock(s.store, page, s.mem, frame);
    (s.(tlb := tlb, store := store, pt := s.pt[page := s.pt[page].(valid := false)]), frame)
  }

  /** Bring `page` into `frame`. */
  function PagedIn(s: State, page: nat, frame: nat, write: bool): (r: State)
    requires Wf(s) && page < NUM_PAGES && frame < NUM_FRAMES
    ensures Wf(r)
  {
    s.(mem := CopyBlock(s.mem, frame, s.store, page),
       used := s.used[frame := true],
       pt := s.pt[page := PageEntry(!write, true, frame, 0)])
  }

  ghost predicate CanEvict(s: State) {
    (forall f :: 0 <= f < |s.used| ==> s.used[f]) ==> SomeValid(s.pt)
  }

  /** The frame that a page fault will use. */
  function Faulted(v: Variant, s: State, page: nat, write: bool): (r: (State, nat))
    requires Wf(s) && page < NUM_PAGES && CanEvict(s)
    ensures Wf(r.0) && r.1 < NUM_FRAMES
  {
    var free := FreeFrame(s.used, 0);
    if free >= 0 then (PagedIn(s, page, free, write), free)
    else
      var (t, frame) := Evicted(v, s);
      (PagedIn(t, page, frame, write), frame)
  }

  function MarkDirty(pt: seq<PageEntry>, page: nat, write: bool): (r: seq<PageEntry>)
    requires page < |pt|
    ensures |r| == |pt|
  {
    if write then pt[page := pt[page].(readonly := false)] else pt
  }

  function TableHit(v: Variant, s: State, page: nat, write: bool): (r: (State, nat))
    requires Wf(s) && page < NUM_PAGES
    ensures Wf(r.0) && r.1 < NUM_FRAMES
  {
    (s.(pt := MarkDirty(s.pt, page, write && v.dirtyOnTableHit)), s.pt[page].frame)
  }

  /** `get_frame` after the TLB has answered no. */
  function Missed(v: Variant, s: State, page: nat, write: bool): (r: (State, nat))
    requires Wf(s) && page < NUM_PAGES && CanEvict(s)
    ensures Wf(r.0) && r.1 < NUM_FRAMES
  {
    var (t, frame) := if s.pt[page].valid then TableHit(v, s, page, write) else Faulted(v, s, page, write);
    (t.(tlb := Added(t.tlb, page, frame, t.pt[page].readonly)), frame)
  }

  /** `get_frame` after the TLB has answered with slot `k`. */
  function Hit(s: State, k: nat, page: nat, write: bool): (r: (State, nat))
    requires Wf(s) && page < NUM_PAGES && k < |s.tlb| && Holds(s.tlb[k], page)
    ensures Wf(r.0) && r.1 < NUM_FRAMES
  {
    var e := s.tlb[k];
    (s.(tlb := s.tlb[k := e.(counter := 0, readonly := e.readonly && !write)],
        pt := MarkDirty(s.pt, page, write)), e.frame)
  }

  function GetFrame(v: Variant, s: State, page: nat, write: bool): (r: (State, nat))
    requires Wf(s) && page < NUM_PAGES && CanEvict(s)
    ensures Wf(r.0) && r.1 < NUM_FRAMES
  {
    var s1 := s.(tlb := Aged(s.tlb));
    var k := SlotOf(s1.tlb, page, 0);
    var (t, frame) := if k >= 0 then Hit(s1, k, page, write) else Missed(v, s1, page, write);
    (t.(pt := Touched(t.pt, page)), frame)
  }

  // ---------------------------------------------------------------- vmm_read and vmm_write

  /** The index into physical memory that `vmm_read` or `vmm_write` uses. */
  function Index(physical: bool, page: nat, frame: nat, off: nat): (r: nat)
    requires page < NUM_PAGES && frame < NUM_FRAMES && off < PAGE_FRAME_SIZE
    ensures r < PHYSICAL_MEMORY_SIZE
  {
    if physical then frame * PAGE_FRAME_SIZE + off else page
  }

  datatype Access = Read(addr: nat) | Write(addr: nat, c: char)

  /** A command on a 16-bit logical address. */
  type Command = a: Access | a.addr < ADDRESS_SPACE witness Read(0)

  /** One command: the next state and the character logged. */
  function Step(v: Variant, s: State, a: Command): (r: (State, char))
    requires Wf(s) && CanEvict(s)
    ensures Wf(r.0)
  {
    var page, off := a.addr / PAGE_FRAME_SIZE, a.addr % PAGE_FRAME_SIZE;
    var (t, frame) := GetFrame(v, s, page, a.Write?);
    match a
    case Read(_) => (t, t.mem[Index(v.physicalRead, page, frame, off)])
    case Write(_, c) => (t.(mem := t.mem[Index(v.physicalWrite, page, frame, off) := c]), c)
  }
}
