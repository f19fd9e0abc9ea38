/** The same code as it runs: arrays updated in place by loops.  Each method is tied to the function
    of VmModel that specifies it. */
module VmMachine {
  import opened VmModel

  class Machine {
    const v: Variant
    const tlb: array<TlbEntry>
    const pt: array<PageEntry>
    const bitmap: array<bool>
    const memory: array<char>
    const store: array<char>

    ghost function Abs(): State
      reads tlb, pt, bitmap, memory, store
    {
      State(tlb[..], pt[..], bitmap[..], memory[..], store[..])
    }

    ghost predicate Valid()
      reads tlb, pt, bitmap, memory, store
    {
      Wf(Abs()) && memory != store
    }

    /** `tlb_init`, `pt_init` and `pm_init` on static storage, with the given backing store. */
    constructor (v: Variant, backingStore: array<char>)
      requires backingStore.Length == ADDRESS_SPACE
      ensures Valid() && Abs() == Initial(backingStore[..]) && CanEvict(Abs())
      ensures tlb.Length == 8 && forall k :: 0 <= k < 8 ==> tlb[k].frame == -1
      ensures pt.Length == 256 && forall p :: 0 <= p < 256 ==> !pt[p].valid
      ensures bitmap.Length == 32 && forall f :: 0 <= f < 32 ==> !bitmap[f]
      ensures memory.Length == 8192 && forall i :: 0 <= i < 8192 ==> memory[i] == '\0'
      ensures this.v == v && store == backingStore
      ensures fresh(tlb) && fresh(pt) && fresh(bitmap) && fresh(memory)
    {
      this.v := v;
      tlb := new TlbEntry[TLB_NUM_ENTRIES](_ => TlbEntry(0, -1, false, 0));
      pt := new PageEntry[NUM_PAGES](_ => PageEntry(false, false, 0, 0));
      bitmap := new bool[NUM_FRAMES](_ => false);
      memory := new char[PHYSICAL_MEMORY_SIZE](_ => '\0');
      store := backingStore;
      new;
      assert Abs() == Initial(backingStore[..]);
      assert !Abs().used[0];
    }

    // -------------------------------------------------------------- TLB

    method IncrementCounters()
      modifies tlb
      ensures tlb[..] == Aged(old(tlb[..]))
    {
      for i := 0 to tlb.Length
        invariant forall k :: 0 <= k < i ==> tlb[k] == Aged(old(tlb[..]))[k]
        invariant forall k :: i <= k < tlb.Length ==> tlb[k] == old(tlb[k])
      {
        if tlb[i].frame >= 0 {
          tlb[i] := tlb[i].(counter := tlb[i].counter + 1);
        }
      }
    }

    method TlbLookup(page: nat, write: bool) returns (frame: int)
      requires Valid()
      modifies tlb
      ensures var aged := Aged(old(tlb[..]));
        var k := SlotOf(aged, page, 0);
        && frame == (if k >= 0 then aged[k].frame else -1)
        && tlb[..] == if k >= 0
           then aged[k := aged[k].(counter := 0, readonly := aged[k].readonly && !write)] else aged
    {
      IncrementCounters();
      ghost var aged := tlb[..];
      for i := 0 to tlb.Length
        invariant tlb[..] == aged
        invariant forall k :: 0 <= k < i ==> !Holds(aged[k], page)
      {
        if tlb[i].frame >= 0 && tlb[i].page == page {
          tlb[i] := tlb[i].(counter := 0);
          if tlb[i].readonly && write {
            tlb[i] := tlb[i].(readonly := false);
          }
          return tlb[i].frame;
        }
      }
      return -1;
    }

    method GetLeastRecentlyUsed() returns (lru: nat)
      requires tlb.Length > 0
      ensures lru == LruSlot(tlb[..], tlb.Length)
    {
      lru := 0;
      for i := 0 to tlb.Length
        invariant lru == LruSlot(tlb[..], i)
      {
        if tlb[i].frame >= 0 && tlb[i].counter >= tlb[lru].counter {
          if tlb[lru].counter == tlb[i].counter {
            if tlb[lru].readonly && !tlb[i].readonly {
              lru := i;
            }
          } else {
            lru := i;
          }
        }
      }
    }

    method TlbAddEntry(page: nat, frame: int, readonly: bool)
      requires tlb.Length > 0
      modifies tlb
      ensures tlb[..] == Added(old(tlb[..]), page, frame, readonly)
    {
      var victim := -1;
      for i := 0 to tlb.Length
        invariant victim == LastEmpty(tlb[..], i)
      {
        if tlb[i].frame == -1 {
          victim := i;
        }
      }
      if victim == -1 {
        victim := GetLeastRecentlyUsed();
      }
      tlb[victim] := TlbEntry(page, frame, readonly, 0);
    }

    method RemovePageFromTlb(frame: nat) returns (page: int)
      modifies tlb
      ensures var was := old(tlb[..]);
        var k := SlotOfFrame(was, frame, 0);
        && page == (if k >= 0 then was[k].page else -1)
        && tlb[..] == if k >= 0 then was[k := was[k].(frame := -1)] else was
    {
      for i := 0 to tlb.Length
        invariant tlb[..] == old(tlb[..])
        invariant forall k :: 0 <= k < i ==> tlb[k].frame != frame
      {
        if tlb[i].frame == frame {
          tlb[i] := tlb[i].(frame := -1);
          return tlb[i].page;
        }
      }
      return -1;
    }

    // -------------------------------------------------------------- page table

    method PtUpdateCounters(page: nat)
      requires page < pt.Length
      modifies pt
      ensures pt[..] == Touched(old(pt[..]), page)
    {
      for i := 0 to pt.Length
        invariant forall p :: 0 <= p < pt.Length ==>
          pt[p] == old(pt[p]).(counter := old(pt[p]).counter + if p < i && old(pt[p]).valid then 1 else 0)
      {
        if pt[i].valid {
          pt[i] := pt[i].(counter := pt[i].counter + 1);
        }
      }
      pt[page] := pt[page].(counter := 0);
    }

    method PtFindPage(frame: nat) returns (page: int)
      ensures page == FindPage(v, pt[..], frame, 0)
    {
      for i := 0 to pt.Length
        invariant forall p :: 0 <= p < i ==> !Owns(v, pt[p], frame)
      {
        // pt.c:72 tests the frame alone
        if pt[i].frame == frame && (v.validOwnerOnly ==> pt[i].valid) {
          return i;
        }
      }
      return -1;
    }

    method FindVictimFrameNumber() returns (frame: nat)
      requires SomeValid(pt[..])
      ensures frame == pt[VictimPage(pt[..])].frame
    {
      hide SomeValid, Lru;
      ghost var table := pt[..];
      var lruClean, lruDirty := -1, -1;
      LruNone(table);
      for i := 0 to pt.Length
        invariant lruClean == Lru(table, true, i) && lruDirty == Lru(table, false, i)
      {
        LruStep(table, i);
        if pt[i].valid {
          if pt[i].readonly {
            if lruClean == -1 || pt[i].counter > pt[lruClean].counter {
              lruClean := i;
            }
          } else {
            if lruDirty == -1 || pt[i].counter > pt[lruDirty].counter {
              lruDirty := i;
            }
          }
        }
      }
      SomeLru(table);
      frame := if lruClean != -1 then pt[lruClean].frame else pt[lruDirty].frame;
    }

    lemma LruNone(pt: seq<PageEntry>)
      ensures Lru(pt, true, 0) == Lru(pt, false, 0) == -1
    {
    }

    /** Exactly one of the two searches looks at page n, if it is valid. */
    lemma LruStep(pt: seq<PageEntry>, n: nat)
      requires n < |pt|
      ensures forall kind ::
        Lru(pt, kind, n + 1) ==
        (var r := Lru(pt, kind, n);
         if pt[n].valid && pt[n].readonly == kind && (r == -1 || pt[n].counter > pt[r].counter) then n else r)
    {
    }

    lemma SomeLru(pt: seq<PageEntry>)
      requires SomeValid(pt)
      ensures Lru(pt, true, |pt|) != -1 || Lru(pt, false, |pt|) != -1
    {
    }

    // -------------------------------------------------------------- frames and backing store

    method FindFreeFrameNumber() returns (frame: int)
      ensures frame == FreeFrame(bitmap[..], 0)
    {
      for i := 0 to bitmap.Length
        invariant forall f :: 0 <= f < i ==> bitmap[f]
      {
        if !bitmap[i] {
          return i;
        }
      }
      return -1;
    }

    method DownloadPage(page: nat, frame: nat)
      requires Valid() && page < NUM_PAGES && frame < NUM_FRAMES
      modifies memory, bitmap
      ensures memory[..] == CopyBlock(old(memory[..]), frame, store[..], page)
      ensures bitmap[..] == old(bitmap[..])[frame := true]
    {
      CopyInto(memory, frame, store, page);
      bitmap[frame] := true;
    }

    method BackupPage(frame: nat, page: nat)
      requires Valid() && page < NUM_PAGES && frame < NUM_FRAMES
      modifies store
      ensures store[..] == CopyBlock(old(store[..]), page, memory[..], frame)
    {
      CopyInto(store, page, memory, frame);
    }

    // -------------------------------------------------------------- get_frame

    /** The branch of `get_frame` that runs when no frame is free. */
    method Evict() returns (frame: nat)
      requires Valid() && SomeValid(Abs().pt)
      modifies tlb, pt, store
      ensures Valid() && (Abs(), frame) == Evicted(v, old(Abs()))
    {
      hide VictimPage, SlotOfFrame, FindPage, CopyBlock, SomeValid;
      ghost var s := Abs();
      frame := FindVictimFrameNumber();
      assert Owns(v, s.pt[VictimPage(s.pt)], frame);
      var page := RemovePageFromTlb(frame);
      if page == -1 {
        page := PtFindPage(frame);
      }
      if !pt[page].readonly {
        BackupPage(frame, page);
      }
      pt[page] := pt[page].(valid := false);
    }

    method PageFault(page: nat, write: bool) returns (frame: nat)
      requires Valid() && page < NUM_PAGES && CanEvict(Abs())
      modifies tlb, pt, bitmap, memory, store
      ensures Valid() && (Abs(), frame) == Faulted(v, old(Abs()), page, write)
    {
      var free := FindFreeFrameNumber();
      if free == -1 {
        frame := Evict();
      } else {
        frame := free;
      }
      ghost var s := Abs();
      DownloadPage(page, frame);
      pt[page] := PageEntry(true, true, frame, 0);
      if write {
        pt[page] := pt[page].(readonly := false);
      }
      assert Abs() == PagedIn(s, page, frame, write);
    }

    method GetFrame(page: nat, write: bool) returns (frame: nat)
      requires Valid() && page < NUM_PAGES && CanEvict(Abs())
      modifies tlb, pt, bitmap, memory, store
      ensures Valid() && (Abs(), frame) == VmModel.GetFrame(v, old(Abs()), page, write)
    {
      hide Aged, SlotOf, Added, Touched, Faulted, CanEvict;
      ghost var s := Abs();
      var hit := TlbLookup(page, write);
      AgedKeeps(s);
      if hit == -1 {
        if pt[page].valid {
          frame := pt[page].frame;
          // vmm.c:92-130 have no counterpart of this update
          if write && v.dirtyOnTableHit {
            pt[page] := pt[page].(readonly := false);
          }
        } else {
          frame := PageFault(page, write);
        }
        TlbAddEntry(page, frame, pt[page].readonly);
      } else {
        frame := hit;
        if write {
          pt[page] := pt[page].(readonly := false);
        }
      }
      PtUpdateCounters(page);
      assert (Abs(), frame) == VmModel.GetFrame(v, s, page, write);
    }

    lemma AgedKeeps(s: State)
      requires Wf(s) && CanEvict(s)
      ensures Wf(s.(tlb := Aged(s.tlb))) && CanEvict(s.(tlb := Aged(s.tlb)))
    {
    }

    // -------------------------------------------------------------- vmm_read and vmm_write

    method Read(addr: nat) returns (c: char)
      requires Valid() && addr < ADDRESS_SPACE && CanEvict(Abs())
      modifies tlb, pt, bitmap, memory, store
      ensures Valid() && (Abs(), c) == Step(v, old(Abs()), VmModel.Read(addr))
    {
      var page, off := addr / PAGE_FRAME_SIZE, addr % PAGE_FRAME_SIZE;
      var frame := GetFrame(page, false);
      // vmm.c:54 indexes by the page number
      c := memory[Index(v.physicalRead, page, frame, off)];
    }

    method Write(addr: nat, c: char)
      requires Valid() && addr < ADDRESS_SPACE && CanEvict(Abs())
      modifies tlb, pt, bitmap, memory, store
      ensures Valid() && Abs() == Step(v, old(Abs()), VmModel.Write(addr, c)).0
    {
      var page, off := addr / PAGE_FRAME_SIZE, addr % PAGE_FRAME_SIZE;
      var frame := GetFrame(page, true);
      // vmm.c:72 indexes by the page number
      memory[Index(v.physicalWrite, page, frame, off)] := c;
    }
  }

  /** Copy one block between two arrays, as `fread` and `fwrite` do. */
  method CopyInto(dst: array<char>, d: nat, src: array<char>, b: nat)
    requires dst != src
    requires (d + 1) * PAGE_FRAME_SIZE <= dst.Length && (b + 1) * PAGE_FRAME_SIZE <= src.Length
    modifies dst
    ensures dst[..] == CopyBlock(old(dst[..]), d, src[..], b)
  {
    forall o | 0 <= o < PAGE_FRAME_SIZE {
      dst[d * PAGE_FRAME_SIZE + o] := src[b * PAGE_FRAME_SIZE + o];
    }
  }
}
