/**
 What the memory steps of fork, exit and sbrk promise: private copies, exclusive frames, exact
 reclamation, room for every page obtained, and no stale translation.
 */
module AddressSpaces {
  import opened Params
  import opened Paging

  // ---------- Room in the page tables ----------

  /** A directory's heap and the free stride frames together never exceed the 384 stride frames. */
  lemma HeapBound(m: Memory, d: nat)
    requires Shaped(m) && Exclusive(m) && d < NR_TASKS
    ensures HeapLength(m.tables[d]) + |FreeFrames(m.phys)| <= 384
  {
    var n := HeapLength(m.tables[d]);
    var frames := seq<nat>(n, i requires 0 <= i < n => FrameAt(m, d, HEAP_START + i));
    var stride := set f | NUM_PAG_KERNEL <= f < TOTAL_PAGES && StrideFrame(f);
    StrideCount(stride);
    var free := FreeFrames(m.phys);
    assert free <= stride;
    forall i | 0 <= i < n
      ensures frames[i] in stride - free
    {
      assert Owns(m, d, HEAP_START + i);
    }
    forall i, j | 0 <= i < j < n
      ensures frames[i] != frames[j]
    {
      assert Owns(m, d, HEAP_START + i) && Owns(m, d, HEAP_START + j);
    }
    InjectionBounds(frames, stride - free);
  }

  /** The father always has an unmapped page above the data area to copy through. */
  lemma ScratchPageExists(m: Memory, d: nat)
    requires Sound(m) && d < NR_TASKS
    ensures HeapTop(m.tables[d], HEAP_START) < TOTAL_PAGES
  {
    HeapBound(m, d);
  }

  /** Once sys_sbrk has its frames there are pages for all of them. */
  lemma SlotsSuffice(m: Memory, need: nat)
    requires Sound(m) && AllocN(m.phys, need).Allocated?
    ensures var t := m.tables[m.cr3];
            FreeSlots(t, HEAP_START, need) == PagesFrom(HeapTop(t, HEAP_START), need)
            && HeapTop(t, HEAP_START) + need <= TOTAL_PAGES
  {
    HeapBound(m, m.cr3);
    AllocExact(m.phys, need);
    FreeSlotsAreNext(m.tables[m.cr3], HEAP_START, need);
  }

  // ---------- Fresh frames in a block of pages ----------

  // n is m with the frames, all free in m, mapped at pages lo, lo + 1, ... of directory d0.
  ghost predicate Extends(m: Memory, n: Memory, d0: nat, lo: nat, frames: seq<nat>) {
    && Shaped(m) && Shaped(n) && d0 < NR_TASKS
    && PAG_LOG_INIT_DATA <= lo && lo + |frames| <= TOTAL_PAGES
    && Took(m.phys, n.phys, frames)
    && (forall d, p :: 0 <= d < NR_TASKS && PAG_LOG_INIT_DATA <= p < TOTAL_PAGES ==>
          n.tables[d][p] == if d == d0 && lo <= p < lo + |frames| then Mapping(frames[p - lo])
                            else m.tables[d][p])
  }

  lemma ExtensionExclusive(m: Memory, n: Memory, d0: nat, lo: nat, frames: seq<nat>)
    requires Extends(m, n, d0, lo, frames) && Exclusive(m) && CodeTaken(m)
    ensures Exclusive(n) && CodeTaken(n)
  {
    forall d, p | Owns(n, d, p)
      ensures StrideFrame(FrameAt(n, d, p)) && !CodeFrame(FrameAt(n, d, p))
      ensures n.phys[FrameAt(n, d, p)] && n.tables[d][p].present && n.tables[d][p].user && n.tables[d][p].rw
      ensures if d == d0 && lo <= p < lo + |frames|
              then !m.phys[FrameAt(n, d, p)] && FrameAt(n, d, p) == frames[p - lo]
              else Owns(m, d, p) && FrameAt(m, d, p) == FrameAt(n, d, p) && m.phys[FrameAt(n, d, p)]
    {
      if d == d0 && lo <= p < lo + |frames| {
        assert !m.phys[frames[p - lo]];
      } else {
        assert Owns(m, d, p);
      }
    }
  }

  lemma ExtensionNoLeak(m: Memory, n: Memory, d0: nat, lo: nat, frames: seq<nat>)
    requires Extends(m, n, d0, lo, frames) && NoLeak(m)
    requires forall p :: lo <= p < lo + |frames| ==> m.tables[d0][p] == ZERO
    ensures NoLeak(n)
  {
    forall f | NUM_PAG_KERNEL <= f < TOTAL_PAGES && n.phys[f] && !CodeFrame(f)
      ensures exists d, p :: Owns(n, d, p) && FrameAt(n, d, p) == f
    {
      if m.phys[f] {
        var d, p :| Owns(m, d, p) && FrameAt(m, d, p) == f;
        assert Owns(n, d, p) && FrameAt(n, d, p) == f;
      } else {
        var i :| 0 <= i < |frames| && frames[i] == f;
        assert Owns(n, d0, lo + i) && FrameAt(n, d0, lo + i) == f;
      }
    }
  }

  // ---------- sbrk ----------

  lemma GrowIs(m: Memory, need: nat)
    requires Sound(m) && AllocN(m.phys, need).Allocated?
    ensures var a := AllocN(m.phys, need);
            var t := m.tables[m.cr3];
            var slots := PagesFrom(HeapTop(t, HEAP_START), need);
            && |a.frames| == need && HeapTop(t, HEAP_START) + need <= TOTAL_PAGES
            && Grow(m, need) == Grown(m.(
                 phys := a.phys, tables := m.tables[m.cr3 := Enter(t, slots, a.frames, need)],
                 tlb := m.tlb + (set i | 0 <= i < need :: (slots[i], a.frames[i]))))
  {
    hide Exclusive, CodeTaken, HeapsContiguous, HeapTop, FreeSlots, Enter, Took, PagesFrom;
    AllocExact(m.phys, need);
    SlotsSuffice(m, need);
  }

  // With the frames there, sys_sbrk maps them at the pages after the heap.
  lemma GrowForm(m: Memory, need: nat)
    requires Sound(m) && AllocN(m.phys, need).Allocated?
    ensures var g := Grow(m, need);
            var frames := AllocN(m.phys, need).frames;
            var top := HeapTop(m.tables[m.cr3], HEAP_START);
            && g.Grown? && |frames| == need && top + need <= TOTAL_PAGES && Shaped(g.m)
            && g.m.cr3 == m.cr3 && g.m.bytes == m.bytes && g.m.phys == AllocN(m.phys, need).phys
            && (forall d :: 0 <= d < NR_TASKS && d != m.cr3 ==> g.m.tables[d] == m.tables[d])
            && (forall p :: 0 <= p < TOTAL_PAGES ==>
                  g.m.tables[m.cr3][p] == if top <= p < top + need then Mapping(frames[p - top])
                                          else m.tables[m.cr3][p])
            && g.m.tlb == m.tlb + set i | 0 <= i < need :: (PagesFrom(top, need)[i], frames[i])
  {
    hide Grow, Exclusive, CodeTaken, HeapsContiguous, HeapTop, Enter, AllocN;
    GrowIs(m, need);
    EnterRun(m.tables[m.cr3], HeapTop(m.tables[m.cr3], HEAP_START), AllocN(m.phys, need).frames, need);
  }

  lemma GrowExtends(m: Memory, need: nat)
    requires Sound(m) && AllocN(m.phys, need).Allocated?
    ensures var g := Grow(m, need);
            g.Grown? && Extends(m, g.m, m.cr3, HeapTop(m.tables[m.cr3], HEAP_START), AllocN(m.phys, need).frames)
  {
    hide Grow, Exclusive, CodeTaken, HeapsContiguous, HeapTop, AllocN, Took;
    GrowForm(m, need);
    AllocTook(m.phys, need);
  }

  /**
   sys_sbrk never takes its "no logical page left" exit: it is refused exactly when fewer frames
   are free than it needs, and then memory is as before. Otherwise the heap of the current
   directory, and nothing else, is longer by the pages asked for.
   */
  lemma GrowExact(m: Memory, need: nat)
    requires Sound(m) && Coherent(m)
    ensures var g := Grow(m, need);
            && (g.Refused? <==> |FreeFrames(m.phys)| < need)
            && (g.Refused? ==> g == Refused(m, -ENOMEM))
            && (g.Grown? ==>
                  && Sound(g.m) && Coherent(g.m) && g.m.cr3 == m.cr3 && g.m.bytes == m.bytes
                  && HeapLength(g.m.tables[m.cr3]) == HeapLength(m.tables[m.cr3]) + need
                  && (forall p :: 0 <= p < HeapTop(m.tables[m.cr3], HEAP_START) ==>
                        g.m.tables[m.cr3][p] == m.tables[m.cr3][p])
                  && (forall d :: 0 <= d < NR_TASKS && d != m.cr3 ==> g.m.tables[d] == m.tables[d])
                  && (NoLeak(m) ==> NoLeak(g.m)))
  {
    AllocExact(m.phys, need);
    if AllocN(m.phys, need).Allocated? {
      hide Grow, Sound, Coherent, NoLeak;
      GrowForm(m, need);
      GrownSound(m, need);
      GrownCoherent(m, need);
    }
  }

  lemma GrownCoherent(m: Memory, need: nat)
    requires Sound(m) && Coherent(m) && AllocN(m.phys, need).Allocated?
    ensures Grow(m, need).Grown? && Coherent(Grow(m, need).m)
  {
    hide Grow, Exclusive, CodeTaken, HeapTop, AllocN, PagesFrom;
    GrowForm(m, need);
    assert Contiguous(m.tables[m.cr3]);
    var frames := AllocN(m.phys, need).frames;
    var top := HeapTop(m.tables[m.cr3], HEAP_START);
    GrownFits(m.tables[m.cr3], Grow(m, need).m.tables[m.cr3], m.tlb, top, frames);
  }

  lemma GrownSound(m: Memory, need: nat)
    requires Sound(m) && AllocN(m.phys, need).Allocated?
    ensures var g := Grow(m, need);
            && g.Grown? && Sound(g.m) && (NoLeak(m) ==> NoLeak(g.m))
            && HeapLength(g.m.tables[m.cr3]) == HeapLength(m.tables[m.cr3]) + need
  {
    hide Grow, Exclusive, NoLeak, CodeTaken;
    GrowForm(m, need);
    GrowExtends(m, need);
    var n := Grow(m, need).m;
    var frames := AllocN(m.phys, need).frames;
    var top := HeapTop(m.tables[m.cr3], HEAP_START);
    ExtensionExclusive(m, n, m.cr3, top, frames);
    if NoLeak(m) { ExtensionNoLeak(m, n, m.cr3, top, frames); }
    HeapLengthIs(n.tables[m.cr3], HeapLength(m.tables[m.cr3]) + need);
  }

  ghost predicate Fits(t: Table, tlb: set<(nat, nat)>) {
    forall e :: e in tlb ==> e.0 < |t| && t[e.0].present && t[e.0].frame == e.1
  }

  // Adding mappings for unmapped pages cannot make a held translation stale.
  lemma GrownFits(t: Table, u: Table, tlb: set<(nat, nat)>, top: nat, frames: seq<nat>)
    requires |u| == |t| && top + |frames| <= |t|
    requires forall p :: 0 <= p < |t| ==>
               u[p] == if top <= p < top + |frames| then Mapping(frames[p - top]) else t[p]
    requires forall p :: top <= p < top + |frames| ==> t[p] == ZERO
    requires Fits(t, tlb)
    ensures Fits(u, tlb + set i | 0 <= i < |frames| :: (PagesFrom(top, |frames|)[i], frames[i]))
  {
  }

  // ---------- fork ----------

  // What sys_fork has in hand when it starts to build the child's space.
  ghost predicate CanFork(m: Memory, father: nat, child: nat) {
    && Sound(m) && father < NR_TASKS && child < NR_TASKS && father != child
    && Image(m.tables[father])
    && AllocN(m.phys, NUM_PAG_DATA).Allocated?
  }

  lemma DataFramesInMemory(m: Memory, d: nat)
    requires Sound(m) && d < NR_TASKS && Image(m.tables[d])
    ensures InMemory(DataFrames(m.tables[d]))
    ensures forall p :: PAG_LOG_INIT_DATA <= p < HEAP_START ==> Owns(m, d, p)
  {
    forall i | 0 <= i < NUM_PAG_DATA
      ensures DataFrames(m.tables[d])[i] < TOTAL_PAGES
    {
      assert Owns(m, d, PAG_LOG_INIT_DATA + i);
    }
  }

  ghost function Forked(m: Memory, father: nat, child: nat): Memory
    requires CanFork(m, father, child)
  {
    DataFramesInMemory(m, father);
    AllocTook(m.phys, NUM_PAG_DATA);
    ForkSpace(m, father, child, AllocN(m.phys, NUM_PAG_DATA))
  }

  /** Copying into fresh distinct frames leaves every other frame alone and fills each target. */
  lemma {:induction false} CopiedPages(bytes: seq<seq<Byte>>, from: seq<nat>, to: seq<nat>, n: nat)
    requires n <= |from| && n <= |to|
    requires forall i :: 0 <= i < |from| ==> from[i] < |bytes|
    requires forall i :: 0 <= i < |to| ==> to[i] < |bytes|
    requires Distinct(to)
    requires forall i, j :: 0 <= i < |from| && 0 <= j < |to| ==> from[i] != to[j]
    ensures forall i :: 0 <= i < n ==> CopyPages(bytes, from, to, n)[to[i]] == bytes[from[i]]
    ensures forall f :: 0 <= f < |bytes| && (forall i :: 0 <= i < n ==> to[i] != f) ==>
              CopyPages(bytes, from, to, n)[f] == bytes[f]
  {
    if n == 0 {
    } else {
      CopiedPages(bytes, from, to, n - 1);
    }
  }

  // The bytes a fork leaves in memory.
  lemma ForkBytes(m: Memory, father: nat, child: nat)
    requires CanFork(m, father, child)
    ensures InMemory(DataFrames(m.tables[father])) && InMemory(AllocN(m.phys, NUM_PAG_DATA).frames)
    ensures var n := Forked(m, father, child);
            var a := AllocN(m.phys, NUM_PAG_DATA);
            var from := DataFrames(m.tables[father]);
            && n.phys == a.phys && |n.bytes| == |m.bytes| == TOTAL_PAGES
            && n.tables == m.tables[child := ChildTable(m.tables[father], m.tables[child], a.frames)]
            && (forall i :: 0 <= i < NUM_PAG_DATA ==> n.bytes[a.frames[i]] == m.bytes[from[i]])
            && (forall f :: 0 <= f < TOTAL_PAGES && (m.phys[f] || !n.phys[f]) ==> n.bytes[f] == m.bytes[f])
  {
    DataFramesInMemory(m, father);
    AllocTook(m.phys, NUM_PAG_DATA);
    CopiedPages(m.bytes, DataFrames(m.tables[father]), AllocN(m.phys, NUM_PAG_DATA).frames, NUM_PAG_DATA);
  }

  /**
   Seen through its own table the child's data pages hold the father's bytes, everything below
   the data area maps to the father's frames, and no byte of a frame in use before has changed.
   */
  lemma ForkCopies(m: Memory, father: nat, child: nat)
    requires CanFork(m, father, child)
    ensures var n := Forked(m, father, child);
            && Shaped(n)
            && (forall p :: PAG_LOG_INIT_DATA <= p < HEAP_START ==>
                  FrameAt(n, child, p) < TOTAL_PAGES && FrameAt(m, father, p) < TOTAL_PAGES
                  && n.bytes[FrameAt(n, child, p)] == m.bytes[FrameAt(m, father, p)])
            && (forall p :: 0 <= p < PAG_LOG_INIT_DATA ==> FrameAt(n, child, p) == FrameAt(m, father, p))
            && (forall f :: 0 <= f < TOTAL_PAGES && (m.phys[f] || !n.phys[f]) ==> n.bytes[f] == m.bytes[f])
            && (forall d :: 0 <= d < NR_TASKS && d != child ==> n.tables[d] == m.tables[d])
  {
    hide Forked, AllocN, Exclusive, CodeTaken, HeapsContiguous, Image;
    ForkExtends(m, father, child);
    ForkBytes(m, father, child);
    var n, frames := Forked(m, father, child), AllocN(m.phys, NUM_PAG_DATA).frames;
    var from := DataFrames(m.tables[father]);
    forall p | PAG_LOG_INIT_DATA <= p < HEAP_START
      ensures FrameAt(n, child, p) < TOTAL_PAGES && FrameAt(m, father, p) < TOTAL_PAGES
      ensures n.bytes[FrameAt(n, child, p)] == m.bytes[FrameAt(m, father, p)]
    {
      var i := p - PAG_LOG_INIT_DATA;
      assert FrameAt(n, child, p) == frames[i] && FrameAt(m, father, p) == from[i];
    }
  }

  lemma ForkExtends(m: Memory, father: nat, child: nat)
    requires CanFork(m, father, child)
    ensures var n := Forked(m, father, child);
            && Extends(m, n, child, PAG_LOG_INIT_DATA, AllocN(m.phys, NUM_PAG_DATA).frames)
            && n.cr3 == father && n.tlb == Translations(m.tables[father])
            && n.tables == m.tables[child := n.tables[child]]
            && (forall p :: 0 <= p < PAG_LOG_INIT_DATA ==>
                  n.tables[child][p] == Mapping(m.tables[father][p].frame))
  {
    DataFramesInMemory(m, father);
    AllocTook(m.phys, NUM_PAG_DATA);
  }

  /** The invariant survives a fork; frames leak only if the child's directory still held data. */
  lemma ForkSound(m: Memory, father: nat, child: nat)
    requires CanFork(m, father, child)
    ensures var n := Forked(m, father, child);
            && Sound(n) && Image(n.tables[child]) && Coherent(n) && n.cr3 == father
            && n.phys == AllocN(m.phys, NUM_PAG_DATA).phys
            && HeapLength(n.tables[child]) == HeapLength(m.tables[child])
            && (NoLeak(m) && DataClear(m.tables[child]) ==> NoLeak(n))
  {
    var n := Forked(m, father, child);
    ForkExtends(m, father, child);
    ForkSoundFrom(m, n, father, child, AllocN(m.phys, NUM_PAG_DATA).frames);
  }

  lemma ForkSoundFrom(m: Memory, n: Memory, father: nat, child: nat, frames: seq<nat>)
    requires Sound(m) && father < NR_TASKS && father != child && Image(m.tables[father])
    requires |frames| == NUM_PAG_DATA && Extends(m, n, child, PAG_LOG_INIT_DATA, frames)
    requires n.cr3 == father && n.tlb == Translations(m.tables[father])
    requires n.tables == m.tables[child := n.tables[child]]
    requires forall p :: 0 <= p < PAG_LOG_INIT_DATA ==>
               n.tables[child][p] == Mapping(m.tables[father][p].frame)
    ensures Sound(n) && Image(n.tables[child]) && Coherent(n)
    ensures HeapLength(n.tables[child]) == HeapLength(m.tables[child])
    ensures NoLeak(m) && DataClear(m.tables[child]) ==> NoLeak(n)
  {
    ExtensionExclusive(m, n, child, PAG_LOG_INIT_DATA, frames);
    HeapLengthIs(n.tables[child], HeapLength(m.tables[child]));
    if NoLeak(m) && DataClear(m.tables[child]) {
      ExtensionNoLeak(m, n, child, PAG_LOG_INIT_DATA, frames);
    }
  }

  // ---------- exit ----------

  // A data frame of d belongs to no other entry and is one free_frame accepts.
  lemma DataFramesAreOwn(m: Memory, d: nat)
    requires Sound(m) && d < NR_TASKS && Image(m.tables[d])
    ensures forall e, p :: Owns(m, e, p) ==>
              (FrameAt(m, e, p) in DataFrames(m.tables[d]) <==> e == d && p < HEAP_START)
    ensures forall f :: f in DataFrames(m.tables[d]) ==> Freeable(f) && !CodeFrame(f)
  {
    DataFramesInMemory(m, d);
    var data := DataFrames(m.tables[d]);
    forall e, p | Owns(m, e, p)
      ensures FrameAt(m, e, p) in data <==> e == d && p < HEAP_START
    {
      forall i | 0 <= i < NUM_PAG_DATA && data[i] == FrameAt(m, e, p)
        ensures e == d && p == PAG_LOG_INIT_DATA + i
      {
        assert Owns(m, d, PAG_LOG_INIT_DATA + i);
      }
      if e == d && p < HEAP_START {
        assert data[p - PAG_LOG_INIT_DATA] == FrameAt(m, e, p);
      }
    }
    forall f | f in data
      ensures Freeable(f) && !CodeFrame(f)
    {
      var i :| 0 <= i < NUM_PAG_DATA && data[i] == f;
      assert Owns(m, d, PAG_LOG_INIT_DATA + i);
    }
  }

  /**
   Freeing a directory gives back exactly its data frames; every other directory keeps its table
   and its frames. The strict bound of free_frame never bites.
   */
  lemma ReleaseExact(m: Memory, d: nat)
    requires Sound(m) && d < NR_TASKS && Image(m.tables[d])
    ensures var n := FreeUserPages(m, d);
            && Sound(n) && DataClear(n.tables[d])
            && (forall f :: 0 <= f < TOTAL_PAGES ==>
                  (n.phys[f] <==> m.phys[f] && f !in DataFrames(m.tables[d])))
            && (forall e :: 0 <= e < NR_TASKS && e != d ==> n.tables[e] == m.tables[e])
            && (forall p :: 0 <= p < PAG_LOG_INIT_DATA || HEAP_START <= p < TOTAL_PAGES ==>
                  n.tables[d][p] == m.tables[d][p])
            && HeapLength(n.tables[d]) == HeapLength(m.tables[d])
            && (NoLeak(m) ==> NoLeak(n))
  {
    DataFramesAreOwn(m, d);
    var n := FreeUserPages(m, d);
    forall e, p | Owns(n, e, p)
      ensures Owns(m, e, p) && n.tables[e][p] == m.tables[e][p]
      ensures FrameAt(m, e, p) !in DataFrames(m.tables[d])
    {
    }
    HeapLengthIs(n.tables[d], HeapLength(m.tables[d]));
    if NoLeak(m) { ReleaseNoLeak(m, d); }
  }

  lemma ReleaseNoLeak(m: Memory, d: nat)
    requires Sound(m) && d < NR_TASKS && Image(m.tables[d]) && NoLeak(m)
    ensures NoLeak(FreeUserPages(m, d))
  {
    DataFramesAreOwn(m, d);
    var n := FreeUserPages(m, d);
    forall f | NUM_PAG_KERNEL <= f < TOTAL_PAGES && n.phys[f] && !CodeFrame(f)
      ensures exists e, p :: Owns(n, e, p) && FrameAt(n, e, p) == f
    {
      var e, p :| Owns(m, e, p) && FrameAt(m, e, p) == f;
      assert Owns(n, e, p) && FrameAt(n, e, p) == f;
    }
  }

  /** Releasing the child right after the fork restores the set of free frames. */
  lemma ForkThenRelease(m: Memory, father: nat, child: nat)
    requires CanFork(m, father, child)
    ensures Shaped(Forked(m, father, child))
    ensures FreeUserPages(Forked(m, father, child), child).phys == m.phys
  {
    ForkSound(m, father, child);
    ForkExtends(m, father, child);
    ReleaseUndoes(m, Forked(m, father, child), child, AllocN(m.phys, NUM_PAG_DATA).frames);
  }

  lemma ReleaseUndoes(m: Memory, n: Memory, child: nat, frames: seq<nat>)
    requires |frames| == NUM_PAG_DATA && Extends(m, n, child, PAG_LOG_INIT_DATA, frames)
    requires Sound(n) && Image(n.tables[child])
    ensures FreeUserPages(n, child).phys == m.phys
  {
    ReleaseExact(n, child);
    assert DataFrames(n.tables[child]) == frames;
  }

  // ---------- Counting frames ----------

  ghost function UsedFrames(m: Memory): set<int>
    requires Shaped(m)
  {
    set f | NUM_PAG_KERNEL <= f < TOTAL_PAGES && m.phys[f]
  }

  // The data and heap entries of all directories.
  ghost function Entries(m: Memory): set<(int, int)> {
    set d, p | 0 <= d < NR_TASKS && PAG_LOG_INIT_DATA <= p < TOTAL_PAGES && Owns(m, d, p) :: (d, p)
  }

  ghost function FramesOf(m: Memory, entries: set<(int, int)>): set<int> {
    set e | e in entries && Owns(m, e.0, e.1) :: FrameAt(m, e.0, e.1)
  }

  lemma {:induction false} OneFrameEach(m: Memory, entries: set<(int, int)>)
    requires Shaped(m) && Exclusive(m) && forall e :: e in entries ==> Owns(m, e.0, e.1)
    ensures |FramesOf(m, entries)| == |entries|
  {
    hide Shaped, Exclusive;
    if entries == {} {
      assert FramesOf(m, entries) == {};
    } else {
      var e :| e in entries;
      var rest := entries - {e};
      OneFrameEach(m, rest);
      assert entries == rest + {e};
      OneMoreFrame(m, rest, e);
    }
  }

  lemma OneMoreFrame(m: Memory, rest: set<(int, int)>, e: (int, int))
    requires Shaped(m) && Exclusive(m) && Owns(m, e.0, e.1) && e !in rest
    ensures FramesOf(m, rest + {e}) == FramesOf(m, rest) + {FrameAt(m, e.0, e.1)}
    ensures FrameAt(m, e.0, e.1) !in FramesOf(m, rest)
  {
  }

  ghost function CodeFrames(): set<int> {
    set f | 0 <= f < TOTAL_PAGES && CodeFrame(f)
  }

  lemma EightCodeFrames()
    ensures |CodeFrames()| == NUM_PAG_CODE
  {
    assert CodeFrames() == {256, 258, 260, 262, 264, 266, 268, 270};
  }

  lemma UsedAreCodeAndOwned(m: Memory)
    requires Sound(m) && NoLeak(m)
    ensures UsedFrames(m) == CodeFrames() + FramesOf(m, Entries(m))
    ensures CodeFrames() !! FramesOf(m, Entries(m))
  {
    hide HeapsContiguous;
    var own := FramesOf(m, Entries(m));
    forall f | f in UsedFrames(m) && f !in CodeFrames()
      ensures f in own
    {
      var d, p :| Owns(m, d, p) && FrameAt(m, d, p) == f;
      assert (d, p) in Entries(m);
    }
  }

  /** When no frame has leaked the used user frames number eight more than the mapped entries. */
  lemma FrameCount(m: Memory)
    requires Sound(m) && NoLeak(m)
    ensures |UsedFrames(m)| == NUM_PAG_CODE + |Entries(m)|
  {
    hide CodeFrames, UsedFrames, FramesOf, HeapsContiguous, CodeTaken;
    UsedAreCodeAndOwned(m);
    EightCodeFrames();
    OneFrameEach(m, Entries(m));
  }

  // ---------- Isolation ----------

  // The byte at an offset of a page, as directory d sees it.
  ghost predicate Sees(m: Memory, d: int, p: int, offset: int, b: Byte) {
    && 0 <= d < |m.tables| && 0 <= p < |m.tables[d]|
    && FrameAt(m, d, p) < |m.bytes| && 0 <= offset < |m.bytes[FrameAt(m, d, p)]|
    && m.bytes[FrameAt(m, d, p)][offset] == b
  }

  // The entry for page p lets user code store there.
  ghost predicate Writable(m: Memory, d: int, p: int) {
    && 0 <= d < |m.tables| && 0 <= p < |m.tables[d]|
    && m.tables[d][p].present && m.tables[d][p].user && m.tables[d][p].rw
  }

  // A user store through page p of directory d.
  ghost function Store(m: Memory, d: int, p: int, offset: int, b: Byte): Memory
    requires 0 <= d < |m.tables| && 0 <= p < |m.tables[d]| && FrameAt(m, d, p) < |m.bytes|
    requires 0 <= offset < |m.bytes[FrameAt(m, d, p)]|
  {
    var f := FrameAt(m, d, p);
    var page: seq<Byte> := m.bytes[f][offset := b];
    m.(bytes := m.bytes[f := page])
  }

  /** A store through one directory's data or heap shows at that page alone, in no other place. */
  lemma StoreIsolated(m: Memory, d: int, p: int, offset: int, b: Byte, e: int, q: int, at: int, seen: Byte)
    requires Sound(m) && Owns(m, d, p)
    requires 0 <= offset < |m.bytes[FrameAt(m, d, p)]|
    requires Owns(m, e, q) || (0 <= e < NR_TASKS && 0 <= q < TOTAL_PAGES && CodeFrame(FrameAt(m, e, q)))
    requires Sees(m, e, q, at, seen)
    ensures Sees(Store(m, d, p, offset, b), e, q, at,
                 if e == d && q == p && at == offset then b else seen)
  {
  }

  // Directory e can reach the frame behind page p of directory d.
  ghost predicate Reaches(m: Memory, e: int, d: int, p: int)
    requires Shaped(m) && 0 <= d < NR_TASKS && 0 <= e < NR_TASKS && 0 <= p < TOTAL_PAGES
  {
    exists q :: 0 <= q < TOTAL_PAGES && m.tables[e][q].present && FrameAt(m, e, q) == FrameAt(m, d, p)
  }

  /**
   A store some process is permitted reaches another process exactly if it is to a page below the
   data area which the other one has too.
   */
  lemma StoreReach(m: Memory, d: int, p: int, e: int)
    requires Sound(m) && 0 <= d < NR_TASKS && 0 <= e < NR_TASKS && d != e
    requires Image(m.tables[d]) && Image(m.tables[e]) && Writable(m, d, p)
    ensures Reaches(m, e, d, p) <==> p < PAG_LOG_INIT_DATA && m.tables[e][p].present
  {
    if p < PAG_LOG_INIT_DATA {
      LowFrames(m, d, p);
      LowFrames(m, e, p);
      forall q | 0 <= q < TOTAL_PAGES && m.tables[e][q].present && FrameAt(m, e, q) == FrameAt(m, d, p)
        ensures q == p
      {
        if q < PAG_LOG_INIT_DATA { LowFrames(m, e, q); } else { HighFrames(m, e, q); }
      }
    } else {
      HighFrames(m, d, p);
      assert Owns(m, d, p);
      forall q | 0 <= q < TOTAL_PAGES && m.tables[e][q].present
        ensures FrameAt(m, e, q) != FrameAt(m, d, p)
      {
        if q < PAG_LOG_INIT_DATA { LowFrames(m, e, q); }
      }
    }
  }

  // The frame behind a kernel or code page is the same for everybody.
  function LowFrame(p: int): int {
    if p < NUM_PAG_KERNEL then p else NUM_PAG_KERNEL + 2 * (p - PAG_LOG_INIT_CODE)
  }

  lemma LowFrames(m: Memory, d: int, p: int)
    requires Sound(m) && 0 <= d < NR_TASKS && Image(m.tables[d]) && 0 <= p < PAG_LOG_INIT_DATA
    ensures FrameAt(m, d, p) == LowFrame(p)
    ensures LowFrame(p) < NUM_PAG_KERNEL || CodeFrame(LowFrame(p))
  {
  }

  lemma HighFrames(m: Memory, d: int, p: int)
    requires Sound(m) && 0 <= d < NR_TASKS && PAG_LOG_INIT_DATA <= p < TOTAL_PAGES && m.tables[d][p].present
    ensures StrideFrame(FrameAt(m, d, p)) && !CodeFrame(FrameAt(m, d, p))
  {
    assert Owns(m, d, p);
  }

  /** And a forked child is permitted to store to every such page, kernel and code alike. */
  lemma ForkWritable(m: Memory, father: nat, child: nat, p: int)
    requires CanFork(m, father, child) && 0 <= p < PAG_LOG_INIT_DATA
    ensures var n := Forked(m, father, child);
            && Sound(n) && Image(n.tables[father]) && Image(n.tables[child]) && Writable(n, child, p)
            && (Reaches(n, father, child, p) <==> m.tables[father][p].present)
  {
    hide Forked, Exclusive, CodeTaken, HeapsContiguous;
    ForkSound(m, father, child);
    ForkExtends(m, father, child);
    StoreReach(Forked(m, father, child), child, p, father);
  }
}
