/**
 Address spaces as values: the frame map, the page tables, the bytes of physical memory, CR3 and
 the translations the processor may still hold (mm.c, and the memory half of sys.c).
 */
module Paging {
  import opened Params

  datatype Pte = Pte(frame: nat, present: bool, user: bool, rw: bool)

  const ZERO := Pte(0, false, false, false)

  // What set_ss_pag writes.
  function Mapping(frame: nat): Pte { Pte(frame, true, true, true) }

  type Table = seq<Pte>

  /**
   phys[f] says that frame f is used. tlb holds every (page, frame) pair the processor may have
   cached since CR3 was last written: adding an entry to the current table adds its pair, removing
   the entry leaves the pair behind (Intel SDM Vol. 3A, section 4.10).
   */
  datatype Memory = Memory(phys: seq<bool>, tables: seq<Table>, bytes: seq<seq<Byte>>,
                           cr3: nat, tlb: set<(nat, nat)>)

  ghost predicate Shaped(m: Memory) {
    && |m.phys| == TOTAL_PAGES
    && |m.tables| == NR_TASKS
    && (forall d :: 0 <= d < NR_TASKS ==> |m.tables[d]| == TOTAL_PAGES)
    && |m.bytes| == TOTAL_PAGES
    && m.cr3 < NR_TASKS
  }

  // ---------- The frame allocator ----------

  // The frames alloc_frame looks at: every second one from the end of the kernel.
  predicate StrideFrame(f: int) { NUM_PAG_KERNEL <= f < TOTAL_PAGES && f % 2 == 0 }

  // The frames of the eight code pages, taken first at boot and shared from then on.
  predicate CodeFrame(f: int) {
    PAG_LOG_INIT_CODE <= f < PAG_LOG_INIT_CODE + 2 * NUM_PAG_CODE && f % 2 == 0
  }

  ghost function FreeFrames(phys: seq<bool>): set<int>
    requires |phys| == TOTAL_PAGES
  {
    set f | 0 <= f < TOTAL_PAGES && StrideFrame(f) && !phys[f]
  }

  // The scan of alloc_frame from frame i on; TOTAL_PAGES stands for "none".
  function FirstFree(phys: seq<bool>, i: nat): (f: nat)
    requires |phys| == TOTAL_PAGES
    requires NUM_PAG_KERNEL <= i <= TOTAL_PAGES && i % 2 == 0
    ensures i <= f <= TOTAL_PAGES
    ensures f < TOTAL_PAGES ==> StrideFrame(f) && !phys[f]
    ensures forall g :: i <= g < f && StrideFrame(g) ==> phys[g]
    decreases TOTAL_PAGES - i, phys
  {
    if i >= TOTAL_PAGES then TOTAL_PAGES
    else if !phys[i] then i
    else FirstFree(phys, i + 2)
  }

  datatype Allocation = NoFrame | Allocated(phys: seq<bool>, frames: seq<nat>)

  // n calls of alloc_frame in a row.
  function AllocN(phys: seq<bool>, n: nat): (a: Allocation)
    requires |phys| == TOTAL_PAGES
    ensures a.Allocated? ==> |a.phys| == TOTAL_PAGES && |a.frames| == n
  {
    if n == 0 then Allocated(phys, [])
    else
      match AllocN(phys, n - 1)
      case NoFrame => NoFrame
      case Allocated(p, fs) =>
        var f := FirstFree(p, NUM_PAG_KERNEL);
        if f >= TOTAL_PAGES then NoFrame else Allocated(p[f := true], fs + [f])
  }

  ghost predicate Distinct(s: seq<nat>) {
    forall i, j :: 0 <= i < j < |s| ==> s[i] != s[j]
  }

  // "after" is "before" with exactly these frames, all free before, marked used.
  ghost predicate Took(before: seq<bool>, after: seq<bool>, frames: seq<nat>) {
    && |before| == |after| == TOTAL_PAGES
    && Distinct(frames)
    && (forall i :: 0 <= i < |frames| ==> StrideFrame(frames[i]) && !before[frames[i]])
    && (forall f :: 0 <= f < TOTAL_PAGES ==> after[f] == (before[f] || f in frames))
  }

  lemma {:induction false} AllocTook(phys: seq<bool>, n: nat)
    requires |phys| == TOTAL_PAGES
    requires AllocN(phys, n).Allocated?
    ensures Took(phys, AllocN(phys, n).phys, AllocN(phys, n).frames)
  {
    if n == 0 {
    } else {
      AllocTook(phys, n - 1);
    }
  }

  lemma {:induction false} AllocCount(phys: seq<bool>, n: nat)
    requires |phys| == TOTAL_PAGES
    ensures AllocN(phys, n).NoFrame? <==> |FreeFrames(phys)| < n
    ensures AllocN(phys, n).Allocated? ==>
              |FreeFrames(AllocN(phys, n).phys)| == |FreeFrames(phys)| - n
  {
    if n == 0 {
    } else {
      AllocCount(phys, n - 1);
      match AllocN(phys, n - 1)
      case NoFrame =>
      case Allocated(p, fs) =>
        var f := FirstFree(p, NUM_PAG_KERNEL);
        if f < TOTAL_PAGES { TakeOne(p, f); } else { NoneFree(p); }
    }
  }

  lemma TakeOne(phys: seq<bool>, f: nat)
    requires |phys| == TOTAL_PAGES && f < TOTAL_PAGES && StrideFrame(f) && !phys[f]
    ensures |FreeFrames(phys[f := true])| == |FreeFrames(phys)| - 1
  {
    assert f in FreeFrames(phys);
    assert FreeFrames(phys[f := true]) == FreeFrames(phys) - {f};
  }

  lemma NoneFree(phys: seq<bool>)
    requires |phys| == TOTAL_PAGES && FirstFree(phys, NUM_PAG_KERNEL) == TOTAL_PAGES
    ensures |FreeFrames(phys)| == 0
  {
    assert FreeFrames(phys) == {};
  }

  /** n allocations succeed exactly when n stride frames are free, and then take n of them. */
  lemma AllocExact(phys: seq<bool>, n: nat)
    requires |phys| == TOTAL_PAGES
    ensures AllocN(phys, n).NoFrame? <==> |FreeFrames(phys)| < n
    ensures AllocN(phys, n).Allocated? ==>
              && Took(phys, AllocN(phys, n).phys, AllocN(phys, n).frames)
              && |FreeFrames(AllocN(phys, n).phys)| == |FreeFrames(phys)| - n
  {
    AllocCount(phys, n);
    if AllocN(phys, n).Allocated? { AllocTook(phys, n); }
  }

  /** A failed request stays failed when more frames are asked for. */
  lemma {:induction false} AllocMonotone(phys: seq<bool>, i: nat, n: nat)
    requires |phys| == TOTAL_PAGES && i <= n
    requires AllocN(phys, i).NoFrame?
    ensures AllocN(phys, n).NoFrame?
  {
    AllocExact(phys, i);
    AllocExact(phys, n);
  }

  lemma StrideCount(s: set<int>)
    requires forall f :: f in s ==> StrideFrame(f)
    ensures |s| <= 384
  {
    HalfBound(s, 384);
  }

  lemma {:induction false} HalfBound(s: set<int>, n: nat)
    requires forall f :: f in s ==> NUM_PAG_KERNEL <= f < NUM_PAG_KERNEL + 2 * n && f % 2 == 0
    ensures |s| <= n
  {
    if n == 0 {
      assert forall f :: f !in s;
    } else {
      HalfBound(s - {NUM_PAG_KERNEL + 2 * (n - 1)}, n - 1);
    }
  }

  // ---------- Page tables and the translation cache ----------

  function FrameAt(m: Memory, d: int, p: int): nat
    requires 0 <= d < |m.tables| && 0 <= p < |m.tables[d]|
  {
    m.tables[d][p].frame
  }

  // Page p of directory d holds a data or heap mapping.
  ghost predicate Owns(m: Memory, d: int, p: int) {
    && 0 <= d < |m.tables|
    && PAG_LOG_INIT_DATA <= p < TOTAL_PAGES && p < |m.tables[d]|
    && m.tables[d][p] != ZERO
  }

  // The translations a walk of table t can produce.
  ghost function Translations(t: Table): set<(nat, nat)> {
    set p: nat | p < |t| && t[p].present :: (p, t[p].frame)
  }

  // set_cr3: the new directory's own translations are all the processor can hold afterwards.
  ghost function SetCr3(m: Memory, d: nat): Memory
    requires d < |m.tables|
  {
    m.(cr3 := d, tlb := Translations(m.tables[d]))
  }

  // Every translation the processor may hold is the one the current table gives.
  ghost predicate Coherent(m: Memory) {
    && m.cr3 < |m.tables|
    && forall e :: e in m.tlb ==>
         && e.0 < |m.tables[m.cr3]|
         && m.tables[m.cr3][e.0].present
         && m.tables[m.cr3][e.0].frame == e.1
  }

  // An access to page p can only reach frame f.
  ghost predicate Resolves(m: Memory, p: nat, f: nat) {
    && m.cr3 < |m.tables| && p < |m.tables[m.cr3]|
    && m.tables[m.cr3][p].present && m.tables[m.cr3][p].frame == f
    && forall e :: e in m.tlb && e.0 == p ==> e.1 == f
  }

  // ---------- Address 0 ----------

  // Page 0 can be accessed through the current table.
  ghost predicate ZeroPage(m: Memory)
    requires Shaped(m)
  {
    m.tables[m.cr3][0].present
  }

  function Zeroed(page: seq<Byte>): (r: seq<Byte>)
    ensures |r| == |page|
  {
    seq<Byte>(|page|, i requires 0 <= i < |page| => if i < 8 then 0 else page[i])
  }

  // list_del with null links: the null next and prev are stored at addresses 4 and 0.
  ghost function NullStored(m: Memory): (n: Memory)
    requires Shaped(m)
    ensures Shaped(n)
  {
    var f := FrameAt(m, m.cr3, 0);
    if f < TOTAL_PAGES then m.(bytes := m.bytes[f := Zeroed(m.bytes[f])]) else m
  }

  // ---------- The heap part of a table ----------

  // First unmapped page from p on.
  function HeapTop(t: Table, p: nat): (top: nat)
    requires |t| == TOTAL_PAGES && p <= TOTAL_PAGES
    ensures p <= top <= TOTAL_PAGES
    ensures top < TOTAL_PAGES ==> t[top] == ZERO
    ensures forall q :: p <= q < top ==> t[q] != ZERO
    decreases TOTAL_PAGES - p, t
  {
    if p == TOTAL_PAGES || t[p] == ZERO then p else HeapTop(t, p + 1)
  }

  // Number of mapped pages at the start of the heap.
  function HeapLength(t: Table): nat
    requires |t| == TOTAL_PAGES
  {
    HeapTop(t, HEAP_START) - HEAP_START
  }

  // The mapped heap pages are one run from the heap base.
  ghost predicate Contiguous(t: Table)
    requires |t| == TOTAL_PAGES
  {
    forall p :: HeapTop(t, HEAP_START) <= p < TOTAL_PAGES ==> t[p] == ZERO
  }

  lemma HeapLengthIs(t: Table, n: nat)
    requires |t| == TOTAL_PAGES && HEAP_START + n <= TOTAL_PAGES
    requires forall p :: HEAP_START <= p < TOTAL_PAGES ==> (t[p] == ZERO <==> p >= HEAP_START + n)
    ensures HeapLength(t) == n && Contiguous(t)
  {
    var top := HeapTop(t, HEAP_START);
    var above := if HEAP_START + n < TOTAL_PAGES then t[HEAP_START + n] else ZERO;
    if top < HEAP_START + n {
      assert false;
    } else if top > HEAP_START + n {
      assert false;
    }
  }

  // The search of sys_sbrk: the first n unmapped pages from p on, fewer if there are fewer.
  function FreeSlots(t: Table, p: nat, n: nat): (s: seq<nat>)
    requires |t| == TOTAL_PAGES && p <= TOTAL_PAGES
    ensures |s| <= n
    ensures forall i :: 0 <= i < |s| ==> p <= s[i] < TOTAL_PAGES && t[s[i]] == ZERO
    decreases TOTAL_PAGES - p, t
  {
    if p == TOTAL_PAGES || n == 0 then []
    else if t[p] == ZERO then [p] + FreeSlots(t, p + 1, n - 1)
    else FreeSlots(t, p + 1, n)
  }

  function PagesFrom(start: nat, n: nat): (s: seq<nat>)
    ensures |s| == n && forall i :: 0 <= i < n ==> s[i] == start + i
  {
    seq(n, i => start + i)
  }

  /** On a contiguous heap the search finds the n pages right above the run. */
  lemma {:induction false} FreeSlotsAreNext(t: Table, p: nat, n: nat)
    requires |t| == TOTAL_PAGES && HEAP_START <= p <= TOTAL_PAGES
    requires Contiguous(t)
    requires var start := if p < HeapTop(t, HEAP_START) then HeapTop(t, HEAP_START) else p;
             start + n <= TOTAL_PAGES
    ensures var start := if p < HeapTop(t, HEAP_START) then HeapTop(t, HEAP_START) else p;
            FreeSlots(t, p, n) == PagesFrom(start, n)
    decreases TOTAL_PAGES - p
  {
    if p == TOTAL_PAGES || n == 0 {
    } else if t[p] == ZERO {
      FreeSlotsAreNext(t, p + 1, n - 1);
    } else {
      FreeSlotsAreNext(t, p + 1, n);
    }
  }

  // The first n of the given mappings entered in a table.
  function Enter(t: Table, pages: seq<nat>, frames: seq<nat>, n: nat): (r: Table)
    requires n <= |pages| && n <= |frames|
    requires forall i :: 0 <= i < |pages| ==> pages[i] < |t|
    ensures |r| == |t|
  {
    if n == 0 then t else Enter(t, pages, frames, n - 1)[pages[n - 1] := Mapping(frames[n - 1])]
  }

  lemma {:induction false} EnterRun(t: Table, start: nat, frames: seq<nat>, n: nat)
    requires n <= |frames| && start + |frames| <= |t|
    ensures forall p :: 0 <= p < |t| ==>
              Enter(t, PagesFrom(start, |frames|), frames, n)[p] ==
                if start <= p < start + n then Mapping(frames[p - start]) else t[p]
  {
    if n == 0 {
    } else {
      EnterRun(t, start, frames, n - 1);
    }
  }

  // ---------- Steps on memory ----------

  // The child's table after a fork: everything below the data area from the father, fresh
  // frames for the data area, and above it whatever the directory held before.
  function ChildTable(father: Table, child: Table, frames: seq<nat>): (t: Table)
    requires |father| == |child| == TOTAL_PAGES && |frames| == NUM_PAG_DATA
    ensures |t| == TOTAL_PAGES
  {
    seq(TOTAL_PAGES, p requires 0 <= p < TOTAL_PAGES =>
      if p < PAG_LOG_INIT_DATA then Mapping(father[p].frame)
      else if p < HEAP_START then Mapping(frames[p - PAG_LOG_INIT_DATA])
      else child[p])
  }

  // The first n page copies of a fork, in order.
  function CopyPages(bytes: seq<seq<Byte>>, from: seq<nat>, to: seq<nat>, n: nat): (r: seq<seq<Byte>>)
    requires n <= |from| && n <= |to|
    requires forall i :: 0 <= i < |from| ==> from[i] < |bytes|
    requires forall i :: 0 <= i < |to| ==> to[i] < |bytes|
    ensures |r| == |bytes|
  {
    if n == 0 then bytes
    else
      var r := CopyPages(bytes, from, to, n - 1);
      r[to[n - 1] := r[from[n - 1]]]
  }

  // The frames behind the twenty data pages of a table.
  function DataFrames(t: Table): (s: seq<nat>)
    requires |t| == TOTAL_PAGES
    ensures |s| == NUM_PAG_DATA
  {
    seq<nat>(NUM_PAG_DATA, i requires 0 <= i < NUM_PAG_DATA => t[PAG_LOG_INIT_DATA + i].frame)
  }

  ghost predicate InMemory(frames: seq<nat>) {
    forall i :: 0 <= i < |frames| ==> frames[i] < TOTAL_PAGES
  }

  // The memory half of sys_fork once the frames are there.
  ghost function ForkSpace(m: Memory, father: nat, child: nat, a: Allocation): Memory
    requires Shaped(m) && father < NR_TASKS && child < NR_TASKS
    requires a.Allocated? && |a.frames| == NUM_PAG_DATA
    requires InMemory(a.frames) && InMemory(DataFrames(m.tables[father]))
  {
    var tables := m.tables[child := ChildTable(m.tables[father], m.tables[child], a.frames)];
    Memory(a.phys, tables,
           CopyPages(m.bytes, DataFrames(m.tables[father]), a.frames, NUM_PAG_DATA),
           father, Translations(tables[father]))
  }

  // free_frame: the bound is strict, so the first user frame cannot be freed.
  predicate Freeable(f: int) { NUM_PAG_KERNEL < f < TOTAL_PAGES }

  // free_user_pages: no flush.
  ghost function FreeUserPages(m: Memory, d: nat): Memory
    requires Shaped(m) && d < NR_TASKS
  {
    var data := DataFrames(m.tables[d]);
    m.(phys := seq(TOTAL_PAGES, f requires 0 <= f < TOTAL_PAGES =>
                     m.phys[f] && !(Freeable(f) && f in data)),
       tables := m.tables[d := ClearData(m.tables[d])])
  }

  function ClearData(t: Table): (r: Table)
    requires |t| == TOTAL_PAGES
    ensures |r| == TOTAL_PAGES
  {
    seq(TOTAL_PAGES, p requires 0 <= p < TOTAL_PAGES =>
      if PAG_LOG_INIT_DATA <= p < HEAP_START then ZERO else t[p])
  }

  datatype Growth = Grown(m: Memory) | Refused(m: Memory, error: int)

  // The allocating part of sys_sbrk on the current directory. The second refusal keeps the
  // frames it obtained.
  ghost function Grow(m: Memory, need: nat): Growth
    requires Shaped(m)
  {
    match AllocN(m.phys, need)
    case NoFrame => Refused(m, -ENOMEM)
    case Allocated(phys, frames) =>
      var t := m.tables[m.cr3];
      var slots := FreeSlots(t, HEAP_START, need);
      if |slots| < need then Refused(m.(phys := phys), -EAGAIN)
      else Grown(m.(phys := phys,
                    tables := m.tables[m.cr3 := Enter(t, slots, frames, need)],
                    tlb := m.tlb + (set i | 0 <= i < need :: (slots[i], frames[i]))))
  }

  // ---------- Boot ----------

  // init_frames
  function BootFrames(): (phys: seq<bool>)
    ensures |phys| == TOTAL_PAGES
  {
    seq(TOTAL_PAGES, f => f < NUM_PAG_KERNEL)
  }

  // init_table_pages: kernel pages one to one, page 0 left out and the guard pages not present.
  function KernelTable(): (t: Table)
    ensures |t| == TOTAL_PAGES
  {
    seq(TOTAL_PAGES, p => if 1 <= p < NUM_PAG_KERNEL
                         then Pte(p, p != GUARD_LOW && p != GUARD_HIGH, false, true) else ZERO)
  }

  // set_user_pages with the frames it was given, code first.
  function UserTable(t: Table, frames: seq<nat>): (r: Table)
    requires |t| == TOTAL_PAGES && |frames| == NUM_PAG_CODE + NUM_PAG_DATA
    ensures |r| == TOTAL_PAGES
  {
    seq(TOTAL_PAGES, p requires 0 <= p < TOTAL_PAGES =>
      if PAG_LOG_INIT_CODE <= p < PAG_LOG_INIT_DATA then
        Pte(frames[p - PAG_LOG_INIT_CODE], true, true, false)
      else if PAG_LOG_INIT_DATA <= p < HEAP_START then Mapping(frames[p - PAG_LOG_INIT_CODE])
      else t[p])
  }

  // ---------- The invariant ----------

  // Data and heap entries of all directories, dead ones included, hold pairwise distinct used
  // frames that are no kernel and no code frames.
  ghost predicate Exclusive(m: Memory)
    requires Shaped(m)
  {
    && (forall d, p :: Owns(m, d, p) ==>
          StrideFrame(FrameAt(m, d, p)) && !CodeFrame(FrameAt(m, d, p))
          && m.phys[FrameAt(m, d, p)]
          && m.tables[d][p].present && m.tables[d][p].user && m.tables[d][p].rw)
    && (forall d, p, e, q :: Owns(m, d, p) && Owns(m, e, q) && FrameAt(m, d, p) == FrameAt(m, e, q)
          ==> d == e && p == q)
  }

  ghost predicate CodeTaken(m: Memory) {
    |m.phys| == TOTAL_PAGES && forall f :: 0 <= f < TOTAL_PAGES && CodeFrame(f) ==> m.phys[f]
  }

  ghost predicate HeapsContiguous(m: Memory)
    requires Shaped(m)
  {
    forall d :: 0 <= d < NR_TASKS ==> Contiguous(m.tables[d])
  }

  // Every directory has the kernel's own frames behind the kernel pages.
  ghost predicate KernelMapped(m: Memory)
    requires Shaped(m)
  {
    forall d, p :: 0 <= d < NR_TASKS && 0 <= p < NUM_PAG_KERNEL ==> m.tables[d][p].frame == p
  }

  ghost predicate Sound(m: Memory) {
    Shaped(m) && Exclusive(m) && CodeTaken(m) && HeapsContiguous(m) && KernelMapped(m)
  }

  // No frame is used without a mapping that accounts for it.
  ghost predicate NoLeak(m: Memory)
    requires Shaped(m)
  {
    forall f :: NUM_PAG_KERNEL <= f < TOTAL_PAGES && m.phys[f] ==>
      CodeFrame(f) || exists d, p :: Owns(m, d, p) && FrameAt(m, d, p) == f
  }

  // A complete user image: shared code frames and a mapped data area, all of it for user code.
  ghost predicate Image(t: Table) {
    && |t| == TOTAL_PAGES
    && (forall p :: PAG_LOG_INIT_CODE <= p < PAG_LOG_INIT_DATA ==>
          t[p].frame == NUM_PAG_KERNEL + 2 * (p - PAG_LOG_INIT_CODE) && t[p].present && t[p].user)
    && (forall p :: PAG_LOG_INIT_DATA <= p < HEAP_START ==> t[p].present && t[p].user && t[p].rw)
  }

  ghost predicate DataClear(t: Table) {
    |t| == TOTAL_PAGES && forall p :: PAG_LOG_INIT_DATA <= p < HEAP_START ==> t[p] == ZERO
  }
}
