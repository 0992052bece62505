/** Where every used frame is accounted for, over every run: code, mapped entries, and lost ones. */
module FrameLedger {
  import opened Params
  import opened Paging
  import opened AddressSpaces
  import opened Machine
  import opened TaskQueues
  import opened Invariants
  import opened SpaceRuns

  // ---------- Lost frames ----------

  // Some data or heap entry maps f.
  ghost predicate Owned(m: Memory, f: int) {
    exists d, p :: Owns(m, d, p) && FrameAt(m, d, p) == f
  }

  // Used user frames no entry maps: nothing will ever free them.
  ghost function Leaked(m: Memory): set<int>
    requires Shaped(m)
  {
    set f | NUM_PAG_KERNEL <= f < TOTAL_PAGES && m.phys[f] && !CodeFrame(f) && !Owned(m, f)
  }

  // The frames behind pages lo, lo + 1, ... lo + n - 1 of directory d.
  ghost function Block(m: Memory, d: int, lo: int, n: nat): set<int> {
    set p | lo <= p < lo + n && Owns(m, d, p) :: FrameAt(m, d, p)
  }

  lemma NothingLeaked(m: Memory)
    requires Shaped(m)
    ensures NoLeak(m) <==> Leaked(m) == {}
  {
    if NoLeak(m) {
      forall f | NUM_PAG_KERNEL <= f < TOTAL_PAGES && m.phys[f] && !CodeFrame(f)
        ensures Owned(m, f)
      {
      }
      assert Leaked(m) == {};
    } else {
      var f :| NUM_PAG_KERNEL <= f < TOTAL_PAGES && m.phys[f] && !CodeFrame(f)
               && !exists d, p :: Owns(m, d, p) && FrameAt(m, d, p) == f;
      assert !Owned(m, f);
      assert f in Leaked(m);
    }
  }

  lemma OwnedFrames(m: Memory, f: int)
    requires Shaped(m)
    ensures Owned(m, f) <==> f in FramesOf(m, Entries(m))
  {
    if Owned(m, f) {
      var d, p :| Owns(m, d, p) && FrameAt(m, d, p) == f;
      assert (d, p) in Entries(m);
    }
  }

  lemma UsedParts(m: Memory)
    requires Sound(m)
    ensures UsedFrames(m) == CodeFrames() + FramesOf(m, Entries(m)) + Leaked(m)
    ensures CodeFrames() !! FramesOf(m, Entries(m)) !! Leaked(m)
  {
    hide HeapsContiguous, KernelMapped, Entries;
    forall f
      ensures Owned(m, f) <==> f in FramesOf(m, Entries(m))
    {
      OwnedFrames(m, f);
    }
  }

  /** The used user frames are the eight code frames, one for each entry, and the lost ones. */
  lemma UsedCount(m: Memory)
    requires Sound(m)
    ensures |UsedFrames(m)| == NUM_PAG_CODE + |Entries(m)| + |Leaked(m)|
  {
    hide CodeFrames, UsedFrames, FramesOf, Leaked, HeapsContiguous, CodeTaken;
    UsedParts(m);
    EightCodeFrames();
    OneFrameEach(m, Entries(m));
  }

  // ---------- One step ----------

  /** Mapping fresh frames over a block of pages loses what the block mapped, and nothing else. */
  lemma ExtensionLeaks(m: Memory, n: Memory, d0: nat, lo: nat, frames: seq<nat>)
    requires Extends(m, n, d0, lo, frames) && Exclusive(m)
    ensures Leaked(n) == Leaked(m) + Block(m, d0, lo, |frames|)
    ensures Leaked(m) !! Block(m, d0, lo, |frames|)
  {
    forall f | NUM_PAG_KERNEL <= f < TOTAL_PAGES
      ensures f in Leaked(n) <==> f in Leaked(m) || f in Block(m, d0, lo, |frames|)
    {
      ExtensionOwned(m, n, d0, lo, frames, f);
    }
  }

  lemma ExtensionOwned(m: Memory, n: Memory, d0: nat, lo: nat, frames: seq<nat>, f: int)
    requires Extends(m, n, d0, lo, frames) && Exclusive(m)
    ensures Owned(n, f) <==> f in frames || (Owned(m, f) && f !in Block(m, d0, lo, |frames|))
  {
    if i :| 0 <= i < |frames| && frames[i] == f {
      assert Owns(n, d0, lo + i) && FrameAt(n, d0, lo + i) == f;
    } else {
      if Owned(m, f) && f !in Block(m, d0, lo, |frames|) {
        var d, p :| Owns(m, d, p) && FrameAt(m, d, p) == f;
        assert Owns(n, d, p) && FrameAt(n, d, p) == f;
      }
      if Owned(n, f) {
        var d, p :| Owns(n, d, p) && FrameAt(n, d, p) == f;
        assert Owns(m, d, p) && FrameAt(m, d, p) == f;
      }
    }
  }

  // The data frames a step loses: a fork that builds its child over them.
  ghost function Lost(k: Kernel, e: Event): set<int>
    requires Shape(k)
  {
    if e.EFork? && ForkSucceeds(k) then Block(k.memory, ChildDirectory(k), PAG_LOG_INIT_DATA, NUM_PAG_DATA)
    else {}
  }

  lemma ForkLeaks(k: Kernel)
    requires Inv(k) && Enabled(k, EFork)
    ensures Leaked(Next(k, EFork).memory) == Leaked(k.memory) + Lost(k, EFork)
    ensures Leaked(k.memory) !! Lost(k, EFork)
  {
    hide Leaked, Block, Extends, ReferencesOk, StatesOk, QueuesOk, SemaphoresOk, ReadsOk, Fork;
    ForkRefused(k);
    if ForkSucceeds(k) {
      ForkIs(k);
      var d, c := k.tasks[k.current].dir, ChildDirectory(k);
      ForkExtends(k.memory, d, c);
      SpawnMemory(SpaceBuilt(k), c);
      ExtensionLeaks(k.memory, Forked(k.memory, d, c), c, PAG_LOG_INIT_DATA,
                     AllocN(k.memory.phys, NUM_PAG_DATA).frames);
    }
  }

  lemma SbrkLeaks(k: Kernel, increment: int)
    requires Inv(k) && Enabled(k, ESbrk(increment))
    ensures Leaked(Next(k, ESbrk(increment)).memory) == Leaked(k.memory)
  {
    hide ReferencesOk, StatesOk, QueuesOk, SemaphoresOk, ReadsOk, Leaked, Grow;
    var pb := k.tasks[k.current].programBreak;
    var need := PagesNeeded(pb, Future(pb, increment));
    if increment != 0 && need > 0 { GrowLeaks(k.memory, need); }
  }

  lemma GrowLeaks(m: Memory, need: nat)
    requires Sound(m) && Coherent(m)
    ensures Shaped(Grow(m, need).m) && Leaked(Grow(m, need).m) == Leaked(m)
  {
    hide Grow, Leaked, Extends, AllocN;
    GrowExact(m, need);
    if Grow(m, need).Grown? {
      AllocExact(m.phys, need);
      GrowExtends(m, need);
      var top, frames := HeapTop(m.tables[m.cr3], HEAP_START), AllocN(m.phys, need).frames;
      ExtensionLeaks(m, Grow(m, need).m, m.cr3, top, frames);
      assert Contiguous(m.tables[m.cr3]);
      assert Block(m, m.cr3, top, |frames|) == {};
    }
  }

  lemma ReleaseLeaks(m: Memory, d: nat)
    requires Sound(m) && d < NR_TASKS && Image(m.tables[d])
    ensures Shaped(FreeUserPages(m, d)) && Leaked(FreeUserPages(m, d)) == Leaked(m)
  {
    hide FreeUserPages, HeapsContiguous, KernelMapped;
    ReleaseExact(m, d);
    var n := FreeUserPages(m, d);
    forall f | NUM_PAG_KERNEL <= f < TOTAL_PAGES
      ensures f in Leaked(n) <==> f in Leaked(m)
    {
      ReleaseOwned(m, d, f);
    }
  }

  lemma ReleaseOwned(m: Memory, d: nat, f: int)
    requires Sound(m) && d < NR_TASKS && Image(m.tables[d])
    ensures Shaped(FreeUserPages(m, d))
    ensures Owned(FreeUserPages(m, d), f) <==> Owned(m, f) && f !in DataFrames(m.tables[d])
    ensures f in DataFrames(m.tables[d]) ==> Owned(m, f)
  {
    hide HeapsContiguous, KernelMapped;
    ReleaseExact(m, d);
    DataFramesAreOwn(m, d);
    DataFramesInMemory(m, d);
    var n := FreeUserPages(m, d);
    if Owned(n, f) {
      var e, p :| Owns(n, e, p) && FrameAt(n, e, p) == f;
      assert Owns(m, e, p) && FrameAt(m, e, p) == f;
    }
    if Owned(m, f) && f !in DataFrames(m.tables[d]) {
      var e, p :| Owns(m, e, p) && FrameAt(m, e, p) == f;
      assert Owns(n, e, p) && FrameAt(n, e, p) == f;
    }
    if f in DataFrames(m.tables[d]) {
      var i :| 0 <= i < NUM_PAG_DATA && DataFrames(m.tables[d])[i] == f;
      assert Owns(m, d, PAG_LOG_INIT_DATA + i) && FrameAt(m, d, PAG_LOG_INIT_DATA + i) == f;
    }
  }

  lemma ExitLeaks(k: Kernel, reclaims: bool)
    requires Inv(k) && Enabled(k, EExit(reclaims))
    ensures Leaked(Next(k, EExit(reclaims)).memory) == Leaked(k.memory)
  {
    hide ReferencesOk, SemaphoresOk, ReadsOk, FreeUserPages, Leaked;
    LeavingMemory(k, reclaims);
    assert Live(k, k.current);
    ReleaseLeaks(k.memory, k.tasks[k.current].dir);
    SchedNextUntouched(Leaving(k, reclaims));
    SameLeaks(Leaving(k, reclaims).memory, Next(k, EExit(reclaims)).memory);
  }

  lemma SameLeaks(m: Memory, n: Memory)
    requires Shaped(m) && Shaped(n) && n.phys == m.phys && n.tables == m.tables
    ensures Leaked(n) == Leaked(m)
  {
    forall f
      ensures Owned(n, f) <==> Owned(m, f)
    {
      if Owned(m, f) {
        var d, p :| Owns(m, d, p) && FrameAt(m, d, p) == f;
        assert Owns(n, d, p) && FrameAt(n, d, p) == f;
      }
      if Owned(n, f) {
        var d, p :| Owns(n, d, p) && FrameAt(n, d, p) == f;
        assert Owns(m, d, p) && FrameAt(m, d, p) == f;
      }
    }
  }

  /** Every step keeps the account: only a fork loses frames, and exactly those it builds over. */
  lemma StepLeaks(k: Kernel, e: Event)
    requires Inv(k) && Enabled(k, e)
    ensures Leaked(Next(k, e).memory) == Leaked(k.memory) + Lost(k, e)
    ensures Leaked(k.memory) !! Lost(k, e)
  {
    hide Inv, Leaked, Block, Outcome, Apply;
    match e
    case EFork => ForkLeaks(k);
    case EClone(_) => CloneLeaks(k, e);
    case EExit(reclaims) => ExitLeaks(k, reclaims);
    case ESbrk(increment) => SbrkLeaks(k, increment);
    case _ => SpareLeaks(k, e);
  }

  lemma SpareLeaks(k: Kernel, e: Event)
    requires Inv(k) && Enabled(k, e) && Spares(e)
    ensures Leaked(Next(k, e).memory) == Leaked(k.memory)
  {
    hide ReferencesOk, MemoryOk, StatesOk, QueuesOk, SemaphoresOk, ReadsOk, Leaked, Outcome;
    SparesMemory(k, e);
    SameLeaks(k.memory, Next(k, e).memory);
  }

  lemma CloneLeaks(k: Kernel, e: Event)
    requires Inv(k) && Enabled(k, e) && e.EClone?
    ensures Leaked(Next(k, e).memory) == Leaked(k.memory)
  {
    hide ReferencesOk, MemoryOk, StatesOk, QueuesOk, SemaphoresOk, ReadsOk, Leaked;
    if k.queues[FREE] != [] { SpawnMemory(k, k.tasks[k.current].dir); }
  }

  /** So a frame is lost exactly when a successful fork takes a directory that still maps data. */
  lemma StepNoLeak(k: Kernel, e: Event)
    requires Inv(k) && Enabled(k, e) && NoLeak(k.memory)
    ensures e.EFork? && ForkSucceeds(k) ==> ChildDirectory(k) < NR_TASKS
    ensures NoLeak(Next(k, e).memory) <==>
              !(e.EFork? && ForkSucceeds(k) && !DataClear(k.memory.tables[ChildDirectory(k)]))
  {
    hide Leaked, ReferencesOk, StatesOk, QueuesOk, SemaphoresOk, ReadsOk, Outcome, NoLeak;
    StepLeaks(k, e);
    NothingLeaked(k.memory);
    NothingLeaked(Next(k, e).memory);
    if e.EFork? && ForkSucceeds(k) {
      ForkIs(k);
      BlockClear(k.memory, ChildDirectory(k));
    }
  }

  lemma BlockClear(m: Memory, d: nat)
    requires Shaped(m) && d < NR_TASKS
    ensures Block(m, d, PAG_LOG_INIT_DATA, NUM_PAG_DATA) == {} <==> DataClear(m.tables[d])
  {
    if p :| PAG_LOG_INIT_DATA <= p < HEAP_START && m.tables[d][p] != ZERO {
      assert FrameAt(m, d, p) in Block(m, d, PAG_LOG_INIT_DATA, NUM_PAG_DATA);
    }
  }

  // ---------- Runs ----------

  // Frames lost in the course of a run.
  ghost function LostIn(k: Kernel, run: seq<Event>): nat
    requires Inv(k) && Legal(k, run)
    decreases |run|
  {
    if run == [] then 0 else |Lost(k, run[0])| + LostIn(Next(k, run[0]), run[1..])
  }

  lemma {:induction false} RunLeaks(k: Kernel, run: seq<Event>)
    requires Inv(k) && Legal(k, run)
    ensures |Leaked(Run(k, run).memory)| == |Leaked(k.memory)| + LostIn(k, run)
    decreases |run|
  {
    hide Inv, Leaked, Lost, Outcome, Enabled;
    if run == [] {
    } else {
      StepLeaks(k, run[0]);
      RunLeaks(Next(k, run[0]), run[1..]);
    }
  }

  /**
   Over every run, compiled exits included, the used user frames are the eight code frames, one
   frame for each mapped data or heap entry, those lost before, and those lost in the run.
   */
  lemma RunFrames(k: Kernel, run: seq<Event>)
    requires Inv(k) && Legal(k, run)
    ensures var m := Run(k, run).memory;
            |UsedFrames(m)| == NUM_PAG_CODE + |Entries(m)| + |Leaked(k.memory)| + LostIn(k, run)
    ensures NoLeak(k.memory) ==> (NoLeak(Run(k, run).memory) <==> LostIn(k, run) == 0)
  {
    hide Leaked, UsedFrames, Entries, Legal, Run, LostIn, NoLeak;
    RunLeaks(k, run);
    UsedCount(Run(k, run).memory);
    NothingLeaked(k.memory);
    NothingLeaked(Run(k, run).memory);
  }
}
