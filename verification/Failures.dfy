/** Runs from boot that show where the kernel fails what it evidently means to do. */
module Failures {
  import opened Params
  import opened Paging
  import opened AddressSpaces
  import opened Machine
  import opened TaskQueues
  import opened Invariants
  import opened Placement
  import opened KeyboardStream
  import opened SpaceRuns
  import opened FrameLedger
  import opened AsWritten
  import opened Boot

  const CHILD: Tid := 7

  lemma Then(k: Kernel, e: Event, rest: seq<Event>)
    requires Inv(k) && Enabled(k, e) && Legal(Next(k, e), rest)
    ensures Legal(k, [e] + rest) && Run(k, [e] + rest) == Run(Next(k, e), rest)
  {
    hide Inv, Enabled, Outcome;
    assert ([e] + rest)[1..] == rest;
  }

  // ---------- A task lost ----------

  // What the examples need to know of a state: who runs, who waits where, and nothing is typed.
  ghost predicate Scene(k: Kernel, current: Tid, ready: seq<Tid>, keyboard: seq<Tid>, waiters: seq<Tid>) {
    && Shape(k) && k.current == current && k.idle == IDLE
    && k.queues[READY] == ready && k.queues[KEYBOARD] == keyboard && k.queues[SemQueue(0)] == waiters
    && k.tasks[current].pending == Nothing
  }

  lemma AtBoot(bytes: seq<seq<Byte>>)
    requires |bytes| == TOTAL_PAGES
    ensures var k := Start(bytes);
            && Scene(k, TASK1, [], [], []) && k.queues[FREE] == FreeAtBoot() && k.queues[FREE][0] == CHILD
            && k.ring == [] && k.semaphores[0] == Semaphore(0, -1, false)
            && k.tasks[TASK1] == BootTask(TASK1) && k.tasks[IDLE] == BootTask(IDLE)
  {
    hide BootMemory;
  }

  // The first process starts a thread of its own.
  lemma Cloned(k: Kernel)
    requires Inv(k) && Scene(k, TASK1, [], [], []) && k.queues[FREE] != [] && k.queues[FREE][0] == CHILD
    ensures Enabled(k, EClone(true))
    ensures var n := Next(k, EClone(true));
            && Scene(n, TASK1, [CHILD], [], []) && n.ring == k.ring && n.semaphores == k.semaphores
            && (forall u: Tid :: u != CHILD ==> n.tasks[u] == k.tasks[u])
            && n.tasks[CHILD].pending == Nothing && n.tasks[CHILD].dir == k.tasks[TASK1].dir
  {
    hide QueuesOk, StatesOk, ReferencesOk, MemoryOk, SemaphoresOk, ReadsOk;
  }

  lemma SemInitialised(k: Kernel, waiters: seq<Tid>, current: Tid, value: int)
    requires Inv(k) && Scene(k, current, [], [], waiters) && current != IDLE && k.semaphores[0].owner == -1
    requires 0 <= value < 0x8000_0000
    ensures Enabled(k, ESemInit(0, value))
    ensures var n := Next(k, ESemInit(0, value));
            && Scene(n, current, [], [], []) && n.tasks == k.tasks && n.ring == k.ring
            && n.queues[FREE] == k.queues[FREE]
            && n.semaphores[0] == Semaphore(value, k.tasks[current].pid, true)
  {
    hide QueuesOk, ReferencesOk, MemoryOk, SemaphoresOk, ReadsOk, BlockedOk;
  }

  lemma SemDestroyed(k: Kernel)
    requires Inv(k) && Scene(k, TASK1, [CHILD], [], []) && k.semaphores[0].initialised
    requires k.semaphores[0].owner == k.tasks[TASK1].pid
    ensures Enabled(k, ESemDestroy(0))
    ensures var n := Next(k, ESemDestroy(0));
            && Scene(n, TASK1, [CHILD], [], []) && n.tasks == k.tasks
            && n.semaphores[0] == k.semaphores[0].(owner := -1)
  {
    hide QueuesOk, ReferencesOk, MemoryOk, SemaphoresOk, ReadsOk, BlockedOk;
  }

  lemma SemWaited(k: Kernel)
    requires Inv(k) && Scene(k, TASK1, [CHILD], [], []) && k.tasks[CHILD].pending == Nothing
    requires k.semaphores[0].initialised && k.semaphores[0].counter == 0
    ensures Enabled(k, ESemWait(0))
    ensures var n := Next(k, ESemWait(0));
            Scene(n, CHILD, [], [], [TASK1]) && n.semaphores == k.semaphores
  {
    hide QueuesOk, ReferencesOk, MemoryOk, SemaphoresOk, ReadsOk, BlockedOk;
  }

  // A semaphore made, destroyed and waited for; the thread of the waiter is left running.
  lemma WaitsForDestroyed(k: Kernel)
    requires Inv(k) && Scene(k, TASK1, [], [], []) && k.queues[FREE] != [] && k.queues[FREE][0] == CHILD
    requires k.semaphores[0].owner == -1
    ensures var run := [ESemInit(0, 0), EClone(true), ESemDestroy(0), ESemWait(0)];
            && Legal(k, run) && Scene(Run(k, run), CHILD, [], [], [TASK1])
            && Run(k, run).semaphores[0].owner == -1
  {
    hide Inv, Enabled, Outcome, Scene;
    SemInitialised(k, [], TASK1, 0);
    var k1 := Next(k, ESemInit(0, 0));
    Cloned(k1);
    var k2 := Next(k1, EClone(true));
    SemDestroyed(k2);
    var k3 := Next(k2, ESemDestroy(0));
    SemWaited(k3);
    Then(k3, ESemWait(0), []);
    Then(k2, ESemDestroy(0), [ESemWait(0)]);
    Then(k1, EClone(true), [ESemDestroy(0), ESemWait(0)]);
    Then(k, ESemInit(0, 0), [EClone(true), ESemDestroy(0), ESemWait(0)]);
  }

  lemma {:induction false} Joined(k: Kernel, a: seq<Event>, b: seq<Event>)
    requires Inv(k) && Legal(k, a) && Legal(Run(k, a), b)
    ensures Legal(k, a + b) && Run(k, a + b) == Run(Run(k, a), b)
    decreases |a|
  {
    hide Inv, Enabled, Outcome;
    if a == [] {
      assert a + b == b;
    } else {
      assert (a + b)[1..] == a[1..] + b;
      Joined(Next(k, a[0]), a[1..], b);
    }
  }

  lemma Alone(k: Kernel, e: Event)
    requires Inv(k) && Enabled(k, e)
    ensures Legal(k, [e]) && Run(k, [e]) == Next(k, e)
  {
    hide Inv, Enabled, Outcome;
    assert [e][1..] == [];
  }

  /** When the thread initialises the semaphore again the first process is nowhere any more. */
  lemma TaskOrphaned(bytes: seq<seq<Byte>>)
    requires |bytes| == TOTAL_PAGES
    ensures var run := [ESemInit(0, 0), EClone(true), ESemDestroy(0), ESemWait(0)] + [ESemInit(0, 1)];
            Legal(Start(bytes), run) && !exists p :: IsAt(Run(Start(bytes), run), TASK1, p)
  {
    hide Inv, Enabled, Outcome, Legal, Run, Reachable, BootKernel;
    AtBoot(bytes);
    var k, first, last := Start(bytes), [ESemInit(0, 0), EClone(true), ESemDestroy(0), ESemWait(0)], ESemInit(0, 1);
    WaitsForDestroyed(k);
    var m := Run(k, first);
    SemInitialised(m, [TASK1], CHILD, 1);
    Alone(m, last);
    Joined(k, first, [last]);
    StepMembers(m, last, TASK1);
    OnePlace(Next(m, last), TASK1);
  }

  // ---------- A wakeup lost ----------

  lemma ReadBlocks(k: Kernel, size: int, t: Tid, ready: seq<Tid>, keyboard: seq<Tid>)
    requires Inv(k) && Scene(k, t, ready, keyboard, []) && t != IDLE && |ready| <= 1
    requires 0 < size < 0x8000_0000 && |k.ring| < RING_SIZE - 1
    requires keyboard == [] ==> |k.ring| < size
    requires k.tasks[if ready == [] then IDLE else ready[0]].pending == Nothing
    ensures Enabled(k, ERead(size))
    ensures var n := Next(k, ERead(size));
            && Scene(n, if ready == [] then IDLE else ready[0], [], keyboard + [t], []) && n.ring == k.ring
            && n.tasks[t].toRead == size
            && n.tasks[t].pending == InRead(size)
            && forall u: Tid :: u != t ==>
                 n.tasks[u].toRead == k.tasks[u].toRead && n.tasks[u].pending == k.tasks[u].pending
  {
    hide ReferencesOk, MemoryOk, SemaphoresOk, ReadsOk, BlockedOk;
    BeginReadInv(k, size);
    assert ready != [] ==> ready[0] in k.queues[READY];
  }

  /**
   Two readers, the second asking for less: a key meets its demand and wakes nobody.
   */
  lemma WakeupLost(bytes: seq<seq<Byte>>, b: Byte)
    requires |bytes| == TOTAL_PAGES
    ensures var run := [EClone(true), ERead(2), ERead(1)] + [EKey(b)];
            Legal(Start(bytes), run) && Starved(Run(Start(bytes), run), CHILD)
  {
    hide Inv, Enabled, Outcome, Legal, Run, BootKernel, Starved;
    AtBoot(bytes);
    var k, first := Start(bytes), [EClone(true), ERead(2), ERead(1)];
    TwoReaders(k);
    var m := Run(k, first);
    KeyWakesNobody(m, b);
    Alone(m, EKey(b));
    Joined(k, first, [EKey(b)]);
  }

  lemma TwoReaders(k: Kernel)
    requires Inv(k) && Scene(k, TASK1, [], [], []) && k.queues[FREE] != [] && k.queues[FREE][0] == CHILD
    requires k.ring == [] && k.tasks[IDLE].pending == Nothing
    ensures var run := [EClone(true), ERead(2), ERead(1)];
            Legal(k, run) && SecondCouldGo(Run(k, run))
  {
    hide Inv, Enabled, Outcome;
    Cloned(k);
    var k1 := Next(k, EClone(true));
    ReadBlocks(k1, 2, TASK1, [CHILD], []);
    var k2 := Next(k1, ERead(2));
    ReadBlocks(k2, 1, CHILD, [], [TASK1]);
    Alone(k2, ERead(1));
    Then(k1, ERead(2), [ERead(1)]);
    Then(k, EClone(true), [ERead(2), ERead(1)]);
  }

  // The first process waits for two keys, its thread behind it for one.
  ghost predicate SecondCouldGo(k: Kernel) {
    && Scene(k, IDLE, [], [TASK1, CHILD], []) && k.ring == []
    && k.tasks[TASK1].toRead == 2 && k.tasks[CHILD].toRead == 1
  }

  lemma KeyWakesNobody(k: Kernel, b: Byte)
    requires Inv(k) && SecondCouldGo(k)
    ensures Enabled(k, EKey(b)) && Starved(Next(k, EKey(b)), CHILD)
  {
    hide QueuesOk, ReferencesOk, MemoryOk, SemaphoresOk, ReadsOk, BlockedOk;
    var n := Next(k, EKey(b));
    assert n.queues[KEYBOARD] == [TASK1, CHILD];
    assert n.queues[KEYBOARD][1] == CHILD;
  }

  // ---------- Heaps ----------

  /** One call moves the break past what a signed int holds, is told it succeeded, and maps nothing. */
  lemma BreakOvershoots(bytes: seq<seq<Byte>>)
    requires |bytes| == TOTAL_PAGES
    ensures var k, e := Start(bytes), ESbrk(0x7FFF_FFFF);
            && Legal(k, [e]) && Outcome(k, e).reply == Returns(HEAP_START * PAGE_SIZE)
            && Outcome(k, e).k.memory == k.memory && !BytesMapped(Run(k, [e]), TASK1)
  {
    hide QueuesOk, StatesOk, ReferencesOk, MemoryOk, SemaphoresOk, ReadsOk, BootKernel, BytesMapped, Covered, Sbrk;
    var k, e := Start(bytes), ESbrk(0x7FFF_FFFF);
    AtBoot(bytes);
    BootInv(bytes);
    assert TASK1 !in k.queues[FREE];
    Alone(k, e);
    StepCovered(k, e, TASK1);
    SbrkOvershoots(k, 0x7FFF_FFFF);
    CoveredBytes(Next(k, e), TASK1);
  }

  lemma BootFree()
    ensures UserFrames().Allocated? && |FreeFrames(UserFrames().phys)| >= 356
  {
    hide FreeFrames, AllocN;
    FirstFrames(384);
    FirstFrames(NUM_PAG_CODE + NUM_PAG_DATA);
    AllocExact(BootFrames(), 384);
    AllocExact(BootFrames(), NUM_PAG_CODE + NUM_PAG_DATA);
  }

  // Directories 0 and 1 are in use, 2 never was, and n frames are free.
  ghost predicate Fresh(k: Kernel, n: nat) {
    && Shape(k) && k.references[0] != 0 && k.references[1] != 0 && k.references[2] == 0
    && HeapLength(k.memory.tables[2]) == 0 && DataClear(k.memory.tables[2])
    && |FreeFrames(k.memory.phys)| >= n
    && k.queues[FREE] != [] && k.queues[FREE][0] == CHILD && CHILD !in k.queues[FREE][1..]
  }

  lemma FreshAtBoot(bytes: seq<seq<Byte>>)
    requires |bytes| == TOTAL_PAGES
    ensures Fresh(Start(bytes), 356) && Start(bytes).references[1] == 1
  {
    hide HeapLength, FreeFrames, UserTable, KernelTable, UserFrames, DataClear;
    AtBoot(bytes);
    BootFree();
    BootTables(bytes);
  }

  lemma FreshFork(k: Kernel)
    requires Inv(k) && Enabled(k, EFork) && Fresh(k, NUM_PAG_DATA)
    ensures ForkSucceeds(k) && ChildDirectory(k) == 2
  {
    hide QueuesOk, StatesOk, ReferencesOk, MemoryOk, SemaphoresOk, ReadsOk, HeapLength, DataClear, FreeFrames;
    ForkRefused(k);
    assert FreeDirectory(k.references, 1) == FreeDirectory(k.references, 2);
  }

  // A fresh kernel whose break has moved one page on.
  lemma FreshSbrk(k: Kernel)
    requires Inv(k) && Scene(k, TASK1, [], [], []) && Fresh(k, 356) && k.tasks[TASK1].dir == 1
    requires k.tasks[TASK1].programBreak == HEAP_START * PAGE_SIZE
    ensures Enabled(k, ESbrk(PAGE_SIZE))
    ensures var n := Next(k, ESbrk(PAGE_SIZE));
            && Scene(n, TASK1, [], [], []) && Fresh(n, 354)
            && n.tasks[TASK1].programBreak == (HEAP_START + 1) * PAGE_SIZE
  {
    hide Sound, Coherent, AllocN, HeapTop;
    hide QueuesOk, StatesOk, ReferencesOk, SemaphoresOk, ReadsOk, HeapLength, DataClear, FreeFrames, Grow;
    PageOrder(HEAP_START * PAGE_SIZE);
    PageOrder((HEAP_START + 1) * PAGE_SIZE);
    SbrkExact(k, PAGE_SIZE);
    GrowExact(k.memory, 2);
    AllocExact(k.memory.phys, 2);
    if AllocN(k.memory.phys, 2).Allocated? { GrowForm(k.memory, 2); }
  }

  /** A process that has a heap forks: the child's break is where the father's is, over nothing. */
  lemma ChildUncovered(bytes: seq<seq<Byte>>)
    requires |bytes| == TOTAL_PAGES
    ensures var run := [ESbrk(PAGE_SIZE), EFork];
            Legal(Start(bytes), run) && !BytesMapped(Run(Start(bytes), run), CHILD)
  {
    hide Inv, Outcome, BootKernel, HeapLength, FreeFrames, DataClear, BytesMapped, ForkSucceeds;
    var k := Start(bytes);
    AtBoot(bytes);
    FreshAtBoot(bytes);
    FreshSbrk(k);
    var m := Next(k, ESbrk(PAGE_SIZE));
    ForksUncovered(m);
    Alone(m, EFork);
    Then(k, ESbrk(PAGE_SIZE), [EFork]);
  }

  lemma ForksUncovered(k: Kernel)
    requires Inv(k) && Scene(k, TASK1, [], [], []) && Fresh(k, NUM_PAG_DATA)
    requires k.tasks[TASK1].programBreak == (HEAP_START + 1) * PAGE_SIZE
    ensures Enabled(k, EFork) && !BytesMapped(Next(k, EFork), CHILD)
  {
    hide QueuesOk, StatesOk, ReferencesOk, MemoryOk, SemaphoresOk, ReadsOk, BytesMapped, HeapLength, DataClear;
    PageOrder((HEAP_START + 1) * PAGE_SIZE);
    FreshFork(k);
    ForkIs(k);
    ForkHeaps(k);
    SpawnMemory(SpaceBuilt(k), 2);
    CoveredBytes(Next(k, EFork), CHILD);
  }

  // ---------- Frames lost ----------

  // The first process has forked, and each is alone in its directory.
  ghost predicate Forked2(k: Kernel) {
    && Scene(k, TASK1, [CHILD], [], []) && k.tasks[TASK1].dir == 1 && k.tasks[CHILD].pending == Nothing
    && k.references[0] != 0 && k.references[1] == 1
    && |FreeFrames(k.memory.phys)| >= NUM_PAG_DATA && k.queues[FREE] != []
  }

  lemma FirstFork(k: Kernel)
    requires Inv(k) && Scene(k, TASK1, [], [], []) && Fresh(k, 2 * NUM_PAG_DATA)
    requires k.tasks[TASK1].dir == 1 && k.references[1] == 1 && |k.queues[FREE]| > 1
    ensures Enabled(k, EFork) && Lost(k, EFork) == {} && Forked2(Next(k, EFork))
  {
    hide QueuesOk, StatesOk, ReferencesOk, MemoryOk, SemaphoresOk, ReadsOk, HeapLength, FreeFrames, Block, DataClear;
    FreshFork(k);
    ForkIs(k);
    SpawnMemory(SpaceBuilt(k), 2);
    BlockClear(k.memory, 2);
    AllocExact(k.memory.phys, NUM_PAG_DATA);
    ForkMemoryPhys(k);
  }

  lemma ForkMemoryPhys(k: Kernel)
    requires Inv(k) && Enabled(k, EFork) && ForkSucceeds(k)
    ensures SpaceBuilt(k).memory.phys == AllocN(k.memory.phys, NUM_PAG_DATA).phys
  {
    hide StatesOk, ReferencesOk, SemaphoresOk, ReadsOk, Fork, Forked;
    ForkIs(k);
    ForkSound(k.memory, k.tasks[k.current].dir, ChildDirectory(k));
  }

  // The child runs alone; the directory its father left is the first free one and still maps data.
  ghost predicate FatherGone(k: Kernel) {
    && Shape(k) && k.current == CHILD && k.idle == IDLE && k.tasks[CHILD].pending == Nothing
    && k.references[0] != 0 && k.references[1] == 0 && Sound(k.memory) && Image(k.memory.tables[1])
    && |FreeFrames(k.memory.phys)| >= NUM_PAG_DATA && k.queues[FREE] != []
  }

  lemma FatherLeaves(k: Kernel)
    requires Inv(k) && Forked2(k)
    ensures Enabled(k, EExit(false)) && Lost(k, EExit(false)) == {} && FatherGone(Next(k, EExit(false)))
  {
    hide StatesOk, ReferencesOk, SemaphoresOk, ReadsOk, FreeFrames, Sound, Image;
    assert Live(k, k.current);
    LeavingMemory(k, false);
    SchedNextUntouched(Leaving(k, false));
  }

  lemma ForksOver(k: Kernel)
    requires Inv(k) && FatherGone(k)
    ensures Enabled(k, EFork) && |Lost(k, EFork)| >= NUM_PAG_DATA
  {
    hide StatesOk, ReferencesOk, SemaphoresOk, ReadsOk, QueuesOk, FreeFrames, Exclusive;
    ForkRefused(k);
    assert FreeDirectory(k.references, 0) == FreeDirectory(k.references, 1);
    assert ChildDirectory(k) == 1;
    DataFramesLost(k.memory, 1);
  }

  lemma DataFramesLost(m: Memory, d: nat)
    requires Sound(m) && d < NR_TASKS && Image(m.tables[d])
    ensures |Block(m, d, PAG_LOG_INIT_DATA, NUM_PAG_DATA)| >= NUM_PAG_DATA
  {
    var data := DataFrames(m.tables[d]);
    forall i | 0 <= i < |data|
      ensures data[i] in Block(m, d, PAG_LOG_INIT_DATA, NUM_PAG_DATA)
    {
      assert Owns(m, d, PAG_LOG_INIT_DATA + i);
    }
    InjectionBounds(data, Block(m, d, PAG_LOG_INIT_DATA, NUM_PAG_DATA));
  }

  /**
   A process forks and leaves unreclaimed, so that its directory is the first free one: the child's
   own fork builds over it.
   */
  lemma FramesLost(bytes: seq<seq<Byte>>)
    requires |bytes| == TOTAL_PAGES
    ensures var run := [EFork, EExit(false), EFork];
            Legal(Start(bytes), run) && LostIn(Start(bytes), run) >= NUM_PAG_DATA
  {
    hide Inv, Outcome, BootKernel, HeapLength, FreeFrames, DataClear, Lost, Enabled;
    var k := Start(bytes);
    AtBoot(bytes);
    FreshAtBoot(bytes);
    FirstFork(k);
    var k1 := Next(k, EFork);
    FatherLeaves(k1);
    var k2 := Next(k1, EExit(false));
    ForksOver(k2);
    Alone(k2, EFork);
    Then(k1, EExit(false), [EFork]);
    Then(k, EFork, [EExit(false), EFork]);
    assert [EFork, EExit(false), EFork][1..] == [EExit(false), EFork];
    assert [EExit(false), EFork][1..] == [EFork] && [EFork][1..] == [];
  }

  // ---------- A read that asks for more than the ring holds ----------

  function Keys(n: nat): (run: seq<Event>)
    ensures |run| == n && forall i :: 0 <= i < n ==> run[i] == EKey(0)
  {
    seq(n, i => EKey(0))
  }

  // n keys typed while nobody reads and the ring has room.
  lemma {:induction false} Typed(k: Kernel, n: nat)
    requires Inv(k) && k.tasks[k.current].pending == Nothing && k.queues[KEYBOARD] == []
    requires |k.ring| + n < RING_SIZE
    ensures Legal(k, Keys(n))
    ensures Run(k, Keys(n)) == k.(ring := k.ring + seq<Byte>(n, i => 0))
    decreases n
  {
    hide QueuesOk, StatesOk, ReferencesOk, MemoryOk, SemaphoresOk, ReadsOk;
    if n == 0 {
      assert k.ring + seq<Byte>(n, i => 0) == k.ring;
    } else {
      var m := Next(k, EKey(0));
      assert m == k.(ring := k.ring + [0]);
      Typed(m, n - 1);
      assert Keys(n)[1..] == Keys(n - 1);
      assert (k.ring + [0]) + seq<Byte>(n - 1, i => 0) == k.ring + seq<Byte>(n, i => 0);
    }
  }

  // Idle runs; the first process waits for "rest" more keys of its read, or has been made ready.
  ghost predicate Reading(k: Kernel, rest: int, woken: bool, typed: nat) {
    && Shape(k) && k.current == IDLE && k.idle == IDLE && k.remaining <= 0 && |k.ring| == typed
    && k.tasks[IDLE].quantum == 0 && k.tasks[IDLE].pending == Nothing
    && k.queues[READY] == (if woken then [TASK1] else []) && k.queues[KEYBOARD] == (if woken then [] else [TASK1])
    && k.tasks[TASK1].pending == InRead(RING_SIZE) && k.tasks[TASK1].toRead == rest
  }

  // A full ring is handed over, and the read blocks with one key still to come.
  lemma LongReadBlocks(k: Kernel)
    requires Inv(k) && Scene(k, TASK1, [], [], []) && |k.ring| == RING_SIZE - 1
    requires k.tasks[IDLE] == BootTask(IDLE)
    ensures Enabled(k, ERead(RING_SIZE)) && Outcome(k, ERead(RING_SIZE)).got == k.ring
    ensures Reading(Next(k, ERead(RING_SIZE)), 1, false, 0)
  {
    hide ReferencesOk, MemoryOk, SemaphoresOk, ReadsOk, BlockedOk;
  }

  lemma LongReadWoken(k: Kernel, rest: int)
    requires Inv(k) && Reading(k, rest, false, 0) && rest <= 1
    ensures Enabled(k, EKey(0)) && Reading(Next(k, EKey(0)), rest, true, 1)
  {
    hide ReferencesOk, MemoryOk, SemaphoresOk, ReadsOk, BlockedOk;
  }

  lemma LongReadTyped(k: Kernel, rest: int)
    requires Inv(k) && Reading(k, rest, true, 1)
    ensures Legal(k, Keys(RING_SIZE - 2)) && Reading(Run(k, Keys(RING_SIZE - 2)), rest, true, RING_SIZE - 1)
  {
    hide Inv, Legal, Run;
    Typed(k, RING_SIZE - 2);
  }

  // The tick that takes idle off the processor, and the read going on.
  lemma LongReadDispatched(k: Kernel, rest: int, typed: nat)
    requires Inv(k) && Reading(k, rest, true, typed)
    ensures Enabled(k, ETick)
    ensures var n := Next(k, ETick);
            && n.current == TASK1 && n.idle == IDLE && n.queues[READY] == [IDLE] && n.queues[KEYBOARD] == []
            && |n.ring| == typed && n.tasks[IDLE].quantum == 0 && n.tasks[IDLE].pending == Nothing
            && n.tasks[TASK1].pending == InRead(RING_SIZE) && n.tasks[TASK1].toRead == rest
  {
    hide ReferencesOk, MemoryOk, SemaphoresOk, ReadsOk, BlockedOk;
  }

  lemma LongReadDrains(k: Kernel)
    requires Inv(k) && k.current == TASK1 && k.idle == IDLE && k.queues[READY] == [IDLE]
    requires k.queues[KEYBOARD] == [] && |k.ring| == RING_SIZE - 1
    requires k.tasks[IDLE].quantum == 0 && k.tasks[IDLE].pending == Nothing
    requires k.tasks[TASK1].pending == InRead(RING_SIZE) && k.tasks[TASK1].toRead == 1
    ensures Enabled(k, EResume)
    ensures Reading(Next(k, EResume), 2 - RING_SIZE, false, 0)
  {
    hide ReferencesOk, MemoryOk, SemaphoresOk, ReadsOk, BlockedOk;
  }

  // From the blocked read to the tick before its end.
  function RestOfRead(): seq<Event> {
    [EKey(0)] + (Keys(RING_SIZE - 2) + ([ETick] + ([EResume] + ([EKey(0)] + [ETick]))))
  }

  lemma LongReadGoesOn(k: Kernel)
    requires Inv(k) && Reading(k, 1, false, 0)
    ensures Legal(k, RestOfRead())
    ensures var n := Run(k, RestOfRead());
            && n.current == TASK1 && n.tasks[TASK1].pending == InRead(RING_SIZE)
            && n.tasks[TASK1].toRead == 2 - RING_SIZE
  {
    hide Inv, Enabled, Outcome, Keys;
    LongReadWoken(k, 1);
    var k1 := Next(k, EKey(0));
    LongReadTyped(k1, 1);
    var k2 := Run(k1, Keys(RING_SIZE - 2));
    LongReadDispatched(k2, 1, RING_SIZE - 1);
    var k3 := Next(k2, ETick);
    LongReadDrains(k3);
    var k4 := Next(k3, EResume);
    LongReadWoken(k4, 2 - RING_SIZE);
    var k5 := Next(k4, EKey(0));
    LongReadDispatched(k5, 2 - RING_SIZE, 1);
    Alone(k5, ETick);
    Then(k4, EKey(0), [ETick]);
    Then(k3, EResume, [EKey(0)] + [ETick]);
    Then(k2, ETick, [EResume] + ([EKey(0)] + [ETick]));
    Joined(k1, Keys(RING_SIZE - 2), [ETick] + ([EResume] + ([EKey(0)] + [ETick])));
    Then(k, EKey(0), Keys(RING_SIZE - 2) + ([ETick] + ([EResume] + ([EKey(0)] + [ETick]))));
  }

  // 4095 keys are typed and a read of 4096 is begun.
  function LongReadRun(): seq<Event> { Keys(RING_SIZE - 1) + ([ERead(RING_SIZE)] + RestOfRead()) }

  /** A read of 4096 keys is told that it got 8190, in three slices. */
  lemma ReadTooLong(bytes: seq<seq<Byte>>)
    requires |bytes| == TOTAL_PAGES
    ensures Legal(Start(bytes), LongReadRun())
    ensures var n := Run(Start(bytes), LongReadRun());
            Enabled(n, EResume) && Reads(n, EResume, RING_SIZE)
            && Outcome(n, EResume).reply == Returns(2 * (RING_SIZE - 1)) && Got(n, EResume) == []
  {
    hide QueuesOk, ReferencesOk, MemoryOk, SemaphoresOk, BlockedOk, Legal, Run, BootKernel, RestOfRead, Keys;
    AtBoot(bytes);
    var k := Start(bytes);
    Typed(k, RING_SIZE - 1);
    var k1 := Run(k, Keys(RING_SIZE - 1));
    LongReadBlocks(k1);
    var k2 := Next(k1, ERead(RING_SIZE));
    LongReadGoesOn(k2);
    Then(k1, ERead(RING_SIZE), RestOfRead());
    Joined(k, Keys(RING_SIZE - 1), [ERead(RING_SIZE)] + RestOfRead());
    ReadExact(Run(k, LongReadRun()), EResume, RING_SIZE);
    SettledRead(Run(k, LongReadRun()));
  }

  lemma SettledRead(k: Kernel)
    requires Inv(k) && k.tasks[k.current].pending == InRead(RING_SIZE) && k.tasks[k.current].toRead <= 0
    ensures Enabled(k, EResume) && Outcome(k, EResume).reply.Returns?
  {
    hide QueuesOk, ReferencesOk, MemoryOk, SemaphoresOk, BlockedOk;
  }

  // ---------- Calls that unlink twice ----------

  // The first process and its thread share directory 1, which has no page 0.
  ghost predicate NoZeroPage(k: Kernel) {
    && Shape(k) && k.tasks[TASK1].dir == 1 && k.tasks[CHILD].dir == 1 && !k.memory.tables[1][0].present
  }

  lemma NoZeroPageAtBoot(bytes: seq<seq<Byte>>)
    requires |bytes| == TOTAL_PAGES
    ensures var k := Start(bytes); k.tasks[TASK1].dir == 1 && !k.memory.tables[1][0].present
  {
    FirstFrames(NUM_PAG_CODE + NUM_PAG_DATA);
  }

  lemma NoZeroPageStays(k: Kernel, e: Event)
    requires Inv(k) && Enabled(k, e) && Spares(e) && NoZeroPage(k)
    ensures NoZeroPage(Next(k, e))
  {
    hide QueuesOk, StatesOk, ReferencesOk, MemoryOk, SemaphoresOk, ReadsOk, Outcome;
    SparesMemory(k, e);
  }

  // The first process makes a semaphore with no units and starts its thread.
  lemma SemaphoreAndThread(k: Kernel)
    requires Inv(k) && Scene(k, TASK1, [], [], []) && k.queues[FREE] != [] && k.queues[FREE][0] == CHILD
    requires k.semaphores[0].owner == -1 && k.tasks[TASK1].dir == 1 && !k.memory.tables[1][0].present
    ensures Legal(k, [ESemInit(0, 0), EClone(true)])
    ensures var n := Run(k, [ESemInit(0, 0), EClone(true)]);
            && Scene(n, TASK1, [CHILD], [], []) && NoZeroPage(n) && n.ring == k.ring
            && n.semaphores[0] == Semaphore(0, k.tasks[TASK1].pid, true)
            && n.tasks[CHILD].pending == Nothing
            && (forall t: Tid :: t != CHILD ==> n.tasks[t] == k.tasks[t])
  {
    hide QueuesOk, StatesOk, ReferencesOk, MemoryOk, SemaphoresOk, ReadsOk, Outcome;
    SemInitialised(k, [], TASK1, 0);
    SparesMemory(k, ESemInit(0, 0));
    var m := Next(k, ESemInit(0, 0));
    Cloned(m);
    ClonedTables(m);
    Alone(m, EClone(true));
    Then(k, ESemInit(0, 0), [EClone(true)]);
  }

  lemma ClonedTables(k: Kernel)
    requires Inv(k) && Enabled(k, EClone(true)) && k.queues[FREE] != []
    ensures Next(k, EClone(true)).memory == k.memory
  {
    SpawnMemory(k, k.tasks[k.current].dir);
  }

  /** A thread signals while the process waits: the signal as written faults. */
  lemma SignalFaults(bytes: seq<seq<Byte>>)
    requires |bytes| == TOTAL_PAGES
    ensures var run := [ESemInit(0, 0), EClone(true)] + [ESemWait(0)];
            && Legal(Start(bytes), run)
            && Enabled(Run(Start(bytes), run), ESemSignal(0))
            && SemSignalWritten(Run(Start(bytes), run), 0) == PageFaults
  {
    hide QueuesOk, StatesOk, ReferencesOk, SemaphoresOk, ReadsOk, BootKernel, Outcome, Legal, Run;
    AtBoot(bytes);
    NoZeroPageAtBoot(bytes);
    var k, first := Start(bytes), [ESemInit(0, 0), EClone(true)];
    SemaphoreAndThread(k);
    var m := Run(k, first);
    SemWaited(m);
    NoZeroPageStays(m, ESemWait(0));
    Alone(m, ESemWait(0));
    Joined(k, first, [ESemWait(0)]);
  }

  // The thread waits for the semaphore, the process reads, and the key it wants is typed.
  function MeetingRun(): seq<Event> {
    [ERead(1)] + ([ESemWait(0)] + ([EKey(0)] + ([ETick] + [EResume])))
  }

  lemma ThreadWaits(k: Kernel)
    requires Inv(k) && Scene(k, CHILD, [], [TASK1], []) && k.tasks[IDLE].pending == Nothing
    requires k.semaphores[0].initialised && k.semaphores[0].counter == 0
    ensures Enabled(k, ESemWait(0))
    ensures var n := Next(k, ESemWait(0));
            && Scene(n, IDLE, [], [TASK1], [CHILD]) && n.semaphores == k.semaphores && n.ring == k.ring
            && n.tasks[TASK1] == k.tasks[TASK1] && n.remaining == k.tasks[IDLE].quantum
            && n.tasks[IDLE].quantum == k.tasks[IDLE].quantum
  {
    hide QueuesOk, ReferencesOk, MemoryOk, SemaphoresOk, ReadsOk, BlockedOk;
  }

  lemma KeyWakesProcess(k: Kernel)
    requires Inv(k) && Scene(k, IDLE, [], [TASK1], [CHILD]) && k.ring == [] && k.tasks[TASK1].toRead == 1
    ensures Enabled(k, EKey(0))
    ensures var n := Next(k, EKey(0));
            && Scene(n, IDLE, [TASK1], [], [CHILD]) && n.semaphores == k.semaphores && |n.ring| == 1
            && n.tasks[TASK1] == k.tasks[TASK1].(state := ST_READY) && n.remaining == k.remaining
  {
    hide QueuesOk, ReferencesOk, MemoryOk, SemaphoresOk, ReadsOk, BlockedOk;
  }

  lemma ProcessDispatched(k: Kernel)
    requires Inv(k) && Scene(k, IDLE, [TASK1], [], [CHILD]) && k.remaining <= 1
    ensures Enabled(k, ETick)
    ensures var n := Next(k, ETick);
            && n.current == TASK1 && n.idle == IDLE && n.queues[KEYBOARD] == [] && n.ring == k.ring
            && n.queues[SemQueue(0)] == [CHILD] && n.semaphores == k.semaphores
            && n.tasks[TASK1].pending == k.tasks[TASK1].pending && n.tasks[TASK1].pid == k.tasks[TASK1].pid
            && n.tasks[TASK1].toRead == k.tasks[TASK1].toRead
  {
    hide QueuesOk, ReferencesOk, MemoryOk, SemaphoresOk, ReadsOk, BlockedOk;
  }

  lemma ProcessAnswered(k: Kernel)
    requires Inv(k) && k.current == TASK1 && k.idle == IDLE && k.queues[KEYBOARD] == [] && |k.ring| == 1
    requires k.tasks[TASK1].pending == InRead(1) && k.queues[SemQueue(0)] == [CHILD]
    ensures Enabled(k, EResume)
    ensures var n := Next(k, EResume);
            && n.current == TASK1 && n.idle == IDLE && n.tasks[TASK1].pending == Nothing
            && n.tasks[TASK1].pid == k.tasks[TASK1].pid
            && n.queues[SemQueue(0)] == [CHILD] && n.semaphores == k.semaphores
  {
    hide QueuesOk, ReferencesOk, MemoryOk, SemaphoresOk, ReadsOk, BlockedOk;
  }

  lemma ProcessReads(k: Kernel)
    requires Inv(k) && Scene(k, IDLE, [TASK1], [], [CHILD]) && k.remaining <= 1 && |k.ring| == 1
    requires k.tasks[TASK1].pending == InRead(1)
    ensures Legal(k, [ETick] + [EResume])
    ensures var n := Run(k, [ETick] + [EResume]);
            && n.current == TASK1 && n.idle == IDLE && n.tasks[TASK1].pending == Nothing
            && n.tasks[TASK1].pid == k.tasks[TASK1].pid
            && n.queues[SemQueue(0)] == [CHILD] && n.semaphores == k.semaphores
  {
    hide Inv, Enabled, Outcome, Legal, Run;
    ProcessDispatched(k);
    ProcessAnswered(Next(k, ETick));
    Alone(Next(k, ETick), EResume);
    Then(k, ETick, [EResume]);
  }

  /** The owner destroys a semaphore its thread waits for: the destruction as written faults. */
  lemma DestroyFaults(bytes: seq<seq<Byte>>)
    requires |bytes| == TOTAL_PAGES
    ensures var run := [ESemInit(0, 0), EClone(true)] + MeetingRun();
            && Legal(Start(bytes), run)
            && Enabled(Run(Start(bytes), run), ESemDestroy(0))
            && SemDestroyWritten(Run(Start(bytes), run), 0) == PageFaults
  {
    hide QueuesOk, StatesOk, ReferencesOk, SemaphoresOk, ReadsOk, BootKernel, Outcome, Legal, Run, MeetingRun;
    AtBoot(bytes);
    NoZeroPageAtBoot(bytes);
    var k, first := Start(bytes), [ESemInit(0, 0), EClone(true)];
    SemaphoreAndThread(k);
    Meeting(Run(k, first));
    Joined(k, first, MeetingRun());
  }

  lemma Meeting(k: Kernel)
    requires Inv(k) && Scene(k, TASK1, [CHILD], [], []) && NoZeroPage(k) && k.ring == []
    requires k.semaphores[0] == Semaphore(0, k.tasks[TASK1].pid, true) && k.tasks[CHILD].pending == Nothing
    requires k.tasks[IDLE] == BootTask(IDLE)
    ensures Legal(k, MeetingRun())
    ensures var n := Run(k, MeetingRun());
            && NoZeroPage(n) && n.current == TASK1 && n.idle == IDLE && n.tasks[TASK1].pending == Nothing
            && n.queues[SemQueue(0)] == [CHILD] && n.semaphores[0] == Semaphore(0, n.tasks[TASK1].pid, true)
  {
    hide QueuesOk, StatesOk, ReferencesOk, SemaphoresOk, ReadsOk, MemoryOk, Outcome, Enabled, NoZeroPage;
    ReadBlocks(k, 1, TASK1, [CHILD], []);
    NoZeroPageStays(k, ERead(1));
    var k1 := Next(k, ERead(1));
    ReadKeeps(k);
    ThreadWaits(k1);
    NoZeroPageStays(k1, ESemWait(0));
    var k2 := Next(k1, ESemWait(0));
    KeyWakesProcess(k2);
    NoZeroPageStays(k2, EKey(0));
    var k3 := Next(k2, EKey(0));
    ProcessReads(k3);
    SparesRun(k3, [ETick] + [EResume]);
    Then(k2, EKey(0), [ETick] + [EResume]);
    Then(k1, ESemWait(0), [EKey(0)] + ([ETick] + [EResume]));
    Then(k, ERead(1), [ESemWait(0)] + ([EKey(0)] + ([ETick] + [EResume])));
  }

  lemma ReadKeeps(k: Kernel)
    requires Inv(k) && Scene(k, TASK1, [CHILD], [], []) && k.ring == [] && Enabled(k, ERead(1))
    ensures var n := Next(k, ERead(1));
            && n.semaphores == k.semaphores && n.tasks[TASK1].pid == k.tasks[TASK1].pid
            && n.tasks[IDLE] == k.tasks[IDLE]
  {
    hide ReferencesOk, MemoryOk, SemaphoresOk, ReadsOk, BlockedOk;
    BeginReadInv(k, 1);
    assert CHILD in k.queues[READY];
  }

  lemma {:induction false} SparesRun(k: Kernel, run: seq<Event>)
    requires Inv(k) && Legal(k, run) && NoZeroPage(k) && forall i :: 0 <= i < |run| ==> Spares(run[i])
    ensures NoZeroPage(Run(k, run))
    decreases |run|
  {
    hide QueuesOk, StatesOk, ReferencesOk, MemoryOk, SemaphoresOk, ReadsOk, Outcome, Enabled, NoZeroPage;
    if run == [] {
    } else {
      NoZeroPageStays(k, run[0]);
      SparesRun(Next(k, run[0]), run[1..]);
    }
  }
}
