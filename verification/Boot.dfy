/** The state the kernel starts its first process in satisfies everything the runs preserve. */
module Boot {
  import opened Params
  import opened Paging
  import opened Machine
  import opened TaskQueues
  import opened Invariants
  import opened Placement
  import opened KeyboardStream
  import opened AddressSpaces
  import opened FrameLedger
  import opened Waiting
  import opened Births
  import opened SpaceRuns

  const IDLE: Tid := 9
  const TASK1: Tid := 8

  // ---------- Memory ----------

  /** The first allocations hand out every second frame from the end of the kernel on. */
  lemma {:induction false} FirstFrames(n: nat)
    requires n <= 384
    ensures var a := AllocN(BootFrames(), n);
            && a.Allocated?
            && (forall i :: 0 <= i < n ==> a.frames[i] == NUM_PAG_KERNEL + 2 * i)
            && (forall f :: 0 <= f < TOTAL_PAGES ==>
                  (a.phys[f] <==> f < NUM_PAG_KERNEL || (f < NUM_PAG_KERNEL + 2 * n && f % 2 == 0)))
  {
    if n == 0 {
    } else {
      FirstFrames(n - 1);
      var p := AllocN(BootFrames(), n - 1).phys;
      var next := NUM_PAG_KERNEL + 2 * (n - 1);
      var f := FirstFree(p, NUM_PAG_KERNEL);
      assert StrideFrame(next) && !p[next];
      assert f == next;
    }
  }

  function UserFrames(): Allocation { AllocN(BootFrames(), NUM_PAG_CODE + NUM_PAG_DATA) }

  // Memory after init_mm: kernel frames and tables, running on directory 0.
  ghost function BareMemory(bytes: seq<seq<Byte>>): Memory {
    Memory(BootFrames(), seq(NR_TASKS, d => KernelTable()), bytes, 0, Translations(KernelTable()))
  }

  // set_user_pages for directory d
  ghost function WithUser(m: Memory, d: nat): Memory
    requires Shaped(m) && d < NR_TASKS && AllocN(m.phys, NUM_PAG_CODE + NUM_PAG_DATA).Allocated?
  {
    var a := AllocN(m.phys, NUM_PAG_CODE + NUM_PAG_DATA);
    m.(phys := a.phys, tables := m.tables[d := UserTable(m.tables[d], a.frames)])
  }

  /**
   set_user_pages gives every code and data page a free frame of its own, present for user code, to
   be written only if it is data; the other entries stay.
   */
  lemma UserEntries(m: Memory, d: nat, p: int)
    requires Shaped(m) && d < NR_TASKS && AllocN(m.phys, NUM_PAG_CODE + NUM_PAG_DATA).Allocated?
    requires 0 <= p < TOTAL_PAGES
    ensures Shaped(WithUser(m, d))
    ensures var n := WithUser(m, d);
            var e := n.tables[d][p];
            if 256 <= p < 284 then
              && e.present && e.user && (e.rw <==> p >= 264)
              && 256 <= e.frame < TOTAL_PAGES && !m.phys[e.frame] && n.phys[e.frame]
              && (forall q :: 256 <= q < 284 && q != p ==> n.tables[d][q].frame != e.frame)
            else e == m.tables[d][p]
  {
    AllocTook(m.phys, NUM_PAG_CODE + NUM_PAG_DATA);
    var frames := AllocN(m.phys, NUM_PAG_CODE + NUM_PAG_DATA).frames;
    var table := UserTable(m.tables[d], frames);
    assert WithUser(m, d).tables[d] == table;
    forall q | 256 <= q < 284
      ensures table[q] == Pte(frames[q - 256], true, true, q >= 264)
    {
      if q >= 264 { assert table[q] == Mapping(frames[q - 256]); }
    }
    if 256 <= p < 284 { assert frames[p - 256] in frames; }
  }

  // ... and after init_task1.
  ghost function BootMemory(bytes: seq<seq<Byte>>): Memory
    requires |bytes| == TOTAL_PAGES
  {
    FirstFrames(NUM_PAG_CODE + NUM_PAG_DATA);
    var kernel := KernelTable();
    var user := UserTable(kernel, UserFrames().frames);
    Memory(UserFrames().phys, seq(NR_TASKS, d => if d == 1 then user else kernel), bytes,
           1, Translations(user))
  }

  /** set_user_pages and set_cr3 on directory 1 lead from the one to the other. */
  lemma UserMapped(bytes: seq<seq<Byte>>)
    requires |bytes| == TOTAL_PAGES
    ensures Shaped(BareMemory(bytes)) && BareMemory(bytes).cr3 == 0
    ensures AllocN(BareMemory(bytes).phys, NUM_PAG_CODE + NUM_PAG_DATA).Allocated?
    ensures SetCr3(WithUser(BareMemory(bytes), 1), 1) == BootMemory(bytes)
    ensures BootMemory(bytes).bytes == bytes
  {
    hide KernelTable, UserTable;
    FirstFrames(NUM_PAG_CODE + NUM_PAG_DATA);
    var n := SetCr3(WithUser(BareMemory(bytes), 1), 1);
    assert n.tables == BootMemory(bytes).tables;
  }

  lemma BootTables(bytes: seq<seq<Byte>>)
    requires |bytes| == TOTAL_PAGES
    ensures var m := BootMemory(bytes);
            && Shaped(m)
            && (forall d, p :: Owns(m, d, p) ==>
                  d == 1 && p < HEAP_START
                  && m.tables[d][p] == Mapping(NUM_PAG_KERNEL + 2 * (p - PAG_LOG_INIT_CODE)))
            && (forall p :: PAG_LOG_INIT_DATA <= p < HEAP_START ==> Owns(m, 1, p))
            && Image(m.tables[1])
            && (forall d :: 0 <= d < NR_TASKS && d != 1 ==> DataClear(m.tables[d]))
            && (forall d :: 0 <= d < NR_TASKS ==>
                  HeapLength(m.tables[d]) == 0 && Contiguous(m.tables[d]))
            && KernelMapped(m)
  {
    FirstFrames(NUM_PAG_CODE + NUM_PAG_DATA);
    var m := BootMemory(bytes);
    var user := UserTable(KernelTable(), UserFrames().frames);
    assert m.tables[1] == user;
    forall p | PAG_LOG_INIT_DATA <= p < HEAP_START
      ensures Owns(m, 1, p)
    {
      assert user[p] == Mapping(UserFrames().frames[p - PAG_LOG_INIT_CODE]);
    }
    forall d | 0 <= d < NR_TASKS
      ensures HeapLength(m.tables[d]) == 0 && Contiguous(m.tables[d])
    {
      HeapLengthIs(m.tables[d], 0);
    }
  }

  /**
   Entry by entry, the tables at boot. In that of the first process code is present for user code and
   read-only and data present and writable; the kernel's own pages lie behind page numbers of their
   own in every table and are never for user code; page 0, the guard pages and all else are not there.
   */
  lemma BootEntries(bytes: seq<seq<Byte>>, d: int, p: int)
    requires |bytes| == TOTAL_PAGES && 0 <= d < NR_TASKS && 0 <= p < TOTAL_PAGES
    ensures Shaped(BootMemory(bytes))
    ensures var m := BootMemory(bytes);
            var e := m.tables[d][p];
            && m.cr3 == 1 && m.bytes == bytes && (m.phys[p] <==> p < 256 || (p < 312 && p % 2 == 0))
            && if d == 1 && 256 <= p < 264 then e == Pte(256 + 2 * (p - 256), true, true, false)
               else if d == 1 && 264 <= p < 284 then e == Pte(272 + 2 * (p - 264), true, true, true)
               else if p == 0 || p >= 256 then !e.present
               else !e.user && e.rw && e.frame == p && (e.present <==> p != GUARD_LOW && p != GUARD_HIGH)
  {
    FirstFrames(NUM_PAG_CODE + NUM_PAG_DATA);
    BootTables(bytes);
    var user := UserTable(KernelTable(), UserFrames().frames);
    assert BootMemory(bytes).tables[1] == user;
    if d == 1 && PAG_LOG_INIT_DATA <= p < HEAP_START {
      assert user[p] == Mapping(UserFrames().frames[p - PAG_LOG_INIT_CODE]);
    }
  }

  lemma BootSound(bytes: seq<seq<Byte>>)
    requires |bytes| == TOTAL_PAGES
    ensures Sound(BootMemory(bytes)) && Coherent(BootMemory(bytes)) && NoLeak(BootMemory(bytes))
  {
    hide UserTable, KernelTable;
    FirstFrames(NUM_PAG_CODE + NUM_PAG_DATA);
    BootTables(bytes);
    var m := BootMemory(bytes);
    forall f | NUM_PAG_KERNEL <= f < TOTAL_PAGES && m.phys[f] && !CodeFrame(f)
      ensures exists d, p :: Owns(m, d, p) && FrameAt(m, d, p) == f
    {
      var p := PAG_LOG_INIT_CODE + (f - NUM_PAG_KERNEL) / 2;
      assert Owns(m, 1, p) && FrameAt(m, 1, p) == f;
    }
  }

  // ---------- The kernel ----------

  function BootTask(t: Tid): Task {
    if t == TASK1 then Task(1, 1, QUANTUM, ST_RUN, HEAP_START * PAGE_SIZE, 0, 0, Nothing)
    else Task(0, 0, 0, ST_RUN, 0, 0, 0, Nothing)
  }

  // init_sched prepends the ten tasks to the free queue; idle and task 1 take the first two.
  function FreeAtBoot(): seq<Tid> { seq<Tid>(NR_TASKS - 2, i requires 0 <= i < NR_TASKS - 2 => 7 - i) }

  ghost function BootKernel(bytes: seq<seq<Byte>>): Kernel
    requires |bytes| == TOTAL_PAGES
  {
    Kernel(seq(NR_QUEUES, h => if h == FREE then FreeAtBoot() else []),
           seq(NR_TASKS, t requires 0 <= t < NR_TASKS => BootTask(t)),
           TASK1, IDLE, QUANTUM, 13,
           seq(NR_TASKS, d => if d <= 1 then 1 else 0),
           seq(NR_SEMAPHORES, n => Semaphore(0, -1, false)),
           [], BootMemory(bytes))
  }

  lemma BootUsers(bytes: seq<seq<Byte>>)
    requires |bytes| == TOTAL_PAGES
    ensures Shape(BootKernel(bytes)) && ReferencesOk(BootKernel(bytes))
    ensures forall t: Tid :: Live(BootKernel(bytes), t) <==> t >= TASK1
  {
    BootTables(bytes);
    var k := BootKernel(bytes);
    forall t: Tid
      ensures Live(k, t) <==> t >= TASK1
    {
      if t < TASK1 { assert k.queues[FREE][7 - t] == t; }
    }
    forall d | 0 <= d < NR_TASKS
      ensures Users(k, d) == if d == 0 then {IDLE} else if d == 1 then {TASK1} else {}
    {
      forall t: Tid
        ensures t in Users(k, d) <==> (t == IDLE && d == 0) || (t == TASK1 && d == 1)
      {
        assert k.tasks[t] == BootTask(t);
        assert Live(k, t) <==> t >= TASK1;
      }
    }
  }

  /** The boot state satisfies the invariant, loses no frame and no task, and covers its break. */
  lemma BootInv(bytes: seq<seq<Byte>>)
    requires |bytes| == TOTAL_PAGES
    ensures var k := BootKernel(bytes);
            && Inv(k) && Clean(k) && NobodyStarved(k) && Covered(k, TASK1)
            && (forall t: Tid :: Reachable(k, t))
  {
    var k := BootKernel(bytes);
    BootTables(bytes);
    BootSound(bytes);
    BootUsers(bytes);
    forall t: Tid
      ensures Reachable(k, t)
    {
      if t < TASK1 { assert k.queues[FREE][7 - t] == t; }
    }
    PageOrder(HEAP_START * PAGE_SIZE);
  }

  ghost function Start(bytes: seq<seq<Byte>>): (k: Kernel)
    requires |bytes| == TOTAL_PAGES
    ensures Inv(k)
  {
    BootInv(bytes);
    BootKernel(bytes)
  }

  /**
   So the invariant, the whereabouts of every task and the account of every frame hold in every run
   from boot; no frame lies idle in a dead directory unless a last thread left unreclaimed.
   */
  lemma FromBoot(bytes: seq<seq<Byte>>, run: seq<Event>, t: Tid)
    requires |bytes| == TOTAL_PAGES && Legal(Start(bytes), run)
    ensures var n := Run(Start(bytes), run);
            && Inv(n)
            && |UsedFrames(n.memory)| == NUM_PAG_CODE + |Entries(n.memory)| + LostIn(Start(bytes), run)
            && (NoLeak(n.memory) <==> LostIn(Start(bytes), run) == 0)
            && ((exists p :: IsAt(n, t, p)) <==> !EverOrphaned(Start(bytes), run, t))
            && (NeverAbandons(Start(bytes), run) ==> Clean(n))
  {
    hide QueuesOk, StatesOk, ReferencesOk, MemoryOk, SemaphoresOk, ReadsOk;
    hide Legal, Run, LostIn, UsedFrames, Entries, NoLeak, BootKernel, IsAt, EverOrphaned, NeverAbandons;
    BootInv(bytes);
    RunFrames(Start(bytes), run);
    NothingLeaked(Start(bytes).memory);
    if NeverAbandons(Start(bytes), run) { RunClean(Start(bytes), run); }
    RunPartition(Start(bytes), run, t);
  }

  /** The first process, in numbers. */
  lemma BootExact(bytes: seq<seq<Byte>>)
    requires |bytes| == TOTAL_PAGES
    ensures var k := Start(bytes);
            && k.current == 8 && k.idle == 9 && k.remaining == 300 && k.nextPid == 13 && k.ring == []
            && k.queues[FREE] == [7, 6, 5, 4, 3, 2, 1, 0]
            && (forall h :: 0 < h < NR_QUEUES ==> k.queues[h] == [])
            && k.tasks[8].pid == 1 && k.tasks[8].quantum == 300 && k.tasks[8].programBreak == 1163264
            && k.tasks[8].dir == 1 && k.tasks[9].pid == 0 && k.tasks[9].quantum == 0 && k.tasks[9].dir == 0
            && (forall n :: 0 <= n < NR_SEMAPHORES ==> k.semaphores[n] == Semaphore(0, -1, false))
            && k.references == [1, 1, 0, 0, 0, 0, 0, 0, 0, 0]
  {
    hide BootMemory;
  }

  /** From boot on the i-th task made is answered 13 + i, and a pid names one live task at most. */
  lemma BootPids(bytes: seq<seq<Byte>>, run: seq<Event>)
    requires |bytes| == TOTAL_PAGES && Legal(Start(bytes), run)
    requires |PidsIn(Start(bytes), run)| <= 0x7FFF_FFFF - 13
    ensures forall i :: 0 <= i < |PidsIn(Start(bytes), run)| ==>
              PidsIn(Start(bytes), run)[i] == Returns(14 + i)
    ensures PidsOk(Run(Start(bytes), run))
  {
    hide QueuesOk, StatesOk, ReferencesOk, MemoryOk, SemaphoresOk, ReadsOk, Legal, Run, PidsIn, BootKernel;
    BootExact(bytes);
    PidsAtBoot(bytes);
    RunPids(Start(bytes), run);
    RunPidsOk(Start(bytes), run);
  }

  lemma PidsAtBoot(bytes: seq<seq<Byte>>)
    requires |bytes| == TOTAL_PAGES
    ensures PidsOk(Start(bytes))
  {
    hide BootMemory;
    BootUsers(bytes);
  }

  /** From boot on the task at position i of the ready queue runs before 300 * (i + 1) ticks. */
  lemma BootWaiting(bytes: seq<seq<Byte>>, before: seq<Event>, run: seq<Event>, i: nat)
    requires |bytes| == TOTAL_PAGES && Legal(Start(bytes), before)
    requires Legal(Run(Start(bytes), before), run) && i < |Run(Start(bytes), before).queues[READY]|
    requires Ticks(run) >= 300 * (i + 1)
    ensures Dispatched(Run(Start(bytes), before), run, Run(Start(bytes), before).queues[READY][i])
  {
    hide QueuesOk, StatesOk, ReferencesOk, MemoryOk, SemaphoresOk, ReadsOk, Legal, Run, Ticks, Dispatched;
    QuantaAtBoot(bytes);
    RunWithin(Start(bytes), before);
    WaitsInTurn(Run(Start(bytes), before), run, i);
  }

  lemma QuantaAtBoot(bytes: seq<seq<Byte>>)
    requires |bytes| == TOTAL_PAGES
    ensures WithinQuantum(Start(bytes)) && QuantaOk(Start(bytes))
  {
    hide BootMemory;
  }
}
