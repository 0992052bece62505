/**
 The kernel in place: sched.c, sys.c, devices.c and the interrupt handlers as methods over the
 lists, the ring, the memory manager and the global arrays. Every entry point is proved to make the
 step Machine defines.
 */
module Zeos {
  import opened Params
  import opened Paging
  import opened AddressSpaces
  import opened Machine
  import opened TaskQueues
  import opened Invariants
  import opened Circles
  import opened Lists
  import opened Ring
  import opened Mm
  import opened SpaceRuns
  import opened Stats
  import opened TickRuns
  import opened KeyboardStream
  import opened AsWritten
  import Boot

  // struct semaphore; its queue is in the list space.
  datatype SemaphoreCell = SemaphoreCell(counter: int, owner: int)

  // What the time keeper has been asked to do so far.
  datatype Keeping = Keeping(spots: seq<Spot>, zeosTicks: int, idleStarted: bool) {
    function Plus(more: seq<Spot>): Keeping { this.(spots := spots + more) }
  }

  const NOWHERE := -1

  // Offsets of two fields in struct task_struct.
  const LIST_OFFSET := 12
  const STATE_OFFSET := 24

  // How the signal as written ends.
  datatype Ending = Returned(ret: int) | Faulted | Strayed

  // What a run comes to.
  datatype Summary = Summary(k: Kernel, replies: seq<Reply>, slices: seq<seq<Byte>>, spots: seq<Spot>) {
    function After(earlier: seq<Reply>, handed: seq<seq<Byte>>): Summary {
      this.(replies := earlier + replies, slices := handed + slices)
    }
  }

  class System {
    const lists: ListSpace
    const cb: CircularBuffer
    const mm: MemoryManager
    const task: array<Task>
    const dirReferences: array<int>
    const semaphores: array<SemaphoreCell>
    const books: TimeKeeper
    var current: Tid
    var idleTask: Tid
    var remainingTicks: int
    var nextPid: int
    // All of it as a value.
    ghost var view: Kernel

    ghost function Repr(): set<object> {
      var structures: set<object> := lists.all;
      {this, lists, cb, cb.buffer, mm, mm.physMem, mm.pagusrTable, mm.ram, task, dirReferences, semaphores}
      + structures
    }

    // The time keeper is in order and apart from the rest.
    ghost predicate Booked()
      reads books, books.footprint
    {
      books in books.footprint && Repr() !! books.footprint && books.Valid()
    }

    ghost function Log(): Keeping
      reads books
    {
      Keeping(books.spots, books.zeosTicks, books.idleStarted)
    }

    // The fields, field by field, are those of the view.
    ghost predicate Tied()
      reads Repr()
    {
      && Shape(view)
      && lists.queues == view.queues
      && cb.InBounds() && cb.Contents() == view.ring
      && mm.m == view.memory
      && task[..] == view.tasks && dirReferences[..] == view.references
      && semaphores.Length == NR_SEMAPHORES
      && (forall n :: 0 <= n < NR_SEMAPHORES ==>
            semaphores[n] == SemaphoreCell(view.semaphores[n].counter, view.semaphores[n].owner))
      && current == view.current && idleTask == view.idle
      && remainingTicks == view.remaining && nextPid == view.nextPid
    }

    // The parts are in order, and exactly the queues the view calls initialised are lists.
    ghost predicate Parts()
      reads Repr()
    {
      && cb.buffer != mm.ram
      && lists.Valid() && cb.Valid() && cb.size == RING_SIZE && mm.Valid()
      && |view.semaphores| == NR_SEMAPHORES
      && forall h :: 0 <= h < NR_QUEUES ==> (lists.Initialised(h) <==> IsList(view, h))
    }

    // Free, ready and keyboard queue always; a semaphore's queue once it was initialised.
    static ghost predicate IsList(k: Kernel, h: int)
      requires |k.semaphores| == NR_SEMAPHORES && 0 <= h < NR_QUEUES
    {
      h <= KEYBOARD || k.semaphores[h - 3].initialised
    }

    ghost predicate Valid()
      reads Repr()
      ensures Valid() ==> && Shape(view) && current == view.current && idleTask == view.idle
                          && remainingTicks == view.remaining && nextPid == view.nextPid
    {
      Tied() && Parts()
    }

    // ---------- Boot ----------

    // Prepending tasks 0, 1, ... i - 1 to an empty queue.
    static function Stacked(i: nat): (s: seq<Tid>)
      requires i <= NR_TASKS
      ensures |s| == i
    {
      seq<Tid>(i, j requires 0 <= j < i => i - 1 - j)
    }

    // The static storage around lists, ring and memory as their own constructors leave them.
    constructor (lists: ListSpace, cb: CircularBuffer, mm: MemoryManager, books: TimeKeeper)
      requires lists.Valid() && forall h :: 0 <= h < NR_QUEUES ==> !lists.Initialised(h) && lists.queues[h] == []
      requires cb.Valid() && cb.size == RING_SIZE && cb.Contents() == [] && cb.buffer != mm.ram
      requires mm.Valid() && mm.m == Boot.BareMemory(mm.m.bytes)
      requires books.Valid() && books.spots == [] && !books.idleStarted && books.zeosTicks == 0
      requires var parts: set<object> := lists.all;
               books.footprint !! {lists, cb, cb.buffer, mm, mm.physMem, mm.pagusrTable, mm.ram} + parts
      ensures Raw() && this.lists == lists && this.cb == cb && this.mm == mm && this.books == books
      ensures fresh(task) && fresh(dirReferences) && fresh(semaphores)
    {
      hide ListSpace.Valid, MemoryManager.Valid, CircularBuffer.Valid, Boot.BareMemory;
      this.lists, this.cb, this.mm, this.books := lists, cb, mm, books;
      task := new Task[NR_TASKS](_ => Task(0, 0, 0, ST_RUN, 0, 0, 0, Nothing));
      dirReferences := new int[NR_TASKS](_ => 0);
      semaphores := new SemaphoreCell[NR_SEMAPHORES](_ => SemaphoreCell(0, 0));
      current, idleTask, remainingTicks, nextPid := 0, 0, 0, 0;
    }

    /** init_sched, init_idle and init_task1 lead to the state the runs start from. */
    method Start()
      requires Raw()
      modifies Repr(), books.footprint
      ensures Valid() && view == Boot.BootKernel(view.memory.bytes)
      ensures view.memory.bytes == old(mm.m.bytes)
      ensures Booked() && Log() == Keeping([Making(Boot.IDLE, Boot.IDLE), Making(Boot.TASK1, Boot.TASK1)], 0, false)
    {
      hide System.Parts, TimeKeeper.Valid, Boot.BootMemory, Boot.BootKernel;
      InitSched();
      InitProcesses();
    }

    // What the kernel's storage holds before init_sched.
    ghost predicate Raw()
      reads Repr(), books, books.footprint
    {
      && Booked() && Log() == Keeping([], 0, false)
      && cb.buffer != mm.ram
      && lists.Valid() && cb.Valid() && cb.size == RING_SIZE && cb.Contents() == []
      && mm.Valid() && mm.m == Boot.BareMemory(mm.m.bytes)
      && (forall h :: 0 <= h < NR_QUEUES ==> !lists.Initialised(h) && lists.queues[h] == [])
      && task.Length == NR_TASKS
      && (forall t :: 0 <= t < NR_TASKS ==> task[t] == Task(0, 0, 0, ST_RUN, 0, 0, 0, Nothing))
      && dirReferences.Length == NR_TASKS && (forall d :: 0 <= d < NR_TASKS ==> dirReferences[d] == 0)
      && semaphores.Length == NR_SEMAPHORES
      && (forall n :: 0 <= n < NR_SEMAPHORES ==> semaphores[n] == SemaphoreCell(0, 0))
      && current == idleTask == remainingTicks == nextPid == 0
    }

    // The kernel after init_sched: ten free tasks and nothing else.
    static ghost function Idle0(memory: Memory): (k: Kernel)
      ensures |k.queues| == NR_QUEUES && |k.queues[FREE]| == NR_TASKS
      ensures |k.tasks| == NR_TASKS && |k.references| == NR_TASKS
    {
      Kernel(seq(NR_QUEUES, h => if h == FREE then Stacked(NR_TASKS) else []),
             seq(NR_TASKS, t => Task(0, 0, 0, ST_RUN, 0, 0, 0, Nothing)), 0, 0, 0, 0,
             seq(NR_TASKS, d => 0), seq(NR_SEMAPHORES, n => Semaphore(0, -1, false)), [], memory)
    }

    method InitSched()
      requires Raw()
      modifies Repr()
      ensures Valid() && view == Idle0(Boot.BareMemory(view.memory.bytes))
      ensures view.memory.bytes == old(mm.m.bytes)
    {
      hide ListSpace.Valid, MemoryManager.Valid, CircularBuffer.Valid, Boot.BareMemory;
      InitQueues();
      FreeSemaphores();
      view := Idle0(mm.m);
      assert cb.Contents() == view.ring;
    }

    // init_idle and init_task1
    method InitProcesses()
      requires Valid() && view == Idle0(Boot.BareMemory(view.memory.bytes))
      requires Booked()
      modifies Repr(), books.footprint
      ensures Valid() && view == Boot.BootKernel(view.memory.bytes)
      ensures view.memory.bytes == old(view.memory.bytes)
      ensures Booked()
      ensures Log() == old(Log()).Plus([Making(Boot.IDLE, Boot.IDLE), Making(Boot.TASK1, Boot.TASK1)])
    {
      hide System.Parts, TimeKeeper.Valid, Boot.BareMemory, Boot.BootMemory, Boot.WithUser, SetCr3;
      ghost var o := view;
      Boot.UserMapped(o.memory.bytes);
      assert FreeDirectory(o.references, 0) == 0;
      InitIdle();
      assert FreeDirectory(view.references, 0) == 1;
      InitTask1();
      BootState(o, view);
    }

    // Ten free tasks, the first two taken for idle and task 1.
    static lemma BootState(o: Kernel, k: Kernel)
      requires |o.memory.bytes| == TOTAL_PAGES && o == Idle0(Boot.BareMemory(o.memory.bytes))
      requires k.queues == Pop(Pop(o.queues, FREE), FREE)
      requires k.references == o.references[0 := 1][1 := 1]
      requires var idle := o.tasks[9].(pid := 0, dir := 0);
               var task1 := o.tasks[8].(pid := 1, dir := 1, quantum := QUANTUM, state := ST_RUN,
                                        programBreak := HEAP_START * PAGE_SIZE);
               k.tasks == o.tasks[9 := idle][8 := task1]
      requires k == o.(queues := k.queues, tasks := k.tasks, references := k.references,
                       current := 8, idle := 9, remaining := QUANTUM, nextPid := 13, memory := k.memory)
      requires k.memory == Boot.BootMemory(o.memory.bytes)
      ensures k == Boot.BootKernel(k.memory.bytes)
    {
      assert k.memory.bytes == o.memory.bytes;
      hide Boot.BareMemory, Boot.BootMemory;
      var b := Boot.BootKernel(o.memory.bytes);
      assert k.queues[FREE] == Boot.FreeAtBoot();
      assert k.queues == b.queues;
      assert k.tasks == b.tasks;
      assert k.references == b.references;
    }

    // ... no owner for any semaphore
    method FreeSemaphores()
      requires semaphores.Length == NR_SEMAPHORES
      requires forall n :: 0 <= n < NR_SEMAPHORES ==> semaphores[n] == SemaphoreCell(0, 0)
      modifies semaphores
      ensures forall n :: 0 <= n < NR_SEMAPHORES ==> semaphores[n] == SemaphoreCell(0, -1)
    {
      var i := 0;
      while i < NR_SEMAPHORES
        invariant 0 <= i <= NR_SEMAPHORES
        invariant forall n :: 0 <= n < NR_SEMAPHORES ==> semaphores[n] == SemaphoreCell(0, if n < i then -1 else 0)
      {
        semaphores[i] := semaphores[i].(owner := -1);
        i := i + 1;
      }
    }

    // init_sched: ten tasks on the free queue, the other lists empty
    method InitQueues()
      requires lists.Valid() && forall h :: 0 <= h < NR_QUEUES ==> !lists.Initialised(h) && lists.queues[h] == []
      modifies lists, lists.all
      ensures lists.Valid()
      ensures forall h :: 0 <= h < NR_QUEUES ==>
                && (lists.Initialised(h) <==> h <= KEYBOARD)
                && lists.queues[h] == if h == FREE then Stacked(NR_TASKS) else []
    {
      hide ListSpace.Valid;
      lists.Init(FREE);
      var i := 0;
      while i < NR_TASKS
        invariant 0 <= i <= NR_TASKS && lists.Valid()
        invariant forall h :: 0 <= h < NR_QUEUES ==>
                    && (lists.Initialised(h) <==> h == FREE)
                    && lists.queues[h] == if h == FREE then Stacked(i) else []
      {
        lists.Add(i, FREE);
        assert [i] + Stacked(i) == Stacked(i + 1);
        i := i + 1;
      }
      lists.Init(READY);
      lists.Init(KEYBOARD);
    }

    // ---------- Stores and list operations ----------

    // A task structure overwritten.
    method SetTask(t: Tid, s: Task)
      requires Valid() && s.dir < NR_TASKS && 0 <= s.programBreak < 0x1_0000_0000
      modifies Repr()
      ensures Valid() && view == old(view).(tasks := old(view).tasks[t := s])
    {
      hide ListSpace.Valid, MemoryManager.Valid, CircularBuffer.Valid;
      task[t] := s;
      view := view.(tasks := view.tasks[t := s]);
      assert cb.Contents() == view.ring;
    }

    method SetRemaining(r: int)
      requires Valid()
      modifies Repr()
      ensures Valid() && view == old(view).(remaining := r)
    {
      hide ListSpace.Valid, MemoryManager.Valid, CircularBuffer.Valid;
      remainingTicks := r;
      view := view.(remaining := r);
      assert cb.Contents() == view.ring;
    }

    method SetCurrent(t: Tid)
      requires Valid()
      modifies Repr()
      ensures Valid() && view == old(view).(current := t)
    {
      hide ListSpace.Valid, MemoryManager.Valid, CircularBuffer.Valid;
      current := t;
      view := view.(current := t);
      assert cb.Contents() == view.ring;
    }

    method SetIdle(t: Tid)
      requires Valid()
      modifies Repr()
      ensures Valid() && view == old(view).(idle := t)
    {
      hide ListSpace.Valid, MemoryManager.Valid, CircularBuffer.Valid;
      idleTask := t;
      view := view.(idle := t);
      assert cb.Contents() == view.ring;
    }

    method SetNextPid(p: int)
      requires Valid() && 0 <= p < 0x1_0000_0000
      modifies Repr()
      ensures Valid() && view == old(view).(nextPid := p)
    {
      hide ListSpace.Valid, MemoryManager.Valid, CircularBuffer.Valid;
      nextPid := p;
      view := view.(nextPid := p);
      assert cb.Contents() == view.ring;
    }

    method SetReferences(d: nat, n: int)
      requires Valid() && d < NR_TASKS
      modifies Repr()
      ensures Valid() && view == old(view).(references := old(view).references[d := n])
    {
      hide ListSpace.Valid, MemoryManager.Valid, CircularBuffer.Valid;
      dirReferences[d] := n;
      view := view.(references := view.references[d := n]);
      assert cb.Contents() == view.ring;
    }

    method SetSemaphore(n: int, s: SemaphoreCell)
      requires Valid() && SemNumber(n)
      modifies Repr()
      ensures Valid()
      ensures view == old(view).(semaphores := old(view).semaphores[
                n := Semaphore(s.counter, s.owner, old(view).semaphores[n].initialised)])
    {
      hide ListSpace.Valid, MemoryManager.Valid, CircularBuffer.Valid;
      semaphores[n] := s;
      view := view.(semaphores := view.semaphores[
                n := Semaphore(s.counter, s.owner, view.semaphores[n].initialised)]);
      assert cb.Contents() == view.ring;
    }

    method GetTask(t: Tid) returns (s: Task)
      requires Valid()
      ensures s == view.tasks[t]
    {
      hide System.Parts;
      s := task[t];
    }

    method GetReferences(d: nat) returns (n: int)
      requires Valid() && d < NR_TASKS
      ensures n == view.references[d]
    {
      hide System.Parts;
      n := dirReferences[d];
    }

    method GetSemaphore(n: int) returns (s: SemaphoreCell)
      requires Valid() && SemNumber(n)
      ensures s == SemaphoreCell(view.semaphores[n].counter, view.semaphores[n].owner)
    {
      hide System.Parts;
      s := semaphores[n];
    }

    method IsEmpty(h: int) returns (empty: bool)
      requires Valid() && 0 <= h < NR_QUEUES && IsList(view, h)
      ensures empty <==> view.queues[h] == []
    {
      hide ListSpace.Valid, MemoryManager.Valid, CircularBuffer.Valid;
      empty := lists.IsEmpty(h);
    }

    method First(h: int) returns (t: Tid)
      requires Valid() && 0 <= h < NR_QUEUES && IsList(view, h) && view.queues[h] != []
      ensures t == view.queues[h][0]
    {
      hide ListSpace.Valid, MemoryManager.Valid, CircularBuffer.Valid;
      t := lists.First(h);
    }

    method AddTail(t: Tid, h: int)
      requires Valid() && 0 <= h < NR_QUEUES && IsList(view, h) && Unlinked(view.queues, t)
      modifies Repr()
      ensures Valid() && view == old(view).(queues := Append(old(view).queues, h, t))
    {
      hide ListSpace.Valid, MemoryManager.Valid, CircularBuffer.Valid;
      lists.AddTail(t, h);
      view := view.(queues := Append(view.queues, h, t));
      assert cb.Contents() == view.ring;
    }

    method Unlink(t: Tid, ghost h: int, ghost i: nat)
      requires Valid() && 0 <= h < NR_QUEUES && i < |view.queues[h]| && view.queues[h][i] == t
      modifies Repr()
      ensures Valid() && Unlinked(view.queues, t) && lists.Loose(t)
      ensures view == old(view).(queues := Removed(old(view).queues, h, i))
    {
      hide ListSpace.Valid, MemoryManager.Valid, CircularBuffer.Valid;
      lists.Del(t, h, i);
      view := view.(queues := Removed(view.queues, h, i));
      assert cb.Contents() == view.ring;
    }

    // list_first and list_del
    method TakeFirst(h: int) returns (t: Tid)
      requires Valid() && 0 <= h < NR_QUEUES && IsList(view, h) && view.queues[h] != []
      modifies Repr()
      ensures Valid() && t == old(view).queues[h][0] && Unlinked(view.queues, t)
      ensures view == old(view).(queues := Pop(old(view).queues, h))
    {
      hide System.Valid;
      t := First(h);
      assert Bypass(view.queues[h], 0) == view.queues[h][1..];
      Unlink(t, h, 0);
    }

    // INIT_LIST_HEAD on a semaphore's queue
    method InitQueue(n: int)
      requires Valid() && SemNumber(n)
      modifies Repr()
      ensures Valid()
      ensures var o := old(view);
              view == o.(queues := o.queues[SemQueue(n) := []],
                         semaphores := o.semaphores[n := o.semaphores[n].(initialised := true)])
    {
      hide ListSpace.Valid, MemoryManager.Valid, CircularBuffer.Valid;
      lists.Init(SemQueue(n));
      view := view.(queues := view.queues[SemQueue(n) := []],
                    semaphores := view.semaphores[n := view.semaphores[n].(initialised := true)]);
      assert cb.Contents() == view.ring;
    }

    // The search loop of allocate_DIR.
    method FindDirectory() returns (pos: nat)
      requires Valid()
      ensures pos == FreeDirectory(view.references, 0)
    {
      hide System.Parts;
      ghost var found := FreeDirectory(view.references, 0);
      pos := 0;
      while pos < NR_TASKS && dirReferences[pos] != 0
        invariant 0 <= pos <= NR_TASKS && found == FreeDirectory(view.references, pos)
      {
        pos := pos + 1;
      }
    }

    // allocate_DIR; unlike the C code the store is only reached with a directory found.
    method AllocateDir(t: Tid)
      requires Valid() && FreeDirectory(view.references, 0) < NR_TASKS
      modifies Repr()
      ensures Valid()
      ensures var o := old(view);
              var d := FreeDirectory(o.references, 0);
              view == o.(tasks := o.tasks[t := o.tasks[t].(dir := d)],
                         references := o.references[d := o.references[d] + 1])
    {
      hide System.Valid, FreeDirectory;
      var pos := FindDirectory();
      var count := GetReferences(pos);
      SetReferences(pos, count + 1);
      var s := GetTask(t);
      SetTask(t, s.(dir := pos));
    }

    // init_idle: the first free task, in the first directory
    method InitIdle()
      requires Valid() && view.queues[FREE] != [] && FreeDirectory(view.references, 0) < NR_TASKS
      requires Booked()
      modifies Repr(), books.footprint
      ensures Booked() && Log() == old(Log()).Plus([Making(old(view).queues[FREE][0], old(view).queues[FREE][0])])
      ensures Valid()
      ensures var o := old(view);
              var t, d := o.queues[FREE][0], FreeDirectory(o.references, 0);
              view == o.(queues := Pop(o.queues, FREE), idle := t,
                         tasks := o.tasks[t := o.tasks[t].(pid := 0, dir := d)],
                         references := o.references[d := o.references[d] + 1])
    {
      hide System.Valid, TimeKeeper.Valid, FreeDirectory;
      ghost var o := view;
      var t := TakeFirst(FREE);
      var s := GetTask(t);
      SetTask(t, s.(pid := 0));
      AllocateDir(t);
      Overwritten(o.tasks, t, s.(pid := 0), view.tasks[t]);
      SetIdle(t);
      books.Reset(t);
    }

    // set_user_pages
    method SetUserPages(d: nat)
      requires Valid() && d < NR_TASKS && d != view.memory.cr3
      requires AllocN(view.memory.phys, NUM_PAG_CODE + NUM_PAG_DATA).Allocated?
      modifies Repr()
      ensures Valid() && view == old(view).(memory := Boot.WithUser(old(view).memory, d))
    {
      hide ListSpace.Valid, MemoryManager.Valid, CircularBuffer.Valid, Boot.WithUser;
      mm.SetUserPages(d);
      view := view.(memory := mm.m);
      assert cb.Contents() == view.ring;
    }

    // The first half of init_task1: the next free task, in the next directory.
    method PlaceTask1() returns (t: Tid, placed: Task)
      requires Valid() && view.queues[FREE] != [] && FreeDirectory(view.references, 0) < NR_TASKS
      modifies Repr()
      ensures Valid()
      ensures var o := old(view);
              var d := FreeDirectory(o.references, 0);
              && t == o.queues[FREE][0]
              && placed == o.tasks[t].(pid := 1, dir := d, quantum := QUANTUM, state := ST_RUN)
              && view == o.(queues := Pop(o.queues, FREE), nextPid := 13, tasks := o.tasks[t := placed],
                            references := o.references[d := o.references[d] + 1])
    {
      hide System.Valid, FreeDirectory;
      ghost var o := view;
      t := TakeFirst(FREE);
      SetNextPid(13);
      var s := GetTask(t);
      s := s.(pid := 1, quantum := QUANTUM, state := ST_RUN);
      SetTask(t, s);
      AllocateDir(t);
      placed := GetTask(t);
      Overwritten(o.tasks, t, s, placed);
    }

    // init_task1: that task, with fresh user pages, about to run at the heap base
    method InitTask1()
      requires Valid() && view.queues[FREE] != [] && FreeDirectory(view.references, 0) < NR_TASKS
      requires AllocN(view.memory.phys, NUM_PAG_CODE + NUM_PAG_DATA).Allocated?
      requires FreeDirectory(view.references, 0) != view.memory.cr3
      requires Booked()
      modifies Repr(), books.footprint
      ensures Booked() && Log() == old(Log()).Plus([Making(old(view).queues[FREE][0], old(view).queues[FREE][0])])
      ensures Valid()
      ensures var o := old(view);
              var t, d := o.queues[FREE][0], FreeDirectory(o.references, 0);
              view == o.(queues := Pop(o.queues, FREE), current := t, remaining := QUANTUM, nextPid := 13,
                         tasks := o.tasks[t := o.tasks[t].(pid := 1, dir := d, quantum := QUANTUM,
                                                           state := ST_RUN,
                                                           programBreak := HEAP_START * PAGE_SIZE)],
                         references := o.references[d := o.references[d] + 1],
                         memory := SetCr3(Boot.WithUser(o.memory, d), d))
    {
      hide System.Valid, TimeKeeper.Valid, FreeDirectory, Boot.WithUser;
      ghost var o := view;
      var t, placed := PlaceTask1();
      SetUserPages(placed.dir);
      WriteCr3(placed.dir);
      SetRemaining(placed.quantum);
      books.Reset(t);
      var ready := placed.(programBreak := (PAG_LOG_INIT_DATA + NUM_PAG_DATA) * PAGE_SIZE);
      SetTask(t, ready);
      Overwritten(o.tasks, t, placed, ready);
      SetCurrent(t);
    }

    // ---------- sched.c ----------

    // update_process_state_rr, NOWHERE for a null destination: a task that is not running is unlinked
    // first, a running one is linked nowhere. src and i say where the former is.
    method UpdateProcessState(t: Tid, dest: int, ghost src: int, ghost i: nat)
      requires Valid() && Booked() && (dest == NOWHERE || (0 <= dest < NR_QUEUES && IsList(view, dest)))
      requires if view.tasks[t].state == ST_RUN then Unlinked(view.queues, t)
               else 0 <= src < NR_QUEUES && i < |view.queues[src]| && view.queues[src][i] == t
      modifies Repr(), books.footprint
      ensures Valid()
      ensures var o := old(view);
              var q := if o.tasks[t].state == ST_RUN then o.queues else Removed(o.queues, src, i);
              view == o.(queues := if dest == NOWHERE then q else Append(q, dest, t),
                         tasks := o.tasks[t := o.tasks[t].(
                           state := if dest == NOWHERE then ST_RUN
                                    else if dest == READY then ST_READY else ST_BLOCKED)])
      ensures Booked() && Log() == old(Log()).Plus(if dest == READY then [To(t, User)] else [])
    {
      hide System.Valid, TimeKeeper.Valid;
      var s := GetTask(t);
      if s.state != ST_RUN {
        Unlink(t, src, i);
      }
      if dest == NOWHERE {
        SetTask(t, s.(state := ST_RUN));
      } else {
        AddTail(t, dest);
        if dest != READY {
          SetTask(t, s.(state := ST_BLOCKED));
        } else {
          books.Update(t, User);
          SetTask(t, s.(state := ST_READY));
        }
      }
    }

    // task_switch: CR3 is written only if the directories differ.
    method TaskSwitch(t: Tid)
      requires Valid()
      modifies Repr()
      ensures Valid()
      ensures var o := old(view);
              var from, to := o.tasks[o.current].dir, o.tasks[t].dir;
              view == o.(current := t, memory := if from == to then o.memory else SetCr3(o.memory, to))
    {
      hide System.Valid;
      var from := GetTask(current);
      var to := GetTask(t);
      if to.dir != from.dir {
        WriteCr3(to.dir);
      }
      SetCurrent(t);
    }

    method WriteCr3(d: nat)
      requires Valid() && d < NR_TASKS
      modifies Repr()
      ensures Valid() && view == old(view).(memory := SetCr3(old(view).memory, d))
    {
      hide ListSpace.Valid, MemoryManager.Valid, CircularBuffer.Valid;
      mm.WriteCr3(d);
      view := view.(memory := SetCr3(view.memory, d));
      assert cb.Contents() == view.ring;
    }

    // The two bookings of sched_next_rr for the task that goes.
    method BookHandover()
      requires Valid() && Booked()
      modifies books.footprint
      ensures Valid() && view == old(view)
      ensures Booked() && Log() == old(Log()).Plus(Handover(view))
    {
      hide System.Valid, TimeKeeper.Valid;
      books.Update(current, Field.System);
      books.Update(current, Ready);
      assert old(books.spots) + Handover(view)
          == (old(books.spots) + [To(current, Field.System)]) + [To(current, Ready)];
    }

    // sched_next_rr
    method SchedNextRr()
      requires Valid() && Booked()
      modifies Repr(), books.footprint
      ensures Valid() && view == SchedNext(old(view))
      ensures Booked() && Log() == old(Log()).Plus(Handover(old(view)))
    {
      hide System.Valid, TimeKeeper.Valid;
      var t := idleTask;
      var empty := IsEmpty(READY);
      if !empty {
        t := TakeFirst(READY);
      }
      var s := GetTask(t);
      SetTask(t, s.(state := ST_RUN));
      SetRemaining(s.quantum);
      BookHandover();
      TaskSwitch(t);
    }

    // needs_sched_rr
    method NeedsSched() returns (needs: bool)
      requires Valid()
      modifies Repr()
      ensures Valid()
      ensures var o := old(view);
              && (needs <==> o.remaining <= 0 && o.queues[READY] != [])
              && view == o.(remaining := if !needs && o.remaining == 0 then o.tasks[o.current].quantum
                                         else o.remaining)
    {
      hide System.Valid;
      var empty := IsEmpty(READY);
      if remainingTicks <= 0 && !empty {
        return true;
      }
      if remainingTicks == 0 {
        var s := GetTask(current);
        SetRemaining(s.quantum);
      }
      return false;
    }

    // The running task at the end of a queue, and the next one dispatched.
    method ParkAndSwitch(h: int)
      requires Valid() && Booked() && READY <= h < NR_QUEUES && IsList(view, h)
      requires view.tasks[view.current].state == ST_RUN && Unlinked(view.queues, view.current)
      modifies Repr(), books.footprint
      ensures Valid() && view == SchedNext(Park(old(view), h))
      ensures Booked()
      ensures Log() == old(Log()).Plus((if h == READY then [To(old(view).current, User)] else []) + Handover(old(view)))
    {
      hide System.Valid, TimeKeeper.Valid;
      UpdateProcessState(current, h, h, 0);
      SchedNextRr();
    }

    // The first task of a blocked queue made ready.
    method WakeFirst(h: int)
      requires Valid() && KEYBOARD <= h < NR_QUEUES && IsList(view, h) && view.queues[h] != []
      requires view.tasks[view.queues[h][0]].state != ST_RUN && Booked()
      modifies Repr(), books.footprint
      ensures Valid() && view == Wake(old(view), h)
      ensures Booked() && Log() == old(Log()).Plus([To(old(view).queues[h][0], User)])
    {
      hide System.Valid, TimeKeeper.Valid;
      var t := First(h);
      assert Bypass(view.queues[h], 0) == view.queues[h][1..];
      UpdateProcessState(t, READY, h, 0);
    }

    // clock_interrupt: update_sched_data_rr
    method ClockInterrupt()
      requires Valid() && Booked() && Inv(view) && Enabled(view, ETick)
      modifies Repr(), books.footprint
      ensures Valid() && view == Next(old(view), ETick)
      ensures Booked() && Log() == old(Log()).Plus(Work(old(view), ETick)).(
                zeosTicks := Signed(Word(old(Log()).zeosTicks + 1)))
    {
      hide System.Valid, TimeKeeper.Valid, ReferencesOk, MemoryOk, SemaphoresOk, ReadsOk, BlockedOk;
      hide Work, SchedNext;
      TickWork(view);
      books.Tick();
      SetRemaining(remainingTicks - 1);
      var needs := NeedsSched();
      if needs {
        ParkAndSwitch(READY);
      }
    }

    // ---------- Semaphores ----------

    method SetPending(p: Pending)
      requires Valid()
      modifies Repr()
      ensures Valid() && view == Suspend(old(view), p)
    {
      hide System.Valid;
      var s := GetTask(current);
      SetTask(current, s.(pending := p));
    }

    method SysSemInit(n: int, value: int) returns (ret: int)
      requires Valid() && Inv(view) && Enabled(view, ESemInit(n, value))
      modifies Repr()
      ensures Valid() && Step(view, Returns(ret), []) == SemInit(old(view), n, value)
    {
      hide System.Valid, QueuesOk, StatesOk, ReferencesOk, MemoryOk, SemaphoresOk, ReadsOk;
      if n < 0 || n >= NR_SEMAPHORES { return -ENAVAIL; }
      var s := GetSemaphore(n);
      if s.owner != -1 { return -ENAVAIL; }
      var self := GetTask(current);
      SetSemaphore(n, SemaphoreCell(Signed(value), self.pid));
      InitQueue(n);
      return 0;
    }

    // sys_sem_wait up to its sched_next_rr; blocks says that it got that far.
    method SysSemWait(n: int) returns (blocks: bool, ret: int)
      requires Valid() && Booked() && Inv(view) && Enabled(view, ESemWait(n))
      modifies Repr(), books.footprint
      ensures Booked() && Log() == old(Log()).Plus(Work(old(view), ESemWait(n)))
      ensures Valid()
      ensures Step(view, if blocks then Blocks else Returns(ret), []) == SemWait(old(view), n)
    {
      hide System.Valid, TimeKeeper.Valid, ReferencesOk, MemoryOk, SemaphoresOk, ReadsOk, BlockedOk;
      hide Work, SchedNext;
      WaitWork(view, n);
      if n < 0 || n > NR_SEMAPHORES { return false, -ENAVAIL; }
      var s := GetSemaphore(n);
      if s.counter > 0 {
        SetSemaphore(n, s.(counter := s.counter - 1));
        return false, 0;
      }
      SetPending(InSemWait(n));
      ParkAndSwitch(SemQueue(n));
      return true, 0;
    }

    // The rest of sys_sem_wait, when its task is dispatched again.
    method ResumeSemWait() returns (ret: int)
      requires Valid() && Inv(view) && Enabled(view, EResume)
      requires view.tasks[view.current].pending.InSemWait?
      modifies Repr()
      ensures Valid() && Step(view, Returns(ret), []) == Resume(old(view))
    {
      hide System.Valid, ReferencesOk, MemoryOk, SemaphoresOk, ReadsOk, BlockedOk;
      var self := GetTask(current);
      var s := GetSemaphore(self.pending.n);
      SetPending(Nothing);
      if s.owner != -1 { return 0; }
      return -ENAVAIL;
    }

    // sys_sem_signal, unlinking the waiter once (sys.c:281-283 does so twice, the second time
    // through a cleared link).
    method SysSemSignal(n: int) returns (ret: int)
      requires Valid() && Booked() && Inv(view) && Enabled(view, ESemSignal(n))
      modifies Repr(), books.footprint
      ensures Valid() && Step(view, Returns(ret), []) == SemSignal(old(view), n)
      ensures Booked() && Log() == old(Log()).Plus(Work(old(view), ESemSignal(n)))
    {
      hide System.Valid, TimeKeeper.Valid, ReferencesOk, MemoryOk, SemaphoresOk, ReadsOk;
      hide Work;
      SignalWork(view, n);
      if n < 0 || n > NR_SEMAPHORES { return -ENAVAIL; }
      var empty := IsEmpty(SemQueue(n));
      if empty {
        var s := GetSemaphore(n);
        SetSemaphore(n, s.(counter := s.counter + 1));
      } else {
        assert view.queues[SemQueue(n)][0] in view.queues[SemQueue(n)];
        WakeFirst(SemQueue(n));
      }
      return 0;
    }

    // The tasks of a queue are not running, and no task is linked twice.
    static ghost predicate Waiting(k: Kernel, h: int)
      requires Shape(k) && 0 <= h < NR_QUEUES
    {
      Once(k.queues) && forall t :: t in k.queues[h] ==> k.tasks[t].state != ST_RUN
    }

    static lemma StillWaiting(k: Kernel, h: int)
      requires Shape(k) && KEYBOARD < h < NR_QUEUES && Waiting(k, h) && k.queues[h] != []
      ensures Shape(Wake(k, h)) && Waiting(Wake(k, h), h)
      ensures WakeAll(k, h) == WakeAll(Wake(k, h), h)
      ensures |Wake(k, h).queues[h]| < |k.queues[h]|
      ensures k.tasks[k.queues[h][0]].state != ST_RUN
      ensures Wake(k, h).semaphores == k.semaphores && Wake(k, h).queues[h] == k.queues[h][1..]
    {
      var t := k.queues[h][0];
      assert t in k.queues[h];
      OncePop(k.queues, h);
      OnceAppend(Pop(k.queues, h), READY, t);
      assert Wake(k, h).queues[h] == k.queues[h][1..];
    }

    // The draining loop of sys_sem_destroy, again with one unlinking for each waiter.
    method WakeWaiters(h: int)
      requires Valid() && Booked() && KEYBOARD < h < NR_QUEUES && IsList(view, h) && Waiting(view, h)
      modifies Repr(), books.footprint
      ensures Valid() && view == WakeAll(old(view), h)
      ensures Booked() && Log() == old(Log()).Plus(Each(old(view).queues[h], User))
    {
      hide System.Valid, TimeKeeper.Valid, System.Waiting, Wake;
      ghost var all := WakeAll(view, h);
      ghost var spots := Each(view.queues[h], User);
      var empty := IsEmpty(h);
      while !empty
        invariant Valid() && IsList(view, h) && (empty <==> view.queues[h] == [])
        invariant Waiting(view, h) && WakeAll(view, h) == all
        invariant Booked() && Log().Plus(Each(view.queues[h], User)) == old(Log()).Plus(spots)
        decreases |view.queues[h]|
      {
        StillWaiting(view, h);
        assert Each(view.queues[h], User) == [To(view.queues[h][0], User)] + Each(Wake(view, h).queues[h], User);
        WakeFirst(h);
        empty := IsEmpty(h);
      }
    }

    method SysSemDestroy(n: int) returns (ret: int)
      requires Valid() && Booked() && Inv(view) && Enabled(view, ESemDestroy(n))
      modifies Repr(), books.footprint
      ensures Valid() && Step(view, Returns(ret), []) == SemDestroy(old(view), n)
      ensures Booked() && Log() == old(Log()).Plus(Work(old(view), ESemDestroy(n)))
    {
      hide System.Valid, TimeKeeper.Valid, ReferencesOk, MemoryOk, SemaphoresOk, ReadsOk;
      hide Work, Each, WakeAll;
      DestroyWork(view, n);
      if n < 0 || n > NR_SEMAPHORES { return -ENAVAIL; }
      var self := GetTask(current);
      var s := GetSemaphore(n);
      if self.pid != s.owner { return -ENAVAIL; }
      SetSemaphore(n, s.(owner := -1));
      WakeWaiters(SemQueue(n));
      return 0;
    }

    // ---------- Semaphores to the letter ----------

    // The stores of list_del with null links.
    method StoreNulls() returns (ok: bool)
      requires Valid() && KernelMapped(view.memory)
      modifies Repr()
      ensures Valid() && (ok <==> ZeroPage(old(view).memory))
      ensures view == if ok then old(view).(memory := NullStored(old(view).memory)) else old(view)
    {
      hide ListSpace.Valid, MemoryManager.Valid, CircularBuffer.Valid, NullStored, KernelMapped, ZeroPage;
      ok := mm.StoreNulls();
      view := view.(memory := mm.m);
      assert cb.Contents() == view.ring;
    }

    method Nullify(t: Tid)
      requires Valid() && Unlinked(view.queues, t)
      modifies Repr()
      ensures Valid() && view == old(view)
    {
      hide ListSpace.Valid, MemoryManager.Valid, CircularBuffer.Valid;
      lists.Nullify(t);
      assert cb.Contents() == view.ring;
    }

    method NoNeighbours(t: Tid) returns (none: bool)
      requires Valid() && lists.Loose(t)
      ensures none
    {
      hide ListSpace.Valid, MemoryManager.Valid, CircularBuffer.Valid;
      none := lists.NoNeighbours(t);
    }

    // list_del again on a task just unlinked: its links are null, so the stores go to address 0.
    method UnlinkAgain(t: Tid) returns (ok: bool)
      requires Valid() && Unlinked(view.queues, t) && lists.Loose(t) && KernelMapped(view.memory)
      modifies Repr()
      ensures Valid() && (ok <==> ZeroPage(old(view).memory))
      ensures view == if ok then old(view).(memory := NullStored(old(view).memory)) else old(view)
    {
      hide System.Valid, NullStored, KernelMapped, ZeroPage;
      var none := NoNeighbours(t);
      assert none;
      ok := StoreNulls();
      if ok { Nullify(t); }
    }

    // One turn of the loop of sys_sem_destroy with both unlinkings.
    method WakeTwiceUnlinked(h: int) returns (ok: bool)
      requires Valid() && Booked() && KEYBOARD < h < NR_QUEUES && IsList(view, h) && Waiting(view, h)
      requires view.queues[h] != [] && KernelMapped(view.memory)
      modifies Repr(), books.footprint
      ensures Valid() && Booked() && (ok <==> ZeroPage(old(view).memory))
      ensures ok ==> view == Wake(old(view).(memory := NullStored(old(view).memory)), h)
    {
      hide System.Valid, TimeKeeper.Valid, NullStored, KernelMapped, System.Waiting;
      var t := First(h);
      assert Bypass(view.queues[h], 0) == view.queues[h][1..];
      Unlink(t, h, 0);
      ok := UnlinkAgain(t);
      if !ok { return; }
      AddTail(t, READY);
      books.Update(t, User);
      var s := GetTask(t);
      SetTask(t, s.(state := ST_READY));
    }

    method SysSemDestroyWritten(n: int) returns (faults: bool, ret: int)
      requires Valid() && Booked() && Inv(view) && Enabled(view, ESemDestroy(n))
      modifies Repr(), books.footprint
      ensures Valid() && Booked()
      ensures match SemDestroyWritten(old(view), n)
              case Completes(s) => !faults && Step(view, Returns(ret), []) == s
              case PageFaults => faults
              case Strays => false
    {
      hide System.Valid, TimeKeeper.Valid, ReferencesOk, ImagesOk, SemaphoresOk, ReadsOk, Wake, NullStored;
      hide Exclusive, CodeTaken, HeapsContiguous, Coherent;
      if n < 0 || n > NR_SEMAPHORES { return false, -ENAVAIL; }
      var self := GetTask(current);
      var s := GetSemaphore(n);
      if self.pid != s.owner { return false, -ENAVAIL; }
      SetSemaphore(n, s.(owner := -1));
      faults := WakeWaitersWritten(SemQueue(n));
      return faults, 0;
    }

    method WakeWaitersWritten(h: int) returns (faults: bool)
      requires Valid() && Booked() && KEYBOARD < h < NR_QUEUES && IsList(view, h) && Waiting(view, h)
      requires KernelMapped(view.memory)
      modifies Repr(), books.footprint
      ensures Valid() && Booked()
      ensures match WakeAllWritten(old(view), h)
              case Completes(s) => !faults && Return(view, 0) == s
              case PageFaults => faults
              case Strays => false
    {
      hide System.Valid, TimeKeeper.Valid, System.Waiting, Wake, NullStored, KernelMapped, ZeroPage;
      ghost var all := WakeAllWritten(view, h);
      var empty := IsEmpty(h);
      while !empty
        invariant Valid() && Booked() && IsList(view, h) && (empty <==> view.queues[h] == [])
        invariant Waiting(view, h) && KernelMapped(view.memory) && WakeAllWritten(view, h) == all
        decreases |view.queues[h]|
      {
        StillWaitingWritten(view, h);
        var ok := WakeTwiceUnlinked(h);
        if !ok { return true; }
        empty := IsEmpty(h);
      }
      return false;
    }

    static lemma StillWaitingWritten(k: Kernel, h: int)
      requires Shape(k) && KEYBOARD < h < NR_QUEUES && Waiting(k, h) && k.queues[h] != []
      requires KernelMapped(k.memory)
      ensures var b := k.(memory := NullStored(k.memory));
              && Shape(b) && Shape(Wake(b, h)) && Waiting(Wake(b, h), h) && KernelMapped(Wake(b, h).memory)
              && |Wake(b, h).queues[h]| < |k.queues[h]|
              && Wake(b, h).semaphores == k.semaphores
              && WakeAllWritten(k, h) == if ZeroPage(k.memory) then WakeAllWritten(Wake(b, h), h) else PageFaults
    {
      var b := k.(memory := NullStored(k.memory));
      assert Waiting(b, h);
      StillWaiting(b, h);
    }

    // The address of the state field of the task "around" a list node.
    static function StateAddress(node: int): int { Word(node - LIST_OFFSET + STATE_OFFSET) }

    method SysSemSignalWritten(n: int) returns (ending: Ending)
      requires Valid() && Inv(view) && Enabled(view, ESemSignal(n))
      modifies Repr()
      ensures Valid()
      ensures match SemSignalWritten(old(view), n)
              case Completes(s) => ending.Returned? && Step(view, Returns(ending.ret), []) == s
              case PageFaults => ending == Faulted
              case Strays => ending == Strayed
    {
      hide System.Valid, ReferencesOk, MemoryOk, SemaphoresOk, ReadsOk;
      if n < 0 || n > NR_SEMAPHORES { return Returned(-ENAVAIL); }
      var empty := IsEmpty(SemQueue(n));
      if empty {
        var s := GetSemaphore(n);
        SetSemaphore(n, s.(counter := s.counter + 1));
        return Returned(0);
      }
      var present := SignalFollows(SemQueue(n));
      return if present then Strayed else Faulted;
    }

    // The waiter is unlinked, what follows it is looked up, and update_process_state_rr reads the state
    // of the task around that: from page 0, since nothing follows it.
    method SignalFollows(h: int) returns (present: bool)
      requires Valid() && KEYBOARD < h < NR_QUEUES && IsList(view, h) && view.queues[h] != []
      modifies Repr()
      ensures Valid() && view == old(view).(queues := Pop(old(view).queues, h))
      ensures present <==> ZeroPage(old(view).memory)
    {
      hide ListSpace.Valid, MemoryManager.Valid, CircularBuffer.Valid;
      var node := lists.SignalledNode(h);
      assert node == null && StateAddress(0) / PAGE_SIZE == 0;
      present := mm.IsPresent(StateAddress(0) / PAGE_SIZE);
      view := view.(queues := Pop(view.queues, h));
      assert cb.Contents() == view.ring;
    }

    // ---------- Processes ----------

    // copy_data of the running task's whole structure over an unlinked one: links included.
    method CopyTask(to: Tid)
      requires Valid() && Unlinked(view.queues, to)
      modifies Repr()
      ensures Valid()
      ensures view == old(view).(tasks := old(view).tasks[to := old(view).tasks[old(view).current]])
    {
      hide ListSpace.Valid, MemoryManager.Valid, CircularBuffer.Valid;
      lists.CopyLinks(current, to);
      task[to] := task[current];
      view := view.(tasks := view.tasks[to := view.tasks[view.current]]);
      assert cb.Contents() == view.ring;
    }

    // getNextPid
    method GetNextPid() returns (pid: int)
      requires Valid()
      modifies Repr()
      ensures Valid()
      ensures var next := Word(old(view).nextPid + 1);
              pid == Signed(next) && view == old(view).(nextPid := next)
    {
      hide System.Valid;
      SetNextPid(Word(nextPid + 1));
      pid := Signed(nextPid);
    }

    // The allocation loop with its rollback.
    method AllocFrames(n: nat) returns (ok: bool, frames: array<nat>)
      requires Valid() && CodeTaken(view.memory)
      modifies Repr()
      ensures Valid() && fresh(frames) && frames.Length == n
      ensures var o := old(view);
              var a := AllocN(o.memory.phys, n);
              && (ok <==> a.Allocated?)
              && (ok ==> frames[..] == a.frames)
              && view == if ok then o.(memory := o.memory.(phys := a.phys)) else o
    {
      hide ListSpace.Valid, MemoryManager.Valid, CircularBuffer.Valid;
      ok, frames := mm.AllocFrames(n);
      view := view.(memory := mm.m);
      assert cb.Contents() == view.ring;
    }

    method BuildChild(father: nat, child: nat, frames: array<nat>, ghost before: Memory)
      requires Valid() && frames !in Repr()
      requires CanFork(before, father, child) && Coherent(before) && before.cr3 == father
      requires view.memory == before.(phys := AllocN(before.phys, NUM_PAG_DATA).phys)
      requires frames.Length == NUM_PAG_DATA && frames[..] == AllocN(before.phys, NUM_PAG_DATA).frames
      modifies Repr()
      ensures Valid() && view == old(view).(memory := Forked(before, father, child))
    {
      hide ListSpace.Valid, MemoryManager.Valid, CircularBuffer.Valid, CanFork, Forked;
      mm.BuildChild(father, child, frames, before);
      view := view.(memory := mm.m);
      assert cb.Contents() == view.ring;
    }

    // sys_clone; accessible stands for the two access_ok tests.
    method SysClone(accessible: bool) returns (ret: int)
      requires Valid() && Booked() && Inv(view) && Enabled(view, EClone(accessible))
      modifies Repr(), books.footprint
      ensures Valid() && Step(view, Returns(ret), []) == Clone(old(view), accessible)
      ensures Booked() && Log() == old(Log()).Plus(Work(old(view), EClone(accessible)))
    {
      hide System.Valid, TimeKeeper.Valid, ReferencesOk, MemoryOk, SemaphoresOk, ReadsOk, BlockedOk;
      ghost var o := view;
      var empty := IsEmpty(FREE);
      if empty { return -ENOMEM; }
      if !accessible { return -EFAULT; }
      var child := TakeFirst(FREE);
      assert child in o.queues[FREE];
      var father := GetTask(current);
      var count := GetReferences(father.dir);
      SetReferences(father.dir, count + 1);
      CopyTask(child);
      ret := EnterChild(child, father);
      Overwritten(o.tasks, child, father, father.(pid := ret));
    }

    // The common end of sys_fork and sys_clone: the child gets its pid and its own books, and is made
    // ready.
    method EnterChild(child: Tid, copy: Task) returns (pid: int)
      requires Valid() && Booked() && Unlinked(view.queues, child) && child != view.current
      requires copy == view.tasks[child]
      modifies Repr(), books.footprint
      ensures Valid()
      ensures var o, next := old(view), Word(old(view).nextPid + 1);
              && pid == Signed(next)
              && view == o.(queues := Append(o.queues, READY, child), nextPid := next,
                            tasks := o.tasks[child := copy.(pid := pid)])
      ensures Booked() && Log() == old(Log()).Plus([Making(old(view).current, child)])
    {
      hide System.Valid, TimeKeeper.Valid;
      pid := GetNextPid();
      SetTask(child, copy.(pid := pid));
      books.Make(current, child);
      AddTail(child, READY);
    }

    // The rest of sys_fork once the frames are there. o is the kernel when the call was made.
    method MakeChild(frames: array<nat>, ghost o: Kernel) returns (ret: int)
      requires Valid() && Booked() && frames !in Repr() && frames !in books.footprint
      requires Shape(o) && o.queues[FREE] != []
      requires ChildDirectory(o) < NR_TASKS && Unlinked(Pop(o.queues, FREE), o.queues[FREE][0])
      requires o.current != o.queues[FREE][0]
      requires CanFork(o.memory, o.tasks[o.current].dir, ChildDirectory(o)) && Coherent(o.memory)
      requires o.memory.cr3 == o.tasks[o.current].dir
      requires view == o.(memory := o.memory.(phys := AllocN(o.memory.phys, NUM_PAG_DATA).phys))
      requires frames.Length == NUM_PAG_DATA && frames[..] == AllocN(o.memory.phys, NUM_PAG_DATA).frames
      modifies Repr(), books.footprint
      ensures Booked() && Log() == old(Log()).Plus([Making(o.current, o.queues[FREE][0])])
      ensures Valid()
      ensures var dir := ChildDirectory(o);
              var b := o.(memory := Forked(o.memory, o.tasks[o.current].dir, dir));
              Shape(b) && Step(view, Returns(ret), []) == Spawn(b, dir)
    {
      hide System.Valid, TimeKeeper.Valid, CanFork, Forked, Coherent, FreeDirectory;
      var child := TakeFirst(FREE);
      var father := GetTask(current);
      CopyTask(child);
      AllocateDir(child);
      ghost var dir := ChildDirectory(o);
      Overwritten(o.tasks, child, father, father.(dir := dir));
      var copy := GetTask(child);
      BuildChild(father.dir, copy.dir, frames, o.memory);
      ghost var b := o.(memory := view.memory);
      assert Shape(b);
      ret := EnterChild(child, copy);
      Overwritten(o.tasks, child, father.(dir := dir), father.(dir := dir, pid := ret));
    }

    lemma ForkStart(k: Kernel)
      requires Inv(k) && k.current != k.idle
      ensures ForkReady(k) && CodeTaken(k.memory) && Coherent(k.memory)
      ensures k.memory.cr3 == k.tasks[k.current].dir
      ensures k.queues[FREE] != [] ==>
                Unlinked(Pop(k.queues, FREE), k.queues[FREE][0]) && k.current != k.queues[FREE][0]
    {
      IsForkReady(k);
      if k.queues[FREE] != [] {
        OncePop(k.queues, FREE);
        assert k.queues[FREE][0] in k.queues[FREE];
      }
    }

    method SysFork() returns (ret: int)
      requires Valid() && Booked() && Inv(view) && Enabled(view, EFork)
      modifies Repr(), books.footprint
      ensures Booked() && Log() == old(Log()).Plus(Work(old(view), EFork))
      ensures ForkReady(old(view))
      ensures Valid() && Step(view, Returns(ret), []) == Fork(old(view))
    {
      hide System.Valid, TimeKeeper.Valid, Inv, CanFork, Forked, Coherent, CodeTaken, Spawn, ForkSpace;
      ghost var o := view;
      ForkStart(o);
      var empty := IsEmpty(FREE);
      if empty { return -ENOMEM; }
      var ok, frames := AllocFrames(NUM_PAG_DATA);
      if !ok { return -ENOMEM; }
      ForkIs(o);
      ret := MakeChild(frames, o);
    }

    method ReleasePages(d: nat)
      requires Valid() && d < NR_TASKS
      modifies Repr()
      ensures Valid() && view == old(view).(memory := FreeUserPages(old(view).memory, d))
    {
      hide ListSpace.Valid, MemoryManager.Valid, CircularBuffer.Valid;
      mm.ReleaseUserPages(d);
      view := view.(memory := mm.m);
      assert cb.Contents() == view.ring;
    }

    // sys_exit. With reclaims the test of sys.c:151 is on the directory's own count; without, it is
    // the comparison of an array with 0 that was compiled, which never holds.
    method SysExit(reclaims: bool)
      requires Valid() && Booked() && Inv(view) && Enabled(view, EExit(reclaims))
      modifies Repr(), books.footprint
      ensures Valid() && view == Exit(old(view), reclaims)
      ensures Booked() && Log() == old(Log()).Plus(Work(old(view), EExit(reclaims)))
    {
      hide System.Valid, TimeKeeper.Valid, ReferencesOk, MemoryOk, SemaphoresOk, ReadsOk, BlockedOk, FreeUserPages;
      hide Work, SchedNext;
      ExitWork(view, reclaims);
      ghost var o := view;
      var self := GetTask(current);
      var count := GetReferences(self.dir);
      SetReferences(self.dir, count - 1);
      if reclaims && count - 1 == 0 {
        ReleasePages(self.dir);
      }
      SetTask(current, self.(pid := -1));
      AddTail(current, FREE);
      assert view == Leaving(o, reclaims);
      SchedNextRr();
    }

    // ---------- sbrk ----------

    method GrowHeap(need: nat) returns (error: int)
      requires Valid() && CodeTaken(view.memory)
      modifies Repr()
      ensures Valid()
      ensures match Grow(old(view).memory, need)
              case Grown(m) => error == 0 && view == old(view).(memory := m)
              case Refused(m, e) => error == e && e != 0 && view == old(view).(memory := m)
    {
      hide ListSpace.Valid, MemoryManager.Valid, CircularBuffer.Valid;
      error := mm.GrowHeap(need);
      view := view.(memory := mm.m);
      assert cb.Contents() == view.ring;
    }

    method SysSbrk(increment: int) returns (ret: int)
      requires Valid() && Inv(view) && Enabled(view, ESbrk(increment))
      modifies Repr()
      ensures Valid() && Step(view, Returns(ret), []) == Sbrk(old(view), increment)
    {
      hide System.Valid, Inv, CodeTaken, Grow, Word, PhPage;
      ForkStart(view);
      var self := GetTask(current);
      var pb := self.programBreak;
      if increment == 0 { return pb; }
      var future := Word(pb + increment);
      var currentPage, futurePage := PhPage(pb - 1), PhPage(future);
      var pagesNeeded := futurePage - currentPage;
      if pagesNeeded > 0 {
        var error := GrowHeap(pagesNeeded);
        if error != 0 { return error; }
      }
      SetTask(current, self.(programBreak := future));
      return pb;
    }

    // ---------- Keyboard ----------

    // circular_buf_put
    method PutKey(key: Byte) returns (ret: int)
      requires Valid()
      modifies Repr()
      ensures Valid()
      ensures var o := old(view);
              var full := |o.ring| == RING_SIZE - 1;
              ret == (if full then -1 else 0) && view == if full then o else o.(ring := o.ring + [key])
    {
      hide ListSpace.Valid, MemoryManager.Valid, CircularBuffer.Valid;
      ret := cb.Put(key);
      view := view.(ring := cb.Contents());
    }

    // circular_buf_read on a ring that is not empty
    method TakeKey() returns (key: Byte)
      requires Valid() && view.ring != []
      modifies Repr()
      ensures Valid()
      ensures key == old(view).ring[0] && view == old(view).(ring := old(view).ring[1..])
    {
      hide ListSpace.Valid, MemoryManager.Valid, CircularBuffer.Valid;
      var ret;
      ret, key := cb.Read();
      view := view.(ring := cb.Contents());
    }

    method NumKeys() returns (n: int)
      requires Valid()
      ensures n == |view.ring|
    {
      hide ListSpace.Valid, MemoryManager.Valid, CircularBuffer.Valid;
      n := cb.NumElems();
    }

    // keyboard_interrupt for a key press already translated
    method KeyboardInterrupt(key: Byte)
      requires Valid() && Booked() && Inv(view) && Enabled(view, EKey(key))
      modifies Repr(), books.footprint
      ensures Valid() && view == Key(old(view), key)
      ensures Booked() && Log() == old(Log()).Plus(Work(old(view), EKey(key)))
    {
      hide System.Valid, TimeKeeper.Valid, ReferencesOk, MemoryOk, SemaphoresOk, ReadsOk;
      hide Work;
      KeyWork(view, key);
      var ret := PutKey(key);
      var empty := IsEmpty(KEYBOARD);
      if empty { return; }
      var first := First(KEYBOARD);
      assert first in view.queues[KEYBOARD];
      var s := GetTask(first);
      var n := NumKeys();
      if s.toRead <= n || ret < 0 {
        WakeFirst(KEYBOARD);
      }
    }

    // The inner loops of sys_read_keyboard: the n oldest keys to the caller's buffer.
    method CopyKeys(n: nat, buffer: array<Byte>)
      requires Valid() && n <= |view.ring| && n <= buffer.Length && buffer !in Repr()
      modifies Repr(), buffer
      ensures Valid() && view == old(view).(ring := old(view).ring[n..])
      ensures buffer[..n] == old(view).ring[..n] && buffer[n..] == old(buffer[n..])
    {
      hide System.Valid;
      ghost var o := view;
      var i := 0;
      assert o.ring[0..] == o.ring;
      while i < n
        invariant 0 <= i <= n && Valid() && view == o.(ring := o.ring[i..])
        invariant buffer[..i] == o.ring[..i] && buffer[n..] == old(buffer[n..])
      {
        var key := TakeKey();
        buffer[i] := key;
        assert o.ring[i..][1..] == o.ring[i + 1..];
        i := i + 1;
      }
    }

    // The accounting of a hand-over, then the copying.
    method HandOver(n: nat, buffer: array<Byte>)
      requires Valid() && n <= |view.ring| && n <= buffer.Length && buffer !in Repr()
      modifies Repr(), buffer
      ensures Valid() && view == Hand(old(view), n)
      ensures buffer[..n] == old(view).ring[..n] && buffer[n..] == old(buffer[n..])
    {
      hide System.Valid;
      var self := GetTask(current);
      SetTask(current, self.(alreadyRead := self.alreadyRead + n, toRead := self.toRead - n));
      CopyKeys(n, buffer);
    }

    // What a read has put into the caller's buffer: got at its start, the rest as it was.
    static ghost predicate Filled(before: seq<Byte>, now: seq<Byte>, got: seq<Byte>) {
      |got| <= |now| == |before| && now[..|got|] == got && now[|got|..] == before[|got|..]
    }

    // The blocking branches of sys_read_keyboard: a full ring is emptied first if nobody waits.
    method BlockForKeys(buffer: array<Byte>, size: int) returns (ghost got: seq<Byte>)
      requires Valid() && Booked() && Inv(view) && InLoop(view, size) && PassBlocks(view, size)
      requires buffer !in Repr() && buffer !in books.footprint && size <= buffer.Length
      modifies Repr(), books.footprint, buffer
      ensures Valid() && Step(view, Blocks, got) == ReadPass(old(view), size)
      ensures Filled(old(buffer[..]), buffer[..], got)
      ensures Booked() && Log() == old(Log()).Plus(Handover(old(view)))
    {
      hide System.Valid, TimeKeeper.Valid, SchedNext, Park, ReferencesOk, MemoryOk, SemaphoresOk, ReadsOk, BlockedOk;
      got := [];
      assert buffer[0..] == buffer[..];
      var n := NumKeys();
      var empty := IsEmpty(KEYBOARD);
      if empty && n == RING_SIZE - 1 {
        got := view.ring;
        assert view.ring[..n] == view.ring;
        HandOver(n, buffer);
      }
      SetPending(InRead(size));
      ParkAndSwitch(KEYBOARD);
    }

    // The read has been served in one go.
    static ghost predicate Handed(o: Kernel, k: Kernel, size: int, got: seq<Byte>)
      requires Shape(o)
    {
      && o.tasks[o.current].toRead > 0 && o.queues[KEYBOARD] == [] && 0 <= size <= |o.ring|
      && k == Hand(o, size) && got == o.ring[..size]
    }

    // At the head of the read loop: nothing has been done, or everything.
    static ghost predicate Halfway(o: Kernel, k: Kernel, size: int, got: seq<Byte>, before: seq<Byte>, now: seq<Byte>)
      requires Shape(o)
    {
      || (k == o && got == [] && now == before)
      || (k.current == o.current && Shape(k) && Handed(o, k, size, got) && Filled(before, now, got))
    }

    static lemma HalfwayStart(o: Kernel, size: int, before: seq<Byte>)
      requires Shape(o)
      ensures Halfway(o, o, size, [], before, before)
    {
    }

    static lemma HalfwayTodo(o: Kernel, k: Kernel, size: int, got: seq<Byte>, before: seq<Byte>, now: seq<Byte>)
      requires Shape(o) && Shape(k) && InLoop(o, size) && Halfway(o, k, size, got, before, now)
      requires k.tasks[k.current].toRead > 0
      ensures k == o && got == [] && now == before && size > 0
    {
    }

    static lemma HalfwayServed(o: Kernel, size: int, before: seq<Byte>, now: seq<Byte>)
      requires Shape(o) && InLoop(o, size) && o.tasks[o.current].toRead > 0 && o.queues[KEYBOARD] == []
      requires 0 <= size <= |o.ring| && Filled(before, now, o.ring[..size])
      ensures Halfway(o, Hand(o, size), size, o.ring[..size], before, now)
      ensures Shape(Hand(o, size)) && Hand(o, size).tasks[Hand(o, size).current].toRead <= 0
    {
    }

    static lemma HalfwayDone(o: Kernel, k: Kernel, size: int, got: seq<Byte>, before: seq<Byte>, now: seq<Byte>)
      requires Shape(o) && Shape(k) && Halfway(o, k, size, got, before, now) && k.tasks[k.current].toRead <= 0
      ensures Step(Suspend(k, Nothing), Returns(k.tasks[k.current].alreadyRead), got) == ReadPass(o, size)
      ensures !PassBlocks(o, size) && Filled(before, now, got)
    {
      assert now[0..] == now && now[..0] == [];
    }

    // The branch that has keys enough.
    method ServeKeys(buffer: array<Byte>, size: nat) returns (ghost got: seq<Byte>)
      requires Valid() && size <= |view.ring| && size <= buffer.Length && buffer !in Repr()
      modifies Repr(), buffer
      ensures Valid() && view == Hand(old(view), size) && got == old(view).ring[..size]
      ensures Filled(old(buffer[..]), buffer[..], got)
    {
      hide System.Valid, Hand;
      ghost var before := buffer[..];
      got := view.ring[..size];
      assert buffer[size..] == before[size..];
      HandOver(size, buffer);
    }

    // The loop of sys_read_keyboard from its head up to a sched_next_rr or the return. got is what
    // reached the buffer, from its start.
    method ReadLoop(buffer: array<Byte>, size: int) returns (blocks: bool, ret: int, ghost got: seq<Byte>)
      requires Valid() && Booked() && Inv(view) && InLoop(view, size)
      requires buffer !in Repr() && buffer !in books.footprint && size <= buffer.Length
      modifies Repr(), books.footprint, buffer
      ensures Valid()
      ensures Step(view, if blocks then Blocks else Returns(ret), got) == ReadPass(old(view), size)
      ensures Filled(old(buffer[..]), buffer[..], got)
      ensures Booked()
      ensures Log() == old(Log()).Plus(if PassBlocks(old(view), size) then Handover(old(view)) else [])
    {
      hide System.Valid, TimeKeeper.Valid, System.Halfway, System.Filled, ReadPass, Hand, Suspend, InLoop, Handover;
      hide QueuesOk, StatesOk, ReferencesOk, MemoryOk, SemaphoresOk, ReadsOk;
      ghost var o, before := view, buffer[..];
      var self := GetTask(current);
      got := [];
      HalfwayStart(o, size, before);
      while self.toRead > 0
        invariant Valid() && self == view.tasks[view.current] && Halfway(o, view, size, got, before, buffer[..])
        invariant Booked() && Log() == old(Log())
        decreases self.toRead
      {
        HalfwayTodo(o, view, size, got, before, buffer[..]);
        var n := NumKeys();
        var empty := IsEmpty(KEYBOARD);
        if empty && size <= n {
          got := ServeKeys(buffer, size);
          HalfwayServed(o, size, before, buffer[..]);
          self := GetTask(current);
        } else {
          got := BlockForKeys(buffer, size);
          return true, 0, got;
        }
      }
      HalfwayDone(o, view, size, got, before, buffer[..]);
      SetPending(Nothing);
      return false, self.alreadyRead, got;
    }

    method SysReadKeyboard(buffer: array<Byte>, size: int)
      returns (blocks: bool, ret: int, ghost got: seq<Byte>)
      requires Valid() && Booked() && Inv(view) && Enabled(view, ERead(size))
      requires buffer !in Repr() && buffer !in books.footprint && size <= buffer.Length
      modifies Repr(), books.footprint, buffer
      ensures Valid()
      ensures Step(view, if blocks then Blocks else Returns(ret), got) == ReadKeyboard(old(view), size)
      ensures Filled(old(buffer[..]), buffer[..], got)
      ensures Booked() && Log() == old(Log()).Plus(Work(old(view), ERead(size)))
    {
      hide System.Valid, TimeKeeper.Valid, QueuesOk, BlockedOk, ReferencesOk, MemoryOk, SemaphoresOk, ReadsOk;
      BeginReadInv(view, size);
      var self := GetTask(current);
      SetTask(current, self.(toRead := size, alreadyRead := 0));
      blocks, ret, got := ReadLoop(buffer, size);
    }

    // The rest of a read that blocked, when its task is dispatched again.
    method ResumeRead(buffer: array<Byte>) returns (blocks: bool, ret: int, ghost got: seq<Byte>)
      requires Valid() && Booked() && Inv(view) && Enabled(view, EResume)
      requires view.tasks[view.current].pending.InRead?
      requires buffer !in Repr() && buffer !in books.footprint
      requires view.tasks[view.current].pending.size <= buffer.Length
      modifies Repr(), books.footprint, buffer
      ensures Valid()
      ensures Step(view, if blocks then Blocks else Returns(ret), got) == Resume(old(view))
      ensures Filled(old(buffer[..]), buffer[..], got)
      ensures Booked() && Log() == old(Log()).Plus(Work(old(view), EResume))
    {
      hide System.Valid, TimeKeeper.Valid, QueuesOk, BlockedOk, ReferencesOk, MemoryOk, SemaphoresOk;
      var self := GetTask(current);
      blocks, ret, got := ReadLoop(buffer, self.pending.size);
    }

    // ---------- Every entry into the kernel ----------

    // What the caller's buffer must hold for the read that e begins or goes on with.
    static function Demand(task: Task, e: Event): int {
      match e
      case ERead(size) => size
      case EResume => if task.pending.InRead? then task.pending.size else 0
      case _ => 0
    }

    // zeos_ticks after an event
    static function Ticked(ticks: int, e: Event): int {
      if e.ETick? then Signed(Word(ticks + 1)) else ticks
    }

    /**
     One entry into the kernel, whichever it is, makes the step of the machine, books what the step
     is due, and keeps Inv.
     */
    method Handle(e: Event, buffer: array<Byte>) returns (reply: Reply, ghost got: seq<Byte>)
      requires Valid() && Booked() && Inv(view) && Enabled(view, e)
      requires buffer !in Repr() && buffer !in books.footprint
      requires Demand(view.tasks[view.current], e) <= buffer.Length
      modifies Repr(), books.footprint, buffer
      ensures Valid() && Inv(view)
      ensures Step(view, reply, got) == Outcome(old(view), e) && Filled(old(buffer[..]), buffer[..], got)
      ensures Booked()
      ensures var o := old(Log());
              Log() == Keeping(o.spots + Spots(old(view), e, o.idleStarted), Ticked(o.zeosTicks, e),
                               Started(old(view), e, o.idleStarted))
    {
      hide System.Valid, TimeKeeper.Valid, QueuesOk, StatesOk, ReferencesOk, MemoryOk, SemaphoresOk, ReadsOk;
      hide Work, Apply, WayOut, Outcome;
      ghost var o, k := Log(), view;
      if !e.EResume? {
        books.Update(current, User);
      }
      assert Log() == o.Plus(Trap(k, e)) && view == k;
      reply, got := Serve(e, buffer);
      LeaveKernel();
      assert ((o.spots + Trap(k, e)) + Work(k, e)) + WayOut(view, o.idleStarted)
          == o.spots + Spots(k, e, o.idleStarted);
    }

    // switch_system_to_user for whoever runs now, unless it is still inside a call or starts as idle.
    method LeaveKernel()
      requires Valid() && Booked()
      modifies books.footprint
      ensures Valid() && view == old(view)
      ensures Booked()
      ensures var o := old(Log());
              Log() == o.Plus(WayOut(view, o.idleStarted)).(
                         idleStarted := o.idleStarted || view.current == view.idle)
    {
      hide System.Valid, TimeKeeper.Valid;
      var self := GetTask(current);
      if self.pending == Nothing && (books.idleStarted || current != idleTask) {
        books.Update(current, Field.System);
      }
      if current == idleTask {
        books.StartIdle();
      }
    }

    // The call or handler between the two bookings of an entry.
    method Serve(e: Event, buffer: array<Byte>) returns (reply: Reply, ghost got: seq<Byte>)
      requires Valid() && Booked() && Inv(view) && Enabled(view, e)
      requires buffer !in Repr() && buffer !in books.footprint
      requires Demand(view.tasks[view.current], e) <= buffer.Length
      modifies Repr(), books.footprint, buffer
      ensures Valid() && Inv(view)
      ensures Step(view, reply, got) == Outcome(old(view), e) && Filled(old(buffer[..]), buffer[..], got)
      ensures Booked()
      ensures Log() == old(Log()).Plus(Work(old(view), e)).(zeosTicks := Ticked(old(Log()).zeosTicks, e))
    {
      hide System.Valid, TimeKeeper.Valid, QueuesOk, StatesOk, ReferencesOk, MemoryOk, SemaphoresOk, ReadsOk;
      hide Work;
      StepInv(view, e);
      got := [];
      assert buffer[0..] == buffer[..];
      match e {
        case ETick => ClockInterrupt(); reply := NoReply;
        case EKey(key) => KeyboardInterrupt(key); reply := NoReply;
        case EExit(reclaims) => SysExit(reclaims); reply := NoReply;
        case EResume => reply, got := Continue(buffer);
        case ERead(size) =>
          var blocks, ret;
          blocks, ret, got := SysReadKeyboard(buffer, size);
          reply := if blocks then Blocks else Returns(ret);
        case _ => reply := Call(e);
      }
    }

    // The rest of a call that blocked.
    method Continue(buffer: array<Byte>) returns (reply: Reply, ghost got: seq<Byte>)
      requires Valid() && Booked() && Inv(view) && Enabled(view, EResume)
      requires buffer !in Repr() && buffer !in books.footprint
      requires Demand(view.tasks[view.current], EResume) <= buffer.Length
      modifies Repr(), books.footprint, buffer
      ensures Valid() && Step(view, reply, got) == Resume(old(view)) && Filled(old(buffer[..]), buffer[..], got)
      ensures Booked() && Log() == old(Log()).Plus(Work(old(view), EResume))
    {
      hide System.Valid, TimeKeeper.Valid, QueuesOk, BlockedOk, ReferencesOk, MemoryOk, SemaphoresOk, ReadsOk, Resume;
      var self := GetTask(current);
      if self.pending.InRead? {
        var blocks, ret;
        blocks, ret, got := ResumeRead(buffer);
        reply := if blocks then Blocks else Returns(ret);
      } else {
        assert buffer[0..] == buffer[..];
        var ret := ResumeSemWait();
        reply, got := Returns(ret), [];
      }
    }

    // The system calls that neither leave nor read.
    method Call(e: Event) returns (reply: Reply)
      requires Valid() && Booked() && Inv(view) && Enabled(view, e) && e.IsCall() && !e.EExit? && !e.ERead?
      modifies Repr(), books.footprint
      ensures Valid() && Step(view, reply, []) == Outcome(old(view), e)
      ensures Booked() && Log() == old(Log()).Plus(Work(old(view), e))
    {
      hide System.Valid, TimeKeeper.Valid, QueuesOk, BlockedOk, ReferencesOk, MemoryOk, SemaphoresOk, ReadsOk;
      hide Fork, Clone, SemInit, SemWait, SemSignal, SemDestroy, Sbrk;
      StepInv(view, e);
      var ret;
      match e {
        case EFork => ret := SysFork(); reply := Returns(ret);
        case EClone(accessible) => ret := SysClone(accessible); reply := Returns(ret);
        case ESemInit(n, value) => ret := SysSemInit(n, value); reply := Returns(ret);
        case ESemWait(n) =>
          var blocks;
          blocks, ret := SysSemWait(n);
          reply := if blocks then Blocks else Returns(ret);
        case ESemSignal(n) => ret := SysSemSignal(n); reply := Returns(ret);
        case ESemDestroy(n) => ret := SysSemDestroy(n); reply := Returns(ret);
        case ESbrk(increment) => ret := SysSbrk(increment); reply := Returns(ret);
      }
    }

    // The buffers hold what the reads under way ask for.
    static ghost predicate Fits(k: Kernel, buffers: seq<array<Byte>>)
      requires Shape(k) && |buffers| == NR_TASKS
    {
      forall t: Tid :: Live(k, t) && k.tasks[t].pending.InRead? ==>
        k.tasks[t].pending.size <= buffers[t].Length
    }

    ghost predicate Outside(buffers: seq<array<Byte>>) {
      forall b :: b in buffers ==> b !in Repr() && b !in books.footprint
    }

    // One entry with the buffer of the running task; a new read brings a new one.
    method HandleOne(e: Event, buffers: seq<array<Byte>>)
      returns (reply: Reply, ghost slice: seq<Byte>, now: seq<array<Byte>>)
      requires Valid() && Booked() && Inv(view) && Enabled(view, e)
      requires |buffers| == NR_TASKS && Outside(buffers) && Fits(view, buffers)
      modifies Repr(), books.footprint, buffers
      ensures Valid() && Inv(view) && Step(view, reply, slice) == Outcome(old(view), e)
      ensures Booked()
      ensures Log().spots == old(Log()).spots + Spots(old(view), e, old(Log()).idleStarted)
      ensures Log().idleStarted == Started(old(view), e, old(Log()).idleStarted)
      ensures |now| == NR_TASKS && Outside(now) && Fits(view, now)
      ensures forall t: Tid :: now[t] == buffers[t] || (t == old(view).current && fresh(now[t]))
    {
      hide System.Valid, TimeKeeper.Valid, QueuesOk, StatesOk, ReferencesOk, MemoryOk, SemaphoresOk, ReadsOk;
      hide Outcome, Spots, Started, System.Fits;
      now := buffers;
      if e.ERead? {
        var mine := new Byte[e.size](_ => 0);
        now := now[current := mine];
      }
      StillFits(view, e, buffers, now);
      assert now[current] in buffers || fresh(now[current]);
      reply, slice := Handle(e, now[current]);
    }

    /**
     So whole runs in place are the runs of the machine, with their replies, the keys handed over and
     everybody's bookings, and everything proved of those holds. buffers names for each task the
     buffer of its read under way; a read keeps the buffer it was called with until it is answered.
     */
    method HandleAll(run: seq<Event>, buffers: seq<array<Byte>>)
      returns (replies: seq<Reply>, ghost got: seq<seq<Byte>>)
      requires Valid() && Booked() && Inv(view) && Legal(view, run)
      requires |buffers| == NR_TASKS && Outside(buffers) && Fits(view, buffers)
      modifies Repr(), books.footprint, buffers
      ensures Valid() && Inv(view) && view == Run(old(view), run)
      ensures replies == RepliesIn(old(view), run) && got == SlicesIn(old(view), run)
      ensures Booked() && Log().spots == old(Log()).spots + SpotsIn(old(view), run, old(Log()).idleStarted)
    {
      hide System.Valid, TimeKeeper.Valid, Inv, Outcome, Enabled, Spots, Started;
      hide Legal, Run, RepliesIn, SlicesIn, SpotsIn, System.Fits;
      replies, got := [], [];
      var i, now := 0, buffers;
      ghost var o, log := view, Log();
      assert run[0..] == run;
      while i < |run|
        invariant 0 <= i <= |run| && Valid() && Booked() && Inv(view) && Legal(view, run[i..])
        invariant |now| == NR_TASKS && Outside(now) && Fits(view, now)
        invariant forall t: Tid :: now[t] == buffers[t] || fresh(now[t])
        invariant Rest(o, run, log.spots, log.idleStarted)
               == Rest(view, run[i..], Log().spots, Log().idleStarted).After(replies, got)
      {
        assert run[i..][1..] == run[i + 1..] && run[i..][0] == run[i];
        RestStep(view, run[i..], Log().spots, Log().idleStarted);
        var reply;
        ghost var slice;
        reply, slice, now := HandleOne(run[i], now);
        replies, got := replies + [reply], got + [slice];
        i := i + 1;
      }
      RestDone(view, Log().spots, Log().idleStarted);
      assert run[i..] == [];
    }

    /** From power on: what Boot.FromBoot says of runs holds of the kernel in place. */
    method PowerOn(run: seq<Event>, buffers: seq<array<Byte>>)
      returns (replies: seq<Reply>, ghost got: seq<seq<Byte>>)
      requires Raw() && |mm.m.bytes| == TOTAL_PAGES && Legal(Boot.Start(mm.m.bytes), run)
      requires |buffers| == NR_TASKS && Outside(buffers)
      modifies Repr(), books.footprint, buffers
      ensures Valid() && Inv(view) && view == Run(Boot.Start(old(mm.m.bytes)), run)
      ensures replies == RepliesIn(Boot.Start(old(mm.m.bytes)), run)
      ensures got == SlicesIn(Boot.Start(old(mm.m.bytes)), run)
      ensures Booked()
      ensures Log().spots == [Making(Boot.IDLE, Boot.IDLE), Making(Boot.TASK1, Boot.TASK1)]
                             + SpotsIn(Boot.Start(old(mm.m.bytes)), run, false)
    {
      hide System.Valid, System.Raw, TimeKeeper.Valid, Inv, Boot.BootKernel, Legal, Run, RepliesIn, SlicesIn, SpotsIn;
      ghost var bytes := mm.m.bytes;
      Start();
      assert view == Boot.Start(bytes);
      NobodyReads(bytes, buffers);
      replies, got := HandleAll(run, buffers);
    }

    static lemma NobodyReads(bytes: seq<seq<Byte>>, buffers: seq<array<Byte>>)
      requires |bytes| == TOTAL_PAGES && |buffers| == NR_TASKS
      ensures Fits(Boot.Start(bytes), buffers)
    {
      hide Boot.BootMemory;
    }

    // The outcome of a run: where it leads, what it answers and hands over, and what has been booked.
    static ghost function Rest(k: Kernel, run: seq<Event>, spots: seq<Spot>, idleStarted: bool): Summary
      requires Inv(k) && Legal(k, run)
    {
      Summary(Run(k, run), RepliesIn(k, run), SlicesIn(k, run), spots + SpotsIn(k, run, idleStarted))
    }

    static lemma RestStep(k: Kernel, run: seq<Event>, spots: seq<Spot>, idleStarted: bool)
      requires Inv(k) && Legal(k, run) && run != []
      ensures Enabled(k, run[0]) && Legal(Next(k, run[0]), run[1..])
      ensures run[0].ERead? ==> run[0].size >= 0
      ensures Rest(k, run, spots, idleStarted)
           == Rest(Next(k, run[0]), run[1..], spots + Spots(k, run[0], idleStarted), Started(k, run[0], idleStarted))
                .After([Outcome(k, run[0]).reply], [Got(k, run[0])])
    {
      hide Inv, Outcome, Spots, Started;
      var e, n := run[0], Next(k, run[0]);
      var more := SpotsIn(n, run[1..], Started(k, e, idleStarted));
      assert spots + (Spots(k, e, idleStarted) + more) == (spots + Spots(k, e, idleStarted)) + more;
    }

    static lemma RestDone(k: Kernel, spots: seq<Spot>, idleStarted: bool)
      requires Inv(k)
      ensures Legal(k, []) && Rest(k, [], spots, idleStarted) == Summary(k, [], [], spots)
    {
      hide Inv;
      assert spots + [] == spots;
    }

    // Before a step the caller's buffer is large enough, after it everybody's.
    static lemma StillFits(k: Kernel, e: Event, before: seq<array<Byte>>, now: seq<array<Byte>>)
      requires Inv(k) && Enabled(k, e) && |before| == |now| == NR_TASKS && Fits(k, before)
      requires forall t: Tid :: t != k.current || !e.ERead? ==> now[t] == before[t]
      requires e.ERead? ==> now[k.current].Length == e.size
      ensures Demand(k.tasks[k.current], e) <= now[k.current].Length
      ensures Fits(Next(k, e), now)
    {
      hide StatesOk, BlockedOk, ReferencesOk, MemoryOk, ImagesOk, SemaphoresOk, ReadsOk, Outcome;
      ReadOrigins(k, e);
      assert Live(k, k.current);
    }
  }
}
