/** Every enabled step keeps the kernel invariant. */
module Invariants {
  import opened Params
  import opened Paging
  import opened AddressSpaces
  import opened Machine
  import opened TaskQueues

  // ---------- Frames of the invariant ----------

  // Who is live and where everybody's directory is has not changed.
  ghost predicate SameProcesses(k: Kernel, n: Kernel)
    requires Shape(k) && Shape(n)
  {
    && n.queues[FREE] == k.queues[FREE]
    && n.idle == k.idle
    && n.references == k.references
    && forall t: Tid :: n.tasks[t].dir == k.tasks[t].dir
  }

  lemma ReferencesFrame(k: Kernel, n: Kernel)
    requires Shape(k) && Shape(n) && SameProcesses(k, n) && ReferencesOk(k)
    ensures ReferencesOk(n)
  {
    forall d | 0 <= d < NR_TASKS
      ensures n.references[d] == |Users(n, d)|
    {
      assert Users(n, d) == Users(k, d);
    }
  }

  lemma ImagesFrame(k: Kernel, n: Kernel)
    requires Shape(k) && Shape(n) && SameProcesses(k, n) && ImagesOk(k)
    requires n.memory.tables == k.memory.tables
    ensures ImagesOk(n)
  {
    forall t: Tid | Live(n, t) && t != n.idle
      ensures Image(n.memory.tables[n.tasks[t].dir]) && n.tasks[t].dir != n.tasks[n.idle].dir
    {
      assert Live(k, t);
    }
  }

  // ---------- Dispatching ----------

  // The current task has been put away and the next one is still to be chosen.
  ghost predicate Handing(k: Kernel) {
    && Shape(k) && Once(k.queues)
    && (forall h :: 0 <= h < NR_QUEUES && k.idle in k.queues[h] ==> h == READY)
    && k.tasks[k.idle].pending == Nothing
    && (forall t: Tid :: k.tasks[t].pending.InSemWait? ==> SemNumber(k.tasks[t].pending.n))
    && BlockedOk(k)
    && ReferencesOk(k)
    && Sound(k.memory)
    && ((Coherent(k.memory) && k.memory.cr3 == k.tasks[k.current].dir) || DirectoryLeft(k))
    && ImagesOk(k)
    && SemaphoresOk(k) && ReadsOk(k)
  }

  // No live task uses the current task's directory any more.
  ghost predicate DirectoryLeft(k: Kernel)
    requires Shape(k)
  {
    forall t: Tid :: Live(k, t) ==> k.tasks[t].dir != k.tasks[k.current].dir
  }

  lemma SwitchInv(k: Kernel, t: Tid)
    requires Handing(k) && Unlinked(k.queues, t)
    ensures Inv(SwitchTo(k, t))
  {
    hide Image;
    var n := SwitchTo(k, t);
    ReferencesFrame(k, n);
    assert Live(k, t);
  }

  lemma SchedNextInv(k: Kernel)
    requires Handing(k)
    ensures Inv(SchedNext(k))
  {
    if k.queues[READY] == [] {
      assert Unlinked(k.queues, k.idle);
      SwitchInv(k, k.idle);
    } else {
      OncePop(k.queues, READY);
      var n := k.(queues := Pop(k.queues, READY));
      ReferencesFrame(k, n);
      SwitchInv(n, k.queues[READY][0]);
    }
  }

  // The running task put at the end of a queue.
  lemma ParkHanding(k: Kernel, h: int, pending: Pending)
    requires Inv(k) && READY <= h < NR_QUEUES
    requires ParkReason(k, h, pending)
    ensures Handing(Park(Suspend(k, pending), h))
  {
    var n := Park(Suspend(k, pending), h);
    OnceAppend(k.queues, h, k.current);
    ReferencesFrame(k, n);
    ImagesFrame(k, n);
    assert SemaphoresOk(n) by { ParkSemaphores(k, h, pending); }
    assert BlockedOk(n) by { ParkBlocked(k, h, pending); }
  }

  ghost predicate ParkReason(k: Kernel, h: int, pending: Pending)
    requires Inv(k) && READY <= h < NR_QUEUES
  {
    && (k.current == k.idle ==> h == READY && pending == Nothing)
    && (h == READY ==> pending == k.tasks[k.current].pending)
    && (h == KEYBOARD ==> pending.InRead?)
    && (h > KEYBOARD ==>
          && pending == InSemWait(h - 3)
          && k.semaphores[h - 3].initialised && k.semaphores[h - 3].counter <= 0)
    && (pending.InSemWait? ==> SemNumber(pending.n))
    && (pending.InRead? ==> Progress(k.tasks[k.current], pending.size))
  }

  lemma ParkSemaphores(k: Kernel, h: int, pending: Pending)
    requires Inv(k) && READY <= h < NR_QUEUES && ParkReason(k, h, pending)
    ensures SemaphoresOk(Park(Suspend(k, pending), h))
  {
    var n := Park(Suspend(k, pending), h);
    assert forall g :: 0 <= g < NR_QUEUES && g != h ==> n.queues[g] == k.queues[g];
  }

  lemma ParkBlocked(k: Kernel, h: int, pending: Pending)
    requires Inv(k) && READY <= h < NR_QUEUES && ParkReason(k, h, pending)
    ensures BlockedOk(Park(Suspend(k, pending), h))
  {
    var n := Park(Suspend(k, pending), h);
    forall g, t | KEYBOARD <= g < NR_QUEUES && t in n.queues[g]
      ensures n.tasks[t].state == ST_BLOCKED
      ensures g == KEYBOARD ==> n.tasks[t].pending.InRead?
      ensures g > KEYBOARD ==> n.tasks[t].pending == InSemWait(g - 3)
    {
      if t in k.queues[g] { assert t != k.current; }
    }
  }

  lemma ClockTickInv(k: Kernel)
    requires Inv(k)
    ensures Inv(ClockTick(k))
  {
    var r := k.remaining - 1;
    var n := k.(remaining := r);
    InvRemaining(k, r);
    if r <= 0 && k.queues[READY] != [] {
      var pending := k.tasks[k.current].pending;
      assert Suspend(n, pending) == n;
      ParkHanding(n, READY, pending);
      SchedNextInv(Park(n, READY));
    } else {
      InvRemaining(k, if r == 0 then k.tasks[k.current].quantum else r);
    }
  }

  lemma InvRemaining(k: Kernel, r: int)
    requires Inv(k)
    ensures Inv(k.(remaining := r))
  {
    ReferencesFrame(k, k.(remaining := r));
  }

  // ---------- Waking ----------

  lemma WakeInv(k: Kernel, h: int)
    requires Inv(k) && KEYBOARD <= h < NR_QUEUES && k.queues[h] != []
    ensures Inv(Wake(k, h))
  {
    var n := Wake(k, h);
    var t := k.queues[h][0];
    OncePop(k.queues, h);
    OnceAppend(Pop(k.queues, h), READY, t);
    assert t in k.queues[h];
    ReferencesFrame(k, n);
    ImagesFrame(k, n);
    assert BlockedOk(n) by { WakeBlocked(k, h); }
    assert SemaphoresOk(n) by { WakeSemaphores(k, h); }
  }

  lemma WakeBlocked(k: Kernel, h: int)
    requires Inv(k) && KEYBOARD <= h < NR_QUEUES && k.queues[h] != []
    ensures BlockedOk(Wake(k, h))
  {
    var n := Wake(k, h);
    OncePop(k.queues, h);
    forall g, t | KEYBOARD <= g < NR_QUEUES && t in n.queues[g]
      ensures t in k.queues[g] && t != k.queues[h][0]
    {
    }
  }

  lemma WakeSemaphores(k: Kernel, h: int)
    requires Inv(k) && KEYBOARD <= h < NR_QUEUES && k.queues[h] != []
    ensures SemaphoresOk(Wake(k, h))
  {
    var n := Wake(k, h);
    forall g | KEYBOARD <= g < NR_QUEUES && n.queues[g] != []
      ensures k.queues[g] != []
    {
    }
  }

  lemma {:induction false} WakeAllInv(k: Kernel, h: int)
    requires Inv(k) && KEYBOARD <= h < NR_QUEUES
    ensures Inv(WakeAll(k, h))
    decreases |k.queues[h]|
  {
    if k.queues[h] == [] {
    } else {
      WakeInv(k, h);
      WakeAllInv(Wake(k, h), h);
    }
  }

  // ---------- Directories ----------

  lemma {:induction false} IntervalBound(s: set<int>, n: nat)
    requires forall x :: x in s ==> 0 <= x < n
    ensures |s| <= n
  {
    if n == 0 {
      assert forall x :: x !in s;
    } else {
      IntervalBound(s - {n - 1}, n - 1);
    }
  }

  lemma Pigeonhole(s: seq<int>, n: nat)
    requires forall i :: 0 <= i < |s| ==> 0 <= s[i] < n
    requires forall i, j :: 0 <= i < j < |s| ==> s[i] != s[j]
    ensures |s| <= n
  {
    var values := set x | x in s;
    IntervalBound(values, n);
    InjectionBounds(s, values);
  }

  // One live task for each of the first n directories in use.
  lemma {:induction false} Representatives(k: Kernel, n: nat) returns (s: seq<Tid>)
    requires Inv(k) && n <= NR_TASKS
    requires forall d :: 0 <= d < n ==> k.references[d] != 0
    ensures |s| == n && forall d :: 0 <= d < n ==> s[d] in Users(k, d)
  {
    if n == 0 {
      s := [];
    } else {
      s := Representatives(k, n - 1);
      assert |Users(k, n - 1)| != 0;
      var t :| t in Users(k, n - 1);
      s := s + [t];
    }
  }

  /** While a task structure is free some directory has no live user. */
  lemma DirectoryAvailable(k: Kernel)
    requires Inv(k) && k.queues[FREE] != []
    ensures FreeDirectory(k.references, 0) < NR_TASKS
    ensures Users(k, FreeDirectory(k.references, 0)) == {}
  {
    var d := FreeDirectory(k.references, 0);
    if d == NR_TASKS {
      var s := Representatives(k, NR_TASKS);
      forall i, j | 0 <= i < j < |s|
        ensures s[i] != s[j]
      {
        assert s[i] in Users(k, i) && s[j] in Users(k, j);
      }
      forall i | 0 <= i < |s|
        ensures s[i] != k.queues[FREE][0]
      {
        assert s[i] in Users(k, i);
      }
      Pigeonhole(s + [k.queues[FREE][0]], NR_TASKS);
    }
    assert |Users(k, d)| == 0;
  }

  lemma IsForkReady(k: Kernel)
    requires Inv(k) && k.current != k.idle
    ensures ForkReady(k)
  {
    assert Live(k, k.current);
    DataFramesInMemory(k.memory, k.tasks[k.current].dir);
    if k.queues[FREE] != [] { DirectoryAvailable(k); }
  }

  // ---------- Processes ----------

  lemma SpawnInv(k: Kernel, dir: nat)
    requires Inv(k) && k.queues[FREE] != [] && k.current != k.idle && dir < NR_TASKS
    requires k.tasks[k.current].pending == Nothing
    requires Image(k.memory.tables[dir]) && dir != k.tasks[k.idle].dir
    ensures Inv(Spawn(k, dir).k)
  {
    var n := Spawn(k, dir).k;
    var child := k.queues[FREE][0];
    OncePop(k.queues, FREE);
    OnceAppend(Pop(k.queues, FREE), READY, child);
    assert child in k.queues[FREE];
    SpawnReferences(k, dir);
    assert BlockedOk(n) by {
      assert forall h, t :: KEYBOARD <= h < NR_QUEUES && t in n.queues[h] ==> t in k.queues[h] && t != child;
    }
    forall t: Tid | Live(n, t) && t != n.idle
      ensures Image(n.memory.tables[n.tasks[t].dir]) && n.tasks[t].dir != n.tasks[n.idle].dir
    {
      if t != child { assert Live(k, t); }
    }
  }

  lemma SpawnReferences(k: Kernel, dir: nat)
    requires Inv(k) && k.queues[FREE] != [] && dir < NR_TASKS
    ensures ReferencesOk(Spawn(k, dir).k)
  {
    hide StatesOk, BlockedOk, MemoryOk, ImagesOk, SemaphoresOk, ReadsOk;
    var n := Spawn(k, dir).k;
    var child := k.queues[FREE][0];
    OncePop(k.queues, FREE);
    assert child in k.queues[FREE];
    forall d | 0 <= d < NR_TASKS
      ensures n.references[d] == |Users(n, d)|
    {
      assert Users(n, d) == if d == dir then Users(k, d) + {child} else Users(k, d);
    }
  }

  lemma ForkInv(k: Kernel)
    requires Inv(k) && Enabled(k, EFork)
    ensures ForkReady(k) && Inv(Fork(k).k)
  {
    IsForkReady(k);
    if k.queues[FREE] != [] && AllocN(k.memory.phys, NUM_PAG_DATA).Allocated? {
      ForkMemory(k);
      var dir := FreeDirectory(k.references, 0);
      var m := Forked(k.memory, k.tasks[k.current].dir, dir);
      SpawnInv(k.(memory := m), dir);
    }
  }

  // Another memory in good order that keeps every live task's image.
  lemma MemoryChangeInv(k: Kernel, m: Memory)
    requires Inv(k) && Sound(m) && Coherent(m) && m.cr3 == k.memory.cr3
    requires ImagesOk(k.(memory := m))
    ensures Inv(k.(memory := m))
  {
    hide Exclusive, CodeTaken, HeapsContiguous, Coherent, Image;
    ReferencesFrame(k, k.(memory := m));
  }

  // The child's space is built in a directory no live task uses, so nobody else notices.
  lemma ForkMemory(k: Kernel)
    requires Inv(k) && k.current != k.idle && k.queues[FREE] != []
    requires AllocN(k.memory.phys, NUM_PAG_DATA).Allocated?
    ensures var father, dir := k.tasks[k.current].dir, FreeDirectory(k.references, 0);
            && CanFork(k.memory, father, dir)
            && Inv(k.(memory := Forked(k.memory, father, dir)))
            && Image(Forked(k.memory, father, dir).tables[dir])
            && dir != k.tasks[k.idle].dir
  {
    hide Sound;
    DirectoryAvailable(k);
    var father, dir := k.tasks[k.current].dir, FreeDirectory(k.references, 0);
    assert k.current in Users(k, father);
    assert Live(k, k.current);
    assert k.idle in Users(k, k.tasks[k.idle].dir);
    ForkSound(k.memory, father, dir);
    ForkExtends(k.memory, father, dir);
    var n := k.(memory := Forked(k.memory, father, dir));
    forall t: Tid | Live(n, t) && t != n.idle
      ensures Image(n.memory.tables[n.tasks[t].dir]) && n.tasks[t].dir != n.tasks[n.idle].dir
    {
      assert Live(k, t);
      assert t in Users(k, k.tasks[t].dir);
    }
    MemoryChangeInv(k, n.memory);
  }

  lemma CloneInv(k: Kernel, accessible: bool)
    requires Inv(k) && Enabled(k, EClone(accessible))
    ensures Inv(Clone(k, accessible).k)
  {
    if k.queues[FREE] != [] && accessible {
      assert Live(k, k.current);
      SpawnInv(k, k.tasks[k.current].dir);
    }
  }

  // The leaving task is off the processor but its successor is not chosen yet.
  ghost function Leaving(k: Kernel, reclaims: bool): Kernel
    requires Shape(k)
  {
    var d := k.tasks[k.current].dir;
    var references := k.references[d := k.references[d] - 1];
    k.(references := references,
       memory := if reclaims && references[d] == 0 then FreeUserPages(k.memory, d) else k.memory,
       tasks := k.tasks[k.current := k.tasks[k.current].(pid := -1)],
       queues := Append(k.queues, FREE, k.current))
  }

  lemma ExitInv(k: Kernel, reclaims: bool)
    requires Inv(k) && Enabled(k, EExit(reclaims))
    ensures Inv(Exit(k, reclaims))
  {
    LeavingMemory(k, reclaims);
    var n := Leaving(k, reclaims);
    OnceAppend(k.queues, FREE, k.current);
    ExitReferences(k, n);
    LeavingImages(k, reclaims);
    assert BlockedOk(n) by {
      assert forall h, t :: KEYBOARD <= h < NR_QUEUES && t in n.queues[h] ==> t in k.queues[h];
    }
    SchedNextInv(n);
  }

  lemma LeavingMemory(k: Kernel, reclaims: bool)
    requires Inv(k) && Enabled(k, EExit(reclaims))
    ensures Shape(Leaving(k, reclaims)) && Sound(Leaving(k, reclaims).memory)
    ensures var d := k.tasks[k.current].dir;
            var m := Leaving(k, reclaims).memory;
            (forall e :: 0 <= e < NR_TASKS && e != d ==> m.tables[e] == k.memory.tables[e])
  {
    assert Live(k, k.current);
    ReleaseExact(k.memory, k.tasks[k.current].dir);
  }

  lemma LeavingImages(k: Kernel, reclaims: bool)
    requires Inv(k) && Enabled(k, EExit(reclaims))
    requires Shape(Leaving(k, reclaims)) && ReferencesOk(Leaving(k, reclaims))
    ensures ImagesOk(Leaving(k, reclaims))
    ensures Leaving(k, reclaims).memory == k.memory || DirectoryLeft(Leaving(k, reclaims))
  {
    LeavingMemory(k, reclaims);
    var n := Leaving(k, reclaims);
    var d := k.tasks[k.current].dir;
    forall t: Tid | Live(n, t)
      ensures Live(k, t) && n.tasks[t].dir == k.tasks[t].dir
      ensures reclaims && n.references[d] == 0 ==> n.tasks[t].dir != d
    {
      assert t in Users(n, n.tasks[t].dir);
    }
  }

  lemma ExitReferences(k: Kernel, n: Kernel)
    requires Inv(k) && Shape(n)
    requires n.queues == Append(k.queues, FREE, k.current)
    requires n.tasks == k.tasks[k.current := k.tasks[k.current].(pid := -1)]
    requires var d := k.tasks[k.current].dir;
             n.references == k.references[d := k.references[d] - 1]
    ensures ReferencesOk(n)
  {
    var dir := k.tasks[k.current].dir;
    assert k.current in Users(k, dir);
    forall d | 0 <= d < NR_TASKS
      ensures n.references[d] == |Users(n, d)|
    {
      assert Users(n, d) == Users(k, d) - {k.current};
    }
  }

  // ---------- Semaphores ----------

  lemma SemaphoreChangeInv(k: Kernel, n: int, s: Semaphore)
    requires Inv(k) && SemNumber(n)
    requires k.queues[SemQueue(n)] != [] ==> s.initialised && s.counter <= 0
    ensures Inv(k.(semaphores := k.semaphores[n := s]))
  {
    var r := k.(semaphores := k.semaphores[n := s]);
    ReferencesFrame(k, r);
    ImagesFrame(k, r);
  }

  // Emptying a semaphore queue forgets its tasks but breaks nothing else.
  lemma DropQueueInv(k: Kernel, h: int)
    requires Inv(k) && KEYBOARD < h < NR_QUEUES
    ensures Inv(k.(queues := k.queues[h := []]))
  {
    var r := k.(queues := k.queues[h := []]);
    ReferencesFrame(k, r);
    ImagesFrame(k, r);
  }

  lemma SemInitInv(k: Kernel, n: int, value: int)
    requires Inv(k) && Enabled(k, ESemInit(n, value))
    ensures Inv(SemInit(k, n, value).k)
  {
    if SemNumber(n) && k.semaphores[n].owner == -1 {
      var r := k.(queues := k.queues[SemQueue(n) := []]);
      DropQueueInv(k, SemQueue(n));
      SemaphoreChangeInv(r, n, Semaphore(Signed(value), k.tasks[k.current].pid, true));
    }
  }

  lemma SemWaitInv(k: Kernel, n: int)
    requires Inv(k) && Enabled(k, ESemWait(n))
    ensures Inv(SemWait(k, n).k)
  {
    if SemNumber(n) {
      var s := k.semaphores[n];
      if s.counter > 0 {
        SemaphoreChangeInv(k, n, s.(counter := s.counter - 1));
      } else {
        ParkHanding(k, SemQueue(n), InSemWait(n));
        SchedNextInv(Park(Suspend(k, InSemWait(n)), SemQueue(n)));
      }
    }
  }

  lemma SemSignalInv(k: Kernel, n: int)
    requires Inv(k) && Enabled(k, ESemSignal(n))
    ensures Inv(SemSignal(k, n).k)
  {
    if SemNumber(n) {
      if k.queues[SemQueue(n)] == [] {
        var s := k.semaphores[n];
        SemaphoreChangeInv(k, n, s.(counter := s.counter + 1));
      } else {
        WakeInv(k, SemQueue(n));
      }
    }
  }

  lemma SemDestroyInv(k: Kernel, n: int)
    requires Inv(k) && Enabled(k, ESemDestroy(n))
    ensures Inv(SemDestroy(k, n).k)
  {
    if SemNumber(n) && k.tasks[k.current].pid == k.semaphores[n].owner {
      var s := k.semaphores[n].(owner := -1);
      SemaphoreChangeInv(k, n, s);
      WakeAllInv(k.(semaphores := k.semaphores[n := s]), SemQueue(n));
    }
  }

  // ---------- Fields of the running task ----------

  // A change of the current task's structure that leaves directory and state alone.
  lemma CurrentChangeInv(k: Kernel, task: Task)
    requires Inv(k)
    requires task.dir == k.tasks[k.current].dir && task.state == ST_RUN
    requires 0 <= task.programBreak < 0x1_0000_0000
    requires k.current == k.idle ==> task.pending == Nothing
    requires !task.pending.InSemWait?
    requires ReadsOk(k.(tasks := k.tasks[k.current := task]))
    ensures Inv(k.(tasks := k.tasks[k.current := task]))
  {
    var r := k.(tasks := k.tasks[k.current := task]);
    ReferencesFrame(k, r);
    ImagesFrame(k, r);
    assert BlockedOk(r) by {
      assert forall h, t :: KEYBOARD <= h < NR_QUEUES && t in r.queues[h] ==> t != k.current;
    }
  }

  lemma SbrkInv(k: Kernel, increment: int)
    requires Inv(k) && Enabled(k, ESbrk(increment))
    ensures Inv(Sbrk(k, increment).k)
  {
    var pb := k.tasks[k.current].programBreak;
    var future := Future(pb, increment);
    var need := PagesNeeded(pb, future);
    if increment != 0 {
      if need <= 0 {
        BreakInv(k, future);
      } else {
        GrowInv(k, need);
        match Grow(k.memory, need)
        case Refused(m, error) => assert Sbrk(k, increment).k == k.(memory := m);
        case Grown(m) => BreakInv(k.(memory := m), future);
      }
    }
  }

  lemma BreakInv(k: Kernel, future: int)
    requires Inv(k) && k.tasks[k.current].pending == Nothing
    requires 0 <= future < 0x1_0000_0000
    ensures Inv(SetBreak(k, future))
  {
    CurrentChangeInv(k, k.tasks[k.current].(programBreak := future));
  }

  lemma GrowInv(k: Kernel, need: nat)
    requires Inv(k)
    ensures Inv(k.(memory := Grow(k.memory, need).m))
  {
    GrowExact(k.memory, need);
    if Grow(k.memory, need).Grown? { GrownInv(k, Grow(k.memory, need).m); }
  }

  lemma GrownInv(k: Kernel, m: Memory)
    requires Inv(k) && Sound(m) && Coherent(m) && m.cr3 == k.memory.cr3
    requires forall p :: 0 <= p < HEAP_START ==> m.tables[m.cr3][p] == k.memory.tables[m.cr3][p]
    requires forall d :: 0 <= d < NR_TASKS && d != m.cr3 ==> m.tables[d] == k.memory.tables[d]
    ensures Inv(k.(memory := m))
  {
    var r := k.(memory := m);
    forall t: Tid | Live(r, t) && t != r.idle
      ensures Image(r.memory.tables[r.tasks[t].dir]) && r.tasks[t].dir != r.tasks[r.idle].dir
    {
      assert Live(k, t);
    }
    MemoryChangeInv(k, m);
  }

  // ---------- Keyboard ----------

  lemma RingInv(k: Kernel, ring: seq<Byte>)
    requires Inv(k) && |ring| < RING_SIZE
    ensures Inv(k.(ring := ring))
  {
    ReferencesFrame(k, k.(ring := ring));
  }

  lemma KeyInv(k: Kernel, key: Byte)
    requires Inv(k)
    ensures Inv(Key(k, key))
  {
    var full := |k.ring| == RING_SIZE - 1;
    var k1 := if full then k else k.(ring := k.ring + [key]);
    RingInv(k, k1.ring);
    if k1.queues[KEYBOARD] != [] { WakeInv(k1, KEYBOARD); }
  }

  // The current task runs sys_read_keyboard for this size.
  ghost predicate InLoop(k: Kernel, size: int)
    requires Shape(k)
  {
    var task := k.tasks[k.current];
    && k.current != k.idle && !task.pending.InSemWait?
    && (task.pending.InRead? ==> task.pending.size == size)
    && (task.toRead > 0 ==> Progress(task, size))
  }

  lemma HandInv(k: Kernel, n: nat)
    requires Inv(k) && n <= |k.ring| && k.current != k.idle
    requires k.tasks[k.current].pending == Nothing
    ensures Inv(Hand(k, n))
  {
    RingInv(k, k.ring[n..]);
    CurrentChangeInv(k.(ring := k.ring[n..]), Hand(k, n).tasks[k.current]);
  }

  lemma SettleInv(k: Kernel)
    requires Inv(k) && !k.tasks[k.current].pending.InSemWait?
    ensures Inv(Suspend(k, Nothing))
  {
    CurrentChangeInv(k, k.tasks[k.current].(pending := Nothing));
  }

  lemma BlockReadInv(k: Kernel, size: int)
    requires Inv(k) && k.current != k.idle && Progress(k.tasks[k.current], size)
    ensures Inv(SchedNext(Park(Suspend(k, InRead(size)), KEYBOARD)))
  {
    ParkHanding(k, KEYBOARD, InRead(size));
    SchedNextInv(Park(Suspend(k, InRead(size)), KEYBOARD));
  }

  lemma ReadPassInv(k: Kernel, size: int)
    requires Inv(k) && InLoop(k, size)
    ensures Inv(ReadPass(k, size).k)
  {
    var task := k.tasks[k.current];
    if task.toRead <= 0 {
      SettleInv(k);
    } else if k.queues[KEYBOARD] == [] && size <= |k.ring| {
      TakeInv(k, size);
    } else if k.queues[KEYBOARD] == [] && |k.ring| == RING_SIZE - 1 {
      DrainInv(k, size);
    } else {
      BlockReadInv(k, size);
    }
  }

  // Handing over keys settles or restarts the call; its old continuation does not matter.
  lemma HandedInv(k: Kernel, n: nat)
    requires Inv(k) && n <= |k.ring| && k.current != k.idle && !k.tasks[k.current].pending.InSemWait?
    ensures Inv(Hand(Suspend(k, Nothing), n))
    ensures Suspend(Hand(k, n), Nothing) == Hand(Suspend(k, Nothing), n)
    ensures forall p: Pending ::
              Suspend(Hand(k, n), p) == Suspend(Hand(Suspend(k, Nothing), n), p)
  {
    SettleInv(k);
    HandInv(Suspend(k, Nothing), n);
  }

  lemma TakeInv(k: Kernel, size: nat)
    requires Inv(k) && InLoop(k, size) && size <= |k.ring|
    ensures Inv(Suspend(Hand(k, size), Nothing))
  {
    HandedInv(k, size);
  }

  lemma DrainInv(k: Kernel, size: nat)
    requires Inv(k) && InLoop(k, size) && k.tasks[k.current].toRead > 0
    requires size > |k.ring| == RING_SIZE - 1
    ensures Inv(SchedNext(Park(Suspend(Hand(k, |k.ring|), InRead(size)), KEYBOARD)))
  {
    HandedInv(k, |k.ring|);
    DrainProgress(k.tasks[k.current], size);
    BlockReadInv(Hand(Suspend(k, Nothing), |k.ring|), size);
  }

  lemma DrainProgress(task: Task, size: int)
    requires Progress(task, size) && task.toRead > 0 && size >= RING_SIZE
    ensures Progress(task.(alreadyRead := task.alreadyRead + (RING_SIZE - 1),
                           toRead := task.toRead - (RING_SIZE - 1), pending := Nothing), size)
  {
  }

  lemma ReadInv(k: Kernel, size: int)
    requires Inv(k) && Enabled(k, ERead(size))
    ensures Inv(ReadKeyboard(k, size).k)
  {
    BeginReadInv(k, size);
    ReadPassInv(BeginRead(k, size), size);
  }

  lemma BeginReadInv(k: Kernel, size: int)
    requires Inv(k) && Enabled(k, ERead(size))
    ensures Inv(BeginRead(k, size)) && InLoop(BeginRead(k, size), size)
  {
    CurrentChangeInv(k, k.tasks[k.current].(toRead := size, alreadyRead := 0));
  }

  lemma ResumeInv(k: Kernel)
    requires Inv(k) && Enabled(k, EResume)
    ensures Inv(Resume(k).k)
  {
    match k.tasks[k.current].pending
    case InSemWait(n) => CurrentChangeInv(k, k.tasks[k.current].(pending := Nothing));
    case InRead(size) =>
      assert Suspend(k, InRead(size)) == k;
      ReadPassInv(k, size);
  }

  // ---------- Steps and runs ----------

  /** Every enabled step keeps the invariant; a fork always finds what it needs. */
  lemma StepInv(k: Kernel, e: Event)
    requires Inv(k) && Enabled(k, e)
    ensures e.EFork? ==> ForkReady(k)
    ensures Inv(Apply(k, e).k)
  {
    match e
    case EFork => ForkInv(k);
    case EClone(accessible) => CloneInv(k, accessible);
    case EExit(reclaims) => ExitInv(k, reclaims);
    case ESemInit(n, value) => SemInitInv(k, n, value);
    case ESemWait(n) => SemWaitInv(k, n);
    case ESemSignal(n) => SemSignalInv(k, n);
    case ESemDestroy(n) => SemDestroyInv(k, n);
    case ESbrk(increment) => SbrkInv(k, increment);
    case ERead(size) => ReadInv(k, size);
    case EResume => ResumeInv(k);
    case ETick => ClockTickInv(k);
    case EKey(key) => KeyInv(k, key);
  }

  // New state, reply and bytes handed over.
  ghost function Outcome(k: Kernel, e: Event): (s: Step)
    requires Inv(k) && Enabled(k, e)
    ensures Inv(s.k)
  {
    StepInv(k, e);
    Apply(k, e)
  }

  ghost function Next(k: Kernel, e: Event): (n: Kernel)
    requires Inv(k) && Enabled(k, e)
    ensures Inv(n)
  {
    Outcome(k, e).k
  }

  ghost predicate Legal(k: Kernel, run: seq<Event>)
    requires Inv(k)
    decreases |run|
  {
    run == [] || (Enabled(k, run[0]) && Legal(Next(k, run[0]), run[1..]))
  }

  ghost function Run(k: Kernel, run: seq<Event>): (n: Kernel)
    requires Inv(k) && Legal(k, run)
    ensures Inv(n)
    decreases |run|
  {
    if run == [] then k else Run(Next(k, run[0]), run[1..])
  }
}
