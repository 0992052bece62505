/**
 The kernel as a state machine. Every entry into the kernel runs with interrupts off, so each
 system call, clock interrupt and keyboard interrupt is one step (interrupt.c:68-70). A call that
 blocks is two steps: up to its sched_next_rr, and from there on when the task is dispatched again.
 */
module Machine {
  import opened Params
  import opened Paging
  import opened TaskQueues

  // ---------- State ----------

  // The queue of semaphore n.
  function SemQueue(n: int): int { 3 + n }

  datatype TaskState = ST_RUN | ST_READY | ST_BLOCKED

  // What a task still has to do in kernel mode when it is dispatched again.
  datatype Pending = Nothing | InSemWait(n: int) | InRead(size: int)

  datatype Task = Task(pid: int, dir: nat, quantum: int, state: TaskState, programBreak: int,
                       toRead: int, alreadyRead: int, pending: Pending)

  // initialised: sys_sem_init has made the queue a list at least once.
  datatype Semaphore = Semaphore(counter: int, owner: int, initialised: bool)

  // ring: the unread keys, oldest first.
  datatype Kernel = Kernel(queues: Queues, tasks: seq<Task>, current: Tid, idle: Tid,
                           remaining: int, nextPid: int, references: seq<int>,
                           semaphores: seq<Semaphore>, ring: seq<Byte>, memory: Memory)

  ghost predicate Shape(k: Kernel) {
    && |k.queues| == NR_QUEUES
    && |k.tasks| == NR_TASKS
    && (forall t :: 0 <= t < NR_TASKS ==> k.tasks[t].dir < NR_TASKS)
    && (forall t :: 0 <= t < NR_TASKS ==> 0 <= k.tasks[t].programBreak < 0x1_0000_0000)
    && 0 <= k.nextPid < 0x1_0000_0000
    && |k.references| == NR_TASKS
    && |k.semaphores| == NR_SEMAPHORES
    && |k.ring| < RING_SIZE
    && Shaped(k.memory)
  }

  // ---------- The invariant ----------

  ghost predicate QueuesOk(k: Kernel)
    requires Shape(k)
  {
    && Once(k.queues)
    && Unlinked(k.queues, k.current)
    && forall h :: 0 <= h < NR_QUEUES && k.idle in k.queues[h] ==> h == READY
  }

  // What the queue a blocked task stands in says about the task.
  ghost predicate BlockedOk(k: Kernel)
    requires Shape(k)
  {
    forall h, t :: KEYBOARD <= h < NR_QUEUES && t in k.queues[h] ==>
      && k.tasks[t].state == ST_BLOCKED
      && (h == KEYBOARD ==> k.tasks[t].pending.InRead?)
      && (h > KEYBOARD ==> k.tasks[t].pending == InSemWait(h - 3))
  }

  ghost predicate StatesOk(k: Kernel)
    requires Shape(k)
  {
    && k.tasks[k.current].state == ST_RUN
    && k.tasks[k.idle].pending == Nothing
    && (forall t: Tid :: k.tasks[t].pending.InSemWait? ==> SemNumber(k.tasks[t].pending.n))
    && BlockedOk(k)
  }

  ghost predicate Live(k: Kernel, t: Tid)
    requires Shape(k)
  {
    t !in k.queues[FREE]
  }

  // The live tasks whose directory is d.
  ghost function Users(k: Kernel, d: int): set<Tid>
    requires Shape(k)
  {
    set t: Tid | t !in k.queues[FREE] && k.tasks[t].dir == d
  }

  ghost predicate ReferencesOk(k: Kernel)
    requires Shape(k)
  {
    forall d :: 0 <= d < NR_TASKS ==> k.references[d] == |Users(k, d)|
  }

  // CR3 names the current directory, no held translation is stale, and every live task but idle
  // has a complete user image in a directory idle does not use.
  ghost predicate MemoryOk(k: Kernel)
    requires Shape(k)
  {
    && Sound(k.memory)
    && Coherent(k.memory)
    && k.memory.cr3 == k.tasks[k.current].dir
    && ImagesOk(k)
  }

  ghost predicate ImagesOk(k: Kernel)
    requires Shape(k)
  {
    forall t: Tid :: Live(k, t) && t != k.idle ==>
      Image(k.memory.tables[k.tasks[t].dir]) && k.tasks[t].dir != k.tasks[k.idle].dir
  }

  ghost predicate SemaphoresOk(k: Kernel)
    requires Shape(k)
  {
    forall n :: 0 <= n < NR_SEMAPHORES && k.queues[SemQueue(n)] != [] ==>
      k.semaphores[n].initialised && k.semaphores[n].counter <= 0
  }

  // How far a read of size keys has come: what was handed over so far came in full rings.
  ghost predicate Progress(task: Task, size: int) {
    && 0 < size
    && task.alreadyRead + task.toRead == size
    && 0 <= task.alreadyRead && task.alreadyRead % (RING_SIZE - 1) == 0
    && task.toRead > -(RING_SIZE - 1)
    && (size < RING_SIZE ==> task.alreadyRead == 0)
  }

  ghost predicate ReadsOk(k: Kernel)
    requires Shape(k)
  {
    forall t: Tid :: k.tasks[t].pending.InRead? ==> Progress(k.tasks[t], k.tasks[t].pending.size)
  }

  ghost predicate Inv(k: Kernel) {
    && Shape(k) && QueuesOk(k) && StatesOk(k) && ReferencesOk(k) && MemoryOk(k)
    && SemaphoresOk(k) && ReadsOk(k)
  }

  // ---------- Scheduling ----------

  // The end of sched_next_rr with task_switch: CR3 is written only if the directories differ.
  ghost function SwitchTo(k: Kernel, t: Tid): Kernel
    requires Shape(k)
  {
    var from, to := k.tasks[k.current].dir, k.tasks[t].dir;
    k.(current := t,
       tasks := k.tasks[t := k.tasks[t].(state := ST_RUN)],
       remaining := k.tasks[t].quantum,
       memory := if from == to then k.memory else SetCr3(k.memory, to))
  }

  ghost function SchedNext(k: Kernel): Kernel
    requires Shape(k)
  {
    if k.queues[READY] == [] then SwitchTo(k, k.idle)
    else SwitchTo(k.(queues := Pop(k.queues, READY)), k.queues[READY][0])
  }

  // update_process_state_rr on the running task, which is linked nowhere.
  ghost function Park(k: Kernel, h: int): Kernel
    requires Shape(k) && 0 <= h < NR_QUEUES
  {
    k.(queues := Append(k.queues, h, k.current),
       tasks := k.tasks[k.current := k.tasks[k.current].(
         state := if h == READY then ST_READY else ST_BLOCKED)])
  }

  // update_process_state_rr on the first task of a blocked queue, towards the ready queue.
  ghost function Wake(k: Kernel, h: int): Kernel
    requires Shape(k) && KEYBOARD <= h < NR_QUEUES && k.queues[h] != []
  {
    var t := k.queues[h][0];
    k.(queues := Append(Pop(k.queues, h), READY, t),
       tasks := k.tasks[t := k.tasks[t].(state := ST_READY)])
  }

  // Every task of a blocked queue to the ready queue, in order.
  ghost function WakeAll(k: Kernel, h: int): (r: Kernel)
    requires Shape(k) && KEYBOARD <= h < NR_QUEUES
    decreases |k.queues[h]|
  {
    if k.queues[h] == [] then k else WakeAll(Wake(k, h), h)
  }

  // update_sched_data_rr
  ghost function ClockTick(k: Kernel): Kernel
    requires Shape(k)
  {
    var r := k.remaining - 1;
    if r <= 0 && k.queues[READY] != [] then SchedNext(Park(k.(remaining := r), READY))
    else k.(remaining := if r == 0 then k.tasks[k.current].quantum else r)
  }

  // ---------- Processes ----------

  // allocate_DIR: the first directory nobody uses, NR_TASKS if there is none.
  function FreeDirectory(references: seq<int>, d: nat): (r: nat)
    requires |references| == NR_TASKS && d <= NR_TASKS
    ensures d <= r <= NR_TASKS
    ensures r < NR_TASKS ==> references[r] == 0
    ensures forall e :: d <= e < r ==> references[e] != 0
    decreases NR_TASKS - d, references
  {
    if d == NR_TASKS || references[d] == 0 then d else FreeDirectory(references, d + 1)
  }

  datatype Reply = Returns(value: int) | Blocks | NoReply

  // got: bytes copied to the caller's buffer during the step.
  datatype Step = Step(k: Kernel, reply: Reply, got: seq<Byte>)

  function Return(k: Kernel, value: int): Step { Step(k, Returns(value), []) }

  // The child's task structure is the father's but for directory and pid; it is made ready
  // with the state it copied.
  ghost function Spawn(k: Kernel, dir: nat): Step
    requires Shape(k) && k.queues[FREE] != [] && dir < NR_TASKS
  {
    var child := k.queues[FREE][0];
    var next := Word(k.nextPid + 1);
    Return(k.(queues := Append(Pop(k.queues, FREE), READY, child),
              tasks := k.tasks[child := k.tasks[k.current].(dir := dir, pid := Signed(next))],
              nextPid := next,
              references := k.references[dir := k.references[dir] + 1]),
           Signed(next))
  }

  // The father's frames are known to lie in memory whenever fork is possible.
  ghost predicate ForkReady(k: Kernel)
    requires Shape(k)
  {
    && InMemory(DataFrames(k.memory.tables[k.tasks[k.current].dir]))
    && (k.queues[FREE] != [] ==> FreeDirectory(k.references, 0) < NR_TASKS)
  }

  ghost function Fork(k: Kernel): Step
    requires Shape(k) && ForkReady(k)
  {
    if k.queues[FREE] == [] then Return(k, -ENOMEM)
    else
      var a := AllocN(k.memory.phys, NUM_PAG_DATA);
      if a.NoFrame? then Return(k, -ENOMEM)
      else
        AllocTook(k.memory.phys, NUM_PAG_DATA);
        var dir := FreeDirectory(k.references, 0);
        var m := ForkSpace(k.memory, k.tasks[k.current].dir, dir, a);
        Spawn(k.(memory := m), dir)
  }

  // accessible: both user pointers pass access_ok.
  ghost function Clone(k: Kernel, accessible: bool): Step
    requires Shape(k)
  {
    if k.queues[FREE] == [] then Return(k, -ENOMEM)
    else if !accessible then Return(k, -EFAULT)
    else Spawn(k, k.tasks[k.current].dir)
  }

  /**
   sys_exit. The condition of sys.c:151 compares the array dir_references with 0, so the compiled
   kernel never frees a data frame (reclaims == false); the evident intent is the directory's own
   count (reclaims == true).
   */
  ghost function Exit(k: Kernel, reclaims: bool): Kernel
    requires Shape(k)
  {
    var d := k.tasks[k.current].dir;
    var references := k.references[d := k.references[d] - 1];
    var m := if reclaims && references[d] == 0 then FreeUserPages(k.memory, d) else k.memory;
    SchedNext(k.(references := references, memory := m,
                 tasks := k.tasks[k.current := k.tasks[k.current].(pid := -1)],
                 queues := Append(k.queues, FREE, k.current)))
  }

  // ---------- Semaphores ----------

  predicate SemNumber(n: int) { 0 <= n < NR_SEMAPHORES }

  ghost function SemInit(k: Kernel, n: int, value: int): Step
    requires Shape(k) && 0 <= value < 0x1_0000_0000
  {
    if !SemNumber(n) || k.semaphores[n].owner != -1 then Return(k, -ENAVAIL)
    else
      Return(k.(semaphores := k.semaphores[n := Semaphore(Signed(value), k.tasks[k.current].pid, true)],
                queues := k.queues[SemQueue(n) := []]),
             0)
  }

  ghost function SemWait(k: Kernel, n: int): Step
    requires Shape(k)
  {
    if !SemNumber(n) then Return(k, -ENAVAIL)
    else
      var s := k.semaphores[n];
      if s.counter > 0 then
        Return(k.(semaphores := k.semaphores[n := s.(counter := s.counter - 1)]), 0)
      else Step(SchedNext(Park(Suspend(k, InSemWait(n)), SemQueue(n))), Blocks, [])
  }

  ghost function Suspend(k: Kernel, pending: Pending): Kernel
    requires Shape(k)
  {
    k.(tasks := k.tasks[k.current := k.tasks[k.current].(pending := pending)])
  }

  ghost function SemSignal(k: Kernel, n: int): Step
    requires Shape(k)
  {
    if !SemNumber(n) then Return(k, -ENAVAIL)
    else if k.queues[SemQueue(n)] == [] then
      var s := k.semaphores[n];
      Return(k.(semaphores := k.semaphores[n := s.(counter := s.counter + 1)]), 0)
    else Return(Wake(k, SemQueue(n)), 0)
  }

  ghost function SemDestroy(k: Kernel, n: int): Step
    requires Shape(k)
  {
    if !SemNumber(n) || k.tasks[k.current].pid != k.semaphores[n].owner then Return(k, -ENAVAIL)
    else
      var s := k.semaphores[n];
      Return(WakeAll(k.(semaphores := k.semaphores[n := s.(owner := -1)]), SemQueue(n)), 0)
  }

  // ---------- Heap ----------

  ghost function SetBreak(k: Kernel, future: int): Kernel
    requires Shape(k)
  {
    k.(tasks := k.tasks[k.current := k.tasks[k.current].(programBreak := future)])
  }

  // The address an increment leads to.
  function Future(pb: int, increment: int): int { Word(pb + increment) }

  // Pages asked for when the break moves; the page of the last byte in use is already there.
  function PagesNeeded(pb: int, future: int): int { PhPage(future) - PhPage(pb - 1) }

  ghost function Sbrk(k: Kernel, increment: int): Step
    requires Shape(k)
  {
    var pb := k.tasks[k.current].programBreak;
    var future := Future(pb, increment);
    var need := PagesNeeded(pb, future);
    if increment == 0 then Return(k, pb)
    else if need <= 0 then Return(SetBreak(k, future), pb)
    else
      match Grow(k.memory, need)
      case Refused(m, error) => Return(k.(memory := m), error)
      case Grown(m) => Return(SetBreak(k.(memory := m), future), pb)
  }

  // ---------- Keyboard ----------

  // One pass of the loop of sys_read_keyboard for the current task.
  ghost function ReadPass(k: Kernel, size: int): Step
    requires Shape(k)
  {
    var task := k.tasks[k.current];
    if task.toRead <= 0 then Step(Suspend(k, Nothing), Returns(task.alreadyRead), [])
    else if k.queues[KEYBOARD] == [] && 0 <= size <= |k.ring| then
      Step(Suspend(Hand(k, size), Nothing), Returns(task.alreadyRead + size), k.ring[..size])
    else if k.queues[KEYBOARD] == [] && |k.ring| == RING_SIZE - 1 then
      Step(SchedNext(Park(Suspend(Hand(k, |k.ring|), InRead(size)), KEYBOARD)), Blocks, k.ring)
    else
      Step(SchedNext(Park(Suspend(k, InRead(size)), KEYBOARD)), Blocks, [])
  }

  // n keys leave the ring for the current task.
  ghost function Hand(k: Kernel, n: nat): Kernel
    requires Shape(k) && n <= |k.ring|
  {
    var task := k.tasks[k.current];
    k.(ring := k.ring[n..],
       tasks := k.tasks[k.current := task.(alreadyRead := task.alreadyRead + n,
                                           toRead := task.toRead - n)])
  }

  ghost function BeginRead(k: Kernel, size: int): Kernel
    requires Shape(k)
  {
    k.(tasks := k.tasks[k.current := k.tasks[k.current].(toRead := size, alreadyRead := 0)])
  }

  ghost function ReadKeyboard(k: Kernel, size: int): Step
    requires Shape(k)
  {
    ReadPass(BeginRead(k, size), size)
  }

  // keyboard_interrupt for a key press: a full ring drops the key.
  ghost function Key(k: Kernel, key: Byte): Kernel
    requires Shape(k)
  {
    var full := |k.ring| == RING_SIZE - 1;
    var k1 := if full then k else k.(ring := k.ring + [key]);
    if k.queues[KEYBOARD] == [] then k1
    else if k.tasks[k.queues[KEYBOARD][0]].toRead <= |k1.ring| || full then Wake(k1, KEYBOARD)
    else k1
  }

  // The rest of a blocked call, once its task is dispatched.
  ghost function Resume(k: Kernel): Step
    requires Shape(k) && k.tasks[k.current].pending != Nothing
    requires k.tasks[k.current].pending.InSemWait? ==> SemNumber(k.tasks[k.current].pending.n)
  {
    match k.tasks[k.current].pending
    case InSemWait(n) =>
      Return(Suspend(k, Nothing), if k.semaphores[n].owner != -1 then 0 else -ENAVAIL)
    case InRead(size) => ReadPass(k, size)
  }

  // ---------- Steps ----------

  datatype Event =
    | EFork | EClone(accessible: bool) | EExit(reclaims: bool)
    | ESemInit(n: int, value: int) | ESemWait(n: int) | ESemSignal(n: int) | ESemDestroy(n: int)
    | ESbrk(increment: int) | ERead(size: int)
    | EResume | ETick | EKey(key: Byte)
  {
    // Neither an interrupt nor the continuation of a blocked call.
    predicate IsCall() { !EResume? && !ETick? && !EKey? }
  }

  /**
   Calls come from tasks in user mode, never from idle, and interrupts find the processor in user
   mode or idle. Semaphore number NR_SEMAPHORES passes the bound of sys.c:257, 274 and 289 and
   reads past the array; a semaphore never initialised has no queue to block in, signal or drain.
   */
  ghost predicate Enabled(k: Kernel, e: Event)
    requires Shape(k)
  {
    var task := k.tasks[k.current];
    && (e.EResume? <==> task.pending != Nothing)
    && (e.IsCall() ==> k.current != k.idle)
    && match e
       case ESemInit(_, value) => 0 <= value < 0x1_0000_0000
       case ESemWait(n) =>
         n != NR_SEMAPHORES
         && (SemNumber(n) ==> k.semaphores[n].counter > 0 || k.semaphores[n].initialised)
       case ESemSignal(n) => n != NR_SEMAPHORES && (SemNumber(n) ==> k.semaphores[n].initialised)
       case ESemDestroy(n) =>
         n != NR_SEMAPHORES
         && (SemNumber(n) && task.pid == k.semaphores[n].owner ==> k.semaphores[n].initialised)
       case ESbrk(increment) => -0x8000_0000 <= increment < 0x8000_0000
       case ERead(size) => 0 <= size < 0x8000_0000
       case _ => true
  }

  ghost function Apply(k: Kernel, e: Event): Step
    requires Shape(k) && Enabled(k, e)
    requires e.EFork? ==> ForkReady(k)
    requires StatesOk(k)
  {
    match e
    case EFork => Fork(k)
    case EClone(accessible) => Clone(k, accessible)
    case EExit(reclaims) => Step(Exit(k, reclaims), NoReply, [])
    case ESemInit(n, value) => SemInit(k, n, value)
    case ESemWait(n) => SemWait(k, n)
    case ESemSignal(n) => SemSignal(k, n)
    case ESemDestroy(n) => SemDestroy(k, n)
    case ESbrk(increment) => Sbrk(k, increment)
    case ERead(size) => ReadKeyboard(k, size)
    case EResume => Resume(k)
    case ETick => Step(ClockTick(k), NoReply, [])
    case EKey(key) => Step(Key(k, key), NoReply, [])
  }
}
