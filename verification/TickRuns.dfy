/** Which task's account is booked to when, over every run of the kernel. */
module TickRuns {
  import opened Params
  import opened Machine
  import opened TaskQueues
  import opened Invariants
  import opened SpaceRuns
  import opened Stats

  // ---------- The bookings of one step ----------

  // The task made by this step.
  ghost predicate Makes(k: Kernel, e: Event, t: Tid)
    requires Shape(k)
  {
    && (if e.EFork? then ForkSucceeds(k) else e.EClone? && e.accessible && k.queues[FREE] != [])
    && t == k.queues[FREE][0]
  }

  ghost function Birth(k: Kernel, e: Event): seq<Spot>
    requires Shape(k)
  {
    if k.queues[FREE] != [] && Makes(k, e, k.queues[FREE][0]) then [Making(k.current, k.queues[FREE][0])] else []
  }

  ghost predicate Preempts(k: Kernel, e: Event)
    requires Shape(k)
  {
    e.ETick? && k.remaining <= 1 && k.queues[READY] != []
  }

  function Each(s: seq<Tid>, f: Field): (r: seq<Spot>) {
    seq<Spot>(|s|, i requires 0 <= i < |s| => To(s[i], f))
  }

  // The keystroke wakes the first reader.
  ghost predicate KeyWakes(k: Kernel)
    requires Shape(k)
  {
    && k.queues[KEYBOARD] != []
    && (|k.ring| == RING_SIZE - 1 || k.tasks[k.queues[KEYBOARD][0]].toRead <= |k.ring| + 1)
  }

  // What update_process_state_rr books: a task that becomes ready is charged in its first field.
  ghost function Readied(k: Kernel, e: Event): seq<Spot>
    requires Shape(k)
  {
    match e
    case ESemSignal(n) =>
      if SemNumber(n) && k.queues[SemQueue(n)] != [] then [To(k.queues[SemQueue(n)][0], User)] else []
    case ESemDestroy(n) =>
      if SemNumber(n) && k.tasks[k.current].pid == k.semaphores[n].owner then Each(k.queues[SemQueue(n)], User)
      else []
    case EKey(_) => if KeyWakes(k) then [To(k.queues[KEYBOARD][0], User)] else []
    case ETick => if Preempts(k, e) then [To(k.current, User)] else []
    case _ => []
  }

  // The pass of the read loop ends in a dispatch.
  ghost predicate PassBlocks(k: Kernel, size: int)
    requires Shape(k)
  {
    k.tasks[k.current].toRead > 0 && !(k.queues[KEYBOARD] == [] && 0 <= size <= |k.ring|)
  }

  ghost predicate Switches(k: Kernel, e: Event)
    requires Shape(k)
  {
    match e
    case EExit(_) => true
    case ETick => Preempts(k, e)
    case ESemWait(n) => SemNumber(n) && k.semaphores[n].counter <= 0
    case ERead(size) => PassBlocks(BeginRead(k, size), size)
    case EResume => k.tasks[k.current].pending.InRead? && PassBlocks(k, k.tasks[k.current].pending.size)
    case _ => false
  }

  // sched_next_rr books the outgoing task.
  ghost function Handover(k: Kernel): seq<Spot> { [To(k.current, System), To(k.current, Ready)] }

  // Between the trap and the way out.
  ghost function Work(k: Kernel, e: Event): seq<Spot>
    requires Shape(k)
  {
    Birth(k, e) + Readied(k, e) + if Switches(k, e) then Handover(k) else []
  }

  // The cases one by one.
  lemma TickWork(k: Kernel)
    requires Shape(k)
    ensures Work(k, ETick) ==
              if k.remaining <= 1 && k.queues[READY] != [] then [To(k.current, User)] + Handover(k) else []
  {
  }

  lemma ExitWork(k: Kernel, reclaims: bool)
    requires Shape(k)
    ensures Work(k, EExit(reclaims)) == Handover(k)
  {
  }

  lemma SignalWork(k: Kernel, n: int)
    requires Shape(k)
    ensures Work(k, ESemSignal(n)) ==
              if SemNumber(n) && k.queues[SemQueue(n)] != [] then [To(k.queues[SemQueue(n)][0], User)] else []
  {
  }

  lemma DestroyWork(k: Kernel, n: int)
    requires Shape(k)
    ensures Work(k, ESemDestroy(n)) ==
              if SemNumber(n) && k.tasks[k.current].pid == k.semaphores[n].owner
              then Each(k.queues[SemQueue(n)], User) else []
  {
  }

  lemma WaitWork(k: Kernel, n: int)
    requires Shape(k)
    ensures Work(k, ESemWait(n)) == if SemNumber(n) && k.semaphores[n].counter <= 0 then Handover(k) else []
  {
  }

  lemma KeyWork(k: Kernel, key: Byte)
    requires Shape(k)
    ensures Work(k, EKey(key)) == if KeyWakes(k) then [To(k.queues[KEYBOARD][0], User)] else []
  {
  }

  ghost function Trap(k: Kernel, e: Event): seq<Spot> { if e.EResume? then [] else [To(k.current, User)] }

  // switch_system_to_user, unless the task goes on with a blocked call or is idle on its very first
  // dispatch, which starts at cpu_idle.
  ghost function WayOut(n: Kernel, idleStarted: bool): seq<Spot>
    requires Shape(n)
  {
    if n.tasks[n.current].pending == Nothing && (idleStarted || n.current != n.idle)
    then [To(n.current, System)] else []
  }

  // All bookings of a step, in order.
  ghost function Spots(k: Kernel, e: Event, idleStarted: bool): seq<Spot>
    requires Inv(k) && Enabled(k, e)
  {
    Trap(k, e) + Work(k, e) + WayOut(Next(k, e), idleStarted)
  }

  /** A step hands the processor over exactly when it preempts, exits or blocks. */
  lemma SwitchesBlocks(k: Kernel, e: Event)
    requires Inv(k) && Enabled(k, e)
    ensures Switches(k, e) <==> e.EExit? || Preempts(k, e) || Outcome(k, e).reply == Blocks
  {
    hide QueuesOk, StatesOk, BlockedOk, ReferencesOk, MemoryOk, ImagesOk, SemaphoresOk, ReadsOk;
    if e.EFork? { IsForkReady(k); }
  }

  lemma ReadiedMakesNobody(k: Kernel, e: Event)
    requires Shape(k)
    ensures forall s :: s in Readied(k, e) ==> s.To?
  {
    hide Shape, KeyWakes;
  }

  lemma SpotsMake(k: Kernel, e: Event, idleStarted: bool, t: Tid)
    requires Inv(k) && Enabled(k, e)
    ensures (exists s :: s in Spots(k, e, idleStarted) && s.Making? && s.t == t) <==> Makes(k, e, t)
  {
    hide QueuesOk, StatesOk, BlockedOk, ReferencesOk, MemoryOk, ImagesOk, SemaphoresOk, ReadsOk, Outcome;
    hide Makes, Switches, Readied;
    ReadiedMakesNobody(k, e);
    if Makes(k, e, t) {
      assert k.queues[FREE] != [] && t == k.queues[FREE][0] by { MakesFirst(k, e, t); }
      assert Making(k.current, t) in Spots(k, e, idleStarted);
    }
  }

  lemma MakesFirst(k: Kernel, e: Event, t: Tid)
    requires Shape(k) && Makes(k, e, t)
    ensures k.queues[FREE] != [] && t == k.queues[FREE][0]
  {
  }

  // ---------- Runs ----------

  // Idle has run by the end of the step.
  ghost predicate Started(k: Kernel, e: Event, idleStarted: bool)
    requires Inv(k) && Enabled(k, e)
  {
    idleStarted || Next(k, e).current == Next(k, e).idle
  }

  ghost function SpotsIn(k: Kernel, run: seq<Event>, idleStarted: bool): seq<Spot>
    requires Inv(k) && Legal(k, run)
    decreases |run|
  {
    if run == [] then []
    else Spots(k, run[0], idleStarted) + SpotsIn(Next(k, run[0]), run[1..], Started(k, run[0], idleStarted))
  }

  // t is a live task all along.
  ghost predicate StaysLive(k: Kernel, run: seq<Event>, t: Tid)
    requires Inv(k) && Legal(k, run)
    decreases |run|
  {
    Live(k, t) && (run == [] || StaysLive(Next(k, run[0]), run[1..], t))
  }

  // No call in the list makes t.
  predicate Spared(spots: seq<Spot>, t: Tid) {
    forall i :: 0 <= i < |spots| && spots[i].Making? ==> spots[i].t != t
  }

  lemma StepSpared(k: Kernel, e: Event, idleStarted: bool, t: Tid)
    requires Inv(k) && Enabled(k, e) && Live(k, t)
    ensures Spared(Spots(k, e, idleStarted), t)
  {
    hide QueuesOk, StatesOk, BlockedOk, ReferencesOk, MemoryOk, ImagesOk, SemaphoresOk, ReadsOk, Spots, Makes;
    var spots := Spots(k, e, idleStarted);
    SpotsMake(k, e, idleStarted, t);
    if Makes(k, e, t) { MakesFirst(k, e, t); }
    forall i | 0 <= i < |spots| && spots[i].Making?
      ensures spots[i].t != t
    {
      assert spots[i] in spots;
    }
  }

  lemma {:induction false} LiveSpared(k: Kernel, run: seq<Event>, idleStarted: bool, t: Tid)
    requires Inv(k) && Legal(k, run) && StaysLive(k, run, t)
    ensures Spared(SpotsIn(k, run, idleStarted), t)
    decreases |run|
  {
    hide Inv, Live, Spots, Started;
    if run == [] {
    } else {
      StepSpared(k, run[0], idleStarted, t);
      LiveSpared(Next(k, run[0]), run[1..], Started(k, run[0], idleStarted), t);
    }
  }

  /**
   For a task that lives through a run, whatever the clock shows: the totals of its account are the
   time of its last booking less that of its creation, modulo 2^32, across traps, switches, wakeups,
   forks and exits; and exactly that if the readings made for it run forward.
   */
  lemma RunTotals(k: Kernel, run: seq<Event>, idleStarted: bool, clock: nat -> Ticks, accounts: seq<Account>,
                  t: Tid, born: Ticks)
    requires Inv(k) && Legal(k, run) && StaysLive(k, run, t) && |accounts| == NR_TASKS
    requires Word(accounts[t].Total()) == Word(accounts[t].elapsed - born)
    ensures var bs := Stamped(SpotsIn(k, run, idleStarted), clock);
            var a := BookAll(accounts, bs)[t];
            && Word(a.Total()) == Word(a.elapsed - born)
            && (accounts[t].Total() == accounts[t].elapsed - born && Forward(bs, t, accounts[t].elapsed) ==>
                  a.Total() == a.elapsed - born)
  {
    hide Inv, Legal, StaysLive, SpotsIn, BookAll, Word, Forward;
    LiveSpared(k, run, idleStarted, t);
    var bs := Stamped(SpotsIn(k, run, idleStarted), clock);
    assert Lives(bs, t);
    TotalsAreElapsed(accounts, bs, t, born);
    if accounts[t].Total() == accounts[t].elapsed - born && Forward(bs, t, accounts[t].elapsed) {
      TotalsExact(accounts, bs, t, born);
    }
  }

  /** A task made by fork or clone starts with empty books, whatever its father's looked like. */
  lemma BornBalanced(k: Kernel, e: Event, idleStarted: bool, clock: nat -> Ticks, accounts: seq<Account>, t: Tid)
    requires Inv(k) && Enabled(k, e) && Makes(k, e, t) && |accounts| == NR_TASKS
    ensures BookAll(accounts, Stamped(Spots(k, e, idleStarted), clock))[t] == Fresh(clock(1))
  {
    hide Inv, Spots, Makes, BookAll;
    CreationSpots(k, e, idleStarted, t);
    var bs := Stamped(Spots(k, e, idleStarted), clock);
    var first, last := Charge(k.current, User, clock(0)), Charge(k.current, System, clock(2));
    assert bs == [first, Adopt(k.current, t, clock(1)), last];
    MadeBetween(accounts, k.current, t, first, clock(1), last);
  }

  lemma CreationSpots(k: Kernel, e: Event, idleStarted: bool, t: Tid)
    requires Inv(k) && Enabled(k, e) && Makes(k, e, t)
    ensures t != k.current
    ensures Spots(k, e, idleStarted) == [To(k.current, User), Making(k.current, t), To(k.current, System)]
  {
    hide StatesOk, BlockedOk, ReferencesOk, MemoryOk, ImagesOk, SemaphoresOk, ReadsOk;
    MakesFirst(k, e, t);
    assert t in k.queues[FREE];
    if e.EFork? {
      ForkIs(k);
      SpawnMemory(SpaceBuilt(k), ChildDirectory(k));
    } else {
      SpawnMemory(k, k.tasks[k.current].dir);
    }
  }

  lemma MadeBetween(accounts: seq<Account>, father: Tid, t: Tid, a: Booking, now: Ticks, b: Booking)
    requires |accounts| == NR_TASKS && father != t
    requires a.Charge? && b.Charge? && a.t == b.t == father
    ensures BookAll(accounts, [a, Adopt(father, t, now), b])[t] == Fresh(now)
  {
    hide Charged;
    var bs := [a, Adopt(father, t, now), b];
    var x := Book(accounts, a);
    var y := Book(x, bs[1]);
    assert bs[1..] == [bs[1], b] && bs[1..][1..] == [b] && bs[1..][1..][1..] == [];
    assert BookAll(accounts, bs) == BookAll(x, bs[1..]) == BookAll(y, [b]) == Book(y, b);
  }
}
