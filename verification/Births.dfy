/** Process identifiers over runs: what fork and clone answer, and whom a pid names. */
module Births {
  import opened Params
  import opened Paging
  import opened Machine
  import opened TaskQueues
  import opened Invariants
  import opened SpaceRuns
  import opened Calls

  // A fork or clone that makes a task.
  ghost predicate Births(k: Kernel, e: Event)
    requires Shape(k)
  {
    (e.EFork? || e.EClone?) && CanMake(k, e)
  }

  // The pid counter and the free queue move with births and exits alone.
  lemma StepCounter(k: Kernel, e: Event)
    requires Inv(k) && Enabled(k, e)
    ensures Next(k, e).nextPid == if Births(k, e) then Word(k.nextPid + 1) else k.nextPid
    ensures Next(k, e).queues[FREE] ==
              if Births(k, e) then k.queues[FREE][1..]
              else if e.EExit? then k.queues[FREE] + [k.current] else k.queues[FREE]
  {
    hide QueuesOk, StatesOk, BlockedOk, ReferencesOk, MemoryOk, ImagesOk, SemaphoresOk, ReadsOk, Outcome, FreeFrames;
    match e
    case EFork => MakesTask(k, e);
    case EClone(_) => MakesTask(k, e);
    case EExit(reclaims) => ExitLeaves(k, reclaims);
    case ESbrk(increment) => SbrkCounter(k, increment);
    case _ => SparesMemory(k, e);
  }

  lemma SbrkCounter(k: Kernel, increment: int)
    requires Inv(k) && Enabled(k, ESbrk(increment))
    ensures var n := Next(k, ESbrk(increment)); n.nextPid == k.nextPid && n.queues == k.queues
  {
    hide QueuesOk, StatesOk, BlockedOk, ReferencesOk, MemoryOk, ImagesOk, SemaphoresOk, ReadsOk;
  }

  // ---------- Answers ----------

  // The answers of the successful forks and clones of a run, in order.
  ghost function PidsIn(k: Kernel, run: seq<Event>): seq<Reply>
    requires Inv(k) && Legal(k, run)
    decreases |run|
  {
    if run == [] then []
    else (if Births(k, run[0]) then [Outcome(k, run[0]).reply] else []) + PidsIn(Next(k, run[0]), run[1..])
  }

  lemma WordNext(x: int, y: int)
    ensures Word(Word(x + 1) + y) == Word(x + 1 + y)
  {
    var q := (x + 1) / 0x1_0000_0000;
    assert x + 1 == q * 0x1_0000_0000 + Word(x + 1);
    assert (Word(x + 1) + y + q * 0x1_0000_0000) % 0x1_0000_0000 == (Word(x + 1) + y) % 0x1_0000_0000;
  }

  /** Over every run the answers count on from the last pid, one by one, modulo 2^32. */
  lemma {:induction false} RunPids(k: Kernel, run: seq<Event>)
    requires Inv(k) && Legal(k, run)
    ensures Run(k, run).nextPid == Word(k.nextPid + |PidsIn(k, run)|)
    ensures forall i :: 0 <= i < |PidsIn(k, run)| ==>
              PidsIn(k, run)[i] == Returns(Signed(Word(k.nextPid + 1 + i)))
    decreases |run|
  {
    hide QueuesOk, StatesOk, BlockedOk, ReferencesOk, MemoryOk, ImagesOk, SemaphoresOk, ReadsOk;
    hide Outcome, Births, Enabled;
    if run == [] {
    } else {
      var e, n := run[0], Next(k, run[0]);
      StepCounter(k, e);
      RunPids(n, run[1..]);
      if Births(k, e) {
        BirthAnswer(k, e);
        WordNext(k.nextPid, |PidsIn(n, run[1..])|);
        forall i | 0 < i < |PidsIn(k, run)|
          ensures PidsIn(k, run)[i] == Returns(Signed(Word(k.nextPid + 1 + i)))
        {
          WordNext(k.nextPid, i);
          assert PidsIn(k, run)[i] == PidsIn(n, run[1..])[i - 1];
        }
      }
    }
  }

  lemma BirthAnswer(k: Kernel, e: Event)
    requires Inv(k) && Enabled(k, e) && Births(k, e)
    ensures Outcome(k, e).reply == Returns(Signed(Word(k.nextPid + 1)))
  {
    hide QueuesOk, StatesOk, BlockedOk, ReferencesOk, MemoryOk, ImagesOk, SemaphoresOk, ReadsOk, Outcome, FreeFrames;
    MakesTask(k, e);
  }

  /** So no pid is answered twice before the counter has gone round. */
  lemma PidsDiffer(k: Kernel, run: seq<Event>, i: nat, j: nat)
    requires Inv(k) && Legal(k, run) && i < j < |PidsIn(k, run)| && j - i < 0x1_0000_0000
    ensures PidsIn(k, run)[i] != PidsIn(k, run)[j]
  {
    hide Inv, Legal, PidsIn, Run, Word;
    RunPids(k, run);
    WordsDiffer(k.nextPid + 1 + i, j - i);
  }

  lemma WordsDiffer(x: int, d: int)
    requires 0 < d < 0x1_0000_0000
    ensures Word(x) != Word(x + d)
  {
    var q, r := x / 0x1_0000_0000, Word(x);
    assert x + d == r + d + q * 0x1_0000_0000;
    assert (r + d + q * 0x1_0000_0000) % 0x1_0000_0000 == (r + d) % 0x1_0000_0000;
  }

  // ---------- Whom a pid names ----------

  // Live tasks have pids of their own, none above the counter.
  ghost predicate PidsOk(k: Kernel)
    requires Shape(k)
  {
    && (forall t: Tid :: Live(k, t) ==> 0 <= k.tasks[t].pid <= k.nextPid)
    && (forall t: Tid, u: Tid :: Live(k, t) && Live(k, u) && k.tasks[t].pid == k.tasks[u].pid ==> t == u)
  }

  // A live task after a step was one before, with its pid, or has been made with the next one.
  lemma StepNames(k: Kernel, e: Event, t: Tid)
    requires Inv(k) && Enabled(k, e) && Live(Next(k, e), t)
    requires Births(k, e) ==> k.nextPid < 0x7FFF_FFFF
    ensures if Births(k, e) && t == k.queues[FREE][0]
            then Next(k, e).tasks[t].pid == k.nextPid + 1
            else Live(k, t) && Next(k, e).tasks[t].pid == k.tasks[t].pid
  {
    hide QueuesOk, StatesOk, BlockedOk, ReferencesOk, MemoryOk, ImagesOk, SemaphoresOk, ReadsOk, Outcome, Births;
    if Births(k, e) {
      BirthNames(k, e, t);
    } else {
      OthersNames(k, e, t);
    }
  }

  lemma BirthNames(k: Kernel, e: Event, t: Tid)
    requires Inv(k) && Enabled(k, e) && Live(Next(k, e), t) && Births(k, e) && k.nextPid < 0x7FFF_FFFF
    ensures if t == k.queues[FREE][0] then Next(k, e).tasks[t].pid == k.nextPid + 1
            else Live(k, t) && Next(k, e).tasks[t].pid == k.tasks[t].pid
  {
    hide QueuesOk, StatesOk, BlockedOk, ReferencesOk, MemoryOk, ImagesOk, SemaphoresOk, ReadsOk, Outcome;
    hide FreeFrames;
    assert k.queues[FREE] == [k.queues[FREE][0]] + k.queues[FREE][1..];
    MakesTask(k, e);
  }

  lemma OthersNames(k: Kernel, e: Event, t: Tid)
    requires Inv(k) && Enabled(k, e) && Live(Next(k, e), t) && !Births(k, e)
    ensures Live(k, t) && Next(k, e).tasks[t].pid == k.tasks[t].pid
  {
    hide QueuesOk, StatesOk, BlockedOk, ReferencesOk, MemoryOk, ImagesOk, SemaphoresOk, ReadsOk, Outcome;
    hide FreeFrames;
    if k.queues[FREE] != [] { assert k.queues[FREE][0] in k.queues[FREE]; }
    StepCounter(k, e);
    if !MadeBy(k, e, t) { TasksKeep(k, e, t); }
  }

  lemma StepPidsOk(k: Kernel, e: Event)
    requires Inv(k) && Enabled(k, e) && PidsOk(k)
    requires Births(k, e) ==> k.nextPid < 0x7FFF_FFFF
    ensures PidsOk(Next(k, e))
  {
    hide QueuesOk, StatesOk, BlockedOk, ReferencesOk, MemoryOk, ImagesOk, SemaphoresOk, ReadsOk;
    hide Outcome, FreeFrames, Live;
    var n := Next(k, e);
    StepCounter(k, e);
    forall t: Tid | Live(n, t)
      ensures if Births(k, e) && t == k.queues[FREE][0] then n.tasks[t].pid == k.nextPid + 1
              else Live(k, t) && n.tasks[t].pid == k.tasks[t].pid
    {
      StepNames(k, e, t);
    }
  }

  /** Over every run in which the counter stays positive, a pid names one live task at most. */
  lemma {:induction false} RunPidsOk(k: Kernel, run: seq<Event>)
    requires Inv(k) && Legal(k, run) && PidsOk(k)
    requires k.nextPid + |PidsIn(k, run)| < 0x8000_0000
    ensures PidsOk(Run(k, run))
    decreases |run|
  {
    hide QueuesOk, StatesOk, BlockedOk, ReferencesOk, MemoryOk, ImagesOk, SemaphoresOk, ReadsOk;
    hide Outcome, Births, Enabled, PidsOk;
    if run == [] {
    } else {
      StepCounter(k, run[0]);
      StepPidsOk(k, run[0]);
      RunPidsOk(Next(k, run[0]), run[1..]);
    }
  }
}
