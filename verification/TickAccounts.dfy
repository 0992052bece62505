/** Which time of a task goes to which of its accounts, entry by entry. */
module TickAccounts {
  import opened Params
  import opened Machine
  import opened TaskQueues
  import opened Invariants
  import opened Stats
  import opened KeyboardStream
  import opened TickRuns
  import opened Calls

  // None of the calls is about t.
  predicate Elsewhere(spots: seq<Spot>, t: Tid) {
    forall i :: 0 <= i < |spots| ==> spots[i].t != t
  }

  // The account of t after the calls, the first of which is the from-th to read the clock.
  function After(a: Account, spots: seq<Spot>, t: Tid, clock: nat -> Ticks, from: nat): Account
    requires forall i :: 0 <= i < |spots| && spots[i].Making? ==> spots[i].t != t
    decreases |spots|
  {
    if spots == [] then a
    else After(if spots[0].t == t then Charged(a, spots[0].f, clock(from)) else a, spots[1..], t, clock, from + 1)
  }

  lemma {:induction false} AccountOf(accounts: seq<Account>, spots: seq<Spot>, t: Tid, clock: nat -> Ticks, from: nat)
    requires |accounts| == NR_TASKS
    requires forall i :: 0 <= i < |spots| && spots[i].Making? ==> spots[i].t != t
    ensures BookAll(accounts, Stamped(spots, i => clock(from + i)))[t] == After(accounts[t], spots, t, clock, from)
    decreases |spots|
  {
    hide Charged;
    if spots == [] {
    } else {
      var bs := Stamped(spots, i => clock(from + i));
      assert bs[1..] == Stamped(spots[1..], i => clock(from + 1 + i));
      AccountOf(Book(accounts, bs[0]), spots[1..], t, clock, from + 1);
    }
  }

  // Calls about others in the end do not matter.
  lemma {:induction false} AfterOthers(a: Account, spots: seq<Spot>, rest: seq<Spot>, t: Tid,
                                       clock: nat -> Ticks, from: nat)
    requires forall i :: 0 <= i < |spots| ==> spots[i].To?
    requires Elsewhere(rest, t)
    ensures After(a, spots + rest, t, clock, from) == After(a, spots, t, clock, from)
    decreases |spots| + |rest|
  {
    hide Charged;
    if spots != [] {
      var b := if spots[0].t == t then Charged(a, spots[0].f, clock(from)) else a;
      assert (spots + rest)[1..] == spots[1..] + rest;
      AfterOthers(b, spots[1..], rest, t, clock, from + 1);
    } else if rest != [] {
      assert spots + rest == rest && rest[1..] == [] + rest[1..];
      AfterOthers(a, [], rest[1..], t, clock, from + 1);
    } else {
      assert spots + rest == [];
    }
  }

  // The task that runs next is another one.
  lemma SwitchesAway(k: Kernel, e: Event)
    requires Inv(k) && Enabled(k, e) && Switches(k, e)
    ensures Next(k, e).current != k.current
  {
    hide BlockedOk, ReferencesOk, MemoryOk, ImagesOk, SemaphoresOk, ReadsOk, Outcome;
    if e.ETick? {
      TickExact(k);
      assert k.queues[READY][0] in k.queues[READY];
    } else {
      WhoRuns(k, e);
      if k.queues[READY] != [] { assert k.queues[READY][0] in k.queues[READY]; }
    }
  }

  // The task dispatched by the step goes on in user code: it neither stands in a call nor is idle on
  // its first dispatch.
  ghost predicate Leads(k: Kernel, e: Event, idleStarted: bool)
    requires Inv(k) && Enabled(k, e)
  {
    var n := Next(k, e);
    n.tasks[n.current].pending == Nothing && (n.current != n.idle || idleStarted)
  }

  // What is booked up to the switch, and then nothing for the outgoing task.
  lemma SwitchSpots(k: Kernel, e: Event, idleStarted: bool) returns (rest: seq<Spot>)
    requires Inv(k) && Enabled(k, e) && Switches(k, e)
    ensures var c := k.current;
            Spots(k, e, idleStarted) ==
              (if e.ETick? then [To(c, User), To(c, User), To(c, System), To(c, Ready)]
               else if e.EResume? then [To(c, System), To(c, Ready)]
               else [To(c, User), To(c, System), To(c, Ready)]) + rest
    ensures Elsewhere(rest, k.current)
    ensures rest == if Leads(k, e, idleStarted) then [To(Next(k, e).current, System)] else []
  {
    hide QueuesOk, StatesOk, BlockedOk, ReferencesOk, MemoryOk, ImagesOk, SemaphoresOk, ReadsOk, Outcome;
    hide PassBlocks;
    SwitchesAway(k, e);
    rest := WayOut(Next(k, e), idleStarted);
  }

  lemma AfterFirst(a: Account, c: Tid, f: Field, spots: seq<Spot>, clock: nat -> Ticks, from: nat)
    requires forall i :: 0 <= i < |spots| ==> spots[i].To?
    ensures After(a, [To(c, f)] + spots, c, clock, from) ==
              After(Charged(a, f, clock(from)), spots, c, clock, from + 1)
  {
    hide Charged;
    assert ([To(c, f)] + spots)[1..] == spots;
  }

  lemma AfterTwo(a: Account, c: Tid, f: Field, g: Field, clock: nat -> Ticks, from: nat)
    ensures After(a, [To(c, f), To(c, g)], c, clock, from) ==
              Charged(Charged(a, f, clock(from)), g, clock(from + 1))
  {
    hide Charged;
    assert [To(c, f), To(c, g)] == [To(c, f)] + [To(c, g)] && [To(c, g)] == [To(c, g)] + [];
    AfterFirst(a, c, f, [To(c, g)], clock, from);
    AfterFirst(Charged(a, f, clock(from)), c, g, [], clock, from + 1);
  }

  // The account of the outgoing task, booking by booking.
  lemma SwitchBookings(k: Kernel, e: Event, idleStarted: bool, clock: nat -> Ticks, accounts: seq<Account>)
    requires Inv(k) && Enabled(k, e) && Switches(k, e) && |accounts| == NR_TASKS
    ensures var a := accounts[k.current];
            var switch := if e.ETick? then 2 else if e.EResume? then 0 else 1;
            var b := if e.ETick? then Charged(Charged(a, User, clock(0)), User, clock(1))
                     else if e.EResume? then a else Charged(a, User, clock(0));
            BookAll(accounts, Stamped(Spots(k, e, idleStarted), clock))[k.current] ==
              Charged(Charged(b, System, clock(switch)), Ready, clock(switch + 1))
  {
    hide Inv, Enabled, Switches, Spots, Charged, BookAll, After;
    var a, c := accounts[k.current], k.current;
    var rest := SwitchSpots(k, e, idleStarted);
    var last := [To(c, System), To(c, Ready)];
    var own := (if e.ETick? then [To(c, User), To(c, User)] else if e.EResume? then [] else [To(c, User)]) + last;
    assert Spots(k, e, idleStarted) == own + rest;
    AccountOf(accounts, own + rest, c, clock, 0);
    assert Stamped(own + rest, clock) == Stamped(own + rest, i => clock(0 + i));
    AfterOthers(a, own, rest, c, clock, 0);
    AfterOwn(a, e, c, clock);
  }

  lemma AfterOwn(a: Account, e: Event, c: Tid, clock: nat -> Ticks)
    ensures var last := [To(c, System), To(c, Ready)];
            var own := (if e.ETick? then [To(c, User), To(c, User)]
                        else if e.EResume? then [] else [To(c, User)]) + last;
            var switch := if e.ETick? then 2 else if e.EResume? then 0 else 1;
            var b := if e.ETick? then Charged(Charged(a, User, clock(0)), User, clock(1))
                     else if e.EResume? then a else Charged(a, User, clock(0));
            After(a, own, c, clock, 0) == Charged(Charged(b, System, clock(switch)), Ready, clock(switch + 1))
  {
    hide Charged, After;
    var last := [To(c, System), To(c, Ready)];
    if e.ETick? {
      var b := Charged(a, User, clock(0));
      assert [To(c, User), To(c, User)] + last == [To(c, User)] + ([To(c, User)] + last);
      AfterFirst(a, c, User, [To(c, User)] + last, clock, 0);
      AfterFirst(b, c, User, last, clock, 1);
      AfterTwo(Charged(b, User, clock(1)), c, System, Ready, clock, 2);
    } else if e.EResume? {
      assert [] + last == last;
      AfterTwo(a, c, System, Ready, clock, 0);
    } else {
      AfterFirst(a, c, User, last, clock, 0);
      AfterTwo(Charged(a, User, clock(0)), c, System, Ready, clock, 1);
    }
  }

  lemma Closed(b: Account, x: Ticks, y: Ticks)
    ensures var c := Charged(Charged(b, System, x), Ready, y);
            && c.user == b.user && c.system == Word(b.system + x - b.elapsed)
            && c.ready == Word(b.ready + y - x) && c.blocked == b.blocked && c.elapsed == y
  {
  }

  lemma UserOnce(a: Account, x: Ticks)
    ensures Charged(a, User, x) == a.(user := Word(a.user + x - a.elapsed), elapsed := x)
  {
  }

  lemma SystemOnce(a: Account, x: Ticks)
    ensures Charged(a, System, x) == a.(system := Word(a.system + x - a.elapsed), elapsed := x)
  {
  }

  lemma UserTwice(a: Account, x: Ticks, y: Ticks)
    ensures var b := Charged(Charged(a, User, x), User, y);
            && b.user == Word(a.user + y - a.elapsed) && b.system == a.system
            && b.ready == a.ready && b.blocked == a.blocked && b.elapsed == y
  {
    WordSum(a.user, y - x, x - a.elapsed);
  }

  /**
   The books of a task that gives up the processor. Its time up to the trap is user time, that from
   the trap to the switch system time, and the last reading closes it as ready time; a preemption
   counts the time to its second reading as user time as well, and a read that blocks again had no trap.
   */
  lemma SwitchAccount(k: Kernel, e: Event, idleStarted: bool, clock: nat -> Ticks, accounts: seq<Account>)
    requires Inv(k) && Enabled(k, e) && Switches(k, e) && |accounts| == NR_TASKS
    ensures var a := accounts[k.current];
            var b := BookAll(accounts, Stamped(Spots(k, e, idleStarted), clock))[k.current];
            var switch := if e.ETick? then 2 else if e.EResume? then 0 else 1;
            var trap := if switch == 0 then a.elapsed else clock(switch - 1);
            && b.user == Word(a.user + trap - a.elapsed)
            && b.system == Word(a.system + clock(switch) - trap)
            && b.ready == Word(a.ready + clock(switch + 1) - clock(switch))
            && b.blocked == a.blocked && b.elapsed == clock(switch + 1)
  {
    hide Inv, Enabled, Switches, Spots, Charged, BookAll;
    var a := accounts[k.current];
    SwitchBookings(k, e, idleStarted, clock, accounts);
    if e.ETick? {
      UserTwice(a, clock(0), clock(1));
      Closed(Charged(Charged(a, User, clock(0)), User, clock(1)), clock(2), clock(3));
    } else if e.EResume? {
      Closed(a, clock(0), clock(1));
    } else {
      UserOnce(a, clock(0));
      Closed(Charged(a, User, clock(0)), clock(1), clock(2));
    }
  }

  /**
   And of the one that takes it: all since its last booking is system time, if it goes on in user
   code; if it goes on in the kernel nothing is booked yet.
   */
  lemma DispatchAccount(k: Kernel, e: Event, idleStarted: bool, clock: nat -> Ticks, accounts: seq<Account>)
    requires Inv(k) && Enabled(k, e) && Switches(k, e) && |accounts| == NR_TASKS
    ensures var t := Next(k, e).current;
            var a, end := accounts[t], clock(if e.ETick? then 4 else if e.EResume? then 2 else 3);
            BookAll(accounts, Stamped(Spots(k, e, idleStarted), clock))[t] ==
              if Leads(k, e, idleStarted) then a.(system := Word(a.system + end - a.elapsed), elapsed := end) else a
  {
    hide Leads, Word, Enabled, Shape, Live, Stamped;
    hide QueuesOk, StatesOk, BlockedOk, ReferencesOk, MemoryOk, ImagesOk, SemaphoresOk, ReadsOk;
    hide Outcome, Switches, Spots, BookAll, After, Charged;
    var t, c := Next(k, e).current, k.current;
    SwitchesAway(k, e);
    var rest := SwitchSpots(k, e, idleStarted);
    var last := [To(c, System), To(c, Ready)];
    var own := (if e.ETick? then [To(c, User), To(c, User)] else if e.EResume? then [] else [To(c, User)]) + last;
    assert Spots(k, e, idleStarted) == own + rest;
    AccountOf(accounts, own + rest, t, clock, 0);
    assert Stamped(own + rest, clock) == Stamped(own + rest, i => clock(0 + i));
    AfterElsewhere(accounts[t], own, rest, t, clock, 0);
    if Leads(k, e, idleStarted) {
      AfterOnce(accounts[t], t, System, clock, |own|);
      SystemOnce(accounts[t], clock(|own|));
    } else {
      AfterNone(accounts[t], t, clock, |own|);
    }
  }

  lemma AfterNone(a: Account, t: Tid, clock: nat -> Ticks, from: nat)
    ensures After(a, [], t, clock, from) == a
  {
  }

  // ---------- An entry that returns to its task ----------

  // The call of a task that goes on is over.
  lemma Settles(k: Kernel, e: Event)
    requires Inv(k) && Enabled(k, e) && !Switches(k, e)
    ensures Next(k, e).current == k.current && Next(k, e).tasks[k.current].pending == Nothing
  {
    hide StatesOk, BlockedOk, ReferencesOk, MemoryOk, ImagesOk, SemaphoresOk, ReadsOk, Outcome;
    WhoRuns(k, e);
    if e.EFork? || e.EClone? {
      if k.queues[FREE] != [] { assert k.queues[FREE][0] in k.queues[FREE]; }
      MakesTask(k, e);
    } else if e.EResume? || e.ERead? {
      ReadSettles(k, e);
    } else {
      SameCall(k, e);
    }
  }

  lemma ReadSettles(k: Kernel, e: Event)
    requires Inv(k) && Enabled(k, e) && !Switches(k, e) && (e.EResume? || e.ERead?)
    ensures Next(k, e).tasks[k.current].pending == Nothing
  {
    hide QueuesOk, BlockedOk, ReferencesOk, MemoryOk, ImagesOk, SemaphoresOk, ReadsOk;
  }

  lemma SameCall(k: Kernel, e: Event)
    requires Inv(k) && Enabled(k, e) && !Switches(k, e)
    requires !(e.EFork? || e.EClone? || e.EResume? || e.ERead?)
    ensures Next(k, e).tasks[k.current].pending == Nothing
  {
    hide QueuesOk, BlockedOk, ReferencesOk, MemoryOk, ImagesOk, SemaphoresOk, ReadsOk;
    match e
    case ESemDestroy(n) =>
      if SemNumber(n) {
        WakeAllSettles(k.(semaphores := k.semaphores[n := k.semaphores[n].(owner := -1)]), SemQueue(n), k.current);
      }
    case _ =>
  }

  lemma WorkElsewhere(k: Kernel, e: Event)
    requires Inv(k) && Enabled(k, e) && !Switches(k, e)
    ensures Elsewhere(Work(k, e), k.current)
  {
    hide StatesOk, BlockedOk, ReferencesOk, MemoryOk, ImagesOk, SemaphoresOk, ReadsOk, Makes, Switches, Readied;
    if k.queues[FREE] != [] { assert k.queues[FREE][0] in k.queues[FREE]; }
    ReadiedElsewhere(k, e);
  }

  lemma ReadiedElsewhere(k: Kernel, e: Event)
    requires Inv(k) && Enabled(k, e) && !Switches(k, e)
    ensures Elsewhere(Readied(k, e), k.current)
  {
    hide StatesOk, BlockedOk, ReferencesOk, MemoryOk, ImagesOk, SemaphoresOk, ReadsOk, PassBlocks;
    match e
    case ESemSignal(n) =>
      if SemNumber(n) && k.queues[SemQueue(n)] != [] {
        assert k.queues[SemQueue(n)][0] in k.queues[SemQueue(n)];
      }
    case ESemDestroy(n) =>
      if SemNumber(n) {
        assert forall i :: 0 <= i < |k.queues[SemQueue(n)]| ==> k.queues[SemQueue(n)][i] in k.queues[SemQueue(n)];
      }
    case EKey(_) => if KeyWakes(k) { assert k.queues[KEYBOARD][0] in k.queues[KEYBOARD]; }
    case _ =>
  }

  // Calls about others in front do not matter either, but for the readings they take.
  lemma {:induction false} AfterElsewhere(a: Account, others: seq<Spot>, rest: seq<Spot>, t: Tid,
                                          clock: nat -> Ticks, from: nat)
    requires Elsewhere(others, t) && forall i :: 0 <= i < |rest| ==> rest[i].To?
    ensures After(a, others + rest, t, clock, from) == After(a, rest, t, clock, from + |others|)
    decreases |others|
  {
    hide Charged;
    if others == [] {
      assert others + rest == rest;
    } else {
      assert (others + rest)[1..] == others[1..] + rest;
      AfterElsewhere(a, others[1..], rest, t, clock, from + 1);
    }
  }

  lemma ReturnSpots(k: Kernel, e: Event, idleStarted: bool)
    requires Inv(k) && Enabled(k, e) && !Switches(k, e)
    requires idleStarted || k.current != k.idle
    ensures Spots(k, e, idleStarted) == Trap(k, e) + (Work(k, e) + [To(k.current, System)])
  {
    hide QueuesOk, StatesOk, BlockedOk, ReferencesOk, MemoryOk, ImagesOk, SemaphoresOk, ReadsOk;
    hide Enabled, Outcome, Switches, Work, Trap;
    Settles(k, e);
    SameIdle(k, e);
    assert WayOut(Next(k, e), idleStarted) == [To(k.current, System)];
    assert (Trap(k, e) + Work(k, e)) + [To(k.current, System)] == Trap(k, e) + (Work(k, e) + [To(k.current, System)]);
  }

  lemma ReturnBookings(k: Kernel, e: Event, idleStarted: bool, clock: nat -> Ticks, accounts: seq<Account>)
    requires Inv(k) && Enabled(k, e) && !Switches(k, e) && |accounts| == NR_TASKS
    requires idleStarted || k.current != k.idle
    ensures |Spots(k, e, idleStarted)| > 0
    ensures var a := accounts[k.current];
            var b := if e.EResume? then a else Charged(a, User, clock(0));
            BookAll(accounts, Stamped(Spots(k, e, idleStarted), clock))[k.current] ==
              Charged(b, System, clock(|Spots(k, e, idleStarted)| - 1))
  {
    hide QueuesOk, StatesOk, BlockedOk, ReferencesOk, MemoryOk, ImagesOk, SemaphoresOk, ReadsOk;
    hide Enabled, Outcome, Switches, Spots, Charged, BookAll, After, Work;
    var a, c, work := accounts[k.current], k.current, Work(k, e);
    var last := [To(c, System)];
    ReturnSpots(k, e, idleStarted);
    WorkElsewhere(k, e);
    var b, from := if e.EResume? then a else Charged(a, User, clock(0)), if e.EResume? then 0 else 1;
    assert Stamped(Spots(k, e, idleStarted), clock) == Stamped(Spots(k, e, idleStarted), i => clock(0 + i));
    assert e.EResume? ==> [] + (work + last) == work + last;
    AccountOf(accounts, Trap(k, e) + (work + last), c, clock, 0);
    if !e.EResume? { AfterTrap(a, c, work + last, clock); }
    AfterElsewhere(b, work, last, c, clock, from);
    AfterOnce(b, c, System, clock, from + |work|);
  }

  // The user time up to the trap.
  lemma AfterTrap(a: Account, c: Tid, spots: seq<Spot>, clock: nat -> Ticks)
    requires forall i :: 0 <= i < |spots| && spots[i].Making? ==> spots[i].t != c
    ensures After(a, [To(c, User)] + spots, c, clock, 0) == After(Charged(a, User, clock(0)), spots, c, clock, 1)
  {
    hide Charged;
    assert ([To(c, User)] + spots)[1..] == spots;
  }

  lemma AfterOnce(a: Account, c: Tid, f: Field, clock: nat -> Ticks, from: nat)
    ensures After(a, [To(c, f)], c, clock, from) == Charged(a, f, clock(from))
  {
    hide Charged;
    assert [To(c, f)] == [To(c, f)] + [];
    AfterFirst(a, c, f, [], clock, from);
  }

  /**
   The books of a task that goes on: user time up to the trap, system time from there to the way
   out, however many others are made or woken in between; a resumed call had no trap.
   */
  lemma ReturnAccount(k: Kernel, e: Event, idleStarted: bool, clock: nat -> Ticks, accounts: seq<Account>)
    requires Inv(k) && Enabled(k, e) && !Switches(k, e) && |accounts| == NR_TASKS
    requires idleStarted || k.current != k.idle
    ensures |Spots(k, e, idleStarted)| > 0
    ensures var a := accounts[k.current];
            var b := BookAll(accounts, Stamped(Spots(k, e, idleStarted), clock))[k.current];
            var trap := if e.EResume? then a.elapsed else clock(0);
            var end := clock(|Spots(k, e, idleStarted)| - 1);
            && b.user == Word(a.user + trap - a.elapsed)
            && b.system == Word(a.system + end - trap)
            && b.ready == a.ready && b.blocked == a.blocked && b.elapsed == end
  {
    hide Inv, Enabled, Switches, Spots, Charged, BookAll;
    ReturnBookings(k, e, idleStarted, clock, accounts);
    var a, end := accounts[k.current], clock(|Spots(k, e, idleStarted)| - 1);
    if e.EResume? {
      SystemOnce(a, end);
    } else {
      UserOnce(a, clock(0));
      SystemOnce(Charged(a, User, clock(0)), end);
    }
  }

  // ---------- An entry that wakes ----------

  // The i-th task of queue h is made ready by a signal, a destruction or a keystroke.
  ghost predicate WakesUp(k: Kernel, e: Event, h: int, i: nat)
    requires Inv(k) && Enabled(k, e)
  {
    && (e.ESemSignal? || e.ESemDestroy? || e.EKey?)
    && KEYBOARD <= h < NR_QUEUES && i < |k.queues[h]| && k.queues[h][i] in Next(k, e).queues[READY]
  }

  // Only the i-th call is about that task.
  ghost predicate WakingAt(k: Kernel, work: seq<Spot>, h: int, i: nat)
    requires Shape(k) && KEYBOARD <= h < NR_QUEUES && i < |k.queues[h]|
  {
    && i < |work| && work[i] == To(k.queues[h][i], User)
    && forall j :: 0 <= j < |work| ==> work[j].To? && (j != i ==> work[j].t != k.queues[h][i])
  }

  lemma WakingWork(k: Kernel, e: Event, h: int, i: nat)
    requires Inv(k) && Enabled(k, e) && WakesUp(k, e, h, i)
    ensures WakingAt(k, Work(k, e), h, i)
  {
    hide QueuesOk, StatesOk, BlockedOk, ReferencesOk, MemoryOk, ImagesOk, SemaphoresOk, ReadsOk, Outcome;
    hide Work, WakingAt;
    match e
    case ESemSignal(n) => SignalWaking(k, n, h, i);
    case ESemDestroy(n) => DestroyWaking(k, n, h, i);
    case EKey(key) => KeyWaking(k, key, h, i);
  }

  lemma SignalWaking(k: Kernel, n: int, h: int, i: nat)
    requires Inv(k) && Enabled(k, ESemSignal(n)) && WakesUp(k, ESemSignal(n), h, i)
    ensures WakingAt(k, Work(k, ESemSignal(n)), h, i)
  {
    hide StatesOk, BlockedOk, ReferencesOk, MemoryOk, ImagesOk, SemaphoresOk, ReadsOk, Outcome, Work;
    assert k.queues[h][i] !in k.queues[READY];
    SignalWork(k, n);
    SemSignalExact(k, n);
  }

  lemma DestroyWaking(k: Kernel, n: int, h: int, i: nat)
    requires Inv(k) && Enabled(k, ESemDestroy(n)) && WakesUp(k, ESemDestroy(n), h, i)
    ensures WakingAt(k, Work(k, ESemDestroy(n)), h, i)
  {
    hide StatesOk, BlockedOk, ReferencesOk, MemoryOk, ImagesOk, SemaphoresOk, ReadsOk, Outcome, Work;
    assert k.queues[h][i] !in k.queues[READY];
    DestroyWork(k, n);
    SemDestroyExact(k, n);
  }

  lemma KeyWaking(k: Kernel, key: Byte, h: int, i: nat)
    requires Inv(k) && Enabled(k, EKey(key)) && WakesUp(k, EKey(key), h, i)
    ensures WakingAt(k, Work(k, EKey(key)), h, i)
  {
    hide StatesOk, BlockedOk, ReferencesOk, MemoryOk, ImagesOk, SemaphoresOk, ReadsOk, Outcome, Work;
    assert k.queues[h][i] !in k.queues[READY];
    KeyWork(k, key);
    KeyExact(k, key);
  }

  lemma WakerGoesOn(k: Kernel, e: Event, h: int, i: nat)
    requires Inv(k) && Enabled(k, e) && WakesUp(k, e, h, i)
    ensures Next(k, e).current == k.current && k.queues[h][i] != k.current
  {
    hide StatesOk, BlockedOk, ReferencesOk, MemoryOk, ImagesOk, SemaphoresOk, ReadsOk, Outcome;
    WhoRuns(k, e);
    assert k.queues[h][i] in k.queues[h];
  }

  lemma WakingSpots(k: Kernel, e: Event, idleStarted: bool, h: int, i: nat)
    returns (others: seq<Spot>, rest: seq<Spot>)
    requires Inv(k) && Enabled(k, e) && WakesUp(k, e, h, i)
    ensures var t := k.queues[h][i];
            && Spots(k, e, idleStarted) == others + ([To(t, User)] + rest)
            && |others| == 1 + i && Elsewhere(others, t) && Elsewhere(rest, t)
    ensures forall j :: 0 <= j < |rest| ==> rest[j].To?
    ensures forall j :: 0 <= j < |others| ==> others[j].To?
  {
    hide QueuesOk, StatesOk, BlockedOk, ReferencesOk, MemoryOk, ImagesOk, SemaphoresOk, ReadsOk, Outcome, Work;
    var work := Work(k, e);
    WakingWork(k, e, h, i);
    WakerGoesOn(k, e, h, i);
    others, rest := [To(k.current, User)] + work[..i], work[i + 1..] + WayOut(Next(k, e), idleStarted);
  }

  /**
   A woken task is charged all its time since its last booking, waiting included, as user time: the
   field sched.c names is the first of the structure.
   */
  lemma WokenAccount(k: Kernel, e: Event, idleStarted: bool, clock: nat -> Ticks, accounts: seq<Account>,
                     h: int, i: nat)
    requires Inv(k) && Enabled(k, e) && WakesUp(k, e, h, i) && |accounts| == NR_TASKS
    ensures var t := k.queues[h][i];
            BookAll(accounts, Stamped(Spots(k, e, idleStarted), clock))[t] ==
              accounts[t].(user := Word(accounts[t].user + clock(1 + i) - accounts[t].elapsed),
                           elapsed := clock(1 + i))
  {
    hide QueuesOk, StatesOk, BlockedOk, ReferencesOk, MemoryOk, ImagesOk, SemaphoresOk, ReadsOk;
    hide Spots, Outcome, BookAll, After, Charged;
    var others, rest := WakingSpots(k, e, idleStarted, h, i);
    var t := k.queues[h][i];
    assert Stamped(Spots(k, e, idleStarted), clock) == Stamped(Spots(k, e, idleStarted), i => clock(0 + i));
    AccountOf(accounts, Spots(k, e, idleStarted), t, clock, 0);
    AfterElsewhere(accounts[t], others, [To(t, User)] + rest, t, clock, 0);
    AfterOthers(accounts[t], [To(t, User)], rest, t, clock, 1 + i);
    AfterOnce(accounts[t], t, User, clock, 1 + i);
    UserOnce(accounts[t], clock(1 + i));
  }
}
