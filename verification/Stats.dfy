/** The tick accounts of sched.c: where the time of a task is booked, in 32-bit words. */
module Stats {
  import opened Params

  // A field of struct stats that update_stats is called with; sched.c:89 passes the address of the
  // whole structure, which is that of its first field, the user ticks.
  datatype Field = User | System | Blocked | Ready

  type Ticks = x: int | 0 <= x < 0x1_0000_0000

  datatype Account = Account(user: Ticks, system: Ticks, blocked: Ticks, ready: Ticks, elapsed: Ticks)
  {
    function Total(): nat { user + system + blocked + ready }

    function Of(f: Field): Ticks {
      match f
      case User => user
      case System => system
      case Blocked => blocked
      case Ready => ready
    }
  }

  function Fresh(now: Ticks): Account { Account(0, 0, 0, 0, now) }

  // update_stats: what went by since the last booking goes to one field.
  function Charged(a: Account, f: Field, now: Ticks): (r: Account)
    ensures r.elapsed == now && r.Of(f) == Word(a.Of(f) + (now - a.elapsed))
    ensures forall g :: g != f ==> r.Of(g) == a.Of(g)
  {
    var v := Word(a.Of(f) + (now - a.elapsed));
    match f
    case User => a.(user := v, elapsed := now)
    case System => a.(system := v, elapsed := now)
    case Blocked => a.(blocked := v, elapsed := now)
    case Ready => a.(ready := v, elapsed := now)
  }

  // One operation on the accounts of all tasks. Adopt is what fork and clone do: the father's
  // structure copied over the child's, then init_task_stats.
  datatype Booking = Charge(t: Tid, f: Field, now: Ticks) | Adopt(father: Tid, t: Tid, now: Ticks)

  function Book(accounts: seq<Account>, b: Booking): (r: seq<Account>)
    requires |accounts| == NR_TASKS
    ensures |r| == NR_TASKS
  {
    match b
    case Charge(t, f, now) => accounts[t := Charged(accounts[t], f, now)]
    case Adopt(father, t, now) => accounts[t := accounts[father]][t := Fresh(now)]
  }

  function BookAll(accounts: seq<Account>, bs: seq<Booking>): (r: seq<Account>)
    requires |accounts| == NR_TASKS
    ensures |r| == NR_TASKS
    decreases |bs|
  {
    if bs == [] then accounts else BookAll(Book(accounts, bs[0]), bs[1..])
  }

  // t is not made anew by any of the bookings.
  predicate Lives(bs: seq<Booking>, t: Tid) {
    forall i :: 0 <= i < |bs| && bs[i].Adopt? ==> bs[i].t != t
  }

  // Words do not forget what a sum is congruent to.
  lemma WordSum(x: int, y: int, d: int)
    ensures Word(Word(x + d) + y) == Word(x + y + d)
  {
    var q := (x + d) / 0x1_0000_0000;
    assert x + d == q * 0x1_0000_0000 + Word(x + d);
    Shifted(Word(x + d) + y, q);
  }

  lemma Shifted(a: int, q: int)
    ensures (a + q * 0x1_0000_0000) % 0x1_0000_0000 == a % 0x1_0000_0000
  {
  }

  lemma ChargedSum(a: Account, f: Field, now: Ticks)
    ensures Charged(a, f, now).Total() == a.Total() - a.Of(f) + Word(a.Of(f) + (now - a.elapsed))
  {
    hide Word;
  }

  lemma ChargedTotal(a: Account, f: Field, now: Ticks)
    ensures Word(Charged(a, f, now).Total()) == Word(a.Total() + (now - a.elapsed))
  {
    hide Word, Charged;
    ChargedSum(a, f, now);
    WordSum(a.Of(f), a.Total() - a.Of(f), now - a.elapsed);
  }

  lemma ChargedExact(a: Account, f: Field, now: Ticks)
    requires a.elapsed <= now && a.Total() + (now - a.elapsed) < 0x1_0000_0000
    ensures Charged(a, f, now).Total() == a.Total() + (now - a.elapsed)
  {
    hide Charged;
    ChargedSum(a, f, now);
  }

  lemma WordShift(x: int, y: int, d: int)
    requires Word(x) == Word(y)
    ensures Word(x + d) == Word(y + d)
  {
    WordSum(x, d, 0);
    WordSum(y, d, 0);
  }

  /**
   Whatever is charged to whom in whatever order, and whoever else is made meanwhile: modulo 2^32
   the four totals of a task are the time of its last booking less that of its creation.
   */
  lemma {:induction false} TotalsAreElapsed(accounts: seq<Account>, bs: seq<Booking>, t: Tid, born: Ticks)
    requires |accounts| == NR_TASKS && Lives(bs, t)
    requires Word(accounts[t].Total()) == Word(accounts[t].elapsed - born)
    ensures var a := BookAll(accounts, bs)[t];
            Word(a.Total()) == Word(a.elapsed - born)
    decreases |bs|
  {
    hide Word, Charged;
    if bs == [] {
    } else {
      var a, b := accounts[t], bs[0];
      if b.Charge? && b.t == t {
        ChargedTotal(a, b.f, b.now);
        WordShift(a.Total(), a.elapsed - born, b.now - a.elapsed);
        assert (a.elapsed - born) + (b.now - a.elapsed) == b.now - born;
      }
      TotalsAreElapsed(Book(accounts, b), bs[1..], t, born);
    }
  }

  // The clock readings for t never go back, starting from a given one.
  predicate Forward(bs: seq<Booking>, t: Tid, from: Ticks) {
    bs == [] ||
    if bs[0].t == t then from <= bs[0].now && Forward(bs[1..], t, bs[0].now) else Forward(bs[1..], t, from)
  }

  /** While the clock runs forward and does not wrap, the totals are that time exactly. */
  lemma {:induction false} TotalsExact(accounts: seq<Account>, bs: seq<Booking>, t: Tid, born: Ticks)
    requires |accounts| == NR_TASKS && Lives(bs, t)
    requires Forward(bs, t, accounts[t].elapsed)
    requires accounts[t].Total() == accounts[t].elapsed - born
    ensures var a := BookAll(accounts, bs)[t];
            a.Total() == a.elapsed - born
    decreases |bs|
  {
    hide Word, Charged;
    if bs == [] {
    } else {
      if bs[0].t == t { ChargedExact(accounts[t], bs[0].f, bs[0].now); }
      TotalsExact(Book(accounts, bs[0]), bs[1..], t, born);
    }
  }

  /** From fork or clone on: the child's books balance, whatever the father's looked like. */
  lemma FromCreation(accounts: seq<Account>, father: Tid, child: Tid, born: Ticks, bs: seq<Booking>)
    requires |accounts| == NR_TASKS && Lives(bs, child)
    ensures var a := BookAll(accounts, [Adopt(father, child, born)] + bs)[child];
            && Word(a.Total()) == Word(a.elapsed - born)
            && (Forward(bs, child, born) ==> a.Total() == a.elapsed - born)
  {
    hide Word, Charged, BookAll;
    var start := Book(accounts, Adopt(father, child, born));
    BookFirst(accounts, Adopt(father, child, born), bs);
    TotalsAreElapsed(start, bs, child, born);
    if Forward(bs, child, born) { TotalsExact(start, bs, child, born); }
  }

  lemma BookFirst(accounts: seq<Account>, b: Booking, bs: seq<Booking>)
    requires |accounts| == NR_TASKS
    ensures BookAll(accounts, [b] + bs) == BookAll(Book(accounts, b), bs)
  {
    hide Book;
    assert ([b] + bs)[1..] == bs;
  }

  // ---------- The calls that book ----------

  // A call of update_stats on a field of t, or the making of t's structure by fork or clone; at boot
  // nothing is copied and father is t.
  datatype Spot = To(t: Tid, f: Field) | Making(father: Tid, t: Tid)

  function Stamp(s: Spot, now: Ticks): Booking {
    match s
    case To(t, f) => Charge(t, f, now)
    case Making(father, t) => Adopt(father, t, now)
  }

  // Every call reads the clock for itself: clock(i) is what the reading after i others gives.
  function Stamped(spots: seq<Spot>, clock: nat -> Ticks): (bs: seq<Booking>)
    ensures |bs| == |spots|
    ensures forall i :: 0 <= i < |bs| ==> bs[i] == Stamp(spots[i], clock(i))
  {
    seq<Booking>(|spots|, i requires 0 <= i < |spots| => Stamp(spots[i], clock(i)))
  }

  lemma {:induction false} BookLast(accounts: seq<Account>, bs: seq<Booking>, b: Booking)
    requires |accounts| == NR_TASKS
    ensures BookAll(accounts, bs + [b]) == Book(BookAll(accounts, bs), b)
    decreases |bs|
  {
    if bs == [] {
      assert [b][1..] == [] && bs + [b] == [b];
    } else {
      assert (bs + [b])[1..] == bs[1..] + [b];
      BookLast(Book(accounts, bs[0]), bs[1..], b);
    }
  }

  // Static storage: all fields zero.
  function Blank(): (accounts: seq<Account>)
    ensures |accounts| == NR_TASKS
  {
    seq(NR_TASKS, t => Account(0, 0, 0, 0, 0))
  }

  // The accounts after the given calls.
  function Booked(spots: seq<Spot>, clock: nat -> Ticks): (accounts: seq<Account>)
    ensures |accounts| == NR_TASKS
  {
    BookAll(Blank(), Stamped(spots, clock))
  }

  lemma BookedLast(spots: seq<Spot>, s: Spot, clock: nat -> Ticks)
    ensures Booked(spots + [s], clock) == Book(Booked(spots, clock), Stamp(s, clock(|spots|)))
  {
    hide BookAll, Book, Blank;
    assert Stamped(spots + [s], clock) == Stamped(spots, clock) + [Stamp(s, clock(|spots|))];
    BookLast(Blank(), Stamped(spots, clock), Stamp(s, clock(|spots|)));
  }

  // ---------- In place ----------

  // struct stats; remaining_ticks and total_trans are set once and never read here.
  class TaskStats {
    var userTicks: Ticks
    var systemTicks: Ticks
    var blockedTicks: Ticks
    var readyTicks: Ticks
    var elapsedTotalTicks: Ticks
    var totalTrans: Ticks
    var remainingTicks: Ticks

    constructor ()
      ensures View() == Account(0, 0, 0, 0, 0)
    {
      userTicks, systemTicks, blockedTicks, readyTicks := 0, 0, 0, 0;
      elapsedTotalTicks, totalTrans, remainingTicks := 0, 0, 0;
    }

    function View(): Account
      reads this
    {
      Account(userTicks, systemTicks, blockedTicks, readyTicks, elapsedTotalTicks)
    }

    // init_task_stats
    method Init(now: Ticks)
      modifies this
      ensures View() == Fresh(now) && totalTrans == 0 && remainingTicks == now
    {
      blockedTicks, elapsedTotalTicks, readyTicks := 0, now, 0;
      remainingTicks, systemTicks, totalTrans, userTicks := now, 0, 0, 0;
    }

    // update_stats on the named field and elapsed_total_ticks, for a reading of the clock
    method Update(f: Field, now: Ticks)
      modifies this
      ensures View() == Charged(old(View()), f, now)
      ensures totalTrans == old(totalTrans) && remainingTicks == old(remainingTicks)
    {
      var went := now - elapsedTotalTicks;
      match f {
        case User => userTicks := Word(userTicks + went);
        case System => systemTicks := Word(systemTicks + went);
        case Blocked => blockedTicks := Word(blockedTicks + went);
        case Ready => readyTicks := Word(readyTicks + went);
      }
      elapsedTotalTicks := now;
    }

    // The statistics part of copying one task structure over another.
    method CopyFrom(other: TaskStats)
      modifies this
      ensures View() == old(other.View())
    {
      userTicks, systemTicks, blockedTicks := other.userTicks, other.systemTicks, other.blockedTicks;
      readyTicks, elapsedTotalTicks := other.readyTicks, other.elapsedTotalTicks;
      totalTrans, remainingTicks := other.totalTrans, other.remainingTicks;
    }
  }

  // The time keeping of the kernel: everybody's struct stats, the clock and zeos_ticks.
  class TimeKeeper {
    const stats: seq<TaskStats>
    const clock: nat -> Ticks
    // How often the clock has been read.
    var readings: nat
    var zeosTicks: int
    // Whether cpu_idle has run; until then idle's stack leads there and not out of a trap.
    var idleStarted: bool
    ghost var spots: seq<Spot>
    ghost const footprint: set<object>

    ghost predicate Valid()
      reads this, footprint
    {
      && |stats| == NR_TASKS && this in footprint
      && (forall t :: 0 <= t < NR_TASKS ==> stats[t] in footprint)
      && (forall t, u :: 0 <= t < u < NR_TASKS ==> stats[t] != stats[u])
      && readings == |spots|
      && (forall t: Tid :: stats[t].View() == Booked(spots, clock)[t])
    }

    constructor (clock: nat -> Ticks)
      ensures Valid() && fresh(footprint) && this.clock == clock
      ensures spots == [] && !idleStarted && zeosTicks == 0
    {
      var s: seq<TaskStats> := [];
      for i := 0 to NR_TASKS
        invariant |s| == i
        invariant forall t :: 0 <= t < i ==> fresh(s[t]) && s[t].View() == Account(0, 0, 0, 0, 0)
        invariant forall t, u :: 0 <= t < u < i ==> s[t] != s[u]
      {
        var one := new TaskStats();
        s := s + [one];
      }
      stats, this.clock := s, clock;
      readings, spots, zeosTicks, idleStarted := 0, [], 0, false;
      var objects: set<object> := set o | o in s;
      footprint := {this} + objects;
      new;
      assert Stamped([], clock) == [];
    }

    // update_stats on a field of a task
    method Update(t: Tid, f: Field)
      requires Valid()
      modifies footprint
      ensures Valid() && spots == old(spots) + [To(t, f)]
      ensures idleStarted == old(idleStarted) && zeosTicks == old(zeosTicks)
    {
      BookedLast(spots, To(t, f), clock);
      stats[t].Update(f, clock(readings));
      readings := readings + 1;
      spots := spots + [To(t, f)];
    }

    // Copying the father's structure over the child's, then init_task_stats.
    method Make(father: Tid, t: Tid)
      requires Valid() && father != t
      modifies footprint
      ensures Valid() && spots == old(spots) + [Making(father, t)]
      ensures idleStarted == old(idleStarted) && zeosTicks == old(zeosTicks)
    {
      BookedLast(spots, Making(father, t), clock);
      stats[t].CopyFrom(stats[father]);
      stats[t].Init(clock(readings));
      readings := readings + 1;
      spots := spots + [Making(father, t)];
    }

    // init_task_stats for a task made at boot
    method Reset(t: Tid)
      requires Valid()
      modifies footprint
      ensures Valid() && spots == old(spots) + [Making(t, t)]
      ensures idleStarted == old(idleStarted) && zeosTicks == old(zeosTicks)
    {
      BookedLast(spots, Making(t, t), clock);
      stats[t].Init(clock(readings));
      readings := readings + 1;
      spots := spots + [Making(t, t)];
    }

    // zeos_ticks, a signed int
    method Tick()
      requires Valid()
      modifies this`zeosTicks
      ensures Valid() && zeosTicks == Signed(Word(old(zeosTicks) + 1))
    {
      zeosTicks := Signed(Word(zeosTicks + 1));
    }

    method StartIdle()
      requires Valid()
      modifies this`idleStarted
      ensures Valid() && idleStarted
    {
      idleStarted := true;
    }
  }
}
