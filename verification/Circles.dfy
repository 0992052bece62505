/**
 Circular doubly linked lists as values. Every list_head has an identity: the node in a task
 structure that of its task, the head of queue h the number -1 - h.
 */
module Circles {
  import opened Params
  import opened TaskQueues

  const NULL := -100

  // A snapshot of one of the two link fields of all structures.
  type Links = map<int, int>

  // The identity of the head of queue h.
  function Head(h: int): int { -1 - h }

  predicate IsId(x: int) { -NR_QUEUES <= x < NR_TASKS }

  ghost predicate Total(m: Links) { forall x :: IsId(x) ==> x in m }

  // ---------- One circle ----------

  ghost predicate NoDup(s: seq<int>) {
    forall i, j :: 0 <= i < j < |s| ==> s[i] != s[j]
  }

  function After(s: seq<int>, i: int): int
    requires 0 <= i < |s|
  {
    if i + 1 == |s| then s[0] else s[i + 1]
  }

  function Before(s: seq<int>, i: int): int
    requires 0 <= i < |s|
  {
    if i == 0 then s[|s| - 1] else s[i - 1]
  }

  // Following next visits s in order and comes back.
  ghost predicate Forward(next: Links, s: seq<int>) {
    && (forall i :: 0 <= i < |s| ==> s[i] in next)
    && forall i {:trigger next[s[i]]} :: 0 <= i < |s| ==> next[s[i]] == After(s, i)
  }

  // Following prev visits s the other way round.
  ghost predicate Backward(prev: Links, s: seq<int>) {
    && (forall i :: 0 <= i < |s| ==> s[i] in prev)
    && forall i {:trigger prev[s[i]]} :: 0 <= i < |s| ==> prev[s[i]] == Before(s, i)
  }

  function Splice<T>(s: seq<T>, k: nat, x: T): (r: seq<T>)
    requires k <= |s|
    ensures |r| == |s| + 1
    ensures forall i :: 0 <= i < |r| ==> r[i] == if i < k then s[i] else if i == k then x else s[i - 1]
  {
    s[..k] + [x] + s[k..]
  }

  function Bypass<T>(s: seq<T>, k: nat): (r: seq<T>)
    requires k < |s|
    ensures |r| == |s| - 1
    ensures forall i :: 0 <= i < |r| ==> r[i] == if i < k then s[i] else s[i + 1]
  {
    s[..k] + s[k + 1..]
  }

  // The stores of __list_add, putting x between s[k - 1] and what follows it.
  function Linking(next: Links, s: seq<int>, k: int, x: int): Links
    requires 1 <= k <= |s|
  {
    next[x := After(s, k - 1)][s[k - 1] := x]
  }

  function LinkingBack(prev: Links, s: seq<int>, k: int, x: int): Links
    requires 1 <= k <= |s|
  {
    prev[After(s, k - 1) := x][x := s[k - 1]]
  }

  // The stores of list_del on s[k].
  function Unlinking(next: Links, s: seq<int>, k: int): Links
    requires 1 <= k < |s|
  {
    next[s[k - 1] := After(s, k)][s[k] := NULL]
  }

  function UnlinkingBack(prev: Links, s: seq<int>, k: int): Links
    requires 1 <= k < |s|
  {
    prev[After(s, k) := s[k - 1]][s[k] := NULL]
  }

  /** The stores of __list_add splice a node into a circle. */
  lemma SplicedForward(next: Links, s: seq<int>, k: nat, x: int)
    requires NoDup(s) && x !in s && 1 <= k <= |s| && Forward(next, s)
    ensures Forward(Linking(next, s, k, x), Splice(s, k, x))
  {
    var s', next' := Splice(s, k, x), Linking(next, s, k, x);
    forall i | 0 <= i < |s'|
      ensures s'[i] in next' && next'[s'[i]] == After(s', i)
    {
      if i < k - 1 {
        assert next[s[i]] == After(s, i);
      } else if i > k {
        assert next[s[i - 1]] == After(s, i - 1);
      }
    }
  }

  lemma SplicedBackward(prev: Links, s: seq<int>, k: nat, x: int)
    requires NoDup(s) && x !in s && 1 <= k <= |s| && Backward(prev, s)
    ensures Backward(LinkingBack(prev, s, k, x), Splice(s, k, x))
  {
    var s', prev' := Splice(s, k, x), LinkingBack(prev, s, k, x);
    forall i | 0 <= i < |s'|
      ensures s'[i] in prev' && prev'[s'[i]] == Before(s', i)
    {
      if i < k {
        assert prev[s[i]] == Before(s, i);
      } else if i > k + 1 {
        assert prev[s[i - 1]] == Before(s, i - 1);
      }
    }
  }

  /** The stores of __list_del bypass a node; clearing its own links is not seen by the rest. */
  lemma BypassedForward(next: Links, s: seq<int>, k: nat)
    requires NoDup(s) && 1 <= k < |s| && Forward(next, s)
    ensures Forward(Unlinking(next, s, k), Bypass(s, k))
  {
    var s', next' := Bypass(s, k), Unlinking(next, s, k);
    forall i | 0 <= i < |s'|
      ensures s'[i] in next' && next'[s'[i]] == After(s', i)
    {
      if i < k - 1 {
        assert next[s[i]] == After(s, i);
      } else if i >= k {
        assert next[s[i + 1]] == After(s, i + 1);
      }
    }
  }

  lemma BypassedBackward(prev: Links, s: seq<int>, k: nat)
    requires NoDup(s) && 1 <= k < |s| && Backward(prev, s)
    ensures Backward(UnlinkingBack(prev, s, k), Bypass(s, k))
  {
    var s', prev' := Bypass(s, k), UnlinkingBack(prev, s, k);
    forall i | 0 <= i < |s'|
      ensures s'[i] in prev' && prev'[s'[i]] == Before(s', i)
    {
      if i < k {
        assert prev[s[i]] == Before(s, i);
      } else {
        assert prev[s[i + 1]] == Before(s, i + 1);
      }
    }
  }

  // ---------- All circles ----------

  // The circle of queue h: its head, then its tasks.
  function Circle(q: Queues, h: int): (s: seq<int>)
    requires 0 <= h < |q|
    ensures |s| == |q[h]| + 1 && s[0] == Head(h)
    ensures forall i :: 1 <= i < |s| ==> s[i] == q[h][i - 1]
  {
    var tasks: seq<int> := q[h];
    [Head(h)] + tasks
  }

  // Queue h is stored as a circle.
  ghost predicate Stored(next: Links, prev: Links, q: Queues, h: int)
    requires 0 <= h < |q|
  {
    Forward(next, Circle(q, h)) && Backward(prev, Circle(q, h))
  }

  // The first n queues are stored; a head with a null link stores the empty one.
  ghost predicate StoredUpTo(next: Links, prev: Links, q: Queues, n: nat)
    requires n <= |q| == NR_QUEUES && Total(next)
  {
    n == 0
    || (&& StoredUpTo(next, prev, q, n - 1)
        && if next[Head(n - 1)] != NULL then Stored(next, prev, q, n - 1) else q[n - 1] == [])
  }

  // The links store exactly these queues.
  ghost predicate Chained(next: Links, prev: Links, q: Queues) {
    |q| == NR_QUEUES && Once(q) && Total(next) && Total(prev) && StoredUpTo(next, prev, q, |q|)
  }

  lemma {:induction false} StoredAt(next: Links, prev: Links, q: Queues, n: nat, h: int)
    requires n <= |q| == NR_QUEUES && Total(next) && StoredUpTo(next, prev, q, n) && 0 <= h < n
    ensures if next[Head(h)] != NULL then Stored(next, prev, q, h) else q[h] == []
  {
    if h < n - 1 { StoredAt(next, prev, q, n - 1, h); }
  }

  lemma {:induction false} StoredFrom(next: Links, prev: Links, q: Queues, n: nat)
    requires n <= |q| == NR_QUEUES && Total(next)
    requires forall h :: 0 <= h < n ==>
               if next[Head(h)] != NULL then Stored(next, prev, q, h) else q[h] == []
    ensures StoredUpTo(next, prev, q, n)
  {
    if n == 0 {
    } else {
      StoredFrom(next, prev, q, n - 1);
    }
  }

  // Links that all lead nowhere.
  function NoLinks(): (m: Links)
    ensures Total(m) && forall x :: IsId(x) ==> m[x] == NULL
  {
    map x | -NR_QUEUES <= x < NR_TASKS && IsId(x) :: NULL
  }

  function NoQueues(): (q: Queues)
    ensures |q| == NR_QUEUES && forall h :: 0 <= h < NR_QUEUES ==> q[h] == []
  {
    seq(NR_QUEUES, h => [])
  }

  lemma NothingChained()
    ensures Chained(NoLinks(), NoLinks(), NoQueues())
  {
    StoredFrom(NoLinks(), NoLinks(), NoQueues(), |NoQueues()|);
  }

  // Which heads are initialised.
  ghost predicate SameHeads(next: Links, next': Links)
    requires Total(next) && Total(next')
  {
    forall h :: 0 <= h < NR_QUEUES ==> (next[Head(h)] != NULL <==> next'[Head(h)] != NULL)
  }

  lemma CircleNoDup(q: Queues, h: int)
    requires 0 <= h < |q| && Once(q)
    ensures NoDup(Circle(q, h))
  {
  }

  lemma CirclesApart(q: Queues, g: int, i: nat, h: int, j: nat)
    requires Once(q) && 0 <= g < |q| && 0 <= h < |q| && g != h && i <= |q[g]| && j <= |q[h]|
    ensures Circle(q, g)[i] != Circle(q, h)[j]
  {
  }

  lemma TaskOff(q: Queues, h: int, t: Tid)
    requires 0 <= h < |q| && t !in q[h]
    ensures t !in Circle(q, h)
  {
  }

  // A circle none of whose structures was written.
  lemma StillStored(next: Links, prev: Links, next': Links, prev': Links, q: Queues, q': Queues, g: int)
    requires 0 <= g < |q| == |q'| && q'[g] == q[g] && Stored(next, prev, q, g)
    requires forall i :: 0 <= i <= |q[g]| ==>
               var x := Circle(q, g)[i];
               x in next' && x in prev' && next'[x] == next[x] && prev'[x] == prev[x]
    ensures Stored(next', prev', q', g)
  {
    assert Circle(q', g) == Circle(q, g);
  }

  // ---------- Insertion ----------

  function Inserted(q: Queues, h: int, k: nat, t: Tid): Queues
    requires 0 <= h < |q| && k <= |q[h]|
  {
    q[h := Splice(q[h], k, t)]
  }

  lemma InsertedOnce(q: Queues, h: int, k: nat, t: Tid)
    requires 0 <= h < |q| && k <= |q[h]| && Once(q) && Unlinked(q, t)
    ensures Once(Inserted(q, h, k, t))
  {
  }

  lemma InsertedCircle(q: Queues, h: int, k: nat, t: Tid)
    requires 0 <= h < |q| && k <= |q[h]|
    ensures Circle(Inserted(q, h, k, t), h) == Splice(Circle(q, h), k + 1, t)
  {
    var c, s := Circle(Inserted(q, h, k, t), h), Splice(Circle(q, h), k + 1, t);
    forall i | 0 <= i < |c|
      ensures c[i] == s[i]
    {
      if i > 0 { assert c[i] == Splice(q[h], k, t)[i - 1]; }
    }
  }

  lemma InsertHere(next: Links, prev: Links, q: Queues, h: int, k: nat, t: Tid)
    requires Once(q) && Unlinked(q, t) && 0 <= h < |q| && k <= |q[h]| && Stored(next, prev, q, h)
    ensures var s := Circle(q, h);
            Stored(Linking(next, s, k + 1, t), LinkingBack(prev, s, k + 1, t), Inserted(q, h, k, t), h)
  {
    var s := Circle(q, h);
    CircleNoDup(q, h);
    TaskOff(q, h, t);
    SplicedForward(next, s, k + 1, t);
    SplicedBackward(prev, s, k + 1, t);
    InsertedCircle(q, h, k, t);
  }

  // Links that differ only at elements of circle h and at a task in no circle but h.
  lemma UnwrittenCircle(next: Links, prev: Links, next': Links, prev': Links, q: Queues, q': Queues,
                        h: int, g: int, t: Tid)
    requires Once(q) && 0 <= h < |q| && 0 <= g < |q| == |q'| && g != h && q'[g] == q[g]
    requires t !in q[g]
    requires forall x :: x in next && x != t && x !in Circle(q, h) ==> x in next' && next'[x] == next[x]
    requires forall x :: x in prev && x != t && x !in Circle(q, h) ==> x in prev' && prev'[x] == prev[x]
    requires Stored(next, prev, q, g)
    ensures Stored(next', prev', q', g)
  {
    TaskOff(q, g, t);
    forall i | 0 <= i <= |q[g]|
      ensures var x := Circle(q, g)[i];
              x in next' && x in prev' && next'[x] == next[x] && prev'[x] == prev[x]
    {
      ElementOff(q, g, i, h);
    }
    StillStored(next, prev, next', prev', q, q', g);
  }

  lemma ElementOff(q: Queues, g: int, i: nat, h: int)
    requires Once(q) && 0 <= g < |q| && 0 <= h < |q| && g != h && i <= |q[g]|
    ensures Circle(q, g)[i] !in Circle(q, h)
  {
    forall j | 0 <= j <= |q[h]|
      ensures Circle(q, g)[i] != Circle(q, h)[j]
    {
      CirclesApart(q, g, i, h, j);
    }
  }

  // Links in which every head but that of h is as it was, and every circle but h is unwritten.
  lemma ChainedFrom(next: Links, prev: Links, next': Links, prev': Links, q: Queues, q': Queues,
                    h: int, t: Tid)
    requires Chained(next, prev, q) && Total(next') && Total(prev')
    requires 0 <= h < NR_QUEUES && |q'| == NR_QUEUES && Once(q')
    requires t in q[h] || Unlinked(q, t)
    requires forall g :: 0 <= g < NR_QUEUES && g != h ==> q'[g] == q[g]
    requires forall x :: x in next && x != t && x !in Circle(q, h) ==> x in next' && next'[x] == next[x]
    requires forall x :: x in prev && x != t && x !in Circle(q, h) ==> x in prev' && prev'[x] == prev[x]
    requires next[Head(h)] != NULL && next'[Head(h)] != NULL && Stored(next', prev', q', h)
    ensures Chained(next', prev', q') && SameHeads(next, next')
  {
    forall g | 0 <= g < NR_QUEUES && g != h
      ensures next'[Head(g)] == next[Head(g)]
      ensures if next'[Head(g)] != NULL then Stored(next', prev', q', g) else q'[g] == []
    {
      StoredAt(next, prev, q, |q|, g);
      ElementOff(q, g, 0, h);
      OffOthers(q, h, t, g);
      if next[Head(g)] != NULL { UnwrittenCircle(next, prev, next', prev', q, q', h, g, t); }
    }
    StoredFrom(next', prev', q', |q'|);
  }

  lemma OffOthers(q: Queues, h: int, t: Tid, g: int)
    requires Once(q) && 0 <= h < |q| && 0 <= g < |q| && g != h
    requires t in q[h] || Unlinked(q, t)
    ensures t !in q[g]
  {
  }

  /** Splicing a task into one list makes its queue longer there and leaves all others alone. */
  lemma InsertChained(next: Links, prev: Links, q: Queues, h: int, k: nat, t: Tid)
    requires Chained(next, prev, q) && Unlinked(q, t)
    requires 0 <= h < NR_QUEUES && k <= |q[h]| && next[Head(h)] != NULL
    ensures var s := Circle(q, h);
            var next' := Linking(next, s, k + 1, t);
            && Chained(next', LinkingBack(prev, s, k + 1, t), Inserted(q, h, k, t))
            && SameHeads(next, next')
  {
    var s := Circle(q, h);
    StoredAt(next, prev, q, |q|, h);
    InsertedOnce(q, h, k, t);
    InsertHere(next, prev, q, h, k, t);
    ChainedFrom(next, prev, Linking(next, s, k + 1, t), LinkingBack(prev, s, k + 1, t),
                q, Inserted(q, h, k, t), h, t);
  }

  // ---------- Removal ----------

  function Removed(q: Queues, h: int, k: nat): Queues
    requires 0 <= h < |q| && k < |q[h]|
  {
    q[h := Bypass(q[h], k)]
  }

  lemma RemovedOnce(q: Queues, h: int, k: nat)
    requires 0 <= h < |q| && k < |q[h]| && Once(q)
    ensures Once(Removed(q, h, k)) && Unlinked(Removed(q, h, k), q[h][k])
  {
  }

  lemma RemovedCircle(q: Queues, h: int, k: nat)
    requires 0 <= h < |q| && k < |q[h]|
    ensures Circle(Removed(q, h, k), h) == Bypass(Circle(q, h), k + 1)
  {
    var c, s := Circle(Removed(q, h, k), h), Bypass(Circle(q, h), k + 1);
    forall i | 0 <= i < |c|
      ensures c[i] == s[i]
    {
      if i > 0 { assert c[i] == Bypass(q[h], k)[i - 1]; }
    }
  }

  lemma RemoveHere(next: Links, prev: Links, q: Queues, h: int, k: nat)
    requires Once(q) && 0 <= h < |q| && k < |q[h]| && Stored(next, prev, q, h)
    ensures var s := Circle(q, h);
            Stored(Unlinking(next, s, k + 1), UnlinkingBack(prev, s, k + 1), Removed(q, h, k), h)
  {
    var s := Circle(q, h);
    CircleNoDup(q, h);
    BypassedForward(next, s, k + 1);
    BypassedBackward(prev, s, k + 1);
    RemovedCircle(q, h, k);
  }

  /** list_del takes a task out of whichever list holds it, at any position, and no other. */
  lemma RemoveChained(next: Links, prev: Links, q: Queues, h: int, k: nat)
    requires Chained(next, prev, q) && 0 <= h < NR_QUEUES && k < |q[h]|
    ensures var s := Circle(q, h);
            var next' := Unlinking(next, s, k + 1);
            && Chained(next', UnlinkingBack(prev, s, k + 1), Removed(q, h, k))
            && SameHeads(next, next')
  {
    var s := Circle(q, h);
    StoredAt(next, prev, q, |q|, h);
    CircleNoDup(q, h);
    RemovedOnce(q, h, k);
    RemoveHere(next, prev, q, h, k);
    ChainedFrom(next, prev, Unlinking(next, s, k + 1), UnlinkingBack(prev, s, k + 1),
                q, Removed(q, h, k), h, q[h][k]);
  }

  // ---------- Other writes ----------

  lemma {:induction false} InitChained(next: Links, prev: Links, q: Queues, h: int)
    requires Chained(next, prev, q) && 0 <= h < NR_QUEUES
    ensures Chained(next[Head(h) := Head(h)], prev[Head(h) := Head(h)], q[h := []])
  {
    var next', prev', q' := next[Head(h) := Head(h)], prev[Head(h) := Head(h)], q[h := []];
    assert Circle(q', h) == [Head(h)];
    forall g | 0 <= g < NR_QUEUES && g != h && next'[Head(g)] != NULL
      ensures Stored(next', prev', q', g)
    {
      StoredAt(next, prev, q, |q|, g);
      assert forall i :: 0 <= i <= |q[g]| ==> Circle(q, g)[i] != Head(h);
      StillStored(next, prev, next', prev', q, q', g);
    }
    forall g | 0 <= g < NR_QUEUES && next'[Head(g)] == NULL
      ensures q'[g] == []
    {
      StoredAt(next, prev, q, |q|, g);
    }
    StoredFrom(next', prev', q', |q'|);
  }

  // The links of an unlinked task may hold anything.
  lemma CopyChained(next: Links, prev: Links, q: Queues, t: Tid, a: int, b: int)
    requires Chained(next, prev, q) && Unlinked(q, t)
    ensures Chained(next[t := a], prev[t := b], q)
  {
    forall g | 0 <= g < NR_QUEUES
      ensures if next[Head(g)] != NULL then Stored(next[t := a], prev[t := b], q, g) else q[g] == []
    {
      StoredAt(next, prev, q, |q|, g);
      TaskOff(q, g, t);
      if next[Head(g)] != NULL { StillStored(next, prev, next[t := a], prev[t := b], q, q, g); }
    }
    StoredFrom(next[t := a], prev[t := b], q, |q|);
  }

  // Where the links of a head and of a queued task lead.
  lemma HeadLinks(next: Links, prev: Links, q: Queues, h: int)
    requires Chained(next, prev, q) && 0 <= h < NR_QUEUES && next[Head(h)] != NULL
    ensures var s := Circle(q, h);
            && next[Head(h)] == After(s, 0) && prev[Head(h)] == s[|q[h]|]
            && After(s, |q[h]|) == Head(h)
            && (next[Head(h)] == Head(h) <==> q[h] == [])
            && (q[h] != [] ==> next[Head(h)] == q[h][0])
            && IsId(next[Head(h)]) && IsId(prev[Head(h)])
  {
    StoredAt(next, prev, q, |q|, h);
    var s := Circle(q, h);
    assert next[s[0]] == After(s, 0) && prev[s[0]] == Before(s, 0);
  }

  lemma TaskLinks(next: Links, prev: Links, q: Queues, h: int, k: nat)
    requires Chained(next, prev, q) && 0 <= h < NR_QUEUES && k < |q[h]|
    ensures var s, t := Circle(q, h), q[h][k];
            && next[t] == After(s, k + 1) && prev[t] == s[k]
            && IsId(next[t]) && IsId(prev[t]) && next[t] != t && prev[t] != t
  {
    StoredAt(next, prev, q, |q|, h);
    var s := Circle(q, h);
    CircleNoDup(q, h);
    assert next[s[k + 1]] == After(s, k + 1) && prev[s[k + 1]] == Before(s, k + 1);
  }
}
