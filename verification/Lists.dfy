/** The intrusive circular lists of list.c, rewired in place. */
module Lists {
  import opened Params
  import opened TaskQueues
  import opened Circles

  // struct list_head; id tells which one it is, so that list_entry finds the task around a node.
  class ListHead {
    var next: ListHead?
    var prev: ListHead?
    const id: int

    constructor (id: int)
      ensures this.id == id && next == null && prev == null
    {
      this.id := id;
      next, prev := null, null;
    }
  }

  // All list_head structures of the kernel: the queue heads and one node in every task structure.
  class ListSpace {
    const heads: seq<ListHead>
    const nodes: seq<ListHead>
    ghost const all: set<ListHead>
    // The link fields of all structures, and what the lists hold from first to last.
    ghost var next: Links
    ghost var prev: Links
    ghost var queues: Queues

    // The structure with a given identity.
    ghost function At(x: int): ListHead
      requires |heads| == NR_QUEUES && |nodes| == NR_TASKS && IsId(x)
    {
      if x < 0 then heads[-1 - x] else nodes[x]
    }

    static ghost function Ref(p: ListHead?): int { if p == null then NULL else p.id }

    ghost predicate Inside(p: ListHead?)
      requires |heads| == NR_QUEUES && |nodes| == NR_TASKS
    {
      p != null ==> IsId(p.id) && At(p.id) == p && p in all
    }

    // The ghost maps are the fields, and every link leads nowhere or to a structure of the kernel.
    ghost predicate Tied()
      reads this, all
    {
      && |heads| == NR_QUEUES && |nodes| == NR_TASKS && Total(next) && Total(prev)
      && (forall x {:trigger At(x)} :: IsId(x) ==> At(x) in all && At(x).id == x)
      && (forall x {:trigger next[x]} :: IsId(x) ==> next[x] == Ref(At(x).next) && Inside(At(x).next))
      && (forall x {:trigger prev[x]} :: IsId(x) ==> prev[x] == Ref(At(x).prev) && Inside(At(x).prev))
    }

    // A head never initialised holds null.
    ghost predicate Initialised(h: int)
      requires 0 <= h < NR_QUEUES && Total(next)
      reads this
    {
      next[Head(h)] != NULL
    }

    // Both links of a task are null.
    ghost predicate Loose(t: Tid)
      requires Total(next) && Total(prev)
      reads this
    {
      next[t] == NULL && prev[t] == NULL
    }

    ghost predicate Valid()
      reads this, all
      ensures Valid() ==> Total(next) && Total(prev) && |queues| == NR_QUEUES && Once(queues)
    {
      Tied() && Chained(next, prev, queues)
    }

    constructor ()
      ensures Valid() && fresh(all)
      ensures |queues| == NR_QUEUES && forall h :: 0 <= h < NR_QUEUES ==> queues[h] == []
      ensures forall h :: 0 <= h < NR_QUEUES ==> !Initialised(h)
    {
      hide NoLinks, NoQueues, Chained;
      NothingChained();
      var hs := NewHeads(-NR_QUEUES, NR_QUEUES + NR_TASKS);
      heads, nodes := Backwards(hs[..NR_QUEUES]), hs[NR_QUEUES..];
      all := set x | x in hs;
      next, prev, queues := NoLinks(), NoLinks(), NoQueues();
      new;
      forall x | IsId(x)
        ensures At(x) in all && At(x).id == x && At(x).next == null && At(x).prev == null
      {
        assert At(x) == hs[NR_QUEUES + x];
      }
    }

    static function Backwards(s: seq<ListHead>): (r: seq<ListHead>)
      ensures |r| == |s| && forall i :: 0 <= i < |r| ==> r[i] == s[|s| - 1 - i]
    {
      seq(|s|, i requires 0 <= i < |s| => s[|s| - 1 - i])
    }

    // n structures as static storage leaves them.
    static method NewHeads(first: int, n: nat) returns (hs: seq<ListHead>)
      ensures |hs| == n
      ensures forall i :: 0 <= i < n ==>
                fresh(hs[i]) && hs[i].next == null && hs[i].prev == null && hs[i].id == first + i
    {
      hs := [];
      for i := 0 to n
        invariant |hs| == i
        invariant forall j :: 0 <= j < i ==>
                    fresh(hs[j]) && hs[j].next == null && hs[j].prev == null && hs[j].id == first + j
      {
        var head := new ListHead(first + i);
        hs := hs + [head];
      }
    }

    // One store to a link field.
    method SetNext(x: ListHead, p: ListHead?)
      requires Tied() && Inside(x) && Inside(p)
      modifies x`next, this`next
      ensures Tied() && next == old(next)[x.id := Ref(p)]
    {
      x.next := p;
      next := next[x.id := Ref(p)];
    }

    method SetPrev(x: ListHead, p: ListHead?)
      requires Tied() && Inside(x) && Inside(p)
      modifies x`prev, this`prev
      ensures Tied() && prev == old(prev)[x.id := Ref(p)]
    {
      x.prev := p;
      prev := prev[x.id := Ref(p)];
    }

    // INIT_LIST_HEAD: whatever was linked is forgotten.
    method Init(h: int)
      requires Valid() && 0 <= h < NR_QUEUES
      modifies this, all
      ensures Valid() && queues == old(queues)[h := []]
      ensures forall g :: 0 <= g < NR_QUEUES ==> (Initialised(g) <==> g == h || old(Initialised(g)))
    {
      hide Chained, Once;
      assert At(Head(h)) == heads[h];
      InitChained(next, prev, queues, h);
      SetNext(heads[h], heads[h]);
      SetPrev(heads[h], heads[h]);
      queues := queues[h := []];
    }

    // list_empty
    method IsEmpty(h: int) returns (empty: bool)
      requires Valid() && 0 <= h < NR_QUEUES && Initialised(h)
      ensures empty <==> queues[h] == []
    {
      HeadLinks(next, prev, queues, h);
      assert At(Head(h)) == heads[h];
      empty := heads[h].next == heads[h];
    }

    // list_first, and list_entry from the node to the task around it
    method First(h: int) returns (t: Tid)
      requires Valid() && 0 <= h < NR_QUEUES && Initialised(h) && queues[h] != []
      ensures t == queues[h][0]
    {
      HeadLinks(next, prev, queues, h);
      assert At(Head(h)) == heads[h];
      var node := heads[h].next;
      t := node.id;
    }

    // __list_add
    method Between(node: ListHead, before: ListHead, after: ListHead)
      requires Tied() && Inside(node) && Inside(before) && Inside(after)
      modifies this`next, this`prev, node, before, after
      ensures Tied()
      ensures next == old(next)[node.id := after.id][before.id := node.id]
      ensures prev == old(prev)[after.id := node.id][node.id := before.id]
    {
      SetPrev(after, node);
      SetNext(node, after);
      SetPrev(node, before);
      SetNext(before, node);
    }

    // A task goes in between element k of circle h and the one after it.
    method Insert(t: Tid, before: ListHead, after: ListHead, ghost h: int, ghost k: nat)
      requires Valid() && 0 <= h < NR_QUEUES && Initialised(h) && Unlinked(queues, t)
      requires k <= |queues[h]| && Inside(before) && Inside(after)
      requires before.id == Circle(queues, h)[k] && after.id == After(Circle(queues, h), k)
      modifies this, all
      ensures Valid() && queues == Inserted(old(queues), h, k, t)
      ensures forall g :: 0 <= g < NR_QUEUES ==> (Initialised(g) <==> old(Initialised(g)))
    {
      hide Chained, Once;
      assert At(t) == nodes[t];
      InsertChained(next, prev, queues, h, k, t);
      Between(nodes[t], before, after);
      queues := Inserted(queues, h, k, t);
    }

    // list_add_tail
    method AddTail(t: Tid, h: int)
      requires Valid() && 0 <= h < NR_QUEUES && Initialised(h) && Unlinked(queues, t)
      modifies this, all
      ensures Valid() && queues == Append(old(queues), h, t)
      ensures forall g :: 0 <= g < NR_QUEUES ==> (Initialised(g) <==> old(Initialised(g)))
    {
      ghost var n := |queues[h]|;
      HeadLinks(next, prev, queues, h);
      assert At(Head(h)) == heads[h];
      assert Splice(queues[h], n, t) == queues[h] + [t];
      Insert(t, heads[h].prev, heads[h], h, n);
    }

    // list_add
    method Add(t: Tid, h: int)
      requires Valid() && 0 <= h < NR_QUEUES && Initialised(h) && Unlinked(queues, t)
      modifies this, all
      ensures Valid() && queues == old(queues)[h := [t] + old(queues)[h]]
      ensures forall g :: 0 <= g < NR_QUEUES ==> (Initialised(g) <==> old(Initialised(g)))
    {
      HeadLinks(next, prev, queues, h);
      assert At(Head(h)) == heads[h];
      assert Splice(queues[h], 0, t) == [t] + queues[h];
      Insert(t, heads[h], heads[h].next, h, 0);
    }

    // The stores of list_del: __list_del, then the entry's own links.
    method Clear(entry: ListHead, before: ListHead, after: ListHead)
      requires Tied() && Inside(entry) && Inside(before) && Inside(after)
      modifies this`next, this`prev, entry, before, after
      ensures Tied()
      ensures next == old(next)[before.id := after.id][entry.id := NULL]
      ensures prev == old(prev)[after.id := before.id][entry.id := NULL]
    {
      SetPrev(after, before);
      SetNext(before, after);
      SetNext(entry, null);
      SetPrev(entry, null);
    }

    // list_del: neither the list that holds the task nor the place is told.
    method Del(t: Tid, ghost h: int, ghost k: nat)
      requires Valid() && 0 <= h < NR_QUEUES && k < |queues[h]| && queues[h][k] == t
      modifies this, all
      ensures Valid() && queues == Removed(old(queues), h, k) && Unlinked(queues, t)
      ensures forall g :: 0 <= g < NR_QUEUES ==> (Initialised(g) <==> old(Initialised(g)))
      ensures Loose(t)
    {
      hide Chained, Once;
      assert At(t) == nodes[t];
      TaskLinks(next, prev, queues, h, k);
      RemoveChained(next, prev, queues, h, k);
      RemovedOnce(queues, h, k);
      var entry := nodes[t];
      Clear(entry, entry.prev, entry.next);
      queues := Removed(queues, h, k);
    }

    // sys.c:280-282 to the letter: the waiter is unlinked and then looked for after itself. Whoever
    // waits, what is found is no task at all, so the wake-up works only if nobody waits.
    method SignalledNode(h: int) returns (found: ListHead?)
      requires Valid() && 0 <= h < NR_QUEUES && Initialised(h) && queues[h] != []
      modifies this, all
      ensures Valid() && found == null && queues == Pop(old(queues), h)
      ensures forall g :: 0 <= g < NR_QUEUES ==> (Initialised(g) <==> old(Initialised(g)))
    {
      hide Chained;
      var t := First(h);
      assert Bypass(queues[h], 0) == queues[h][1..];
      Del(t, h, 0);
      assert At(t) == nodes[t];
      found := nodes[t].next;
    }

    // What list_del reads and, once its stores through them are done, writes again.
    method NoNeighbours(t: Tid) returns (none: bool)
      requires Valid()
      ensures none <==> Loose(t)
    {
      assert At(t) == nodes[t];
      none := nodes[t].next == null && nodes[t].prev == null;
    }

    method Nullify(t: Tid)
      requires Valid() && Unlinked(queues, t)
      modifies this`next, this`prev, all
      ensures Valid() && Loose(t)
      ensures forall g :: 0 <= g < NR_QUEUES ==> (Initialised(g) <==> old(Initialised(g)))
    {
      hide Chained;
      assert At(t) == nodes[t];
      CopyChained(next, prev, queues, t, NULL, NULL);
      SetNext(nodes[t], null);
      SetPrev(nodes[t], null);
    }

    // The links of a task structure when another one is copied over it.
    method CopyLinks(from: Tid, to: Tid)
      requires Valid() && Unlinked(queues, to)
      modifies this`next, this`prev, all
      ensures Valid()
      ensures forall g :: 0 <= g < NR_QUEUES ==> (Initialised(g) <==> old(Initialised(g)))
    {
      assert At(from) == nodes[from] && At(to) == nodes[to];
      CopyChained(next, prev, queues, to, next[from], prev[from]);
      SetNext(nodes[to], nodes[from].next);
      SetPrev(nodes[to], nodes[from].prev);
    }
  }
}
