/** The task queues as sequences: what the lists of list.c stand for. */
module TaskQueues {
  import opened Params

  const FREE := 0
  const READY := 1
  const KEYBOARD := 2
  const NR_QUEUES := 23

  type Queues = seq<seq<Tid>>

  // list_add_tail
  function Append(q: Queues, h: int, t: Tid): Queues
    requires 0 <= h < |q|
  {
    q[h := q[h] + [t]]
  }

  // list_del of the first element
  function Pop(q: Queues, h: int): Queues
    requires 0 <= h < |q| && q[h] != []
  {
    q[h := q[h][1..]]
  }

  // No task is linked twice.
  ghost predicate Once(q: Queues) {
    forall h, i, g, j ::
      (0 <= h < |q| && 0 <= i < |q[h]| && 0 <= g < |q| && 0 <= j < |q[g]| && q[h][i] == q[g][j]) ==>
        h == g && i == j
  }

  ghost predicate Unlinked(q: Queues, t: Tid) {
    forall h :: 0 <= h < |q| ==> t !in q[h]
  }

  lemma OnceAppend(q: Queues, h: int, t: Tid)
    requires 0 <= h < |q| && Once(q) && Unlinked(q, t)
    ensures Once(Append(q, h, t))
    ensures forall u: Tid :: u != t && Unlinked(q, u) ==> Unlinked(Append(q, h, t), u)
  {
  }

  lemma OncePop(q: Queues, h: int)
    requires 0 <= h < |q| && q[h] != [] && Once(q)
    ensures Once(Pop(q, h)) && Unlinked(Pop(q, h), q[h][0])
    ensures forall u: Tid :: Unlinked(q, u) ==> Unlinked(Pop(q, h), u)
    ensures forall u: Tid, g :: 0 <= g < |q| && u != q[h][0] ==> (u in Pop(q, h)[g] <==> u in q[g])
  {
    var r := Pop(q, h);
    var t := q[h][0];
    assert forall i :: 0 <= i < |r[h]| ==> r[h][i] == q[h][i + 1];
    forall u: Tid | u != t
      ensures u in r[h] <==> u in q[h]
    {
      assert q[h] == [t] + r[h];
    }
  }
}
