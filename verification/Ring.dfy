/** The keyboard ring of circular_buffer.c. */
module Ring {
  import opened Params

  // The cells from tail up to head, wrapping around.
  function Window(cells: seq<Byte>, tail: nat, head: nat): (w: seq<Byte>)
    requires tail < |cells| && head < |cells|
    ensures |w| == if tail <= head then head - tail else |cells| - tail + head
    ensures forall i :: 0 <= i < |w| ==> w[i] == cells[Cell(tail, i, |cells|)]
  {
    if tail <= head then cells[tail..head] else cells[tail..] + cells[..head]
  }

  // The cell i places after tail.
  function Cell(tail: nat, i: nat, size: nat): nat { if tail + i < size then tail + i else tail + i - size }

  function Succ(i: nat, size: nat): nat { if i + 1 == size then 0 else i + 1 }

  lemma SuccIsMod(i: nat, size: nat)
    requires i < size
    ensures (i + 1) % size == Succ(i, size)
  {
    if i + 1 < size { assert (i + 1) / size == 0; }
  }

  /** Writing at head and moving it appends, unless the ring is full. */
  lemma WindowPut(cells: seq<Byte>, tail: nat, head: nat, b: Byte)
    requires tail < |cells| && head < |cells| && Succ(head, |cells|) != tail
    ensures Window(cells[head := b], tail, Succ(head, |cells|)) == Window(cells, tail, head) + [b]
  {
    var w, r := Window(cells, tail, head), Window(cells[head := b], tail, Succ(head, |cells|));
    forall i | 0 <= i < |r|
      ensures r[i] == (w + [b])[i]
    {
      assert r[i] == cells[head := b][Cell(tail, i, |cells|)];
    }
  }

  /** Moving tail drops the first element. */
  lemma WindowGet(cells: seq<Byte>, tail: nat, head: nat)
    requires tail < |cells| && head < |cells| && head != tail
    ensures Window(cells, tail, head) == [cells[tail]] + Window(cells, Succ(tail, |cells|), head)
  {
    var w, r := Window(cells, tail, head), Window(cells, Succ(tail, |cells|), head);
    forall i | 0 <= i < |w|
      ensures w[i] == ([cells[tail]] + r)[i]
    {
      assert w[i] == cells[Cell(tail, i, |cells|)];
    }
  }

  /** One cell always stays free, and the two boundary tests are about the number of elements. */
  lemma WindowBounds(cells: seq<Byte>, tail: nat, head: nat)
    requires tail < |cells| && head < |cells|
    ensures |Window(cells, tail, head)| < |cells|
    ensures head == tail <==> Window(cells, tail, head) == []
    ensures (head + 1) % |cells| == tail <==> |Window(cells, tail, head)| == |cells| - 1
  {
    SuccIsMod(head, |cells|);
  }

  class CircularBuffer {
    var head: nat
    var tail: nat
    var size: nat
    var numElem: int
    const buffer: array<Byte>

    // Head and tail are cells of the buffer.
    ghost predicate InBounds()
      reads this
    {
      size == buffer.Length && head < size && tail < size
    }

    ghost function Contents(): (s: seq<Byte>)
      requires InBounds()
      reads this, buffer
    {
      Window(buffer[..], tail, head)
    }

    // The separately kept counter is right.
    ghost predicate Valid()
      reads this, buffer
      ensures Valid() ==> InBounds()
    {
      InBounds() && numElem == |Contents()|
    }

    // The storage is owned here; in circular_buffer.c:5-10 it is a local of the initialiser.
    constructor (size: nat)
      requires size > 0
      ensures Valid() && this.size == size && Contents() == [] && fresh(buffer)
    {
      buffer := new Byte[size](_ => 0);
      this.size := size;
      head, tail, numElem := 0, 0, 0;
    }

    // circular_buffer_reset leaves the counter alone, so it is right afterwards only if it was 0.
    method Reset()
      requires Valid()
      modifies this`head, this`tail
      ensures InBounds() && Contents() == []
      ensures Valid() <==> old(Contents()) == []
    {
      head, tail := 0, 0;
    }

    method IsEmpty() returns (empty: bool)
      requires Valid()
      ensures empty <==> Contents() == []
    {
      WindowBounds(buffer[..], tail, head);
      empty := head == tail;
    }

    method IsFull() returns (full: bool)
      requires Valid()
      ensures full <==> |Contents()| == size - 1
    {
      WindowBounds(buffer[..], tail, head);
      full := (head + 1) % size == tail;
    }

    method NumElems() returns (n: int)
      requires Valid()
      ensures n == |Contents()|
    {
      n := numElem;
    }

    method Put(data: Byte) returns (ret: int)
      requires Valid()
      modifies this`head, this`numElem, buffer
      ensures Valid()
      ensures if |old(Contents())| == size - 1 then ret == -1 && Contents() == old(Contents())
              else ret == 0 && Contents() == old(Contents()) + [data]
    {
      var full := IsFull();
      if full { return -1; }
      WindowBounds(buffer[..], tail, head);
      SuccIsMod(head, size);
      WindowPut(buffer[..], tail, head, data);
      ghost var cells := buffer[..];
      buffer[head] := data;
      assert buffer[..] == cells[head := data];
      head := (head + 1) % size;
      numElem := numElem + 1;
      return 0;
    }

    method Read() returns (ret: int, data: Byte)
      requires Valid()
      modifies this`tail, this`numElem
      ensures Valid()
      ensures if old(Contents()) == [] then ret == -1 && Contents() == []
              else ret == 0 && old(Contents()) == [data] + Contents()
    {
      data := 0;
      var empty := IsEmpty();
      if empty { return -1, data; }
      SuccIsMod(tail, size);
      WindowGet(buffer[..], tail, head);
      data := buffer[tail];
      tail := (tail + 1) % size;
      numElem := numElem - 1;
      return 0, data;
    }
  }
}
