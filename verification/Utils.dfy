/** The copy loops and the 64-by-32 division of utils.c. */
module Utils {
  import opened Params

  // ---------- copy_data ----------

  // Memory with the n bytes at start written over those at dest.
  function Moved(mem: seq<Byte>, start: nat, dest: nat, n: nat): (r: seq<Byte>)
    requires start + n <= |mem| && dest + n <= |mem|
    ensures |r| == |mem|
    ensures forall i :: 0 <= i < |r| ==>
              r[i] == if dest <= i < dest + n then mem[start + (i - dest)] else mem[i]
  {
    seq(|mem|, i requires 0 <= i < |mem| => if dest <= i < dest + n then mem[start + (i - dest)] else mem[i])
  }

  // Copying the next k bytes after the first n; no byte still to be read has been overwritten.
  lemma MovedStep(mem: seq<Byte>, start: nat, dest: nat, n: nat, k: nat)
    requires start + n + k <= |mem| && dest + n + k <= |mem|
    requires dest <= start || start + n + k <= dest
    ensures Moved(Moved(mem, start, dest, n), start + n, dest + n, k) == Moved(mem, start, dest, n + k)
  {
  }

  // *q = *p for double words: read whole, then written.
  method StoreWord(mem: array<Byte>, p: nat, q: nat)
    requires p + 4 <= mem.Length && q + 4 <= mem.Length
    modifies mem
    ensures mem[..] == Moved(old(mem[..]), p, q, 4)
  {
    var w0, w1, w2, w3 := mem[p], mem[p + 1], mem[p + 2], mem[p + 3];
    mem[q], mem[q + 1], mem[q + 2], mem[q + 3] := w0, w1, w2, w3;
  }

  // The next double word after n bytes have been moved.
  method CopyWord(mem: array<Byte>, start: nat, dest: nat, n: nat, ghost before: seq<Byte>)
    requires |before| == mem.Length && start + n + 4 <= mem.Length && dest + n + 4 <= mem.Length
    requires dest <= start || start + n + 4 <= dest
    requires mem[..] == Moved(before, start, dest, n)
    modifies mem
    ensures mem[..] == Moved(before, start, dest, n + 4)
  {
    StoreWord(mem, start + n, dest + n);
    MovedStep(before, start, dest, n, 4);
  }

  method CopyByte(mem: array<Byte>, start: nat, dest: nat, n: nat, ghost before: seq<Byte>)
    requires |before| == mem.Length && start + n + 1 <= mem.Length && dest + n + 1 <= mem.Length
    requires dest <= start || start + n + 1 <= dest
    requires mem[..] == Moved(before, start, dest, n)
    modifies mem
    ensures mem[..] == Moved(before, start, dest, n + 1)
  {
    mem[dest + n] := mem[start + n];
    assert mem[..] == Moved(old(mem[..]), start + n, dest + n, 1);
    MovedStep(before, start, dest, n, 1);
  }

  /**
   copy_data, and its twins copy_from_user and copy_to_user: 32-bit words while more than four
   bytes remain, then the last one to four bytes. For disjoint regions and for a destination at or
   below the source the effect is that of moving all bytes at once; a negative size copies nothing.
   */
  method CopyData(mem: array<Byte>, start: nat, dest: nat, size: int)
    requires size > 0 ==> start + size <= mem.Length && dest + size <= mem.Length
    requires dest <= start || start + size <= dest
    modifies mem
    ensures mem[..] == if size <= 0 then old(mem[..]) else Moved(old(mem[..]), start, dest, size)
  {
    ghost var before := mem[..];
    var n, left := 0, size;
    while left > 4
      invariant n + left == size && (size > 0 ==> left > 0) && Copied(before, mem[..], start, dest, size, n)
    {
      CopyWord(mem, start, dest, n, before);
      n, left := n + 4, left - 4;
    }
    while left > 0
      invariant n + left == size && (size > 0 ==> left >= 0) && Copied(before, mem[..], start, dest, size, n)
    {
      CopyByte(mem, start, dest, n, before);
      n, left := n + 1, left - 1;
    }
  }

  // The first n bytes have been copied.
  ghost predicate Copied(before: seq<Byte>, now: seq<Byte>, start: nat, dest: nat, size: int, n: nat)
  {
    if size <= 0 then n == 0 && now == before
    else
      && start + n <= |before| && dest + n <= |before|
      && now == Moved(before, start, dest, n)
  }

  // ---------- do_div ----------

  const WORD := 0x1_0000_0000

  // What the divl instruction does with a 64-bit dividend; it faults if the quotient overflows.
  function Divl(upper: nat, low: nat, base: nat): (r: (nat, nat))
    requires 0 < base && (upper * WORD + low) / base < WORD
  {
    ((upper * WORD + low) / base, (upper * WORD + low) % base)
  }

  lemma DivlDefined(upper: nat, low: nat, base: nat)
    requires upper < base && low < WORD
    ensures (upper * WORD + low) / base < WORD
  {
    var n := upper * WORD + low;
    assert n < base * WORD by {
      assert upper * WORD + WORD == (upper + 1) * WORD;
      MulMonotone(upper + 1, base, WORD);
    }
    DivBelow(n, base, WORD);
  }

  lemma MulMonotone(a: nat, b: nat, c: nat)
    requires a <= b
    ensures a * c <= b * c
  {
  }

  lemma DivBelow(n: nat, base: nat, q: nat)
    requires 0 < base && n < base * q
    ensures n / base < q
  {
    assert (n / base) * base <= n;
    if n / base >= q { MulMonotone(q, n / base, base); }
  }

  /**
   do_div divides high word and low word one after the other. Quotient and remainder are exact for
   every 64-bit dividend and every non-zero 32-bit base, and divl never faults.
   */
  method DoDiv(n: nat, base: nat) returns (quotient: nat, remainder: nat)
    requires n < WORD * WORD && 0 < base < WORD
    ensures n == quotient * base + remainder && remainder < base
    ensures quotient < WORD * WORD
  {
    var low, high := n % WORD, n / WORD;
    var upper := high;
    DivMod(high, base);
    if high != 0 {
      upper := high % base;
      high := high / base;
    }
    DivlDefined(upper, low, base);
    var (q, r) := Divl(upper, low, base);
    DivMod(upper * WORD + low, base);
    DoDivExact(n, base, high, upper, q, r);
    quotient, remainder := high * WORD + q, r;
  }

  lemma DivMod(a: nat, b: nat)
    requires 0 < b
    ensures a == (a / b) * b + a % b && a % b < b
  {
  }

  lemma DoDivExact(n: nat, base: nat, high: nat, upper: nat, q: nat, r: nat)
    requires 0 < base && n / WORD == high * base + upper && q < WORD
    requires upper * WORD + n % WORD == q * base + r && r < base
    ensures n == (high * WORD + q) * base + r
    ensures n < WORD * WORD ==> high * WORD + q < WORD * WORD
  {
  }

  const CYCLESPERTICK := 109000

  // get_ticks for a reading of the time stamp counter: the low word of the quotient.
  method GetTicks(tsc: nat) returns (ticks: nat)
    requires tsc < WORD * WORD
    ensures ticks == (tsc / CYCLESPERTICK) % WORD
  {
    var quotient, _ := DoDiv(tsc, CYCLESPERTICK);
    ticks := quotient % WORD;
  }
}
