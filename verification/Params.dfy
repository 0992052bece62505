/** Sizes, page numbers and error codes, as the headers of the kernel fix them. */
module Params {
  const NR_TASKS := 10
  const NR_SEMAPHORES := 20
  const QUANTUM := 300

  const TOTAL_PAGES := 1024
  const NUM_PAG_KERNEL := 256
  const NUM_PAG_CODE := 8
  const NUM_PAG_DATA := 20
  const PAG_LOG_INIT_CODE := 256
  const PAG_LOG_INIT_DATA := 264
  // First logical page after the data area; the heap grows from here.
  const HEAP_START := 284
  const PAGE_SIZE := 4096

  const RING_SIZE := 4096

  // The pages before and after the task array; where it lies among the kernel pages is the linker's
  // choice.
  type GuardPage = p: int | 1 <= p && p + NR_TASKS + 1 < NUM_PAG_KERNEL witness 1
  const GUARD_LOW: GuardPage
  const GUARD_HIGH := GUARD_LOW + NR_TASKS + 1

  const EAGAIN := 11
  const ENOMEM := 12
  const EFAULT := 14
  const ENAVAIL := 119

  // Position of a task in the task array.
  type Tid = t: int | 0 <= t < NR_TASKS

  type Byte = b: int | 0 <= b < 256

  // A 32-bit pattern read as a signed int.
  function Signed(x: int): int
    requires 0 <= x < 0x1_0000_0000
  {
    if x < 0x8000_0000 then x else x - 0x1_0000_0000
  }

  // What is left of a value in an unsigned 32-bit word.
  function Word(x: int): (w: int)
    ensures 0 <= w < 0x1_0000_0000
  {
    x % 0x1_0000_0000
  }

  // PH_PAGE of an address converted to int: an arithmetic shift right, so a floor.
  function PhPage(address: int): int {
    Signed(Word(address)) / PAGE_SIZE
  }

  /** An injective family of n values inside a set makes the set at least n large. */
  lemma {:induction false} InjectionBounds<T>(s: seq<T>, target: set<T>)
    requires forall i :: 0 <= i < |s| ==> s[i] in target
    requires forall i, j :: 0 <= i < j < |s| ==> s[i] != s[j]
    ensures |s| <= |target|
  {
    if s == [] {
    } else {
      var last := s[|s| - 1];
      InjectionBounds(s[..|s| - 1], target - {last});
    }
  }

  lemma Overwritten<T>(s: seq<T>, i: nat, a: T, b: T)
    requires i < |s|
    ensures s[i := a][i := b] == s[i := b]
  {
  }
}
