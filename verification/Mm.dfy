/** mm.c in place: the frame map, the page tables, physical memory and CR3. */
module Mm {
  import opened Params
  import opened Paging
  import opened AddressSpaces
  import opened Utils
  import Boot

  class MemoryManager {
    const physMem: array<bool>
    const pagusrTable: array2<Pte>
    const ram: array<Byte>
    var cr3: nat
    // The same as a value, with the translations the processor may hold.
    ghost var m: Memory

    ghost predicate RamIs(bytes: seq<seq<Byte>>)
      reads ram
    {
      && ram.Length == TOTAL_PAGES * PAGE_SIZE && |bytes| == TOTAL_PAGES
      && forall f :: 0 <= f < TOTAL_PAGES ==> ram[f * PAGE_SIZE..(f + 1) * PAGE_SIZE] == bytes[f]
    }

    ghost predicate Valid()
      reads this, physMem, pagusrTable, ram
      ensures Valid() ==> Shaped(m)
    {
      && Shaped(m)
      && physMem.Length == TOTAL_PAGES && physMem[..] == m.phys
      && pagusrTable.Length0 == NR_TASKS && pagusrTable.Length1 == TOTAL_PAGES
      && (forall d, p :: 0 <= d < NR_TASKS && 0 <= p < TOTAL_PAGES ==> pagusrTable[d, p] == m.tables[d][p])
      && RamIs(m.bytes)
      && cr3 == m.cr3
    }

    // ---------- Boot ----------

    // init_mm: the first allocate_DIR finds directory 0.
    constructor ()
      ensures Valid() && m == Boot.BareMemory(m.bytes)
      ensures fresh(physMem) && fresh(pagusrTable) && fresh(ram)
    {
      physMem := new bool[TOTAL_PAGES](_ => false);
      pagusrTable := new Pte[NR_TASKS, TOTAL_PAGES]((_, _) => ZERO);
      ram := new Byte[TOTAL_PAGES * PAGE_SIZE](_ => 0);
      cr3 := 0;
      m := Memory(seq(TOTAL_PAGES, _ => false), seq(NR_TASKS, _ => seq(TOTAL_PAGES, _ => ZERO)),
                  seq(TOTAL_PAGES, _ => seq(PAGE_SIZE, _ => 0)), 0, {});
      new;
      InitTablePages();
      InitFrames();
      WriteCr3(0);
      assert m.tables == Boot.BareMemory(m.bytes).tables;
    }

    // init_frames
    method InitFrames()
      requires Valid()
      modifies this`m, physMem
      ensures Valid() && m == old(m).(phys := BootFrames())
    {
      var i := 0;
      while i < TOTAL_PAGES
        invariant 0 <= i <= TOTAL_PAGES
        invariant forall f :: 0 <= f < i ==> !physMem[f]
        modifies physMem
      {
        physMem[i] := false;
        i := i + 1;
      }
      i := 0;
      while i < NUM_PAG_KERNEL
        invariant 0 <= i <= NUM_PAG_KERNEL
        invariant forall f :: 0 <= f < TOTAL_PAGES ==> physMem[f] == (f < i)
        modifies physMem
      {
        physMem[i] := true;
        i := i + 1;
      }
      m := m.(phys := BootFrames());
    }

    // init_table_pages
    method InitTablePages()
      requires Valid()
      modifies this`m, pagusrTable
      ensures Valid() && m == old(m).(tables := m.tables)
      ensures forall d :: 0 <= d < NR_TASKS ==> m.tables[d] == KernelTable()
    {
      var d := 0;
      while d < NR_TASKS
        invariant 0 <= d <= NR_TASKS
        invariant forall e, p :: 0 <= e < d && 0 <= p < TOTAL_PAGES ==> pagusrTable[e, p] == KernelTable()[p]
        modifies pagusrTable
      {
        InitTable(d);
        d := d + 1;
      }
      m := m.(tables := seq(NR_TASKS, _ => KernelTable()));
    }

    method InitTable(d: nat)
      requires d < pagusrTable.Length0 && pagusrTable.Length1 == TOTAL_PAGES
      modifies pagusrTable
      ensures forall p :: 0 <= p < TOTAL_PAGES ==> pagusrTable[d, p] == KernelTable()[p]
      ensures forall e, p :: 0 <= e < pagusrTable.Length0 && e != d && 0 <= p < TOTAL_PAGES ==>
                pagusrTable[e, p] == old(pagusrTable[e, p])
    {
      var i := 0;
      while i < TOTAL_PAGES
        invariant 0 <= i <= TOTAL_PAGES
        invariant forall p :: 0 <= p < i ==> pagusrTable[d, p] == ZERO
        invariant forall e, p :: 0 <= e < pagusrTable.Length0 && e != d && 0 <= p < TOTAL_PAGES ==>
                    pagusrTable[e, p] == old(pagusrTable[e, p])
      {
        pagusrTable[d, i] := ZERO;
        i := i + 1;
      }
      i := 1;
      while i < NUM_PAG_KERNEL
        invariant 1 <= i <= NUM_PAG_KERNEL
        invariant forall p :: 0 <= p < TOTAL_PAGES ==>
                    pagusrTable[d, p] == if 1 <= p < i then Pte(p, true, false, true) else ZERO
        invariant forall e, p :: 0 <= e < pagusrTable.Length0 && e != d && 0 <= p < TOTAL_PAGES ==>
                    pagusrTable[e, p] == old(pagusrTable[e, p])
      {
        pagusrTable[d, i] := Pte(i, true, false, true);
        i := i + 1;
      }
      pagusrTable[d, GUARD_LOW] := pagusrTable[d, GUARD_LOW].(present := false);
      pagusrTable[d, GUARD_HIGH] := pagusrTable[d, GUARD_HIGH].(present := false);
    }

    // The first n of the user pages set_user_pages enters: code read-only, then data.
    static function UserPages(t: Table, frames: seq<nat>, n: nat): (r: Table)
      requires |t| == TOTAL_PAGES && n <= |frames|
      ensures |r| == TOTAL_PAGES
    {
      seq(TOTAL_PAGES, p requires 0 <= p < TOTAL_PAGES =>
        if PAG_LOG_INIT_CODE <= p < PAG_LOG_INIT_CODE + n
        then Pte(frames[p - PAG_LOG_INIT_CODE], true, true, p >= PAG_LOG_INIT_DATA)
        else t[p])
    }

    // One user page: the next free frame, entered at the next page.
    method SetUserPage(d: nat, i: nat, ghost before: Memory)
      requires Valid() && Shaped(before) && d < NR_TASKS && d != m.cr3 && i < NUM_PAG_CODE + NUM_PAG_DATA
      requires AllocN(before.phys, i + 1).Allocated? && UpTo(before, d, i)
      modifies this`m, physMem, pagusrTable
      ensures Valid() && UpTo(before, d, i + 1) && m.cr3 == old(m.cr3)
    {
      var frame := AllocFrame();
      var page := PAG_LOG_INIT_CODE + i;
      SetEntry(d, page, Pte(frame, true, true, page >= PAG_LOG_INIT_DATA));
      ghost var t := before.tables[d];
      assert UserPages(t, AllocN(before.phys, i).frames, i)[page := Pte(frame, true, true, page >= PAG_LOG_INIT_DATA)]
          == UserPages(t, AllocN(before.phys, i + 1).frames, i + 1);
    }

    // One of the two loops of set_user_pages: n pages from page i of the user image on.
    method SetUserRange(d: nat, i: nat, n: nat, ghost before: Memory)
      requires Valid() && Shaped(before) && d < NR_TASKS && d != m.cr3
      requires i + n <= NUM_PAG_CODE + NUM_PAG_DATA
      requires AllocN(before.phys, NUM_PAG_CODE + NUM_PAG_DATA).Allocated?
      requires UpTo(before, d, i)
      modifies this`m, physMem, pagusrTable
      ensures Valid() && UpTo(before, d, i + n) && m.cr3 == old(m.cr3)
    {
      hide MemoryManager.Valid, MemoryManager.UpTo;
      var pag := 0;
      while pag < n
        invariant 0 <= pag <= n && Valid() && m.cr3 == old(m.cr3)
        invariant UpTo(before, d, i + pag)
      {
        if AllocN(before.phys, i + pag + 1).NoFrame? {
          AllocMonotone(before.phys, i + pag + 1, NUM_PAG_CODE + NUM_PAG_DATA);
        }
        SetUserPage(d, i + pag, before);
        pag := pag + 1;
      }
    }

    // The first n user pages of directory d have been set since "before".
    ghost predicate UpTo(before: Memory, d: nat, n: nat)
      requires Shaped(before) && d < NR_TASKS
      reads this
    {
      var a := AllocN(before.phys, n);
      a.Allocated?
      && m == before.(phys := a.phys, tables := before.tables[d := UserPages(before.tables[d], a.frames, n)])
    }

    // set_user_pages, which takes for granted that there are frames enough
    method SetUserPages(d: nat)
      requires Valid() && d < NR_TASKS && d != m.cr3
      requires AllocN(m.phys, NUM_PAG_CODE + NUM_PAG_DATA).Allocated?
      modifies this`m, physMem, pagusrTable
      ensures Valid() && m == Boot.WithUser(old(m), d)
      ensures forall p :: PAG_LOG_INIT_CODE <= p < HEAP_START ==>
                var e := m.tables[d][p];
                && e.present && e.user && (e.rw <==> p >= PAG_LOG_INIT_DATA)
                && 0 <= e.frame < TOTAL_PAGES && !old(m.phys)[e.frame] && m.phys[e.frame]
    {
      ghost var o, total := m, NUM_PAG_CODE + NUM_PAG_DATA;
      assert UserPages(o.tables[d], [], 0) == o.tables[d];
      SetUserRange(d, 0, NUM_PAG_CODE, o);
      SetUserRange(d, NUM_PAG_CODE, NUM_PAG_DATA, o);
      AllUserPages(o.tables[d], AllocN(o.phys, total).frames);
      forall p | PAG_LOG_INIT_CODE <= p < HEAP_START
        ensures var e := m.tables[d][p];
                && e.present && e.user && (e.rw <==> p >= PAG_LOG_INIT_DATA)
                && 0 <= e.frame < TOTAL_PAGES && !o.phys[e.frame] && m.phys[e.frame]
      {
        Boot.UserEntries(o, d, p);
      }
    }

    lemma AllUserPages(t: Table, frames: seq<nat>)
      requires |t| == TOTAL_PAGES && |frames| == NUM_PAG_CODE + NUM_PAG_DATA
      ensures UserPages(t, frames, NUM_PAG_CODE + NUM_PAG_DATA) == UserTable(t, frames)
    {
      var a, b := UserPages(t, frames, NUM_PAG_CODE + NUM_PAG_DATA), UserTable(t, frames);
      forall p | 0 <= p < TOTAL_PAGES
        ensures a[p] == b[p]
      {
        if PAG_LOG_INIT_CODE <= p < PAG_LOG_INIT_DATA {
          assert b[p] == Pte(frames[p - PAG_LOG_INIT_CODE], true, true, false);
        } else if PAG_LOG_INIT_DATA <= p < HEAP_START {
          assert b[p] == Mapping(frames[p - PAG_LOG_INIT_CODE]);
        } else {
          assert b[p] == t[p];
        }
      }
    }

    // ---------- Frames ----------

    // alloc_frame
    method AllocFrame() returns (frame: int)
      requires Valid()
      modifies this`m, physMem
      ensures Valid()
      ensures var f := FirstFree(old(m.phys), NUM_PAG_KERNEL);
              if f == TOTAL_PAGES then frame == -1 && m == old(m)
              else frame == f && m == old(m).(phys := old(m.phys)[f := true])
    {
      var i := NUM_PAG_KERNEL;
      while i < TOTAL_PAGES
        invariant NUM_PAG_KERNEL <= i <= TOTAL_PAGES && i % 2 == 0
        invariant FirstFree(m.phys, i) == FirstFree(m.phys, NUM_PAG_KERNEL)
      {
        if !physMem[i] {
          physMem[i] := true;
          m := m.(phys := m.phys[i := true]);
          return i;
        }
        i := i + 2;
      }
      return -1;
    }

    // free_frame
    method FreeFrame(frame: nat)
      requires Valid()
      modifies this`m, physMem
      ensures Valid()
      ensures m == if Freeable(frame) then old(m).(phys := old(m.phys)[frame := false]) else old(m)
    {
      if frame > NUM_PAG_KERNEL && frame < TOTAL_PAGES {
        physMem[frame] := false;
        m := m.(phys := m.phys[frame := false]);
      }
    }

    /**
     The allocation loops of sys_fork and sys_sbrk. When a frame is missing they give back those
     obtained; since the first user frame is in use the strict bound of free_frame does no harm
     and the frame map is exactly as before.
     */
    method AllocFrames(n: nat) returns (ok: bool, frames: array<nat>)
      requires Valid() && CodeTaken(m)
      modifies this`m, physMem
      ensures Valid() && fresh(frames) && frames.Length == n
      ensures ok <==> AllocN(old(m.phys), n).Allocated?
      ensures if ok then m == old(m).(phys := AllocN(old(m.phys), n).phys)
                         && frames[..] == AllocN(old(m.phys), n).frames
              else m == old(m)
    {
      ghost var before := m;
      frames := new nat[n](_ => 0);
      var i := 0;
      while i < n
        invariant 0 <= i <= n && Valid()
        invariant AllocN(before.phys, i) == Allocated(m.phys, frames[..i])
        invariant m == before.(phys := m.phys)
      {
        var frame := AllocFrame();
        if frame < 0 {
          AllocMonotone(before.phys, i + 1, n);
          AllocTook(before.phys, i);
          RollBack(frames, i, before);
          return false, frames;
        }
        frames[i] := frame;
        assert frames[..i + 1] == frames[..i] + [frame];
        i := i + 1;
      }
      assert frames[..] == frames[..n];
      return true, frames;
    }

    method RollBack(frames: array<nat>, n: nat, ghost before: Memory)
      requires Valid() && n <= frames.Length
      requires Shaped(before) && CodeTaken(before) && Took(before.phys, m.phys, frames[..n])
      requires m == before.(phys := m.phys)
      modifies this`m, physMem
      ensures Valid() && m == before
    {
      ghost var taken := m.phys;
      var j := 0;
      while j < n
        invariant 0 <= j <= n && Valid() && m == before.(phys := m.phys)
        invariant forall f :: 0 <= f < TOTAL_PAGES ==> m.phys[f] == (before.phys[f] || f in frames[j..n])
      {
        ghost var was := m.phys;
        assert frames[..n][j] == frames[j];
        assert !before.phys[frames[j]] && Freeable(frames[j]) by {
          assert CodeFrame(NUM_PAG_KERNEL);
        }
        assert frames[j..n] == [frames[j]] + frames[j + 1..n];
        FreeFrame(frames[j]);
        forall f | 0 <= f < TOTAL_PAGES
          ensures m.phys[f] == (before.phys[f] || f in frames[j + 1..n])
        {
        }
        j := j + 1;
      }
      assert m.phys == before.phys;
    }

    // ---------- Page table entries ----------

    // What one store to an entry does; a new translation may be cached if the table is current.
    ghost function WithEntry(a: Memory, d: nat, p: nat, e: Pte): Memory
      requires Shaped(a) && d < NR_TASKS && p < TOTAL_PAGES
    {
      a.(tables := a.tables[d := a.tables[d][p := e]],
         tlb := if d == a.cr3 && e.present then a.tlb + {(p, e.frame)} else a.tlb)
    }

    method SetEntry(d: nat, p: nat, e: Pte)
      requires Valid() && d < NR_TASKS && p < TOTAL_PAGES
      modifies this`m, pagusrTable
      ensures Valid() && m == WithEntry(old(m), d, p, e)
    {
      pagusrTable[d, p] := e;
      m := WithEntry(m, d, p, e);
    }

    // set_ss_pag
    method SetSsPag(d: nat, p: nat, frame: nat)
      requires Valid() && d < NR_TASKS && p < TOTAL_PAGES
      modifies this`m, pagusrTable
      ensures Valid() && m == WithEntry(old(m), d, p, Mapping(frame))
    {
      SetEntry(d, p, Mapping(frame));
    }

    // del_ss_pag
    method DelSsPag(d: nat, p: nat)
      requires Valid() && d < NR_TASKS && p < TOTAL_PAGES
      modifies this`m, pagusrTable
      ensures Valid() && m == WithEntry(old(m), d, p, ZERO)
    {
      SetEntry(d, p, ZERO);
    }

    // get_frame
    method GetFrame(d: nat, p: nat) returns (frame: nat)
      requires Valid() && d < NR_TASKS && p < TOTAL_PAGES
      ensures frame == FrameAt(m, d, p)
    {
      frame := pagusrTable[d, p].frame;
    }

    // set_cr3
    method WriteCr3(d: nat)
      requires Valid() && d < NR_TASKS
      modifies this`m, this`cr3
      ensures Valid() && m == SetCr3(old(m), d)
    {
      cr3 := d;
      m := SetCr3(m, d);
    }

    // copy_data of one page to another, both addressed through the current table. No translation
    // but the table's own may be in use for either page.
    method CopyPage(from: nat, to: nat, ghost source: nat, ghost target: nat)
      requires Valid() && source < TOTAL_PAGES && target < TOTAL_PAGES
      requires Resolves(m, from, source) && Resolves(m, to, target)
      modifies this`m, ram
      ensures Valid() && m == old(m).(bytes := old(m.bytes)[target := old(m.bytes)[source]])
    {
      var s, t := pagusrTable[cr3, from].frame, pagusrTable[cr3, to].frame;
      ghost var bytes, before := m.bytes, ram[..];
      CopyData(ram, s * PAGE_SIZE, t * PAGE_SIZE, PAGE_SIZE);
      m := m.(bytes := bytes[t := bytes[s]]);
      forall f | 0 <= f < TOTAL_PAGES
        ensures ram[f * PAGE_SIZE..(f + 1) * PAGE_SIZE] == m.bytes[f]
      {
        PageOf(before, s, t, f);
        assert ram[f * PAGE_SIZE..(f + 1) * PAGE_SIZE] == ram[..][f * PAGE_SIZE..(f + 1) * PAGE_SIZE];
        assert before[f * PAGE_SIZE..(f + 1) * PAGE_SIZE] == bytes[f];
        assert before[s * PAGE_SIZE..(s + 1) * PAGE_SIZE] == bytes[s];
      }
    }

    lemma PageOf(mem: seq<Byte>, s: nat, t: nat, f: nat)
      requires |mem| == TOTAL_PAGES * PAGE_SIZE && s < TOTAL_PAGES && t < TOTAL_PAGES && f < TOTAL_PAGES
      ensures Moved(mem, s * PAGE_SIZE, t * PAGE_SIZE, PAGE_SIZE)[f * PAGE_SIZE..(f + 1) * PAGE_SIZE]
              == if f == t then mem[s * PAGE_SIZE..(s + 1) * PAGE_SIZE]
                 else mem[f * PAGE_SIZE..(f + 1) * PAGE_SIZE]
    {
    }

    // ---------- Address 0 ----------

    static function Cleared4(page: seq<Byte>, offset: nat): (r: seq<Byte>)
      ensures |r| == |page|
    {
      seq<Byte>(|page|, i requires 0 <= i < |page| => if offset <= i < offset + 4 then 0 else page[i])
    }

    // A zero word stored in a frame.
    method StoreZero(f: nat, offset: nat)
      requires Valid() && f < TOTAL_PAGES && offset + 4 <= PAGE_SIZE
      modifies this`m, ram
      ensures Valid() && m == old(m).(bytes := old(m.bytes)[f := Cleared4(old(m.bytes)[f], offset)])
    {
      ghost var bytes := m.bytes;
      var at := f * PAGE_SIZE + offset;
      ram[at], ram[at + 1], ram[at + 2], ram[at + 3] := 0, 0, 0, 0;
      m := m.(bytes := bytes[f := Cleared4(bytes[f], offset)]);
      forall g | 0 <= g < TOTAL_PAGES
        ensures ram[g * PAGE_SIZE..(g + 1) * PAGE_SIZE] == m.bytes[g]
      {
        assert old(ram[g * PAGE_SIZE..(g + 1) * PAGE_SIZE]) == bytes[g];
      }
    }

    // The stores of list_del with null links: at address 4 and at address 0, if page 0 is there.
    method StoreNulls() returns (ok: bool)
      requires Valid() && KernelMapped(m)
      modifies this`m, ram
      ensures Valid() && (ok <==> ZeroPage(old(m)))
      ensures m == if ok then NullStored(old(m)) else old(m)
    {
      var entry := pagusrTable[cr3, 0];
      if !entry.present { return false; }
      ghost var page := m.bytes[entry.frame];
      StoreZero(entry.frame, 4);
      StoreZero(entry.frame, 0);
      assert Cleared4(Cleared4(page, 4), 0) == Zeroed(page);
      return true;
    }

    // Whether an access to a page would fault.
    method IsPresent(p: nat) returns (present: bool)
      requires Valid() && p < TOTAL_PAGES
      ensures present <==> m.tables[m.cr3][p].present
    {
      present := pagusrTable[cr3, p].present;
    }

    // ---------- fork ----------

    // The father's frames in the first i pages of the child's table.
    static function Shared(father: Table, child: Table, i: nat): (t: Table)
      requires |father| == |child| == TOTAL_PAGES && i <= TOTAL_PAGES
      ensures |t| == TOTAL_PAGES
    {
      seq(TOTAL_PAGES, p requires 0 <= p < TOTAL_PAGES => if p < i then Mapping(father[p].frame) else child[p])
    }

    // The first i fresh frames in the data area of a table.
    static function Fresh(t: Table, frames: seq<nat>, i: nat): (r: Table)
      requires |t| == TOTAL_PAGES && i <= |frames| == NUM_PAG_DATA
      ensures |r| == TOTAL_PAGES
    {
      seq(TOTAL_PAGES, p requires 0 <= p < TOTAL_PAGES =>
        if PAG_LOG_INIT_DATA <= p < PAG_LOG_INIT_DATA + i then Mapping(frames[p - PAG_LOG_INIT_DATA]) else t[p])
    }

    lemma SharedThenFresh(father: Table, child: Table, frames: seq<nat>)
      requires |father| == |child| == TOTAL_PAGES && |frames| == NUM_PAG_DATA
      ensures Fresh(Shared(father, child, PAG_LOG_INIT_DATA), frames, NUM_PAG_DATA)
              == ChildTable(father, child, frames)
    {
    }

    // Kernel and code pages of the child: the father's frames.
    method SharePages(father: nat, child: nat)
      requires Valid() && father < NR_TASKS && child < NR_TASKS && father != child && m.cr3 == father
      modifies this`m, pagusrTable
      ensures Valid()
      ensures var o := old(m);
              m == o.(tables := o.tables[child := Shared(o.tables[father], o.tables[child], PAG_LOG_INIT_DATA)])
    {
      ghost var o := m;
      var i := 0;
      assert Shared(o.tables[father], o.tables[child], 0) == o.tables[child];
      while i < PAG_LOG_INIT_DATA
        invariant 0 <= i <= PAG_LOG_INIT_DATA && Valid()
        invariant m == o.(tables := o.tables[child := Shared(o.tables[father], o.tables[child], i)])
      {
        var frame := GetFrame(father, i);
        SetSsPag(child, i, frame);
        assert Shared(o.tables[father], o.tables[child], i)[i := Mapping(frame)]
            == Shared(o.tables[father], o.tables[child], i + 1);
        i := i + 1;
      }
    }

    // One turn of the copying loop of sys_fork: the child's frame is mapped at the scratch page,
    // filled, unmapped again, and the translation flushed.
    method CopyThrough(father: nat, child: nat, i: nat, frame: nat, scratch: nat)
      requires Valid() && Coherent(m) && m.cr3 == father && father < NR_TASKS && child < NR_TASKS
      requires father != child && i < NUM_PAG_DATA && HEAP_START <= scratch < TOTAL_PAGES
      requires frame < TOTAL_PAGES && m.tables[father][scratch] == ZERO
      requires m.tables[father][PAG_LOG_INIT_DATA + i].present
      requires FrameAt(m, father, PAG_LOG_INIT_DATA + i) < TOTAL_PAGES
      modifies this`m, this`cr3, pagusrTable, ram
      ensures Valid() && Coherent(m)
      ensures var o := old(m);
              var p := PAG_LOG_INIT_DATA + i;
              m == Memory(o.phys, o.tables[child := o.tables[child][p := Mapping(frame)]],
                          o.bytes[frame := o.bytes[FrameAt(o, father, p)]],
                          father, Translations(o.tables[father]))
    {
      ghost var o := m;
      var page := PAG_LOG_INIT_DATA + i;
      ghost var source := FrameAt(m, father, page);
      SetSsPag(child, page, frame);
      SetSsPag(father, scratch, frame);
      CopyPage(page, scratch, source, frame);
      DelSsPag(father, scratch);
      WriteCr3(father);
      assert m.tables[father] == o.tables[father];
    }

    // The copying loop: every data page of the father into its own fresh frame.
    method CopyDataPages(father: nat, child: nat, frames: array<nat>, scratch: nat)
      requires Valid() && Coherent(m) && m.cr3 == father && father < NR_TASKS && child < NR_TASKS
      requires father != child && HEAP_START <= scratch < TOTAL_PAGES && m.tables[father][scratch] == ZERO
      requires forall p :: PAG_LOG_INIT_DATA <= p < HEAP_START ==> m.tables[father][p].present
      requires InMemory(DataFrames(m.tables[father]))
      requires frames.Length == NUM_PAG_DATA && InMemory(frames[..])
      modifies this`m, this`cr3, pagusrTable, ram
      ensures Valid() && Coherent(m)
      ensures var o := old(m);
              m == Memory(o.phys, o.tables[child := Fresh(o.tables[child], frames[..], NUM_PAG_DATA)],
                          CopyPages(o.bytes, DataFrames(o.tables[father]), frames[..], NUM_PAG_DATA),
                          father, Translations(o.tables[father]))
    {
      ghost var o := m;
      ghost var from := DataFrames(o.tables[father]);
      var i := 0;
      assert Fresh(o.tables[child], frames[..], 0) == o.tables[child];
      while i < NUM_PAG_DATA
        invariant 0 <= i <= NUM_PAG_DATA && Valid() && Coherent(m)
        invariant m.phys == o.phys && m.cr3 == father
        invariant m.tables == o.tables[child := Fresh(o.tables[child], frames[..], i)]
        invariant m.bytes == CopyPages(o.bytes, from, frames[..], i)
        invariant i > 0 ==> m.tlb == Translations(o.tables[father])
      {
        assert frames[i] == frames[..][i];
        assert from[i] == FrameAt(m, father, PAG_LOG_INIT_DATA + i);
        CopyThrough(father, child, i, frames[i], scratch);
        assert Fresh(o.tables[child], frames[..], i)[PAG_LOG_INIT_DATA + i := Mapping(frames[i])]
            == Fresh(o.tables[child], frames[..], i + 1);
        i := i + 1;
      }
    }

    // The memory half of sys_fork.
    method BuildChild(father: nat, child: nat, frames: array<nat>, ghost before: Memory)
      requires Valid() && CanFork(before, father, child) && Coherent(before) && before.cr3 == father
      requires m == before.(phys := AllocN(before.phys, NUM_PAG_DATA).phys)
      requires frames.Length == NUM_PAG_DATA && frames[..] == AllocN(before.phys, NUM_PAG_DATA).frames
      modifies this`m, this`cr3, pagusrTable, ram
      ensures Valid() && m == Forked(before, father, child)
    {
      hide CopyPages, ChildTable, HeapsContiguous;
      AllocTook(before.phys, NUM_PAG_DATA);
      DataFramesInMemory(before, father);
      ghost var f, c := before.tables[father], before.tables[child];
      assert InMemory(DataFrames(f));
      SharePages(father, child);
      var scratch := FirstUnmapped(father, before);
      CopyDataPages(father, child, frames, scratch);
      DelSsPag(father, scratch);
      assert f[scratch := ZERO] == f;
      SharedThenFresh(f, c, frames[..]);
      assert m.tables == before.tables[child := ChildTable(f, c, frames[..])];
    }

    // The first unmapped page above the father's data area. There always is one, so it does not
    // matter that the test of sys.c:110 compares an unsigned with 0.
    method FirstUnmapped(father: nat, ghost before: Memory) returns (page: nat)
      requires Valid() && Sound(before) && father < NR_TASKS
      requires m.tables[father] == before.tables[father]
      ensures page == HeapTop(m.tables[father], HEAP_START) && page < TOTAL_PAGES
    {
      ScratchPageExists(before, father);
      page := HEAP_START;
      while pagusrTable[father, page] != ZERO
        invariant HEAP_START <= page < TOTAL_PAGES
        invariant HeapTop(m.tables[father], page) == HeapTop(m.tables[father], HEAP_START)
        decreases TOTAL_PAGES - page
      {
        page := page + 1;
      }
    }

    // ---------- exit ----------

    // Frame map and table after the first i data pages have been freed.
    static ghost function Freed(phys: seq<bool>, data: seq<nat>, i: nat): (r: seq<bool>)
      requires |phys| == TOTAL_PAGES && i <= |data|
      ensures |r| == TOTAL_PAGES
    {
      seq(TOTAL_PAGES, f requires 0 <= f < TOTAL_PAGES => phys[f] && !(Freeable(f) && f in data[..i]))
    }

    static ghost function Cleared(t: Table, i: nat): (r: Table)
      requires |t| == TOTAL_PAGES
      ensures |r| == TOTAL_PAGES
    {
      seq(TOTAL_PAGES, p requires 0 <= p < TOTAL_PAGES =>
        if PAG_LOG_INIT_DATA <= p < PAG_LOG_INIT_DATA + i then ZERO else t[p])
    }

    lemma FreedNext(phys: seq<bool>, data: seq<nat>, i: nat)
      requires |phys| == TOTAL_PAGES && i < |data|
      ensures Freed(phys, data, i + 1) ==
                if Freeable(data[i]) then Freed(phys, data, i)[data[i] := false] else Freed(phys, data, i)
    {
      assert data[..i + 1] == data[..i] + [data[i]];
    }

    // free_user_pages
    method ReleaseUserPages(d: nat)
      requires Valid() && d < NR_TASKS
      modifies this`m, physMem, pagusrTable
      ensures Valid() && m == FreeUserPages(old(m), d)
    {
      ghost var o := m;
      ghost var data := DataFrames(o.tables[d]);
      var i := 0;
      assert Freed(o.phys, data, 0) == o.phys && Cleared(o.tables[d], 0) == o.tables[d];
      while i < NUM_PAG_DATA
        invariant 0 <= i <= NUM_PAG_DATA && Valid()
        invariant m == o.(phys := Freed(o.phys, data, i), tables := o.tables[d := Cleared(o.tables[d], i)])
      {
        FreedNext(o.phys, data, i);
        FreeFrame(pagusrTable[d, PAG_LOG_INIT_DATA + i].frame);
        SetEntry(d, PAG_LOG_INIT_DATA + i, ZERO);
        assert Cleared(o.tables[d], i)[PAG_LOG_INIT_DATA + i := ZERO] == Cleared(o.tables[d], i + 1);
        i := i + 1;
      }
      assert data[..NUM_PAG_DATA] == data;
      assert m.phys == FreeUserPages(o, d).phys;
      assert m.tables[d] == ClearData(o.tables[d]);
    }

    // ---------- sbrk ----------

    // The search for unmapped logical pages.
    method FindSlots(d: nat, need: nat) returns (slots: array<nat>, found: nat)
      requires Valid() && d < NR_TASKS
      ensures fresh(slots) && found <= slots.Length == need
      ensures slots[..found] == FreeSlots(m.tables[d], HEAP_START, need)
    {
      ghost var t := m.tables[d];
      slots := new nat[need](_ => 0);
      found := 0;
      var i := HEAP_START;
      while i < TOTAL_PAGES && found != need
        invariant HEAP_START <= i <= TOTAL_PAGES && found <= need
        invariant slots[..found] + FreeSlots(t, i, need - found) == FreeSlots(t, HEAP_START, need)
        decreases TOTAL_PAGES - i
      {
        if pagusrTable[d, i] == ZERO {
          slots[found] := i;
          assert slots[..found + 1] == slots[..found] + [i];
          found := found + 1;
        }
        i := i + 1;
      }
      assert FreeSlots(t, i, need - found) == [];
    }

    ghost function Cached(slots: seq<nat>, frames: seq<nat>, n: nat): set<(nat, nat)>
      requires n <= |slots| && n <= |frames|
    {
      set i | 0 <= i < n :: (slots[i], frames[i])
    }

    // The allocating part of sys_sbrk; error is 0 on success.
    method GrowHeap(need: nat) returns (error: int)
      requires Valid() && CodeTaken(m)
      modifies this`m, physMem, pagusrTable
      ensures Valid()
      ensures match Grow(old(m), need)
              case Grown(n) => error == 0 && m == n
              case Refused(n, e) => error == e && e != 0 && m == n
    {
      ghost var o := m;
      var ok, frames := AllocFrames(need);
      if !ok { return -ENOMEM; }
      var slots, found := FindSlots(cr3, need);
      if found != need { return -EAGAIN; }
      assert slots[..need] == slots[..];
      EnterAll(slots, frames, need);
      return 0;
    }

    method EnterAll(slots: array<nat>, frames: array<nat>, need: nat)
      requires Valid() && slots.Length == frames.Length == need
      requires forall i :: 0 <= i < need ==> slots[..][i] < TOTAL_PAGES
      modifies this`m, pagusrTable
      ensures Valid()
      ensures var o := old(m);
              m == o.(tables := o.tables[o.cr3 := Enter(o.tables[o.cr3], slots[..], frames[..], need)],
                      tlb := o.tlb + Cached(slots[..], frames[..], need))
    {
      ghost var o := m;
      var i := 0;
      assert o.tables[o.cr3 := o.tables[o.cr3]] == o.tables;
      assert o.tlb + Cached(slots[..], frames[..], 0) == o.tlb;
      while i < need
        invariant 0 <= i <= need && Valid()
        invariant m == o.(tables := o.tables[o.cr3 := Enter(o.tables[o.cr3], slots[..], frames[..], i)],
                          tlb := o.tlb + Cached(slots[..], frames[..], i))
      {
        assert slots[i] == slots[..][i] && frames[i] == frames[..][i];
        SetSsPag(cr3, slots[i], frames[i]);
        assert Cached(slots[..], frames[..], i + 1)
            == Cached(slots[..], frames[..], i) + {(slots[..][i], frames[..][i])};
        i := i + 1;
      }
    }
  }
}
