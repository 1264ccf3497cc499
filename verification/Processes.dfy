/** The process table in memory: creating, yielding and exiting, with one address space for each process. */
module Processes {
  import opened Arithmetic
  import opened Buddy
  import opened Hardware
  import opened Images
  import opened Memories
  import opened PageEntries
  import opened PageTrees
  import opened Paging
  import opened Scheduler
  import opened Sv39
  import opened TrapContext
  import opened Wrappers
  import Bits

  /** Every used slot has an address space of its own, with its image in it. */
  ghost predicate SlotsOk(s: Space, ps: Procs, spaces: map<nat, UserSpace>, kernelBase: nat, end: nat) {
    && (forall p :: 0 <= p < |ps| && ps[p].status != Unused ==>
          p in spaces && Finished(s, ps[p].pageTable, kernelBase, end, spaces[p]))
    && (forall p, q :: 0 <= p < q < |ps| && ps[p].status != Unused && ps[q].status != Unused ==>
        ps[p].pageTable != ps[q].pageTable)
  }

  lemma SlotsNext(s: Space, t: Space, ps: Procs, spaces: map<nat, UserSpace>, kernelBase: nat, end: nat, i: nat,
                  proc: Process, u: UserSpace)
    requires SlotsOk(s, ps, spaces, kernelBase, end) && i < |ps| && ps[i].status == Unused
    requires Kept(s, t, proc.pageTable) && proc.pageTable !in s.frames
    requires Finished(t, proc.pageTable, kernelBase, end, u)
    ensures SlotsOk(t, ps[i := proc], spaces[i := u], kernelBase, end)
  {
    forall p | 0 <= p < |ps| && ps[p].status != Unused
      ensures Finished(t, ps[p].pageTable, kernelBase, end, spaces[p])
      ensures ps[p].pageTable != proc.pageTable
    {
      FinishedKept(s, t, proc.pageTable, ps[p].pageTable, kernelBase, end, spaces[p]);
    }
  }

  lemma SlotChanged(s: Space, ps: Procs, spaces: map<nat, UserSpace>, kernelBase: nat, end: nat, i: nat, proc: Process)
    requires SlotsOk(s, ps, spaces, kernelBase, end) && i < |ps|
    requires proc.pageTable == ps[i].pageTable && (proc.status == Unused <==> ps[i].status == Unused)
    ensures SlotsOk(s, ps[i := proc], spaces, kernelBase, end)
  {
  }

  lemma DemandMet(s: Space, t: Space, root: nat, kernelBase: nat, end: nat, size: nat, pages: Pages, fs: seq<nat>)
    requires Progress(s, t, root, pages, 1 + |fs|) && |fs| == PageCount(size)
    requires pages == KernelPages(kernelBase, end) + DevicePages(DEVICES) + UserPages(fs)
    ensures t.room + PAGE * Demand(kernelBase, end, size) == s.room
  {
    assert UserPages(fs).Keys == UserVpns(size);
    assert pages.Keys == AllVpns(kernelBase, end, size);
  }

  /** A leaf entry that gives user mode access. */
  predicate UserAccess(pte: nat) {
    Has(pte, PAGE_U)
  }

  lemma NotForUser(v: nat)
    ensures !UserAccess(LeafPte(v * PAGE, KERNEL_FLAGS)) && !UserAccess(LeafPte(v * PAGE, DEVICE_FLAGS))
  {
    LeafBit(v * PAGE, KERNEL_FLAGS, PAGE_U, 64);
    LeafBit(v * PAGE, DEVICE_FLAGS, PAGE_U, 64);
  }

  /** The pages user mode can reach are exactly the pages of the image, each in its own frame. */
  lemma UserReaches(s: Space, root: nat, kernelBase: nat, end: nat, u: UserSpace, v: nat, pte: nat)
    requires Finished(s, root, kernelBase, end, u) && v < VPNS
    requires Walk(s.m, root, v) == Some(pte) && UserAccess(pte)
    ensures LeafAddr(pte, 0) in s.frames && s.frames[LeafAddr(pte, 0)] == User(root, v)
  {
    assert v in u.pages && pte == u.pages[v];
    NotForUser(v);
    assert v in UserPages(u.fs).Keys;
    var k := v - USER_BASE / PAGE;
    assert pte == LeafPte(u.fs[k], USER_FLAGS);
    assert LoadedPage(s, root, u.fs[k], k, Chunk(u.image, k));
    LeafRoundTrip(u.fs[k], USER_FLAGS, 0);
  }

  /**
   Separation: two different user pages, of one process or of two, are different frames, and no walk of any address
   space reads a user page as a page table.
   */
  lemma UserPagesApart(s: Space, kernelBase: nat, end: nat, r1: nat, u1: UserSpace, v1: nat, pte1: nat,
                       r2: nat, u2: UserSpace, v2: nat, pte2: nat)
    requires Finished(s, r1, kernelBase, end, u1) && Finished(s, r2, kernelBase, end, u2)
    requires TreeOk(s.m, s.frames) && v1 < VPNS && v2 < VPNS
    requires Walk(s.m, r1, v1) == Some(pte1) && UserAccess(pte1)
    requires Walk(s.m, r2, v2) == Some(pte2) && UserAccess(pte2)
    ensures r1 != r2 || v1 != v2 ==> LeafAddr(pte1, 0) != LeafAddr(pte2, 0)
    ensures forall r, v: nat :: IsRoot(s.frames, r) && v < VPNS ==> LeafAddr(pte1, 0) !in WalkTables(s.m, r, v)
  {
    UserReaches(s, r1, kernelBase, end, u1, v1, pte1);
    UserReaches(s, r2, kernelBase, end, u2, v2, pte2);
    forall r, v: nat | IsRoot(s.frames, r) && v < VPNS
      ensures LeafAddr(pte1, 0) !in WalkTables(s.m, r, v)
    {
      UserIsNoTable(s.m, s.frames, LeafAddr(pte1, 0), r, v);
    }
  }

  /**
   Separation for the whole process table, in memory alone: every pair of user pages of any used slots is two frames,
   and no such page is a table that the walk of any used slot reads.
   */
  lemma SlotsApart(s: Space, ps: Procs, spaces: map<nat, UserSpace>, kernelBase: nat, end: nat,
                   p: nat, v1: nat, pte1: nat, q: nat, v2: nat, pte2: nat)
    requires SlotsOk(s, ps, spaces, kernelBase, end) && TreeOk(s.m, s.frames)
    requires p < |ps| && q < |ps| && v1 < VPNS && v2 < VPNS
    requires ps[p].status != Unused && Walk(s.m, ps[p].pageTable, v1) == Some(pte1) && UserAccess(pte1)
    requires ps[q].status != Unused && Walk(s.m, ps[q].pageTable, v2) == Some(pte2) && UserAccess(pte2)
    ensures p != q || v1 != v2 ==> LeafAddr(pte1, 0) != LeafAddr(pte2, 0)
    ensures forall r: nat, v: nat :: (r < |ps| && ps[r].status != Unused && v < VPNS
              ==> LeafAddr(pte1, 0) !in WalkTables(s.m, ps[r].pageTable, v))
  {
    UserPagesApart(s, kernelBase, end, ps[p].pageTable, spaces[p], v1, pte1, ps[q].pageTable, spaces[q], v2, pte2);
  }

  /** The top of the kernel stack of `slot` holds the context that enters `user_entry`; no other word changed. */
  ghost predicate ContextAt(before: seq<nat>, after: seq<nat>, slot: nat) {
    && TrapContext.Top(slot) <= |before|
    && after == before[..TrapContext.Top(slot) - SWITCH] + [USER_ENTRY] + seq(SWITCH - 1, _ => 0)
                + before[TrapContext.Top(slot)..]
  }

  lemma CreateStep(s: Scheduler.State, i: nat, sp: nat, root: nat)
    requires i == FreeSlot(s.procs) && i < |s.procs|
    ensures Scheduler.Step(s, Create(sp, root))
         == Scheduler.State(s.procs[i := Process(i + 1, Runnable, sp, root)], s.current)
  {
  }

  const SATP_SV39: nat := 8 * 0x1000_0000_0000_0000

  /** The value `yield` gives to `satp`. */
  function Satp(pageTable: nat): nat {
    Bits.Or(SATP_SV39, pageTable / PAGE)
  }

  /** `satp` selects Sv39 in its mode field, and its 44-bit number is the frame of the root, for any 56-bit address. */
  lemma SatpRoot(pageTable: nat)
    requires pageTable < 0x100_0000_0000_0000 && pageTable % PAGE == 0
    ensures Satp(pageTable) / 0x1000_0000_0000_0000 == 8
    ensures Satp(pageTable) % 0x1000_0000_0000 * PAGE == pageTable
  {
    var ppn := pageTable / PAGE;
    Pow2At60();
    Bits.OrDisjoint(SATP_SV39, ppn, 60);
    assert Satp(pageTable) == 8 * 0x1000_0000_0000_0000 + ppn;
  }

  /**
   With this `satp` the hardware walks the tables of `root`, and finds the first byte of the image, if there is one, at
   `pc`.
   */
  ghost predicate EntersAt(m: Memory, satp: nat, root: nat, pc: nat, image: seq<Byte>) {
    && satp / 0x1000_0000_0000_0000 == 8 && satp % 0x1000_0000_0000 * 4096 == root
    && (image != [] ==>
          var outcome := Sv39Translate(m, root, pc);
          outcome.Physical? && m.At(outcome.addr) == image[0])
  }

  lemma RootEncodable(m: Memory, frames: Frames, root: nat)
    requires TreeOk(m, frames) && IsRoot(frames, root)
    ensures root % PAGE == 0 && root < 0x100_0000_0000_0000
  {
    assert Encodable(root);
  }

  /** A process with the `satp` that `yield` gives it finds its image at 16 MiB. */
  lemma EntersImage(s: Space, root: nat, kernelBase: nat, end: nat, u: UserSpace)
    requires Finished(s, root, kernelBase, end, u) && TreeOk(s.m, s.frames)
    ensures EntersAt(s.m, Satp(root), root, 0x100_0000, u.image)
  {
    RootEncodable(s.m, s.frames, root);
    SatpRoot(root);
    if u.image != [] {
      HardwareReadsImage(s, root, kernelBase, end, u, 0);
    }
  }

  lemma Pow2At60()
    ensures Pow2(60) == 0x1000_0000_0000_0000
  {
    Pow2Values();
    Pow2Add(9, 34);
    Pow2Add(17, 43);
    assert Pow2(17) == 0x2_0000;
  }

  class Kernel {
    const tables: PageTables
    const kernelBase: nat
    const procs: array<Process>
    const stacks: array<nat>     // the words of the kernel stacks
    var current: nat
    var sscratch: nat            // the kernel stack the next trap enters on, as a word of `stacks`
    var satp: nat

    ghost var spaces: map<nat, UserSpace> // by slot, the address space

    ghost function Sched(): Scheduler.State
      reads this, procs
    {
      Scheduler.State(procs[..], current)
    }

    ghost predicate Valid()
      reads this, procs, tables, tables.heap, tables.heap.ram, tables.heap.heads
    {
      && tables.Valid() && Layout(kernelBase, tables.heap.hi)
      && 0 < procs.Length && stacks.Length == procs.Length * STACK && stacks != tables.heap.heads
      && SlotsOk(tables.Now(), procs[..], spaces, kernelBase, tables.heap.hi)
    }

    /** The zeroed process table of the .bss section, over a heap and page tables that are set up. */
    constructor (t: PageTables, base: nat, n: nat)
      requires t.Valid() && Layout(base, t.heap.hi) && n > 0
      ensures Valid() && tables == t && kernelBase == base && procs.Length == n && current == 0
      ensures forall p :: 0 <= p < n ==> procs[p] == Process(0, Unused, 0, 0)
      ensures fresh(procs) && fresh(stacks)
    {
      tables, kernelBase, current, sscratch, satp := t, base, 0, 0, 0;
      procs := new Process[n](_ => Process(0, Unused, 0, 0));
      stacks := new nat[n * STACK](_ => 0);
      spaces := map[];
    }

    /** The saved context of a new process: `ra` leads to `user_entry`, the other twelve registers are zero. */
    method PrepareStack(slot: nat) returns (sp: nat)
      requires slot < procs.Length && stacks.Length == procs.Length * STACK
      modifies stacks
      ensures sp == TrapContext.Top(slot) - SWITCH && ContextAt(old(stacks[..]), stacks[..], slot)
    {
      ghost var before := stacks[..];
      var top := TrapContext.Top(slot);
      sp := top;
      for i := 0 to SWITCH - 1
        invariant sp == top - i
        invariant stacks[..sp] == before[..sp] && stacks[top..] == before[top..]
        invariant forall k :: sp <= k < top ==> stacks[k] == 0
      {
        sp := sp - 1;
        stacks[sp] := 0;
      }
      sp := sp - 1;
      stacks[sp] := USER_ENTRY;
      assert stacks[..] == before[..sp] + [USER_ENTRY] + seq(SWITCH - 1, _ => 0) + before[top..];
    }

    /** The room `create_process` needs, when there is a slot. */
    ghost predicate RoomFor(size: nat)
      reads this, tables, tables.heap
    {
      tables.Room() >= PAGE * Demand(kernelBase, tables.heap.hi, size)
    }

    /** The outcome of building the process in `slot` from the image. */
    ghost predicate CreatedIn(s: Space, slot: nat, image: seq<Byte>)
      reads this, procs, tables, tables.heap, tables.heap.ram
    {
      && slot < procs.Length && slot in spaces && spaces[slot].image == image
      && Finished(tables.Now(), procs[slot].pageTable, kernelBase, tables.heap.hi, spaces[slot])
      && Built(tables.Now(), procs[slot].pageTable, spaces[slot].pages)
      && Kept(s, tables.Now(), procs[slot].pageTable)
      && tables.Room() + PAGE * Demand(kernelBase, tables.heap.hi, |image|) == s.room
    }

    /** The address space of a new process for `slot`, with the proof that the process table may take it in. */
    method NewSpace(slot: nat, sp: nat, image: seq<Byte>)
      returns (proc: Process, ghost u: UserSpace)
      requires Valid() && RoomFor(|image|)
      requires slot < procs.Length && procs[slot].status == Unused
      modifies tables, tables.heap`ls, tables.heap`used, tables.heap.ram, tables.heap.heads
      ensures tables.Valid() && proc == Process(slot + 1, Runnable, sp, proc.pageTable)
      ensures u.image == image && Finished(tables.Now(), proc.pageTable, kernelBase, tables.heap.hi, u)
      ensures Built(tables.Now(), proc.pageTable, u.pages)
      ensures Kept(old(tables.Now()), tables.Now(), proc.pageTable)
      ensures tables.Room() + PAGE * Demand(kernelBase, tables.heap.hi, |image|) == old(tables.Room())
      ensures SlotsOk(tables.Now(), procs[..][slot := proc], spaces[slot := u], kernelBase, tables.heap.hi)
    {
      ghost var s := tables.Now();
      var root;
      ghost var pages1, fs1;
      root, pages1, fs1 := BuildSpace(tables, kernelBase, image);
      u := UserSpace(image, pages1, fs1);
      proc := Process(slot + 1, Runnable, sp, root);
      ghost var t := tables.Now();
      SlotsNext(s, t, procs[..], spaces, kernelBase, tables.heap.hi, slot, proc, u);
      DemandMet(s, t, root, kernelBase, tables.heap.hi, |image|, pages1, fs1);
    }

    /**
     `create_process`: takes the first unused slot, prepares its kernel stack and builds its address space. It panics
     when every slot is used. No other process is affected.
     */
    method CreateProcess(image: seq<Byte>) returns (panicked: bool, slot: nat)
      requires Valid()
      requires FreeSlot(procs[..]) < procs.Length ==> RoomFor(|image|)
      modifies this, procs, stacks, tables, tables.heap`ls, tables.heap`used, tables.heap.ram, tables.heap.heads
      ensures Valid()
      ensures slot == FreeSlot(old(procs[..])) && (panicked <==> slot == procs.Length)
      ensures panicked ==> Sched() == old(Sched()) && tables.Now() == old(tables.Now()) && stacks[..] == old(stacks[..])
      ensures !panicked ==> CreatedIn(old(tables.Now()), slot, image) && ContextAt(old(stacks[..]), stacks[..], slot)
      ensures spaces == if panicked then old(spaces) else old(spaces)[slot := spaces[slot]]
      ensures !panicked ==> procs[slot].sp == TrapContext.Top(slot) - SWITCH
                            && Sched() == Scheduler.Step(old(Sched()), Create(procs[slot].sp, procs[slot].pageTable))
    {
      ghost var s := Sched();
      slot := FindSlot();
      if slot == procs.Length {
        return true, slot;
      }
      panicked := false;
      var sp := PrepareStack(slot);
      CreateIn(slot, sp, image);
      CreateStep(s, slot, sp, procs[slot].pageTable);
    }

    /** `create_process` once it has found its slot and prepared the kernel stack. */
    method CreateIn(slot: nat, sp: nat, image: seq<Byte>)
      requires Valid() && RoomFor(|image|)
      requires slot < procs.Length && procs[slot].status == Unused
      modifies this, procs, tables, tables.heap`ls, tables.heap`used, tables.heap.ram, tables.heap.heads
      ensures Valid() && CreatedIn(old(tables.Now()), slot, image) && spaces == old(spaces)[slot := spaces[slot]]
      ensures procs[slot] == Process(slot + 1, Runnable, sp, procs[slot].pageTable)
      ensures Sched() == Scheduler.State(old(procs[..])[slot := procs[slot]], old(current))
    {
      ghost var t := tables.Now();
      ghost var u;
      var proc;
      proc, u := NewSpace(slot, sp, image);
      Enter(slot, proc, t, u);
    }

    /** Fills in the slot of a process whose address space is built. */
    method Enter(slot: nat, proc: Process, ghost s: Space, ghost u: UserSpace)
      requires tables.Valid() && Layout(kernelBase, tables.heap.hi) && slot < procs.Length
      requires stacks.Length == procs.Length * STACK && stacks != tables.heap.heads
      requires SlotsOk(tables.Now(), procs[..][slot := proc], spaces[slot := u], kernelBase, tables.heap.hi)
      requires Finished(tables.Now(), proc.pageTable, kernelBase, tables.heap.hi, u)
      requires Built(tables.Now(), proc.pageTable, u.pages)
      requires Kept(s, tables.Now(), proc.pageTable)
      requires tables.Room() + PAGE * Demand(kernelBase, tables.heap.hi, |u.image|) == s.room
      modifies this, procs
      ensures Valid() && CreatedIn(s, slot, u.image) && procs[slot] == proc && spaces == old(spaces)[slot := u]
      ensures Sched() == Scheduler.State(old(procs[..])[slot := proc], old(current))
    {
      ghost var ps := procs[..];
      procs[slot] := proc;
      assert procs[..] == ps[slot := proc];
      spaces := spaces[slot := u];
    }

    /** The first loop of `create_process`. */
    method FindSlot() returns (i: nat)
      ensures i == FreeSlot(procs[..])
    {
      i := 0;
      while i < procs.Length && procs[i].status != Unused
        invariant i <= procs.Length && FreeSlot(procs[..]) == FreeSlot(procs[..], i)
      {
        i := i + 1;
      }
    }

    /** `init_proc`: the first process becomes the idle process, with pid 0. */
    method InitProc()
      requires Valid() && RoomFor(0) && forall p :: 0 <= p < procs.Length ==> procs[p].status == Unused
      modifies this, procs, stacks, tables, tables.heap`ls, tables.heap`used, tables.heap.ram, tables.heap.heads
      ensures Valid() && Scheduler.Booted(Sched())
    {
      var panicked, slot := CreateProcess([]);
      ghost var ps := procs[..];
      var idle := procs[slot].(pid := 0);
      procs[slot] := idle;
      current := slot;
      assert procs[..] == ps[slot := idle];
      SlotChanged(tables.Now(), ps, spaces, kernelBase, tables.heap.hi, slot, idle);
    }

    /** `sscratch` and `satp` are those of the current process. */
    predicate Loaded()
      reads this, procs
    {
      current < procs.Length && sscratch == TrapContext.Top(current) && satp == Satp(procs[current].pageTable)
    }

    /**
     `yield` up to its `switch_context`: makes the next process current, and has the next trap enter on its kernel
     stack and user mode run in its address space. Nothing happens when no other process is to run.
     */
    method Yield()
      requires Valid() && current < procs.Length
      modifies this`current, this`sscratch, this`satp
      ensures Valid() && Sched() == Scheduler.Step(old(Sched()), Scheduler.Yield)
      ensures old(Loaded()) || current != old(current) ==> Loaded()
      ensures current == old(current) ==> sscratch == old(sscratch) && satp == old(satp)
    {
      var next := PickNext();
      if next == current {
        return;
      }
      current := next;
      sscratch := TrapContext.Top(next);
      satp := Satp(procs[next].pageTable);
    }

    /** `*prev_sp = sp`, the store that `switch_context` makes through its first argument. */
    method SaveSp(slot: nat, sp: nat)
      requires Valid() && slot < procs.Length
      modifies procs
      ensures Valid() && procs[..] == old(procs[..])[slot := old(procs[slot]).(sp := sp)]
    {
      ghost var ps := procs[..];
      var saved := procs[slot].(sp := sp);
      procs[slot] := saved;
      assert procs[..] == ps[slot := saved];
      SlotChanged(tables.Now(), ps, spaces, kernelBase, tables.heap.hi, slot, saved);
    }

    /** The search of `yield`. */
    method PickNext() returns (next: nat)
      requires current < procs.Length
      ensures next == NextSlot(procs[..], current)
    {
      next := 0;
      ghost var pid := procs[current].pid;
      var i := 0;
      while i < procs.Length
        invariant i <= procs.Length && next == 0
        invariant SearchFrom(procs[..], pid, 0) == SearchFrom(procs[..], pid, i)
      {
        var slot := (procs[current].pid + i) % procs.Length;
        if procs[slot].status == Runnable && procs[slot].pid > 0 {
          next := slot;
          break;
        }
        i := i + 1;
      }
    }

    /** `proc_exit`: the current process is never run again. */
    method ProcExit()
      requires Valid() && Scheduler.Inv(Sched()) && 0 < current
      modifies this`current, this`sscratch, this`satp, procs
      ensures Valid() && Sched() == Scheduler.Step(old(Sched()), Exit)
      ensures current != old(current) && Loaded()
    {
      ghost var ps := procs[..];
      var exited := procs[current].(status := Exited);
      procs[current] := exited;
      assert procs[..] == ps[current := exited];
      SlotChanged(tables.Now(), ps, spaces, kernelBase, tables.heap.hi, current, exited);
      Yield();
    }
  }
}
