/**
 The process table and the processor together: `yield`, `proc_exit` and `create_process` as they run, each of them one
 step of the machine whose runs `TrapContext` is about.
 */
module Systems {
  import opened Memories
  import opened Processes
  import opened Scheduler
  import opened TrapCode
  import opened TrapContext
  import opened Wrappers
  import opened Images

  /** The part of a machine that is neither in the processor nor in the process table. */
  datatype Past = Past(pc: nat, mode: Mode, saved: seq<Option<UserState>>, left: seq<Option<seq<nat>>>)

  datatype Whole = Whole(h: Hart, s: Scheduler.State, past: Past)

  function SpsOf(ps: Procs): seq<nat> {
    seq(|ps|, p requires 0 <= p < |ps| => ps[p].sp)
  }

  function LiveOf(ps: Procs): seq<bool> {
    seq(|ps|, p requires 0 <= p < |ps| => ps[p].status != Unused)
  }

  /** The machine whose stack pointers and live slots are those of the process table. */
  function MachineOf(w: Whole): Machine {
    Machine(w.h, w.past.pc, w.past.mode, w.s.current, SpsOf(w.s.procs), LiveOf(w.s.procs), w.past.saved, w.past.left)
  }

  /** Both invariants: every used slot that is not current has the context it goes on with at its `sp`. */
  ghost predicate Good(w: Whole) {
    Scheduler.Inv(w.s) && TrapContext.Inv(MachineOf(w))
  }

  // ----- Switching -----

  /** The process table with the stack pointer of one slot saved. */
  function WithSp(ps: Procs, p: nat, sp: nat): Procs
    requires p < |ps|
  {
    ps[p := ps[p].(sp := sp)]
  }

  predicate Ready(w: Whole, q: nat) {
    && |w.h.x| == 32 && SWITCH <= w.h.x[SP] <= |w.h.mem|
    && w.s.current < |w.s.procs| == |w.past.left| && q < |w.s.procs| && w.s.procs[q].sp + SWITCH <= |w.h.mem|
  }

  /** The history of a switch from `current` to `q`. */
  function Switched(past: Past, h: Hart, h1: Hart, current: nat, q: nat): Past
    requires |h.x| == |h1.x| == 32 && current < |past.left| && q < |past.left|
  {
    var starts := h1.x[RA] == USER_ENTRY;
    Past(if starts then USER_BASE else past.pc,
         if starts then InUser else if q == 0 then InBoot else InKernel,
         past.saved,
         past.left[current := Some(h.x[RA := RET_YIELD])][q := None])
  }

  /** What is left after the end of `yield` has switched to `q`. */
  function Handed(w: Whole, q: nat): Whole
    requires Ready(w, q)
  {
    var h1 := SwitchHart(w.h, TrapContext.Top(q), w.s.procs[q].sp);
    Whole(h1, Scheduler.State(WithSp(w.s.procs, w.s.current, w.h.x[SP] - SWITCH), q),
          Switched(w.past, w.h, h1, w.s.current, q))
  }

  lemma TableUpdated(ps: Procs, p: nat, sp: nat)
    requires p < |ps|
    ensures SpsOf(WithSp(ps, p, sp)) == SpsOf(ps)[p := sp] && LiveOf(WithSp(ps, p, sp)) == LiveOf(ps)
  {
  }

  /** A live slot that is not current has room for its context, and so has the current one. */
  lemma SwitchReady(w: Whole, q: nat)
    requires TrapContext.Inv(MachineOf(w)) && w.past.mode != InUser
    requires q < |w.s.procs| && q != w.s.current && w.s.procs[q].status != Unused
    ensures Ready(w, q)
  {
    assert Suspended(MachineOf(w), q);
    TrapContext.StacksFit(MachineOf(w), w.s.current);
  }

  /** Handing over to a slot that has a context is one context switch of the machine. */
  lemma HandingIsStep(w: Whole, q: nat)
    requires TrapContext.Inv(MachineOf(w)) && w.past.mode != InUser
    requires q < |w.s.procs| && q != w.s.current && w.s.procs[q].status != Unused
    ensures Ready(w, q) && CanSwitch(MachineOf(w), q, MachineOf(Handed(w, q)))
    ensures TrapContext.Inv(MachineOf(Handed(w, q)))
  {
    SwitchReady(w, q);
    TableUpdated(w.s.procs, w.s.current, w.h.x[SP] - SWITCH);
    TrapContext.SwitchInv(MachineOf(w), q, MachineOf(Handed(w, q)));
  }

  /** Stack pointers do not matter to the scheduler. */
  lemma SpIsNoMatter(s: Scheduler.State, p: nat, sp: nat)
    requires Scheduler.Inv(s) && p < |s.procs|
    ensures Scheduler.Inv(s.(procs := WithSp(s.procs, p, sp)))
  {
  }

  /** From `w` to `t` nothing happened, or one context switch of the machine to the slot that the scheduler picks. */
  ghost predicate Yielded(w: Whole, t: Whole)
    requires Good(w)
  {
    var q := NextSlot(w.s.procs, w.s.current);
    t.s.current == q && if q == w.s.current then t == w else CanSwitch(MachineOf(w), q, MachineOf(t))
  }

  /** `yield` to another process. */
  lemma YieldIsStep(w: Whole)
    requires Good(w) && w.past.mode != InUser && NextSlot(w.s.procs, w.s.current) != w.s.current
    ensures var q := NextSlot(w.s.procs, w.s.current);
      Ready(w, q) && Good(Handed(w, q)) && Yielded(w, Handed(w, q))
  {
    var q := NextSlot(w.s.procs, w.s.current);
    Scheduler.StepInv(w.s, Scheduler.Yield);
    HandingIsStep(w, q);
    SpIsNoMatter(w.s.(current := q), w.s.current, w.h.x[SP] - SWITCH);
  }

  // ----- Exiting and creating -----

  /** The current process marked as exited. */
  function Exiting(w: Whole): Whole
    requires w.s.current < |w.s.procs|
  {
    w.(s := w.s.(procs := w.s.procs[w.s.current := w.s.procs[w.s.current].(status := Exited)]))
  }

  /** From `w` to `t` the current slot was left for ever, by one context switch of the machine. */
  ghost predicate Left(w: Whole, t: Whole)
    requires Good(w)
  {
    && t.s.current != w.s.current < |t.s.procs| && t.s.procs[w.s.current].status == Exited
    && CanSwitch(MachineOf(w), t.s.current, MachineOf(t))
  }

  /** `proc_exit`: the mark changes nothing in the machine, and the switch that follows is its step. */
  lemma ExitIsStep(w: Whole)
    requires Good(w) && w.past.mode != InUser && 0 < w.s.current
    ensures var q, e := Scheduler.Step(w.s, Exit).current, Exiting(w);
      && q != w.s.current && Scheduler.Step(w.s, Exit) == e.s.(current := q)
      && Ready(e, q) && Good(Handed(e, q)) && Left(w, Handed(e, q))
  {
    var q, e := Scheduler.Step(w.s, Exit).current, Exiting(w);
    Scheduler.StepInv(w.s, Exit);
    assert SpsOf(e.s.procs) == SpsOf(w.s.procs) && LiveOf(e.s.procs) == LiveOf(w.s.procs);
    assert MachineOf(e) == MachineOf(w);
    HandingIsStep(e, q);
    SpIsNoMatter(e.s.(current := q), w.s.current, w.h.x[SP] - SWITCH);
  }

  /** `create_process` is the step that gives a slot its first context. */
  lemma CreateIsStep(w: Whole, mem: seq<nat>, sp: nat, root: nat)
    requires Good(w) && w.past.mode != InUser
    requires FreeSlot(w.s.procs) < |w.s.procs| && sp == TrapContext.Top(FreeSlot(w.s.procs)) - SWITCH
    requires ContextAt(w.h.mem, mem, FreeSlot(w.s.procs))
    ensures var q := FreeSlot(w.s.procs);
      var t := w.(h := w.h.(mem := mem), s := Scheduler.Step(w.s, Scheduler.Create(sp, root)));
      Good(t) && CanSpawn(MachineOf(w), q, MachineOf(t))
  {
    var q := FreeSlot(w.s.procs);
    var t := w.(h := w.h.(mem := mem), s := Scheduler.Step(w.s, Scheduler.Create(sp, root)));
    assert SpsOf(t.s.procs) == SpsOf(w.s.procs)[q := sp];
    assert LiveOf(t.s.procs) == LiveOf(w.s.procs)[q := true];
    Scheduler.StepInv(w.s, Scheduler.Create(sp, root));
    TrapContext.SpawnInv(MachineOf(w), q, MachineOf(t));
  }

  // ----- The code -----

  class System {
    const kernel: Kernel
    const cpu: Cpu
    ghost var past: Past

    ghost function Now(): Whole
      reads this, kernel, kernel.procs, cpu, cpu.x, cpu.mem
    {
      Whole(cpu.Now(), kernel.Sched(), past)
    }

    /** The kernel's stacks are the memory that the processor's stack code works on. */
    ghost predicate Wired()
      reads kernel, kernel.procs, kernel.tables, kernel.tables.heap, kernel.tables.heap.ram, kernel.tables.heap.heads
      reads cpu, cpu.x
    {
      && kernel.Valid() && cpu.Valid()
      && cpu.mem == kernel.stacks && cpu.x != kernel.tables.heap.heads
    }

    ghost predicate Valid()
      reads this, cpu, cpu.x, cpu.mem
      reads kernel, kernel.procs, kernel.tables, kernel.tables.heap, kernel.tables.heap.ram, kernel.tables.heap.heads
    {
      Wired() && Good(Now())
    }

    /** After `init_proc`, while `kmain` runs. */
    constructor (k: Kernel, c: Cpu)
      requires k.Valid() && Scheduler.Booted(k.Sched())
      requires c.Valid() && c.mem == k.stacks && c.x != k.tables.heap.heads
      requires TrapContext.Base(0) + SWITCH <= c.x[SP] <= TrapContext.Top(0)
      ensures Valid() && TrapContext.Booted(MachineOf(Now())) && kernel == k && cpu == c
    {
      kernel, cpu := k, c;
      past := Past(0, InBoot, seq(k.procs.Length, _ => None), seq(k.procs.Length, _ => None));
    }

    /** The end of `yield`, after the kernel has made another process than the one of `w` current. */
    method HandOver(prev: nat, ghost w: Whole)
      requires Wired() && prev == w.s.current && Ready(w, kernel.current) && kernel.Loaded()
      requires Now() == w.(s := w.s.(current := kernel.current))
      modifies this, kernel.procs, cpu, cpu.x, cpu.mem
      ensures Wired() && Now() == Handed(w, kernel.current) && kernel.Loaded()
    {
      ghost var h, ps := cpu.Now(), kernel.procs[..];
      var sp := cpu.SwitchTo(kernel.sscratch, kernel.procs[kernel.current].sp);
      past := Switched(past, h, cpu.Now(), prev, kernel.current);
      kernel.SaveSp(prev, sp);
    }

    /** The part of `yield` that concerns the process table only. */
    method Pick()
      requires Wired() && kernel.current < kernel.procs.Length
      modifies kernel`current, kernel`sscratch, kernel`satp
      ensures Wired() && Now() == old(Now()).(s := Scheduler.Step(old(Now()).s, Scheduler.Yield))
      ensures kernel.current != old(kernel.current) ==> kernel.Loaded()
    {
      kernel.Yield();
    }

    /** The code of `yield`. */
    method PickAndSwitch(ghost w: Whole)
      requires Wired() && Now() == w && w.s.current < |w.s.procs|
      requires NextSlot(w.s.procs, w.s.current) != w.s.current ==> Ready(w, NextSlot(w.s.procs, w.s.current))
      modifies this, kernel`current, kernel`sscratch, kernel`satp, kernel.procs, cpu, cpu.x, cpu.mem
      ensures Wired()
      ensures var q := NextSlot(w.s.procs, w.s.current);
        Now() == if q == w.s.current then w else Handed(w, q)
      ensures kernel.current != w.s.current ==> kernel.Loaded()
    {
      var prev := kernel.current;
      Pick();
      if kernel.current != prev {
        HandOver(prev, w);
      }
    }

    /** Nobody has switched to slot `q` yet. */
    ghost predicate IsNew(q: nat)
      reads this
    {
      q < |past.left| && past.left[q].None?
    }

    /** User code starts, at 16 MiB, where the hardware finds the first byte of the image of the current process. */
    ghost predicate Entered()
      reads this, cpu, kernel, kernel.procs, kernel.tables, kernel.tables.heap, kernel.tables.heap.ram
    {
      && past.mode == InUser && past.pc == 0x100_0000 && cpu.sepc == 0x100_0000
      && kernel.current < kernel.procs.Length && kernel.current in kernel.spaces
      && EntersAt(kernel.tables.Now().m, kernel.satp, kernel.procs[kernel.current].pageTable, 0x100_0000,
                  kernel.spaces[kernel.current].image)
    }

    /** The current process has its address space in `satp`. */
    lemma Enters()
      requires Valid() && kernel.Loaded()
      ensures kernel.current < kernel.procs.Length && kernel.current in kernel.spaces
      ensures EntersAt(kernel.tables.Now().m, kernel.satp, kernel.procs[kernel.current].pageTable, 0x100_0000,
                       kernel.spaces[kernel.current].image)
    {
      var q, s := kernel.current, kernel.tables.Now();
      assert kernel.procs[..][q].status != Unused;
      EntersImage(s, kernel.procs[q].pageTable, kernel.kernelBase, kernel.tables.heap.hi, kernel.spaces[q]);
    }

    /**
     `yield`: nothing, or one context switch of the machine to the process that the scheduler picks. The first switch
     to a process starts its image.
     */
    method Yield()
      requires Valid() && past.mode != InUser
      modifies this, kernel`current, kernel`sscratch, kernel`satp, kernel.procs, cpu, cpu.x, cpu.mem
      ensures Valid() && Yielded(old(Now()), Now())
      ensures kernel.current != old(kernel.current) ==> kernel.Loaded()
      ensures kernel.current != old(kernel.current) && old(past).left[kernel.current].None? ==> Entered()
    {
      ghost var w := Now();
      if NextSlot(w.s.procs, w.s.current) != w.s.current {
        YieldIsStep(w);
      }
      PickAndSwitch(w);
      if kernel.current != w.s.current {
        Enters();
        if w.past.left[kernel.current].None? {
          TrapContext.FirstSwitch(MachineOf(w), kernel.current, MachineOf(Now()));
        }
      }
    }

    /** The part of `proc_exit` that concerns the process table only. */
    method Quit()
      requires Wired() && Scheduler.Inv(Now().s) && 0 < kernel.current
      modifies kernel`current, kernel`sscratch, kernel`satp, kernel.procs
      ensures Wired() && Now() == old(Now()).(s := Scheduler.Step(old(Now()).s, Exit)) && kernel.Loaded()
    {
      kernel.ProcExit();
    }

    /** The code of `proc_exit`. */
    method QuitAndSwitch(ghost w: Whole)
      requires Wired() && Now() == w && Scheduler.Inv(w.s) && 0 < w.s.current
      requires Ready(Exiting(w), Scheduler.Step(w.s, Exit).current)
      requires Scheduler.Step(w.s, Exit) == Exiting(w).s.(current := Scheduler.Step(w.s, Exit).current)
      modifies this, kernel`current, kernel`sscratch, kernel`satp, kernel.procs, cpu, cpu.x, cpu.mem
      ensures Wired() && Now() == Handed(Exiting(w), Scheduler.Step(w.s, Exit).current) && kernel.Loaded()
    {
      var prev := kernel.current;
      Quit();
      HandOver(prev, Exiting(w));
    }

    /** `proc_exit`: one context switch of the machine away from a process that is never switched to again. */
    method ProcExit()
      requires Valid() && past.mode != InUser && 0 < kernel.current
      modifies this, kernel`current, kernel`sscratch, kernel`satp, kernel.procs, cpu, cpu.x, cpu.mem
      ensures Valid() && Left(old(Now()), Now()) && kernel.Loaded()
      ensures old(past).left[kernel.current].None? ==> Entered()
    {
      ghost var w := Now();
      ExitIsStep(w);
      QuitAndSwitch(w);
      Enters();
      if w.past.left[kernel.current].None? {
        TrapContext.FirstSwitch(MachineOf(w), kernel.current, MachineOf(Now()));
      }
    }

    /** Unless it panicked, the image of slot `q` is the given one; the other address spaces are as they were. */
    ghost predicate FilledWith(panicked: bool, q: nat, image: seq<Byte>, spaces: map<nat, UserSpace>)
      reads kernel
    {
      if panicked then kernel.spaces == spaces
      else q in kernel.spaces && kernel.spaces[q].image == image && kernel.spaces == spaces[q := kernel.spaces[q]]
    }

    /** `create_process` on the process table, the tables, the heap and the stacks. */
    method Fill(image: seq<Byte>) returns (panicked: bool, ghost sp: nat, ghost root: nat)
      requires Wired() && (FreeSlot(Now().s.procs) < kernel.procs.Length ==> kernel.RoomFor(|image|))
      modifies kernel, kernel.procs, kernel.stacks, kernel.tables
      modifies kernel.tables.heap`ls, kernel.tables.heap`used, kernel.tables.heap.ram, kernel.tables.heap.heads
      ensures Wired() && (panicked <==> FreeSlot(old(Now()).s.procs) == |old(Now()).s.procs|)
      ensures panicked ==> Now() == old(Now())
      ensures FilledWith(panicked, FreeSlot(old(Now()).s.procs), image, old(kernel.spaces))
      ensures !panicked ==>
        && sp == TrapContext.Top(FreeSlot(old(Now()).s.procs)) - SWITCH
        && ContextAt(old(Now()).h.mem, Now().h.mem, FreeSlot(old(Now()).s.procs))
        && Now() == old(Now()).(h := old(Now()).h.(mem := Now().h.mem),
                                s := Scheduler.Step(old(Now()).s, Scheduler.Create(sp, root)))
    {
      var slot;
      panicked, slot := kernel.CreateProcess(image);
      if !panicked {
        sp, root := kernel.procs[slot].sp, kernel.procs[slot].pageTable;
      } else {
        sp, root := 0, 0;
      }
    }

    /**
     `create_process`: one step of the machine that gives a new slot its context, or a panic. The first switch to the
     slot is still to come.
     */
    method CreateProcess(image: seq<Byte>) returns (panicked: bool)
      requires Valid() && past.mode != InUser
      requires FreeSlot(Now().s.procs) < kernel.procs.Length ==> kernel.RoomFor(|image|)
      modifies kernel, kernel.procs, kernel.stacks, kernel.tables
      modifies kernel.tables.heap`ls, kernel.tables.heap`used, kernel.tables.heap.ram, kernel.tables.heap.heads
      ensures Valid() && (panicked <==> FreeSlot(old(Now()).s.procs) == |old(Now()).s.procs|)
      ensures panicked ==> Now() == old(Now())
      ensures !panicked ==> CanSpawn(MachineOf(old(Now())), FreeSlot(old(Now()).s.procs), MachineOf(Now()))
      ensures FilledWith(panicked, FreeSlot(old(Now()).s.procs), image, old(kernel.spaces))
      ensures !panicked ==> IsNew(FreeSlot(old(Now()).s.procs))
    {
      ghost var w, sp, root := Now(), 0, 0;
      panicked, sp, root := Fill(image);
      if !panicked {
        CreateIsStep(w, Now().h.mem, sp, root);
      }
    }
  }
}
