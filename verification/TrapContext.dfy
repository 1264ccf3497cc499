/**
 Trap entry and return, the context switch, and what they keep over whole runs in which processes interleave. Memory
 is counted in 64-bit words; process `p` owns the kernel stack words `[Base(p), Top(p))`, and slot 0's stack is the
 boot stack that `kmain` runs on.
 */
module TrapContext {
  import opened Wrappers
  import Images

  // Register numbers of the RISC-V calling convention.
  const RA: nat := 1
  const SP: nat := 2
  const A0: nat := 10

  /** The registers in the order `kernel_trap_context_save` stores them; `sp` follows in word 30. */
  const TRAP_REGS: seq<nat> := [
    1, 3, 4, 5, 6, 7, 28, 29, 30, 31,
    10, 11, 12, 13, 14, 15, 16, 17,
    8, 9, 18, 19, 20, 21, 22, 23, 24, 25, 26, 27]

  /** The word of the trap frame that belongs to each register; register 0 is never saved. */
  const SLOTS: seq<nat> := [
    31, 0, 30, 1, 2, 3, 4, 5, 18, 19, 10, 11, 12, 13, 14, 15, 16, 17,
    20, 21, 22, 23, 24, 25, 26, 27, 28, 29, 6, 7, 8, 9]

  /** The registers in the order `switch_context` stores and loads them. */
  const SWITCH_REGS: seq<nat> := [1, 8, 9, 18, 19, 20, 21, 22, 23, 24, 25, 26, 27]

  const FRAME: nat := 31
  const SWITCH: nat := 13
  const STACK: nat := 1024

  // ----- Runs of stores and loads -----

  /** `sd` of registers `regs[i..]` to consecutive words. */
  function StoreFrom(regs: seq<nat>, i: nat, x: seq<nat>, mem: seq<nat>, sp: nat): (r: seq<nat>)
    requires i <= |regs| && sp + |regs| <= |mem| && |x| == 32 && forall k :: 0 <= k < |regs| ==> regs[k] < 32
    ensures |r| == |mem|
    decreases |regs| - i, mem
  {
    if i == |regs| then mem else StoreFrom(regs, i + 1, x, mem[sp + i := x[regs[i]]], sp)
  }

  /** `ld` of registers `regs[i..]` from consecutive words. */
  function LoadFrom(regs: seq<nat>, i: nat, x: seq<nat>, mem: seq<nat>, sp: nat): (r: seq<nat>)
    requires i <= |regs| && sp + |regs| <= |mem| && |x| == 32 && forall k :: 0 <= k < |regs| ==> regs[k] < 32
    ensures |r| == 32
    decreases |regs| - i, x
  {
    if i == |regs| then x else LoadFrom(regs, i + 1, x[regs[i] := mem[sp + i]], mem, sp)
  }

  lemma {:induction false} Stores(regs: seq<nat>, i: nat, x: seq<nat>, mem: seq<nat>, sp: nat)
    requires i <= |regs| && sp + |regs| <= |mem| && |x| == 32 && forall k :: 0 <= k < |regs| ==> regs[k] < 32
    ensures var r := StoreFrom(regs, i, x, mem, sp);
      && (forall a :: 0 <= a < |mem| && !(sp + i <= a < sp + |regs|) ==> r[a] == mem[a])
      && (forall k {:trigger regs[k]} :: i <= k < |regs| ==> r[sp + k] == x[regs[k]])
    decreases |regs| - i
  {
    if i < |regs| {
      Stores(regs, i + 1, x, mem[sp + i := x[regs[i]]], sp);
    }
  }

  lemma {:induction false} Loads(regs: seq<nat>, i: nat, x: seq<nat>, mem: seq<nat>, sp: nat)
    requires i <= |regs| && sp + |regs| <= |mem| && |x| == 32 && forall k :: 0 <= k < |regs| ==> regs[k] < 32
    requires Distinct(regs)
    ensures var r := LoadFrom(regs, i, x, mem, sp);
      && (forall q :: 0 <= q < 32 && q !in regs[i..] ==> r[q] == x[q])
      && (forall k {:trigger regs[k]} :: i <= k < |regs| ==> r[regs[k]] == mem[sp + k])
    decreases |regs| - i
  {
    if i < |regs| {
      Loads(regs, i + 1, x[regs[i] := mem[sp + i]], mem, sp);
      assert regs[i..] == [regs[i]] + regs[i + 1..];
      assert regs[i] !in regs[i + 1..];
    }
  }

  lemma RegsToSlots(i: nat)
    requires i < |TRAP_REGS|
    ensures i < 30 && 0 < TRAP_REGS[i] < 32 && TRAP_REGS[i] != SP && SLOTS[TRAP_REGS[i]] == i
  {
  }

  lemma SlotsToRegs(q: nat)
    requires 0 < q < |SLOTS| && q != SP
    ensures SLOTS[q] < 30 && TRAP_REGS[SLOTS[q]] == q
  {
  }

  /** The two tables describe the same frame, register by register. */
  lemma TrapTables()
    ensures |TRAP_REGS| == 30 && |SLOTS| == 32
    ensures forall i :: 0 <= i < 30 ==> 0 < TRAP_REGS[i] < 32 && TRAP_REGS[i] != SP && SLOTS[TRAP_REGS[i]] == i
    ensures forall q :: 0 < q < 32 && q != SP ==> SLOTS[q] < 30 && TRAP_REGS[SLOTS[q]] == q
    ensures SLOTS[SP] == 30
  {
    forall i | 0 <= i < 30
      ensures 0 < TRAP_REGS[i] < 32 && TRAP_REGS[i] != SP && SLOTS[TRAP_REGS[i]] == i
    {
      RegsToSlots(i);
    }
    forall q | 0 < q < 32 && q != SP
      ensures SLOTS[q] < 30 && TRAP_REGS[SLOTS[q]] == q
    {
      SlotsToRegs(q);
    }
  }

  lemma TrapDistinct()
    ensures Distinct(TRAP_REGS)
  {
    TrapTables();
  }

  /** `switch_context` keeps `ra` and s0 to s11: registers 1, 8, 9 and 18 to 27. */
  predicate CalleeSaved(r: nat) {
    r == 1 || 8 <= r <= 9 || 18 <= r <= 27
  }

  /** Where a register is saved. */
  lemma SavedAt(r: nat) returns (k: nat)
    requires CalleeSaved(r)
    ensures k < SWITCH && SWITCH_REGS[k] == r
  {
    k := if r == 1 then 0 else if r <= 9 then r - 7 else r - 15;
  }

  lemma SwitchDistinct()
    ensures |SWITCH_REGS| == SWITCH && SWITCH_REGS[0] == RA && Distinct(SWITCH_REGS)
    ensures forall k :: 0 <= k < SWITCH ==> SWITCH_REGS[k] < 32 && SWITCH_REGS[k] != SP && SWITCH_REGS[k] != 0
  {
  }

  // ----- The machine -----

  const USER_ENTRY: nat := 1   // the address of user_entry
  const RET_YIELD: nat := 2    // the return address of the call of switch_context in yield
  const RET_TRAP: nat := 3     // the return address of the call of handle_trap

  /** Registers, the two CSRs the kernel uses, and the words of all kernel stacks. */
  datatype Hart = Hart(x: seq<nat>, sscratch: nat, sepc: nat, mem: seq<nat>)

  datatype Mode = InUser | InKernel | InBoot

  /** What a process last looked like in user mode, and what it is to get back. */
  datatype UserState = UserState(x: seq<nat>, pc: nat)

  /**
   `sps[p]` is the saved stack pointer of slot `p`, `live[p]` says that the slot has a context. The last two are
   history: the user state of every process that is inside a trap, and all registers of every process that was switched
   out, as they were at its call of `switch_context`.
   */
  datatype Machine = Machine(h: Hart, pc: nat, mode: Mode, current: nat, sps: seq<nat>, live: seq<bool>,
                             saved: seq<Option<UserState>>, left: seq<Option<seq<nat>>>)

  function Base(p: nat): nat { p * STACK }
  function Top(p: nat): nat { p * STACK + STACK }

  /** Where the trap frame of slot `p` starts; `handle_trap` keeps the user's pc in the word below. */
  function FrameOf(p: nat): nat { Top(p) - FRAME }
  function Local(p: nat): nat { FrameOf(p) - 1 }

  predicate Sized(m: Machine) {
    && |m.h.x| == 32 && m.h.x[0] == 0
    && |m.sps| == |m.live| == |m.saved| == |m.left| && m.current < |m.sps|
    && |m.h.mem| == |m.sps| * STACK
  }

  // ----- The assembly routines -----

  /** `kernel_trap_context_save` up to the call of `handle_trap`. */
  function TrapSave(h: Hart): Hart
    requires |h.x| == 32 && FRAME <= h.sscratch <= |h.mem|
  {
    var userSp, sp := h.x[SP], h.sscratch - FRAME;
    var mem := StoreFrom(TRAP_REGS, 0, h.x[SP := sp], h.mem, sp);
    Hart(h.x[SP := sp][A0 := sp][RA := RET_TRAP], sp + FRAME, h.sepc, mem[sp + 30 := userSp])
  }

  /** The loads before `sret`; `sp` comes last. */
  function TrapRestore(h: Hart): Hart
    requires |h.x| == 32 && h.x[SP] + FRAME <= |h.mem|
  {
    var x := LoadFrom(TRAP_REGS, 0, h.x, h.mem, h.x[SP]);
    h.(x := x[SP := h.mem[h.x[SP] + 30]])
  }

  /** The first half of `switch_context`: 13 registers on the old stack. */
  function SwitchOut(h: Hart): Hart
    requires |h.x| == 32 && SWITCH <= h.x[SP] <= |h.mem|
  {
    var sp := h.x[SP] - SWITCH;
    h.(x := h.x[SP := sp], mem := StoreFrom(SWITCH_REGS, 0, h.x[SP := sp], h.mem, sp))
  }

  /** The second half: 13 registers from the stack at `sp`. */
  function SwitchIn(h: Hart, sp: nat): Hart
    requires |h.x| == 32 && sp + SWITCH <= |h.mem|
  {
    h.(x := LoadFrom(SWITCH_REGS, 0, h.x[SP := sp], h.mem, sp)[SP := sp + SWITCH])
  }

  /** The end of `yield`: `sscratch` is set, `switch_context` is called, and a new process enters `user_entry`. */
  function SwitchHart(h: Hart, top: nat, nextSp: nat): Hart
    requires |h.x| == 32 && SWITCH <= h.x[SP] <= |h.mem| && nextSp + SWITCH <= |h.mem|
  {
    var called := h.x[RA := RET_YIELD];
    var g := SwitchIn(SwitchOut(h.(x := called, sscratch := top)), nextSp);
    if g.x[RA] == USER_ENTRY then g.(sepc := Images.USER_BASE) else g
  }

  // ----- Steps -----

  datatype Step = UserRun | Trap | KernelRun | SetA0(v: nat) | SwitchTo(q: nat) | Return | Spawn(q: nat)

  /** The highest stack pointer of kernel code, and the end of what it may write: its own stack below its frame. */
  function Limit(m: Machine): nat {
    if m.mode == InKernel then Local(m.current) else Top(m.current)
  }

  /** User code changes its registers and its pc as it likes, and no kernel stack. */
  ghost predicate CanUserRun(s: Machine, t: Machine) {
    && s.mode == InUser && |t.h.x| == 32 && t.h.x[0] == 0
    && t == s.(h := s.h.(x := t.h.x), pc := t.pc)
  }

  /** A system call: the hardware saves the pc, the entry code saves the registers, `handle_trap` reads `sepc`. */
  ghost predicate CanTrap(s: Machine, t: Machine)
    requires Sized(s)
  {
    && s.mode == InUser && FRAME < s.h.sscratch <= |s.h.mem|
    && var h := TrapSave(s.h.(sepc := s.pc));
       var local := h.x[SP] - 1;
       t == s.(h := h.(x := h.x[SP := local], mem := h.mem[local := h.sepc]), mode := InKernel,
               saved := s.saved[s.current := Some(UserState(s.h.x, s.pc))])
  }

  /** Kernel code changes registers and its own stack below the frame, and leaves room for a context switch. */
  ghost predicate CanKernelRun(s: Machine, t: Machine) {
    && s.mode != InUser && |t.h.x| == 32 && t.h.x[0] == 0 && |t.h.mem| == |s.h.mem|
    && Base(s.current) + SWITCH <= t.h.x[SP] <= Limit(s)
    && (forall a :: 0 <= a < |s.h.mem| && !(Base(s.current) <= a < Limit(s)) ==> t.h.mem[a] == s.h.mem[a])
    && t == s.(h := s.h.(x := t.h.x, mem := t.h.mem))
  }

  /** `f->a0 = v`, the result of a system call. */
  ghost predicate CanSetA0(s: Machine, v: nat, t: Machine)
    requires Sized(s)
  {
    && s.mode == InKernel && s.saved[s.current].Some? && |s.saved[s.current].value.x| == 32
    && FrameOf(s.current) + 10 < |s.h.mem| && FrameOf(s.current) >= 0
    && var u := s.saved[s.current].value;
       t == s.(h := s.h.(mem := s.h.mem[FrameOf(s.current) + 10 := v]),
               saved := s.saved[s.current := Some(u.(x := u.x[A0 := v]))])
  }

  /** `yield` to another slot; where `ra` leads decides whether that process starts or goes on inside the kernel. */
  ghost predicate CanSwitch(s: Machine, q: nat, t: Machine)
    requires Sized(s)
  {
    && s.mode != InUser && q < |s.sps| && q != s.current && s.live[q]
    && SWITCH <= s.h.x[SP] <= |s.h.mem| && s.sps[q] + SWITCH <= |s.h.mem|
    && var called := s.h.x[RA := RET_YIELD];
       var out := SwitchOut(s.h.(x := called, sscratch := Top(q)));
       var h := SwitchIn(out, s.sps[q]);
       var starts := h.x[RA] == USER_ENTRY;
       t == s.(h := if starts then h.(sepc := Images.USER_BASE) else h,
               pc := if starts then Images.USER_BASE else s.pc,
               mode := if starts then InUser else if q == 0 then InBoot else InKernel,
               current := q, sps := s.sps[s.current := out.x[SP]],
               left := s.left[s.current := Some(called)][q := None])
  }

  /** `handle_trap` puts the pc after the `ecall` into `sepc` and returns; the registers come back; `sret`. */
  ghost predicate CanReturn(s: Machine, t: Machine)
    requires Sized(s)
  {
    && s.mode == InKernel && FrameOf(s.current) >= 1
    && Top(s.current) <= |s.h.mem|
    && var h := TrapRestore(s.h.(x := s.h.x[SP := FrameOf(s.current)], sepc := s.h.mem[Local(s.current)] + 4));
       t == s.(h := h, pc := h.sepc, mode := InUser, saved := s.saved[s.current := None])
  }

  /** `create_process` prepares the stack of a new slot so that switching to it enters `user_entry`. */
  ghost predicate CanSpawn(s: Machine, q: nat, t: Machine)
    requires Sized(s)
  {
    && s.mode != InUser && 0 < q < |s.sps| && !s.live[q]
    && var sp := Top(q) - SWITCH;
       sp + SWITCH <= |s.h.mem| && sp >= 0 &&
       t == s.(h := s.h.(mem := s.h.mem[..sp] + [USER_ENTRY] + seq(SWITCH - 1, _ => 0) + s.h.mem[Top(q)..]),
               sps := s.sps[q := sp], live := s.live[q := true])
  }

  ghost predicate Can(s: Machine, l: Step, t: Machine)
    requires Sized(s)
  {
    match l
    case UserRun => CanUserRun(s, t)
    case Trap => CanTrap(s, t)
    case KernelRun => CanKernelRun(s, t)
    case SetA0(v) => CanSetA0(s, v, t)
    case SwitchTo(q) => CanSwitch(s, q, t)
    case Return => CanReturn(s, t)
    case Spawn(q) => CanSpawn(s, q, t)
  }

  // ----- The invariant -----

  /** The trap frame of slot `p` and the local of its handler hold exactly the user state `u`. */
  ghost predicate FrameHolds(mem: seq<nat>, p: nat, u: UserState) {
    && Top(p) <= |mem| && |u.x| == 32 && u.x[0] == 0
    && (forall i {:trigger TRAP_REGS[i]} :: 0 <= i < 30 ==> mem[FrameOf(p) + i] == u.x[TRAP_REGS[i]])
    && mem[FrameOf(p) + 30] == u.x[SP]
    && mem[Local(p)] == u.pc
  }

  /** The 13 words at `sp` are those that a call of `switch_context` with registers `x` put there. */
  ghost predicate LeftOn(mem: seq<nat>, sp: nat, x: seq<nat>) {
    && sp + SWITCH <= |mem| && |x| == 32 && x[SP] == sp + SWITCH
    && forall k {:trigger SWITCH_REGS[k]} :: 0 <= k < SWITCH ==> mem[sp + k] == x[SWITCH_REGS[k]]
  }

  /** A slot that is not current: switched out inside the kernel, or new. */
  ghost predicate Suspended(m: Machine, p: nat)
    requires Sized(m) && p < |m.sps|
  {
    var sp := m.sps[p];
    && Base(p) <= sp && sp + SWITCH <= Top(p) && Top(p) <= |m.h.mem|
    && (m.h.mem[sp] == RET_YIELD || m.h.mem[sp] == USER_ENTRY)
    && (m.left[p].Some? <==> m.h.mem[sp] == RET_YIELD)
    && (m.left[p].Some? ==> LeftOn(m.h.mem, sp, m.left[p].value))
    && (m.left[p].None? ==> sp + SWITCH == Top(p) && forall a :: sp < a < Top(p) ==> m.h.mem[a] == 0)
    && (p == 0 ==> m.saved[p].None? && m.h.mem[sp] == RET_YIELD)
    && (p > 0 ==>
          if m.saved[p].Some? then
            sp + SWITCH <= Local(p) && m.h.mem[sp] == RET_YIELD && FrameHolds(m.h.mem, p, m.saved[p].value)
          else m.h.mem[sp] == USER_ENTRY)
  }

  ghost predicate Inv(m: Machine) {
    && Sized(m) && m.live[m.current]
    && (m.mode == InBoot <==> m.current == 0)
    && (m.mode != InBoot ==> m.h.sscratch == Top(m.current))
    && (m.mode == InUser ==> m.saved[m.current].None?)
    && (m.mode == InBoot ==> m.saved[m.current].None?)
    && (m.mode == InKernel ==> m.saved[m.current].Some? && FrameHolds(m.h.mem, m.current, m.saved[m.current].value))
    && (m.mode != InUser ==> Base(m.current) + SWITCH <= m.h.x[SP] <= Limit(m))
    && (forall p :: 0 <= p < |m.sps| && p != m.current && m.live[p] ==> Suspended(m, p))
    && (forall p :: 0 <= p < |m.sps| && !m.live[p] ==> m.saved[p].None? && m.left[p].None?)
  }

  // ----- Every step keeps the invariant -----

  /** The kernel stack of slot `p` is the same in both memories. */
  ghost predicate StackSame(mem: seq<nat>, mem1: seq<nat>, p: nat) {
    |mem1| == |mem| && forall a {:trigger mem1[a]} :: Base(p) <= a < Top(p) && a < |mem| ==> mem1[a] == mem[a]
  }

  lemma FrameKept(mem: seq<nat>, mem1: seq<nat>, p: nat, u: UserState)
    requires FrameHolds(mem, p, u) && |mem1| == |mem|
    requires forall a {:trigger mem1[a]} :: Local(p) <= a < Top(p) && a < |mem| ==> mem1[a] == mem[a]
    ensures FrameHolds(mem1, p, u)
  {
    TrapTables();
  }

  lemma LeftKept(mem: seq<nat>, mem1: seq<nat>, sp: nat, x: seq<nat>)
    requires LeftOn(mem, sp, x) && |mem1| == |mem|
    requires forall a {:trigger mem1[a]} :: sp <= a < sp + SWITCH && a < |mem| ==> mem1[a] == mem[a]
    ensures LeftOn(mem1, sp, x)
  {
  }

  lemma SuspendedKept(s: Machine, t: Machine, p: nat)
    requires Sized(s) && Sized(t) && p < |s.sps| == |t.sps| && Suspended(s, p)
    requires t.sps[p] == s.sps[p] && t.saved[p] == s.saved[p] && t.left[p] == s.left[p]
    requires StackSame(s.h.mem, t.h.mem, p)
    ensures Suspended(t, p)
  {
    if s.left[p].Some? {
      LeftKept(s.h.mem, t.h.mem, s.sps[p], s.left[p].value);
    }
    if s.saved[p].Some? && p > 0 {
      FrameKept(s.h.mem, t.h.mem, p, s.saved[p].value);
    }
  }

  /** Changes within the current slot's stack leave the stacks of all others alone. */
  lemma OwnStackOnly(s: Machine, t: Machine)
    requires Sized(s) && Sized(t) && |t.h.mem| == |s.h.mem| && t.current == s.current
    requires forall a {:trigger t.h.mem[a]} :: 0 <= a < |s.h.mem| && !(Base(s.current) <= a < Top(s.current)) ==>
               t.h.mem[a] == s.h.mem[a]
    ensures forall p :: 0 <= p < |s.sps| && p != s.current ==> StackSame(s.h.mem, t.h.mem, p)
  {
    forall p | 0 <= p < |s.sps| && p != s.current
      ensures StackSame(s.h.mem, t.h.mem, p)
    {
      assert p < s.current ==> Top(p) <= Base(s.current);
      assert s.current < p ==> Top(s.current) <= Base(p);
    }
  }

  lemma OthersKept(s: Machine, t: Machine)
    requires Inv(s) && Sized(t) && t.sps == s.sps && t.live == s.live && t.left == s.left && t.current == s.current
    requires |t.h.mem| == |s.h.mem|
    requires forall p :: 0 <= p < |s.sps| && p != s.current ==> t.saved[p] == s.saved[p]
    requires forall a {:trigger t.h.mem[a]} :: 0 <= a < |s.h.mem| && !(Base(s.current) <= a < Top(s.current)) ==>
               t.h.mem[a] == s.h.mem[a]
    ensures forall p :: 0 <= p < |t.sps| && p != t.current && t.live[p] ==> Suspended(t, p)
  {
    OwnStackOnly(s, t);
    forall p | 0 <= p < |t.sps| && p != t.current && t.live[p]
      ensures Suspended(t, p)
    {
      SuspendedKept(s, t, p);
    }
  }

  lemma StacksFit(s: Machine, p: nat)
    requires Sized(s) && p < |s.sps|
    ensures Top(p) <= |s.h.mem|
  {
  }

  /** What the entry code leaves in the frame. */
  lemma SaveFills(h: Hart, p: nat)
    requires |h.x| == 32 && h.x[0] == 0 && h.sscratch == Top(p) <= |h.mem|
    ensures var g := TrapSave(h);
      && |g.x| == 32 && g.x[0] == 0 && g.x[SP] == FrameOf(p)
      && g.sscratch == Top(p) && g.sepc == h.sepc && |g.mem| == |h.mem|
      && (forall i {:trigger TRAP_REGS[i]} :: 0 <= i < 30 ==> g.mem[FrameOf(p) + i] == h.x[TRAP_REGS[i]])
      && g.mem[FrameOf(p) + 30] == h.x[SP]
      && (forall a {:trigger g.mem[a]} :: 0 <= a < |h.mem| && !(FrameOf(p) <= a < Top(p)) ==> g.mem[a] == h.mem[a])
  {
    TrapTables();
    var sp := FrameOf(p);
    Stores(TRAP_REGS, 0, h.x[SP := sp], h.mem, sp);
  }

  lemma TrapInv(s: Machine, t: Machine)
    requires Inv(s) && CanTrap(s, t)
    ensures Inv(t) && t.saved[s.current] == Some(UserState(s.h.x, s.pc)) && t.mode == InKernel
  {
    var p := s.current;
    StacksFit(s, p);
    SaveFills(s.h.(sepc := s.pc), p);
    OthersKept(s, t);
  }

  lemma KernelRunInv(s: Machine, t: Machine)
    requires Inv(s) && CanKernelRun(s, t)
    ensures Inv(t)
  {
    StacksFit(s, s.current);
    OthersKept(s, t);
    if s.mode == InKernel {
      FrameKept(s.h.mem, t.h.mem, s.current, s.saved[s.current].value);
    }
  }

  lemma SetA0Inv(s: Machine, v: nat, t: Machine)
    requires Inv(s) && CanSetA0(s, v, t)
    ensures Inv(t)
  {
    StacksFit(s, s.current);
    TrapTables();
    OthersKept(s, t);
  }

  /**
   The trap frame, word by word: `handle_trap` gets its address in `a0`, and finds there ra, gp, tp, t0 to t6, a0 to a7,
   s0 to s11 and sp of user mode, in this order.
   */
  lemma TrapFrame(s: Machine, t: Machine, w: nat)
    requires Inv(s) && CanTrap(s, t) && w < 31
    ensures t.h.x[10] == Top(s.current) - 31
    ensures t.h.mem[t.h.x[10] + w] == s.h.x[
      if w == 0 then 1 else if w <= 5 then w + 2 else if w <= 9 then w + 22 else if w <= 17 then w
      else if w <= 19 then w - 10 else if w <= 29 then w - 2 else 2]
  {
    StacksFit(s, s.current);
    SaveFills(s.h.(sepc := s.pc), s.current);
    if w < 30 {
      assert 0 < TRAP_REGS[w] < 32;
    }
  }

  /** Loading a frame gives every register it holds back, for any save order that covers all registers. */
  lemma LoadsFrame(regs: seq<nat>, slots: seq<nat>, x: seq<nat>, mem: seq<nat>, sp: nat, u: seq<nat>)
    requires |regs| == 30 && |slots| == 32 && |x| == 32 && |u| == 32 && x[0] == 0 == u[0] && sp + FRAME <= |mem|
    requires Distinct(regs) && forall i {:trigger regs[i]} :: 0 <= i < 30 ==> 0 < regs[i] < 32
    requires forall q {:trigger slots[q]} :: 0 < q < 32 && q != SP ==> slots[q] < 30 && regs[slots[q]] == q
    requires forall i {:trigger regs[i]} :: 0 <= i < 30 ==> mem[sp + i] == u[regs[i]]
    requires mem[sp + 30] == u[SP]
    ensures LoadFrom(regs, 0, x, mem, sp)[SP := mem[sp + 30]] == u
  {
    Loads(regs, 0, x, mem, sp);
    var y := LoadFrom(regs, 0, x, mem, sp);
    assert regs[0..] == regs;
    forall q | 0 <= q < 32 && q != SP
      ensures y[q] == u[q]
    {
      if q > 0 {
        var k := slots[q];
        assert y[regs[k]] == mem[sp + k];
      }
    }
  }

  /** The load sequence gives every saved register back. */
  lemma RestoreGives(h: Hart, p: nat, u: UserState)
    requires |h.x| == 32 && h.x[0] == 0 && h.x[SP] == FrameOf(p) && FrameHolds(h.mem, p, u)
    ensures TrapRestore(h).x == u.x
  {
    TrapTables();
    TrapDistinct();
    LoadsFrame(TRAP_REGS, SLOTS, h.x, h.mem, FrameOf(p), u.x);
  }

  /**
   Returning from a trap: all registers are as they were at trap entry, apart from a result the system call put into
   `a0`, and execution goes on after the `ecall`.
   */
  lemma ReturnInv(s: Machine, t: Machine)
    requires Inv(s) && CanReturn(s, t)
    ensures Inv(t) && t.mode == InUser && t.current == s.current
    ensures t.h.x == s.saved[s.current].value.x && t.pc == s.saved[s.current].value.pc + 4
    ensures t.h.sscratch == Top(t.current)
  {
    var p := s.current;
    StacksFit(s, p);
    RestoreGives(s.h.(x := s.h.x[SP := FrameOf(p)], sepc := s.h.mem[Local(p)] + 4), p, s.saved[p].value);
    OthersKept(s, t);
  }

  // ----- Switching -----

  /** Register by register, what `switch_context` puts on the old stack. */
  lemma OutFills(h: Hart, p: nat)
    requires |h.x| == 32 && h.x[0] == 0 && Base(p) + SWITCH <= h.x[SP] <= Top(p) <= |h.mem|
    ensures var g, sp := SwitchOut(h), h.x[SP] - SWITCH;
      && |g.x| == 32 && g.x[0] == 0 && g.x[SP] == sp && |g.mem| == |h.mem|
      && g.mem[sp] == h.x[RA]
      && LeftOn(g.mem, sp, h.x)
      && forall a {:trigger g.mem[a]} :: 0 <= a < |h.mem| && !(sp <= a < h.x[SP]) ==> g.mem[a] == h.mem[a]
  {
    SwitchDistinct();
    var sp := h.x[SP] - SWITCH;
    Stores(SWITCH_REGS, 0, h.x[SP := sp], h.mem, sp);
    var g := SwitchOut(h);
    assert g.mem[sp + 0] == h.x[SWITCH_REGS[0]];
  }

  /** Register by register, what it takes from the new one. */
  lemma InGives(h: Hart, sp: nat)
    requires |h.x| == 32 && h.x[0] == 0 && sp + SWITCH <= |h.mem|
    ensures var g := SwitchIn(h, sp);
      && |g.x| == 32 && g.x[0] == 0 && g.x[SP] == sp + SWITCH && g.x[RA] == h.mem[sp]
      && forall k {:trigger SWITCH_REGS[k]} :: 0 <= k < SWITCH ==> g.x[SWITCH_REGS[k]] == h.mem[sp + k]
  {
    SwitchDistinct();
    Loads(SWITCH_REGS, 0, h.x[SP := sp], h.mem, sp);
    assert SWITCH_REGS[0..] == SWITCH_REGS;
    var y := LoadFrom(SWITCH_REGS, 0, h.x[SP := sp], h.mem, sp);
    assert y[SWITCH_REGS[0]] == h.mem[sp + 0];
    assert 0 !in SWITCH_REGS;
  }

  lemma StacksApart(p: nat, q: nat)
    requires p != q
    ensures Top(p) <= Base(q) || Top(q) <= Base(p)
  {
  }

  /** The slot switched out is suspended, with its trap frame and its callee-saved registers on its stack. */
  lemma SwitchedOut(s: Machine, q: nat, t: Machine)
    requires Inv(s) && CanSwitch(s, q, t)
    ensures Sized(t) && t.current == q && |t.sps| == |s.sps| && Suspended(t, s.current)
    ensures forall a {:trigger t.h.mem[a]} :: 0 <= a < |s.h.mem| && !(Base(s.current) <= a < Top(s.current)) ==>
              t.h.mem[a] == s.h.mem[a]
  {
    var p := s.current;
    var called := s.h.x[RA := RET_YIELD];
    var g := s.h.(x := called, sscratch := Top(q));
    StacksFit(s, p);
    OutFills(g, p);
    var out := SwitchOut(g);
    InGives(out, s.sps[q]);
    assert t.h.mem == out.mem;
    if s.mode == InKernel {
      FrameKept(s.h.mem, t.h.mem, p, s.saved[p].value);
    }
  }

  /** What `switch_context` leaves on the old stack, word by word: ra, then s0 to s11. */
  lemma SwitchFrame(s: Machine, q: nat, t: Machine, w: nat)
    requires Inv(s) && CanSwitch(s, q, t) && w < 13
    ensures |t.sps| == |s.sps| && t.sps[s.current] == s.h.x[2] - 13 && s.h.x[2] <= |t.h.mem|
    ensures t.h.mem[t.sps[s.current] + w]
         == if w == 0 then RET_YIELD else s.h.x[if w <= 2 then w + 7 else w + 15]
  {
    SwitchedOut(s, q, t);
    StacksFit(s, s.current);
    assert SWITCH_REGS[w] == if w == 0 then 1 else if w <= 2 then w + 7 else w + 15;
  }

  lemma OtherSuspended(s: Machine, q: nat, t: Machine, p: nat)
    requires Inv(s) && CanSwitch(s, q, t) && p < |s.sps| && p != s.current && s.live[p]
    ensures StackSame(s.h.mem, t.h.mem, p) && Suspended(s, p)
  {
    SwitchedOut(s, q, t);
    StacksApart(p, s.current);
  }

  /** The registers after the switch are those on the stack of the slot switched to. */
  lemma SwitchLoads(s: Machine, q: nat, t: Machine)
    requires Inv(s) && CanSwitch(s, q, t)
    ensures t.h.x[RA] == s.h.mem[s.sps[q]] && t.h.x[SP] == s.sps[q] + SWITCH
    ensures forall k {:trigger SWITCH_REGS[k]} :: 0 <= k < SWITCH ==> t.h.x[SWITCH_REGS[k]] == s.h.mem[s.sps[q] + k]
    ensures t.h.sscratch == Top(q)
    ensures t.mode == if s.h.mem[s.sps[q]] == USER_ENTRY then InUser else if q == 0 then InBoot else InKernel
    ensures t.mode == InUser ==> t.pc == Images.USER_BASE
  {
    var p := s.current;
    var g := s.h.(x := s.h.x[RA := RET_YIELD], sscratch := Top(q));
    StacksFit(s, p);
    OutFills(g, p);
    InGives(SwitchOut(g), s.sps[q]);
    OtherSuspended(s, q, t, q);
    SwitchDistinct();
  }

  lemma SwitchInv(s: Machine, q: nat, t: Machine)
    requires Inv(s) && CanSwitch(s, q, t)
    ensures Inv(t)
  {
    SwitchedOut(s, q, t);
    SwitchLoads(s, q, t);
    OtherSuspended(s, q, t, q);
    if s.saved[q].Some? {
      FrameKept(s.h.mem, t.h.mem, q, s.saved[q].value);
    }
    forall p | 0 <= p < |t.sps| && p != q && t.live[p]
      ensures Suspended(t, p)
    {
      if p != s.current {
        OtherSuspended(s, q, t, p);
        SuspendedKept(s, t, p);
      }
    }
  }

  /**
   A process that goes on inside the kernel finds `ra`, `sp` and s0 to s11 (registers 1, 2, 8, 9 and 18 to 27) as they
   were when it called `switch_context`.
   */
  lemma SwitchBack(s: Machine, q: nat, t: Machine)
    requires Inv(s) && CanSwitch(s, q, t) && s.left[q].Some?
    ensures |s.left[q].value| == 32 && t.mode != InUser
    ensures forall r: nat :: r == 1 || r == 2 || 8 <= r <= 9 || 18 <= r <= 27 ==> t.h.x[r] == s.left[q].value[r]
  {
    SwitchLoads(s, q, t);
    OtherSuspended(s, q, t, q);
    var x := s.left[q].value;
    forall r: nat | CalleeSaved(r)
      ensures t.h.x[r] == x[r]
    {
      var k := SavedAt(r);
      assert t.h.x[SWITCH_REGS[k]] == s.h.mem[s.sps[q] + k];
    }
  }

  /**
   The first switch to a process enters user mode at 16 MiB with s0 to s11 zero, on an empty kernel stack, and the next
   trap will enter on that stack too.
   */
  lemma FirstSwitch(s: Machine, q: nat, t: Machine)
    requires Inv(s) && CanSwitch(s, q, t) && s.left[q].None?
    ensures t.mode == InUser && t.pc == 0x100_0000 && t.h.sepc == 0x100_0000
    ensures t.h.sscratch == Top(q) && t.h.x[2] == Top(q)
    ensures forall r: nat :: 8 <= r <= 9 || 18 <= r <= 27 ==> t.h.x[r] == 0
  {
    SwitchLoads(s, q, t);
    OtherSuspended(s, q, t, q);
    forall r: nat | CalleeSaved(r) && r != 1
      ensures t.h.x[r] == 0
    {
      var k := SavedAt(r);
      assert t.h.x[SWITCH_REGS[k]] == s.h.mem[s.sps[q] + k];
    }
  }

  /** The new slot has a context, and no word outside its stack changed. */
  lemma Spawned(s: Machine, q: nat, t: Machine)
    requires Inv(s) && CanSpawn(s, q, t)
    ensures Sized(t) && Suspended(t, q)
    ensures forall a {:trigger t.h.mem[a]} :: 0 <= a < |s.h.mem| && !(Base(q) <= a < Top(q)) ==>
              t.h.mem[a] == s.h.mem[a]
  {
    StacksFit(s, q);
  }

  lemma SpawnInv(s: Machine, q: nat, t: Machine)
    requires Inv(s) && CanSpawn(s, q, t)
    ensures Inv(t)
  {
    Spawned(s, q, t);
    forall p | 0 <= p < |t.sps| && p != t.current && t.live[p] && p != q
      ensures Suspended(t, p)
    {
      StacksApart(p, q);
      SuspendedKept(s, t, p);
    }
    if s.mode == InKernel {
      StacksFit(s, s.current);
      FrameKept(s.h.mem, t.h.mem, s.current, s.saved[s.current].value);
    }
  }

  lemma StepInv(s: Machine, l: Step, t: Machine)
    requires Inv(s) && Can(s, l, t)
    ensures Inv(t)
  {
    match l
    case UserRun => UserRunInv(s, t);
    case Trap => TrapInv(s, t);
    case KernelRun => KernelRunInv(s, t);
    case SetA0(v) => SetA0Inv(s, v, t);
    case SwitchTo(q) => SwitchInv(s, q, t);
    case Return => ReturnInv(s, t);
    case Spawn(q) => SpawnInv(s, q, t);
  }

  lemma UserRunInv(s: Machine, t: Machine)
    requires Inv(s) && CanUserRun(s, t)
    ensures Inv(t)
  {
    OthersKept(s, t);
  }

  // ----- Runs -----

  /** `ms[i]` and `ls[i]` are the states and the steps of a run. */
  ghost predicate Run(ms: seq<Machine>, ls: seq<Step>) {
    && |ms| == |ls| + 1
    && Sized(ms[0])
    && forall i {:trigger ls[i]} :: 0 <= i < |ls| ==> Sized(ms[i]) && Can(ms[i], ls[i], ms[i + 1])
  }

  /** After boot: `kmain` runs on the stack of slot 0 and no slot has a context yet. */
  ghost predicate Booted(m: Machine) {
    && Sized(m) && m.mode == InBoot && m.current == 0
    && Base(0) + SWITCH <= m.h.x[SP] <= Top(0)
    && forall p :: 0 <= p < |m.sps| ==> (m.live[p] <==> p == 0) && m.saved[p].None? && m.left[p].None?
  }

  lemma {:induction false} RunInv(ms: seq<Machine>, ls: seq<Step>, i: nat)
    requires Run(ms, ls) && Inv(ms[0]) && i <= |ls|
    ensures Inv(ms[i])
    decreases i
  {
    if i > 0 {
      RunInv(ms, ls, i - 1);
      RunStep(ms, ls, i - 1);
      StepInv(ms[i - 1], ls[i - 1], ms[i]);
    }
  }

  /**
   In every run from boot, whenever user code runs `sscratch` is the top of the current process's kernel stack of 8192
   bytes (a word is 8 bytes), and every process that is inside a trap has its user state, whole, in its trap frame.
   */
  lemma RunSafe(ms: seq<Machine>, ls: seq<Step>, i: nat)
    requires Run(ms, ls) && Booted(ms[0]) && i <= |ls|
    ensures Inv(ms[i])
    ensures ms[i].mode == InUser ==> ms[i].h.sscratch * 8 == (ms[i].current + 1) * 8192
  {
    assert Inv(ms[0]);
    RunInv(ms, ls, i);
  }

  /** The last value a system call of `p` put into `a0` among the first `i` steps, or `d`. */
  function ResultOf(ms: seq<Machine>, ls: seq<Step>, p: nat, i: nat, d: nat): nat
    requires i <= |ls| && i <= |ms|
    decreases i
  {
    if i == 0 then d
    else if ls[i - 1].SetA0? && ms[i - 1].current == p then ls[i - 1].v
    else ResultOf(ms, ls, p, i - 1, d)
  }

  /** A step that is not a return of `p` leaves the user state that `p` is to get back, but for a result in `a0`. */
  lemma SavedKept(s: Machine, l: Step, t: Machine, p: nat)
    requires Inv(s) && Can(s, l, t) && p < |s.sps| && s.saved[p].Some?
    requires !(l.Return? && s.current == p)
    ensures var u := s.saved[p].value;
      t.saved[p] == Some(if l.SetA0? && s.current == p then u.(x := u.x[A0 := l.v]) else u)
    ensures |s.saved[p].value.x| == 32
  {
    assert p != s.current ==> s.live[p] && Suspended(s, p);
  }

  /** The user state `u` with `v` in `a0`. */
  function WithResult(u: UserState, v: nat): UserState
    requires |u.x| == 32
  {
    u.(x := u.x[A0 := v])
  }

  lemma SavedStep(s: Machine, l: Step, t: Machine, p: nat, u: UserState, v: nat)
    requires Inv(s) && Can(s, l, t) && p < |s.sps| && |u.x| == 32 && s.saved[p] == Some(WithResult(u, v))
    requires !(l.Return? && s.current == p)
    ensures p < |t.saved| && t.saved[p] == Some(WithResult(u, if l.SetA0? && s.current == p then l.v else v))
  {
    SavedKept(s, l, t, p);
    if l.SetA0? {
      assert u.x[A0 := v][A0 := l.v] == u.x[A0 := l.v];
    }
  }

  lemma RunStep(ms: seq<Machine>, ls: seq<Step>, i: nat)
    requires Run(ms, ls) && i < |ls|
    ensures Sized(ms[i]) && Can(ms[i], ls[i], ms[i + 1])
  {
    assert ls[i] == ls[i];
  }

  lemma {:induction false} SavedInRun(ms: seq<Machine>, ls: seq<Step>, p: nat, u: UserState, i: nat)
    requires Run(ms, ls) && 0 < i <= |ls| && Inv(ms[0]) && ls[0] == Trap && ms[0].current == p
    requires u == UserState(ms[0].h.x, ms[0].pc) && |u.x| == 32
    requires forall j {:trigger ls[j]} :: 0 < j < i && ms[j].current == p ==> ls[j] != Return
    ensures p < |ms[i].saved| && ms[i].saved[p] == Some(WithResult(u, ResultOf(ms, ls, p, i, u.x[A0])))
    decreases i
  {
    RunStep(ms, ls, i - 1);
    if i == 1 {
      TrapInv(ms[0], ms[1]);
      assert ResultOf(ms, ls, p, 1, u.x[A0]) == ResultOf(ms, ls, p, 0, u.x[A0]);
      assert u.x[A0 := u.x[A0]] == u.x;
    } else {
      SavedInRun(ms, ls, p, u, i - 1);
      RunInv(ms, ls, i - 1);
      SavedStep(ms[i - 1], ls[i - 1], ms[i], p, u, ResultOf(ms, ls, p, i - 1, u.x[A0]));
    }
  }

  /** `t` is user code of `p` going on after the system call it made in `s`, with result `v`. */
  predicate Returned(s: Machine, t: Machine, p: nat, v: nat) {
    && t.mode == InUser && t.current == p
    && |s.h.x| == 32 && t.h.x == s.h.x[A0 := v]
    && t.pc == s.pc + 4
    && t.h.sscratch == Top(p)
  }

  lemma ReturnGives(s: Machine, t: Machine, p: nat, u: UserState, v: nat)
    requires Inv(s) && Can(s, Return, t) && s.current == p && |u.x| == 32 && s.saved[p] == Some(WithResult(u, v))
    ensures t.mode == InUser && t.current == p && t.h.x == u.x[A0 := v] && t.pc == u.pc + 4 && t.h.sscratch == Top(p)
  {
    ReturnInv(s, t);
  }

  /**
   Round trip over whole runs: from the trap of a process to its return, whatever other processes do in between, all
   its registers come back, except that `a0` holds the last result of the system call, and execution goes on after
   the `ecall`.
   */
  lemma TrapRoundTrip(ms: seq<Machine>, ls: seq<Step>, p: nat, n: nat)
    requires Run(ms, ls) && 0 < n < |ls| && Inv(ms[0])
    requires ls[0] == Trap && ms[0].current == p
    requires ls[n] == Return && ms[n].current == p
    requires forall j {:trigger ls[j]} :: 0 < j < n && ms[j].current == p ==> ls[j] != Return
    ensures Returned(ms[0], ms[n + 1], p, ResultOf(ms, ls, p, n, ms[0].h.x[A0]))
  {
    var u := UserState(ms[0].h.x, ms[0].pc);
    var v := ResultOf(ms, ls, p, n, ms[0].h.x[A0]);
    SavedInRun(ms, ls, p, u, n);
    RunInv(ms, ls, n);
    RunStep(ms, ls, n);
    ReturnGives(ms[n], ms[n + 1], p, u, v);
  }

  lemma RunTail(ms: seq<Machine>, ls: seq<Step>, i: nat)
    requires Run(ms, ls) && i <= |ls| && Sized(ms[i])
    ensures Run(ms[i..], ls[i..])
  {
    var tm, tl := ms[i..], ls[i..];
    assert |tm| == |tl| + 1 && tm[0] == ms[i];
    forall k | 0 <= k < |tl|
      ensures Sized(tm[k]) && Can(tm[k], tl[k], tm[k + 1])
    {
      RunStep(ms, ls, i + k);
      assert tm[k] == ms[i + k] && tm[k + 1] == ms[i + k + 1] && tl[k] == ls[i + k];
    }
  }

  /** The same for every trap and its return anywhere in a run from boot. */
  lemma EveryTrapReturns(ms: seq<Machine>, ls: seq<Step>, i: nat, n: nat, p: nat)
    requires Run(ms, ls) && Booted(ms[0]) && i < n < |ls|
    requires ls[i] == Trap && ms[i].current == p
    requires ls[n] == Return && ms[n].current == p
    requires forall j {:trigger ls[j]} :: i < j < n && ms[j].current == p ==> ls[j] != Return
    ensures Sized(ms[i]) && Returned(ms[i], ms[n + 1], p, ResultOf(ms[i..], ls[i..], p, n - i, ms[i].h.x[A0]))
  {
    RunSafe(ms, ls, i);
    RunTail(ms, ls, i);
    forall j {:trigger ls[i..][j]} | 0 < j < n - i && ms[i..][j].current == p
      ensures ls[i..][j] != Return
    {
      assert ls[i..][j] == ls[i + j];
    }
    TrapRoundTrip(ms[i..], ls[i..], p, n - i);
  }

  // ----- Context switches in runs -----

  /** Slot `p` has a context and is not current; its kernel stack is that of `mem`, and `left` is what it left. */
  ghost predicate Waits(m: Machine, p: nat, left: Option<seq<nat>>, mem: seq<nat>) {
    && p < |m.sps| == |m.left| == |m.live| && p != m.current && m.live[p] && m.left[p] == left
    && StackSame(mem, m.h.mem, p)
  }

  lemma SpawnStack(s: Machine, q: nat, t: Machine, p: nat)
    requires Inv(s) && CanSpawn(s, q, t) && p < |s.sps| && s.live[p]
    ensures StackSame(s.h.mem, t.h.mem, p)
  {
    StacksApart(p, q);
    StacksFit(s, q);
  }

  /** No step that leaves slot `p` waiting writes to its kernel stack. */
  lemma WaitStack(s: Machine, l: Step, t: Machine, p: nat)
    requires Inv(s) && Can(s, l, t) && p < |s.sps| && p != s.current && s.live[p]
    ensures StackSame(s.h.mem, t.h.mem, p)
  {
    StacksFit(s, s.current);
    StacksApart(p, s.current);
    match l
    case UserRun =>
    case Trap => SaveFills(s.h.(sepc := s.pc), s.current);
    case KernelRun =>
    case SetA0(v) =>
    case SwitchTo(q) => SwitchedOut(s, q, t);
    case Return =>
    case Spawn(q) => SpawnStack(s, q, t, p);
  }

  lemma WaitStep(s: Machine, l: Step, t: Machine, p: nat, left: Option<seq<nat>>, mem: seq<nat>)
    requires Inv(s) && Can(s, l, t) && Waits(s, p, left, mem) && l != SwitchTo(p)
    ensures Waits(t, p, left, mem)
  {
    WaitStack(s, l, t, p);
  }

  lemma {:induction false} WaitRun(ms: seq<Machine>, ls: seq<Step>, p: nat, left: Option<seq<nat>>, mem: seq<nat>,
                                   i: nat, n: nat)
    requires Run(ms, ls) && Inv(ms[0]) && i <= n <= |ls| && Waits(ms[i], p, left, mem)
    requires forall j {:trigger ls[j]} :: i <= j < n ==> ls[j] != SwitchTo(p)
    ensures Waits(ms[n], p, left, mem)
    decreases n
  {
    if i < n {
      WaitRun(ms, ls, p, left, mem, i, n - 1);
      RunInv(ms, ls, n - 1);
      RunStep(ms, ls, n - 1);
      WaitStep(ms[n - 1], ls[n - 1], ms[n], p, left, mem);
    }
  }

  /** The stack above the stack pointer is untouched by `switch_context`. */
  lemma SwitchAway(s: Machine, q: nat, t: Machine)
    requires Inv(s) && CanSwitch(s, q, t)
    ensures Waits(t, s.current, Some(s.h.x[RA := RET_YIELD]), t.h.mem)
    ensures |t.h.mem| == |s.h.mem| && forall a :: s.h.x[SP] <= a < |s.h.mem| ==> t.h.mem[a] == s.h.mem[a]
  {
    SwitchedOut(s, q, t);
    var g := s.h.(x := s.h.x[RA := RET_YIELD], sscratch := Top(q));
    StacksFit(s, s.current);
    OutFills(g, s.current);
    assert t.h.mem == SwitchOut(g).mem;
  }

  /** `t` is the kernel code of `p` going on after the call of `switch_context` it made in `s`. */
  ghost predicate SwitchedBack(s: Machine, t: Machine, p: nat) {
    && t.current == p && t.mode == s.mode && |s.h.x| == |t.h.x| == 32 && |t.h.mem| == |s.h.mem|
    && t.h.x[1] == RET_YIELD && t.h.x[2] == s.h.x[2]
    && (forall r: nat :: 8 <= r <= 9 || 18 <= r <= 27 ==> t.h.x[r] == s.h.x[r])
    && forall a: nat {:trigger t.h.mem[a]} :: s.h.x[2] <= a < Top(p) && a < |s.h.mem| ==> t.h.mem[a] == s.h.mem[a]
  }

  lemma BackGives(s: Machine, q: nat, t: Machine, x: seq<nat>, mem: seq<nat>)
    requires Inv(s) && CanSwitch(s, q, t) && Waits(s, q, Some(x), mem) && |mem| == |s.h.mem|
    ensures |x| == 32 && t.mode != InUser && t.current == q && StackSame(mem, t.h.mem, q)
    ensures forall r: nat :: r == 1 || r == 2 || 8 <= r <= 9 || 18 <= r <= 27 ==> t.h.x[r] == x[r]
  {
    SwitchBack(s, q, t);
    OtherSuspended(s, q, t, q);
  }

  /**
   Over whole runs from boot: between the call of `switch_context` that a process makes and the switch back to it,
   whatever runs in between, `ra` leads back into `yield`, `sp` and s0 to s11 are as they were, and so is everything on
   its kernel stack.
   */
  lemma EverySwitchReturns(ms: seq<Machine>, ls: seq<Step>, i: nat, n: nat, p: nat)
    requires Run(ms, ls) && Booted(ms[0]) && i < n < |ls|
    requires ls[i].SwitchTo? && ms[i].current == p && ls[n] == SwitchTo(p)
    requires forall j {:trigger ls[j]} :: i < j < n ==> ls[j] != SwitchTo(p)
    ensures SwitchedBack(ms[i], ms[n + 1], p)
  {
    RunSafe(ms, ls, i);
    RunStep(ms, ls, i);
    SwitchAway(ms[i], ls[i].q, ms[i + 1]);
    WaitRun(ms, ls, p, Some(ms[i].h.x[RA := RET_YIELD]), ms[i + 1].h.mem, i + 1, n);
    RunSafe(ms, ls, n);
    RunStep(ms, ls, n);
    RunSafe(ms, ls, n + 1);
    AwayAndBack(ms[i], ls[i].q, ms[i + 1], ms[n], ms[n + 1]);
  }

  lemma AwayAndBack(s: Machine, q: nat, s1: Machine, t: Machine, t1: Machine)
    requires Inv(s) && CanSwitch(s, q, s1)
    requires Inv(t) && CanSwitch(t, s.current, t1) && Inv(t1)
    requires Waits(t, s.current, Some(s.h.x[RA := RET_YIELD]), s1.h.mem)
    ensures SwitchedBack(s, t1, s.current)
  {
    var x := s.h.x[RA := RET_YIELD];
    SwitchAway(s, q, s1);
    BackGives(t, s.current, t1, x, s1.h.mem);
    assert forall r: nat :: 8 <= r <= 9 || 18 <= r <= 27 ==> x[r] == s.h.x[r];
  }

  /** And the first switch to a new process, whenever it comes, enters user mode at 16 MiB, where its image starts. */
  lemma EverySpawnStarts(ms: seq<Machine>, ls: seq<Step>, i: nat, n: nat, p: nat)
    requires Run(ms, ls) && Booted(ms[0]) && i < n < |ls|
    requires ls[i] == Spawn(p) && ls[n] == SwitchTo(p)
    requires forall j {:trigger ls[j]} :: i < j < n ==> ls[j] != SwitchTo(p)
    ensures ms[n + 1].current == p && ms[n + 1].mode == InUser && ms[n + 1].pc == 0x100_0000
    ensures ms[n + 1].h.sepc == 0x100_0000 && ms[n + 1].h.sscratch == Top(p)
  {
    RunSafe(ms, ls, i);
    RunStep(ms, ls, i);
    WaitRun(ms, ls, p, None, ms[i + 1].h.mem, i + 1, n);
    RunSafe(ms, ls, n);
    RunStep(ms, ls, n);
    FirstSwitch(ms[n], p, ms[n + 1]);
  }
}
