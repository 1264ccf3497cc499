/** The trap entry code, the return path and the context switch as they run on the registers and on memory. */
module TrapCode {
  import opened TrapContext
  import Images

  class Cpu {
    const x: array<nat>    // the integer registers
    const mem: array<nat>  // the words of all kernel stacks
    var sscratch: nat
    var sepc: nat

    ghost predicate Valid()
      reads this, x
    {
      x != mem && x.Length == 32 && x[0] == 0
    }

    ghost function Now(): Hart
      reads this, x, mem
    {
      Hart(x[..], sscratch, sepc, mem[..])
    }

    /** A processor at reset, with some memory. */
    constructor (memory: array<nat>)
      ensures Valid() && mem == memory && fresh(x)
    {
      x := new nat[32](_ => 0);
      mem := memory;
      sscratch, sepc := 0, 0;
    }

    /** `sd` of the given registers to consecutive words from `sp` on. */
    method StoreRegs(regs: seq<nat>, sp: nat)
      requires Valid() && sp + |regs| <= mem.Length && forall k :: 0 <= k < |regs| ==> regs[k] < 32
      modifies mem
      ensures mem[..] == StoreFrom(regs, 0, x[..], old(mem[..]), sp)
    {
      ghost var goal := StoreFrom(regs, 0, x[..], mem[..], sp);
      var i := 0;
      while i < |regs|
        invariant i <= |regs|
        invariant StoreFrom(regs, i, x[..], mem[..], sp) == goal
      {
        ghost var before := mem[..];
        mem[sp + i] := x[regs[i]];
        assert mem[..] == before[sp + i := x[..][regs[i]]];
        i := i + 1;
      }
    }

    /** `ld` of the given registers from consecutive words from `sp` on. */
    method LoadRegs(regs: seq<nat>, sp: nat)
      requires Valid() && sp + |regs| <= mem.Length && forall k :: 0 <= k < |regs| ==> 0 < regs[k] < 32
      modifies x
      ensures Valid() && x[..] == LoadFrom(regs, 0, old(x[..]), mem[..], sp)
    {
      ghost var goal := LoadFrom(regs, 0, x[..], mem[..], sp);
      var i := 0;
      while i < |regs|
        invariant i <= |regs| && x[0] == 0
        invariant LoadFrom(regs, i, x[..], mem[..], sp) == goal
      {
        ghost var before := x[..];
        x[regs[i]] := mem[sp + i];
        assert x[..] == before[regs[i] := mem[..][sp + i]];
        i := i + 1;
      }
    }

    /** `kernel_trap_context_save` up to the call of `handle_trap`. */
    method KernelTrapContextSave()
      requires Valid() && FRAME <= sscratch <= mem.Length
      modifies this, x, mem
      ensures Valid() && Now() == TrapSave(old(Now()))
    {
      TrapTables();
      ghost var h := Now();
      var t := x[SP];
      x[SP] := sscratch;
      sscratch := t;
      x[SP] := x[SP] - FRAME;
      ghost var sp := x[SP];
      assert x[..] == h.x[SP := sp];
      StoreRegs(TRAP_REGS, x[SP]);
      ghost var m1 := mem[..];
      x[A0] := sscratch;
      mem[x[SP] + 30] := x[A0];
      x[A0] := x[SP] + FRAME;
      sscratch := x[A0];
      x[A0] := x[SP];
      x[RA] := RET_TRAP;
      assert mem[..] == m1[sp + 30 := h.x[SP]];
      assert x[..] == h.x[SP := sp][A0 := sp][RA := RET_TRAP];
    }

    /** The loads before `sret`. */
    method TrapReturn()
      requires Valid() && x[SP] + FRAME <= mem.Length
      modifies x
      ensures Valid() && Now() == TrapRestore(old(Now()))
    {
      TrapTables();
      ghost var h := Now();
      var sp := x[SP];
      LoadRegs(TRAP_REGS, sp);
      KeepsSp(h.x, h.mem, sp);
      ghost var x1 := x[..];
      x[SP] := mem[x[SP] + 30];
      assert x[..] == x1[SP := h.mem[sp + 30]];
    }

    /** The load sequence does not touch `sp`, so every load uses the same base. */
    lemma KeepsSp(r: seq<nat>, m: seq<nat>, sp: nat)
      requires |r| == 32 && sp + FRAME <= |m|
      ensures |TRAP_REGS| == 30 && (forall k :: 0 <= k < 30 ==> TRAP_REGS[k] < 32)
      ensures LoadFrom(TRAP_REGS, 0, r, m, sp)[SP] == r[SP]
    {
      TrapTables();
      TrapDistinct();
      Loads(TRAP_REGS, 0, r, m, sp);
      assert TRAP_REGS[0..] == TRAP_REGS;
      assert SP !in TRAP_REGS;
    }

    /** `switch_context(&prev->sp, &next->sp)`: returns the stack pointer it stores through its first argument. */
    method SwitchContext(nextSp: nat) returns (prevSp: nat)
      requires Valid() && SWITCH <= x[SP] <= mem.Length && nextSp + SWITCH <= mem.Length
      modifies x, mem
      ensures Valid() && prevSp == SwitchOut(old(Now())).x[SP]
      ensures Now() == SwitchIn(SwitchOut(old(Now())), nextSp)
    {
      SwitchDistinct();
      ghost var h := Now();
      x[SP] := x[SP] - SWITCH;
      assert x[..] == h.x[SP := x[SP]];
      StoreRegs(SWITCH_REGS, x[SP]);
      prevSp := x[SP];
      ghost var x1 := x[..];
      x[SP] := nextSp;
      assert x[..] == x1[SP := nextSp];
      LoadRegs(SWITCH_REGS, nextSp);
      ghost var x2 := x[..];
      var sp: nat := nextSp + SWITCH;
      x[SP] := sp;
      assert x[..] == x2[SP := sp];
    }

    /** The end of `yield` as it runs, and the first instruction of `user_entry` when that is where it leads. */
    method SwitchTo(top: nat, nextSp: nat) returns (prevSp: nat)
      requires Valid() && SWITCH <= x[SP] <= mem.Length && nextSp + SWITCH <= mem.Length
      modifies this, x, mem
      ensures Valid() && prevSp == old(x[SP]) - SWITCH && Now() == SwitchHart(old(Now()), top, nextSp)
    {
      ghost var h := Now();
      sscratch := top;
      x[RA] := RET_YIELD;
      assert x[..] == h.x[RA := RET_YIELD];
      prevSp := SwitchContext(nextSp);
      if x[RA] == USER_ENTRY {
        sepc := Images.USER_BASE;
      }
    }
  }
}
