/**
 Address translation as the RISC-V Privileged Architecture 1.12 defines it for Sv39 (sections 4.3.2 and 4.4), written
 from the standard and independent of the kernel's walk. Access permissions and the A and D bits are left aside.
 */
module Sv39 {
  import opened Arithmetic
  import opened Buddy
  import opened Memories
  import opened PageEntries
  import opened PageTrees

  datatype Outcome = PageFault | Physical(addr: nat)

  function Bit(x: nat, n: nat): bool {
    x / Pow2(n) % 2 == 1
  }

  /** Bits 53 to 10 of an entry. */
  function Ppn(pte: nat): nat {
    pte / 1024 % 0x1000_0000_0000
  }

  /** `va.vpn[i]`. */
  function VpnField(va: nat, i: nat): nat
    requires i <= 2
  {
    if i == 0 then va / 0x1000 % 512 else if i == 1 then va / 0x20_0000 % 512 else va / 0x4000_0000 % 512
  }

  /** The bytes a leaf at level `i` maps: 4 KiB, 2 MiB or 1 GiB. */
  function LeafSpan(i: nat): nat
    requires i <= 2
  {
    if i == 0 then 0x1000 else if i == 1 then 0x20_0000 else 0x4000_0000
  }

  function Reserved(pte: nat): bool {
    pte / 0x40_0000_0000_0000 != 0
  }

  /** Steps 2 to 8 of the translation process, from level `i` with the table at `a`. */
  function Level(m: Memory, a: nat, va: nat, i: nat): Outcome
    requires i <= 2
    decreases i
  {
    var pte := m.Word(a + VpnField(va, i) * 8);
    if !Bit(pte, 0) || (!Bit(pte, 1) && Bit(pte, 2)) || Reserved(pte) then PageFault
    else if Bit(pte, 1) || Bit(pte, 3) then
      var base := Ppn(pte) * PAGE;
      if base % LeafSpan(i) != 0 then PageFault else Physical(base + va % LeafSpan(i))
    else if i == 0 then PageFault
    else Level(m, Ppn(pte) * PAGE, va, i - 1)
  }

  /** Bits 63 to 39 of a 64-bit address equal bit 38. */
  predicate CanonicalVa(va: nat) {
    va < 0x40_0000_0000 || TWO64 - 0x40_0000_0000 <= va < TWO64
  }

  function Sv39Translate(m: Memory, root: nat, va: nat): Outcome {
    if !CanonicalVa(va) then PageFault else Level(m, root, va, 2)
  }

  /** A leaf the standard accepts: readable or executable, not writable without being readable, no reserved bit. */
  predicate GoodLeaf(pte: nat) {
    (Bit(pte, 1) || Bit(pte, 3)) && !(!Bit(pte, 1) && Bit(pte, 2)) && !Reserved(pte)
  }

  lemma LowBits(pte: nat)
    ensures Bit(pte, 0) <==> pte % 2 == 1
    ensures pte % 1024 == 1 ==> Bit(pte, 0) && !Bit(pte, 1) && !Bit(pte, 2) && !Bit(pte, 3)
  {
    assert Pow2(0) == 1;
    assert Pow2(1) == 2;
    assert Pow2(2) == 4;
    assert Pow2(3) == 8;
  }

  lemma PointerStep(pte: nat, t: nat)
    requires t % PAGE == 0 && t < 0x4000_0000_0000 && pte == PointerPte(t)
    ensures Bit(pte, 0) && !Bit(pte, 1) && !Bit(pte, 2) && !Bit(pte, 3) && !Reserved(pte)
    ensures Ppn(pte) * PAGE == t
  {
    PointerRoundTrip(t);
    LowBits(pte);
    DivModUnique(t / PAGE, 0x1000_0000_0000, 0, t / PAGE);
  }

  lemma Fields(va: nat)
    ensures VpnField(va, 2) == Vpn(va) / 0x4_0000
    ensures VpnField(va, 1) == Vpn(va) / 512 % 512
    ensures VpnField(va, 0) == Vpn(va) % 512
  {
    VpnMasks(va);
    VpnParts(va);
  }

  lemma LeafStep(m: Memory, a: nat, va: nat, pte: nat)
    requires pte == m.Word(a + VpnField(va, 0) * 8) && IsValid(pte)
    ensures Level(m, a, va, 0) == if GoodLeaf(pte) then Physical(LeafAddr(pte, va)) else PageFault
  {
    LowBits(pte);
    ValidIsOdd(pte);
    LeafAddrIs(pte, va);
    DivModUnique(Ppn(pte) * PAGE, PAGE, Ppn(pte), 0);
    assert LeafSpan(0) == PAGE;
  }

  lemma FaultStep(m: Memory, a: nat, va: nat, i: nat)
    requires i <= 2 && !IsValid(m.Word(a + VpnField(va, i) * 8))
    ensures Level(m, a, va, i) == PageFault
  {
    LowBits(m.Word(a + VpnField(va, i) * 8));
    ValidIsOdd(m.Word(a + VpnField(va, i) * 8));
  }

  lemma TableStep(m: Memory, f: nat, va: nat, i: nat, pte: nat)
    requires 0 < i <= 2 && pte == m.Word(f + VpnField(va, i) * 8)
    requires Encodable(NextTable(pte)) && pte == PointerPte(NextTable(pte))
    ensures Level(m, f, va, i) == Level(m, NextTable(pte), va, i - 1)
  {
    PointerStep(pte, NextTable(pte));
  }

  /** One level of the hardware walk, at an entry that is invalid or points to a table of the kernel. */
  lemma OneTable(m: Memory, frames: Frames, f: nat, va: nat, i: nat, role: Role)
    requires 0 < i <= 2 && TreeOk(m, frames) && VpnField(va, i) < 512
    requires IsValid(Entry(m, f, VpnField(va, i))) ==> Points(m, frames, f, VpnField(va, i), role)
    ensures var pte := Entry(m, f, VpnField(va, i));
      Level(m, f, va, i) == if IsValid(pte) then Level(m, NextTable(pte), va, i - 1) else PageFault
  {
    var pte := Entry(m, f, VpnField(va, i));
    if IsValid(pte) {
      TableStep(m, f, va, i, pte);
    } else {
      FaultStep(m, f, va, i);
    }
  }

  /** The hardware walk, two tables down. */
  lemma TwoTables(m: Memory, frames: Frames, root: nat, va: nat)
    requires TreeOk(m, frames) && IsRoot(frames, root)
    ensures var pte2 := Entry(m, root, Vpn(va) / 0x4_0000);
      if !IsValid(pte2) then Level(m, root, va, 2) == PageFault
      else
        var pte1 := Entry(m, NextTable(pte2), Vpn(va) / 512 % 512);
        Level(m, root, va, 2) == if IsValid(pte1) then Level(m, NextTable(pte1), va, 0) else PageFault
  {
    var i, j := Vpn(va) / 0x4_0000, Vpn(va) / 512 % 512;
    Fields(va);
    VpnParts(va);
    WalkFrames(m, frames, root, Vpn(va));
    OneTable(m, frames, root, va, 2, Mid(root, i));
    if IsValid(Entry(m, root, i)) {
      OneTable(m, frames, NextTable(Entry(m, root, i)), va, 1, Low(root, i, j));
    }
  }

  /**
   On the tables the kernel builds and for canonical addresses, the hardware walk and `vaddr_to_paddr` agree: both
   miss, or both give the same physical address, exactly when the leaf is one the standard accepts.
   */
  lemma WalkMeetsStandard(m: Memory, frames: Frames, root: nat, va: nat)
    requires TreeOk(m, frames) && IsRoot(frames, root) && CanonicalVa(va)
    ensures Sv39Translate(m, root, va) ==
      match Walk(m, root, Vpn(va))
      case None => PageFault
      case Some(pte) => if GoodLeaf(pte) then Physical(Translate(m, root, va)) else PageFault
  {
    Fields(va);
    TwoTables(m, frames, root, va);
    var pte2 := Entry(m, root, Vpn(va) / 0x4_0000);
    var pte1 := Entry(m, NextTable(pte2), Vpn(va) / 512 % 512);
    var f := NextTable(pte1);
    if IsValid(pte2) && IsValid(pte1) {
      var pte0 := Entry(m, f, Vpn(va) % 512);
      if IsValid(pte0) {
        LeafStep(m, f, va, pte0);
      } else {
        FaultStep(m, f, va, 0);
      }
    }
  }
}
