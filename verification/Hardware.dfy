/**
 What the Sv39 hardware makes of the mappings of `map_page` and of the address spaces of `create_process`: which flags
 give a page the standard accepts, and what a process then reads.
 */
module Hardware {
  import opened Arithmetic
  import opened Bits
  import opened Buddy
  import opened Images
  import opened Memories
  import opened PageEntries
  import opened PageTrees
  import opened Paging
  import opened Sv39
  import opened Wrappers

  // ----- Which flags the standard accepts -----

  /** Readable or executable, and writable only together with readable. */
  predicate GoodFlags(flags: nat) {
    (Has(flags, PAGE_R) || Has(flags, PAGE_X)) && (Has(flags, PAGE_W) ==> Has(flags, PAGE_R))
  }

  lemma BitsOfEntry(pte: nat)
    ensures Bit(pte, 1) <==> Has(pte, PAGE_R)
    ensures Bit(pte, 2) <==> Has(pte, PAGE_W)
    ensures Bit(pte, 3) <==> Has(pte, PAGE_X)
    ensures Bit(pte, 4) <==> Has(pte, PAGE_U)
  {
    assert Pow2(1) == 2;
    assert Pow2(2) == 4;
    assert Pow2(3) == 8;
    assert Pow2(4) == 16;
  }

  lemma NothingReserved(paddr: nat, flags: nat)
    requires flags < 0x1_0000_0000
    ensures !Reserved(LeafPte(paddr, flags))
  {
    LeafParts(paddr, flags);
    DivModUnique(LeafPte(paddr, flags), 0x40_0000_0000_0000, 0, LeafPte(paddr, flags));
  }

  /**
   The standard accepts the leaf that `map_page` writes if and only if its flags are good. Of the flags that get past
   the guard of `map_page`, those are exactly the ones that do not ask for writing without reading.
   */
  lemma LeafAcceptedIff(paddr: nat, flags: nat)
    requires flags < 0x1_0000_0000
    ensures GoodLeaf(LeafPte(paddr, flags)) <==> GoodFlags(flags)
    ensures And(flags, 0xE) != 0 ==> (GoodFlags(flags) <==> !Has(flags, PAGE_W) || Has(flags, PAGE_R))
  {
    BitsOfEntry(LeafPte(paddr, flags));
    NothingReserved(paddr, flags);
    LeafBit(paddr, flags, PAGE_R, 512);
    LeafBit(paddr, flags, PAGE_W, 256);
    LeafBit(paddr, flags, PAGE_X, 128);
    PermissionBits(flags);
  }

  // ----- After map_page -----

  /** What `map_page` does to the tables when it does not panic. */
  ghost predicate Mapped(s: Space, t: Space, root: nat, vaddr: nat, paddr: nat, flags: nat) {
    && TreeOk(s.m, s.frames) && TreeOk(t.m, t.frames) && Extends(s.frames, t.frames) && IsRoot(s.frames, root)
    && MapsOne(s.m, t.m, s.frames, root, Vpn(vaddr), LeafPte(paddr, flags))
  }

  /** The hardware's view of one page: the address, unless the flags or the address are not what the standard wants. */
  function ViewOf(flags: nat, paddr: nat, va: nat): Outcome {
    if CanonicalVa(va) && GoodFlags(flags) then Physical(paddr) else PageFault
  }

  /**
   After `map_page` the hardware translates the addresses of the page to the physical page, if the flags are good and
   the address is canonical, and faults on them if not; everything else it translates as before.
   */
  lemma MappedForHardware(s: Space, t: Space, root: nat, vaddr: nat, paddr: nat, flags: nat, r: nat, va: nat)
    requires Mapped(s, t, root, vaddr, paddr, flags) && IsRoot(s.frames, r)
    requires paddr % PAGE == 0 && paddr < 0x4000_0000_0000 && flags < 1024
    ensures Sv39Translate(t.m, r, va) ==
      if r == root && Vpn(va) == Vpn(vaddr) then ViewOf(flags, paddr + va % PAGE, va) else Sv39Translate(s.m, r, va)
  {
    MappedTranslates(s.m, t.m, s.frames, root, Vpn(vaddr), paddr, flags, r, va);
    LeafAcceptedIff(paddr, flags);
    assert Vpn(va) < VPNS;
    assert Walk(t.m, r, Vpn(va))
      == if r == root && Vpn(va) == Vpn(vaddr) then Some(LeafPte(paddr, flags)) else Walk(s.m, r, Vpn(va));
    if CanonicalVa(va) {
      WalkMeetsStandard(s.m, s.frames, r, va);
      WalkMeetsStandard(t.m, t.frames, r, va);
    }
  }

  /** Flags that ask for writing only get past the guard, and `vaddr_to_paddr` translates, but the hardware faults. */
  lemma WriteOnlyFaults(s: Space, t: Space, root: nat, vaddr: nat, paddr: nat)
    requires Mapped(s, t, root, vaddr, paddr, PAGE_W) && vaddr % PAGE == 0
    requires paddr % PAGE == 0 && 0 < paddr < 0x4000_0000_0000
    ensures !BadMapping(vaddr, paddr, PAGE_W)
    ensures Translate(t.m, root, vaddr) == paddr && Sv39Translate(t.m, root, vaddr) == PageFault
  {
    PermissionBits(PAGE_W);
    MappedTranslates(s.m, t.m, s.frames, root, Vpn(vaddr), paddr, PAGE_W, root, vaddr);
    MappedForHardware(s, t, root, vaddr, paddr, PAGE_W, root, vaddr);
  }

  // ----- After create_process -----

  /** The flags `create_process` uses are good. */
  lemma ProcessFlags()
    ensures GoodFlags(KERNEL_FLAGS) && GoodFlags(DEVICE_FLAGS) && GoodFlags(USER_FLAGS)
  {
  }

  /** For a page of the kernel, of a device or of the image the hardware and `vaddr_to_paddr` differ in nothing. */
  lemma ProcessView(s: Space, root: nat, va: nat, paddr: nat, flags: nat)
    requires TreeOk(s.m, s.frames) && IsRoot(s.frames, root)
    requires flags == KERNEL_FLAGS || flags == DEVICE_FLAGS || flags == USER_FLAGS
    requires Walk(s.m, root, Vpn(va)) == Some(LeafPte(paddr, flags))
    ensures Sv39Translate(s.m, root, va) == if CanonicalVa(va) then Physical(Translate(s.m, root, va)) else PageFault
  {
    ProcessFlags();
    LeafAcceptedIff(paddr, flags);
    if CanonicalVa(va) {
      WalkMeetsStandard(s.m, s.frames, root, va);
    }
  }

  lemma PageView(s: Space, root: nat, f: nat, i: nat)
    requires TreeOk(s.m, s.frames) && IsRoot(s.frames, root) && USER_BASE / PAGE + i / PAGE < VPNS
    requires Walk(s.m, root, USER_BASE / PAGE + i / PAGE) == Some(LeafPte(f, USER_FLAGS))
    ensures var va := USER_BASE + i;
      Sv39Translate(s.m, root, va) == if CanonicalVa(va) then Physical(Translate(s.m, root, va)) else PageFault
  {
    UserVpn(i);
    ProcessView(s, root, USER_BASE + i, f, USER_FLAGS);
  }

  lemma UserVpn(i: nat)
    requires USER_BASE / PAGE + i / PAGE < VPNS
    ensures Vpn(USER_BASE + i) == USER_BASE / PAGE + i / PAGE
  {
    var v := USER_BASE / PAGE + i / PAGE;
    DivModUnique(USER_BASE + i, PAGE, v, i % PAGE);
    DivModUnique(v, VPNS, 0, v);
  }

  /**
   End to end on the hardware: through the page table a process reads, at every address of its image below 2^38 (the
   lower half of the Sv39 space), the byte of the image, and zeros after it in the page the last byte is in. Beyond
   2^38 addresses are not canonical, and fault.
   */
  lemma HardwareReadsImage(s: Space, root: nat, kernelBase: nat, end: nat, u: UserSpace, i: nat)
    requires Finished(s, root, kernelBase, end, u) && TreeOk(s.m, s.frames) && i - i % 4096 < |u.image|
    ensures match Sv39Translate(s.m, root, 0x100_0000 + i)
            case PageFault => 0x100_0000 + i >= 0x40_0000_0000
            case Physical(x) =>
              0x100_0000 + i < 0x40_0000_0000 && s.m.At(x) == if i < |u.image| then u.image[i] else 0
  {
    PagesHoldImage(|u.image|, i / PAGE);
    var f := ImageFrame(s, root, kernelBase, end, u, i / PAGE);
    HardwareByte(s, root, u.image, f, i);
  }

  lemma HardwareByte(s: Space, root: nat, image: seq<Byte>, f: nat, i: nat)
    requires ImagePage(s, root, image, f, i / PAGE) && TreeOk(s.m, s.frames) && IsRoot(s.frames, root)
    ensures match Sv39Translate(s.m, root, 0x100_0000 + i)
            case PageFault => 0x100_0000 + i >= 0x40_0000_0000
            case Physical(x) => 0x100_0000 + i < 0x40_0000_0000 && s.m.At(x) == if i < |image| then image[i] else 0
  {
    ImageByte(s, root, image, f, i);
    PageView(s, root, f, i);
    BelowCanonical(i);
  }

  lemma BelowCanonical(i: nat)
    requires USER_BASE / PAGE + i / PAGE < VPNS
    ensures CanonicalVa(USER_BASE + i) <==> USER_BASE + i < 0x40_0000_0000
  {
  }

  /** The kernel's RAM and the devices translate to themselves on the hardware too, and nothing else does at all. */
  lemma HardwareSeesKernel(s: Space, root: nat, kernelBase: nat, end: nat, u: UserSpace, va: nat)
    requires Finished(s, root, kernelBase, end, u) && TreeOk(s.m, s.frames) && va < 0x40_0000_0000
    requires va < 0x100_0000 || 0x100_0000 + |u.image| <= va - va % 4096
    ensures Sv39Translate(s.m, root, va) ==
      if kernelBase <= va < end || 0x1000_1000 <= va < 0x1000_9000 then Physical(va) else PageFault
  {
    var v := va / PAGE;
    DivModUnique(v, VPNS, 0, v);
    KernelTranslates(s, root, kernelBase, end, u, v);
    if kernelBase <= va < end {
      ProcessView(s, root, va, v * PAGE, KERNEL_FLAGS);
    } else if 0x1_0001 <= v < 0x1_0009 {
      ProcessView(s, root, va, v * PAGE, DEVICE_FLAGS);
    } else {
      WalkMeetsStandard(s.m, s.frames, root, va);
    }
  }

  // ----- Permissions, by their bits in the standard: R is bit 1, W bit 2, X bit 3, U bit 4 -----

  predicate Permits(pte: nat, r: bool, w: bool, x: bool, u: bool) {
    Bit(pte, 1) == r && Bit(pte, 2) == w && Bit(pte, 3) == x && Bit(pte, 4) == u
  }

  lemma LeafPermits(paddr: nat, flags: nat)
    requires flags < 0x1_0000_0000
    ensures Permits(LeafPte(paddr, flags),
                    Has(flags, PAGE_R), Has(flags, PAGE_W), Has(flags, PAGE_X), Has(flags, PAGE_U))
  {
    BitsOfEntry(LeafPte(paddr, flags));
    LeafBit(paddr, flags, PAGE_R, 512);
    LeafBit(paddr, flags, PAGE_W, 256);
    LeafBit(paddr, flags, PAGE_X, 128);
    LeafBit(paddr, flags, PAGE_U, 64);
  }

  lemma ProcessPermits(paddr: nat)
    ensures Permits(LeafPte(paddr, USER_FLAGS), true, true, true, true)
    ensures Permits(LeafPte(paddr, KERNEL_FLAGS), true, true, true, false)
    ensures Permits(LeafPte(paddr, DEVICE_FLAGS), true, true, false, false)
  {
    LeafPermits(paddr, USER_FLAGS);
    LeafPermits(paddr, KERNEL_FLAGS);
    LeafPermits(paddr, DEVICE_FLAGS);
  }

  lemma PagePermits(s: Space, root: nat, image: seq<Byte>, f: nat, k: nat)
    requires ImagePage(s, root, image, f, k)
    ensures var leaf := Walk(s.m, root, 0x1000 + k); leaf.Some? && Permits(leaf.value, true, true, true, true)
  {
    ProcessPermits(f);
  }

  /** User mode can read, write and execute every page of the image. */
  lemma ImagePermissions(s: Space, root: nat, kernelBase: nat, end: nat, u: UserSpace, i: nat)
    requires Finished(s, root, kernelBase, end, u) && i - i % 4096 < |u.image|
    ensures var leaf := Walk(s.m, root, 0x1000 + i / 4096); leaf.Some? && Permits(leaf.value, true, true, true, true)
  {
    var k := i / 4096;
    PagesHoldImage(|u.image|, k);
    var f := ImageFrame(s, root, kernelBase, end, u, k);
    PagePermits(s, root, u.image, f, k);
  }

  /** The kernel can read, write and execute its RAM, and read and write the devices; user mode can do neither. */
  lemma KernelPermissions(s: Space, root: nat, kernelBase: nat, end: nat, u: UserSpace, v: nat)
    requires Finished(s, root, kernelBase, end, u) && (v * 4096 < 0x100_0000 || 0x100_0000 + |u.image| <= v * 4096)
    requires kernelBase <= v * 4096 < end || 0x1_0001 <= v < 0x1_0009
    ensures var leaf := Walk(s.m, root, v);
      leaf.Some? && Permits(leaf.value, true, true, kernelBase <= v * 4096 < end, false)
  {
    KernelTranslates(s, root, kernelBase, end, u, v);
    ProcessPermits(v * PAGE);
  }
}
