/** Sv39 page table entries as the kernel encodes and decodes them, on 64-bit words. */
module PageEntries {
  import opened Arithmetic
  import opened Bits
  import opened Buddy

  const PPN_MASK: nat := 0x0FFF_FFFF_FFFF
  const VPN_MASK: nat := 0x1FF
  const PAGE_V: nat := 1
  const PAGE_R: nat := 2
  const PAGE_W: nat := 4
  const PAGE_X: nat := 8
  const PAGE_U: nat := 16

  // ----- What the code computes -----

  /** `(vaddr >> shift) & VPN_MASK`, with the shift as a power of two. */
  function Vpn2(va: nat): nat { And(va / 0x4000_0000, VPN_MASK) }
  function Vpn1(va: nat): nat { And(va / 0x20_0000, VPN_MASK) }
  function Vpn0(va: nat): nat { And(va / 0x1000, VPN_MASK) }

  /** `(PPN_MASK & ((addr / PAGE_SIZE) << 10)) | PAGE_V`. */
  function PointerPte(table: nat): nat {
    Or(And(PPN_MASK, table / PAGE * 1024), PAGE_V)
  }

  /** `(PPN_MASK & ((addr / PAGE_SIZE) << 10)) | flags | PAGE_V`. */
  function LeafPte(paddr: nat, flags: nat): nat {
    Or(Or(And(PPN_MASK, paddr / PAGE * 1024), flags), PAGE_V)
  }

  predicate IsValid(pte: nat) {
    And(pte, PAGE_V) != 0
  }

  /** `(pte >> 10) << PAGE_SHIFT`, which drops what leaves 64 bits. */
  function NextTable(pte: nat): nat {
    pte / 1024 * 4096 % TWO64
  }

  /** `(((pte >> 10) & PPN_MASK) << PAGE_SHIFT) | (vaddr & (PAGE_SIZE - 1))`. */
  function LeafAddr(pte: nat, va: nat): nat {
    Or(And(pte / 1024, PPN_MASK) * 4096, And(va, PAGE - 1))
  }

  // ----- What that means -----

  lemma Masks()
    ensures PPN_MASK == Pow2(44) - 1 && VPN_MASK == Pow2(9) - 1 && PAGE - 1 == Pow2(12) - 1
  {
    Pow2Values();
  }

  /** The page number of an address in the 39-bit space; the bits above are ignored. */
  function Vpn(va: nat): nat {
    va / 4096 % 0x800_0000
  }

  lemma VpnParts(va: nat)
    ensures Vpn2(va) == Vpn(va) / 0x4_0000 && Vpn1(va) == Vpn(va) / 512 % 512 && Vpn0(va) == Vpn(va) % 512
    ensures Vpn2(va) < 512 && Vpn1(va) < 512 && Vpn0(va) < 512
  {
    var q := va / 4096;
    VpnMasks(va);
    DivDiv(va, 4096, 0x4_0000);
    DivDiv(va, 4096, 512);
    ModParts(q, 0x4_0000, 512);
    ModParts(q, 512, 0x4_0000);
    ModParts(q / 512, 512, 512);
  }

  lemma VpnMasks(va: nat)
    ensures Vpn2(va) == va / 0x4000_0000 % 512 && Vpn1(va) == va / 0x20_0000 % 512 && Vpn0(va) == va / 0x1000 % 512
  {
    Masks();
    Pow2Values();
    AndMask(va / 0x4000_0000, 9);
    AndMask(va / 0x20_0000, 9);
    AndMask(va / 0x1000, 9);
  }

  lemma ValidIsOdd(pte: nat)
    ensures IsValid(pte) <==> pte % 2 == 1
  {
    assert Pow2(1) == 2;
    AndMask(pte, 1);
  }

  lemma OrOne(x: nat)
    ensures Or(x, 1) == x - x % 2 + 1
  {
    OrZero(x / 2);
    assert Or(x, 1) == 1 + 2 * Or(x / 2, 0);
  }

  lemma MaskedPpn(ppn: nat)
    ensures And(PPN_MASK, ppn * 1024) == ppn % 0x4_0000_0000 * 1024
  {
    Masks();
    Pow2Values();
    AndMask(ppn * 1024, 44);
    ModScale(ppn, 0x4_0000_0000, 1024);
  }

  lemma ShiftBack(ppn: nat, low: nat)
    requires low < 1024
    ensures (ppn * 1024 + low) / 1024 == ppn && (ppn * 1024 + low) % 1024 == low
  {
  }

  lemma PointerPteIs(t: nat)
    ensures PointerPte(t) == t / PAGE % 0x4_0000_0000 * 1024 + 1
  {
    var ppn := t / PAGE % 0x4_0000_0000;
    MaskedPpn(t / PAGE);
    DivModUnique(ppn * 1024, 2, ppn * 512, 0);
    OrOne(ppn * 1024);
  }

  /** A pointer entry is always valid, without a permission bit, and its page number is the table's, 34 bits of it. */
  lemma PointerParts(t: nat)
    ensures IsValid(PointerPte(t)) && PointerPte(t) < TWO64 && PointerPte(t) % 1024 == PAGE_V
    ensures PointerPte(t) / 1024 == t / PAGE % 0x4_0000_0000
    ensures NextTable(PointerPte(t)) == t / PAGE % 0x4_0000_0000 * PAGE
  {
    var ppn := t / PAGE % 0x4_0000_0000;
    PointerPteIs(t);
    ShiftBack(ppn, 1);
    SameParity(ppn, 1);
    ValidIsOdd(PointerPte(t));
    DivModUnique(ppn * 4096, TWO64, 0, ppn * 4096);
  }

  /** A pointer entry gives the address of its table back if and only if the address is below 2^46. */
  lemma PointerRoundTrip(t: nat)
    requires t % PAGE == 0
    ensures NextTable(PointerPte(t)) == t <==> t < 0x4000_0000_0000
    ensures IsValid(PointerPte(t)) && PointerPte(t) < TWO64 && PointerPte(t) % 1024 == PAGE_V
    ensures t < 0x4000_0000_0000 ==> PointerPte(t) / 1024 == t / PAGE
  {
    var ppn := t / PAGE;
    PointerParts(t);
    if ppn < 0x4_0000_0000 {
      DivModUnique(ppn, 0x4_0000_0000, 0, ppn);
    }
  }

  /** A leaf entry keeps the low ten flag bits, and ORs any higher ones into the page number. */
  lemma LeafParts(paddr: nat, flags: nat)
    requires flags < 0x1_0000_0000
    ensures var ppn := Or(paddr / PAGE % 0x4_0000_0000, flags / 1024);
      LeafPte(paddr, flags) == ppn * 1024 + Or(flags % 1024, PAGE_V) && ppn < 0x4_0000_0000
    ensures Or(flags % 1024, PAGE_V) < 1024
  {
    var x, y := paddr / PAGE % 0x4_0000_0000, flags / 1024;
    Pow2Values();
    MaskedPpn(paddr / PAGE);
    var low := flags % 1024;
    assert flags == y * 1024 + low;
    OrHigh(x, y, low);
    assert Or(And(PPN_MASK, paddr / PAGE * 1024), flags) == Or(x, y) * 1024 + low;
    OrOneLow(Or(x, y), low);
    OrBound(x, y, 34);
  }

  lemma OrOneLow(high: nat, low: nat)
    requires low < 1024
    ensures Or(high * 1024 + low, 1) == high * 1024 + Or(low, 1) && Or(low, 1) < 1024
  {
    OrOne(high * 1024 + low);
    OrOne(low);
    SameParity(high, low);
  }

  lemma SameParity(high: nat, low: nat)
    ensures (high * 1024 + low) % 2 == low % 2
  {
    DivModUnique(high * 1024 + low, 2, high * 512 + low / 2, low % 2);
  }

  lemma OrHigh(x: nat, y: nat, low: nat)
    requires low < 1024
    ensures Or(x * 1024, y * 1024 + low) == Or(x, y) * 1024 + low
  {
    Pow2Values();
    ShiftLeftIs(x, 10);
    ShiftLeftIs(y, 10);
    ShiftLeftIs(Or(x, y), 10);
    OrZero(low);
    OrSplit(x, 0, y, low, 10);
  }

  lemma LeafFits(paddr: nat, flags: nat)
    requires flags < 0x1_0000_0000
    ensures IsValid(LeafPte(paddr, flags)) && LeafPte(paddr, flags) < TWO64
  {
    var ppn, low := Or(paddr / PAGE % 0x4_0000_0000, flags / 1024), flags % 1024;
    LeafParts(paddr, flags);
    OrOne(low);
    SameParity(ppn, low - low % 2 + 1);
    OddAbove(low);
    ValidIsOdd(LeafPte(paddr, flags));
  }

  lemma OddAbove(low: nat)
    ensures (low - low % 2 + 1) % 2 == 1
  {
  }

  // ----- Single bits -----

  /** `word & bit` is not zero, for a single bit. */
  predicate Has(word: nat, bit: nat)
    requires bit > 0
  {
    word / bit % 2 == 1
  }

  lemma AddMultiple(low: nat, d: nat, x: nat)
    requires d > 0
    ensures (x * d + low) / d == x + low / d
  {
    DivModUnique(x * d, d, x, 0);
    ModAdd(low, d, x * d);
  }

  lemma EvenMultiple(high: nat, d: nat, e: nat)
    requires d * e == 1024 && e % 2 == 0
    ensures high * 1024 == high * e * d && high * e % 2 == 0
  {
    assert high * (e * d) == high * e * d;
    assert high * e == high * (e / 2) * 2;
    DivModUnique(high * e, 2, high * (e / 2), 0);
  }

  /** A bit below bit 10 does not depend on the bits from 10 up; `d` is the bit and `e` is 1024 divided by it. */
  lemma LowBit(high: nat, low: nat, d: nat, e: nat)
    requires d * e == 1024 && d > 0 && e % 2 == 0
    ensures (high * 1024 + low) / d % 2 == low / d % 2
  {
    var x := high * e;
    EvenMultiple(high, d, e);
    AddMultiple(low, d, x);
    ModAdd(low / d, 2, x);
  }

  /** Setting bit 0 leaves the bits above it alone. */
  lemma AboveBitZero(low: nat, d: nat)
    requires d > 0 && d % 2 == 0
    ensures (low - low % 2 + 1) / d == low / d
  {
    var c := d / 2;
    assert d == 2 * c;
    DivHalf(low, c);
    DivHalf(low - low % 2 + 1, c);
  }

  /** A leaf entry has the permission bits of its flags. */
  lemma LeafBit(paddr: nat, flags: nat, d: nat, e: nat)
    requires flags < 0x1_0000_0000 && d * e == 1024 && d > 0 && d % 2 == 0 && e % 2 == 0
    ensures Has(LeafPte(paddr, flags), d) <==> Has(flags, d)
  {
    var low := flags % 1024;
    LeafParts(paddr, flags);
    OrOne(low);
    LowBit(Or(paddr / PAGE % 0x4_0000_0000, flags / 1024), low - low % 2 + 1, d, e);
    AboveBitZero(low, d);
    LowBit(flags / 1024, low, d, e);
  }

  /** The guard of `map_page` asks for one of the bits R, W and X. */
  lemma PermissionBits(flags: nat)
    ensures And(flags, 0xE) != 0 <==> Has(flags, PAGE_R) || Has(flags, PAGE_W) || Has(flags, PAGE_X)
  {
    assert flags / 2 / 2 == flags / 4 && flags / 2 / 2 / 2 == flags / 8;
    AndZero(flags / 8 / 2);
    assert And(flags / 8, 1) == flags / 8 % 2;
    assert And(flags / 4, 3) == flags / 4 % 2 + 2 * And(flags / 8, 1);
    assert And(flags / 2, 7) == flags / 2 % 2 + 2 * And(flags / 4, 3);
    assert And(flags, 0xE) == 2 * And(flags / 2, 7);
  }

  // ----- Leaves -----

  /** Decoding a leaf entry gives its page number, 44 bits wide, and the offset of the address. */
  lemma LeafAddrIs(pte: nat, va: nat)
    ensures LeafAddr(pte, va) == pte / 1024 % 0x1000_0000_0000 * 4096 + va % PAGE
  {
    Masks();
    Pow2Values();
    var ppn := pte / 1024 % 0x1000_0000_0000;
    AndMask(pte / 1024, 44);
    AndMask(va, 12);
    DivModUnique(ppn * 4096, 4096, ppn, 0);
    OrDisjoint(ppn * 4096, va % PAGE, 12);
  }

  /** The address a leaf entry stands for. */
  lemma LeafDecode(paddr: nat, flags: nat, va: nat)
    requires flags < 0x1_0000_0000
    ensures LeafAddr(LeafPte(paddr, flags), va) == Or(paddr / PAGE % 0x4_0000_0000, flags / 1024) * 4096 + va % PAGE
  {
    var ppn := Or(paddr / PAGE % 0x4_0000_0000, flags / 1024);
    LeafParts(paddr, flags);
    LeafAddrIs(LeafPte(paddr, flags), va);
    ShiftBack(ppn, Or(flags % 1024, PAGE_V));
    DivModUnique(ppn, 0x1000_0000_0000, 0, ppn);
  }

  /**
   Encoding then decoding a leaf gives the physical address back if and only if the address is below 2^46 and every
   flag bit above bit 9 is already set in its page number. For flags below 2^10 only the address bound is left.
   */
  lemma LeafRoundTrip(paddr: nat, flags: nat, va: nat)
    requires paddr % PAGE == 0 && flags < 0x1_0000_0000
    ensures LeafAddr(LeafPte(paddr, flags), va) == paddr + va % PAGE
       <==> paddr < 0x4000_0000_0000 && Or(paddr / PAGE, flags / 1024) == paddr / PAGE
    ensures flags < 1024 ==> Or(paddr / PAGE, flags / 1024) == paddr / PAGE
  {
    var ppn, high := paddr / PAGE, flags / 1024;
    LeafDecode(paddr, flags, va);
    OrZero(ppn);
    if ppn < 0x4_0000_0000 {
      DivModUnique(ppn, 0x4_0000_0000, 0, ppn);
    } else {
      LeafParts(paddr, flags);
    }
  }
}
