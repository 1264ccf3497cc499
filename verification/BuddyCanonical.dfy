/**
 On aligned lists the free blocks are determined by the free bytes: every aligned run of free bytes lies inside a
 single free block.
 */
module BuddyCanonical {
  import opened Arithmetic
  import opened Buddy
  import opened BuddyInvariants
  import opened Tiling

  ghost predicate FreeRun(ls: Lists, q: nat, n: nat) {
    forall x :: q <= x < q + n ==> Covered(FreeSet(ls), x)
  }

  ghost predicate NoAlignedRun(ls: Lists, k: nat) {
    forall q: nat :: q % Size(k) == 0 ==> !FreeRun(ls, q, Size(k))
  }

  ghost predicate Inside(q: nat, n: nat, b: Block) {
    b.addr <= q && q + n <= b.addr + Size(b.order)
  }

  /** Free blocks do not overlap, are coalesced and are aligned to their sizes. */
  ghost predicate Canonical(ls: Lists) {
    && PairwiseApart(FreeSet(ls))
    && Coalesced(ls)
    && Aligned(ls)
  }

  /** A block at least as large as an aligned run that meets it contains the run. */
  lemma AlignedMeetsInside(b: Block, q: nat, k: nat)
    requires k <= b.order && b.addr % Size(b.order) == 0 && q % Size(k) == 0
    requires b.addr <= q < b.addr + Size(b.order)
    ensures Inside(q, Size(k), b)
  {
    var d, n := Size(k), Size(b.order);
    AlignedBelow(b.addr, k, b.order);
    DivModUnique(n, n, 1, 0);
    AlignedBelow(n, k, b.order);
    ModAdd(b.addr, d, n);
    MultiplesApart(q, b.addr + n, d);
  }

  /** A block that contains a run of its own size or more is that run. */
  lemma ExactFit(b: Block, q: nat, k: nat)
    requires b.order <= k && Inside(q, Size(k), b)
    ensures b == Block(q, k)
  {
    SizeGrows(b.order, k);
  }

  lemma BuddyUp(q: nat, k: nat)
    requires q % Size(k + 1) == 0
    ensures BuddyAddr(q, k) == q + Size(k)
  {
    DoubleDivides(q, Size(k));
    BuddyIs(q, k);
  }

  /** Every aligned, wholly free run of `PAGE << k` bytes lies inside one free block. */
  lemma {:induction false} FreeRunInOneBlock(ls: Lists, q: nat, k: nat)
    requires k <= MAX_ORDER && Canonical(ls)
    requires q % Size(k) == 0 && FreeRun(ls, q, Size(k))
    ensures exists b :: b in FreeSet(ls) && Inside(q, Size(k), b)
    decreases k
  {
    if k == 0 {
      assert Covered(FreeSet(ls), q);
      var b :| b in FreeSet(ls) && b.Has(q);
      AlignedMeetsInside(b, q, 0);
    } else {
      var half := Size(k - 1);
      DoubleDivides(q, half);
      ModAdd(q, half, half);
      FreeRunInOneBlock(ls, q, k - 1);
      FreeRunInOneBlock(ls, q + half, k - 1);
      var b :| b in FreeSet(ls) && Inside(q, half, b);
      var c :| c in FreeSet(ls) && Inside(q + half, half, c);
      HalvesInOneBlock(ls, q, k, b, c);
    }
  }

  lemma HalvesInOneBlock(ls: Lists, q: nat, k: nat, b: Block, c: Block)
    requires 0 < k <= MAX_ORDER && Canonical(ls) && q % Size(k) == 0
    requires b in FreeSet(ls) && Inside(q, Size(k - 1), b)
    requires c in FreeSet(ls) && Inside(q + Size(k - 1), Size(k - 1), c)
    ensures Inside(q, Size(k), b)
  {
    if b != c {
      assert b.Apart(c);
      if k <= b.order {
        AlignedMeetsInside(b, q, k);
      } else if k <= c.order {
        AlignedMeetsInside(c, q, k) by {
          LowerHalfToo(c, q, k);
        }
      } else {
        ExactFit(b, q, k - 1);
        ExactFit(c, q + Size(k - 1), k - 1);
        BuddyUp(q, k - 1);
      }
    }
  }

  /**
   An aligned block of order at least `k` that holds the upper half of an aligned run of order `k` holds its start.
   */
  lemma LowerHalfToo(c: Block, q: nat, k: nat)
    requires 0 < k <= c.order && c.addr % Size(c.order) == 0 && q % Size(k) == 0
    requires Inside(q + Size(k - 1), Size(k - 1), c)
    ensures c.addr <= q
  {
    AlignedBelow(c.addr, k, c.order);
    MultiplesApart(q, c.addr, Size(k));
  }

  lemma {:induction false} SubsetBySize(ls1: Lists, ls2: Lists, b: Block)
    requires Canonical(ls1) && Canonical(ls2)
    requires forall x :: Covered(FreeSet(ls1), x) <==> Covered(FreeSet(ls2), x)
    requires b in FreeSet(ls1)
    ensures b in FreeSet(ls2)
  {
    forall x | b.addr <= x < b.addr + Size(b.order)
      ensures Covered(FreeSet(ls2), x)
    {
      assert b.Has(x);
      assert Covered(FreeSet(ls1), x);
    }
    FreeRunInOneBlock(ls2, b.addr, b.order);
    var c :| c in FreeSet(ls2) && Inside(b.addr, Size(b.order), c);
    forall x | c.addr <= x < c.addr + Size(c.order)
      ensures Covered(FreeSet(ls1), x)
    {
      assert c.Has(x);
      assert Covered(FreeSet(ls2), x);
    }
    FreeRunInOneBlock(ls1, c.addr, c.order);
    var d :| d in FreeSet(ls1) && Inside(c.addr, Size(c.order), d);
    assert d == b by {
      assert b.Has(b.addr) && d.Has(b.addr);
    }
    NestedEqual(b, c);
  }

  lemma NestedEqual(b: Block, c: Block)
    requires Inside(b.addr, Size(b.order), c) && Inside(c.addr, Size(c.order), b)
    ensures b == c
  {
    if b.order <= c.order {
      ExactFit(b, c.addr, c.order);
    } else {
      ExactFit(c, b.addr, b.order);
    }
  }

  /** Canonical form: two canonical lists with the same free bytes hold the same blocks at every order. */
  lemma SameBytesSameBlocks(ls1: Lists, ls2: Lists)
    requires Canonical(ls1) && Canonical(ls2)
    requires forall x :: Covered(FreeSet(ls1), x) <==> Covered(FreeSet(ls2), x)
    ensures FreeSet(ls1) == FreeSet(ls2)
  {
    forall b
      ensures b in FreeSet(ls1) <==> b in FreeSet(ls2)
    {
      if b in FreeSet(ls1) {
        SubsetBySize(ls1, ls2, b);
      }
      if b in FreeSet(ls2) {
        SubsetBySize(ls2, ls1, b);
      }
    }
  }

  lemma NoFit(ls: Lists, q: nat, k: nat)
    requires k <= MAX_ORDER && Alloc(ls, k).None?
    ensures forall b :: b in FreeSet(ls) ==> !Inside(q, Size(k), b)
  {
    forall b | b in FreeSet(ls)
      ensures !Inside(q, Size(k), b)
    {
      assert b.order < k;
      SizeGrows(b.order, k);
    }
  }

  /** Completeness: allocation fails exactly when no aligned run of the size asked for is wholly free. */
  lemma AllocComplete(ls: Lists, k: nat)
    requires k <= MAX_ORDER && Canonical(ls)
    ensures Alloc(ls, k).None? <==> NoAlignedRun(ls, k)
  {
    if Alloc(ls, k).None? {
      forall q: nat | q % Size(k) == 0
        ensures !FreeRun(ls, q, Size(k))
      {
        NoFit(ls, q, k);
        if FreeRun(ls, q, Size(k)) {
          FreeRunInOneBlock(ls, q, k);
        }
      }
    } else {
      var c := FirstFit(ls, k);
      var b := Block(ls[c][0], c);
      assert IsFree(ls, b);
      AlignedBelow(b.addr, k, c);
      SizeGrows(k, c);
      forall x | b.addr <= x < b.addr + Size(k)
        ensures Covered(FreeSet(ls), x)
      {
        assert b.Has(x);
      }
      assert FreeRun(ls, b.addr, Size(k));
    }
  }
}
