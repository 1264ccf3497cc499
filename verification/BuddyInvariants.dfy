/** What allocating and freeing keep true of the free lists. */
module BuddyInvariants {
  import opened Arithmetic
  import opened Buddy
  import opened Tiling
  import opened Wrappers

  ghost predicate AllDistinct(ls: Lists) {
    forall k :: 0 <= k <= MAX_ORDER ==> Distinct(ls[k])
  }

  /**
   The free blocks and the blocks in `used` together tile `[lo, hi)`, and no block is listed twice or both free and
   used.
   */
  ghost predicate Sound(ls: Lists, used: set<Block>, lo: nat, hi: nat) {
    && AllDistinct(ls)
    && FreeSet(ls) !! used
    && Tiles(FreeSet(ls) + used, lo, hi)
  }

  /** No block below the top order is free together with its buddy. */
  ghost predicate Coalesced(ls: Lists) {
    forall k, a :: 0 <= k < MAX_ORDER && a in ls[k] ==> BuddyAddr(a, k) !in ls[k]
  }

  /** Every free block is aligned to its own size. */
  ghost predicate Aligned(ls: Lists) {
    forall k, a :: 0 <= k <= MAX_ORDER && a in ls[k] ==> a % Size(k) == 0
  }

  // ----- Single-list updates -----

  lemma {:induction false} WithoutRemoves(s: seq<nat>, x: nat)
    requires Distinct(s) && x in s
    ensures Distinct(Without(s, x))
    ensures forall y :: y in Without(s, x) <==> y in s && y != x
  {
    if s[0] != x {
      assert s == [s[0]] + s[1..];
      WithoutRemoves(s[1..], x);
      assert s[0] !in Without(s[1..], x);
    } else {
      assert s == [x] + s[1..];
    }
  }

  lemma PopRemoves(ls: Lists, k: nat)
    requires k <= MAX_ORDER && ls[k] != [] && AllDistinct(ls)
    ensures AllDistinct(Pop(ls, k))
    ensures FreeSet(Pop(ls, k)) == FreeSet(ls) - {Block(ls[k][0], k)}
  {
    var s := ls[k];
    assert s == [s[0]] + s[1..];
    assert forall y :: y in s[1..] <==> y in s && y != s[0];
    forall b
      ensures b in FreeSet(Pop(ls, k)) <==> b in FreeSet(ls) && b != Block(s[0], k)
    {
    }
  }

  lemma PushAdds(ls: Lists, a: nat, k: nat)
    requires k <= MAX_ORDER && a !in ls[k] && AllDistinct(ls)
    ensures AllDistinct(Push(ls, a, k))
    ensures FreeSet(Push(ls, a, k)) == FreeSet(ls) + {Block(a, k)}
  {
    forall b
      ensures b in FreeSet(Push(ls, a, k)) <==> b in FreeSet(ls) || b == Block(a, k)
    {
    }
  }

  lemma DropRemoves(ls: Lists, a: nat, k: nat)
    requires k <= MAX_ORDER && a in ls[k] && AllDistinct(ls)
    ensures AllDistinct(ls[k := Without(ls[k], a)])
    ensures FreeSet(ls[k := Without(ls[k], a)]) == FreeSet(ls) - {Block(a, k)}
  {
    WithoutRemoves(ls[k], a);
    var r: Lists := ls[k := Without(ls[k], a)];
    forall b
      ensures b in FreeSet(r) <==> b in FreeSet(ls) && b != Block(a, k)
    {
    }
  }

  // ----- Allocation -----

  /** One split is: take the block off, put its right half back, put its left half back. */
  lemma SplitOnceSteps(ls: Lists, c: nat)
    requires 0 < c <= MAX_ORDER && ls[c] != []
    ensures var b := Block(ls[c][0], c);
      SplitOnce(ls, c) == Push(Push(Pop(ls, c), Right(b).addr, c - 1), Left(b).addr, c - 1)
  {
    var b := Block(ls[c][0], c);
    assert [Left(b).addr, Right(b).addr] + ls[c - 1] == [Left(b).addr] + ([Right(b).addr] + ls[c - 1]);
  }

  lemma SplitOnceSound(ls: Lists, c: nat, used: set<Block>, lo: nat, hi: nat)
    requires 0 < c <= MAX_ORDER && ls[c] != []
    requires Sound(ls, used, lo, hi)
    ensures Sound(SplitOnce(ls, c), used, lo, hi)
  {
    var b := Block(ls[c][0], c);
    var u := FreeSet(ls) + used;
    assert IsFree(ls, b);
    CutTiles(u, b, lo, hi);
    HalvesFit(b);
    PopRemoves(ls, c);
    var ls1 := Pop(ls, c);
    assert !IsFree(ls, Right(b)) && !IsFree(ls, Left(b));
    PushAdds(ls1, Right(b).addr, c - 1);
    var ls2 := Push(ls1, Right(b).addr, c - 1);
    assert !IsFree(ls2, Left(b));
    PushAdds(ls2, Left(b).addr, c - 1);
    SplitOnceSteps(ls, c);
    assert FreeSet(SplitOnce(ls, c)) + used == Cut(u, b);
  }

  lemma {:induction false} SplitSound(ls: Lists, c: nat, k: nat, used: set<Block>, lo: nat, hi: nat)
    requires k <= c <= MAX_ORDER && ls[c] != []
    requires Sound(ls, used, lo, hi)
    ensures Sound(Split(ls, c, k), used, lo, hi)
    decreases c
  {
    if k < c {
      SplitOnceSound(ls, c, used, lo, hi);
      SplitSound(SplitOnce(ls, c), c - 1, k, used, lo, hi);
    }
  }

  /** Allocation hands out a block of the order asked for that is neither free nor in use, and the tiling stands. */
  lemma AllocSound(ls: Lists, k: nat, used: set<Block>, lo: nat, hi: nat)
    requires Sound(ls, used, lo, hi)
    requires Alloc(ls, k).Some?
    ensures var (a, ls') := Alloc(ls, k).value;
      Block(a, k) !in used && Sound(ls', used + {Block(a, k)}, lo, hi)
  {
    var c := FirstFit(ls, k);
    SplitSound(ls, c, k, used, lo, hi);
    var s := Split(ls, c, k);
    PopRemoves(s, k);
    var b := Block(s[k][0], k);
    assert IsFree(s, b);
    assert FreeSet(Pop(s, k)) + (used + {b}) == FreeSet(s) + used;
  }

  // ----- Freeing -----

  /** A block and its buddy are the two halves of the merged block, at any alignment. */
  lemma BuddiesAreHalves(a: nat, k: nat)
    ensures var m := Block(Min(a, BuddyAddr(a, k)), k + 1);
      {Left(m), Right(m)} == {Block(a, k), Block(BuddyAddr(a, k), k)}
  {
    BuddyIs(a, k);
  }

  lemma MergeSound(ls: Lists, a: nat, k: nat, used: set<Block>, lo: nat, hi: nat)
    requires k < MAX_ORDER && BuddyAddr(a, k) in ls[k]
    requires Block(a, k) !in used && Sound(ls, used + {Block(a, k)}, lo, hi)
    ensures var m := Block(Min(a, BuddyAddr(a, k)), k + 1);
      m !in used && Sound(ls[k := Without(ls[k], BuddyAddr(a, k))], used + {m}, lo, hi)
  {
    var b, c := Block(a, k), Block(BuddyAddr(a, k), k);
    var m := Block(Min(a, c.addr), k + 1);
    var u := FreeSet(ls) + (used + {b});
    assert IsFree(ls, c);
    BuddiesAreHalves(a, k);
    assert Left(m) in {b, c} && Right(m) in {b, c};
    JoinTiles(u, m, lo, hi);
    DropRemoves(ls, c.addr, k);
    var ls1: Lists := ls[k := Without(ls[k], c.addr)];
    assert u - {b, c} + {m} == Joined(u, m);
    assert FreeSet(ls1) + (used + {m}) == u - {b, c} + {m};
  }

  /** Freeing a block in use keeps the tiling; every merge on the way is of one contiguous block. */
  lemma {:induction false} FreeSound(ls: Lists, a: nat, k: nat, used: set<Block>, lo: nat, hi: nat)
    requires k <= MAX_ORDER
    requires Block(a, k) !in used && Sound(ls, used + {Block(a, k)}, lo, hi)
    ensures Sound(Free(ls, a, k), used, lo, hi)
    decreases MAX_ORDER - k
  {
    if k < MAX_ORDER && BuddyAddr(a, k) in ls[k] {
      var buddy := BuddyAddr(a, k);
      MergeSound(ls, a, k, used, lo, hi);
      FreeSound(ls[k := Without(ls[k], buddy)], Min(a, buddy), k + 1, used, lo, hi);
    } else {
      var b := Block(a, k);
      assert b in used + {b};
      assert !IsFree(ls, b);
      PushAdds(ls, a, k);
      assert FreeSet(Push(ls, a, k)) + used == FreeSet(ls) + (used + {b});
    }
  }

  // ----- The coalescing invariant needs no alignment -----

  lemma {:induction false} FreeCoalesced(ls: Lists, a: nat, k: nat)
    requires k <= MAX_ORDER && AllDistinct(ls) && Coalesced(ls)
    ensures Coalesced(Free(ls, a, k))
    decreases MAX_ORDER - k
  {
    if k < MAX_ORDER && BuddyAddr(a, k) in ls[k] {
      var buddy := BuddyAddr(a, k);
      DropRemoves(ls, buddy, k);
      WithoutRemoves(ls[k], buddy);
      FreeCoalesced(ls[k := Without(ls[k], buddy)], Min(a, buddy), k + 1);
    } else if k < MAX_ORDER {
      forall x | x in Push(ls, a, k)[k]
        ensures BuddyAddr(x, k) !in Push(ls, a, k)[k]
      {
        BuddyInvolution(x, k);
      }
    }
  }

  ghost predicate CutDown(ls: Lists, r: Lists, b: nat, k: nat, c: nat)
    requires k <= c <= MAX_ORDER && ls[c] != []
  {
    && (forall j :: k <= j < c ==> r[j] == [b + Size(j)])
    && r[c] == ls[c][1..]
    && (forall j :: 0 <= j <= MAX_ORDER && (j < k || c < j) ==> r[j] == ls[j])
  }

  lemma CutStep(ls: Lists, r: Lists, k: nat, c: nat)
    requires k < c <= MAX_ORDER && ls[c] != [] && ls[c - 1] == []
    requires CutDown(SplitOnce(ls, c), r, ls[c][0], k, c - 1)
    ensures CutDown(ls, r, ls[c][0], k, c)
  {
    var once := SplitOnce(ls, c);
    assert once[c] == ls[c][1..];
    assert forall j :: 0 <= j <= MAX_ORDER && (j < k || c < j) ==> once[j] == ls[j];
  }

  /** Splitting leaves the left half at the head of each list on the way, and its right half alone behind it. */
  lemma {:induction false} SplitShape(ls: Lists, c: nat, k: nat)
    requires k <= c <= MAX_ORDER && ls[c] != []
    requires forall j :: k <= j < c ==> ls[j] == []
    ensures Split(ls, c, k)[k][0] == ls[c][0]
    ensures CutDown(ls, Pop(Split(ls, c, k), k), ls[c][0], k, c)
    decreases c
  {
    if k < c {
      var once := SplitOnce(ls, c);
      SplitShape(once, c - 1, k);
      CutStep(ls, Pop(Split(once, c - 1, k), k), k, c);
    }
  }

  /**
   The lists after an allocation: the first fit loses its head, and every order split through holds one right half.
   */
  lemma AllocShape(ls: Lists, k: nat)
    requires Alloc(ls, k).Some?
    ensures var c := FirstFit(ls, k);
      var (b, r) := Alloc(ls, k).value;
      && k <= c <= MAX_ORDER
      && b == ls[c][0] && CutDown(ls, r, b, k, c)
      && (forall j :: k <= j < c ==> ls[j] == [])
  {
    SplitShape(ls, FirstFit(ls, k), k);
  }

  lemma AllocCoalesced(ls: Lists, k: nat)
    requires Coalesced(ls) && Alloc(ls, k).Some?
    ensures Coalesced(Alloc(ls, k).value.1)
  {
    AllocShape(ls, k);
    var c := FirstFit(ls, k);
    var r := Alloc(ls, k).value.1;
    forall j, x | 0 <= j < MAX_ORDER && x in r[j]
      ensures BuddyAddr(x, j) !in r[j]
    {
      if k <= j < c {
        BuddyInvolution(x, j);
      } else if j == c {
        assert x in ls[c];
      }
    }
  }

  // ----- Alignment -----

  lemma MergeAligned(a: nat, k: nat)
    requires a % Size(k) == 0
    ensures Min(a, BuddyAddr(a, k)) % Size(k + 1) == 0
  {
    var d := Size(k);
    BuddyIs(a, k);
    DivDiv(a, d, 2);
    assert d * 2 == 2 * d;
    if (a / d) % 2 == 1 {
      assert a % (2 * d) == d;
      DivModUnique(a - d, 2 * d, a / (2 * d), 0);
    }
  }

  lemma {:induction false} FreeAligned(ls: Lists, a: nat, k: nat)
    requires k <= MAX_ORDER && AllDistinct(ls) && Aligned(ls) && a % Size(k) == 0
    ensures Aligned(Free(ls, a, k))
    decreases MAX_ORDER - k
  {
    if k < MAX_ORDER && BuddyAddr(a, k) in ls[k] {
      var buddy := BuddyAddr(a, k);
      DropRemoves(ls, buddy, k);
      WithoutRemoves(ls[k], buddy);
      MergeAligned(a, k);
      FreeAligned(ls[k := Without(ls[k], buddy)], Min(a, buddy), k + 1);
    }
  }

  lemma RightHalfAligned(b: nat, j: nat, c: nat)
    requires j < c && b % Size(c) == 0
    ensures (b + Size(j)) % Size(j) == 0
    ensures (b / Size(j)) % 2 == 0
  {
    AlignedBelow(b, j + 1, c);
    DoubleDivides(b, Size(j));
    ModAdd(b, Size(j), Size(j));
  }

  /** Every block free after an allocation was free before, or is the right half of a block cut on the way. */
  lemma AllocEntry(ls: Lists, k: nat, j: nat, x: nat)
    requires Alloc(ls, k).Some? && j <= MAX_ORDER && x in Alloc(ls, k).value.1[j]
    ensures x in ls[j] || (k <= j < FirstFit(ls, k) && x == ls[FirstFit(ls, k)][0] + Size(j))
  {
    AllocShape(ls, k);
    if j == FirstFit(ls, k) {
      assert x in ls[j][1..];
    }
  }

  lemma AllocAligned(ls: Lists, k: nat)
    requires Aligned(ls) && Alloc(ls, k).Some?
    ensures Aligned(Alloc(ls, k).value.1)
    ensures Alloc(ls, k).value.0 % Size(k) == 0
  {
    var c := FirstFit(ls, k);
    var b := ls[c][0];
    AllocHead(ls, k);
    AlignedBelow(b, k, c);
    forall j: nat, x | j <= MAX_ORDER && x in Alloc(ls, k).value.1[j]
      ensures x % Size(j) == 0
    {
      EntryAligned(ls, k, j, x);
    }
  }

  lemma EntryAligned(ls: Lists, k: nat, j: nat, x: nat)
    requires Aligned(ls) && Alloc(ls, k).Some? && j <= MAX_ORDER && x in Alloc(ls, k).value.1[j]
    ensures x % Size(j) == 0
  {
    var c := FirstFit(ls, k);
    var b := ls[c][0];
    AllocEntry(ls, k, j, x);
    AllocHead(ls, k);
    assert b % Size(c) == 0;
    if x !in ls[j] {
      RightHalfAligned(b, j, c);
    }
  }

  lemma AllocHead(ls: Lists, k: nat)
    requires Alloc(ls, k).Some?
    ensures FirstFit(ls, k) <= MAX_ORDER && Alloc(ls, k).value.0 == ls[FirstFit(ls, k)][0]
    ensures ls[FirstFit(ls, k)][0] in ls[FirstFit(ls, k)]
  {
    AllocShape(ls, k);
  }
}
