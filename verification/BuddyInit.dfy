/** What greedy initialisation builds. */
module BuddyInit {
  import opened Arithmetic
  import opened Buddy
  import opened BuddyInvariants
  import opened Tiling

  // ----- Tiling -----

  lemma PushSound(ls: Lists, addr: nat, k: nat, lo: nat)
    requires k <= MAX_ORDER && lo <= addr && addr % PAGE == 0 && Sound(ls, {}, lo, addr)
    ensures Sound(Push(ls, addr, k), {}, lo, addr + Size(k))
  {
    var b := Block(addr, k);
    assert !IsFree(ls, b);
    PushAdds(ls, addr, k);
    var u, v := FreeSet(ls) + {}, FreeSet(Push(ls, addr, k)) + {};
    assert v == u + {b};
    forall x | lo <= x < addr + Size(k)
      ensures Covered(v, x)
    {
      if x < addr {
        assert Covered(u, x);
      } else {
        assert b.Has(x);
      }
    }
  }

  lemma {:induction false} GreedySound(ls: Lists, addr: nat, pages: nat, k: nat, lo: nat)
    requires k <= MAX_ORDER && lo <= addr && addr % PAGE == 0 && Sound(ls, {}, lo, addr)
    ensures Sound(Greedy(ls, addr, pages, k), {}, lo, addr + pages * PAGE)
    decreases k, pages
  {
    if pages >= Pow2(k) {
      PushSound(ls, addr, k, lo);
      SizeIsPages(k);
      GreedySound(Push(ls, addr, k), addr + Size(k), pages - Pow2(k), k, lo);
    } else if k > 0 {
      GreedySound(ls, addr, pages, k - 1, lo);
    }
  }

  /** The initial blocks tile exactly the whole pages of the heap. */
  lemma InitSound(start: nat, pages: nat)
    requires start % PAGE == 0
    ensures Sound(Init(start, pages), {}, start, start + pages * PAGE)
  {
    assert FreeSet(EMPTY) == {};
    GreedySound(EMPTY, start, pages, MAX_ORDER, start);
  }

  // ----- The exact blocks -----

  lemma BitOfRemainder(x: nat, y: nat, d: nat)
    requires d > 0 && x % (2 * d) == y % (2 * d)
    ensures (x / d) % 2 == (y / d) % 2
  {
    DivDiv(x, d, 2);
    DivDiv(y, d, 2);
    assert d * 2 == 2 * d;
    MultipleGap((x / d) % 2, (y / d) % 2, d);
    MultipleGap((y / d) % 2, (x / d) % 2, d);
  }

  lemma {:induction false} Pow2Divides(j: nat, k: nat)
    requires j <= k
    ensures Pow2(k) % Pow2(j) == 0
  {
    Pow2Add(k - j, j);
    DivModUnique(Pow2(k), Pow2(j), Pow2(k - j), 0);
  }

  /** The list of order `j` below the top: one block when bit `j` of the page count is set, after all larger blocks. */
  function BinaryList(addr: nat, pages: nat, j: nat): seq<nat> {
    if (pages / Pow2(j)) % 2 == 1 then [addr + PAGE * (pages - pages % Pow2(j + 1))] else []
  }

  lemma TakeTopBit(addr: nat, pages: nat, j: nat, k: nat)
    requires j < k && Pow2(k) <= pages
    ensures BinaryList(addr + Size(k), pages - Pow2(k), j) == BinaryList(addr, pages, j)
  {
    Pow2Divides(j + 1, k);
    ModSub(pages, Pow2(j + 1), Pow2(k));
    BitOfRemainder(pages, pages - Pow2(k), Pow2(j));
    SizeIsPages(k);
  }

  /** The highest bit there can be takes its block first. */
  lemma TopBit(addr: nat, pages: nat, k: nat)
    requires pages < Pow2(k + 1)
    ensures BinaryList(addr, pages, k) == if pages >= Pow2(k) then [addr] else []
  {
    var p := Pow2(k);
    DivModUnique(pages, 2 * p, 0, pages);
    DivModUnique(pages, p, if pages >= p then 1 else 0, if pages >= p then pages - p else pages);
  }

  /** One order of the greedy loop below the top: at most one block, then the next order down. */
  lemma GreedyOrder(ls: Lists, addr: nat, pages: nat, k: nat)
    requires k <= MAX_ORDER && Pow2(k) <= pages < Pow2(k + 1)
    ensures Greedy(ls, addr, pages, k)
      == if k == 0 then Push(ls, addr, k) else Greedy(Push(ls, addr, k), addr + Size(k), pages - Pow2(k), k - 1)
  {
    assert Greedy(ls, addr, pages, k) == Greedy(Push(ls, addr, k), addr + Size(k), pages - Pow2(k), k);
  }

  lemma {:induction false} GreedyBelowTop(ls: Lists, addr: nat, pages: nat, k: nat)
    requires k < MAX_ORDER && pages < Pow2(k + 1)
    requires forall j :: 0 <= j <= k ==> ls[j] == []
    ensures forall j :: 0 <= j <= k ==> Greedy(ls, addr, pages, k)[j] == BinaryList(addr, pages, j)
    ensures forall j :: k < j <= MAX_ORDER ==> Greedy(ls, addr, pages, k)[j] == ls[j]
    decreases k
  {
    TopBit(addr, pages, k);
    if pages >= Pow2(k) {
      GreedyOrder(ls, addr, pages, k);
      if k > 0 {
        GreedyBelowTop(Push(ls, addr, k), addr + Size(k), pages - Pow2(k), k - 1);
        forall j: nat | j < k
          ensures BinaryList(addr + Size(k), pages - Pow2(k), j) == BinaryList(addr, pages, j)
        {
          TakeTopBit(addr, pages, j, k);
        }
      }
    } else if k > 0 {
      GreedyBelowTop(ls, addr, pages, k - 1);
    }
  }

  /** The top list: the first `n` top-order blocks of the heap, last one first, before what was there already. */
  function TopRun(addr: nat, n: nat): seq<nat>
    decreases n
  {
    if n == 0 then [] else TopRun(addr + Size(MAX_ORDER), n - 1) + [addr]
  }

  lemma {:induction false} GreedyTop(ls: Lists, addr: nat, pages: nat)
    requires forall j :: 0 <= j < MAX_ORDER ==> ls[j] == []
    ensures var r, n := Greedy(ls, addr, pages, MAX_ORDER), pages / Pow2(MAX_ORDER);
      && r[MAX_ORDER] == TopRun(addr, n) + ls[MAX_ORDER]
      && forall j :: 0 <= j < MAX_ORDER ==> r[j] == BinaryList(addr, pages, j)
    decreases pages
  {
    var p := Pow2(MAX_ORDER);
    assert p == 1024;
    if pages >= p {
      var ls1, a := Push(ls, addr, MAX_ORDER), addr + Size(MAX_ORDER);
      GreedyTop(ls1, a, pages - p);
      var n := pages / p;
      assert (pages - p) / p == n - 1;
      assert TopRun(a, n - 1) + ([addr] + ls[MAX_ORDER]) == TopRun(addr, n) + ls[MAX_ORDER];
      forall j | 0 <= j < MAX_ORDER
        ensures BinaryList(a, pages - p, j) == BinaryList(addr, pages, j)
      {
        TakeTopBit(addr, pages, j, MAX_ORDER);
      }
    } else {
      GreedyBelowTop(ls, addr, pages, MAX_ORDER - 1);
      assert TopRun(addr, 0) + ls[MAX_ORDER] == ls[MAX_ORDER];
    }
  }

  /**
   Initialisation makes `pages / 1024` blocks of the top order and, below it, the blocks of the binary expansion of
   the rest, laid end to end after them.
   */
  lemma InitExact(start: nat, pages: nat)
    ensures Init(start, pages)[MAX_ORDER] == TopRun(start, pages / 1024)
    ensures forall j :: 0 <= j < MAX_ORDER ==> Init(start, pages)[j] == BinaryList(start, pages, j)
  {
    GreedyTop(EMPTY, start, pages);
    assert Pow2(MAX_ORDER) == 1024;
  }

  lemma {:induction false} TopRunAt(addr: nat, n: nat, i: nat)
    requires i < n
    ensures |TopRun(addr, n)| == n && TopRun(addr, n)[i] == addr + (n - 1 - i) * Size(MAX_ORDER)
    decreases n
  {
    if i == n - 1 {
      TopRunLength(addr + Size(MAX_ORDER), n - 1);
    } else {
      TopRunAt(addr + Size(MAX_ORDER), n - 1, i);
    }
  }

  lemma {:induction false} TopRunLength(addr: nat, n: nat)
    ensures |TopRun(addr, n)| == n
    decreases n
  {
    if n > 0 {
      TopRunLength(addr + Size(MAX_ORDER), n - 1);
    }
  }

  /** Below the top order no list starts with two blocks, so no two buddies start free. */
  lemma InitCoalesced(start: nat, pages: nat)
    ensures Coalesced(Init(start, pages))
  {
    InitExact(start, pages);
    forall k, a | 0 <= k < MAX_ORDER && a in Init(start, pages)[k]
      ensures BuddyAddr(a, k) !in Init(start, pages)[k]
    {
      BuddyInvolution(a, k);
    }
  }

  // ----- Alignment -----

  lemma {:induction false} GreedyAligned(ls: Lists, addr: nat, pages: nat, k: nat)
    requires k <= MAX_ORDER && addr % Size(k) == 0 && Aligned(ls)
    ensures Aligned(Greedy(ls, addr, pages, k))
    decreases k, pages
  {
    if pages >= Pow2(k) {
      DivModUnique(Size(k), Size(k), 1, 0);
      ModAdd(addr, Size(k), Size(k));
      GreedyAligned(Push(ls, addr, k), addr + Size(k), pages - Pow2(k), k);
    } else if k > 0 {
      AlignedBelow(addr, k - 1, k);
      GreedyAligned(ls, addr, pages, k - 1);
    }
  }

  /** The order of the largest initial block. */
  function TopOrder(pages: nat, k: nat := MAX_ORDER): (r: nat)
    ensures r <= k
    ensures pages > 0 ==> Pow2(r) <= pages
    ensures r < k ==> pages < Pow2(r + 1)
  {
    if k == 0 || pages >= Pow2(k) then k else TopOrder(pages, k - 1)
  }

  lemma {:induction false} GreedySkips(ls: Lists, addr: nat, pages: nat, k: nat)
    requires k <= MAX_ORDER
    ensures Greedy(ls, addr, pages, k) == Greedy(ls, addr, pages, TopOrder(pages, k))
    decreases k
  {
    if k > 0 && pages < Pow2(k) {
      GreedySkips(ls, addr, pages, k - 1);
    }
  }

  lemma InitAligned(start: nat, pages: nat)
    requires start % Size(TopOrder(pages)) == 0
    ensures Aligned(Init(start, pages))
  {
    GreedySkips(EMPTY, start, pages, MAX_ORDER);
    GreedyAligned(EMPTY, start, pages, TopOrder(pages));
  }
}
