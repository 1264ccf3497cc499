/** The kernel heap: RAM between two addresses, and the buddy allocator whose free lists live inside it. */
module Heaps {
  import opened Arithmetic
  import opened Buddy
  import opened BuddyInit
  import opened BuddyInvariants
  import opened BuddyRuns
  import opened FreeLists
  import opened Memories
  import opened Tiling

  // ----- Orders and page counts -----

  /** The first order from `k` on whose blocks hold `pages` pages, or `MAX_ORDER + 1`. */
  function LeastOrder(pages: nat, k: nat := 0): (r: nat)
    requires k <= MAX_ORDER + 1
    ensures k <= r <= MAX_ORDER + 1
    ensures r <= MAX_ORDER ==> pages <= Pow2(r)
    ensures forall j :: k <= j < r ==> Pow2(j) < pages
    decreases MAX_ORDER + 1 - k
  {
    if k > MAX_ORDER || pages <= Pow2(k) then k else LeastOrder(pages, k + 1)
  }

  /** The order is the least one that is large enough up to 1024 pages, and 11, which no list has, above. */
  method OrderForPages(pages: nat) returns (order: nat)
    ensures order == LeastOrder(pages)
    ensures order <= MAX_ORDER + 1
    ensures pages <= 1024 ==> order <= MAX_ORDER && pages <= Pow2(order) && (order > 0 ==> Pow2(order - 1) < pages)
    ensures pages > 1024 ==> order == MAX_ORDER + 1
  {
    order := 0;
    var size := 1;
    while size < pages && order <= MAX_ORDER
      invariant order <= MAX_ORDER + 1 && size == Pow2(order)
      invariant LeastOrder(pages) == LeastOrder(pages, order)
    {
      size := 2 * size;
      order := order + 1;
    }
    assert Pow2(MAX_ORDER) == 1024 && Pow2(MAX_ORDER + 1) == 2048;
    LeastOrderOf(pages);
  }

  lemma LeastOrderOf(pages: nat)
    ensures pages <= 1024 <==> LeastOrder(pages) <= MAX_ORDER
  {
    assert Pow2(MAX_ORDER) == 1024;
    var r := LeastOrder(pages);
    if r <= MAX_ORDER {
      Pow2Monotone(r, MAX_ORDER);
    }
  }

  /** `(bytes + PAGE_SIZE - 1) / PAGE_SIZE` on 64-bit operands. */
  function PagesOf(bytes: nat): nat {
    (bytes + PAGE - 1) % TWO64 / PAGE
  }

  /**
   The order `kfree_size` computes from a size in bytes is the order `kalloc` takes for the pages that hold them, if
   and only if the rounding does not wrap around 64 bits.
   */
  lemma SizeOrderAgrees(bytes: nat, pages: nat)
    requires bytes < TWO64 && pages * PAGE >= bytes && (pages == 0 || (pages - 1) * PAGE < bytes)
    ensures LeastOrder(PagesOf(bytes)) == LeastOrder(pages) <==> bytes + PAGE - 1 < TWO64
  {
    if bytes + PAGE - 1 < TWO64 {
      assert PagesOf(bytes) == pages;
    } else {
      assert PagesOf(bytes) == 0;
      assert pages > 1024;
      LeastOrderOf(pages);
      LeastOrderOf(0);
    }
  }

  // ----- Frames -----

  ghost predicate SameIn(m: Memory, m1: Memory, b: Block) {
    forall x: int :: b.addr <= x < b.addr + Size(b.order) ==> m1.At(x) == m.At(x)
  }

  /** The blocks in `used` hold the same bytes in both memories. */
  ghost predicate KeepsUsed(m: Memory, m1: Memory, used: set<Block>) {
    m1.base == m.base && |m1.bytes| == |m.bytes| && forall b :: b in used ==> SameIn(m, m1, b)
  }

  lemma WriteInFree(m: Memory, m1: Memory, ls: Lists, used: set<Block>, lo: nat, hi: nat, b: Block)
    requires Sound(ls, used, lo, hi) && IsFree(ls, b) && SameOutside(m, m1, b.addr, Size(b.order))
    ensures KeepsUsed(m, m1, used)
  {
    forall c | c in used
      ensures SameIn(m, m1, c)
    {
      assert b in FreeSet(ls) + used && c in FreeSet(ls) + used;
      assert b.Apart(c);
    }
  }

  lemma WriteInOther(m: Memory, m1: Memory, u: set<Block>, lo: nat, hi: nat, b: Block, rest: set<Block>)
    requires Tiles(u, lo, hi) && b in u && rest <= u - {b} && SameOutside(m, m1, b.addr, Size(b.order))
    ensures KeepsUsed(m, m1, rest)
  {
    forall c | c in rest
      ensures SameIn(m, m1, c)
    {
      assert b.Apart(c);
    }
  }

  lemma KeepsTrans(m: Memory, m1: Memory, m2: Memory, used: set<Block>)
    requires KeepsUsed(m, m1, used) && KeepsUsed(m1, m2, used)
    ensures KeepsUsed(m, m2, used)
  {
    forall b | b in used
      ensures SameIn(m, m2, b)
    {
      assert SameIn(m, m1, b) && SameIn(m1, m2, b);
    }
  }

  lemma KeepsFewer(m: Memory, m1: Memory, used: set<Block>, fewer: set<Block>)
    requires KeepsUsed(m, m1, used) && fewer <= used
    ensures KeepsUsed(m, m1, fewer)
  {
  }

  lemma TwoWrites(m: Memory, m1: Memory, m2: Memory, a: nat, n: nat, a1: nat, a2: nat)
    requires SameOutside(m, m1, a1, 8) && SameOutside(m1, m2, a2, 8)
    requires a <= a1 && a1 + 8 <= a + n && a <= a2 && a2 + 8 <= a + n
    ensures SameOutside(m, m2, a, n)
  {
  }

  // ----- The heap -----

  class Heap {
    const lo: nat              // __free_ram
    const hi: nat              // __free_ram_end
    const ram: array<Byte>     // the byte at address lo + i is ram[i]
    const heads: array<nat>    // free_lists; 0 is NULL

    ghost var ls: Lists        // the blocks on each free list
    ghost var used: set<Block> // the blocks handed out

    ghost function Mem(): Memory
      reads ram
    {
      Memory(lo, ram[..])
    }

    ghost function Abs(): State
      reads this
    {
      State(ls, used)
    }

    function Pages(): nat
    {
      if lo <= hi then (hi - lo) / PAGE else 0
    }

    function Top(): nat
    {
      lo + Pages() * PAGE
    }

    ghost predicate Geometry() {
      && 0 < lo <= hi <= TWO64 && lo % PAGE == 0
      && ram.Length == hi - lo
      && heads.Length == MAX_ORDER + 1
    }

    /** The pages the allocator has are all whole pages of the heap: less than one page is left over at the end. */
    lemma NothingLeftOver()
      requires Geometry()
      ensures lo <= Top() <= hi < Top() + PAGE && Top() % PAGE == 0
      ensures Top() - lo == (hi - lo) - (hi - lo) % PAGE
    {
      DivModUnique(Pages() * PAGE, PAGE, Pages(), 0);
      ModAdd(lo, PAGE, Pages() * PAGE);
    }

    /** A byte lies below the last whole page's end exactly when the page that it is in ends within the heap. */
    lemma InWholePage(x: nat)
      requires Geometry()
      ensures x < Top() <==> x - x % PAGE + PAGE <= hi
    {
      NothingLeftOver();
      DivModUnique(x - x % PAGE, PAGE, x / PAGE, 0);
      MultiplesApart(x - x % PAGE, Top(), PAGE);
      MultiplesApart(Top(), x - x % PAGE, PAGE);
    }

    /** In every valid state the free blocks and the blocks in use cover exactly the whole pages of the heap. */
    lemma WholePagesCovered(x: nat)
      requires Shaped()
      ensures Covered(FreeSet(ls) + used, x) <==> lo <= x && x - x % PAGE + PAGE <= hi
    {
      InWholePage(x);
    }

    /** And their sizes add up to the whole pages of the heap. */
    lemma WholePagesKept()
      requires Valid()
      ensures FreeBytes(ls) + UsedBytes(used) == (hi - lo) - (hi - lo) % PAGE
    {
      NothingLeftOver();
      Conservation(lo, Pages(), Abs());
    }

    /** The lists are in memory and the blocks tile the heap. */
    ghost predicate Shaped()
      reads this, ram, heads
    {
      && Geometry()
      && Sound(ls, used, lo, Top())
      && Linked(Mem(), heads[..], ls)
    }

    /** Some run of the abstract allocator led here, so every theorem about runs holds of the heap. */
    ghost predicate Valid()
      reads this, ram, heads
    {
      Shaped() && Reachable(lo, Pages(), Abs())
    }

    /** RAM of any contents, and the zeroed `free_lists` of the .bss section. */
    constructor (start: nat, end: nat, contents: array<Byte>)
      requires 0 < start <= end <= TWO64 && start % PAGE == 0 && contents.Length == end - start
      ensures lo == start && hi == end && ram == contents && fresh(heads)
      ensures Geometry() && ls == EMPTY && used == {} && forall k :: 0 <= k <= MAX_ORDER ==> heads[k] == 0
    {
      lo, hi, ram := start, end, contents;
      heads := new nat[MAX_ORDER + 1](_ => 0);
      ls, used := EMPTY, {};
    }

    /** `init_memory`: the whole pages of the heap become free blocks, largest first. */
    method InitMemory()
      requires Geometry() && ls == EMPTY && used == {}
      requires forall k :: 0 <= k <= MAX_ORDER ==> heads[k] == 0
      modifies this`ls, ram, heads
      ensures Valid() && Abs() == Start(lo, Pages())
      ensures forall x: nat :: Covered(FreeSet(ls), x) <==> lo <= x && x - x % PAGE + PAGE <= hi
    {
      var total: nat, addr: nat := Pages(), lo;
      StartFilling();
      ghost var goal := Init(lo, Pages());
      var order: int := MAX_ORDER;
      while order >= 0
        invariant -1 <= order <= MAX_ORDER && Filling(addr, total)
        invariant goal == if order >= 0 then Greedy(ls, addr, total, order) else ls
        invariant order < 0 ==> total == 0
      {
        addr, total := FillOrder(addr, total, order);
        order := order - 1;
      }
      Filled(addr);
      AllFree();
    }

    /** The inner loop of `init_memory`. */
    method FillOrder(addr: nat, total: nat, order: nat) returns (addr1: nat, total1: nat)
      requires Filling(addr, total) && order <= MAX_ORDER
      modifies this`ls, ram, heads
      ensures Filling(addr1, total1) && total1 < Pow2(order)
      ensures Greedy(old(ls), addr, total, order) == Greedy(ls, addr1, total1, order)
      ensures order > 0 ==> Greedy(ls, addr1, total1, order) == Greedy(ls, addr1, total1, order - 1)
      ensures order == 0 ==> total1 == 0 && Greedy(ls, addr1, total1, order) == ls
    {
      addr1, total1 := addr, total;
      var blockPages := Pow2(order);
      while total1 >= blockPages
        invariant Filling(addr1, total1)
        invariant Greedy(old(ls), addr, total, order) == Greedy(ls, addr1, total1, order)
      {
        AddInitial(addr1, order, total1);
        addr1 := addr1 + Size(order);
        total1 := total1 - blockPages;
      }
      assert order == 0 ==> Pow2(order) == 1;
    }

    lemma StartFilling()
      requires Geometry() && ls == EMPTY && used == {}
      requires forall k :: 0 <= k <= MAX_ORDER ==> heads[k] == 0
      ensures Filling(lo, Pages())
    {
      assert FreeSet(EMPTY) == {};
    }

    lemma Filled(addr: nat)
      requires Filling(addr, 0) && ls == Init(lo, Pages())
      ensures Valid() && Abs() == Start(lo, Pages())
    {
      assert Legal(Start(lo, Pages()), []) && Exec(Start(lo, Pages()), []) == Start(lo, Pages());
    }

    lemma AllFree()
      requires Shaped() && used == {}
      ensures forall x: nat :: Covered(FreeSet(ls), x) <==> lo <= x && x - x % PAGE + PAGE <= hi
    {
      assert FreeSet(ls) + used == FreeSet(ls);
      forall x: nat
        ensures Covered(FreeSet(ls), x) <==> lo <= x && x - x % PAGE + PAGE <= hi
      {
        WholePagesCovered(x);
      }
    }

    /** The blocks made so far end at `addr`, and `total` pages are left. */
    ghost predicate Filling(addr: nat, total: nat)
      reads this, ram, heads
    {
      && Geometry() && used == {}
      && addr % PAGE == 0 && lo <= addr && addr + total * PAGE == Top()
      && Sound(ls, {}, lo, addr)
      && Linked(Mem(), heads[..], ls)
    }

    /** Pushes the block at `addr`, where the blocks so far end. */
    method AddInitial(addr: nat, k: nat, total: nat)
      requires Filling(addr, total) && k <= MAX_ORDER && Pow2(k) <= total
      modifies this`ls, ram, heads
      ensures ls == Push(old(ls), addr, k)
      ensures Filling(addr + Size(k), total - Pow2(k))
    {
      NextStart(addr, k, total);
      ghost var m, hs: seq<nat> := Mem(), heads[..];
      var head: nat := heads[k];
      HeadLimit(m, hs, ls, addr, k);
      Store64(ram, lo, addr, head);
      heads[k] := addr;
      PushBeyond(m, Mem(), hs, ls, lo, addr, k);
      assert heads[..] == hs[k := addr];
      PushSound(ls, addr, k, lo);
      ls := Push(ls, addr, k);
    }

    lemma NextStart(addr: nat, k: nat, total: nat)
      requires addr % PAGE == 0 && Pow2(k) <= total
      ensures (addr + Size(k)) % PAGE == 0
      ensures addr + Size(k) + (total - Pow2(k)) * PAGE == addr + total * PAGE
    {
      SizeIsPages(k);
      SizePaged(k);
      ModAdd(addr, PAGE, Size(k));
    }

    lemma HeadLimit(m: Memory, hs: seq<nat>, l: Lists, end: nat, k: nat)
      requires Geometry() && Sound(l, {}, lo, end) && Linked(m, hs, l) && k <= MAX_ORDER && end <= hi
      ensures hs[k] < TWO64
    {
      assert Chain(m, hs[k], l[k]);
      if l[k] != [] {
        assert Block(l[k][0], k) in FreeSet(l) + {};
      }
    }

    lemma BlockInside(b: Block)
      requires Geometry() && Sound(ls, used, lo, Top()) && (b in used || IsFree(ls, b))
      ensures b.order <= MAX_ORDER && lo <= b.addr && b.addr + Size(b.order) <= hi && b.addr % PAGE == 0
    {
      assert b in FreeSet(ls) + used;
    }

    // ----- Allocation -----

    /** One round of the splitting loop of `kalloc_order`. */
    method SplitTop(c: nat)
      requires Shaped() && 0 < c <= MAX_ORDER && ls[c] != []
      modifies this`ls, ram, heads
      ensures Shaped() && ls == SplitOnce(old(ls), c)
      ensures KeepsUsed(old(Mem()), Mem(), used)
    {
      ghost var m, l := Mem(), ls;
      assert Chain(m, heads[c], ls[c]);
      ghost var b := Block(ls[c][0], c);
      assert IsFree(ls, b);
      BlockInside(b);
      var block: nat := heads[c];
      var next := Load64(ram, lo, block);
      heads[c] := next;
      var buddy2 := block + Size(c - 1);
      Store64(ram, lo, block, buddy2);
      ghost var m1 := Mem();
      var rest := heads[c - 1];
      ghost var hs: seq<nat> := old(heads[..]);
      WordLimit(m, hs, ls, c - 1);
      Store64(ram, lo, buddy2, rest);
      heads[c - 1] := block;
      ls := SplitOnce(ls, c);
      SplitTopProof(m, m1, Mem(), hs, l, c, b);
      assert heads[..] == hs[c := next][c - 1 := block];
    }

    lemma WordLimit(m: Memory, hs: seq<nat>, l: Lists, k: nat)
      requires Geometry() && Sound(l, used, lo, Top()) && Linked(m, hs, l) && k <= MAX_ORDER
      ensures hs[k] < TWO64
    {
      assert Chain(m, hs[k], l[k]);
      if l[k] != [] {
        assert Block(l[k][0], k) in FreeSet(l) + used;
      }
    }

    lemma SplitTopProof(m: Memory, m1: Memory, m2: Memory, hs: seq<nat>, l: Lists, c: nat, b: Block)
      requires Geometry() && Sound(l, used, lo, Top()) && Linked(m, hs, l) && 0 < c <= MAX_ORDER && l[c] != []
      requires b == Block(l[c][0], c)
      requires Stored(m, m1, b.addr, b.addr + Size(c - 1))
      requires Stored(m1, m2, b.addr + Size(c - 1), hs[c - 1])
      ensures Sound(SplitOnce(l, c), used, lo, Top())
      ensures Linked(m2, hs[c := m.Word(hs[c])][c - 1 := b.addr], SplitOnce(l, c))
      ensures KeepsUsed(m, m2, used)
    {
      var b2 := b.addr + Size(c - 1);
      assert IsFree(l, b);
      TwoWrites(m, m1, m2, b.addr, Size(c), b.addr, b2);
      WriteInFree(m, m2, l, used, lo, Top(), b);
      NodesOutsideSame(m, m2, l, used, lo, Top(), b);
      WordOutside(m1, m2, b2, 8, b.addr);
      SplitLinked(m, m2, hs, l, c, b, b2);
      SplitOnceSound(l, c, used, lo, Top());
    }

    /** `kalloc_order`: takes a block of the order asked for, or returns 0 (NULL) and changes nothing. */
    method KallocOrder(order: nat) returns (r: nat)
      requires Valid()
      modifies this`ls, this`used, ram, heads
      ensures Valid() && Abs() == Step(old(Abs()), AllocOp(order))
      ensures r == match Alloc(old(ls), order) case None => 0 case Some((a, _)) => a
      ensures Alloc(old(ls), order).None? ==> Mem() == old(Mem())
      ensures KeepsUsed(old(Mem()), Mem(), old(used))
    {
      ghost var s0 := Abs();
      if order > MAX_ORDER {
        return 0;
      }
      var curr := FindFit(order);
      if curr > MAX_ORDER {
        return 0;
      }
      SplitDown(curr, order);
      r := TakeTop(order);
      AllocSound(s0.ls, order, s0.used, lo, Top());
      ReachableStep(lo, Pages(), s0, AllocOp(order));
    }

    /** The loop of `kalloc_order` that looks for a list with a block. */
    method FindFit(order: nat) returns (curr: nat)
      requires Shaped() && order <= MAX_ORDER
      ensures curr == FirstFit(ls, order)
    {
      curr := order;
      while curr <= MAX_ORDER && heads[curr] == 0
        invariant order <= curr <= MAX_ORDER + 1
        invariant FirstFit(ls, order) == FirstFit(ls, curr)
      {
        EmptyHead(curr);
        curr := curr + 1;
      }
      if curr <= MAX_ORDER {
        EmptyHead(curr);
      }
    }

    /** The loop of `kalloc_order` that splits the block found down to the order asked for. */
    method SplitDown(c: nat, order: nat)
      requires Shaped() && order <= c <= MAX_ORDER && ls[c] != []
      modifies this`ls, ram, heads
      ensures Shaped() && ls == Split(old(ls), c, order)
      ensures KeepsUsed(old(Mem()), Mem(), used)
    {
      var curr := c;
      ghost var m := Mem();
      while curr > order
        invariant order <= curr <= MAX_ORDER && Shaped() && ls[curr] != []
        invariant Split(ls, curr, order) == Split(old(ls), c, order)
        invariant KeepsUsed(m, Mem(), used)
      {
        ghost var m1 := Mem();
        SplitTop(curr);
        KeepsTrans(m, m1, Mem(), used);
        curr := curr - 1;
      }
    }

    /** Takes the first block off list `k`. */
    method TakeTop(k: nat) returns (r: nat)
      requires Shaped() && k <= MAX_ORDER && ls[k] != []
      modifies this`ls, this`used, heads
      ensures Geometry() && Linked(Mem(), heads[..], ls)
      ensures r == old(ls)[k][0] && ls == Pop(old(ls), k) && used == old(used) + {Block(r, k)}
    {
      assert Chain(Mem(), heads[k], ls[k]);
      NodesInside(k);
      r := heads[k];
      var next := Load64(ram, lo, r);
      ghost var hs: seq<nat> := heads[..];
      PopLinked(Mem(), hs, ls, k);
      heads[k] := next;
      assert heads[..] == hs[k := next];
      ls, used := Pop(ls, k), used + {Block(r, k)};
    }

    /** A NULL head is an empty list. */
    lemma EmptyHead(k: nat)
      requires Shaped() && k <= MAX_ORDER
      ensures heads[k] == 0 <==> ls[k] == []
    {
      assert Chain(Mem(), heads[k], ls[k]);
      if ls[k] != [] {
        BlockInside(Block(ls[k][0], k));
      }
    }

    // ----- Freeing -----

    /** The search of `kfree_order` along one list: takes `buddy` out if it is there. */
    method Unlink(k: nat, buddy: nat) returns (found: bool)
      requires Shaped() && k < MAX_ORDER
      modifies this`ls, ram, heads
      ensures found <==> buddy in old(ls)[k]
      ensures !found ==> Shaped() && ls == old(ls) && Mem() == old(Mem())
      ensures found ==> Geometry() && Linked(Mem(), heads[..], ls) && ls == old(ls)[k := Without(old(ls)[k], buddy)]
      ensures KeepsUsed(old(Mem()), Mem(), used)
    {
      ghost var s := ls[k];
      assert Chain(Mem(), heads[k], s);
      var prev: nat := 0;
      var curr: nat := heads[k];
      ghost var i := 0;
      while curr != 0
        invariant 0 <= i <= |s| && buddy !in s[..i]
        invariant curr == (if i < |s| then s[i] else 0)
        invariant prev == (if i > 0 then s[i - 1] else 0)
        modifies {}
        decreases |s| - i
      {
        assert Block(s[i], k) in FreeSet(ls);
        BlockInside(Block(s[i], k));
        assert Mem().Word(s[i]) == Next(s, i);
        if curr == buddy {
          break;
        }
        prev := curr;
        curr := Load64(ram, lo, curr);
        i := i + 1;
      }
      NodesInside(k);
      found := curr != 0;
      if found {
        Detach(k, prev, curr, i);
      }
    }

    lemma NodesInside(k: nat)
      requires Shaped() && k <= MAX_ORDER
      ensures forall i :: 0 <= i < |ls[k]| ==> lo <= ls[k][i] && ls[k][i] + 8 <= hi
    {
      forall i | 0 <= i < |ls[k]|
        ensures lo <= ls[k][i] && ls[k][i] + 8 <= hi
      {
        BlockInside(Block(ls[k][i], k));
      }
    }

    /** Removes node `i` of list `k`, whose predecessor, if it has one, is `prev`. */
    method Detach(k: nat, prev: nat, curr: nat, ghost i: nat)
      requires Shaped() && k <= MAX_ORDER && i < |ls[k]| && curr == ls[k][i]
      requires prev == (if i > 0 then ls[k][i - 1] else 0)
      requires lo <= curr && curr + 8 <= hi && (i > 0 ==> lo <= prev && prev + 8 <= hi)
      modifies this`ls, ram, heads
      ensures Geometry() && Linked(Mem(), heads[..], ls) && ls == old(ls)[k := Without(old(ls)[k], curr)]
      ensures KeepsUsed(old(Mem()), Mem(), used)
    {
      ghost var m, l := Mem(), ls;
      ghost var hs: seq<nat> := heads[..];
      assert Chain(m, heads[k], ls[k]);
      var next := Load64(ram, lo, curr);
      if prev != 0 {
        Store64(ram, lo, prev, next);
        DropLaterLinked(m, Mem(), hs, l, used, lo, Top(), k, i - 1);
        assert IsFree(l, Block(prev, k));
        WriteInFree(m, Mem(), l, used, lo, Top(), Block(prev, k));
      } else {
        DropFirstLinked(m, hs, l, k);
        heads[k] := next;
        assert heads[..] == hs[k := next];
      }
      ls := ls[k := Without(ls[k], curr)];
    }

    /** Makes a block in use the head of list `k`; the block is then free. */
    method PushBlock(addr: nat, k: nat)
      requires Shaped() && k <= MAX_ORDER && Block(addr, k) in used
      modifies this`ls, this`used, ram, heads
      ensures Geometry() && Linked(Mem(), heads[..], ls)
      ensures ls == Push(old(ls), addr, k) && used == old(used) - {Block(addr, k)}
      ensures KeepsUsed(old(Mem()), Mem(), used)
    {
      ghost var m, b := Mem(), Block(addr, k);
      ghost var hs: seq<nat> := heads[..];
      BlockInside(b);
      WordLimit(m, hs, ls, k);
      var head: nat := heads[k];
      Store64(ram, lo, addr, head);
      heads[k] := addr;
      PushLinked(m, Mem(), hs, ls, used, lo, Top(), b, k);
      assert heads[..] == hs[k := addr];
      WriteInOther(m, Mem(), FreeSet(ls) + used, lo, Top(), b, used - {b});
      ls, used := Push(ls, addr, k), used - {b};
    }

    /** `kfree_order`: puts a block back and merges it upwards; an order no list has is ignored. */
    method KfreeOrder(ptr: nat, order: nat)
      requires Valid() && (order <= MAX_ORDER ==> Block(ptr, order) in used)
      modifies this`ls, this`used, ram, heads
      ensures Valid()
      ensures order <= MAX_ORDER ==> Abs() == Step(old(Abs()), FreeOp(Block(ptr, order)))
      ensures order > MAX_ORDER ==> Abs() == old(Abs()) && Mem() == old(Mem())
      ensures KeepsUsed(old(Mem()), Mem(), used)
    {
      if order > MAX_ORDER {
        return;
      }
      ghost var s0, m, rest := Abs(), Mem(), used - {Block(ptr, order)};
      var addr, k := ptr, order;
      while k < MAX_ORDER
        invariant order <= k <= MAX_ORDER && Shaped()
        invariant Block(addr, k) !in rest && used == rest + {Block(addr, k)}
        invariant Free(ls, addr, k) == Free(s0.ls, ptr, order)
        invariant KeepsUsed(m, Mem(), rest)
      {
        ghost var m1, l := Mem(), ls;
        var buddy := BuddyAddr(addr, k);
        var found := Unlink(k, buddy);
        KeepsFewer(m1, Mem(), used, rest);
        KeepsTrans(m, m1, Mem(), rest);
        if !found {
          break;
        }
        MergeSound(l, addr, k, rest, lo, Top());
        addr := Min(addr, buddy);
        k := k + 1;
        used := rest + {Block(addr, k)};
      }
      assert Free(ls, addr, k) == Push(ls, addr, k);
      ghost var m1 := Mem();
      PushBlock(addr, k);
      KeepsTrans(m, m1, Mem(), rest);
      FreeSound(s0.ls, ptr, order, rest, lo, Top());
      ReachableStep(lo, Pages(), s0, FreeOp(Block(ptr, order)));
    }

    /** `kfree_size`: the order comes from the size in bytes, rounded up to pages on 64 bits. */
    method KfreeSize(ptr: nat, bytes: nat)
      requires Valid() && bytes < TWO64
      requires LeastOrder(PagesOf(bytes)) <= MAX_ORDER ==> Block(ptr, LeastOrder(PagesOf(bytes))) in used
      modifies this`ls, this`used, ram, heads
      ensures Valid()
      ensures var k := LeastOrder(PagesOf(bytes));
        Abs() == if k <= MAX_ORDER then Step(old(Abs()), FreeOp(Block(ptr, k))) else old(Abs())
      ensures KeepsUsed(old(Mem()), Mem(), used)
    {
      var order := OrderForPages(PagesOf(bytes));
      KfreeOrder(ptr, order);
    }

    // ----- Bytes and words of blocks in use -----

    lemma InsideUsed(b: Block, a: nat, n: nat)
      requires Shaped() && b in used && b.addr <= a && a + n <= b.addr + Size(b.order)
      ensures lo <= a && a + n <= hi
    {
      BlockInside(b);
    }

    /** Changes inside a block in use leave the heap valid and every other block in use as it was. */
    lemma StillValid(m: Memory, hs: seq<nat>, b: Block)
      requires Geometry() && Sound(ls, used, lo, Top()) && Reachable(lo, Pages(), Abs())
      requires Linked(m, hs, ls) && hs == heads[..]
      requires b in used && SameOutside(m, Mem(), b.addr, Size(b.order))
      ensures Valid() && KeepsUsed(m, Mem(), used - {b})
    {
      WritesInUsed(m, Mem(), hs, ls, used, lo, Top(), b);
      assert b in FreeSet(ls) + used;
      WriteInOther(m, Mem(), FreeSet(ls) + used, lo, Top(), b, used - {b});
    }

    /** `*(uint64_t *) a = v` inside a block in use. */
    method Store(a: nat, v: nat, ghost b: Block)
      requires Valid() && b in used && b.addr <= a && a + 8 <= b.addr + Size(b.order) && v < TWO64
      modifies ram
      ensures Valid() && Stored(old(Mem()), Mem(), a, v)
      ensures KeepsUsed(old(Mem()), Mem(), used - {b})
    {
      ghost var m := Mem();
      InsideUsed(b, a, 8);
      Store64(ram, lo, a, v);
      StillValid(m, heads[..], b);
    }

    /** `*(uint64_t *) a` inside a block in use. */
    method Load(a: nat, ghost b: Block) returns (v: nat)
      requires Valid() && b in used && b.addr <= a && a + 8 <= b.addr + Size(b.order)
      ensures v == Mem().Word(a) && v < TWO64
    {
      InsideUsed(b, a, 8);
      v := Load64(ram, lo, a);
    }

    /** `memset`: every one of the `n` bytes becomes the low byte of `value`. */
    method Memset(dest: nat, value: nat, n: nat, ghost b: Block)
      requires Valid() && b in used && b.addr <= dest && dest + n <= b.addr + Size(b.order)
      modifies ram
      ensures Valid() && SameOutside(old(Mem()), Mem(), dest, n)
      ensures forall x: int :: dest <= x < dest + n ==> Mem().At(x) == value % 256
      ensures KeepsUsed(old(Mem()), Mem(), used - {b})
    {
      ghost var m := Mem();
      InsideUsed(b, dest, n);
      FillBytes(ram, lo, dest, value, n);
      StillValid(m, heads[..], b);
    }

    /** `memcpy` into a block in use, from memory outside the heap. */
    method Memcpy(dest: nat, src: seq<Byte>, ghost b: Block)
      requires Valid() && b in used && b.addr <= dest && dest + |src| <= b.addr + Size(b.order)
      modifies ram
      ensures Valid() && SameOutside(old(Mem()), Mem(), dest, |src|)
      ensures forall i :: 0 <= i < |src| ==> Mem().At(dest + i) == src[i]
      ensures KeepsUsed(old(Mem()), Mem(), used - {b})
    {
      ghost var m := Mem();
      InsideUsed(b, dest, |src|);
      CopyBytes(ram, lo, dest, src);
      StillValid(m, heads[..], b);
    }

    /**
     `kalloc`: a block of the least order that holds `n` pages, with its first `n` pages zeroed. The source does not
     check for NULL before clearing, so the allocation has to succeed.
     */
    method Kalloc(n: nat) returns (r: nat)
      requires Valid() && Alloc(ls, LeastOrder(n)).Some?
      modifies this`ls, this`used, ram, heads
      ensures Valid() && Abs() == Step(old(Abs()), AllocOp(LeastOrder(n)))
      ensures r == Alloc(old(ls), LeastOrder(n)).value.0
      ensures Block(r, LeastOrder(n)) !in old(used) && Block(r, LeastOrder(n)) in used
      ensures r + n * PAGE <= r + Size(LeastOrder(n))
      ensures forall x: int :: r <= x < r + n * PAGE ==> Mem().At(x) == 0
      ensures KeepsUsed(old(Mem()), Mem(), old(used))
    {
      ghost var m, l, u := Mem(), ls, used;
      var order := OrderForPages(n);
      r := KallocOrder(order);
      ghost var m1, b := Mem(), Block(r, order);
      AllocSound(l, order, u, lo, Top());
      SizeIsPages(order);
      Memset(r, 0, n * PAGE, b);
      assert used - {b} == u;
      KeepsTrans(m, m1, Mem(), u);
    }
  }
}
