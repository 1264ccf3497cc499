/**
 The buddy allocator's free lists as values: eleven sequences of block addresses, and what the allocator's
 operations do to them. A block of order `k` spans `PAGE << k` bytes.
 */
module Buddy {
  import opened Arithmetic
  import opened Bits
  import opened Wrappers

  const PAGE: nat := 4096
  const MAX_ORDER: nat := 10

  /** `PAGE_SIZE << k`. */
  function Size(k: nat): (r: nat)
    ensures r >= PAGE
  {
    if k == 0 then PAGE else 2 * Size(k - 1)
  }

  datatype Block = Block(addr: nat, order: nat) {
    predicate Has(x: nat) {
      addr <= x < addr + Size(order)
    }

    predicate Apart(b: Block) {
      addr + Size(order) <= b.addr || b.addr + Size(b.order) <= addr
    }
  }

  type Lists = ls: seq<seq<nat>> | |ls| == MAX_ORDER + 1 witness [[], [], [], [], [], [], [], [], [], [], []]

  predicate IsFree(ls: Lists, b: Block) {
    b.order <= MAX_ORDER && b.addr in ls[b.order]
  }

  /** The blocks the lists hold, each with the order of its list. */
  function FreeSet(ls: Lists): (r: set<Block>)
    ensures forall b :: b in r <==> IsFree(ls, b)
  {
    set k, a | 0 <= k <= MAX_ORDER && a in ls[k] :: Block(a, k)
  }

  // ----- The operations -----

  /** The neighbour a block merges with. */
  function BuddyAddr(addr: nat, order: nat): nat {
    Xor(addr, Size(order))
  }

  /** The first order from `k` on whose list is not empty, or `MAX_ORDER + 1`. */
  function FirstFit(ls: Lists, k: nat): (c: nat)
    requires k <= MAX_ORDER + 1
    ensures k <= c <= MAX_ORDER + 1
    ensures c <= MAX_ORDER ==> ls[c] != []
    ensures forall j :: k <= j < c ==> ls[j] == []
    decreases MAX_ORDER + 1 - k
  {
    if k > MAX_ORDER || ls[k] != [] then k else FirstFit(ls, k + 1)
  }

  /** One round of the splitting loop: the first block of list `c` becomes the first two of list `c - 1`. */
  function SplitOnce(ls: Lists, c: nat): Lists
    requires 0 < c <= MAX_ORDER && ls[c] != []
  {
    var b := ls[c][0];
    ls[c := ls[c][1..]][c - 1 := [b, b + Size(c - 1)] + ls[c - 1]]
  }

  function Split(ls: Lists, c: nat, k: nat): (r: Lists)
    requires k <= c <= MAX_ORDER && ls[c] != []
    ensures r[k] != []
    decreases c
  {
    if c == k then ls else Split(SplitOnce(ls, c), c - 1, k)
  }

  function Pop(ls: Lists, k: nat): Lists
    requires k <= MAX_ORDER && ls[k] != []
  {
    ls[k := ls[k][1..]]
  }

  function Push(ls: Lists, addr: nat, k: nat): Lists
    requires k <= MAX_ORDER
  {
    ls[k := [addr] + ls[k]]
  }

  /** A block of order `k` and the lists without it, or nothing when no list from `k` on has a block. */
  function Alloc(ls: Lists, k: nat): Option<(nat, Lists)> {
    if k > MAX_ORDER then None
    else
      var c := FirstFit(ls, k);
      if c > MAX_ORDER then None
      else
        var split := Split(ls, c, k);
        Some((split[k][0], Pop(split, k)))
  }

  /** The sequence without the first occurrence of `x`. */
  function Without(s: seq<nat>, x: nat): seq<nat> {
    if s == [] then []
    else if s[0] == x then s[1..]
    else [s[0]] + Without(s[1..], x)
  }

  /** Puts a block back, merging it upwards while its buddy is in the list of its order. */
  function Free(ls: Lists, addr: nat, k: nat): Lists
    decreases MAX_ORDER - k
  {
    if k > MAX_ORDER then ls
    else if k < MAX_ORDER && BuddyAddr(addr, k) in ls[k] then
      var buddy := BuddyAddr(addr, k);
      Free(ls[k := Without(ls[k], buddy)], Min(addr, buddy), k + 1)
    else Push(ls, addr, k)
  }

  /** Greedy initialisation of `pages` pages from `addr` on: largest blocks first, orders `k` down to 0. */
  function Greedy(ls: Lists, addr: nat, pages: nat, k: nat): Lists
    requires k <= MAX_ORDER
    decreases k, pages
  {
    if pages >= Pow2(k) then Greedy(Push(ls, addr, k), addr + Size(k), pages - Pow2(k), k)
    else if k == 0 then ls
    else Greedy(ls, addr, pages, k - 1)
  }

  const EMPTY: Lists := [[], [], [], [], [], [], [], [], [], [], []]

  /** The free lists after `init_memory` on `pages` pages from `start` on. */
  function Init(start: nat, pages: nat): Lists {
    Greedy(EMPTY, start, pages, MAX_ORDER)
  }

  // ----- Arithmetic of blocks -----

  lemma {:induction false} SizeIsPow2(k: nat)
    ensures Size(k) == Pow2(k + 12)
  {
    if k > 0 {
      SizeIsPow2(k - 1);
    } else {
      assert Pow2(12) == 4096;
    }
  }

  lemma {:induction false} SizeIsPages(k: nat)
    ensures Size(k) == PAGE * Pow2(k)
  {
    if k > 0 {
      SizeIsPages(k - 1);
    }
  }

  lemma SizePaged(k: nat)
    ensures Size(k) % PAGE == 0
  {
    SizeIsPages(k);
    DivModUnique(Size(k), PAGE, Pow2(k), 0);
  }

  lemma {:induction false} SizeGrows(j: nat, k: nat)
    requires j <= k
    ensures Size(j) <= Size(k)
    ensures j < k ==> 2 * Size(j) <= Size(k)
  {
    if j < k {
      SizeGrows(j, k - 1);
    }
  }

  /** A multiple of a block size is a multiple of every smaller block size. */
  lemma {:induction false} AlignedBelow(a: nat, j: nat, k: nat)
    requires j <= k && a % Size(k) == 0
    ensures a % Size(j) == 0
  {
    if j < k {
      DoubleDivides(a, Size(k - 1));
      AlignedBelow(a, j, k - 1);
    }
  }

  lemma DoubleDivides(a: nat, d: nat)
    requires d > 0 && a % (2 * d) == 0
    ensures a % d == 0 && (a / d) % 2 == 0
  {
    DivDiv(a, d, 2);
    assert d * 2 == 2 * d;
  }

  /** XOR with the block size moves one block up or one block down, whatever the address's alignment. */
  lemma BuddyIs(a: nat, k: nat)
    ensures (a / Size(k)) % 2 == 0 ==> BuddyAddr(a, k) == a + Size(k)
    ensures (a / Size(k)) % 2 == 1 ==> a >= Size(k) && BuddyAddr(a, k) == a - Size(k)
  {
    SizeIsPow2(k);
    XorPow2(a, k + 12);
  }

  /** The buddy of the buddy is the block itself. */
  lemma BuddyInvolution(a: nat, k: nat)
    ensures BuddyAddr(BuddyAddr(a, k), k) == a
    ensures BuddyAddr(a, k) != a
  {
    var d := Size(k);
    BuddyIs(a, k);
    BuddyIs(BuddyAddr(a, k), k);
    if (a / d) % 2 == 0 {
      ModAdd(a, d, d);
    } else {
      ModAdd(a - d, d, d);
    }
  }
}
