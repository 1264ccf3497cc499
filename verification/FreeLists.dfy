/** Free lists as they lie in memory: the word at the start of each free block holds the address of the next one. */
module FreeLists {
  import opened Buddy
  import opened BuddyInvariants
  import opened Memories
  import opened Wrappers

  function First(s: seq<nat>): nat {
    if s == [] then 0 else s[0]
  }

  function Next(s: seq<nat>, i: nat): nat {
    if i + 1 < |s| then s[i + 1] else 0
  }

  /** `head` starts a NULL-terminated chain of `next` words through exactly the blocks of `s`. */
  ghost predicate Chain(m: Memory, head: nat, s: seq<nat>) {
    head == First(s) && forall i: nat {:trigger m.Word(s[i])} :: i < |s| ==> m.Word(s[i]) == Next(s, i)
  }

  ghost predicate Linked(m: Memory, heads: seq<nat>, ls: Lists) {
    |heads| == MAX_ORDER + 1 && forall k: nat :: k <= MAX_ORDER ==> Chain(m, heads[k], ls[k])
  }

  lemma ChainTail(m: Memory, head: nat, s: seq<nat>)
    requires Chain(m, head, s) && s != []
    ensures Chain(m, m.Word(head), s[1..])
  {
    assert m.Word(s[0]) == Next(s, 0);
    forall i: nat | i < |s[1..]|
      ensures m.Word(s[1..][i]) == Next(s[1..], i)
    {
      assert m.Word(s[i + 1]) == Next(s, i + 1);
    }
  }

  /** Writing the old head into a block off the chain and making that block the head pushes it. */
  lemma ChainPush(m: Memory, m1: Memory, head: nat, s: seq<nat>, b: nat)
    requires Chain(m, head, s) && m1.Word(b) == head
    requires forall i: nat :: i < |s| ==> m1.Word(s[i]) == m.Word(s[i])
    ensures Chain(m1, b, [b] + s)
  {
    var t := [b] + s;
    forall i: nat | i < |t|
      ensures m1.Word(t[i]) == Next(t, i)
    {
      if i > 0 {
        assert m.Word(s[i - 1]) == Next(s, i - 1);
      }
    }
  }

  /** Storing the successor of node `i + 1` into node `i` takes node `i + 1` out. */
  lemma ChainUnlink(m: Memory, m1: Memory, head: nat, s: seq<nat>, i: nat)
    requires Chain(m, head, s) && i + 1 < |s|
    requires m1.Word(s[i]) == m.Word(s[i + 1])
    requires forall j: nat :: j < |s| && j != i ==> m1.Word(s[j]) == m.Word(s[j])
    ensures Chain(m1, head, s[..i + 1] + s[i + 2..])
  {
    var t := s[..i + 1] + s[i + 2..];
    assert m.Word(s[i + 1]) == Next(s, i + 1);
    forall j: nat | j < |t|
      ensures m1.Word(t[j]) == Next(t, j)
    {
      if j < i {
        assert m.Word(s[j]) == Next(s, j);
      } else if j > i {
        assert m.Word(s[j + 1]) == Next(s, j + 1);
      }
    }
  }

  /** A chain survives any change that leaves its own words alone. */
  lemma ChainSame(m: Memory, m1: Memory, head: nat, s: seq<nat>)
    requires Chain(m, head, s)
    requires forall i: nat :: i < |s| ==> m1.Word(s[i]) == m.Word(s[i])
    ensures Chain(m1, head, s)
  {
  }

  /** Everything inside a used block is clear of the `next` word of every free block. */
  lemma NodeApart(ls: Lists, used: set<Block>, lo: nat, hi: nat, b: Block, j: nat, x: nat)
    requires Sound(ls, used, lo, hi) && b in used && j <= MAX_ORDER && x in ls[j]
    ensures x + 8 <= b.addr || b.addr + Size(b.order) <= x
  {
    var c := Block(x, j);
    assert IsFree(ls, c);
    assert c in FreeSet(ls) + used && b in FreeSet(ls) + used;
    assert c.Apart(b);
  }

  /** Non-interference: arbitrary writes inside a used block change no free list. */
  lemma WritesInUsed(m: Memory, m1: Memory, heads: seq<nat>, ls: Lists, used: set<Block>, lo: nat, hi: nat, b: Block)
    requires Linked(m, heads, ls) && Sound(ls, used, lo, hi) && b in used
    requires SameOutside(m, m1, b.addr, Size(b.order))
    ensures Linked(m1, heads, ls)
  {
    forall k: nat | k <= MAX_ORDER
      ensures Chain(m1, heads[k], ls[k])
    {
      forall i: nat | i < |ls[k]|
        ensures m1.Word(ls[k][i]) == m.Word(ls[k][i])
      {
        NodeApart(ls, used, lo, hi, b, k, ls[k][i]);
        WordOutside(m, m1, b.addr, Size(b.order), ls[k][i]);
      }
      ChainSame(m, m1, heads[k], ls[k]);
    }
  }

  /** The nodes of all lists are different words of memory. */
  lemma NodesApart(ls: Lists, used: set<Block>, lo: nat, hi: nat, j: nat, x: nat, k: nat, y: nat)
    requires Sound(ls, used, lo, hi) && j <= MAX_ORDER && x in ls[j] && k <= MAX_ORDER && y in ls[k]
    requires Block(x, j) != Block(y, k)
    ensures x + 8 <= y || y + 8 <= x
  {
    var b, c := Block(x, j), Block(y, k);
    assert IsFree(ls, b) && IsFree(ls, c);
    assert b.Apart(c);
  }

  /** Every free node other than block `b` has the same `next` word in both memories. */
  ghost predicate NodesSame(m: Memory, m1: Memory, ls: Lists, b: Block) {
    forall c :: IsFree(ls, c) && c != b ==> m1.Word(c.addr) == m.Word(c.addr)
  }

  /** A store to the `next` word of one node leaves every other node's word alone. */
  lemma OtherNodesSame(m: Memory, m1: Memory, ls: Lists, used: set<Block>, lo: nat, hi: nat, k: nat, x: nat)
    requires Sound(ls, used, lo, hi) && k <= MAX_ORDER && x in ls[k]
    requires SameOutside(m, m1, x, 8)
    ensures NodesSame(m, m1, ls, Block(x, k))
  {
    forall c | IsFree(ls, c) && c != Block(x, k)
      ensures m1.Word(c.addr) == m.Word(c.addr)
    {
      NodesApart(ls, used, lo, hi, k, x, c.order, c.addr);
      WordOutside(m, m1, x, 8, c.addr);
    }
  }

  /** Every free node outside block `b` keeps its word when only the inside of `b` changes. */
  lemma NodesOutsideSame(m: Memory, m1: Memory, ls: Lists, used: set<Block>, lo: nat, hi: nat, b: Block)
    requires Sound(ls, used, lo, hi) && (IsFree(ls, b) || b in used) && SameOutside(m, m1, b.addr, Size(b.order))
    ensures NodesSame(m, m1, ls, b)
  {
    forall c | IsFree(ls, c) && c != b
      ensures m1.Word(c.addr) == m.Word(c.addr)
    {
      assert b in FreeSet(ls) + used && c in FreeSet(ls) + used;
      assert c.Apart(b);
      WordOutside(m, m1, b.addr, Size(b.order), c.addr);
    }
  }

  /** A list that does not hold `b` at its own order is linked as before. */
  lemma OtherListSame(m: Memory, m1: Memory, heads: seq<nat>, ls: Lists, b: Block, k: nat)
    requires Linked(m, heads, ls) && NodesSame(m, m1, ls, b) && k <= MAX_ORDER && (k != b.order || b.addr !in ls[k])
    ensures Chain(m1, heads[k], ls[k])
  {
    assert Chain(m, heads[k], ls[k]);
    forall i: nat | i < |ls[k]|
      ensures m1.Word(ls[k][i]) == m.Word(ls[k][i])
    {
      assert IsFree(ls, Block(ls[k][i], k));
    }
    ChainSame(m, m1, heads[k], ls[k]);
  }

  /** The nodes after the first of a list stay linked when only the first block changes. */
  lemma TailLinked(m: Memory, m1: Memory, heads: seq<nat>, ls: Lists, c: nat)
    requires Linked(m, heads, ls) && AllDistinct(ls) && c <= MAX_ORDER && ls[c] != []
    requires NodesSame(m, m1, ls, Block(ls[c][0], c))
    ensures Chain(m1, m.Word(heads[c]), ls[c][1..])
  {
    var s := ls[c];
    assert Chain(m, heads[c], s);
    ChainTail(m, heads[c], s);
    forall i: nat | i < |s[1..]|
      ensures m1.Word(s[1..][i]) == m.Word(s[1..][i])
    {
      assert s[1..][i] == s[i + 1] && s[i + 1] != s[0];
      assert IsFree(ls, Block(s[i + 1], c));
    }
    ChainSame(m, m1, m.Word(heads[c]), s[1..]);
  }

  lemma ChainPushTwo(m: Memory, head: nat, s: seq<nat>, b: nat, b2: nat)
    requires Chain(m, head, s) && m.Word(b) == b2 && m.Word(b2) == head
    ensures Chain(m, b, [b, b2] + s)
  {
    ChainPush(m, m, head, s, b2);
    ChainPush(m, m, b2, [b2] + s, b);
    assert [b] + ([b2] + s) == [b, b2] + s;
  }

  /** The memory and heads after one round of the splitting loop link the split lists. */
  lemma SplitLinked(m: Memory, m1: Memory, heads: seq<nat>, ls: Lists, c: nat, b: Block, b2: nat)
    requires Linked(m, heads, ls) && AllDistinct(ls) && 0 < c <= MAX_ORDER && ls[c] != []
    requires b == Block(ls[c][0], c) && b2 == b.addr + Size(c - 1)
    requires NodesSame(m, m1, ls, b)
    requires m1.Word(b.addr) == b2 && m1.Word(b2) == heads[c - 1]
    ensures Linked(m1, heads[c := m.Word(heads[c])][c - 1 := b.addr], SplitOnce(ls, c))
  {
    TailLinked(m, m1, heads, ls, c);
    OtherListSame(m, m1, heads, ls, b, c - 1);
    ChainPushTwo(m1, heads[c - 1], ls[c - 1], b.addr, b2);
    forall k: nat | k <= MAX_ORDER && k != c && k != c - 1
      ensures Chain(m1, heads[k], ls[k])
    {
      OtherListSame(m, m1, heads, ls, b, k);
    }
    var si, sj := ls[c][1..], [b.addr, b2] + ls[c - 1];
    SplitOnceIs(ls, c);
    ReplaceTwo(m1, heads, ls, c, m.Word(heads[c]), si, c - 1, b.addr, sj);
  }

  lemma SplitOnceIs(ls: Lists, c: nat)
    requires 0 < c <= MAX_ORDER && ls[c] != []
    ensures SplitOnce(ls, c) == ls[c := ls[c][1..]][c - 1 := [ls[c][0], ls[c][0] + Size(c - 1)] + ls[c - 1]]
  {
  }

  /** Two lists replaced by chains that are in memory, the rest as they were. */
  lemma ReplaceTwo(m: Memory, heads: seq<nat>, ls: Lists, i: nat, hi: nat, si: seq<nat>, j: nat, hj: nat, sj: seq<nat>)
    requires |heads| == MAX_ORDER + 1 && i <= MAX_ORDER && j <= MAX_ORDER && i != j
    requires Chain(m, hi, si) && Chain(m, hj, sj)
    requires forall k: nat :: k <= MAX_ORDER && k != i && k != j ==> Chain(m, heads[k], ls[k])
    ensures Linked(m, heads[i := hi][j := hj], ls[i := si][j := sj])
  {
  }

  lemma PopLinked(m: Memory, heads: seq<nat>, ls: Lists, k: nat)
    requires Linked(m, heads, ls) && k <= MAX_ORDER && ls[k] != []
    ensures Linked(m, heads[k := m.Word(heads[k])], Pop(ls, k))
  {
    assert Chain(m, heads[k], ls[k]);
    ChainTail(m, heads[k], ls[k]);
  }

  /** Writing the old head of list `k` into a used block and making it the head pushes it. */
  lemma PushLinked(m: Memory, m1: Memory, heads: seq<nat>, ls: Lists, used: set<Block>, lo: nat, hi: nat, b: Block,
                   k: nat)
    requires Linked(m, heads, ls) && Sound(ls, used, lo, hi) && b in used && k <= MAX_ORDER
    requires Stored(m, m1, b.addr, heads[k])
    ensures Linked(m1, heads[k := b.addr], Push(ls, b.addr, k))
  {
    assert SameOutside(m, m1, b.addr, Size(b.order));
    WritesInUsed(m, m1, heads, ls, used, lo, hi, b);
    assert Chain(m1, heads[k], ls[k]);
    ChainPush(m1, m1, heads[k], ls[k], b.addr);
  }

  lemma {:induction false} WithoutAt(s: seq<nat>, i: nat)
    requires Distinct(s) && i < |s|
    ensures Without(s, s[i]) == s[..i] + s[i + 1..]
  {
    if i > 0 {
      assert s[1..][i - 1] == s[i];
      WithoutAt(s[1..], i - 1);
      assert s[..i] == [s[0]] + s[1..][..i - 1];
    }
  }

  /** Taking the first node out of list `k` by moving the head. */
  lemma DropFirstLinked(m: Memory, heads: seq<nat>, ls: Lists, k: nat)
    requires Linked(m, heads, ls) && AllDistinct(ls) && k <= MAX_ORDER && ls[k] != []
    ensures Linked(m, heads[k := m.Word(heads[k])], ls[k := Without(ls[k], ls[k][0])])
  {
    PopLinked(m, heads, ls, k);
  }

  /** Taking node `i + 1` out of list `k` by storing its successor into node `i`. */
  lemma DropLaterLinked(m: Memory, m1: Memory, heads: seq<nat>, ls: Lists, used: set<Block>, lo: nat, hi: nat,
                        k: nat, i: nat)
    requires Linked(m, heads, ls) && Sound(ls, used, lo, hi) && k <= MAX_ORDER && i + 1 < |ls[k]|
    requires Stored(m, m1, ls[k][i], m.Word(ls[k][i + 1]))
    ensures Linked(m1, heads, ls[k := Without(ls[k], ls[k][i + 1])])
  {
    var b := Block(ls[k][i], k);
    OtherNodesSame(m, m1, ls, used, lo, hi, k, b.addr);
    DropLaterChain(m, m1, heads, ls, k, i);
    WithoutAt(ls[k], i + 1);
    forall j: nat | j <= MAX_ORDER && j != k
      ensures Chain(m1, heads[j], ls[j])
    {
      OtherListSame(m, m1, heads, ls, b, j);
    }
  }

  lemma DropLaterChain(m: Memory, m1: Memory, heads: seq<nat>, ls: Lists, k: nat, i: nat)
    requires Linked(m, heads, ls) && AllDistinct(ls) && k <= MAX_ORDER && i + 1 < |ls[k]|
    requires NodesSame(m, m1, ls, Block(ls[k][i], k))
    requires m1.Word(ls[k][i]) == m.Word(ls[k][i + 1])
    ensures Chain(m1, heads[k], ls[k][..i + 1] + ls[k][i + 2..])
  {
    var s := ls[k];
    assert Chain(m, heads[k], s);
    forall j: nat | j < |s| && j != i
      ensures m1.Word(s[j]) == m.Word(s[j])
    {
      assert IsFree(ls, Block(s[j], k));
    }
    ChainUnlink(m, m1, heads[k], s, i);
  }

  /** Pushing a block that starts where all listed blocks end. */
  lemma PushBeyond(m: Memory, m1: Memory, heads: seq<nat>, ls: Lists, lo: nat, addr: nat, k: nat)
    requires Linked(m, heads, ls) && Sound(ls, {}, lo, addr) && k <= MAX_ORDER
    requires Stored(m, m1, addr, heads[k])
    ensures Linked(m1, heads[k := addr], Push(ls, addr, k))
  {
    var b := Block(addr, k);
    forall c | IsFree(ls, c)
      ensures m1.Word(c.addr) == m.Word(c.addr) && c != b
    {
      assert c in FreeSet(ls) + {};
      WordOutside(m, m1, addr, 8, c.addr);
    }
    forall j: nat | j <= MAX_ORDER
      ensures Chain(m1, heads[j], ls[j])
    {
      OtherListSame(m, m1, heads, ls, b, j) by {
        assert !IsFree(ls, b);
      }
    }
    ChainPush(m1, m1, heads[k], ls[k], addr);
  }
}
