/**
 Runs of allocations and frees. The state pairs the free lists with the blocks in use; a free must name a block in use
 together with the order it was handed out at.
 */
module BuddyRuns {
  import opened Arithmetic
  import opened Buddy
  import opened BuddyCanonical
  import opened BuddyInit
  import opened BuddyInvariants
  import opened Tiling

  datatype State = State(ls: Lists, used: set<Block>)

  datatype Op = AllocOp(order: nat) | FreeOp(block: Block)

  predicate Allowed(s: State, op: Op) {
    op.FreeOp? ==> op.block in s.used
  }

  function Step(s: State, op: Op): State {
    match op
    case AllocOp(k) => (
      match Alloc(s.ls, k)
      case None => s
      case Some((a, ls)) => State(ls, s.used + {Block(a, k)}))
    case FreeOp(b) => State(Free(s.ls, b.addr, b.order), s.used - {b})
  }

  ghost predicate Legal(s: State, ops: seq<Op>)
    decreases ops
  {
    ops == [] || (Allowed(s, ops[0]) && Legal(Step(s, ops[0]), ops[1..]))
  }

  function Exec(s: State, ops: seq<Op>): State
    decreases ops
  {
    if ops == [] then s else Exec(Step(s, ops[0]), ops[1..])
  }

  function Start(start: nat, pages: nat): State {
    State(Init(start, pages), {})
  }

  ghost predicate Reachable(start: nat, pages: nat, s: State) {
    exists ops :: Legal(Start(start, pages), ops) && Exec(Start(start, pages), ops) == s
  }

  // ----- Extending a run -----

  lemma {:induction false} ExecAppend(s: State, ops: seq<Op>, op: Op)
    requires Legal(s, ops) && Allowed(Exec(s, ops), op)
    ensures Legal(s, ops + [op]) && Exec(s, ops + [op]) == Step(Exec(s, ops), op)
    decreases ops
  {
    if ops == [] {
      assert [op][1..] == [];
      assert Legal(Step(s, op), []);
      assert ops + [op] == [op];
    } else {
      assert (ops + [op])[1..] == ops[1..] + [op];
      ExecAppend(Step(s, ops[0]), ops[1..], op);
    }
  }

  lemma ReachableStep(start: nat, pages: nat, s: State, op: Op)
    requires Reachable(start, pages, s) && Allowed(s, op)
    ensures Reachable(start, pages, Step(s, op))
  {
    var ops :| Legal(Start(start, pages), ops) && Exec(Start(start, pages), ops) == s;
    ExecAppend(Start(start, pages), ops, op);
  }

  // ----- Tiling and coalescing in every run -----

  ghost predicate Inv(s: State, lo: nat, hi: nat) {
    Sound(s.ls, s.used, lo, hi) && Coalesced(s.ls)
  }

  lemma StepInv(s: State, op: Op, lo: nat, hi: nat)
    requires Inv(s, lo, hi) && Allowed(s, op)
    ensures Inv(Step(s, op), lo, hi)
  {
    match op
    case AllocOp(k) =>
      if Alloc(s.ls, k).Some? {
        AllocSound(s.ls, k, s.used, lo, hi);
        AllocCoalesced(s.ls, k);
      }
    case FreeOp(b) =>
      assert s.used == (s.used - {b}) + {b};
      assert b in FreeSet(s.ls) + s.used;
      FreeSound(s.ls, b.addr, b.order, s.used - {b}, lo, hi);
      FreeCoalesced(s.ls, b.addr, b.order);
  }

  lemma {:induction false} ExecInv(s: State, ops: seq<Op>, lo: nat, hi: nat)
    requires Inv(s, lo, hi) && Legal(s, ops)
    ensures Inv(Exec(s, ops), lo, hi)
    decreases ops
  {
    if ops != [] {
      StepInv(s, ops[0], lo, hi);
      ExecInv(Step(s, ops[0]), ops[1..], lo, hi);
    }
  }

  /**
   In every run the free blocks and the blocks in use tile the heap's whole pages, and no block below the top order
   is free together with its buddy. Page alignment of the heap is enough.
   */
  lemma ReachableInv(start: nat, pages: nat, s: State)
    requires start % PAGE == 0 && Reachable(start, pages, s)
    ensures Inv(s, start, start + pages * PAGE)
  {
    var ops :| Legal(Start(start, pages), ops) && Exec(Start(start, pages), ops) == s;
    InitSound(start, pages);
    InitCoalesced(start, pages);
    ExecInv(Start(start, pages), ops, start, start + pages * PAGE);
  }

  // ----- Conservation of bytes -----

  /** The bytes in the lists of orders below `n`. */
  function FreeBytes(ls: Lists, n: nat := MAX_ORDER + 1): nat
    requires n <= MAX_ORDER + 1
  {
    if n == 0 then 0 else FreeBytes(ls, n - 1) + |ls[n - 1]| * Size(n - 1)
  }

  lemma {:induction false} FreeBytesUpdate(ls: Lists, k: nat, s: seq<nat>, n: nat)
    requires k <= MAX_ORDER && n <= MAX_ORDER + 1
    ensures k < n ==> FreeBytes(ls[k := s], n) + |ls[k]| * Size(k) == FreeBytes(ls, n) + |s| * Size(k)
    ensures n <= k ==> FreeBytes(ls[k := s], n) == FreeBytes(ls, n)
  {
    if n > 0 {
      FreeBytesUpdate(ls, k, s, n - 1);
    }
  }

  lemma Times(n: nat, d: nat)
    ensures (n + 1) * d == n * d + d
  {
  }

  lemma PushBytes(ls: Lists, a: nat, k: nat)
    requires k <= MAX_ORDER
    ensures FreeBytes(Push(ls, a, k)) == FreeBytes(ls) + Size(k)
  {
    FreeBytesUpdate(ls, k, [a] + ls[k], MAX_ORDER + 1);
    Times(|ls[k]|, Size(k));
  }

  lemma PopBytes(ls: Lists, k: nat)
    requires k <= MAX_ORDER && ls[k] != []
    ensures FreeBytes(Pop(ls, k)) + Size(k) == FreeBytes(ls)
  {
    FreeBytesUpdate(ls, k, ls[k][1..], MAX_ORDER + 1);
    Times(|ls[k]| - 1, Size(k));
  }

  lemma {:induction false} WithoutLength(s: seq<nat>, x: nat)
    requires x in s
    ensures |Without(s, x)| == |s| - 1
  {
    if s[0] != x {
      WithoutLength(s[1..], x);
    }
  }

  lemma {:induction false} SplitBytes(ls: Lists, c: nat, k: nat)
    requires k <= c <= MAX_ORDER && ls[c] != []
    ensures FreeBytes(Split(ls, c, k)) == FreeBytes(ls)
    decreases c
  {
    if k < c {
      var b := Block(ls[c][0], c);
      SplitOnceSteps(ls, c);
      PopBytes(ls, c);
      PushBytes(Pop(ls, c), Right(b).addr, c - 1);
      PushBytes(Push(Pop(ls, c), Right(b).addr, c - 1), b.addr, c - 1);
      SplitBytes(SplitOnce(ls, c), c - 1, k);
    }
  }

  /** An allocation takes exactly the bytes of its order out of the lists. */
  lemma AllocBytes(ls: Lists, k: nat)
    requires Alloc(ls, k).Some?
    ensures FreeBytes(Alloc(ls, k).value.1) + Size(k) == FreeBytes(ls)
  {
    var c := FirstFit(ls, k);
    SplitBytes(ls, c, k);
    PopBytes(Split(ls, c, k), k);
  }

  /** A free puts exactly the bytes of its order back. */
  lemma {:induction false} FreeingBytes(ls: Lists, a: nat, k: nat)
    requires k <= MAX_ORDER
    ensures FreeBytes(Free(ls, a, k)) == FreeBytes(ls) + Size(k)
    decreases MAX_ORDER - k
  {
    if k < MAX_ORDER && BuddyAddr(a, k) in ls[k] {
      var s := Without(ls[k], BuddyAddr(a, k));
      WithoutLength(ls[k], BuddyAddr(a, k));
      FreeBytesUpdate(ls, k, s, MAX_ORDER + 1);
      Times(|s|, Size(k));
      FreeingBytes(ls[k := s], Min(a, BuddyAddr(a, k)), k + 1);
    } else {
      PushBytes(ls, a, k);
    }
  }

  lemma {:induction false} GreedyBytes(ls: Lists, addr: nat, pages: nat, k: nat)
    requires k <= MAX_ORDER
    ensures FreeBytes(Greedy(ls, addr, pages, k)) == FreeBytes(ls) + pages * PAGE
    decreases k, pages
  {
    if pages >= Pow2(k) {
      PushBytes(ls, addr, k);
      SizeIsPages(k);
      GreedyBytes(Push(ls, addr, k), addr + Size(k), pages - Pow2(k), k);
    } else if k > 0 {
      GreedyBytes(ls, addr, pages, k - 1);
    }
  }

  /** The bytes of a set of blocks. */
  ghost function UsedBytes(u: set<Block>): nat {
    if u == {} then 0 else
      var b :| b in u;
      Size(b.order) + UsedBytes(u - {b})
  }

  lemma {:induction false} UsedBytesRemove(u: set<Block>, b: Block)
    requires b in u
    ensures UsedBytes(u) == Size(b.order) + UsedBytes(u - {b})
    decreases |u|
  {
    var c :| c in u && UsedBytes(u) == Size(c.order) + UsedBytes(u - {c});
    if b != c {
      UsedBytesRemove(u - {c}, b);
      UsedBytesRemove(u - {b}, c);
      assert u - {c} - {b} == u - {b} - {c};
    }
  }

  lemma StepBytes(s: State, op: Op, lo: nat, hi: nat)
    requires Inv(s, lo, hi) && Allowed(s, op)
    ensures FreeBytes(Step(s, op).ls) + UsedBytes(Step(s, op).used) == FreeBytes(s.ls) + UsedBytes(s.used)
  {
    match op
    case AllocOp(k) =>
      if Alloc(s.ls, k).Some? {
        AllocBytes(s.ls, k);
        AllocSound(s.ls, k, s.used, lo, hi);
        var b := Block(Alloc(s.ls, k).value.0, k);
        UsedBytesRemove(s.used + {b}, b);
        assert s.used + {b} - {b} == s.used;
      }
    case FreeOp(b) =>
      assert b in FreeSet(s.ls) + s.used;
      FreeingBytes(s.ls, b.addr, b.order);
      UsedBytesRemove(s.used, b);
  }

  lemma {:induction false} ExecBytes(s: State, ops: seq<Op>, lo: nat, hi: nat)
    requires Inv(s, lo, hi) && Legal(s, ops)
    ensures FreeBytes(Exec(s, ops).ls) + UsedBytes(Exec(s, ops).used) == FreeBytes(s.ls) + UsedBytes(s.used)
    decreases ops
  {
    if ops != [] {
      StepBytes(s, ops[0], lo, hi);
      StepInv(s, ops[0], lo, hi);
      ExecBytes(Step(s, ops[0]), ops[1..], lo, hi);
    }
  }

  /** Conservation: in every run the free and the used bytes add up to the heap's whole pages. */
  lemma Conservation(start: nat, pages: nat, s: State)
    requires start % PAGE == 0 && Reachable(start, pages, s)
    ensures FreeBytes(s.ls) + UsedBytes(s.used) == pages * PAGE
  {
    var ops :| Legal(Start(start, pages), ops) && Exec(Start(start, pages), ops) == s;
    InitSound(start, pages);
    InitCoalesced(start, pages);
    ExecBytes(Start(start, pages), ops, start, start + pages * PAGE);
    GreedyBytes(EMPTY, start, pages, MAX_ORDER);
    assert UsedBytes({}) == 0;
    EmptyBytes(MAX_ORDER + 1);
  }

  lemma {:induction false} EmptyBytes(n: nat)
    requires n <= MAX_ORDER + 1
    ensures FreeBytes(EMPTY, n) == 0
  {
    if n > 0 {
      EmptyBytes(n - 1);
    }
  }

  /** A single page can be had exactly when any byte is free. */
  lemma {:induction false} PageAvailable(ls: Lists, n: nat)
    requires n <= MAX_ORDER + 1
    ensures FreeBytes(ls, n) > 0 <==> exists k :: 0 <= k < n && ls[k] != []
  {
    if n > 0 {
      PageAvailable(ls, n - 1);
      ProductPositive(|ls[n - 1]|, Size(n - 1));
    }
  }

  lemma ProductPositive(n: nat, d: nat)
    requires d > 0
    ensures n * d > 0 <==> n > 0
  {
  }

  lemma AllocPage(ls: Lists)
    ensures Alloc(ls, 0).Some? <==> FreeBytes(ls) > 0
  {
    PageAvailable(ls, MAX_ORDER + 1);
  }

  // ----- Alignment in every run -----

  ghost predicate AlignedState(s: State) {
    Aligned(s.ls) && forall b :: b in s.used ==> b.addr % Size(b.order) == 0
  }

  lemma StepAligned(s: State, op: Op, lo: nat, hi: nat)
    requires Inv(s, lo, hi) && AlignedState(s) && Allowed(s, op)
    ensures AlignedState(Step(s, op))
  {
    match op
    case AllocOp(k) =>
      if Alloc(s.ls, k).Some? {
        AllocAligned(s.ls, k);
      }
    case FreeOp(b) =>
      assert b in FreeSet(s.ls) + s.used;
      FreeAligned(s.ls, b.addr, b.order);
  }

  lemma {:induction false} ExecAligned(s: State, ops: seq<Op>, lo: nat, hi: nat)
    requires Inv(s, lo, hi) && AlignedState(s) && Legal(s, ops)
    ensures AlignedState(Exec(s, ops))
    decreases ops
  {
    if ops != [] {
      StepAligned(s, ops[0], lo, hi);
      StepInv(s, ops[0], lo, hi);
      ExecAligned(Step(s, ops[0]), ops[1..], lo, hi);
    }
  }

  /** The heap starts aligned to its own largest initial block. A 4 MiB aligned heap always does. */
  predicate HeapAligned(start: nat, pages: nat) {
    start % Size(TopOrder(pages)) == 0
  }

  lemma FourMegAligned(start: nat, pages: nat)
    requires start % (4096 * 1024) == 0
    ensures HeapAligned(start, pages) && start % PAGE == 0
  {
    assert Size(MAX_ORDER) == 4096 * 1024;
    AlignedBelow(start, TopOrder(pages), MAX_ORDER);
    AlignedBelow(start, 0, MAX_ORDER);
  }

  lemma ReachableCanonical(start: nat, pages: nat, s: State)
    requires start % PAGE == 0 && HeapAligned(start, pages) && Reachable(start, pages, s)
    ensures Canonical(s.ls)
  {
    var ops :| Legal(Start(start, pages), ops) && Exec(Start(start, pages), ops) == s;
    ReachableInv(start, pages, s);
    InitSound(start, pages);
    InitCoalesced(start, pages);
    InitAligned(start, pages);
    ExecAligned(Start(start, pages), ops, start, start + pages * PAGE);
    assert forall b :: b in FreeSet(s.ls) ==> b in FreeSet(s.ls) + s.used;
  }
}
