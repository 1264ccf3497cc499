/**
 The laws a buddy allocator is for, and the heap alignment each of them needs. `buddy_addr` works on absolute
 addresses, so all three hold in every run exactly when the heap starts aligned to its largest initial block.
 */
module BuddyLaws {
  import opened Arithmetic
  import opened Buddy
  import opened BuddyCanonical
  import opened BuddyInit
  import opened BuddyInvariants
  import opened BuddyRuns
  import opened Tiling

  // ----- Exact inversion -----

  /** Freeing what was just allocated puts every list back as it was, in the same order. */
  predicate Restores(ls: Lists, k: nat)
    requires Alloc(ls, k).Some?
  {
    var (b, r) := Alloc(ls, k).value;
    Free(r, b, k) == ls
  }

  /** Bits `j` up to `c` (in units of the block size) of the address are clear. */
  ghost predicate BitsClear(b: nat, j: nat, c: nat) {
    forall i :: j <= i < c ==> (b / Size(i)) % 2 == 0
  }

  /** The lists part way through undoing an allocation that split a block of order `c`: orders below `j` are merged. */
  ghost predicate Undoing(ls: Lists, r: Lists, b: nat, j: nat, k: nat, c: nat) {
    && k <= j <= c <= MAX_ORDER
    && ls[c] != [] && b == ls[c][0] && r[c] == ls[c][1..]
    && (forall i :: k <= i < c ==> ls[i] == [])
    && (forall i :: k <= i < j ==> r[i] == [])
    && (forall i :: j <= i < c ==> r[i] == [b + Size(i)])
    && (forall i :: 0 <= i <= MAX_ORDER && (i < k || c < i) ==> r[i] == ls[i])
  }

  lemma UndoTop(ls: Lists, r: Lists, b: nat, k: nat, c: nat)
    requires Undoing(ls, r, b, c, k, c) && Coalesced(ls)
    ensures Free(r, b, c) == ls
  {
    assert b in ls[c];
    assert [b] + ls[c][1..] == ls[c];
    assert Push(r, b, c) == ls;
  }

  lemma UndoStep(ls: Lists, r: Lists, b: nat, j: nat, k: nat, c: nat)
    requires Undoing(ls, r, b, j, k, c) && j < c
    ensures Undoing(ls, r[j := []], b, j + 1, k, c)
  {
  }

  lemma UndoMerge(r: Lists, b: nat, j: nat)
    requires j < MAX_ORDER && r[j] == [b + Size(j)] && (b / Size(j)) % 2 == 0
    ensures Free(r, b, j) == Free(r[j := []], b, j + 1)
  {
    BuddyIs(b, j);
    assert Without(r[j], b + Size(j)) == [];
  }

  /** When the bit of order `j` is set the buddy lies below, is not in the list, and the two halves stay apart. */
  lemma UndoStuck(ls: Lists, r: Lists, b: nat, j: nat, k: nat, c: nat)
    requires Undoing(ls, r, b, j, k, c) && j < c && (b / Size(j)) % 2 == 1
    ensures Free(r, b, j) == Push(r, b, j) && Free(r, b, j) != ls
  {
    BuddyIs(b, j);
    assert Push(r, b, j)[j] != ls[j];
  }

  lemma {:induction false} Undo(ls: Lists, r: Lists, b: nat, j: nat, k: nat, c: nat)
    requires Undoing(ls, r, b, j, k, c) && Coalesced(ls)
    ensures Free(r, b, j) == ls <==> BitsClear(b, j, c)
    decreases c - j
  {
    if j == c {
      UndoTop(ls, r, b, k, c);
    } else if (b / Size(j)) % 2 == 0 {
      UndoMerge(r, b, j);
      UndoStep(ls, r, b, j, k, c);
      Undo(ls, r[j := []], b, j + 1, k, c);
    } else {
      UndoStuck(ls, r, b, j, k, c);
    }
  }

  lemma AllocUndoing(ls: Lists, k: nat)
    requires Alloc(ls, k).Some?
    ensures var (b, r) := Alloc(ls, k).value; Undoing(ls, r, b, k, k, FirstFit(ls, k))
  {
    AllocShape(ls, k);
  }

  /**
   Whatever the heap's alignment: an allocation of order `k` that split a block of order `c` is undone exactly by the
   free that follows it if and only if the address handed out has the bits `k` to `c - 1` clear.
   */
  lemma Inversion(ls: Lists, k: nat)
    requires Coalesced(ls) && Alloc(ls, k).Some?
    ensures Restores(ls, k) <==> BitsClear(Alloc(ls, k).value.0, k, FirstFit(ls, k))
  {
    var (b, r) := Alloc(ls, k).value;
    AllocUndoing(ls, k);
    Undo(ls, r, b, k, k, FirstFit(ls, k));
  }

  lemma AlignedBitsClear(b: nat, k: nat, c: nat)
    requires b % Size(c) == 0
    ensures BitsClear(b, k, c)
  {
    forall i | k <= i < c
      ensures (b / Size(i)) % 2 == 0
    {
      AlignedBelow(b, i + 1, c);
      DoubleDivides(b, Size(i));
    }
  }

  // ----- The three laws -----

  ghost predicate InversionLaw(start: nat, pages: nat) {
    forall s, k: nat :: Reachable(start, pages, s) && Alloc(s.ls, k).Some? ==> Restores(s.ls, k)
  }

  ghost predicate SameUsedBytes(s: State, t: State) {
    forall x :: Covered(s.used, x) <==> Covered(t.used, x)
  }

  /** The free blocks depend on which bytes are in use, not on the run that led there. */
  ghost predicate HistoryLaw(start: nat, pages: nat) {
    forall s, t :: Reachable(start, pages, s) && Reachable(start, pages, t) && SameUsedBytes(s, t)
      ==> FreeSet(s.ls) == FreeSet(t.ls)
  }

  /** Allocation fails only when no aligned run of the size asked for is wholly free. */
  ghost predicate CompletenessLaw(start: nat, pages: nat) {
    forall s, k: nat :: Reachable(start, pages, s) && k <= MAX_ORDER ==>
        (Alloc(s.ls, k).None? <==> NoAlignedRun(s.ls, k))
  }

  lemma AlignedInversion(start: nat, pages: nat)
    requires start % PAGE == 0 && HeapAligned(start, pages)
    ensures InversionLaw(start, pages)
  {
    forall s, k: nat | Reachable(start, pages, s) && Alloc(s.ls, k).Some?
      ensures Restores(s.ls, k)
    {
      ReachableCanonical(start, pages, s);
      AllocHead(s.ls, k);
      AlignedBitsClear(Alloc(s.ls, k).value.0, k, FirstFit(s.ls, k));
      Inversion(s.ls, k);
    }
  }

  /** Inside the heap a byte is free exactly when it is not in use. */
  lemma FreeIsNotUsed(s: State, lo: nat, hi: nat, x: nat)
    requires Sound(s.ls, s.used, lo, hi)
    ensures Covered(FreeSet(s.ls), x) <==> lo <= x < hi && !Covered(s.used, x)
  {
    var u := FreeSet(s.ls) + s.used;
    if Covered(FreeSet(s.ls), x) {
      var b :| b in FreeSet(s.ls) && b.Has(x);
      assert b in u;
      forall c | c in s.used
        ensures !c.Has(x)
      {
        assert c in u && c != b;
      }
    }
    if lo <= x < hi {
      assert Covered(u, x);
    }
  }

  lemma SameUsedSameFree(start: nat, pages: nat, s: State, t: State)
    requires start % PAGE == 0 && HeapAligned(start, pages)
    requires Reachable(start, pages, s) && Reachable(start, pages, t) && SameUsedBytes(s, t)
    ensures FreeSet(s.ls) == FreeSet(t.ls)
  {
    var hi := start + pages * PAGE;
    ReachableInv(start, pages, s);
    ReachableInv(start, pages, t);
    ReachableCanonical(start, pages, s);
    ReachableCanonical(start, pages, t);
    forall x
      ensures Covered(FreeSet(s.ls), x) <==> Covered(FreeSet(t.ls), x)
    {
      if x >= 0 {
        FreeIsNotUsed(s, start, hi, x);
        FreeIsNotUsed(t, start, hi, x);
      }
    }
    SameBytesSameBlocks(s.ls, t.ls);
  }

  lemma AlignedCompleteness(start: nat, pages: nat)
    requires start % PAGE == 0 && HeapAligned(start, pages)
    ensures CompletenessLaw(start, pages)
  {
    forall s, k: nat | Reachable(start, pages, s) && k <= MAX_ORDER
      ensures Alloc(s.ls, k).None? <==> NoAlignedRun(s.ls, k)
    {
      ReachableCanonical(start, pages, s);
      AllocComplete(s.ls, k);
    }
  }

  // ----- A run that leaves only the first block of the heap free -----

  /** Allocating from list `j` until it holds its last `n` blocks. */
  lemma {:induction false} Drain(start: nat, pages: nat, s: State, j: nat, n: nat) returns (t: State)
    requires Reachable(start, pages, s) && j <= MAX_ORDER && n <= |s.ls[j]|
    ensures Reachable(start, pages, t)
    ensures t.ls == s.ls[j := s.ls[j][|s.ls[j]| - n..]]
    decreases |s.ls[j]|
  {
    if |s.ls[j]| == n {
      t := s;
    } else {
      assert FirstFit(s.ls, j) == j;
      ReachableStep(start, pages, s, AllocOp(j));
      var s1 := Step(s, AllocOp(j));
      assert s1.ls == Pop(s.ls, j);
      t := Drain(start, pages, s1, j, n);
    }
  }

  /** Allocating from every list below order `n` until it is empty. */
  lemma {:induction false} DrainBelow(start: nat, pages: nat, s: State, n: nat) returns (t: State)
    requires Reachable(start, pages, s) && n <= MAX_ORDER
    ensures Reachable(start, pages, t)
    ensures forall j :: 0 <= j < n ==> t.ls[j] == []
    ensures forall j :: n <= j <= MAX_ORDER ==> t.ls[j] == s.ls[j]
    decreases n
  {
    if n == 0 {
      t := s;
    } else {
      t := DrainBelow(start, pages, s, n - 1);
      t := Drain(start, pages, t, n - 1, 0);
    }
  }

  /** The largest initial order holds the heap's first block last, and no larger order holds anything. */
  lemma InitTop(start: nat, pages: nat)
    requires pages > 0
    ensures var m, s := TopOrder(pages), Init(start, pages);
      && s[m] != [] && s[m][|s[m]| - 1] == start
      && forall j :: m < j <= MAX_ORDER ==> s[j] == []
  {
    var m := TopOrder(pages);
    InitExact(start, pages);
    assert Pow2(MAX_ORDER) == 1024;
    if m < MAX_ORDER {
      Pow2Monotone(m + 1, MAX_ORDER);
      DivModUnique(pages, Pow2(m), 1, pages - Pow2(m));
      DivModUnique(pages, Pow2(m + 1), 0, pages);
      forall j | m < j < MAX_ORDER
        ensures Init(start, pages)[j] == []
      {
        Pow2Monotone(m + 1, j);
        DivModUnique(pages, Pow2(j), 0, pages);
      }
    }
  }

  lemma OnlyFirstBlock(start: nat, pages: nat) returns (t: State)
    requires pages > 0
    ensures Reachable(start, pages, t)
    ensures t.ls == EMPTY[TopOrder(pages) := [start]]
  {
    var m, s := TopOrder(pages), Start(start, pages);
    assert Legal(s, []) && Exec(s, []) == s;
    InitTop(start, pages);
    t := DrainBelow(start, pages, s, m);
    var last := t.ls[m][|t.ls[m]| - 1..];
    assert last == [start];
    t := Drain(start, pages, t, m, 1);
    assert t.ls == EMPTY[m := [start]];
  }

  // ----- The laws fail on every heap that is not aligned -----

  lemma {:induction false} LowestSetBit(a: nat, m: nat) returns (i: nat)
    requires a % PAGE == 0 && a % Size(m) != 0
    ensures i < m && a % Size(i) == 0 && (a / Size(i)) % 2 == 1
  {
    if a % Size(m - 1) == 0 {
      i := m - 1;
      DivDiv(a, Size(i), 2);
      assert Size(i) * 2 == Size(m);
    } else {
      i := LowestSetBit(a, m - 1);
    }
  }

  lemma {:induction false} OnlyBlockFits(start: nat, m: nat, i: nat)
    requires i <= m <= MAX_ORDER
    ensures FirstFit(EMPTY[m := [start]], i) == m
    decreases m - i
  {
    if i < m {
      OnlyBlockFits(start, m, i + 1);
    }
  }

  lemma OnlyBlockAlloc(start: nat, m: nat, i: nat)
    requires i <= m <= MAX_ORDER
    ensures var ls: Lists := EMPTY[m := [start]];
      FirstFit(ls, i) == m && Alloc(ls, i).Some? && Alloc(ls, i).value.0 == start
  {
    var ls: Lists := EMPTY[m := [start]];
    OnlyBlockFits(start, m, i);
    AllocHead(ls, i);
  }

  /**
   On an unaligned heap some reachable allocation is not undone by its free, and leaves a free block of its own order.
   */
  lemma Unaligned(start: nat, pages: nat) returns (t: State, i: nat)
    requires start % PAGE == 0 && !HeapAligned(start, pages)
    ensures Reachable(start, pages, t) && t.ls == EMPTY[TopOrder(pages) := [start]]
    ensures i < TopOrder(pages) && Alloc(t.ls, i).Some? && Alloc(t.ls, i).value.0 == start
    ensures !Restores(t.ls, i)
    ensures IsFree(Free(Alloc(t.ls, i).value.1, start, i), Block(start, i))
  {
    var m := TopOrder(pages);
    t := OnlyFirstBlock(start, pages);
    i := LowestSetBit(start, m);
    OnlyBlockAlloc(start, m, i);
    AllocUndoing(t.ls, i);
    UndoStuck(t.ls, Alloc(t.ls, i).value.1, start, i, i, m);
  }

  /** Exact inversion holds in every reachable state if and only if the heap is aligned to its largest initial block. */
  lemma InversionLawIff(start: nat, pages: nat)
    requires start % PAGE == 0
    ensures InversionLaw(start, pages) <==> HeapAligned(start, pages)
  {
    if HeapAligned(start, pages) {
      AlignedInversion(start, pages);
    } else {
      var t, i := Unaligned(start, pages);
    }
  }

  /** On an unaligned heap two runs with the same blocks in use leave different free blocks. */
  lemma HistoryMatters(start: nat, pages: nat) returns (s: State, t: State)
    requires start % PAGE == 0 && !HeapAligned(start, pages)
    ensures Reachable(start, pages, s) && Reachable(start, pages, t)
    ensures s.used == t.used && FreeSet(s.ls) != FreeSet(t.ls)
  {
    var i;
    s, i := Unaligned(start, pages);
    t := RoundTrip(start, pages, s, i);
    var b := Block(start, i);
    assert IsFree(t.ls, b) && !IsFree(s.ls, b);
  }

  /** History independence holds if and only if the heap is aligned to its largest initial block. */
  lemma HistoryLawIff(start: nat, pages: nat)
    requires start % PAGE == 0
    ensures HistoryLaw(start, pages) <==> HeapAligned(start, pages)
  {
    if HeapAligned(start, pages) {
      forall s, t | Reachable(start, pages, s) && Reachable(start, pages, t) && SameUsedBytes(s, t)
        ensures FreeSet(s.ls) == FreeSet(t.ls)
      {
        SameUsedSameFree(start, pages, s, t);
      }
    } else {
      var s, t := HistoryMatters(start, pages);
    }
  }

  /** Allocating and freeing again is a run that leaves the blocks in use as they were. */
  lemma RoundTrip(start: nat, pages: nat, s: State, k: nat) returns (t: State)
    requires start % PAGE == 0 && Reachable(start, pages, s) && Alloc(s.ls, k).Some?
    ensures Reachable(start, pages, t) && t.used == s.used
    ensures t.ls == Free(Alloc(s.ls, k).value.1, Alloc(s.ls, k).value.0, k)
  {
    var b := Block(Alloc(s.ls, k).value.0, k);
    ReachableInv(start, pages, s);
    AllocSound(s.ls, k, s.used, start, start + pages * PAGE);
    ReachableStep(start, pages, s, AllocOp(k));
    var s1 := Step(s, AllocOp(k));
    ReachableStep(start, pages, s1, FreeOp(b));
    t := Step(s1, FreeOp(b));
  }

  lemma OnlyRun(start: nat, m: nat, q: nat)
    requires m <= MAX_ORDER && FreeRun(EMPTY[m := [start]], q, Size(m))
    ensures q == start
  {
    var ls: Lists := EMPTY[m := [start]];
    assert Covered(FreeSet(ls), q) && Covered(FreeSet(ls), q + Size(m) - 1);
    assert forall b :: b in FreeSet(ls) ==> b == Block(start, m);
  }

  /** Allocation completeness holds if and only if the heap is aligned to its largest initial block. */
  lemma CompletenessLawIff(start: nat, pages: nat)
    requires start % PAGE == 0
    ensures CompletenessLaw(start, pages) <==> HeapAligned(start, pages)
  {
    if HeapAligned(start, pages) {
      AlignedCompleteness(start, pages);
    } else {
      var t, i := Unaligned(start, pages);
      var m := TopOrder(pages);
      OnlyBlockAlloc(start, m, m);
      forall q: nat | q % Size(m) == 0
        ensures !FreeRun(t.ls, q, Size(m))
      {
        if FreeRun(t.ls, q, Size(m)) {
          OnlyRun(start, m, q);
        }
      }
      assert NoAlignedRun(t.ls, m) && Alloc(t.ls, m).Some?;
    }
  }

  /** Freeing everything, in any order, brings back the blocks that initialisation built. */
  lemma FreeingEverything(start: nat, pages: nat, s: State)
    requires start % PAGE == 0 && HeapAligned(start, pages)
    requires Reachable(start, pages, s) && s.used == {}
    ensures FreeSet(s.ls) == FreeSet(Init(start, pages))
  {
    var t := Start(start, pages);
    assert Legal(t, []) && Exec(t, []) == t;
    SameUsedSameFree(start, pages, s, t);
  }
}
