/** `map_page` and `vaddr_to_paddr` on page tables that live in the kernel heap. */
module Paging {
  import opened Arithmetic
  import opened Bits
  import opened Buddy
  import opened BuddyRuns
  import opened Heaps
  import opened Memories
  import opened PageEntries
  import opened PageTrees
  import opened Wrappers

  // ----- From bytes to entries -----

  lemma EntrySame(m: Memory, m1: Memory, f: nat, i: nat)
    requires SameIn(m, m1, Block(f, 0)) && i < 512
    ensures Entry(m1, f, i) == Entry(m, f, i)
  {
    NumberSame(m, m1, f + 8 * i, 8);
  }

  ghost predicate InUse(used: set<Block>, frames: Frames) {
    forall f :: f in frames ==> Block(f, 0) in used
  }

  lemma KeptEntries(m: Memory, m1: Memory, used: set<Block>, frames: Frames)
    requires KeepsUsed(m, m1, used) && InUse(used, frames)
    ensures EntriesStay(m, m1, frames)
  {
    forall g: nat, j: nat | g in frames && j < 512
      ensures Entry(m1, g, j) == Entry(m, g, j)
    {
      assert SameIn(m, m1, Block(g, 0));
      EntrySame(m, m1, g, j);
    }
  }

  lemma StoredEntry(m: Memory, m1: Memory, used: set<Block>, frames: Frames, f: nat, i: nat, e: nat)
    requires InUse(used, frames) && f in frames && i < 512
    requires Stored(m, m1, f + 8 * i, e) && KeepsUsed(m, m1, used - {Block(f, 0)})
    ensures Updated(m, m1, frames, f, i, e)
  {
    forall g: nat, j: nat | g in frames && j < 512 && !(g == f && j == i)
      ensures Entry(m1, g, j) == Entry(m, g, j)
    {
      if g == f {
        WordOutside(m, m1, f + 8 * i, 8, f + 8 * j);
      } else {
        assert Block(g, 0) in used - {Block(f, 0)};
        EntrySame(m, m1, g, j);
      }
    }
  }

  lemma ZeroEntries(m: Memory, t: nat)
    requires forall x: int :: t <= x < t + PAGE ==> m.At(x) == 0
    ensures ZeroTable(m, t)
  {
    forall j: nat | j < 512
      ensures Entry(m, t, j) == 0
    {
      NumberZero(m, t + 8 * j, 8);
    }
  }

  lemma StillZero(m: Memory, m1: Memory, t: nat)
    requires ZeroTable(m, t) && SameIn(m, m1, Block(t, 0))
    ensures ZeroTable(m1, t)
  {
    forall j: nat | j < 512
      ensures Entry(m1, t, j) == 0
    {
      EntrySame(m, m1, t, j);
      assert Entry(m, t, j) == 0;
    }
  }

  /** What `map_page` panics on. */
  predicate BadMapping(vaddr: nat, paddr: nat, flags: nat) {
    vaddr % PAGE != 0 || paddr % PAGE != 0 || And(flags, 0xE) == 0
  }

  /** A block in use that is not a page table. */
  predicate IsPlain(frames: Frames, b: Block) {
    !(b.order == 0 && b.addr in frames && !frames[b.addr].User?)
  }

  /** No block in use other than page tables changes. */
  ghost predicate KeepsPlain(m: Memory, m1: Memory, used: set<Block>, frames: Frames) {
    KeepsUsed(m, m1, set b | b in used && IsPlain(frames, b))
  }

  ghost predicate SameMissing(m: Memory, m1: Memory, frames: Frames) {
    forall r, w: nat {:trigger Missing(m1, r, w)} :: IsRoot(frames, r) && w < VPNS ==>
        Missing(m1, r, w) == Missing(m, r, w)
  }

  /** The page at `f` holds `src` and zeros after it. */
  ghost predicate FilledPage(m: Memory, f: nat, src: seq<Byte>) {
    forall x: int :: f <= x < f + PAGE ==> m.At(x) == if x - f < |src| then src[x - f] else 0
  }

  ghost predicate Extends(frames: Frames, frames1: Frames) {
    forall f :: f in frames ==> f in frames1 && frames1[f] == frames[f]
  }

  /** What page tables are made of at one moment. */
  datatype Space = Space(m: Memory, used: set<Block>, frames: Frames, room: nat)

  /** From `s` to `t`, `n` pages came off the free lists for new frames; nothing else in use but page tables changed. */
  ghost predicate Grew(s: Space, t: Space, n: nat) {
    && Extends(s.frames, t.frames) && s.used <= t.used && t.room + PAGE * n == s.room
    && KeepsPlain(s.m, t.m, s.used, s.frames)
    && forall f :: f in t.frames && f !in s.frames ==> Block(f, 0) !in s.used
  }

  /** What building the address space under `root` leaves of everything that was there before. */
  ghost predicate Kept(s: Space, t: Space, root: nat) {
    && (exists n :: Grew(s, t, n))
    && forall r, v: nat {:trigger Walk(t.m, r, v)} :: IsRoot(s.frames, r) && r != root && v < VPNS ==>
        Walk(t.m, r, v) == Walk(s.m, r, v)
  }

  lemma KeptTrans(s: Space, t: Space, u: Space, root: nat)
    requires Kept(s, t, root) && Kept(t, u, root)
    ensures Kept(s, u, root)
  {
    var n :| Grew(s, t, n);
    var k :| Grew(t, u, k);
    GrewTrans(s, t, u, n, k);
    forall r, v: nat | IsRoot(s.frames, r) && r != root && v < VPNS
      ensures Walk(u.m, r, v) == Walk(s.m, r, v)
    {
      assert IsRoot(t.frames, r);
      assert Walk(u.m, r, v) == Walk(t.m, r, v);
    }
  }

  lemma GrewTrans(s: Space, t: Space, u: Space, n: nat, k: nat)
    requires Grew(s, t, n) && Grew(t, u, k)
    ensures Grew(s, u, n + k)
  {
    forall b | b in s.used && IsPlain(s.frames, b)
      ensures SameIn(s.m, u.m, b)
    {
      assert SameIn(s.m, t.m, b);
      assert IsPlain(t.frames, b);
      assert SameIn(t.m, u.m, b);
    }
  }

  lemma WalksTrans(s: Space, t: Space, u: Space)
    requires WalksStay(s.m, t.m, s.frames) && WalksStay(t.m, u.m, t.frames) && Extends(s.frames, t.frames)
    ensures WalksStay(s.m, u.m, s.frames)
  {
    forall r, v: nat | IsRoot(s.frames, r) && v < VPNS
      ensures Walk(u.m, r, v) == Walk(s.m, r, v)
    {
      assert IsRoot(t.frames, r);
      assert Walk(u.m, r, v) == Walk(t.m, r, v);
      assert Walk(t.m, r, v) == Walk(s.m, r, v);
    }
  }

  lemma MapsTrans(s: Space, t: Space, m: Memory, root: nat, vpn: nat, pte: nat)
    requires WalksStay(s.m, t.m, s.frames) && MapsOne(t.m, m, t.frames, root, vpn, pte) && Extends(s.frames, t.frames)
    ensures MapsOne(s.m, m, s.frames, root, vpn, pte)
  {
    forall r, v: nat | IsRoot(s.frames, r) && v < VPNS
      ensures Walk(m, r, v) == if r == root && v == vpn then Some(pte) else Walk(s.m, r, v)
    {
      assert IsRoot(t.frames, r);
      assert Walk(t.m, r, v) == Walk(s.m, r, v);
    }
  }

  // ----- The tables of all processes -----

  class PageTables {
    const heap: Heap
    ghost var frames: Frames

    ghost predicate Valid()
      reads this, heap, heap.ram, heap.heads
    {
      && heap.Valid() && heap.hi <= 0x4000_0000_0000
      && TreeOk(heap.Mem(), frames)
      && InUse(heap.used, frames)
    }

    /** The bytes on the free lists. */
    ghost function Room(): nat
      reads heap
    {
      FreeBytes(heap.ls)
    }

    ghost function Now(): Space
      reads this, heap, heap.ram
    {
      Space(heap.Mem(), heap.used, frames, Room())
    }

    constructor (h: Heap)
      requires h.Valid() && h.hi <= 0x4000_0000_0000
      ensures Valid() && heap == h && frames == map[]
    {
      heap, frames := h, map[];
    }

    /** `kalloc(1)`: a zeroed frame that no address space uses. */
    method NewFrame() returns (t: nat)
      requires Valid() && Room() > 0
      modifies heap`ls, heap`used, heap.ram, heap.heads
      ensures Valid() && Room() + PAGE == old(Room())
      ensures heap.used == old(heap.used) + {Block(t, 0)} && Block(t, 0) !in old(heap.used)
      ensures t !in frames && Encodable(t) && heap.lo <= t && t + PAGE <= heap.hi
      ensures forall x: int :: t <= x < t + PAGE ==> heap.Mem().At(x) == 0
      ensures KeepsUsed(old(heap.Mem()), heap.Mem(), old(heap.used))
      ensures EntriesStay(old(heap.Mem()), heap.Mem(), frames)
    {
      ghost var m, l := heap.Mem(), heap.ls;
      OnePage(l);
      t := heap.Kalloc(1);
      AllocBytes(l, 0);
      heap.BlockInside(Block(t, 0));
      KeptEntries(m, heap.Mem(), old(heap.used), frames);
      StayTree(m, heap.Mem(), frames);
    }

    lemma OnePage(l: Lists)
      ensures LeastOrder(1) == 0
      ensures FreeBytes(l) > 0 ==> Alloc(l, LeastOrder(1)).Some?
    {
      AllocPage(l);
    }

    method ReadEntry(f: nat, i: nat) returns (pte: nat)
      requires Valid() && f in frames && i < 512
      ensures pte == Entry(heap.Mem(), f, i)
    {
      pte := heap.Load(f + 8 * i, Block(f, 0));
    }

    method WriteEntry(f: nat, i: nat, pte: nat)
      requires heap.Valid() && InUse(heap.used, frames) && f in frames && i < 512 && pte < TWO64
      modifies heap.ram
      ensures heap.Valid() && Updated(old(heap.Mem()), heap.Mem(), frames, f, i, pte)
      ensures KeepsUsed(old(heap.Mem()), heap.Mem(), heap.used - {Block(f, 0)})
    {
      ghost var m := heap.Mem();
      heap.Store(f + 8 * i, pte, Block(f, 0));
      StoredEntry(m, heap.Mem(), heap.used, frames, f, i, pte);
    }

    /** A table that may get a new table of role `role` behind its entry `i`. */
    ghost predicate Parent(f: nat, i: nat, role: Role)
      reads this
    {
      && f in frames && i < 512
      && ((frames[f].Root? && role == Mid(f, i)) || (frames[f].Mid? && role == Low(frames[f].root, frames[f].i, i)))
    }

    /** The two lines of `map_page` that make a missing table: allocate a page, and store a pointer entry to it. */
    method Install(f: nat, i: nat, ghost role: Role) returns (ghost t: nat)
      requires Valid() && Parent(f, i, role) && !IsValid(Entry(heap.Mem(), f, i)) && Room() > 0
      modifies this, heap`ls, heap`used, heap.ram, heap.heads
      ensures Valid() && Points(heap.Mem(), frames, f, i, role) && IsValid(Entry(heap.Mem(), f, i))
      ensures t == NextTable(Entry(heap.Mem(), f, i)) && ZeroTable(heap.Mem(), t)
      ensures WalksStay(old(heap.Mem()), heap.Mem(), old(frames))
      ensures Grew(old(Now()), Now(), 1)
      ensures role.Mid? ==> MidAdded(old(heap.Mem()), heap.Mem(), f, i)
      ensures role.Low? ==> LowAdded(old(heap.Mem()), heap.Mem(), role.root, role.i * 512 + i)
    {
      ghost var s := Now();
      var table := NewFrame();
      t := table;
      ghost var s1 := Now();
      ZeroEntries(s1.m, t);
      PointerRoundTrip(table);
      WriteEntry(f, i, PointerPte(table));
      InstallProof(s, s1, heap.Mem(), f, i, t, role);
      frames := frames[t := role];
    }

    /** Allocating a zeroed frame and storing a pointer to it adds one table and changes no walk. */
    lemma InstallProof(s: Space, s1: Space, m2: Memory, f: nat, i: nat, t: nat, role: Role)
      requires s.frames == frames == s1.frames && s1.room + PAGE == s.room
      requires s1.used == s.used + {Block(t, 0)} && Block(t, 0) !in s.used && t !in frames && Encodable(t)
      requires TreeOk(s.m, frames) && InUse(s.used, frames) && Parent(f, i, role) && !IsValid(Entry(s.m, f, i))
      requires KeepsUsed(s.m, s1.m, s.used) && EntriesStay(s.m, s1.m, frames) && ZeroTable(s1.m, t)
      requires Updated(s1.m, m2, frames, f, i, PointerPte(t)) && KeepsUsed(s1.m, m2, s1.used - {Block(f, 0)})
      ensures var frames1 := frames[t := role];
        && TreeOk(m2, frames1) && InUse(s1.used, frames1)
        && Points(m2, frames1, f, i, role) && IsValid(Entry(m2, f, i))
        && t == NextTable(Entry(m2, f, i)) && ZeroTable(m2, t)
        && WalksStay(s.m, m2, frames)
        && (role.Mid? ==> MidAdded(s.m, m2, f, i))
        && (role.Low? ==> LowAdded(s.m, m2, role.root, role.i * 512 + i))
        && Grew(s, Space(m2, s1.used, frames1, s1.room), 1)
    {
      var frames1 := frames[t := role];
      InstallEntries(s.m, s1.m, m2, s1.used, f, i, t);
      InstallTree(s.m, m2, f, i, t, role);
      InstallPlain(s.m, s1.m, m2, s.used, s1.used, f);
      PointsNew(m2, frames1, f, i, t, role);
    }

    lemma InstallEntries(m: Memory, m1: Memory, m2: Memory, w: set<Block>, f: nat, i: nat, t: nat)
      requires InUse(w, frames) && f in frames && i < 512 && t !in frames && Block(t, 0) in w
      requires EntriesStay(m, m1, frames) && ZeroTable(m1, t)
      requires Updated(m1, m2, frames, f, i, PointerPte(t)) && KeepsUsed(m1, m2, w - {Block(f, 0)})
      ensures Updated(m, m2, frames, f, i, PointerPte(t)) && ZeroTable(m2, t)
    {
      assert Block(t, 0) in w - {Block(f, 0)};
      StillZero(m1, m2, t);
    }

    lemma InstallTree(m: Memory, m2: Memory, f: nat, i: nat, t: nat, role: Role)
      requires TreeOk(m, frames) && Parent(f, i, role) && !IsValid(Entry(m, f, i)) && t !in frames && Encodable(t)
      requires Updated(m, m2, frames, f, i, PointerPte(t)) && ZeroTable(m2, t)
      ensures TreeOk(m2, frames[t := role]) && WalksStay(m, m2, frames)
      ensures role.Mid? ==> MidAdded(m, m2, f, i)
      ensures role.Low? ==> LowAdded(m, m2, role.root, role.i * 512 + i)
    {
      if frames[f].Root? {
        LinkMid(m, m2, frames, f, i, t);
        LinkMidMissing(m, m2, frames, f, i, t);
      } else {
        LinkLow(m, m2, frames, frames[f].root, frames[f].i, f, i, t);
        LinkLowMissing(m, m2, frames, frames[f].root, frames[f].i, f, i, t);
      }
      forall r, v: nat | IsRoot(frames, r) && v < VPNS
        ensures Walk(m2, r, v) == Walk(m, r, v)
      {
        if frames[f].Root? {
          LinkMidWalk(m, m2, frames, f, i, t, r, v);
        } else {
          LinkLowWalk(m, m2, frames, frames[f].root, frames[f].i, f, i, t, r, v);
        }
      }
    }

    lemma InstallPlain(m: Memory, m1: Memory, m2: Memory, u: set<Block>, w: set<Block>, f: nat)
      requires KeepsUsed(m, m1, u) && KeepsUsed(m1, m2, w - {Block(f, 0)}) && u <= w
      requires f in frames && !frames[f].User?
      ensures KeepsPlain(m, m2, u, frames)
    {
      forall b | b in u && IsPlain(frames, b)
        ensures SameIn(m, m2, b)
      {
        assert SameIn(m, m1, b);
        assert b in w - {Block(f, 0)};
        assert SameIn(m1, m2, b);
      }
    }

    /** The table behind entry `i` of table `f`, made first if the entry is invalid. */
    method TableBehind(f: nat, i: nat, ghost role: Role) returns (table: nat)
      requires Valid() && Parent(f, i, role) && (IsValid(Entry(heap.Mem(), f, i)) || Room() > 0)
      modifies this, heap`ls, heap`used, heap.ram, heap.heads
      ensures Valid() && Points(heap.Mem(), frames, f, i, role) && table == NextTable(Entry(heap.Mem(), f, i))
      ensures WalksStay(old(heap.Mem()), heap.Mem(), old(frames))
      ensures IsValid(old(Entry(heap.Mem(), f, i))) ==> Now() == old(Now())
      ensures !IsValid(old(Entry(heap.Mem(), f, i))) ==> Grew(old(Now()), Now(), 1) && ZeroTable(heap.Mem(), table)
      ensures role.Mid? ==> MidAdded(old(heap.Mem()), heap.Mem(), f, i)
      ensures role.Low? ==> LowAdded(old(heap.Mem()), heap.Mem(), role.root, role.i * 512 + i)
    {
      var pte := ReadEntry(f, i);
      assert FrameOk(heap.Mem(), frames, f);
      if !IsValid(pte) {
        ghost var t := Install(f, i, role);
      } else {
        AlreadyThere(heap.Mem(), f, i, role);
      }
      pte := ReadEntry(f, i);
      table := NextTable(pte);
    }

    lemma AlreadyThere(m: Memory, f: nat, i: nat, role: Role)
      requires TreeOk(m, frames) && Parent(f, i, role) && IsValid(Entry(m, f, i))
      ensures role.Mid? ==> MidAdded(m, m, f, i)
      ensures role.Low? ==> LowAdded(m, m, role.root, role.i * 512 + i)
    {
      if role.Mid? {
        MidPresent(m, f, i);
      } else {
        LowPresent(m, frames, f, i);
      }
    }

    /** Writes a valid leaf entry into a low table. */
    method SetEntry(f: nat, k: nat, pte: nat, ghost vpn: nat)
      requires Valid() && f in frames && frames[f].Low? && k < 512 && IsValid(pte) && pte < TWO64
      requires vpn == VpnOf(frames[f].i, frames[f].j, k)
      modifies heap.ram
      ensures Valid() && Grew(old(Now()), Now(), 0) && frames == old(frames)
      ensures MapsOne(old(heap.Mem()), heap.Mem(), frames, frames[f].root, vpn, pte)
      ensures SameMissing(old(heap.Mem()), heap.Mem(), frames)
    {
      ghost var m := heap.Mem();
      WriteEntry(f, k, pte);
      ghost var m1 := heap.Mem();
      SetLeaf(m, m1, frames, f, k, pte);
      forall r, v: nat | IsRoot(frames, r) && v < VPNS
        ensures Walk(m1, r, v) == if r == frames[f].root && v == vpn then Some(pte) else Walk(m, r, v)
        ensures Missing(m1, r, v) == Missing(m, r, v)
      {
        SetLeafWalk(m, m1, frames, f, k, pte, r, v);
        SetLeafMissing(m, m1, frames, f, k, pte, r, v);
      }
      forall b | b in heap.used && IsPlain(frames, b)
        ensures SameIn(m, m1, b)
      {
        assert b in heap.used - {Block(f, 0)};
      }
    }

    /** `map_page`: maps one page, making the tables on the way that are missing. Bad arguments panic. */
    method MapPage(root: nat, vaddr: nat, paddr: nat, flags: nat) returns (panicked: bool)
      requires Valid() && IsRoot(frames, root) && flags < 0x1_0000_0000
      requires !BadMapping(vaddr, paddr, flags) ==> Room() >= PAGE * Missing(heap.Mem(), root, Vpn(vaddr))
      modifies this, heap`ls, heap`used, heap.ram, heap.heads
      ensures Valid()
      ensures panicked <==> BadMapping(vaddr, paddr, flags)
      ensures panicked ==> Now() == old(Now()) && heap.Abs() == old(heap.Abs())
      ensures !panicked ==> MapsOne(old(heap.Mem()), heap.Mem(), old(frames), root, Vpn(vaddr), LeafPte(paddr, flags))
      ensures !panicked ==> Grew(old(Now()), Now(), Missing(old(heap.Mem()), root, Vpn(vaddr)))
      ensures !panicked ==> TablesAdded(old(heap.Mem()), heap.Mem(), root, Vpn(vaddr))
    {
      if vaddr % PAGE != 0 {
        return true;
      }
      if paddr % PAGE != 0 {
        return true;
      }
      if And(flags, 0xE) == 0 {
        return true;
      }
      panicked := false;
      ghost var s := Now();
      VpnParts(vaddr);
      VpnOfParts(Vpn(vaddr));
      LeafFits(paddr, flags);
      var table0 := LowestTable(root, vaddr);
      ghost var t := Now();
      SetEntry(table0, Vpn0(vaddr), LeafPte(paddr, flags), Vpn(vaddr));
      MapsTrans(s, t, heap.Mem(), root, Vpn(vaddr), LeafPte(paddr, flags));
      GrewTrans(s, t, Now(), Missing(s.m, root, Vpn(vaddr)), 0);
      AddedStays(s.m, t.m, heap.Mem(), root, Vpn(vaddr));
    }

    /** The first two levels of `map_page`: the level-0 table for the page, made on the way when it is missing. */
    method LowestTable(root: nat, vaddr: nat) returns (table0: nat)
      requires Valid() && IsRoot(frames, root)
      requires Room() >= PAGE * Missing(heap.Mem(), root, Vpn(vaddr))
      modifies this, heap`ls, heap`used, heap.ram, heap.heads
      ensures Valid() && table0 in frames && frames[table0] == Low(root, Vpn2(vaddr), Vpn1(vaddr))
      ensures WalksStay(old(heap.Mem()), heap.Mem(), old(frames))
      ensures Grew(old(Now()), Now(), Missing(old(heap.Mem()), root, Vpn(vaddr)))
      ensures TablesAdded(old(heap.Mem()), heap.Mem(), root, Vpn(vaddr))
    {
      ghost var s := Now();
      VpnParts(vaddr);
      var vpn2 := Vpn2(vaddr);
      var table1 := TableBehind(root, vpn2, Mid(root, vpn2));
      ghost var s1 := Now();
      var vpn1 := Vpn1(vaddr);
      MissingLow(s, s1, root, Vpn(vaddr), table1);
      table0 := TableBehind(table1, vpn1, Low(root, vpn2, vpn1));
      WalksTrans(s, s1, Now());
      MissingSum(s, s1, Now(), root, Vpn(vaddr), table1);
      PrefixParts(Vpn(vaddr), vpn2, vpn1);
      AddedTrans(s.m, s1.m, heap.Mem(), root, Vpn(vaddr));
    }

    /** Once the middle table is there, what is missing is the low table or nothing. */
    lemma MissingLow(s: Space, s1: Space, root: nat, vpn: nat, table1: nat)
      requires table1 == NextTable(Entry(s1.m, root, vpn / 0x4_0000)) && vpn < VPNS
      requires IsValid(Entry(s.m, root, vpn / 0x4_0000)) ==> s1 == s
      requires !IsValid(Entry(s.m, root, vpn / 0x4_0000)) ==> Grew(s, s1, 1) && ZeroTable(s1.m, table1)
      requires s.room >= PAGE * Missing(s.m, root, vpn)
      ensures IsValid(Entry(s1.m, table1, vpn / 512 % 512)) || s1.room > 0
    {
    }

    lemma MissingSum(s: Space, s1: Space, s2: Space, root: nat, vpn: nat, table1: nat)
      requires table1 == NextTable(Entry(s1.m, root, vpn / 0x4_0000)) && vpn < VPNS
      requires IsValid(Entry(s.m, root, vpn / 0x4_0000)) ==> s1 == s
      requires !IsValid(Entry(s.m, root, vpn / 0x4_0000)) ==> Grew(s, s1, 1) && ZeroTable(s1.m, table1)
      requires IsValid(Entry(s1.m, table1, vpn / 512 % 512)) ==> s2 == s1
      requires !IsValid(Entry(s1.m, table1, vpn / 512 % 512)) ==> Grew(s1, s2, 1)
      ensures Grew(s, s2, Missing(s.m, root, vpn))
    {
      ZeroInvalid();
      var n := if IsValid(Entry(s.m, root, vpn / 0x4_0000)) then 0 else 1;
      var k := if IsValid(Entry(s1.m, table1, vpn / 512 % 512)) then 0 else 1;
      GrewSame(s);
      GrewSame(s1);
      GrewTrans(s, s1, s2, n, k);
      if n == 1 {
        assert Entry(s1.m, table1, vpn / 512 % 512) == 0;
      }
    }

    lemma GrewSame(s: Space)
      ensures Grew(s, s, 0)
    {
    }

    /** A new page for user memory, filled with `src`; `kalloc` has zeroed the rest. */
    method NewUserPage(src: seq<Byte>, ghost root: nat, ghost vpn: nat) returns (page: nat)
      requires Valid() && Room() > 0 && |src| <= PAGE && IsRoot(frames, root)
      modifies this, heap`ls, heap`used, heap.ram, heap.heads
      ensures Valid() && Grew(old(Now()), Now(), 1) && EntriesStay(old(heap.Mem()), heap.Mem(), old(frames))
      ensures page !in old(frames) && frames == old(frames)[page := User(root, vpn)] && Encodable(page) && page > 0
      ensures FilledPage(heap.Mem(), page, src)
    {
      ghost var s := Now();
      page := NewFrame();
      ghost var s1 := Now();
      heap.Memcpy(page, src, Block(page, 0));
      FilledProof(s1.m, heap.Mem(), page, src);
      UserPageProof(s, s1, heap.Mem(), page);
      AddFrame(heap.Mem(), frames, page, User(root, vpn));
      frames := frames[page := User(root, vpn)];
    }

    lemma FilledProof(m: Memory, m1: Memory, page: nat, src: seq<Byte>)
      requires |src| <= PAGE && SameOutside(m, m1, page, |src|)
      requires forall x: int :: page <= x < page + PAGE ==> m.At(x) == 0
      requires forall i :: 0 <= i < |src| ==> m1.At(page + i) == src[i]
      ensures FilledPage(m1, page, src)
    {
      forall x: int | page <= x < page + PAGE
        ensures m1.At(x) == if x - page < |src| then src[x - page] else 0
      {
        if x - page < |src| {
          assert m1.At(page + (x - page)) == src[x - page];
        }
      }
    }

    lemma UserPageProof(s: Space, s1: Space, m2: Memory, page: nat)
      requires s.frames == frames == s1.frames && page !in frames && InUse(s.used, frames) && TreeOk(s.m, frames)
      requires s1.used == s.used + {Block(page, 0)} && Block(page, 0) !in s.used
      requires KeepsUsed(s.m, s1.m, s.used) && KeepsUsed(s1.m, m2, s1.used - {Block(page, 0)})
      ensures KeepsPlain(s.m, m2, s.used, frames) && TreeOk(m2, frames) && EntriesStay(s.m, m2, frames)
    {
      assert s1.used - {Block(page, 0)} == s.used;
      KeepsTrans(s.m, s1.m, m2, s.used);
      KeptEntries(s.m, m2, s.used, frames);
      StayTree(s.m, m2, frames);
    }

    /** A new, empty root table. */
    method NewRoot() returns (root: nat)
      requires Valid() && Room() > 0
      modifies this, heap`ls, heap`used, heap.ram, heap.heads
      ensures Valid() && Grew(old(Now()), Now(), 1) && EntriesStay(old(heap.Mem()), heap.Mem(), old(frames))
      ensures root !in old(frames) && frames == old(frames)[root := Root] && ZeroTable(heap.Mem(), root)
    {
      root := NewFrame();
      ZeroEntries(heap.Mem(), root);
      AddFrame(heap.Mem(), frames, root, Root);
      frames := frames[root := Root];
    }

    /** `vaddr_to_paddr`: the physical address of `vaddr`, or 0 (NULL) when it is not mapped. */
    method VaddrToPaddr(root: nat, vaddr: nat) returns (paddr: nat)
      requires Valid() && IsRoot(frames, root)
      ensures paddr == Translate(heap.Mem(), root, vaddr)
    {
      VpnParts(vaddr);
      WalkFrames(heap.Mem(), frames, root, Vpn(vaddr));
      var pte2 := ReadEntry(root, Vpn2(vaddr));
      if !IsValid(pte2) {
        return 0;
      }
      var table1 := NextTable(pte2);
      var pte1 := ReadEntry(table1, Vpn1(vaddr));
      if !IsValid(pte1) {
        return 0;
      }
      var table0 := NextTable(pte1);
      var pte0 := ReadEntry(table0, Vpn0(vaddr));
      if !IsValid(pte0) {
        return 0;
      }
      paddr := LeafAddr(pte0, vaddr);
    }
  }
}
