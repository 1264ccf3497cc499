/**
 Three-level page tables in memory. Every frame that belongs to an address space has one role, so frames are never
 shared; the entries of the tables point exactly where the roles say.
 */
module PageTrees {
  import opened Buddy
  import opened Memories
  import opened PageEntries
  import opened Wrappers

  /** A root table; the table behind entry `i` of a root; the table behind entry `j` of that; a user page. */
  datatype Role = Root | Mid(root: nat, i: nat) | Low(root: nat, i: nat, j: nat) | User(root: nat, vpn: nat)

  type Frames = map<nat, Role>

  /** Entry `i` of the table at `t`. */
  function Entry(m: Memory, t: nat, i: nat): nat {
    m.Word(t + 8 * i)
  }

  const VPNS: nat := 0x800_0000

  /** The valid leaf entry a three-level walk for page `vpn` ends at. */
  function Walk(m: Memory, root: nat, vpn: nat): Option<nat> {
    var pte2 := Entry(m, root, vpn / 0x4_0000);
    if !IsValid(pte2) then None else
    var pte1 := Entry(m, NextTable(pte2), vpn / 512 % 512);
    if !IsValid(pte1) then None else
    var pte0 := Entry(m, NextTable(pte1), vpn % 512);
    if !IsValid(pte0) then None else Some(pte0)
  }

  /** What `vaddr_to_paddr` returns: 0 (NULL) when the walk fails. */
  function Translate(m: Memory, root: nat, va: nat): nat {
    match Walk(m, root, Vpn(va))
    case None => 0
    case Some(pte) => LeafAddr(pte, va)
  }

  // ----- The tree -----

  /** Entry `i` of table `f` is a pointer entry to the frame with role `role`. */
  ghost predicate Points(m: Memory, frames: Frames, f: nat, i: nat, role: Role) {
    var t := NextTable(Entry(m, f, i));
    t in frames && frames[t] == role && Entry(m, f, i) == PointerPte(t)
  }

  ghost predicate IsRoot(frames: Frames, r: nat) {
    r in frames && frames[r] == Root
  }

  ghost predicate RootOk(m: Memory, frames: Frames, f: nat) {
    forall i: nat :: i < 512 && IsValid(Entry(m, f, i)) ==> Points(m, frames, f, i, Mid(f, i))
  }

  ghost predicate MidOk(m: Memory, frames: Frames, f: nat, r: nat, i: nat) {
    && i < 512 && IsRoot(frames, r) && Entry(m, r, i) == PointerPte(f)
    && forall j: nat :: j < 512 && IsValid(Entry(m, f, j)) ==> Points(m, frames, f, j, Low(r, i, j))
  }

  ghost predicate LowOk(m: Memory, frames: Frames, f: nat, r: nat, i: nat, j: nat) {
    && i < 512 && j < 512 && IsRoot(frames, r)
    && Points(m, frames, r, i, Mid(r, i))
    && Entry(m, NextTable(Entry(m, r, i)), j) == PointerPte(f)
  }

  ghost predicate FrameOk(m: Memory, frames: Frames, f: nat)
    requires f in frames
  {
    match frames[f]
    case Root => RootOk(m, frames, f)
    case Mid(r, i) => MidOk(m, frames, f, r, i)
    case Low(r, i, j) => LowOk(m, frames, f, r, i, j)
    case User(r, v) => IsRoot(frames, r)
  }

  /** A frame whose address a pointer entry can hold. */
  predicate Encodable(f: nat) {
    f % PAGE == 0 && f < 0x4000_0000_0000
  }

  ghost predicate TreeOk(m: Memory, frames: Frames) {
    && (forall f :: f in frames ==> Encodable(f))
    && (forall f :: f in frames ==> FrameOk(m, frames, f))
  }

  // ----- One entry changes -----

  /** Entry `i` of frame `f` becomes `e`; every other entry of every frame stays. */
  ghost predicate Updated(m: Memory, m1: Memory, frames: Frames, f: nat, i: nat, e: nat) {
    && Entry(m1, f, i) == e
    && forall g: nat, j: nat {:trigger Entry(m1, g, j)} ::
         g in frames && j < 512 && !(g == f && j == i) ==> Entry(m1, g, j) == Entry(m, g, j)
  }

  ghost predicate ZeroTable(m: Memory, t: nat) {
    forall j: nat {:trigger Entry(m, t, j)} :: j < 512 ==> Entry(m, t, j) == 0
  }

  lemma ZeroInvalid()
    ensures !IsValid(0)
  {
    ValidIsOdd(0);
  }

  lemma PointsStays(m: Memory, m1: Memory, frames: Frames, frames1: Frames, f: nat, i: nat, role: Role)
    requires Points(m, frames, f, i, role) && Entry(m1, f, i) == Entry(m, f, i)
    requires forall g :: g in frames ==> g in frames1 && frames1[g] == frames[g]
    ensures Points(m1, frames1, f, i, role)
  {
  }

  lemma PointsNew(m1: Memory, frames1: Frames, f: nat, i: nat, t: nat, role: Role)
    requires Encodable(t) && t in frames1 && frames1[t] == role && Entry(m1, f, i) == PointerPte(t)
    ensures Points(m1, frames1, f, i, role) && NextTable(Entry(m1, f, i)) == t && IsValid(Entry(m1, f, i))
  {
    PointerRoundTrip(t);
  }

  // ----- A new middle table -----

  /** Frame `t` becomes the table behind entry `i` of root `r`, which was invalid. */
  ghost predicate LinksMid(m: Memory, m1: Memory, frames: Frames, r: nat, i: nat, t: nat) {
    && TreeOk(m, frames) && IsRoot(frames, r) && i < 512 && !IsValid(Entry(m, r, i))
    && t !in frames && Encodable(t)
    && Updated(m, m1, frames, r, i, PointerPte(t)) && ZeroTable(m1, t)
  }

  lemma LinkMidFrame(m: Memory, m1: Memory, frames: Frames, r: nat, i: nat, t: nat, f: nat)
    requires LinksMid(m, m1, frames, r, i, t) && f in frames
    ensures FrameOk(m1, frames[t := Mid(r, i)], f)
  {
    var frames1 := frames[t := Mid(r, i)];
    assert FrameOk(m, frames, f);
    match frames[f]
    case Root =>
      forall k: nat | k < 512 && IsValid(Entry(m1, f, k))
        ensures Points(m1, frames1, f, k, Mid(f, k))
      {
        if f == r && k == i {
          PointsNew(m1, frames1, f, k, t, Mid(r, i));
        } else {
          PointsStays(m, m1, frames, frames1, f, k, Mid(f, k));
        }
      }
    case Mid(r2, i2) =>
      PointerRoundTrip(f);
      forall j: nat | j < 512 && IsValid(Entry(m1, f, j))
        ensures Points(m1, frames1, f, j, Low(r2, i2, j))
      {
        PointsStays(m, m1, frames, frames1, f, j, Low(r2, i2, j));
      }
    case Low(r2, i2, j2) =>
      var g := NextTable(Entry(m, r2, i2));
      PointerRoundTrip(g);
      PointsStays(m, m1, frames, frames1, r2, i2, Mid(r2, i2));
    case User(_, _) =>
  }

  lemma LinkMid(m: Memory, m1: Memory, frames: Frames, r: nat, i: nat, t: nat)
    requires LinksMid(m, m1, frames, r, i, t)
    ensures TreeOk(m1, frames[t := Mid(r, i)])
  {
    var frames1 := frames[t := Mid(r, i)];
    forall f | f in frames1
      ensures FrameOk(m1, frames1, f)
    {
      if f == t {
        ZeroInvalid();
      } else {
        LinkMidFrame(m, m1, frames, r, i, t, f);
      }
    }
  }

  /** A new empty table changes no walk. */
  lemma LinkMidWalk(m: Memory, m1: Memory, frames: Frames, r: nat, i: nat, t: nat, r2: nat, v: nat)
    requires LinksMid(m, m1, frames, r, i, t) && IsRoot(frames, r2) && v < VPNS
    ensures Walk(m1, r2, v) == Walk(m, r2, v)
  {
    var i2, j2, k2 := v / 0x4_0000, v / 512 % 512, v % 512;
    ZeroInvalid();
    PointerRoundTrip(t);
    if r2 == r && i2 == i {
      assert Entry(m1, t, j2) == 0;
    } else {
      SameWalk(m, m1, frames, r2, v);
    }
  }

  /** The middle and low tables a walk goes through, when it gets there. */
  lemma WalkFrames(m: Memory, frames: Frames, r: nat, v: nat)
    requires TreeOk(m, frames) && IsRoot(frames, r) && v < VPNS
    ensures var i, j := v / 0x4_0000, v / 512 % 512;
      IsValid(Entry(m, r, i)) ==>
        && Points(m, frames, r, i, Mid(r, i))
        && var g := NextTable(Entry(m, r, i));
           IsValid(Entry(m, g, j)) ==> Points(m, frames, g, j, Low(r, i, j))
  {
    var i, j := v / 0x4_0000, v / 512 % 512;
    assert FrameOk(m, frames, r);
    if IsValid(Entry(m, r, i)) {
      var g := NextTable(Entry(m, r, i));
      assert Points(m, frames, r, i, Mid(r, i));
      assert FrameOk(m, frames, g);
    }
  }

  /** The tables the walk for `vpn` reads: the root, and the tables behind its valid entries. */
  function WalkTables(m: Memory, root: nat, vpn: nat): set<nat> {
    var pte2 := Entry(m, root, vpn / 0x4_0000);
    var pte1 := Entry(m, NextTable(pte2), vpn / 512 % 512);
    if !IsValid(pte2) then {root}
    else if !IsValid(pte1) then {root, NextTable(pte2)}
    else {root, NextTable(pte2), NextTable(pte1)}
  }

  /** No walk reads a user page as a table. */
  lemma UserIsNoTable(m: Memory, frames: Frames, f: nat, r: nat, v: nat)
    requires TreeOk(m, frames) && f in frames && frames[f].User? && IsRoot(frames, r) && v < VPNS
    ensures f !in WalkTables(m, r, v)
  {
    WalkFrames(m, frames, r, v);
  }

  /** A walk that meets no changed entry gives the same result. */
  lemma SameWalk(m: Memory, m1: Memory, frames: Frames, r: nat, v: nat)
    requires TreeOk(m, frames) && IsRoot(frames, r) && v < VPNS
    requires Entry(m1, r, v / 0x4_0000) == Entry(m, r, v / 0x4_0000)
    requires forall g, j: nat {:trigger Entry(m1, g, j)} :: g in frames && j < 512 && frames[g].Mid? ==>
        Entry(m1, g, j) == Entry(m, g, j)
    requires forall g, j: nat {:trigger Entry(m1, g, j)} :: g in frames && j < 512 && frames[g].Low? ==>
        Entry(m1, g, j) == Entry(m, g, j)
    ensures Walk(m1, r, v) == Walk(m, r, v)
  {
    WalkFrames(m, frames, r, v);
  }

  // ----- A new low table -----

  /** Frame `t` becomes the table behind entry `j` of the middle table `g` of root `r`, which was invalid. */
  ghost predicate LinksLow(m: Memory, m1: Memory, frames: Frames, r: nat, i: nat, g: nat, j: nat, t: nat) {
    && TreeOk(m, frames) && g in frames && frames[g] == Mid(r, i) && j < 512 && !IsValid(Entry(m, g, j))
    && t !in frames && Encodable(t)
    && Updated(m, m1, frames, g, j, PointerPte(t)) && ZeroTable(m1, t)
  }

  lemma LinkLowFrame(m: Memory, m1: Memory, frames: Frames, r: nat, i: nat, g: nat, j: nat, t: nat, f: nat)
    requires LinksLow(m, m1, frames, r, i, g, j, t) && f in frames
    ensures FrameOk(m1, frames[t := Low(r, i, j)], f)
  {
    var frames1 := frames[t := Low(r, i, j)];
    assert FrameOk(m, frames, f) && FrameOk(m, frames, g);
    match frames[f]
    case Root =>
      forall k: nat | k < 512 && IsValid(Entry(m1, f, k))
        ensures Points(m1, frames1, f, k, Mid(f, k))
      {
        PointsStays(m, m1, frames, frames1, f, k, Mid(f, k));
      }
    case Mid(r2, i2) =>
      forall k: nat | k < 512 && IsValid(Entry(m1, f, k))
        ensures Points(m1, frames1, f, k, Low(r2, i2, k))
      {
        if f == g && k == j {
          PointsNew(m1, frames1, f, k, t, Low(r, i, j));
        } else {
          PointsStays(m, m1, frames, frames1, f, k, Low(r2, i2, k));
        }
      }
    case Low(r2, i2, j2) =>
      var g2 := NextTable(Entry(m, r2, i2));
      PointsStays(m, m1, frames, frames1, r2, i2, Mid(r2, i2));
      PointerRoundTrip(f);
    case User(_, _) =>
  }

  lemma LinkLow(m: Memory, m1: Memory, frames: Frames, r: nat, i: nat, g: nat, j: nat, t: nat)
    requires LinksLow(m, m1, frames, r, i, g, j, t)
    ensures TreeOk(m1, frames[t := Low(r, i, j)])
  {
    var frames1 := frames[t := Low(r, i, j)];
    forall f | f in frames1
      ensures FrameOk(m1, frames1, f)
    {
      if f == t {
        assert FrameOk(m, frames, g);
        PointerRoundTrip(g);
        PointsNew(m1, frames1, r, i, g, Mid(r, i));
      } else {
        LinkLowFrame(m, m1, frames, r, i, g, j, t, f);
      }
    }
  }

  lemma LinkLowWalk(m: Memory, m1: Memory, frames: Frames, r: nat, i: nat, g: nat, j: nat, t: nat, r2: nat, v: nat)
    requires LinksLow(m, m1, frames, r, i, g, j, t) && IsRoot(frames, r2) && v < VPNS
    ensures Walk(m1, r2, v) == Walk(m, r2, v)
  {
    var i2, j2, k2 := v / 0x4_0000, v / 512 % 512, v % 512;
    ZeroInvalid();
    PointerRoundTrip(t);
    WalkFrames(m, frames, r2, v);
    assert Entry(m1, r2, i2) == Entry(m, r2, i2);
    assert Entry(m1, t, k2) == 0;
  }

  // ----- A leaf entry -----

  /** Entry `k` of the low table `f` becomes the valid leaf entry `pte`. */
  ghost predicate SetsLeaf(m: Memory, m1: Memory, frames: Frames, f: nat, k: nat, pte: nat) {
    && TreeOk(m, frames) && f in frames && frames[f].Low? && k < 512 && IsValid(pte)
    && Updated(m, m1, frames, f, k, pte)
  }

  lemma SetLeafFrame(m: Memory, m1: Memory, frames: Frames, f: nat, k: nat, pte: nat, h: nat)
    requires SetsLeaf(m, m1, frames, f, k, pte) && h in frames
    ensures FrameOk(m1, frames, h)
  {
    assert FrameOk(m, frames, h);
    match frames[h]
    case Root =>
      forall x: nat | x < 512 && IsValid(Entry(m1, h, x))
        ensures Points(m1, frames, h, x, Mid(h, x))
      {
        PointsStays(m, m1, frames, frames, h, x, Mid(h, x));
      }
    case Mid(r, i) =>
      forall x: nat | x < 512 && IsValid(Entry(m1, h, x))
        ensures Points(m1, frames, h, x, Low(r, i, x))
      {
        PointsStays(m, m1, frames, frames, h, x, Low(r, i, x));
      }
    case Low(r, i, j) =>
      PointsStays(m, m1, frames, frames, r, i, Mid(r, i));
    case User(_, _) =>
  }

  lemma SetLeaf(m: Memory, m1: Memory, frames: Frames, f: nat, k: nat, pte: nat)
    requires SetsLeaf(m, m1, frames, f, k, pte)
    ensures TreeOk(m1, frames)
  {
    forall h | h in frames
      ensures FrameOk(m1, frames, h)
    {
      SetLeafFrame(m, m1, frames, f, k, pte, h);
    }
  }

  /** The page number with the given indices into the three tables. */
  function VpnOf(i: nat, j: nat, k: nat): nat {
    (i * 512 + j) * 512 + k
  }

  lemma VpnOfParts(v: nat)
    ensures v == VpnOf(v / 0x4_0000, v / 512 % 512, v % 512)
  {
    assert v / 512 / 512 == v / 0x4_0000;
  }

  /** Only the walk for the page of that entry, in its own address space, sees the new leaf. */
  lemma SetLeafWalk(m: Memory, m1: Memory, frames: Frames, f: nat, k: nat, pte: nat, r2: nat, v: nat)
    requires SetsLeaf(m, m1, frames, f, k, pte) && IsRoot(frames, r2) && v < VPNS
    ensures var Low(r, i, j) := frames[f];
      Walk(m1, r2, v) == if r2 == r && v == VpnOf(i, j, k) then Some(pte) else Walk(m, r2, v)
  {
    var Low(r, i, j) := frames[f];
    var i2, j2, k2 := v / 0x4_0000, v / 512 % 512, v % 512;
    VpnOfParts(v);
    WalkFrames(m, frames, r2, v);
    assert Entry(m1, r2, i2) == Entry(m, r2, i2);
    if r2 == r && i2 == i && j2 == j {
      ReachesLow(m, frames, f);
    }
  }

  /** The walk for any page of a low table passes through it. */
  lemma ReachesLow(m: Memory, frames: Frames, f: nat)
    requires TreeOk(m, frames) && f in frames && frames[f].Low?
    ensures var Low(r, i, j) := frames[f];
      && i < 512 && j < 512
      && IsRoot(frames, r) && Points(m, frames, r, i, Mid(r, i)) && IsValid(Entry(m, r, i))
      && var g := NextTable(Entry(m, r, i));
         IsValid(Entry(m, g, j)) && NextTable(Entry(m, g, j)) == f
  {
    assert FrameOk(m, frames, f);
    var Low(r, i, j) := frames[f];
    PointerRoundTrip(NextTable(Entry(m, r, i)));
    PointerRoundTrip(f);
  }

  // ----- New frames that nothing points to -----

  /** Every entry of every frame stays. */
  ghost predicate EntriesStay(m: Memory, m1: Memory, frames: Frames) {
    forall g: nat, j: nat {:trigger Entry(m1, g, j)} :: g in frames && j < 512 ==> Entry(m1, g, j) == Entry(m, g, j)
  }

  lemma StayFrame(m: Memory, m1: Memory, frames: Frames, frames1: Frames, f: nat)
    requires TreeOk(m, frames) && EntriesStay(m, m1, frames) && f in frames
    requires forall g :: g in frames ==> g in frames1 && frames1[g] == frames[g]
    ensures FrameOk(m1, frames1, f)
  {
    assert FrameOk(m, frames, f);
    match frames[f]
    case Root =>
      forall x: nat | x < 512 && IsValid(Entry(m1, f, x))
        ensures Points(m1, frames1, f, x, Mid(f, x))
      {
        PointsStays(m, m1, frames, frames1, f, x, Mid(f, x));
      }
    case Mid(r, i) =>
      forall x: nat | x < 512 && IsValid(Entry(m1, f, x))
        ensures Points(m1, frames1, f, x, Low(r, i, x))
      {
        PointsStays(m, m1, frames, frames1, f, x, Low(r, i, x));
      }
    case Low(r, i, j) =>
      PointsStays(m, m1, frames, frames1, r, i, Mid(r, i));
    case User(_, _) =>
  }

  lemma StayTree(m: Memory, m1: Memory, frames: Frames)
    requires TreeOk(m, frames) && EntriesStay(m, m1, frames)
    ensures TreeOk(m1, frames)
  {
    forall f | f in frames
      ensures FrameOk(m1, frames, f)
    {
      StayFrame(m, m1, frames, frames, f);
    }
  }

  lemma StayWalk(m: Memory, m1: Memory, frames: Frames, r: nat, v: nat)
    requires TreeOk(m, frames) && EntriesStay(m, m1, frames) && IsRoot(frames, r) && v < VPNS
    ensures Walk(m1, r, v) == Walk(m, r, v)
  {
    assert Entry(m1, r, v / 0x4_0000) == Entry(m, r, v / 0x4_0000);
    SameWalk(m, m1, frames, r, v);
  }

  /** An unused frame becomes a user page, or, when it is zero, a root table. */
  lemma AddFrame(m: Memory, frames: Frames, t: nat, role: Role)
    requires TreeOk(m, frames) && t !in frames && Encodable(t)
    requires (role.User? && IsRoot(frames, role.root)) || (role.Root? && ZeroTable(m, t))
    ensures TreeOk(m, frames[t := role])
  {
    var frames1 := frames[t := role];
    ZeroInvalid();
    forall f | f in frames1
      ensures FrameOk(m, frames1, f)
    {
      if f != t {
        StayFrame(m, m, frames, frames1, f);
      }
    }
  }

  lemma EmptyWalk(m: Memory, r: nat, v: nat)
    requires ZeroTable(m, r) && v < VPNS
    ensures Walk(m, r, v) == None
  {
    ZeroInvalid();
    assert Entry(m, r, v / 0x4_0000) == 0;
  }

  // ----- The tables are exactly the prefixes in use -----

  /** No table frame is shared: a role of a table belongs to one frame. */
  lemma TablesUnshared(m: Memory, frames: Frames, f: nat, h: nat)
    requires TreeOk(m, frames) && f in frames && h in frames && frames[f] == frames[h]
    requires frames[f].Mid? || frames[f].Low?
    ensures f == h
  {
    assert FrameOk(m, frames, f) && FrameOk(m, frames, h);
    PointerRoundTrip(f);
    PointerRoundTrip(h);
  }

  /** A middle table exists exactly for the valid root entries. */
  lemma MidExists(m: Memory, frames: Frames, r: nat, i: nat)
    requires TreeOk(m, frames) && IsRoot(frames, r) && i < 512
    ensures IsValid(Entry(m, r, i)) <==> exists f :: f in frames && frames[f] == Mid(r, i)
  {
    assert FrameOk(m, frames, r);
    if IsValid(Entry(m, r, i)) {
      assert Points(m, frames, r, i, Mid(r, i));
    }
    forall f | f in frames && frames[f] == Mid(r, i)
      ensures IsValid(Entry(m, r, i))
    {
      assert FrameOk(m, frames, f);
      PointerRoundTrip(f);
    }
  }

  /** A low table exists exactly for the valid entries of its middle table. */
  lemma LowExists(m: Memory, frames: Frames, g: nat, j: nat)
    requires TreeOk(m, frames) && g in frames && frames[g].Mid? && j < 512
    ensures var Mid(r, i) := frames[g];
      IsValid(Entry(m, g, j)) <==> exists f :: f in frames && frames[f] == Low(r, i, j)
  {
    var Mid(r, i) := frames[g];
    assert FrameOk(m, frames, g);
    PointerRoundTrip(g);
    if IsValid(Entry(m, g, j)) {
      assert Points(m, frames, g, j, Low(r, i, j));
    }
    forall f | f in frames && frames[f] == Low(r, i, j)
      ensures IsValid(Entry(m, g, j))
    {
      ReachesLow(m, frames, f);
    }
  }

  // ----- All walks at once -----

  /** No walk changes, in any address space. */
  ghost predicate WalksStay(m: Memory, m1: Memory, frames: Frames) {
    forall r, v: nat {:trigger Walk(m1, r, v)} :: IsRoot(frames, r) && v < VPNS ==> Walk(m1, r, v) == Walk(m, r, v)
  }

  /** Exactly the walk of page `vpn` under `root` changes: it ends at `pte`. */
  ghost predicate MapsOne(m: Memory, m1: Memory, frames: Frames, root: nat, vpn: nat, pte: nat) {
    forall r, v: nat {:trigger Walk(m1, r, v)} :: IsRoot(frames, r) && v < VPNS ==>
      Walk(m1, r, v) == if r == root && v == vpn then Some(pte) else Walk(m, r, v)
  }

  /**
   What mapping a page means for `vaddr_to_paddr`: the addresses of that page translate to the physical page with their
   offset, and every other address, in this and every other address space, translates as before. A page mapped to
   physical page 0 is the one case in which a mapped address gives 0 (NULL).
   */
  lemma MappedTranslates(m: Memory, m1: Memory, frames: Frames, root: nat, vpn: nat, paddr: nat, flags: nat, r: nat,
                         va: nat)
    requires MapsOne(m, m1, frames, root, vpn, LeafPte(paddr, flags)) && IsRoot(frames, r)
    requires paddr % PAGE == 0 && paddr < 0x4000_0000_0000 && flags < 1024
    ensures Translate(m1, r, va) == if r == root && Vpn(va) == vpn then paddr + va % PAGE else Translate(m, r, va)
    ensures r == root && Vpn(va) == vpn ==> (Translate(m1, r, va) == 0 <==> paddr == 0 && va % PAGE == 0)
  {
    assert Vpn(va) < VPNS;
    assert Walk(m1, r, Vpn(va))
      == if r == root && Vpn(va) == vpn then Some(LeafPte(paddr, flags)) else Walk(m, r, Vpn(va));
    LeafRoundTrip(paddr, flags, va);
  }

  /** The tables the walk for `vpn` still lacks. */
  function Missing(m: Memory, root: nat, vpn: nat): nat {
    var pte2 := Entry(m, root, vpn / 0x4_0000);
    if !IsValid(pte2) then 2
    else if !IsValid(Entry(m, NextTable(pte2), vpn / 512 % 512)) then 1
    else 0
  }

  /** The first-level step of mapping a page: pages under entry `i` lack at most their low table. */
  ghost predicate MidAdded(m: Memory, m1: Memory, root: nat, i: nat) {
    forall w: nat {:trigger Missing(m1, root, w)} :: w < VPNS ==>
      Missing(m1, root, w) == if w / 0x4_0000 == i && Missing(m, root, w) == 2 then 1 else Missing(m, root, w)
  }

  /** The second-level step: pages of low table `p` lack nothing. */
  ghost predicate LowAdded(m: Memory, m1: Memory, root: nat, p: nat) {
    forall w: nat {:trigger Missing(m1, root, w)} :: w < VPNS ==>
      Missing(m1, root, w) == if w / 512 == p then 0 else Missing(m, root, w)
  }

  /** What mapping page `vpn` does to the tables that other pages lack. */
  ghost predicate TablesAdded(m: Memory, m1: Memory, root: nat, vpn: nat) {
    forall w: nat {:trigger Missing(m1, root, w)} :: w < VPNS ==>
      Missing(m1, root, w) ==
        if w / 512 == vpn / 512 then 0
        else if w / 0x4_0000 == vpn / 0x4_0000 && Missing(m, root, w) == 2 then 1
        else Missing(m, root, w)
  }

  lemma LinkMidMissing(m: Memory, m1: Memory, frames: Frames, r: nat, i: nat, t: nat)
    requires LinksMid(m, m1, frames, r, i, t)
    ensures MidAdded(m, m1, r, i)
  {
    PointerRoundTrip(t);
    ZeroInvalid();
    forall w: nat | w < VPNS
      ensures Missing(m1, r, w) == if w / 0x4_0000 == i && Missing(m, r, w) == 2 then 1 else Missing(m, r, w)
    {
      if w / 0x4_0000 == i {
        assert Entry(m1, t, w / 512 % 512) == 0;
      } else {
        MissingSame(m, m1, frames, r, w);
      }
    }
  }

  lemma MissingSame(m: Memory, m1: Memory, frames: Frames, r: nat, w: nat)
    requires TreeOk(m, frames) && IsRoot(frames, r) && w < VPNS
    requires Entry(m1, r, w / 0x4_0000) == Entry(m, r, w / 0x4_0000)
    requires forall g, j: nat {:trigger Entry(m1, g, j)} :: g in frames && j < 512 && frames[g].Mid? ==>
        Entry(m1, g, j) == Entry(m, g, j)
    ensures Missing(m1, r, w) == Missing(m, r, w)
  {
    WalkFrames(m, frames, r, w);
  }

  lemma PrefixParts(w: nat, i: nat, j: nat)
    requires j < 512
    ensures w / 512 == i * 512 + j <==> w / 0x4_0000 == i && w / 512 % 512 == j
  {
    assert w / 512 / 512 == w / 0x4_0000;
  }

  lemma LinkLowMissing(m: Memory, m1: Memory, frames: Frames, r: nat, i: nat, g: nat, j: nat, t: nat)
    requires LinksLow(m, m1, frames, r, i, g, j, t)
    ensures LowAdded(m, m1, r, i * 512 + j)
  {
    assert FrameOk(m, frames, g);
    PointerRoundTrip(t);
    PointerRoundTrip(g);
    forall w: nat | w < VPNS
      ensures Missing(m1, r, w) == if w / 512 == i * 512 + j then 0 else Missing(m, r, w)
    {
      PrefixParts(w, i, j);
      WalkFrames(m, frames, r, w);
      assert Entry(m1, r, w / 0x4_0000) == Entry(m, r, w / 0x4_0000);
    }
  }

  lemma SetLeafMissing(m: Memory, m1: Memory, frames: Frames, f: nat, k: nat, pte: nat, r: nat, w: nat)
    requires SetsLeaf(m, m1, frames, f, k, pte) && IsRoot(frames, r) && w < VPNS
    ensures Missing(m1, r, w) == Missing(m, r, w)
  {
    assert Entry(m1, r, w / 0x4_0000) == Entry(m, r, w / 0x4_0000);
    MissingSame(m, m1, frames, r, w);
  }

  /** A table already there: nothing is added. */
  lemma MidPresent(m: Memory, root: nat, i: nat)
    requires IsValid(Entry(m, root, i))
    ensures MidAdded(m, m, root, i)
  {
  }

  lemma LowPresent(m: Memory, frames: Frames, g: nat, j: nat)
    requires TreeOk(m, frames) && g in frames && frames[g].Mid? && j < 512 && IsValid(Entry(m, g, j))
    ensures LowAdded(m, m, frames[g].root, frames[g].i * 512 + j)
  {
    assert FrameOk(m, frames, g);
    PointerRoundTrip(g);
    forall w: nat | w < VPNS && w / 512 == frames[g].i * 512 + j
      ensures Missing(m, frames[g].root, w) == 0
    {
      PrefixParts(w, frames[g].i, j);
    }
  }

  lemma AddedTrans(m: Memory, m1: Memory, m2: Memory, root: nat, vpn: nat)
    requires MidAdded(m, m1, root, vpn / 0x4_0000) && LowAdded(m1, m2, root, vpn / 512)
    ensures TablesAdded(m, m2, root, vpn)
  {
    forall w: nat | w < VPNS
      ensures Missing(m2, root, w) ==
        if w / 512 == vpn / 512 then 0
        else if w / 0x4_0000 == vpn / 0x4_0000 && Missing(m, root, w) == 2 then 1
        else Missing(m, root, w)
    {
      assert Missing(m2, root, w) == if w / 512 == vpn / 512 then 0 else Missing(m1, root, w);
      assert Missing(m1, root, w) ==
        if w / 0x4_0000 == vpn / 0x4_0000 && Missing(m, root, w) == 2 then 1 else Missing(m, root, w);
    }
  }

  lemma AddedStays(m: Memory, m1: Memory, m2: Memory, root: nat, vpn: nat)
    requires TablesAdded(m, m1, root, vpn)
    requires forall w: nat {:trigger Missing(m2, root, w)} :: w < VPNS ==> Missing(m2, root, w) == Missing(m1, root, w)
    ensures TablesAdded(m, m2, root, vpn)
  {
    forall w: nat | w < VPNS
      ensures Missing(m2, root, w) ==
        if w / 512 == vpn / 512 then 0
        else if w / 0x4_0000 == vpn / 0x4_0000 && Missing(m, root, w) == 2 then 1
        else Missing(m, root, w)
    {
      assert Missing(m2, root, w) == Missing(m1, root, w);
    }
  }
}
