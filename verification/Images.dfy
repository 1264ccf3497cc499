/** Building the address space of a process: the kernel and its devices mapped to themselves, and a user image. */
module Images {
  import opened Arithmetic
  import opened Bits
  import opened Buddy
  import opened BuddyRuns
  import opened Heaps
  import opened Memories
  import opened PageEntries
  import opened PageTrees
  import opened Paging
  import opened Wrappers

  const USER_BASE: nat := 0x100_0000
  const VIRTIO_PADDR: nat := 0x1000_1000
  const DEVICES: nat := 8
  const KERNEL_FLAGS: nat := PAGE_R + PAGE_W + PAGE_X
  const DEVICE_FLAGS: nat := PAGE_R + PAGE_W
  const USER_FLAGS: nat := PAGE_U + PAGE_R + PAGE_W + PAGE_X

  /** An address space as a finite map from page numbers to leaf entries. */
  type Pages = map<nat, nat>

  /** The walk of the tables under `root` is exactly `pages`. */
  ghost predicate Maps(m: Memory, root: nat, pages: Pages) {
    forall v: nat {:trigger Walk(m, root, v)} :: v < VPNS ==>
      Walk(m, root, v) == if v in pages then Some(pages[v]) else None
  }

  // ----- How many tables a set of pages needs -----

  function Mids(vs: set<nat>): set<nat> {
    set v | v in vs :: v / 0x4_0000
  }

  function Lows(vs: set<nat>): set<nat> {
    set v | v in vs :: v / 512
  }

  /** One middle table for every 1 GiB region and one low table for every 2 MiB region that has a page. */
  function TableCount(vs: set<nat>): nat {
    |Mids(vs)| + |Lows(vs)|
  }

  /** The tables under `root` are exactly those its pages need. */
  ghost predicate TablesFor(m: Memory, root: nat, vs: set<nat>) {
    forall w: nat {:trigger Missing(m, root, w)} :: w < VPNS ==>
      Missing(m, root, w) == if w / 0x4_0000 !in Mids(vs) then 2 else if w / 512 !in Lows(vs) then 1 else 0
  }

  lemma PrefixOfLow(vs: set<nat>, w: nat)
    requires w / 512 in Lows(vs)
    ensures w / 0x4_0000 in Mids(vs)
  {
    var v :| v in vs && v / 512 == w / 512;
    assert v / 512 / 512 == v / 0x4_0000 && w / 512 / 512 == w / 0x4_0000;
  }

  lemma AddedPrefixes(vs: set<nat>, v: nat)
    ensures Mids(vs + {v}) == Mids(vs) + {v / 0x4_0000}
    ensures Lows(vs + {v}) == Lows(vs) + {v / 512}
  {
    var i, p := v / 0x4_0000, v / 512;
    forall x
      ensures x in Mids(vs + {v}) <==> x in Mids(vs) || x == i
    {
      if x == i {
        assert v in vs + {v};
      } else if x in Mids(vs) {
        var y :| y in vs && y / 0x4_0000 == x;
        assert y in vs + {v};
      }
    }
    forall x
      ensures x in Lows(vs + {v}) <==> x in Lows(vs) || x == p
    {
      if x == p {
        assert v in vs + {v};
      } else if x in Lows(vs) {
        var y :| y in vs && y / 512 == x;
        assert y in vs + {v};
      }
    }
  }

  /** Mapping one more page costs exactly the tables its walk lacks. */
  lemma CountStep(m: Memory, root: nat, vs: set<nat>, v: nat)
    requires TablesFor(m, root, vs) && v < VPNS
    ensures TableCount(vs + {v}) == TableCount(vs) + Missing(m, root, v)
  {
    AddedPrefixes(vs, v);
    AddOne(Mids(vs), v / 0x4_0000);
    AddOne(Lows(vs), v / 512);
    assert Missing(m, root, v) == if v / 0x4_0000 !in Mids(vs) then 2 else if v / 512 !in Lows(vs) then 1 else 0;
    if v / 512 in Lows(vs) {
      PrefixOfLow(vs, v);
    }
  }

  lemma AddOne(a: set<nat>, x: nat)
    ensures |a + {x}| == |a| + if x in a then 0 else 1
  {
    if x in a {
      assert a + {x} == a;
    }
  }

  lemma CountMonotone(vs: set<nat>, ws: set<nat>)
    requires vs <= ws
    ensures TableCount(vs) <= TableCount(ws)
  {
    SubsetSize(Mids(vs), Mids(ws));
    SubsetSize(Lows(vs), Lows(ws));
  }

  lemma {:induction false} SubsetSize(a: set<nat>, b: set<nat>)
    requires a <= b
    ensures |a| <= |b|
    decreases |a|
  {
    if a != {} {
      var x :| x in a;
      SubsetSize(a - {x}, b - {x});
    }
  }

  lemma TablesStep(m: Memory, m1: Memory, root: nat, vs: set<nat>, v: nat)
    requires TablesFor(m, root, vs) && TablesAdded(m, m1, root, v) && v < VPNS
    ensures TablesFor(m1, root, vs + {v})
  {
    AddedPrefixes(vs, v);
    forall w: nat | w < VPNS
      ensures Missing(m1, root, w) ==
        if w / 0x4_0000 !in Mids(vs + {v}) then 2 else if w / 512 !in Lows(vs + {v}) then 1 else 0
    {
      assert w / 512 / 512 == w / 0x4_0000 && v / 512 / 512 == v / 0x4_0000;
      if w / 512 in Lows(vs) {
        PrefixOfLow(vs, w);
      }
    }
  }

  // ----- map_page refines a map update -----

  /** The address space under `root`: its walk is `pages`, and it has exactly the tables that needs. */
  ghost predicate Built(s: Space, root: nat, pages: Pages) {
    && IsRoot(s.frames, root)
    && Maps(s.m, root, pages)
    && TablesFor(s.m, root, pages.Keys)
    && forall v :: v in pages ==> v < VPNS
  }

  lemma BuiltStep(s: Space, t: Space, root: nat, pages: Pages, vpn: nat, pte: nat)
    requires Built(s, root, pages) && vpn < VPNS && Extends(s.frames, t.frames)
    requires MapsOne(s.m, t.m, s.frames, root, vpn, pte) && TablesAdded(s.m, t.m, root, vpn)
    ensures Built(t, root, pages[vpn := pte])
  {
    TablesStep(s.m, t.m, root, pages.Keys, vpn);
    assert pages[vpn := pte].Keys == pages.Keys + {vpn};
    forall v: nat | v < VPNS
      ensures Walk(t.m, root, v) == if v in pages[vpn := pte] then Some(pages[vpn := pte][v]) else None
    {
      assert Walk(s.m, root, v) == if v in pages then Some(pages[v]) else None;
    }
  }

  /**
   An address space on its way from `s0`: the walk under `root` is `pages`, the room taken since is what the tables of
   those pages and `n` user pages need, and what was there before is kept.
   */
  ghost predicate Progress(s0: Space, s: Space, root: nat, pages: Pages, n: nat) {
    && Built(s, root, pages)
    && Kept(s0, s, root)
    && s.room + PAGE * (TableCount(pages.Keys) + n) == s0.room
  }

  /**
   `map_page` as an update of the finite map: page `vaddr / PAGE` of `root` gets the new entry, and exactly the
   tables that the grown map needs come off the free lists. `all` is any set of pages there is room for.
   */
  method MapInto(pt: PageTables, root: nat, vaddr: nat, paddr: nat, flags: nat,
                 ghost s0: Space, ghost pages: Pages, ghost n: nat, ghost all: set<nat>)
    returns (ghost pages1: Pages)
    requires pt.Valid() && Progress(s0, pt.Now(), root, pages, n)
    requires vaddr < VPNS * PAGE && flags < 0x1_0000_0000 && !BadMapping(vaddr, paddr, flags)
    requires pages.Keys <= all && vaddr / PAGE in all && s0.room >= PAGE * (TableCount(all) + n)
    modifies pt, pt.heap`ls, pt.heap`used, pt.heap.ram, pt.heap.heads
    ensures pages1 == pages[vaddr / PAGE := LeafPte(paddr, flags)]
    ensures pt.Valid() && Progress(s0, pt.Now(), root, pages1, n)
    ensures Kept(old(pt.Now()), pt.Now(), root)
  {
    ghost var s := pt.Now();
    ghost var vpn, pte := vaddr / PAGE, LeafPte(paddr, flags);
    DivModUnique(vpn, VPNS, 0, vpn);
    assert Vpn(vaddr) == vpn;
    pages1 := pages[vpn := pte];
    RoomForStep(s, root, pages, pages1, vpn, all, s0.room, n);
    var panicked := pt.MapPage(root, vaddr, paddr, flags);
    BuiltStep(s, pt.Now(), root, pages, vpn, pte);
    KeptTrans(s0, s, pt.Now(), root);
  }

  lemma RoomForStep(s: Space, root: nat, pages: Pages, pages1: Pages, vpn: nat, all: set<nat>, room0: nat, n: nat)
    requires Built(s, root, pages) && vpn < VPNS && pages1.Keys == pages.Keys + {vpn} && pages1.Keys <= all
    requires s.room + PAGE * (TableCount(pages.Keys) + n) == room0 && room0 >= PAGE * (TableCount(all) + n)
    ensures s.room >= PAGE * Missing(s.m, root, vpn)
    ensures TableCount(pages1.Keys) == TableCount(pages.Keys) + Missing(s.m, root, vpn)
  {
    CountStep(s.m, root, pages.Keys, vpn);
    CountMonotone(pages1.Keys, all);
  }

  // ----- The pages of a process -----

  /** Pages `a` to `b - 1` mapped to themselves. */
  function Identity(a: nat, b: nat, flags: nat): Pages {
    map v | a <= v < b :: LeafPte(v * PAGE, flags)
  }

  lemma IdentityNext(a: nat, b: nat, flags: nat)
    requires a <= b
    ensures Identity(a, b + 1, flags) == Identity(a, b, flags)[b := LeafPte(b * PAGE, flags)]
  {
  }

  /** The user pages from `USER_BASE` on, in the frames `fs`. */
  function UserPages(fs: seq<nat>): Pages {
    map v: nat | USER_BASE / PAGE <= v < USER_BASE / PAGE + |fs| :: UserEntry(fs, v)
  }

  function UserEntry(fs: seq<nat>, v: nat): nat
    requires USER_BASE / PAGE <= v < USER_BASE / PAGE + |fs|
  {
    LeafPte(fs[v - USER_BASE / PAGE], USER_FLAGS)
  }

  lemma UserNext(fs: seq<nat>, f: nat)
    ensures UserPages(fs + [f]) == UserPages(fs)[USER_BASE / PAGE + |fs| := LeafPte(f, USER_FLAGS)]
  {
  }

  function KernelPages(kernelBase: nat, end: nat): Pages {
    Identity(kernelBase / PAGE, end / PAGE, KERNEL_FLAGS)
  }

  function DevicePages(n: nat): Pages {
    Identity(VIRTIO_PADDR / PAGE, VIRTIO_PADDR / PAGE + n, DEVICE_FLAGS)
  }

  /** The pages an image of `size` bytes takes. */
  function PageCount(size: nat): nat {
    (size + PAGE - 1) / PAGE
  }

  /** They hold the image and less than a page more; page `k` is one of them exactly when it starts in the image. */
  lemma PagesHoldImage(size: nat, k: nat)
    ensures size <= PageCount(size) * PAGE < size + PAGE
    ensures k < PageCount(size) <==> k * PAGE < size
  {
  }

  /** Page `k` of an image; the last one may be short. */
  function Chunk(image: seq<Byte>, k: nat): seq<Byte>
    requires k * PAGE <= |image|
  {
    if (k + 1) * PAGE <= |image| then image[k * PAGE..(k + 1) * PAGE] else image[k * PAGE..]
  }

  lemma Flags()
    ensures And(KERNEL_FLAGS, 0xE) != 0 && And(DEVICE_FLAGS, 0xE) != 0 && And(USER_FLAGS, 0xE) != 0
  {
    assert And(14, 14) == 14;
    assert And(6, 14) == 6;
    assert And(30, 14) == 14;
  }

  lemma NoKernel(kernelBase: nat)
    ensures KernelPages(kernelBase, kernelBase) == map[]
  {
  }

  lemma KernelNext(kernelBase: nat, paddr: nat, next: nat, end: nat)
    requires kernelBase % PAGE == 0 && paddr % PAGE == 0 && end % PAGE == 0 && kernelBase <= paddr < end
    requires next == paddr + PAGE
    ensures next % PAGE == 0 && next <= end
    ensures KernelPages(kernelBase, next)
         == KernelPages(kernelBase, paddr)[paddr / PAGE := LeafPte(paddr, KERNEL_FLAGS)]
    ensures KernelPages(kernelBase, paddr).Keys <= KernelPages(kernelBase, end).Keys
    ensures paddr / PAGE in KernelPages(kernelBase, end).Keys
    ensures !BadMapping(paddr, paddr, KERNEL_FLAGS)
  {
    Flags();
    assert paddr / PAGE * PAGE == paddr && next / PAGE == paddr / PAGE + 1;
    IdentityNext(kernelBase / PAGE, paddr / PAGE, KERNEL_FLAGS);
    IdentityGrows(kernelBase / PAGE, paddr / PAGE, end / PAGE, KERNEL_FLAGS);
  }

  lemma NoDevices(base: Pages)
    ensures base + DevicePages(0) == base
  {
    assert DevicePages(0) == map[];
  }

  lemma DevicesNext(base: Pages, i: nat, addr: nat)
    requires i < DEVICES && addr == VIRTIO_PADDR + 0x1000 * i
    ensures base + DevicePages(i + 1) == (base + DevicePages(i))[addr / PAGE := LeafPte(addr, DEVICE_FLAGS)]
    ensures (base + DevicePages(i)).Keys <= (base + DevicePages(DEVICES)).Keys
    ensures addr / PAGE in (base + DevicePages(DEVICES)).Keys
    ensures !BadMapping(addr, addr, DEVICE_FLAGS)
  {
    var v := VIRTIO_PADDR / PAGE;
    Flags();
    assert addr / PAGE == v + i && addr == (v + i) * PAGE;
    IdentityNext(v, v + i, DEVICE_FLAGS);
    IdentityGrows(v, v + i, v + DEVICES, DEVICE_FLAGS);
    UpdateRight(base, DevicePages(i), v + i, LeafPte(addr, DEVICE_FLAGS));
  }

  lemma UpdateRight(a: Pages, b: Pages, v: nat, pte: nat)
    ensures a + b[v := pte] == (a + b)[v := pte]
  {
  }

  /** The first loop of `create_process`: every page from the kernel's base to the end of RAM, mapped to itself. */
  method MapKernel(pt: PageTables, root: nat, kernelBase: nat, ghost s0: Space, ghost all: set<nat>, ghost n: nat)
    returns (ghost pages: Pages)
    requires pt.Valid() && Progress(s0, pt.Now(), root, map[], n)
    requires kernelBase % PAGE == 0 && pt.heap.hi % PAGE == 0 && kernelBase <= pt.heap.hi <= VPNS * PAGE
    requires KernelPages(kernelBase, pt.heap.hi).Keys <= all && s0.room >= PAGE * (TableCount(all) + n)
    modifies pt, pt.heap`ls, pt.heap`used, pt.heap.ram, pt.heap.heads
    ensures pages == KernelPages(kernelBase, pt.heap.hi)
    ensures pt.Valid() && Progress(s0, pt.Now(), root, pages, n)
  {
    var paddr := kernelBase;
    pages := map[];
    NoKernel(kernelBase);
    while paddr < pt.heap.hi
      invariant kernelBase <= paddr <= pt.heap.hi && paddr % PAGE == 0
      invariant pages == KernelPages(kernelBase, paddr)
      invariant pt.Valid() && Progress(s0, pt.Now(), root, pages, n)
    {
      paddr, pages := MapKernelPage(pt, root, kernelBase, paddr, s0, pages, all, n);
    }
  }

  /** One round of that loop. */
  method MapKernelPage(pt: PageTables, root: nat, kernelBase: nat, paddr: nat,
                       ghost s0: Space, ghost pages: Pages, ghost all: set<nat>, ghost n: nat)
    returns (next: nat, ghost pages1: Pages)
    requires pt.Valid() && Progress(s0, pt.Now(), root, pages, n) && pages == KernelPages(kernelBase, paddr)
    requires kernelBase % PAGE == 0 && paddr % PAGE == 0 && pt.heap.hi % PAGE == 0
    requires kernelBase <= paddr < pt.heap.hi <= VPNS * PAGE
    requires KernelPages(kernelBase, pt.heap.hi).Keys <= all && s0.room >= PAGE * (TableCount(all) + n)
    modifies pt, pt.heap`ls, pt.heap`used, pt.heap.ram, pt.heap.heads
    ensures next == paddr + PAGE && next % PAGE == 0 && next <= pt.heap.hi
    ensures pt.Valid() && Progress(s0, pt.Now(), root, pages1, n) && pages1 == KernelPages(kernelBase, next)
  {
    next := paddr + PAGE;
    KernelNext(kernelBase, paddr, next, pt.heap.hi);
    pages1 := MapInto(pt, root, paddr, paddr, KERNEL_FLAGS, s0, pages, n, all);
  }

  lemma IdentityGrows(a: nat, b: nat, c: nat, flags: nat)
    requires a <= b < c
    ensures Identity(a, b, flags).Keys <= Identity(a, c, flags).Keys && b in Identity(a, c, flags).Keys
  {
  }

  /** The second loop: the eight pages of the virtio devices, mapped to themselves. */
  method MapDevices(pt: PageTables, root: nat, ghost s0: Space, ghost base: Pages, ghost all: set<nat>, ghost n: nat)
    requires pt.Valid() && Progress(s0, pt.Now(), root, base, n)
    requires (base + DevicePages(DEVICES)).Keys <= all && s0.room >= PAGE * (TableCount(all) + n)
    modifies pt, pt.heap`ls, pt.heap`used, pt.heap.ram, pt.heap.heads
    ensures pt.Valid() && Progress(s0, pt.Now(), root, base + DevicePages(DEVICES), n)
  {
    ghost var pages := base;
    NoDevices(base);
    for i := 0 to DEVICES
      invariant pages == base + DevicePages(i)
      invariant pt.Valid() && Progress(s0, pt.Now(), root, pages, n)
    {
      var addr := VIRTIO_PADDR + 0x1000 * i;
      DevicesNext(base, i, addr);
      pages := MapInto(pt, root, addr, addr, DEVICE_FLAGS, s0, pages, n, all);
    }
  }

  // ----- User pages -----

  /** Frame `f` belongs to user page `k` of `root` and holds that page of the image. */
  ghost predicate LoadedPage(s: Space, root: nat, f: nat, k: nat, src: seq<Byte>) {
    && f in s.frames && s.frames[f] == User(root, USER_BASE / PAGE + k)
    && Block(f, 0) in s.used && Encodable(f) && f > 0
    && FilledPage(s.m, f, src)
  }

  /** The first `|fs|` pages of the image are loaded, in the frames `fs`. */
  ghost predicate Loaded(s: Space, root: nat, image: seq<Byte>, fs: seq<nat>) {
    && |fs| <= PageCount(|image|)
    && forall k: nat {:trigger fs[k]} :: k < |fs| ==> LoadedPage(s, root, fs[k], k, Chunk(image, k))
  }

  lemma PageKept(s: Space, t: Space, r: nat, root: nat, f: nat, k: nat, src: seq<Byte>)
    requires LoadedPage(s, root, f, k, src) && Kept(s, t, r)
    ensures LoadedPage(t, root, f, k, src)
  {
    var n :| Grew(s, t, n);
    assert IsPlain(s.frames, Block(f, 0));
    assert SameIn(s.m, t.m, Block(f, 0));
  }

  lemma LoadedKept(s: Space, t: Space, r: nat, root: nat, image: seq<Byte>, fs: seq<nat>)
    requires Loaded(s, root, image, fs) && Kept(s, t, r)
    ensures Loaded(t, root, image, fs)
  {
    forall k: nat | k < |fs|
      ensures LoadedPage(t, root, fs[k], k, Chunk(image, k))
    {
      PageKept(s, t, r, root, fs[k], k, Chunk(image, k));
    }
  }

  /** A new frame leaves every walk and every table count as it was. */
  lemma StayKept(s: Space, t: Space, r: nat, n: nat)
    requires TreeOk(s.m, s.frames) && Grew(s, t, n) && EntriesStay(s.m, t.m, s.frames)
    ensures Kept(s, t, r)
  {
    forall r2, v: nat | IsRoot(s.frames, r2) && r2 != r && v < VPNS
      ensures Walk(t.m, r2, v) == Walk(s.m, r2, v)
    {
      StayWalk(s.m, t.m, s.frames, r2, v);
    }
  }

  lemma StayProgress(s0: Space, s: Space, t: Space, root: nat, pages: Pages, n: nat)
    requires Progress(s0, s, root, pages, n) && TreeOk(s.m, s.frames)
    requires Grew(s, t, 1) && EntriesStay(s.m, t.m, s.frames)
    ensures Progress(s0, t, root, pages, n + 1)
  {
    forall v: nat | v < VPNS
      ensures Walk(t.m, root, v) == Walk(s.m, root, v) && Missing(t.m, root, v) == Missing(s.m, root, v)
    {
      StayWalk(s.m, t.m, s.frames, root, v);
      assert Entry(t.m, root, v / 0x4_0000) == Entry(s.m, root, v / 0x4_0000);
      MissingSame(s.m, t.m, s.frames, root, v);
    }
    StayKept(s, t, root, 1);
    KeptTrans(s0, s, t, root);
  }

  lemma RoomForPage(s: Space, pages: Pages, all: set<nat>, room0: nat, n: nat, more: nat)
    requires s.room + PAGE * (TableCount(pages.Keys) + n) == room0 && room0 >= PAGE * (TableCount(all) + n + more)
    requires pages.Keys <= all && more > 0
    ensures s.room > 0
  {
    CountMonotone(pages.Keys, all);
  }

  lemma UserPageArgs(size: nat, k: nat)
    requires k < PageCount(size) && USER_BASE + size <= VPNS * PAGE
    ensures k * PAGE < size
    ensures var va := USER_BASE + k * PAGE; va < VPNS * PAGE && va / PAGE == USER_BASE / PAGE + k
    ensures forall page :: Encodable(page) ==> !BadMapping(USER_BASE + k * PAGE, page, USER_FLAGS)
  {
    Flags();
  }

  lemma ChunkSlice(image: seq<Byte>, k: nat, src: seq<Byte>)
    requires k * PAGE < |image|
    requires src == image[k * PAGE..k * PAGE + (if PAGE <= |image| - k * PAGE then PAGE else |image| - k * PAGE)]
    ensures src == Chunk(image, k) && |src| <= PAGE
  {
  }

  /** The first half of a round of the third loop: allocate a page and copy its part of the image into it. */
  method FillUserPage(pt: PageTables, root: nat, image: seq<Byte>, k: nat,
                      ghost s0: Space, ghost pages: Pages, ghost all: set<nat>, ghost n: nat)
    returns (page: nat)
    requires pt.Valid() && Progress(s0, pt.Now(), root, pages, n)
    requires k < PageCount(|image|) && USER_BASE + |image| <= VPNS * PAGE
    requires pages.Keys <= all && s0.room >= PAGE * (TableCount(all) + n + 1)
    modifies pt, pt.heap`ls, pt.heap`used, pt.heap.ram, pt.heap.heads
    ensures pt.Valid() && Progress(s0, pt.Now(), root, pages, n + 1)
    ensures Kept(old(pt.Now()), pt.Now(), root)
    ensures LoadedPage(pt.Now(), root, page, k, Chunk(image, k))
  {
    ghost var s := pt.Now();
    UserPageArgs(|image|, k);
    RoomForPage(s, pages, all, s0.room, n, 1);
    var off := k * PAGE;
    var remaining := |image| - off;
    var copySize := if PAGE <= remaining then PAGE else remaining;
    var src := image[off..off + copySize];
    ChunkSlice(image, k, src);
    page := pt.NewUserPage(src, root, USER_BASE / PAGE + k);
    StayProgress(s0, s, pt.Now(), root, pages, n);
    StayKept(s, pt.Now(), root, 1);
  }

  /** One round of the third loop: the page is filled, then mapped for the user. */
  method LoadUserPage(pt: PageTables, root: nat, image: seq<Byte>, k: nat,
                      ghost s0: Space, ghost pages: Pages, ghost all: set<nat>, ghost n: nat)
    returns (page: nat, ghost pages1: Pages)
    requires pt.Valid() && Progress(s0, pt.Now(), root, pages, n)
    requires k < PageCount(|image|) && USER_BASE + |image| <= VPNS * PAGE
    requires pages.Keys <= all && USER_BASE / PAGE + k in all && s0.room >= PAGE * (TableCount(all) + n + 1)
    modifies pt, pt.heap`ls, pt.heap`used, pt.heap.ram, pt.heap.heads
    ensures pages1 == pages[USER_BASE / PAGE + k := LeafPte(page, USER_FLAGS)]
    ensures pt.Valid() && Progress(s0, pt.Now(), root, pages1, n + 1)
    ensures Kept(old(pt.Now()), pt.Now(), root)
    ensures LoadedPage(pt.Now(), root, page, k, Chunk(image, k))
  {
    ghost var s := pt.Now();
    UserPageArgs(|image|, k);
    page := FillUserPage(pt, root, image, k, s0, pages, all, n);
    ghost var t := pt.Now();
    var vaddr := USER_BASE + k * PAGE;
    assert vaddr / PAGE == USER_BASE / PAGE + k && !BadMapping(vaddr, page, USER_FLAGS);
    pages1 := MapInto(pt, root, vaddr, page, USER_FLAGS, s0, pages, n + 1, all);
    StillLoaded(s, t, pt.Now(), root, page, k, Chunk(image, k));
  }

  lemma StillLoaded(s: Space, t: Space, u: Space, root: nat, f: nat, k: nat, src: seq<Byte>)
    requires Kept(s, t, root) && Kept(t, u, root) && LoadedPage(t, root, f, k, src)
    ensures Kept(s, u, root) && LoadedPage(u, root, f, k, src)
  {
    KeptTrans(s, t, u, root);
    PageKept(t, u, root, root, f, k, src);
  }

  lemma UserGrows(base: Pages, fs: seq<nat>, size: nat)
    requires |fs| < PageCount(size)
    ensures (base + UserPages(fs)).Keys <= base.Keys + UserVpns(size)
    ensures USER_BASE / PAGE + |fs| in base.Keys + UserVpns(size)
  {
  }

  /** The page numbers an image of `size` bytes takes. */
  function UserVpns(size: nat): set<nat> {
    Identity(USER_BASE / PAGE, USER_BASE / PAGE + PageCount(size), USER_FLAGS).Keys
  }

  lemma LoadedNext(s: Space, t: Space, root: nat, image: seq<Byte>, fs: seq<nat>, page: nat)
    requires Loaded(s, root, image, fs) && Kept(s, t, root) && |fs| < PageCount(|image|)
    requires |fs| * PAGE <= |image| && LoadedPage(t, root, page, |fs|, Chunk(image, |fs|))
    ensures Loaded(t, root, image, fs + [page])
  {
    LoadedKept(s, t, root, root, image, fs);
    forall k: nat | k < |fs + [page]|
      ensures LoadedPage(t, root, (fs + [page])[k], k, Chunk(image, k))
    {
      if k < |fs| {
        assert LoadedPage(t, root, fs[k], k, Chunk(image, k));
      }
    }
  }

  lemma NextPages(base: Pages, fs: seq<nat>, page: nat)
    ensures base + UserPages(fs + [page])
         == (base + UserPages(fs))[USER_BASE / PAGE + |fs| := LeafPte(page, USER_FLAGS)]
  {
    UserNext(fs, page);
    UpdateRight(base, UserPages(fs), USER_BASE / PAGE + |fs|, LeafPte(page, USER_FLAGS));
  }

  lemma NoUser(base: Pages)
    ensures base + UserPages([]) == base
  {
    assert UserPages([]) == map[];
  }

  /** The third loop: the pages of the image. */
  method LoadImage(pt: PageTables, root: nat, image: seq<Byte>,
                   ghost s0: Space, ghost base: Pages, ghost all: set<nat>, ghost n: nat)
    returns (ghost pages: Pages, ghost fs: seq<nat>)
    requires pt.Valid() && Progress(s0, pt.Now(), root, base, n)
    requires USER_BASE + |image| <= VPNS * PAGE
    requires all == base.Keys + UserVpns(|image|) && s0.room >= PAGE * (TableCount(all) + n + PageCount(|image|))
    modifies pt, pt.heap`ls, pt.heap`used, pt.heap.ram, pt.heap.heads
    ensures |fs| == PageCount(|image|) && pages == base + UserPages(fs)
    ensures pt.Valid() && Progress(s0, pt.Now(), root, pages, n + |fs|)
    ensures Loaded(pt.Now(), root, image, fs)
  {
    pages, fs := base, [];
    NoUser(base);
    var off, k := 0, 0;
    while off < |image|
      invariant k == |fs| && off == k * PAGE && k <= PageCount(|image|)
      invariant pages == base + UserPages(fs)
      invariant pt.Valid() && Progress(s0, pt.Now(), root, pages, n + k)
      invariant Loaded(pt.Now(), root, image, fs)
    {
      pages, fs := LoadRound(pt, root, image, k, s0, base, pages, fs, all, n + k);
      off, k := off + PAGE, k + 1;
    }
  }

  /** One round of the third loop, with what is loaded so far. */
  method LoadRound(pt: PageTables, root: nat, image: seq<Byte>, k: nat, ghost s0: Space, ghost base: Pages,
                   ghost pages: Pages, ghost fs: seq<nat>, ghost all: set<nat>, ghost n: nat)
    returns (ghost pages1: Pages, ghost fs1: seq<nat>)
    requires pt.Valid() && Progress(s0, pt.Now(), root, pages, n)
    requires USER_BASE + |image| <= VPNS * PAGE && k == |fs| < PageCount(|image|)
    requires pages == base + UserPages(fs) && Loaded(pt.Now(), root, image, fs)
    requires all == base.Keys + UserVpns(|image|) && s0.room >= PAGE * (TableCount(all) + n + 1)
    modifies pt, pt.heap`ls, pt.heap`used, pt.heap.ram, pt.heap.heads
    ensures |fs1| == |fs| + 1 && pages1 == base + UserPages(fs1)
    ensures pt.Valid() && Progress(s0, pt.Now(), root, pages1, n + 1)
    ensures Loaded(pt.Now(), root, image, fs1)
  {
    ghost var s := pt.Now();
    UserGrows(base, fs, |image|);
    UserPageArgs(|image|, k);
    var page;
    page, pages1 := LoadUserPage(pt, root, image, k, s0, pages, all, n);
    LoadedNext(s, pt.Now(), root, image, fs, page);
    NextPages(base, fs, page);
    fs1 := fs + [page];
  }

  // ----- The whole address space -----

  /** What the linker script and the memory map promise. */
  predicate Layout(kernelBase: nat, end: nat) {
    && kernelBase % PAGE == 0 && end % PAGE == 0
    && VIRTIO_PADDR + DEVICES * PAGE <= kernelBase <= end
    && USER_BASE + end <= VPNS * PAGE
  }

  /** The pages of a process with an image of `size` bytes. */
  function AllVpns(kernelBase: nat, end: nat, size: nat): set<nat> {
    (KernelPages(kernelBase, end) + DevicePages(DEVICES)).Keys + UserVpns(size)
  }

  /** The pages `create_process` takes off the free lists: a root, the tables, and the user pages. */
  function Demand(kernelBase: nat, end: nat, size: nat): nat {
    1 + TableCount(AllVpns(kernelBase, end, size)) + PageCount(size)
  }

  lemma EmptyBuilt(s: Space, t: Space, root: nat)
    requires TreeOk(s.m, s.frames) && root !in s.frames
    requires Grew(s, t, 1) && EntriesStay(s.m, t.m, s.frames)
    requires t.frames == s.frames[root := Root] && ZeroTable(t.m, root)
    ensures Progress(s, t, root, map[], 1)
  {
    var none: Pages := map[];
    assert none.Keys == {} && Mids({}) == {} && Lows({}) == {};
    ZeroInvalid();
    forall v: nat | v < VPNS
      ensures Walk(t.m, root, v) == None && Missing(t.m, root, v) == 2
    {
      EmptyWalk(t.m, root, v);
      assert Entry(t.m, root, v / 0x4_0000) == 0;
    }
    StayKept(s, t, root, 1);
  }

  /** An image that there is room for ends below the end of the 39-bit space. */
  lemma ImageFits(pt: PageTables, kernelBase: nat, size: nat)
    requires pt.Valid() && Layout(kernelBase, pt.heap.hi)
    requires pt.Room() >= PAGE * Demand(kernelBase, pt.heap.hi, size)
    ensures USER_BASE + size <= VPNS * PAGE
  {
    Conservation(pt.heap.lo, pt.heap.Pages(), pt.heap.Abs());
    var tables := TableCount(AllVpns(kernelBase, pt.heap.hi, size));
    assert PAGE * Demand(kernelBase, pt.heap.hi, size) == PAGE * (1 + tables) + PAGE * PageCount(size);
    assert size <= PAGE * PageCount(size);
  }

  /** The memory side of `create_process`: a root table, the kernel, the devices, the image. */
  method BuildSpace(pt: PageTables, kernelBase: nat, image: seq<Byte>)
    returns (root: nat, ghost pages: Pages, ghost fs: seq<nat>)
    requires pt.Valid() && Layout(kernelBase, pt.heap.hi)
    requires pt.Room() >= PAGE * Demand(kernelBase, pt.heap.hi, |image|)
    modifies pt, pt.heap`ls, pt.heap`used, pt.heap.ram, pt.heap.heads
    ensures pt.Valid() && root !in old(pt.frames)
    ensures |fs| == PageCount(|image|) && USER_BASE + |image| <= VPNS * PAGE
    ensures pages == KernelPages(kernelBase, pt.heap.hi) + DevicePages(DEVICES) + UserPages(fs)
    ensures Progress(old(pt.Now()), pt.Now(), root, pages, 1 + |fs|)
    ensures Loaded(pt.Now(), root, image, fs)
  {
    ghost var s := pt.Now();
    ghost var all := AllVpns(kernelBase, pt.heap.hi, |image|);
    ImageFits(pt, kernelBase, |image|);
    root := pt.NewRoot();
    EmptyBuilt(s, pt.Now(), root);
    ghost var base := MapKernel(pt, root, kernelBase, s, all, 1);
    MapDevices(pt, root, s, base, all, 1);
    base := base + DevicePages(DEVICES);
    pages, fs := LoadImage(pt, root, image, s, base, all, 1);
  }

  // ----- What the finished address space holds -----

  /** What is known about the address space of a process: its image, its map, and the frames of its user pages. */
  datatype UserSpace = UserSpace(image: seq<Byte>, pages: Pages, fs: seq<nat>)

  /**
   The address space of a process as `create_process` leaves it: the kernel, the devices and the image. User code's own
   stores to its pages are not part of this.
   */
  ghost predicate Finished(s: Space, root: nat, kernelBase: nat, end: nat, u: UserSpace) {
    && Layout(kernelBase, end) && USER_BASE + |u.image| <= VPNS * PAGE
    && |u.fs| == PageCount(|u.image|)
    && u.pages == KernelPages(kernelBase, end) + DevicePages(DEVICES) + UserPages(u.fs)
    && IsRoot(s.frames, root) && Maps(s.m, root, u.pages)
    && Loaded(s, root, u.image, u.fs)
  }

  /** An address space is unaffected by building another one. */
  lemma FinishedKept(s: Space, t: Space, newRoot: nat, root: nat, kernelBase: nat, end: nat, u: UserSpace)
    requires Finished(s, root, kernelBase, end, u) && Kept(s, t, newRoot) && newRoot != root
    ensures Finished(t, root, kernelBase, end, u)
  {
    LoadedKept(s, t, newRoot, root, u.image, u.fs);
    forall v: nat | v < VPNS
      ensures Walk(t.m, root, v) == if v in u.pages then Some(u.pages[v]) else None
    {
      assert Walk(t.m, root, v) == Walk(s.m, root, v);
      assert Walk(s.m, root, v) == if v in u.pages then Some(u.pages[v]) else None;
    }
  }

  lemma UserWalk(s: Space, root: nat, kernelBase: nat, end: nat, u: UserSpace, k: nat)
    requires Finished(s, root, kernelBase, end, u) && k < |u.fs|
    ensures USER_BASE / PAGE + k < VPNS
    ensures Walk(s.m, root, USER_BASE / PAGE + k) == Some(LeafPte(u.fs[k], USER_FLAGS))
    ensures LoadedPage(s, root, u.fs[k], k, Chunk(u.image, k))
  {
    UserPageArgs(|u.image|, k);
    var v := USER_BASE / PAGE + k;
    assert v in UserPages(u.fs) && UserPages(u.fs)[v] == LeafPte(u.fs[k], USER_FLAGS);
  }

  lemma TranslateIs(m: Memory, root: nat, va: nat, pte: nat)
    requires Walk(m, root, Vpn(va)) == Some(pte)
    ensures Translate(m, root, va) == LeafAddr(pte, va)
  {
  }

  /** The address of byte `i` of a user page. */
  lemma UserTranslate(s: Space, root: nat, f: nat, k: nat, i: nat)
    requires i < PAGE && USER_BASE / PAGE + k < VPNS && Encodable(f)
    requires Walk(s.m, root, USER_BASE / PAGE + k) == Some(LeafPte(f, USER_FLAGS))
    ensures Translate(s.m, root, USER_BASE + k * PAGE + i) == f + i
  {
    var va := USER_BASE + k * PAGE + i;
    var v := USER_BASE / PAGE + k;
    DivModUnique(va, PAGE, v, i);
    DivModUnique(v, VPNS, 0, v);
    assert Vpn(va) == v;
    TranslateIs(s.m, root, va, LeafPte(f, USER_FLAGS));
    LeafRoundTrip(f, USER_FLAGS, va);
  }

  lemma PageReads(s: Space, root: nat, image: seq<Byte>, f: nat, k: nat, o: nat)
    requires k < PageCount(|image|) && o < PAGE && USER_BASE / PAGE + k < VPNS
    requires Walk(s.m, root, USER_BASE / PAGE + k) == Some(LeafPte(f, USER_FLAGS))
    requires LoadedPage(s, root, f, k, Chunk(image, k))
    ensures var x := Translate(s.m, root, USER_BASE + k * PAGE + o);
      x != 0 && s.m.At(x) == if k * PAGE + o < |image| then image[k * PAGE + o] else 0
  {
    UserTranslate(s, root, f, k, o);
    ChunkByte(image, k, o);
    PageByte(s, root, image, f, k, o);
  }

  lemma PageByte(s: Space, root: nat, image: seq<Byte>, f: nat, k: nat, o: nat)
    requires k < PageCount(|image|) && o < PAGE && k * PAGE <= |image| && LoadedPage(s, root, f, k, Chunk(image, k))
    ensures s.m.At(f + o) == if k * PAGE + o < |image| then image[k * PAGE + o] else 0
  {
    ChunkByte(image, k, o);
    var x: int := f + o;
    assert s.m.At(x) == if x - f < |Chunk(image, k)| then Chunk(image, k)[x - f] else 0;
  }

  lemma ChunkByte(image: seq<Byte>, k: nat, o: nat)
    requires k < PageCount(|image|) && o < PAGE
    ensures k * PAGE <= |image|
    ensures o < |Chunk(image, k)| <==> k * PAGE + o < |image|
    ensures o < |Chunk(image, k)| ==> Chunk(image, k)[o] == image[k * PAGE + o]
  {
  }

  /** Frame `f` is page `k` of the image, and the page table of `root` leads to it. */
  ghost predicate ImagePage(s: Space, root: nat, image: seq<Byte>, f: nat, k: nat) {
    && k < PageCount(|image|) && USER_BASE / PAGE + k < VPNS
    && Walk(s.m, root, USER_BASE / PAGE + k) == Some(LeafPte(f, USER_FLAGS))
    && LoadedPage(s, root, f, k, Chunk(image, k))
  }

  lemma ImageFrame(s: Space, root: nat, kernelBase: nat, end: nat, u: UserSpace, k: nat) returns (f: nat)
    requires Finished(s, root, kernelBase, end, u) && k < |u.fs|
    ensures ImagePage(s, root, u.image, f, k)
  {
    f := u.fs[k];
    UserWalk(s, root, kernelBase, end, u, k);
  }

  /** What `vaddr_to_paddr` leads to at byte `i` of the image, or of the rest of its last page. */
  lemma ImageByte(s: Space, root: nat, image: seq<Byte>, f: nat, i: nat)
    requires ImagePage(s, root, image, f, i / PAGE)
    ensures Translate(s.m, root, USER_BASE + i) != 0
    ensures s.m.At(Translate(s.m, root, USER_BASE + i)) == if i < |image| then image[i] else 0
  {
    var k, o := i / PAGE, i % PAGE;
    PageReads(s, root, image, f, k, o);
    assert USER_BASE + i == USER_BASE + k * PAGE + o;
  }

  /**
   End to end: every byte of the image, read at the physical address that the page table gives for its user address,
   is the byte of the image, and the rest of the page that the last byte is in is zero. User space starts at 16 MiB.
   */
  lemma ImageReadsBack(s: Space, root: nat, kernelBase: nat, end: nat, u: UserSpace, i: nat)
    requires Finished(s, root, kernelBase, end, u) && i - i % 4096 < |u.image|
    ensures Translate(s.m, root, 0x100_0000 + i) != 0
    ensures s.m.At(Translate(s.m, root, 0x100_0000 + i)) == if i < |u.image| then u.image[i] else 0
  {
    PagesHoldImage(|u.image|, i / PAGE);
    var f := ImageFrame(s, root, kernelBase, end, u, i / PAGE);
    ImageByte(s, root, u.image, f, i);
  }

  /** Pages that translate to themselves, with the given permissions. */
  ghost predicate MappedToItself(m: Memory, root: nat, v: nat, flags: nat) {
    && Walk(m, root, v) == Some(LeafPte(v * PAGE, flags))
    && forall va: nat {:trigger Translate(m, root, va)} :: va / PAGE == v ==> Translate(m, root, va) == va
  }

  lemma Itself(m: Memory, root: nat, v: nat, flags: nat)
    requires v < VPNS && flags < 1024 && Walk(m, root, v) == Some(LeafPte(v * PAGE, flags))
    ensures MappedToItself(m, root, v, flags)
  {
    forall va: nat | va / PAGE == v
      ensures Translate(m, root, va) == va
    {
      ItselfAt(m, root, va, flags);
    }
  }

  lemma ItselfAt(m: Memory, root: nat, va: nat, flags: nat)
    requires va / PAGE < VPNS && flags < 1024 && Walk(m, root, va / PAGE) == Some(LeafPte(va / PAGE * PAGE, flags))
    ensures Translate(m, root, va) == va
  {
    var v := va / PAGE;
    DivModUnique(v, VPNS, 0, v);
    TranslateIs(m, root, va, LeafPte(v * PAGE, flags));
    DivModUnique(v * PAGE, PAGE, v, 0);
    LeafRoundTrip(v * PAGE, flags, va);
  }

  /** A page that is not in the image. */
  lemma NoUserPage(size: nat, v: nat)
    requires v * PAGE < USER_BASE || USER_BASE + size <= v * PAGE
    ensures v !in UserVpns(size)
  {
    if v >= USER_BASE / PAGE {
      PagesHoldImage(size, v - USER_BASE / PAGE);
    }
  }

  /**
   Every page of RAM from the kernel's base on and each of the eight device pages from 0x10001000 on translates to
   itself, unless the image is so large that it reaches that page; and no other page outside the image is mapped.
   */
  lemma KernelTranslates(s: Space, root: nat, kernelBase: nat, end: nat, u: UserSpace, v: nat)
    requires Finished(s, root, kernelBase, end, u) && (v * 4096 < 0x100_0000 || 0x100_0000 + |u.image| <= v * 4096)
    ensures kernelBase <= v * 4096 < end ==> MappedToItself(s.m, root, v, KERNEL_FLAGS)
    ensures 0x1_0001 <= v < 0x1_0009 ==> MappedToItself(s.m, root, v, DEVICE_FLAGS)
    ensures !(kernelBase <= v * 4096 < end) && !(0x1_0001 <= v < 0x1_0009) && v < VPNS ==> Walk(s.m, root, v) == None
  {
    var kernel, devices := KernelPages(kernelBase, end), DevicePages(DEVICES);
    NoUserPage(|u.image|, v);
    assert UserPages(u.fs).Keys == UserVpns(|u.image|);
    if kernelBase <= v * PAGE < end {
      assert v in kernel && v !in devices && v in u.pages;
      Itself(s.m, root, v, KERNEL_FLAGS);
    }
    if 0x1_0001 <= v < 0x1_0009 {
      assert v in devices && v in u.pages;
      Itself(s.m, root, v, DEVICE_FLAGS);
    }
  }
}
