/** Sets of blocks that cut a stretch of memory into pieces without gap or overlap. */
module Tiling {
  import opened Buddy

  ghost predicate InRange(u: set<Block>, lo: nat, hi: nat) {
    forall b :: b in u ==>
      b.order <= MAX_ORDER && lo <= b.addr && b.addr + Size(b.order) <= hi && b.addr % PAGE == 0
  }

  ghost predicate PairwiseApart(u: set<Block>) {
    forall b, c :: b in u && c in u && b != c ==> b.Apart(c)
  }

  ghost predicate Covered(u: set<Block>, x: nat) {
    exists b :: b in u && b.Has(x)
  }

  /** Every byte of `[lo, hi)` lies in exactly one block of `u`, and every block is page aligned. */
  ghost predicate Tiles(u: set<Block>, lo: nat, hi: nat) {
    && InRange(u, lo, hi)
    && PairwiseApart(u)
    && forall x :: lo <= x < hi ==> Covered(u, x)
  }

  function Left(b: Block): Block
    requires b.order > 0
  {
    Block(b.addr, b.order - 1)
  }

  function Right(b: Block): Block
    requires b.order > 0
  {
    Block(b.addr + Size(b.order - 1), b.order - 1)
  }

  lemma HalvesFit(b: Block)
    requires b.order > 0
    ensures forall x :: b.Has(x) <==> Left(b).Has(x) || Right(b).Has(x)
    ensures Left(b).Apart(Right(b)) && Left(b) != Right(b)
    ensures forall c: Block :: b.Apart(c) ==>
              Left(b).Apart(c) && Right(b).Apart(c) && c.Apart(Left(b)) && c.Apart(Right(b))
    ensures forall c: Block :: Left(b).Apart(c) && Right(b).Apart(c) ==> b.Apart(c) && c.Apart(b)
  {
    assert Size(b.order) == 2 * Size(b.order - 1);
  }

  lemma HalvesPaged(b: Block)
    requires b.order > 0
    ensures b.addr % PAGE == 0 ==> Right(b).addr % PAGE == 0
  {
    SizePaged(b.order - 1);
  }

  /** The set after cutting `b` into its halves. */
  ghost function Cut(u: set<Block>, b: Block): set<Block>
    requires b.order > 0
  {
    u - {b} + {Left(b), Right(b)}
  }

  /** The set after joining the halves of `b`. */
  ghost function Joined(u: set<Block>, b: Block): set<Block>
    requires b.order > 0
  {
    u - {Left(b), Right(b)} + {b}
  }

  lemma CutTiles(u: set<Block>, b: Block, lo: nat, hi: nat)
    requires Tiles(u, lo, hi) && b in u && b.order > 0
    ensures Tiles(Cut(u, b), lo, hi)
    ensures Left(b) !in u && Right(b) !in u
  {
    HalvesFit(b);
    HalvesPaged(b);
    forall x | lo <= x < hi
      ensures Covered(Cut(u, b), x)
    {
      assert Covered(u, x);
      var d :| d in u && d.Has(x);
      if d == b {
        assert Left(b).Has(x) || Right(b).Has(x);
      } else {
        assert d in Cut(u, b);
      }
    }
  }

  lemma JoinTiles(u: set<Block>, b: Block, lo: nat, hi: nat)
    requires Tiles(u, lo, hi) && 0 < b.order <= MAX_ORDER && Left(b) in u && Right(b) in u
    ensures Tiles(Joined(u, b), lo, hi)
    ensures b !in u
  {
    HalvesFit(b);
    forall x | lo <= x < hi
      ensures Covered(Joined(u, b), x)
    {
      assert Covered(u, x);
      var d :| d in u && d.Has(x);
      if d == Left(b) || d == Right(b) {
        assert b.Has(x);
      } else {
        assert d in Joined(u, b);
      }
    }
  }
}
