/** Byte-addressed memory as a value, with little-endian 64-bit words. */
module Memories {
  import opened Arithmetic

  type Byte = b: nat | b < 256

  /** The bytes from address `base` on. Anything outside reads as zero. */
  datatype Memory = Memory(base: nat, bytes: seq<Byte>) {
    function At(x: int): Byte {
      if base <= x < base + |bytes| then bytes[x - base] else 0
    }

    /** The little-endian number in the `n` bytes from `a` on. */
    function Number(a: nat, n: nat): nat
      decreases n, a
    {
      if n == 0 then 0 else At(a) + 256 * Number(a + 1, n - 1)
    }

    /** `*(uint64_t *) a`. */
    function Word(a: nat): nat {
      Number(a, 8)
    }
  }

  /** Byte `i` of `v`, counting from the least significant. */
  function Digit(v: nat, i: nat): Byte
    decreases i
  {
    if i == 0 then v % 256 else Digit(v / 256, i - 1)
  }

  function Pow256(n: nat): (r: nat)
    ensures r > 0
  {
    if n == 0 then 1 else 256 * Pow256(n - 1)
  }

  /** `m1` differs from `m` at most in the `n` bytes from `a` on. */
  ghost predicate SameOutside(m: Memory, m1: Memory, a: nat, n: nat) {
    && m1.base == m.base && |m1.bytes| == |m.bytes|
    && forall x: int :: x < a || a + n <= x ==> m1.At(x) == m.At(x)
  }

  lemma {:induction false} NumberSame(m: Memory, m1: Memory, a: nat, n: nat)
    requires forall x :: a <= x < a + n ==> m1.At(x) == m.At(x)
    ensures m1.Number(a, n) == m.Number(a, n)
    decreases n
  {
    if n > 0 {
      NumberSame(m, m1, a + 1, n - 1);
    }
  }

  lemma WordOutside(m: Memory, m1: Memory, a: nat, n: nat, x: nat)
    requires SameOutside(m, m1, a, n) && (x + 8 <= a || a + n <= x)
    ensures m1.Word(x) == m.Word(x)
  {
    NumberSame(m, m1, x, 8);
  }

  lemma {:induction false} NumberDigits(m: Memory, a: nat, n: nat, v: nat)
    requires v < Pow256(n)
    requires forall i: nat :: i < n ==> m.At(a + i) == Digit(v, i)
    ensures m.Number(a, n) == v
    decreases n
  {
    if n > 0 {
      assert m.At(a + 0) == Digit(v, 0);
      forall i: nat | i < n - 1
        ensures m.At(a + 1 + i) == Digit(v / 256, i)
      {
        assert m.At(a + (i + 1)) == Digit(v, i + 1);
      }
      NumberDigits(m, a + 1, n - 1, v / 256);
    }
  }

  lemma {:induction false} NumberBound(m: Memory, a: nat, n: nat)
    ensures m.Number(a, n) < Pow256(n)
    decreases n
  {
    if n > 0 {
      NumberBound(m, a + 1, n - 1);
    }
  }

  lemma WordBound(m: Memory, a: nat)
    ensures m.Word(a) < TWO64
  {
    NumberBound(m, a, 8);
    assert Pow256(8) == TWO64;
  }

  lemma {:induction false} NumberZero(m: Memory, a: nat, n: nat)
    requires forall x :: a <= x < a + n ==> m.At(x) == 0
    ensures m.Number(a, n) == 0
    decreases n
  {
    if n > 0 {
      NumberZero(m, a + 1, n - 1);
    }
  }

  lemma NumberStep(m: Memory, a: nat, n: nat)
    requires n > 0
    ensures m.Number(a, n) == m.At(a) + 256 * m.Number(a + 1, n - 1)
  {
  }

  /** The eight bytes of a word, the least significant first. */
  lemma WordBytes(m: Memory, a: nat)
    ensures m.Word(a)
         == m.At(a) + 0x100 * m.At(a + 1) + 0x1_0000 * m.At(a + 2) + 0x100_0000 * m.At(a + 3)
            + 0x1_0000_0000 * m.At(a + 4) + 0x100_0000_0000 * m.At(a + 5) + 0x1_0000_0000_0000 * m.At(a + 6)
            + 0x100_0000_0000_0000 * m.At(a + 7)
  {
    NumberStep(m, a, 8);
    NumberStep(m, a + 1, 7);
    NumberStep(m, a + 2, 6);
    NumberStep(m, a + 3, 5);
    NumberStep(m, a + 4, 4);
    NumberStep(m, a + 5, 3);
    NumberStep(m, a + 6, 2);
    NumberStep(m, a + 7, 1);
  }

  /** What a 64-bit store leaves behind. */
  ghost predicate Stored(m: Memory, m1: Memory, a: nat, v: nat) {
    SameOutside(m, m1, a, 8) && m1.Word(a) == v
  }

  /** `*(uint64_t *) a = v`, where `ram[0]` is the byte at address `base`. */
  method Store64(ram: array<Byte>, base: nat, a: nat, v: nat)
    requires base <= a && a + 8 <= base + ram.Length && v < TWO64
    modifies ram
    ensures Stored(old(Memory(base, ram[..])), Memory(base, ram[..]), a, v)
  {
    forall i | 0 <= i < 8 {
      ram[a - base + i] := Digit(v, i);
    }
    ghost var m := Memory(base, ram[..]);
    assert Pow256(8) == TWO64;
    NumberDigits(m, a, 8, v);
  }

  /** `*(uint64_t *) a`. */
  method Load64(ram: array<Byte>, base: nat, a: nat) returns (v: nat)
    requires base <= a && a + 8 <= base + ram.Length
    ensures v == Memory(base, ram[..]).Word(a)
    ensures v < TWO64
  {
    v := 0;
    var i := 8;
    ghost var m := Memory(base, ram[..]);
    while i > 0
      invariant 0 <= i <= 8
      invariant v == m.Number(a + i, 8 - i)
    {
      i := i - 1;
      v := ram[a - base + i] + 256 * v;
      assert m.At(a + i) == ram[a - base + i];
    }
    WordBound(m, a);
  }

  method StoreByte(ram: array<Byte>, base: nat, a: nat, v: Byte)
    requires base <= a < base + ram.Length
    modifies ram
    ensures SameOutside(old(Memory(base, ram[..])), Memory(base, ram[..]), a, 1)
    ensures Memory(base, ram[..]).At(a) == v
  {
    ram[a - base] := v;
  }

  /** The loop of `memset`. */
  method FillBytes(ram: array<Byte>, base: nat, dest: nat, value: nat, n: nat)
    requires base <= dest && dest + n <= base + ram.Length
    modifies ram
    ensures SameOutside(old(Memory(base, ram[..])), Memory(base, ram[..]), dest, n)
    ensures forall x: int :: dest <= x < dest + n ==> Memory(base, ram[..]).At(x) == value % 256
  {
    ghost var m := Memory(base, ram[..]);
    var ptr, left := dest, n;
    while left != 0
      invariant ptr + left == dest + n && dest <= ptr
      invariant SameOutside(m, Memory(base, ram[..]), dest, n)
      invariant forall x: int :: dest <= x < ptr ==> Memory(base, ram[..]).At(x) == value % 256
    {
      StoreByte(ram, base, ptr, value % 256);
      ptr, left := ptr + 1, left - 1;
    }
  }

  /** The loop of `memcpy`, from a source that the destination does not overlap. */
  method CopyBytes(ram: array<Byte>, base: nat, dest: nat, src: seq<Byte>)
    requires base <= dest && dest + |src| <= base + ram.Length
    modifies ram
    ensures SameOutside(old(Memory(base, ram[..])), Memory(base, ram[..]), dest, |src|)
    ensures forall i :: 0 <= i < |src| ==> Memory(base, ram[..]).At(dest + i) == src[i]
  {
    ghost var m := Memory(base, ram[..]);
    var i := 0;
    while i < |src|
      invariant 0 <= i <= |src|
      invariant SameOutside(m, Memory(base, ram[..]), dest, |src|)
      invariant forall j :: 0 <= j < i ==> Memory(base, ram[..]).At(dest + j) == src[j]
    {
      StoreByte(ram, base, dest + i, src[i]);
      i := i + 1;
    }
  }
}
