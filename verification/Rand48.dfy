/**
 The 48-bit linear congruential generator of rand.c: the generator that the drand48() entry of
 POSIX.1-2008 describes, computed on three 16-bit limbs with 32-bit arithmetic.
 */
module Rand48 {
  import opened Bytes
  import Arith

  const A0: u32 := 0xE66D
  const A1: u32 := 0xDEEC
  const A2: u32 := 0x5
  const ADDEND: u32 := 0xB
  const MULTIPLIER: int := 0x5_DEEC_E66D
  const TWO_TO_THE_48: int := 0x1_0000_0000_0000

  /** One step, as POSIX states it. */
  function Advance(x: int): (r: int)
    ensures 0 <= r < TWO_TO_THE_48
  {
    (MULTIPLIER * x + ADDEND) % TWO_TO_THE_48
  }

  function AdvanceBy(x: int, n: nat): int {
    if n == 0 then x else Advance(AdvanceBy(x, n - 1))
  }

  // the inverse of the multiplier modulo 2^48

  const INVERSE: int := 0xDFE0_5BCB_1365

  /** The state before a step. */
  function Retreat(y: int): int {
    INVERSE * (y - ADDEND) % TWO_TO_THE_48
  }

  /** Steps can be undone, so no two states ever merge. */
  lemma RetreatUndoes(x: int)
    requires 0 <= x < TWO_TO_THE_48
    ensures Retreat(Advance(x)) == x
  {
    var q := (MULTIPLIER * x + ADDEND) / TWO_TO_THE_48;
    var y := Advance(x);
    assert y == MULTIPLIER * x + ADDEND - TWO_TO_THE_48 * q;
    assert INVERSE * (y - ADDEND) == TWO_TO_THE_48 * (22050866921 * x - INVERSE * q) + x;
    Arith.RemainderUnique(INVERSE * (y - ADDEND), TWO_TO_THE_48, 22050866921 * x - INVERSE * q, x);
  }

  /** Conversion to int32_t. */
  function ToInt32(v: int): int {
    var w := v % TWO_TO_THE_32;
    if w >= 0x8000_0000 then w - TWO_TO_THE_32 else w
  }

  /** LOW: the low 16 bits of a number, negative or not. */
  function LowHalf(v: int): (r: u32)
    ensures r < 0x1_0000 && (0 <= v < 0x1_0000 ==> r == v)
  {
    v % 0x1_0000
  }

  /** HIGH: the next 16 bits, by an arithmetic shift. */
  function HighHalf(v: int): u32 {
    v / 0x1_0000 % 0x1_0000
  }

  function Carry(x: int, y: int): u32 {
    if x + y > 0xffff then 1 else 0
  }

  lemma ProductFits(x: int, y: int)
    requires 0 <= x < 0x1_0000 && 0 <= y < 0x1_0000
    ensures 0 <= x * y < TWO_TO_THE_32
  {
    if x > 0 {
      Arith.TimesBelow(x, y, 0x1_0000);
    }
  }

  lemma CarryOut(x: u32, y: u32)
    requires x < 0x1_0000 && y < 0x1_0000
    ensures LowHalf(x + y) + 0x1_0000 * Carry(x, y) == x + y
  {}

  /** MUL: a product of limbs, truncated to a signed 32-bit number and split again. */
  method Mul(x: u32, y: u32) returns (low: u32, high: u32)
    requires x < 0x1_0000 && y < 0x1_0000
    ensures low < 0x1_0000 && high < 0x1_0000 && low + 0x1_0000 * high == x * y
  {
    ProductFits(x, y);
    var l := ToInt32(x * y);
    low, high := LowHalf(l), HighHalf(l);
  }

  /** ADDEQU: adds to a limb and says whether it overflowed. */
  method AddTo(x: u32, y: u32) returns (sum: u32, carry: u32)
    requires x < 0x1_0000 && y < 0x1_0000
    ensures sum < 0x1_0000 && carry <= 1 && sum + 0x1_0000 * carry == x + y
  {
    carry := Carry(x, y);
    sum := LowHalf(x + y);
  }

  /** Limbs of the product, least significant first, whose carries beyond 48 bits are dropped. */
  lemma Assembled(x0: int, x1: int, x2: int, y0: int, y1: int, y2: int, rest: int)
    requires y0 + 0x1_0000 * y1 + 0x1_0000_0000 * rest == A0 * x0 + ADDEND + 0x1_0000 * (A0 * x1 + A1 * x0)
    requires y2 == (rest + A0 * x2 + A1 * x1 + A2 * x0) % 0x1_0000
    requires 0 <= y0 < 0x1_0000 && 0 <= y1 < 0x1_0000
    ensures y0 + 0x1_0000 * y1 + 0x1_0000_0000 * y2 == Advance(x0 + 0x1_0000 * x1 + 0x1_0000_0000 * x2)
  {
    var x := x0 + 0x1_0000 * x1 + 0x1_0000_0000 * x2;
    var y := y0 + 0x1_0000 * y1 + 0x1_0000_0000 * y2;
    var top := rest + A0 * x2 + A1 * x1 + A2 * x0;
    var q := top / 0x1_0000 + A1 * x2 + A2 * x1 + 0x1_0000 * (A2 * x2);
    assert MULTIPLIER * x + ADDEND == TWO_TO_THE_48 * q + y;
    Arith.RemainderUnique(MULTIPLIER * x + ADDEND, TWO_TO_THE_48, q, y);
  }

  class Generator {
    const x: array<u32>

    const a: array<u32>
    var c: u32

    ghost predicate Valid()
      reads this, x, a
    {
      && x.Length == 3 && a.Length == 3 && x != a
      && x[0] < 0x1_0000 && x[1] < 0x1_0000 && x[2] < 0x1_0000
      && a[0] == A0 && a[1] == A1 && a[2] == A2 && c == ADDEND
    }

    /** The 48-bit state. */
    ghost function State(): (s: int)
      requires Valid()
      reads this, x, a
      ensures 0 <= s < TWO_TO_THE_48
    {
      x[0] as int + 0x1_0000 * x[1] as int + 0x1_0000_0000 * x[2] as int
    }

    constructor ()
      ensures Valid() && fresh(x) && fresh(a)
      ensures State() == 0x1234_ABCD_330E
    {
      var limbs, factors := new u32[3], new u32[3];
      limbs[0], limbs[1], limbs[2] := 0x330E, 0xABCD, 0x1234;
      factors[0], factors[1], factors[2] := A0, A1, A2;
      x, a, c := limbs, factors, ADDEND;
    }

    /** The top limb: a sum of products in unsigned 32-bit arithmetic, of which 16 bits are kept. */
    method Top(rest: int, x0: int, x1: int, x2: int) returns (y2: u32)
      requires Valid()
      ensures y2 == (rest + A0 * x2 + A1 * x1 + A2 * x0) % 0x1_0000
    {
      var t := rest + a[0] as int * x2 + a[1] as int * x1 + a[2] as int * x0;
      y2 := LowHalf(t % TWO_TO_THE_32);
    }

    method Next()
      requires Valid()
      modifies x
      ensures Valid() && State() == Advance(old(State()))
    {
      hide LowHalf, Carry, Advance;
      ghost var x0: int, x1: int, x2: int := x[0], x[1], x[2];
      var p0, p1 := Mul(a[0], x[0]);
      assert p0 + 0x1_0000 * p1 == A0 * x0;
      var carry0, carry1;
      p0, carry0 := AddTo(p0, c);
      p1, carry1 := AddTo(p1, carry0);
      var q0, q1 := Mul(a[0], x[1]);
      assert q0 + 0x1_0000 * q1 == A0 * x1;
      p1, carry0 := AddTo(p1, q0);
      var r0, r1 := Mul(a[1], x[0]);
      assert r0 + 0x1_0000 * r1 == A1 * x0;
      CarryOut(p1, r0);
      var rest: int := carry0 + carry1 + Carry(p1, r0) + q1 + r1;
      assert p0 + 0x1_0000 * LowHalf(p1 + r0) + 0x1_0000_0000 * rest
          == A0 * x0 + ADDEND + 0x1_0000 * (A0 * x1 + A1 * x0);
      x[2] := Top(rest, x[0], x[1], x[2]);
      x[1] := LowHalf(p1 + r0);
      x[0] := LowHalf(p0);
      Assembled(x0, x1, x2, x[0], x[1], x[2], rest);
    }

    /** A non-negative number below 2^31: the top bits of the new state. */
    method RedisLrand48() returns (r: int)
      requires Valid()
      modifies x
      ensures Valid() && State() == Advance(old(State()))
      ensures 0 <= r < 0x8000_0000 && r == State() / 0x2_0000
    {
      Next();
      r := x[2] * 0x8000 + x[1] / 2;
    }

    /** The seed becomes the top 32 bits of the state. */
    method RedisSrand48(seedval: int)
      requires -0x8000_0000 <= seedval < 0x8000_0000
      requires Valid()
      modifies this, x, a
      ensures Valid() && State() == seedval % TWO_TO_THE_32 * 0x1_0000 + 0x330E
    {
      x[0], x[1], x[2] := 0x330E, LowHalf(seedval), HighHalf(seedval);
      a[0], a[1], a[2] := A0, A1, A2;
      c := ADDEND;
    }
  }

  /** The numbers that a freshly seeded generator gives. */
  method Draw(g: Generator, seedval: int, n: nat) returns (drawn: seq<int>)
    requires -0x8000_0000 <= seedval < 0x8000_0000 && g.Valid()
    modifies g, g.x, g.a
    ensures |drawn| == n
    ensures var s := seedval % TWO_TO_THE_32 * 0x1_0000 + 0x330E;
            forall i :: 0 <= i < n ==> drawn[i] == AdvanceBy(s, i + 1) / 0x2_0000
  {
    g.RedisSrand48(seedval);
    ghost var s := g.State();
    drawn := [];
    while |drawn| < n
      invariant |drawn| <= n && g.Valid() && g.State() == AdvanceBy(s, |drawn|)
      invariant forall i :: 0 <= i < |drawn| ==> drawn[i] == AdvanceBy(s, i + 1) / 0x2_0000
    {
      var r := g.RedisLrand48();
      drawn := drawn + [r];
    }
  }
}
