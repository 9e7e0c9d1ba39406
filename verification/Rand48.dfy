/**
 The 48-bit linear congruential generator in 16-bit limbs:
 `bionic/libc/bionic/_rand48.c` and `bionic/libc/bionic/erand48.c`.
 */
module Rand48 {
  import opened Basics
  import opened AlignedBlocks


  const LIMB: nat := 0x1_0000
  const MODULUS: nat := 0x1_0000_0000_0000

  function Value(x0: nat, x1: nat, x2: nat): nat {
    x0 + x1 * LIMB + x2 * WORD
  }

  /** The step on plain numbers. */
  function Step(a: nat, x: nat, c: nat): nat {
    (a * x + c) % MODULUS
  }

  // ----- The limbs

  /** The product of two limbed numbers, column by column. */
  lemma Columns(m0: nat, m1: nat, m2: nat, x0: nat, x1: nat, x2: nat)
    ensures Value(m0, m1, m2) * Value(x0, x1, x2)
         == m0 * x0 + (m0 * x1 + m1 * x0) * LIMB + (m0 * x2 + m1 * x1 + m2 * x0) * WORD
            + (m1 * x2 + m2 * x1 + m2 * x2 * LIMB) * MODULUS
  {
    var x := Value(x0, x1, x2);
    assert Value(m0, m1, m2) * x == m0 * x + (m1 * x) * LIMB + (m2 * x) * WORD;
    Row(m0, x0, x1, x2);
    Row(m1, x0, x1, x2);
    Row(m2, x0, x1, x2);
  }

  lemma Row(m: nat, x0: nat, x1: nat, x2: nat)
    ensures m * Value(x0, x1, x2) == m * x0 + (m * x1) * LIMB + (m * x2) * WORD
  {
    assert m * (x1 * LIMB) == (m * x1) * LIMB;
    assert m * (x2 * WORD) == (m * x2) * WORD;
    assert m * (x0 + x1 * LIMB + x2 * WORD) == m * x0 + m * (x1 * LIMB) + m * (x2 * WORD);
  }

  /** Carrying from column to column in a 32-bit accumulator gives the low three limbs of the sum, even
      when the accumulator wraps around. */
  lemma Carry(p0: nat, p1: nat, p2: nat, high: nat, t0: nat, t1: nat, t2: nat)
    requires p0 < WORD && t0 == p0 % LIMB && t1 == (p0 / LIMB + p1) % WORD % LIMB
    requires t2 == ((p0 / LIMB + p1) % WORD / LIMB + p2) % WORD % LIMB
    ensures Value(t0, t1, t2) == (p0 + p1 * LIMB + p2 * WORD + high * MODULUS) % MODULUS
  {
    var s1 := p0 / LIMB + p1;
    var k1, w1 := s1 / WORD, s1 % WORD;
    var s2 := w1 / LIMB + p2;
    LowLimb(s2, t2);
    assert p0 + p1 * LIMB == t0 + s1 * LIMB;
    assert s1 == k1 * WORD + w1 && w1 == w1 / LIMB * LIMB + t1;
    var q := s2 / LIMB + k1 + high;
    assert p0 + p1 * LIMB + p2 * WORD + high * MODULUS == Value(t0, t1, t2) + q * MODULUS;
    Reduced(q, Value(t0, t1, t2));
  }

  lemma LowLimb(s: nat, t: nat)
    requires t == s % WORD % LIMB
    ensures s == s / LIMB * LIMB + t
  {
  }

  lemma Reduced(q: nat, v: nat)
    requires v < MODULUS
    ensures (v + q * MODULUS) % MODULUS == v
  {
  }

  /** Two limbs multiplied, plus a limb, fit the accumulator. */
  lemma NoWrap(m: u16, x: u16, c: u16)
    ensures m * x + c < WORD
  {
    var d := 0xffff - x;
    assert m * x + m * d == m * 0xffff by {
      assert m * (x + d) == m * x + m * d;
    }
    NonNegative(m, d);
  }

  /** The accumulator of `_dorand48` over the three columns it keeps. */
  method CarryOut(p0: nat, p1: nat, p2: nat, ghost high: nat) returns (t0: u16, t1: u16, t2: u16)
    requires p0 < WORD
    ensures Value(t0, t1, t2) == (p0 + p1 * LIMB + p2 * WORD + high * MODULUS) % MODULUS
  {
    var accu := p0;
    t0 := accu % LIMB;
    accu := accu / LIMB;
    accu := (accu + p1) % WORD;
    t1 := accu % LIMB;
    accu := accu / LIMB;
    accu := (accu + p2) % WORD;
    t2 := accu % LIMB;
    Carry(p0, p1, p2, high, t0, t1, t2);
  }

  method Limbs(m0: nat, m1: nat, m2: nat, x0: nat, x1: nat, x2: nat, add: nat) returns (t0: u16, t1: u16, t2: u16)
    requires m0 < LIMB && x0 < LIMB && add < LIMB
    ensures Value(t0, t1, t2) == Step(Value(m0, m1, m2), Value(x0, x1, x2), add)
  {
    NoWrap(m0, x0, add);
    ghost var high := m1 * x2 + m2 * x1 + m2 * x2 * LIMB;
    t0, t1, t2 := CarryOut(m0 * x0 + add, m0 * x1 + m1 * x0, m0 * x2 + m1 * x1 + m2 * x0, high);
    Columns(m0, m1, m2, x0, x1, x2);
  }

  /** `_dorand48`: the next value is (a X + c) mod 2^48. */
  method DoRand48(xseed: array<u16>, mult: seq<u16>, add: u16)
    requires xseed.Length == 3 && |mult| == 3
    modifies xseed
    ensures Value(xseed[0], xseed[1], xseed[2])
         == Step(Value(mult[0], mult[1], mult[2]), old(Value(xseed[0], xseed[1], xseed[2])), add)
  {
    var t0, t1, t2 := Limbs(mult[0], mult[1], mult[2], xseed[0], xseed[1], xseed[2], add);
    xseed[0], xseed[1], xseed[2] := t0, t1, t2;
  }

  // ----- The step as a map on 48-bit numbers

  lemma OddProduct(a: int, d: int)
    requires a % 2 == 1 && d % 2 != 0
    ensures (a * d) % 2 == 1
  {
    var i := a / 2;
    assert a * d == 2 * (i * d) + d by {
      assert a == 2 * i + 1;
      assert (2 * i + 1) * d == 2 * (i * d) + d;
    }
    Parity(i * d, d);
  }

  lemma Parity(p: int, d: int)
    ensures (2 * p + d) % 2 == d % 2
  {
  }

  /** An odd factor hides no power of two. */
  lemma {:induction false} OddCancels(a: int, d: int, k: nat, n: int) returns (e: int)
    requires a % 2 == 1 && a * d == n * Pow2(k)
    ensures d == e * Pow2(k)
    decreases k
  {
    if k == 0 {
      e := d;
    } else {
      var p := Pow2(k - 1);
      Twice(n, p);
      EvenFactor(a, d, n * p);
      var h := d / 2;
      Twice(a, h);
      e := OddCancels(a, h, k - 1, n);
      Twice(e, p);
    }
  }

  lemma EvenFactor(a: int, d: int, m: int)
    requires a % 2 == 1 && a * d == 2 * m
    ensures d == 2 * (d / 2) && a * (2 * (d / 2)) == 2 * m
  {
    if d % 2 != 0 {
      OddProduct(a, d);
    }
  }

  lemma ModulusIs()
    ensures Pow2(48) == MODULUS
  {
    WordPowers();
    Pow2Add(32, 16);
  }

  lemma {:induction false} Pow2Add(a: nat, b: nat)
    ensures Pow2(a + b) == Pow2(a) * Pow2(b)
  {
    if b != 0 {
      Pow2Add(a, b - 1);
      Twice(Pow2(a), Pow2(b - 1));
    }
  }

  /** With an odd multiplier, such as the default 0x5DEECE66D, no two seeds have the same successor. */
  lemma StepInjective(a: nat, c: nat, x: nat, y: nat)
    requires a % 2 == 1 && x < MODULUS && y < MODULUS && Step(a, x, c) == Step(a, y, c)
    ensures x == y
  {
    var i, j := (a * x + c) / MODULUS, (a * y + c) / MODULUS;
    assert a * (x - y) == (i - j) * MODULUS by {
      assert a * x + c == i * MODULUS + Step(a, x, c);
      assert a * y + c == j * MODULUS + Step(a, y, c);
      assert a * (x - y) == a * x - a * y;
    }
    ModulusIs();
    var e := OddCancels(a, x - y, 48, i - j);
  }

  /** Without it two seeds collide. */
  lemma StepCollides(a: nat, c: nat)
    requires a % 2 == 0
    ensures Step(a, 0, c) == Step(a, MODULUS / 2, c)
  {
    var h := a / 2;
    assert a * (MODULUS / 2) == h * MODULUS;
  }

  // ----- erand48

  /** `erand48`, with `ldexp` exact: the next value divided by 2^48, in [0, 1). */
  method Erand48(xseed: array<u16>, mult: seq<u16>, add: u16) returns (r: real)
    requires xseed.Length == 3 && |mult| == 3
    modifies xseed
    ensures Value(xseed[0], xseed[1], xseed[2])
         == Step(Value(mult[0], mult[1], mult[2]), old(Value(xseed[0], xseed[1], xseed[2])), add)
    ensures r == Value(xseed[0], xseed[1], xseed[2]) as real / MODULUS as real && 0.0 <= r < 1.0
  {
    DoRand48(xseed, mult, add);
    r := xseed[0] as real / 281474976710656.0 + xseed[1] as real / 4294967296.0 + xseed[2] as real / 65536.0;
  }
}
