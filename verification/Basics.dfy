/** Machine words and small facts used throughout. */
module Basics {

  type u8 = x: nat | x < 256
  type u16 = x: nat | x < 0x1_0000
  type u32 = x: nat | x < 0x1_0000_0000

  /** One more than the largest 32-bit value. */
  const WORD: nat := 0x1_0000_0000

  /** A C `int` after wrap-around. */
  function Int32(x: int): (r: int)
    ensures 0 <= x < 0x8000_0000 ==> r == x
  {
    var m := x % 0x1_0000_0000;
    if m < 0x8000_0000 then m else m - 0x1_0000_0000
  }

  /** The value of an `int` that is congruent modulo 2^32. */
  lemma Int32Is(x: int)
    ensures -0x8000_0000 <= Int32(x) < 0x8000_0000 && (x - Int32(x)) % 0x1_0000_0000 == 0
  {
  }

  lemma Int32Add(x: int, y: int)
    ensures Int32(Int32(x) + y) == Int32(x + y)
  {
  }

  /** A byte as a number that may be multiplied. */
  function Nat(b: u8): nat {
    b
  }

  /** A little-endian word. */
  function FromLe32(s: seq<u8>): (x: nat)
    requires |s| == 4
    ensures x < WORD
  {
    Nat(s[0]) + 256 * Nat(s[1]) + 65536 * Nat(s[2]) + 16777216 * Nat(s[3])
  }

  lemma {:induction false} NonNegative(x: int, y: int)
    requires x >= 0 && y >= 0
    ensures x * y >= 0
  {
    if x != 0 {
      NonNegative(x - 1, y);
      assert x * y == (x - 1) * y + y;
    }
  }

  lemma Twice(x: int, y: int)
    ensures x * (2 * y) == 2 * (x * y)
  {
  }

  lemma SubsetCard<T>(a: set<T>, b: set<T>)
    requires a <= b
    ensures |a| <= |b| && (|a| == |b| ==> a == b)
  {
    assert b == a + (b - a);
  }

  /** Invariants quantified over `Parts` stay folded until an instance of it is asserted, which keeps proofs that
      only pass them along from looking inside. */
  ghost predicate Parts(i: int) { true }

  /** The same for invariants about `x` that are also not to be proved by looking inside: an instance of `Inward`
      opens one that is known, and an instance of `Outward` one that is to be shown. */
  ghost predicate Inward<T>(i: int, x: T) { true }

  ghost predicate Outward<T>(j: int, x: T) { true }
}
