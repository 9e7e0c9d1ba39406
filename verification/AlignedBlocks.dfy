/**
 Powers of two, right shifts and aligned power-of-two blocks.

 A block `(i, o)` is the interval `[i, i + 2^o)` with `i` a multiple of `2^o`.
 Membership in an aligned block is equality of shifted indices, which makes the
 laminar structure of aligned blocks (any two are nested or disjoint) a fact
 about iterated halving.
 */
module AlignedBlocks {

  function Pow2(k: nat): (p: nat)
    ensures k < p
  {
    if k == 0 then 1 else 2 * Pow2(k - 1)
  }

  /** `e >> k` */
  function Shr(e: nat, k: nat): nat {
    if k == 0 then e else Shr(e, k - 1) / 2
  }

  ghost predicate Aligned(i: nat, o: nat) {
    Shr(i, o) * Pow2(o) == i
  }

  ghost predicate In(e: int, i: nat, o: nat) {
    i <= e < i + Pow2(o)
  }

  /** Start of the aligned block of order `o` that contains `e`. */
  ghost function Base(e: nat, o: nat): nat {
    Shr(e, o) * Pow2(o)
  }

  /** `i ^ (1 << o)`: flipping one bit adds or subtracts that power of two. */
  function Buddy(i: nat, o: nat): int {
    if Shr(i, o) % 2 == 0 then i + Pow2(o) else i - Pow2(o)
  }

  lemma Doubling(s: nat, p: nat)
    ensures (2 * s) * p == s * (2 * p) && (2 * s + 1) * p == s * (2 * p) + p
  {
  }

  lemma {:induction false} ShrRange(e: nat, k: nat, s: nat)
    ensures Shr(e, k) == s <==> s * Pow2(k) <= e < s * Pow2(k) + Pow2(k)
  {
    if k != 0 {
      ShrRange(e, k - 1, 2 * s);
      ShrRange(e, k - 1, 2 * s + 1);
      Doubling(s, Pow2(k - 1));
    }
  }

  lemma {:induction false} ShrMono(x: nat, e: nat, o: nat, p: nat)
    requires Shr(x, o) == Shr(e, o) && o <= p
    ensures Shr(x, p) == Shr(e, p)
  {
    if o < p {
      ShrMono(x, e, o, p - 1);
    }
  }

  lemma Multiple(s: nat, o: nat)
    ensures Shr(s * Pow2(o), o) == s
  {
    ShrRange(s * Pow2(o), o, s);
  }

  lemma {:induction false} Pow2Mono(a: nat, b: nat)
    requires a <= b
    ensures Pow2(a) <= Pow2(b)
  {
    if a < b {
      Pow2Mono(a, b - 1);
    }
  }

  lemma WordPowers()
    ensures Pow2(16) == 0x1_0000 && Pow2(31) == 0x8000_0000 && Pow2(32) == 0x1_0000_0000
  {
    assert Pow2(8) == 256;
    assert Pow2(16) == 65536;
    assert Pow2(24) == 0x100_0000;
    assert Pow2(30) == 0x4000_0000;
  }

  lemma {:induction false} AlignedDown(i: nat, o: nat, p: nat)
    requires Aligned(i, p) && o <= p
    ensures Aligned(i, o)
  {
    if o < p {
      var s := Shr(i, p);
      assert i == (2 * s) * Pow2(p - 1);
      Multiple(2 * s, p - 1);
      AlignedDown(i, o, p - 1);
    }
  }

  lemma InShr(e: nat, i: nat, o: nat)
    requires Aligned(i, o)
    ensures In(e, i, o) <==> Shr(e, o) == Shr(i, o)
  {
    ShrRange(e, o, Shr(i, o));
  }

  lemma BaseIn(e: nat, o: nat)
    ensures Aligned(Base(e, o), o) && In(e, Base(e, o), o)
  {
    Multiple(Shr(e, o), o);
    ShrRange(e, o, Shr(e, o));
  }

  /** Aligned blocks that share an entry are nested. */
  lemma Nested(i: nat, o: nat, j: nat, p: nat, e: nat)
    requires Aligned(i, o) && Aligned(j, p) && o <= p
    requires In(e, i, o) && In(e, j, p)
    ensures j <= i && i + Pow2(o) <= j + Pow2(p)
    ensures o == p ==> i == j
  {
    InShr(e, i, o);
    InShr(e, j, p);
    var last := i + Pow2(o) - 1;
    InShr(i, i, o);
    InShr(last, i, o);
    ShrMono(i, e, o, p);
    ShrMono(last, e, o, p);
    InShr(i, j, p);
    InShr(last, j, p);
  }

  /** A block of order `o + 1` at slot `t` has its halves at slots `2t` and `2t + 1`. */
  lemma Slots(t: nat, o: nat)
    ensures t * Pow2(o + 1) == (2 * t) * Pow2(o)
    ensures (2 * t + 1) * Pow2(o) == t * Pow2(o + 1) + Pow2(o)
  {
  }

  /** The two halves of a block, and how the buddy index relates them. */
  lemma Halves(i: nat, o: nat)
    requires Aligned(i, o)
    ensures Aligned(Base(i, o + 1), o + 1) && Aligned(Base(i, o + 1), o)
    ensures Shr(i, o) % 2 == 0 ==> i == Base(i, o + 1) && Buddy(i, o) == Base(i, o + 1) + Pow2(o)
    ensures Shr(i, o) % 2 == 1 ==> i == Base(i, o + 1) + Pow2(o) && Buddy(i, o) == Base(i, o + 1)
    ensures Buddy(i, o) >= 0 && Aligned(Buddy(i, o), o)
    ensures Base(Buddy(i, o), o + 1) == Base(i, o + 1)
  {
    var s, p := Shr(i, o), Pow2(o);
    var t := s / 2;
    Slots(t, o);
    Multiple(t, o + 1);
    Multiple(2 * t, o);
    Multiple(2 * t + 1, o);
    assert Base(i, o + 1) == t * Pow2(o + 1);
    if s % 2 == 0 {
      assert s == 2 * t;
    } else {
      assert s == 2 * t + 1;
    }
  }
}
