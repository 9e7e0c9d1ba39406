/**
 What a buddy bitmap means.

 The abstract state is the map `live` from the index of each allocation to its
 order.  Everything else about the bitmap follows from it: the free blocks are
 the maximal aligned power-of-two runs of free entries.  `Represents` says that
 a bitmap stores exactly that structure.
 */
module BuddyBlocks {
  import opened AlignedBlocks

  /** One entry of the bitmap: `struct ba_bits`. */
  datatype Bits = Bits(order: nat, used: bool)

  type Live = map<nat, nat>

  ghost predicate Covered(live: Live, e: nat) {
    exists i :: i in live && In(e, i, live[i])
  }

  ghost predicate FreeRun(n: nat, live: Live, i: nat, o: nat) {
    && Aligned(i, o) && i + Pow2(o) <= n
    && forall e: nat :: In(e, i, o) ==> !Covered(live, e)
  }

  /** A free run whose enclosing block of twice the size is not one. */
  ghost predicate MaxRun(n: nat, live: Live, i: nat, o: nat) {
    FreeRun(n, live, i, o) && !FreeRun(n, live, Base(i, o + 1), o + 1)
  }

  /** The allocations are aligned, inside the region and pairwise disjoint. */
  ghost predicate LiveOk(n: nat, live: Live) {
    && (forall i :: i in live ==> Aligned(i, live[i]) && i + Pow2(live[i]) <= n)
    && (forall i, j :: i in live && j in live && i < j ==> i + Pow2(live[i]) <= j)
  }

  /** Block heads: allocations and maximal free runs. */
  ghost predicate Block(n: nat, live: Live, i: nat, o: nat) {
    (i in live && live[i] == o) || MaxRun(n, live, i, o)
  }

  ghost predicate Represents(cells: seq<Bits>, n: nat, live: Live) {
    && |cells| == n && LiveOk(n, live)
    && (forall i: nat, o: nat :: Block(n, live, i, o) ==> i < n && cells[i] == Bits(o, i in live))
    && (forall i :: 0 <= i < n && cells[i].used ==> i in live)
  }

  // ----- Coverage under a changing set of allocations

  lemma CoveredMore(live: Live, i: nat, o: nat, e: nat)
    requires i !in live
    ensures Covered(live[i := o], e) <==> Covered(live, e) || In(e, i, o)
  {
    var live' := live[i := o];
    if Covered(live', e) {
      var x :| x in live' && In(e, x, live'[x]);
      assert x != i ==> x in live;
    }
    if Covered(live, e) {
      var x :| x in live && In(e, x, live[x]);
      assert x in live' && In(e, x, live'[x]);
    }
    if In(e, i, o) {
      assert i in live' && In(e, i, live'[i]);
    }
  }

  lemma CoveredLess(live: Live, x: nat, e: nat)
    requires x in live
    ensures Covered(live, e) <==> Covered(live - {x}, e) || In(e, x, live[x])
  {
    CoveredMore(live - {x}, x, live[x], e);
    assert (live - {x})[x := live[x]] == live;
  }

  /** No entry lies both in an allocation and in a free run. */
  lemma LiveMeetsNoRun(n: nat, live: Live, i: nat, j: nat, p: nat, e: nat)
    ensures !(i in live && In(e, i, live[i]) && FreeRun(n, live, j, p) && In(e, j, p))
  {
  }

  // ----- Free runs and the maximal ones

  lemma SubRun(n: nat, live: Live, i: nat, o: nat, j: nat, p: nat)
    requires FreeRun(n, live, j, p) && Aligned(i, o)
    requires j <= i && i + Pow2(o) <= j + Pow2(p)
    ensures FreeRun(n, live, i, o)
  {
  }

  /** Every free run lies inside a maximal one. */
  lemma {:induction false} Climb(n: nat, live: Live, i: nat, o: nat) returns (j: nat, p: nat)
    requires FreeRun(n, live, i, o)
    ensures MaxRun(n, live, j, p) && o <= p
    ensures j <= i && i + Pow2(o) <= j + Pow2(p)
    decreases n - o
  {
    var b := Base(i, o + 1);
    Halves(i, o);
    if FreeRun(n, live, b, o + 1) {
      j, p := Climb(n, live, b, o + 1);
    } else {
      j, p := i, o;
    }
  }

  /** A free run that meets a maximal one lies inside it. */
  lemma {:induction false} InsideMax(n: nat, live: Live, i: nat, o: nat, j: nat, p: nat, e: nat)
    requires FreeRun(n, live, i, o) && MaxRun(n, live, j, p)
    requires In(e, i, o) && In(e, j, p)
    ensures o <= p && j <= i && i + Pow2(o) <= j + Pow2(p)
    ensures o == p ==> i == j
  {
    if o <= p {
      Nested(i, o, j, p, e);
    } else {
      var b := Base(j, p + 1);
      Halves(j, p);
      BaseIn(j, p + 1);
      Nested(j, p, i, o, e);
      Nested(b, p + 1, i, o, j);
      SubRun(n, live, b, p + 1, i, o);
    }
  }

  /** Two blocks that share an entry are the same block. */
  lemma BlockUnique(n: nat, live: Live, i: nat, o: nat, j: nat, p: nat, e: nat)
    requires LiveOk(n, live)
    requires Block(n, live, i, o) && Block(n, live, j, p)
    requires In(e, i, o) && In(e, j, p)
    ensures i == j && o == p
  {
    LiveMeetsNoRun(n, live, i, j, p, e);
    LiveMeetsNoRun(n, live, j, i, o, e);
    if MaxRun(n, live, i, o) && MaxRun(n, live, j, p) {
      InsideMax(n, live, i, o, j, p, e);
      InsideMax(n, live, j, p, i, o, e);
    }
  }

  /** Every entry belongs to a block. */
  lemma BlockOf(n: nat, live: Live, e: nat) returns (i: nat, o: nat)
    requires LiveOk(n, live) && e < n
    ensures Block(n, live, i, o) && In(e, i, o)
  {
    if Covered(live, e) {
      i :| i in live && In(e, i, live[i]);
      o := live[i];
    } else {
      Multiple(e, 0);
      assert Aligned(e, 0);
      assert FreeRun(n, live, e, 0);
      i, o := Climb(n, live, e, 0);
    }
  }

  /** The block heads partition `[0, n)`, and each head is aligned to its own size. */
  lemma Partition(n: nat, live: Live, e: nat)
    requires LiveOk(n, live) && e < n
    ensures exists i: nat, o: nat :: Block(n, live, i, o) && In(e, i, o)
    ensures forall i: nat, o: nat, j: nat, p: nat :: Block(n, live, i, o) && In(e, i, o) && Block(n, live, j, p) && In(e, j, p)
                                 ==> i == j && o == p
    ensures forall i: nat, o: nat :: Block(n, live, i, o) ==> Aligned(i, o) && i + Pow2(o) <= n
  {
    var i, o := BlockOf(n, live, e);
    forall i: nat, o: nat, j: nat, p: nat | Block(n, live, i, o) && In(e, i, o) && Block(n, live, j, p) && In(e, j, p)
      ensures i == j && o == p
    {
      BlockUnique(n, live, i, o, j, p, e);
    }
  }

  /** Stepping over a block lands on the next head or on the end. */
  lemma NextHead(n: nat, live: Live, i: nat, o: nat, next: nat) returns (p: nat)
    requires LiveOk(n, live) && Block(n, live, i, o) && next == i + Pow2(o) < n
    ensures Block(n, live, next, p)
  {
    var j;
    j, p := BlockOf(n, live, next);
    if j < next {
      BlockUnique(n, live, i, o, j, p, next - 1);
    }
  }

  // ----- Allocation: carving `(i, o)` out of a maximal run `(i, k)`

  lemma CarveLiveOk(n: nat, live: Live, i: nat, o: nat, k: nat)
    requires LiveOk(n, live) && MaxRun(n, live, i, k) && o <= k
    ensures i !in live && LiveOk(n, live[i := o]) && Aligned(i, o) && FreeRun(n, live, i, o)
  {
    AlignedDown(i, o, k);
    Pow2Mono(o, k);
    SubRun(n, live, i, o, i, k);
    forall j | j in live ensures j + Pow2(live[j]) <= i || i + Pow2(o) <= j {
      LiveMeetsNoRun(n, live, j, i, o, i);
      LiveMeetsNoRun(n, live, j, i, o, j);
    }
  }

  /** A maximal run after the carving is an old one, or a right half split off. */
  lemma CarveMax(n: nat, live: Live, i: nat, o: nat, k: nat, j: nat, q: nat)
    requires LiveOk(n, live) && MaxRun(n, live, i, k) && o <= k
    requires MaxRun(n, live[i := o], j, q)
    ensures (MaxRun(n, live, j, q) && (j + Pow2(q) <= i || i + Pow2(k) <= j))
         || (o <= q < k && j == i + Pow2(q))
  {
    var live' := live[i := o];
    CarveLiveOk(n, live, i, o, k);
    forall e: nat | In(e, j, q) ensures !Covered(live, e) && !In(e, i, o) {
      CoveredMore(live, i, o, e);
    }
    var a, m := Climb(n, live, j, q);
    if a == i {
      BlockUnique(n, live, i, k, a, m, i);
      CarveInside(n, live, i, o, k, j, q);
    } else {
      CarveOutside(n, live, i, o, k, j, q, a, m);
    }
  }

  lemma CarveKeepsRun(n: nat, live: Live, i: nat, o: nat, b: nat, r: nat)
    requires i !in live && FreeRun(n, live, b, r)
    requires b + Pow2(r) <= i || i + Pow2(o) <= b
    ensures FreeRun(n, live[i := o], b, r)
  {
  }

  lemma BlocksApart(n: nat, live: Live, i: nat, k: nat, a: nat, m: nat)
    requires LiveOk(n, live) && Block(n, live, i, k) && Block(n, live, a, m) && (a, m) != (i, k)
    ensures a + Pow2(m) <= i || i + Pow2(k) <= a
  {
    if In(i, a, m) {
      BlockUnique(n, live, i, k, a, m, i);
    } else if In(a, i, k) {
      BlockUnique(n, live, i, k, a, m, a);
    }
  }

  lemma CarveOutside(n: nat, live: Live, i: nat, o: nat, k: nat, j: nat, q: nat, a: nat, m: nat)
    requires LiveOk(n, live) && MaxRun(n, live, i, k) && o <= k && i !in live
    requires FreeRun(n, live, j, q) && !FreeRun(n, live[i := o], Base(j, q + 1), q + 1)
    requires MaxRun(n, live, a, m) && a != i && a <= j && j + Pow2(q) <= a + Pow2(m)
    ensures MaxRun(n, live, j, q) && (j + Pow2(q) <= i || i + Pow2(k) <= j)
  {
    BlocksApart(n, live, i, k, a, m);
    Pow2Mono(o, k);
    var b, r := Base(j, q + 1), q + 1;
    if FreeRun(n, live, b, r) {
      BaseIn(j, r);
      InsideMax(n, live, b, r, a, m, j);
      CarveKeepsRun(n, live, i, o, b, r);
    }
  }

  lemma CarveInside(n: nat, live: Live, i: nat, o: nat, k: nat, j: nat, q: nat)
    requires LiveOk(n, live) && MaxRun(n, live, i, k) && o <= k && Aligned(i, o) && i !in live
    requires MaxRun(n, live[i := o], j, q)
    requires i <= j && j + Pow2(q) <= i + Pow2(k)
    requires forall e: nat :: In(e, j, q) ==> !In(e, i, o)
    ensures o <= q < k && j == i + Pow2(q)
  {
    assert In(j, j, q) && In(i, i, o);
    if q >= k {
      Pow2Mono(k, q);
    }
    var b := Base(j, q + 1);
    BaseIn(j, q + 1);
    Nested(b, q + 1, i, k, j);
    // The enclosing block is free of old allocations, so it meets (i, o).
    SubRun(n, live, b, q + 1, i, k);
    var e: nat :| In(e, b, q + 1) && Covered(live[i := o], e);
    CoveredMore(live, i, o, e);
    CarveHalf(i, o, k, j, q, e);
  }

  lemma CarveHalf(i: nat, o: nat, k: nat, j: nat, q: nat, e: nat)
    requires Aligned(i, k) && o <= k && q < k && Aligned(i, o) && Aligned(j, q)
    requires In(e, Base(j, q + 1), q + 1) && In(e, i, o)
    requires !In(j, i, o) && !In(i, j, q)
    ensures o <= q && j == i + Pow2(q)
  {
    var b := Base(j, q + 1);
    Halves(j, q);
    if q + 1 <= o {
      Nested(b, q + 1, i, o, e);
    } else {
      Nested(i, o, b, q + 1, e);
      AlignedDown(i, q + 1, k);
      Nested(i, q + 1, b, q + 1, i);
    }
  }

  // ----- Release: the allocation at `x` goes, and `(c, p)` is the run it ends up in

  lemma ReleasedRun(n: nat, live: Live, x: nat)
    requires LiveOk(n, live) && x in live
    ensures LiveOk(n, live - {x}) && FreeRun(n, live - {x}, x, live[x])
  {
  }

  lemma FewerLive(n: nat, live: Live, x: nat, i: nat, o: nat)
    requires x in live
    ensures FreeRun(n, live, i, o) <==> FreeRun(n, live - {x}, i, o) && forall e: nat :: In(e, i, o) ==> !In(e, x, live[x])
  {
    forall e: nat ensures Covered(live, e) <==> Covered(live - {x}, e) || In(e, x, live[x]) {
      CoveredLess(live, x, e);
    }
  }

  /** Maximal runs other than the merged one are old ones away from it. */
  lemma ReleaseMax(n: nat, live: Live, x: nat, c: nat, p: nat, j: nat, q: nat)
    requires LiveOk(n, live) && x in live
    requires MaxRun(n, live - {x}, c, p) && In(x, c, p)
    requires MaxRun(n, live - {x}, j, q) && (j, q) != (c, p)
    ensures MaxRun(n, live, j, q)
    ensures j + Pow2(q) <= c || c + Pow2(p) <= j
  {
    var live' := live - {x};
    ReleasedRun(n, live, x);
    InsideMax(n, live', x, live[x], c, p, x);
    BlocksApart(n, live', c, p, j, q);
    FewerLive(n, live, x, j, q);
    FewerLive(n, live, x, Base(j, q + 1), q + 1);
  }
}
