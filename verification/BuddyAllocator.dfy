/**
 The linker's buddy allocator, `bionic/linker/ba.c`.

 `BuddyAllocator.live` is a ghost record of the allocations handed out and not
 yet released.  `Valid` ties the bitmap to it, so the contracts of `Allocate`
 and `Free` speak about allocations and free runs rather than bitmap cells.
 */
module BuddyAllocator {
  import opened Basics
  import opened AlignedBlocks
  import opened BuddyBlocks

  // ----- ba_order; `unsigned long` has 32 bits

  /** Allocation units minus one, with the wrap-around of unsigned arithmetic. */
  function UnitsLessOne(minAlloc: nat, len: nat): nat
    requires 0 < minAlloc
  {
    (((len + minAlloc - 1) % WORD) / minAlloc - 1) % WORD
  }

  function FirstZero(u: nat, i: nat): nat
    decreases 32 - i
  {
    if i >= 32 || Shr(u, i) == 0 then i else FirstZero(u, i + 1)
  }

  function OrderOf(minAlloc: nat, len: nat): nat
    requires 0 < minAlloc
  {
    FirstZero(UnitsLessOne(minAlloc, len), 0)
  }

  /** `o` is the least order whose blocks hold `len` bytes. */
  ghost predicate LeastOrder(minAlloc: nat, len: nat, o: nat) {
    len <= Pow2(o) * minAlloc && forall p: nat :: p < o ==> Pow2(p) * minAlloc < len
  }

  lemma CeilDiv(len: nat, m: nat, p: nat)
    requires 0 < m && 0 < len
    ensures (len + m - 1) / m <= p <==> len <= p * m
  {
    var q := (len + m - 1) / m;
    var r := (len + m - 1) % m;
    assert q * m + r == len + m - 1;
    if q <= p {
      assert q * m <= p * m;
    } else {
      assert (p + 1) * m <= q * m;
      assert (p + 1) * m == p * m + m;
    }
  }

  lemma {:induction false} FirstZeroMeaning(u: nat, i: nat)
    requires u < WORD && i <= 32 && forall p: nat :: p < i ==> Pow2(p) <= u
    ensures var o := FirstZero(u, i); i <= o <= 32 && u < Pow2(o) && forall p: nat :: p < o ==> Pow2(p) <= u
    decreases 32 - i
  {
    WordPowers();
    if i < 32 {
      ShrRange(u, i, 0);
      if Shr(u, i) != 0 {
        FirstZeroMeaning(u, i + 1);
      }
    }
  }

  /** `u` is one less than the number of units `len` needs. */
  lemma UnitsFit(minAlloc: nat, len: nat, u: nat, p: nat)
    requires 0 < minAlloc && 0 < len && u == (len + minAlloc - 1) / minAlloc - 1
    ensures u < p <==> len <= p * minAlloc
  {
    CeilDiv(len, minAlloc, p);
  }

  lemma NoWrap(minAlloc: nat, len: nat)
    requires 0 < minAlloc < WORD && 0 < len && len + minAlloc - 1 < WORD
    ensures UnitsLessOne(minAlloc, len) == (len + minAlloc - 1) / minAlloc - 1
  {
    var x := len + minAlloc - 1;
    CeilDiv(len, minAlloc, 0);
    Quotient(x, minAlloc);
    assert x % WORD == x;
  }

  lemma Quotient(x: nat, m: nat)
    requires 0 < m
    ensures 0 <= x / m <= x
  {
    var q, r := x / m, x % m;
    assert x == q * m + r;
    Product(q, m);
  }

  lemma {:induction false} Product(q: nat, m: nat)
    requires 0 < m
    ensures q <= q * m
  {
    if q != 0 {
      Product(q - 1, m);
      assert q * m == (q - 1) * m + m;
    }
  }

  lemma LeastSufficient(minAlloc: nat, len: nat)
    requires 0 < minAlloc < WORD && 0 < len && len + minAlloc - 1 < WORD
    ensures LeastOrder(minAlloc, len, OrderOf(minAlloc, len))
  {
    var u, o := UnitsLessOne(minAlloc, len), OrderOf(minAlloc, len);
    NoWrap(minAlloc, len);
    FirstZeroMeaning(u, 0);
    UnitsFit(minAlloc, len, u, Pow2(o));
    forall p: nat | p < o ensures Pow2(p) * minAlloc < len {
      UnitsFit(minAlloc, len, u, Pow2(p));
    }
  }

  /** A length that needs no wrap-around gets the least sufficient order; zero and
      lengths that wrap get 32, which no bitmap can satisfy. */
  lemma OrderMeaning(minAlloc: nat, len: nat)
    requires 0 < minAlloc < WORD && len < WORD
    ensures 0 < len && len + minAlloc - 1 < WORD ==> LeastOrder(minAlloc, len, OrderOf(minAlloc, len))
    ensures len == 0 || len + minAlloc - 1 >= WORD ==> OrderOf(minAlloc, len) == 32
  {
    if 0 < len && len + minAlloc - 1 < WORD {
      LeastSufficient(minAlloc, len);
    } else {
      WrapsToMax(minAlloc, len);
      FirstZeroMeaning(WORD - 1, 0);
      AllOnes(WORD - 1, OrderOf(minAlloc, len));
    }
  }

  lemma WrapsToMax(minAlloc: nat, len: nat)
    requires 0 < minAlloc < WORD && len < WORD && (len == 0 || len + minAlloc - 1 >= WORD)
    ensures UnitsLessOne(minAlloc, len) == WORD - 1
  {
    var w := (len + minAlloc - 1) % WORD;
    assert w < minAlloc;
    assert w / minAlloc == 0;
  }

  lemma AllOnes(u: nat, o: nat)
    requires u == WORD - 1 && o <= 32 && u < Pow2(o)
    ensures o == 32
  {
    WordPowers();
    if o < 32 {
      Pow2Mono(o, 31);
    }
  }

  // ----- The bitmap as ba_init leaves it

  /** With nothing allocated, the maximal run of order `q` sits at `n` with its low `q + 1` bits cleared. */
  lemma EmptyRun(n: nat, j: nat, q: nat)
    requires MaxRun(n, map[], j, q)
    ensures Shr(n, q) % 2 == 1 && j == Base(n, q + 1)
  {
    var b, t := Base(j, q + 1), Shr(j, q + 1);
    Halves(j, q);
    BaseIn(j, q + 1);
    ShrRange(n, q + 1, t);
    Slots(t, q);
    ShrRange(n, q, 2 * t + 1);
  }

  lemma BaseStep(n: nat, i: nat)
    ensures Base(n, i) == Base(n, i + 1) + (if Shr(n, i) % 2 == 1 then Pow2(i) else 0) <= n
  {
    var t := Shr(n, i + 1);
    Slots(t, i);
    BaseIn(n, i);
    assert Shr(n, i) == 2 * t || Shr(n, i) == 2 * t + 1;
  }

  /** The maximal runs of order above `i` are recorded, all below `index`. */
  ghost predicate InitDone(cells: seq<Bits>, n: nat, i: int, index: nat) {
    && |cells| == n && i >= -1 && index == Base(n, i + 1)
    && (forall k :: 0 <= k < n ==> !cells[k].used)
    && (forall j: nat, q: nat :: MaxRun(n, map[], j, q) && q > i ==> j < index && j < n && cells[j] == Bits(q, false))
  }

  lemma InitStart(cells: seq<Bits>, n: nat)
    requires |cells| == n < 0x8000_0000 && forall k :: 0 <= k < n ==> !cells[k].used
    ensures InitDone(cells, n, 31, 0)
  {
    WordPowers();
    ShrRange(n, 32, 0);
    forall j: nat, q: nat | MaxRun(n, map[], j, q) ensures q <= 31 {
      if q > 31 {
        Pow2Mono(32, q);
      }
    }
  }

  lemma InitStep(cells: seq<Bits>, n: nat, i: nat, index: nat)
    requires InitDone(cells, n, i, index)
    ensures Shr(n, i) % 2 == 0 ==> InitDone(cells, n, i - 1, index)
    ensures Shr(n, i) % 2 == 1 ==> index < n && InitDone(cells[index := cells[index].(order := i)], n, i - 1, index + Pow2(i))
  {
    BaseStep(n, i);
    forall j: nat, q: nat | MaxRun(n, map[], j, q) && q >= i
      ensures q == i ==> Shr(n, i) % 2 == 1 && j == index
    {
      EmptyRun(n, j, q);
    }
  }

  lemma InitRepresents(cells: seq<Bits>, n: nat, index: nat)
    requires InitDone(cells, n, -1, index)
    ensures Represents(cells, n, map[])
  {
  }

  // ----- The scan of ba_allocate

  /** `(i, k)` is the lowest of the smallest maximal runs that hold `order`. */
  ghost predicate BestFit(n: nat, live: Live, order: nat, i: nat, k: nat) {
    && MaxRun(n, live, i, k) && order <= k
    && forall j: nat, q: nat :: MaxRun(n, live, j, q) && order <= q ==> k < q || (k == q && i <= j)
  }

  /** The scan has looked at every block head below `curr`, and `(curr, o)` is the next block. */
  ghost predicate ScanDone(n: nat, live: Live, order: nat, curr: nat, o: nat, best: int, k: nat) {
    && curr <= n && best >= -1
    && (curr < n ==> Block(n, live, curr, o))
    && (best >= 0 ==> best < curr && MaxRun(n, live, best, k) && order < k)
    && forall j: nat, q: nat :: MaxRun(n, live, j, q) && order <= q && j < curr
                                ==> best >= 0 && (k < q || (k == q && best <= j))
  }

  lemma ScanStart(n: nat, live: Live, order: nat) returns (o: nat)
    requires LiveOk(n, live)
    ensures ScanDone(n, live, order, 0, o, -1, 0)
  {
    o := 0;
    if 0 < n {
      var j;
      j, o := BlockOf(n, live, 0);
    }
  }

  lemma HeadCell(cells: seq<Bits>, n: nat, live: Live, i: nat, o: nat)
    requires Represents(cells, n, live) && Block(n, live, i, o)
    ensures i + Pow2(o) <= n && cells[i].order == o && (cells[i].used <==> !MaxRun(n, live, i, o))
  {
    LiveMeetsNoRun(n, live, i, i, o, i);
  }

  lemma ScanStep(n: nat, live: Live, order: nat, curr: nat, o: nat, best: int, k: nat) returns (p: nat)
    requires LiveOk(n, live) && ScanDone(n, live, order, curr, o, best, k) && curr < n
    ensures !MaxRun(n, live, curr, o) || o < order || (order < o && best >= 0 && k <= o)
            ==> ScanDone(n, live, order, curr + Pow2(o), p, best, k)
    ensures MaxRun(n, live, curr, o) && order < o && (best < 0 || o < k)
            ==> ScanDone(n, live, order, curr + Pow2(o), p, curr, o)
    ensures MaxRun(n, live, curr, o) && o == order ==> BestFit(n, live, order, curr, o)
  {
    var next := curr + Pow2(o);
    p := 0;
    if next < n {
      p := NextHead(n, live, curr, o, next);
    }
    forall j: nat, q: nat | MaxRun(n, live, j, q) && curr <= j < next
      ensures j == curr && q == o
    {
      BlockUnique(n, live, j, q, curr, o, j);
    }
  }

  ghost predicate NoRun(n: nat, live: Live, order: nat) {
    forall i: nat :: !FreeRun(n, live, i, order)
  }

  lemma ScanEnd(n: nat, live: Live, order: nat, o: nat, best: int, k: nat)
    requires ScanDone(n, live, order, n, o, best, k)
    ensures best < 0 ==> NoRun(n, live, order)
    ensures best >= 0 ==> BestFit(n, live, order, best, k)
  {
    forall i: nat | FreeRun(n, live, i, order) ensures best >= 0 {
      var j, q := Climb(n, live, i, order);
    }
  }

  lemma FitsWord(n: nat, live: Live, i: nat, k: nat, order: nat)
    requires n < 0x8000_0000 && FreeRun(n, live, i, k) && order <= k
    ensures order < 32
  {
    WordPowers();
    if order >= 32 {
      Pow2Mono(32, k);
    }
  }

  // ----- The splitting loop of ba_allocate

  /** The right half split off when a block at `i` shrinks to order `q`. */
  ghost function Right(i: nat, q: nat): nat {
    i + Pow2(q)
  }

  /** `cells` is `cells0` with the block `(i, k)`, which ends at `end`, split down to `(i, m)`. */
  ghost predicate SplitDown(cells: seq<Bits>, cells0: seq<Bits>, i: nat, m: nat, k: nat, end: nat) {
    && |cells| == |cells0| && m <= k && i < end <= |cells|
    && cells[i].order == m
    && (forall q: nat :: m <= q < k ==> Right(i, q) < end && cells[Right(i, q)].order == q)
    && (forall x :: 0 <= x < |cells| ==> cells[x].used == cells0[x].used)
    && (forall x :: 0 <= x < |cells| && !(i <= x < end) ==> cells[x] == cells0[x])
  }

  lemma SplitIndex(i: nat, m: nat, k: nat)
    requires Aligned(i, k) && m < k
    ensures Buddy(i, m) == Right(i, m) < i + Pow2(k)
    ensures forall q: nat :: m < q ==> Right(i, m) < Right(i, q)
  {
    AlignedDown(i, m, k);
    AlignedDown(i, m + 1, k);
    Halves(i, m);
    Pow2Mono(m + 1, k);
    forall q: nat | m < q ensures Right(i, m) < Right(i, q) {
      Pow2Mono(m + 1, q);
    }
  }

  lemma SplitStep(cells: seq<Bits>, cells0: seq<Bits>, i: nat, m: nat, k: nat, end: nat, b: nat)
    requires m < k && i < b == Right(i, m) < end && SplitDown(cells, cells0, i, m + 1, k, end)
    requires forall q: nat :: m < q ==> b < Right(i, q)
    ensures SplitDown(cells[i := cells[i].(order := m)][b := cells[b].(order := m)], cells0, i, m, k, end)
  {
    var cells' := cells[i := cells[i].(order := m)][b := cells[b].(order := m)];
    assert cells'[i].order == m && cells'[b].order == m;
    forall q: nat | m <= q < k ensures Right(i, q) < end && cells'[Right(i, q)].order == q {
      assert m < q ==> i < Right(i, q);
    }
  }

  lemma SplitRepresents(cells: seq<Bits>, cells0: seq<Bits>, n: nat, live: Live, i: nat, o: nat, k: nat)
    requires Represents(cells0, n, live) && MaxRun(n, live, i, k) && o <= k && SplitDown(cells, cells0, i, o, k, i + Pow2(k))
    ensures i < n && i !in live && Represents(cells[i := Bits(o, true)], n, live[i := o])
  {
    CarveLiveOk(n, live, i, o, k);
    var live' := live[i := o];
    forall j: nat, q: nat | Block(n, live', j, q)
      ensures j < n && cells[i := Bits(o, true)][j] == Bits(q, j in live')
    {
      SplitBlock(cells, cells0, n, live, i, o, k, j, q);
    }
  }

  lemma SplitBlock(cells: seq<Bits>, cells0: seq<Bits>, n: nat, live: Live, i: nat, o: nat, k: nat, j: nat, q: nat)
    requires Represents(cells0, n, live) && MaxRun(n, live, i, k) && o <= k && SplitDown(cells, cells0, i, o, k, i + Pow2(k))
    requires i !in live && Block(n, live[i := o], j, q)
    ensures j < n && cells[i := Bits(o, true)][j] == Bits(q, j in live[i := o])
  {
    if j in live {
      LiveMeetsNoRun(n, live[i := o], j, j, q, j);
      BlocksApart(n, live, i, k, j, q);
      SplitOther(cells, cells0, n, live, i, o, k, j, q);
    } else if j != i {
      CarveMax(n, live, i, o, k, j, q);
      if MaxRun(n, live, j, q) && (j + Pow2(q) <= i || i + Pow2(k) <= j) {
        SplitOther(cells, cells0, n, live, i, o, k, j, q);
      } else {
        SplitHalf(cells, cells0, n, live, i, o, k, j, q);
      }
    } else {
      LiveMeetsNoRun(n, live[i := o], i, i, q, i);
    }
  }

  lemma SplitOther(cells: seq<Bits>, cells0: seq<Bits>, n: nat, live: Live, i: nat, o: nat, k: nat, j: nat, q: nat)
    requires Represents(cells0, n, live) && SplitDown(cells, cells0, i, o, k, i + Pow2(k))
    requires Block(n, live, j, q) && (j + Pow2(q) <= i || i + Pow2(k) <= j)
    ensures j < n && j != i && cells[j] == Bits(q, j in live)
  {
  }

  lemma SplitHalf(cells: seq<Bits>, cells0: seq<Bits>, n: nat, live: Live, i: nat, o: nat, k: nat, j: nat, q: nat)
    requires Represents(cells0, n, live) && MaxRun(n, live, i, k) && SplitDown(cells, cells0, i, o, k, i + Pow2(k))
    requires o <= q < k && j == i + Pow2(q) && j !in live
    ensures j < n && j != i && cells[j] == Bits(q, false)
  {
    assert j == Right(i, q);
    Pow2Mono(q + 1, k);
  }

  // ----- The merge loop of ba_free

  /** `(c, p)` is free once `x` is released, and holds the block of `x`. */
  ghost predicate Absorbs(n: nat, live: Live, x: nat, c: nat, p: nat) {
    x in live && FreeRun(n, live - {x}, c, p) && c <= x && x + Pow2(live[x]) <= c + Pow2(p)
  }

  /** `cells` is `cells0` with the allocation at `x` released and merged up to the free block `(c, p)`. */
  ghost predicate Merged(cells: seq<Bits>, cells0: seq<Bits>, n: nat, live: Live, x: nat, c: nat, p: nat) {
    && |cells| == n && |cells0| == n && Absorbs(n, live, x, c, p)
    && cells[c] == Bits(p, false)
    && (forall y :: 0 <= y < n && !In(y, c, p) ==> cells[y] == cells0[y])
    && (forall y :: 0 <= y < n && cells[y].used ==> cells0[y].used && y != x)
  }

  lemma MergeStart(cells: seq<Bits>, n: nat, live: Live, x: nat)
    requires Represents(cells, n, live) && x in live
    ensures x < n && cells[x] == Bits(live[x], true)
    ensures Merged(cells[x := Bits(live[x], false)], cells, n, live, x, x, live[x])
  {
    assert Block(n, live, x, live[x]);
    ReleasedRun(n, live, x);
    assert In(x, x, live[x]);
  }

  /** A block and its buddy are both free runs exactly when the enclosing block is one. */
  lemma JoinRuns(n: nat, live: Live, i: nat, o: nat)
    requires FreeRun(n, live, i, o)
    ensures Buddy(i, o) >= 0
    ensures FreeRun(n, live, Buddy(i, o), o) <==> FreeRun(n, live, Base(i, o + 1), o + 1)
  {
    var b, r := Base(i, o + 1), Buddy(i, o);
    Halves(i, o);
    if FreeRun(n, live, b, o + 1) {
      SubRun(n, live, r, o, b, o + 1);
    }
    if FreeRun(n, live, r, o) {
      forall e: nat | In(e, b, o + 1) ensures !Covered(live, e) {
        assert In(e, i, o) || In(e, r, o);
      }
    }
  }

  lemma BuddyWasFree(n: nat, live: Live, x: nat, c: nat, p: nat, b: nat)
    requires Absorbs(n, live, x, c, p) && b == Buddy(c, p) && FreeRun(n, live - {x}, b, p)
    ensures MaxRun(n, live, b, p)
  {
    Halves(c, p);
    FewerLive(n, live, x, b, p);
    FewerLive(n, live, x, Base(b, p + 1), p + 1);
    assert In(x, Base(b, p + 1), p + 1) && In(x, x, live[x]);
  }

  lemma BuddyIsHead(n: nat, live: Live, x: nat, c: nat, p: nat, b: nat) returns (q: nat)
    requires LiveOk(n, live) && Absorbs(n, live, x, c, p) && b == Buddy(c, p) < n
    ensures Block(n, live, b, q)
  {
    var j;
    j, q := BlockOf(n, live, b);
    Halves(c, p);
    if q <= p {
      Nested(j, q, b, p, b);
    } else {
      Nested(Base(c, p + 1), p + 1, j, q, b);
      Pow2Mono(p + 1, q);
      BlockUnique(n, live, x, live[x], j, q, x);
    }
  }

  /** What the test on the buddy's cell decides. */
  lemma BuddyTest(cells0: seq<Bits>, n: nat, live: Live, x: nat, c: nat, p: nat, b: nat)
    requires Represents(cells0, n, live) && Absorbs(n, live, x, c, p) && b == Buddy(c, p) < n
    ensures !In(b, c, p)
    ensures !cells0[b].used && cells0[b].order == p <==> FreeRun(n, live - {x}, b, p)
  {
    Halves(c, p);
    if FreeRun(n, live - {x}, b, p) {
      BuddyWasFree(n, live, x, c, p, b);
      HeadCell(cells0, n, live, b, p);
    }
    var q := BuddyIsHead(n, live, x, c, p, b);
    HeadCell(cells0, n, live, b, q);
    FewerLive(n, live, x, b, p);
  }

  lemma MergeStep(cells: seq<Bits>, cells0: seq<Bits>, n: nat, live: Live, x: nat, c: nat, p: nat, b: nat)
    requires Merged(cells, cells0, n, live, x, c, p) && b == Buddy(c, p) < n && FreeRun(n, live - {x}, b, p)
    requires cells[b] == Bits(p, false)
    ensures var d := if b < c then b else c;
            Merged(cells[b := Bits(p + 1, false)][c := Bits(p + 1, false)], cells0, n, live, x, d, p + 1)
  {
    Halves(c, p);
    JoinRuns(n, live - {x}, c, p);
    assert forall y :: In(y, c, p) ==> In(y, Base(c, p + 1), p + 1);
    assert In(b, Base(c, p + 1), p + 1) && In(c, Base(c, p + 1), p + 1);
  }

  lemma MergeEnd(cells: seq<Bits>, cells0: seq<Bits>, n: nat, live: Live, x: nat, c: nat, p: nat)
    requires Represents(cells0, n, live) && Merged(cells, cells0, n, live, x, c, p)
    requires Buddy(c, p) < 0 || !FreeRun(n, live - {x}, Buddy(c, p), p)
    ensures Represents(cells, n, live - {x}) && MaxRun(n, live - {x}, c, p)
  {
    var live' := live - {x};
    JoinRuns(n, live', c, p);
    ReleasedRun(n, live, x);
    forall j: nat, q: nat | Block(n, live', j, q) ensures j < n && cells[j] == Bits(q, j in live') {
      MergeBlock(cells, cells0, n, live, x, c, p, j, q);
    }
  }

  lemma MergeBlock(cells: seq<Bits>, cells0: seq<Bits>, n: nat, live: Live, x: nat, c: nat, p: nat, j: nat, q: nat)
    requires Represents(cells0, n, live) && Merged(cells, cells0, n, live, x, c, p)
    requires LiveOk(n, live - {x}) && MaxRun(n, live - {x}, c, p) && Block(n, live - {x}, j, q)
    ensures j < n && cells[j] == Bits(q, j in live - {x})
  {
    var live' := live - {x};
    LiveMeetsNoRun(n, live', c, c, p, c);
    if (j, q) != (c, p) {
      BlocksApart(n, live', c, p, j, q);
      if MaxRun(n, live', j, q) {
        ReleaseMax(n, live, x, c, p, j, q);
        LiveMeetsNoRun(n, live', j, j, q, j);
      }
      assert Block(n, live, j, q);
    }
  }

  // ----- When the merge loop looks past the end of the bitmap

  /** `(t, q)` is the topmost block that ends exactly at `n`. */
  ghost predicate LastTop(n: nat, t: nat, q: nat) {
    Aligned(t, q) && t + Pow2(q) == n && Buddy(t, q) == n
  }

  /** Releasing `x` empties the topmost block at the end of the bitmap. */
  ghost predicate EmptiesLastTop(n: nat, live: Live, x: nat) {
    exists t: nat, q: nat :: LastTop(n, t, q) && In(x, t, q) && forall i :: i in live && i != x ==> !In(i, t, q)
  }

  lemma PastEnd(n: nat, live: Live, x: nat, c: nat, p: nat)
    requires LiveOk(n, live) && Absorbs(n, live, x, c, p) && MaxRun(n, live - {x}, c, p)
    ensures Buddy(c, p) >= n <==> EmptiesLastTop(n, live, x)
  {
    Halves(c, p);
    if Buddy(c, p) >= n {
      forall i | i in live && i != x ensures !In(i, c, p) {
        LiveMeetsNoRun(n, live - {x}, i, c, p, i);
      }
      assert LastTop(n, c, p) && In(x, c, p);
    }
    if EmptiesLastTop(n, live, x) {
      var t: nat, q: nat :| LastTop(n, t, q) && In(x, t, q) && forall i :: i in live && i != x ==> !In(i, t, q);
      TopIsFree(n, live, x, t, q);
      InsideMax(n, live - {x}, t, q, c, p, x);
      Halves(t, q);
      if q < p {
        Nested(t, q + 1, c, p, t);
      }
    }
  }

  lemma TopIsFree(n: nat, live: Live, x: nat, t: nat, q: nat)
    requires LiveOk(n, live) && x in live && LastTop(n, t, q) && In(x, t, q)
    requires forall i :: i in live && i != x ==> !In(i, t, q)
    ensures FreeRun(n, live - {x}, t, q)
  {
    var live' := live - {x};
    forall e: nat, i | In(e, t, q) && i in live' ensures !In(e, i, live'[i]) {
      var o := live'[i];
      if In(e, i, o) {
        if o < q {
          Nested(i, o, t, q, e);
        } else {
          Nested(t, q, i, o, e);
        }
      }
    }
  }

  lemma LastTopUnique(n: nat, x: nat, t: nat, q: nat, c: nat, p: nat)
    requires LastTop(n, t, q) && LastTop(n, c, p) && In(x, t, q) && In(x, c, p)
    ensures q >= p
  {
    Halves(t, q);
    if q < p {
      Nested(t, q, c, p, x);
      Nested(t, q + 1, c, p, t);
    }
  }

  /** The cell past the end reads as a free block as large as the one just emptied, so the loop would merge with
      it. */
  ghost predicate SpillsInto(n: nat, live: Live, x: nat, beyond: Bits) {
    !beyond.used && exists t: nat :: LastTop(n, t, beyond.order) && In(x, t, beyond.order)
                                     && forall i :: i in live && i != x ==> !In(i, t, beyond.order)
  }

  /** With `(c, p)` merged, that depends on the cell alone. */
  lemma Spills(n: nat, live: Live, x: nat, c: nat, p: nat, beyond: Bits)
    requires LiveOk(n, live) && Absorbs(n, live, x, c, p) && MaxRun(n, live - {x}, c, p) && Buddy(c, p) >= n
    ensures SpillsInto(n, live, x, beyond) <==> !beyond.used && beyond.order == p
  {
    Halves(c, p);
    forall i | i in live && i != x ensures !In(i, c, p) {
      LiveMeetsNoRun(n, live - {x}, i, c, p, i);
    }
    assert LastTop(n, c, p) && In(x, c, p);
    if SpillsInto(n, live, x, beyond) {
      var t: nat :| LastTop(n, t, beyond.order) && In(x, t, beyond.order);
      LastTopUnique(n, x, t, beyond.order, c, p);
      LastTopUnique(n, x, c, p, t, beyond.order);
    }
  }

  /** For the linker's 256 entries that happens exactly when the only allocation is released. */
  lemma PastEndOf256(live: Live, x: nat)
    requires LiveOk(256, live) && x in live
    ensures EmptiesLastTop(256, live, x) <==> live.Keys == {x}
  {
    assert Pow2(8) == 256;
    Multiple(0, 8);
    forall i | i in live ensures In(i, 0, 8) {
    }
    if EmptiesLastTop(256, live, x) {
      var t: nat, q: nat :| LastTop(256, t, q) && In(x, t, q) && forall i :: i in live && i != x ==> !In(i, t, q);
      Halves(t, q);
      if q < 8 {
        Nested(t, q + 1, 0, 8, t);
      } else {
        Pow2Mono(8, q);
      }
    }
    if live.Keys == {x} {
      assert LastTop(256, 0, 8);
    }
  }

  // ----- The block structure as seen by stepping from head to head

  /** The blocks met by following BA_NEXT_INDEX from `i`. */
  function Walk(cells: seq<Bits>, i: nat): seq<(nat, nat)>
    decreases |cells| - i
  {
    if i >= |cells| then [] else [(i, cells[i].order)] + Walk(cells, i + Pow2(cells[i].order))
  }

  lemma WalkStep(c: seq<Bits>, n: nat, live: Live, i: nat, o: nat) returns (next: nat, p: nat)
    requires Represents(c, n, live) && i < n && Block(n, live, i, o)
    ensures i < next <= n && next == i + Pow2(o) && Walk(c, i) == [(i, o)] + Walk(c, next)
    ensures next < n ==> Block(n, live, next, p)
    ensures forall j: nat, q: nat :: Block(n, live, j, q) && i <= j ==> (j, q) == (i, o) || next <= j
  {
    HeadCell(c, n, live, i, o);
    next, p := i + Pow2(o), 0;
    if next < n {
      p := NextHead(n, live, i, o, next);
    }
    forall j: nat, q: nat | Block(n, live, j, q) && i <= j ensures (j, q) == (i, o) || next <= j {
      if j < next {
        BlockUnique(n, live, i, o, j, q, j);
      }
    }
  }

  /** The walk lists exactly the blocks from `i` on. */
  lemma {:induction false} WalkMeaning(c: seq<Bits>, n: nat, live: Live, i: nat, o: nat, j: nat, q: nat)
    requires Represents(c, n, live) && i <= n && (i < n ==> Block(n, live, i, o))
    ensures (j, q) in Walk(c, i) <==> i <= j && Block(n, live, j, q)
    decreases n - i
  {
    if i < n {
      var next, p := WalkStep(c, n, live, i, o);
      WalkMeaning(c, n, live, next, p, j, q);
      assert (j, q) in Walk(c, i) <==> (j, q) == (i, o) || (j, q) in Walk(c, next);
    }
  }

  lemma {:induction false} WalkSame(c1: seq<Bits>, c2: seq<Bits>, n: nat, live: Live, i: nat, o: nat)
    requires Represents(c1, n, live) && Represents(c2, n, live) && i <= n && (i < n ==> Block(n, live, i, o))
    ensures Walk(c1, i) == Walk(c2, i)
    decreases n - i
  {
    if i < n {
      var next, p := WalkStep(c1, n, live, i, o);
      var _, _ := WalkStep(c2, n, live, i, o);
      WalkSame(c1, c2, n, live, next, p);
    }
  }

  /** The live allocations alone determine the block structure: two bitmaps with the same
      allocations have the same heads, orders and marks, whatever happened before. */
  lemma Canonical(c1: seq<Bits>, c2: seq<Bits>, n: nat, live: Live)
    requires Represents(c1, n, live) && Represents(c2, n, live)
    ensures Walk(c1, 0) == Walk(c2, 0)
    ensures forall j: nat, q: nat :: (j, q) in Walk(c1, 0) <==> Block(n, live, j, q)
    ensures forall i :: 0 <= i < n ==> c1[i].used == c2[i].used
  {
    var o := ScanStart(n, live, 0);
    WalkSame(c1, c2, n, live, 0, o);
    forall j: nat, q: nat ensures (j, q) in Walk(c1, 0) <==> Block(n, live, j, q) {
      WalkMeaning(c1, n, live, 0, o, j, q);
    }
    forall i | i in live ensures c1[i].used && c2[i].used {
      assert Block(n, live, i, live[i]);
    }
  }

  /** Address ranges of live allocations lie in the region and are pairwise disjoint. */
  lemma AddressRanges(n: nat, live: Live, base: nat, size: nat, minAlloc: nat, i: nat, j: nat)
    requires LiveOk(n, live) && n * minAlloc <= size && i in live && j in live
    ensures i * minAlloc + base + Pow2(live[i]) * minAlloc <= base + size
    ensures i < j ==> i * minAlloc + base + Pow2(live[i]) * minAlloc <= j * minAlloc + base
  {
    var w := Pow2(live[i]);
    Scale(i, w, n, minAlloc);
    if i < j {
      Scale(i, w, j, minAlloc);
    }
  }

  lemma Scale(i: nat, w: nat, e: nat, m: nat)
    requires i + w <= e
    ensures i * m + w * m <= e * m
  {
    assert i * m + w * m == (i + w) * m;
    assert e * m - (i + w) * m == (e - i - w) * m;
  }

  class BuddyAllocator {
    const base: nat
    const size: nat
    const minAlloc: nat
    const numEntries: nat
    const bitmap: array<Bits>
    var maxOrder: nat
    ghost var live: Live

    ghost predicate Shape()
      reads this
    {
      && 0 < minAlloc && base + size <= WORD && size < WORD
      && numEntries * minAlloc <= size && numEntries < 0x8000_0000 && minAlloc < WORD
      && bitmap.Length == numEntries
    }

    ghost predicate Valid()
      reads this, bitmap
    {
      Shape() && Represents(bitmap[..], numEntries, live)
    }

    /** A zeroed bitmap set up by `ba_init`; `maxOrder == 0` asks for the automatic value. */
    constructor (base: nat, size: nat, minAlloc: nat, numEntries: nat, maxOrder: nat)
      requires 0 < minAlloc < WORD && base + size <= WORD && size < WORD
      requires numEntries * minAlloc <= size && numEntries < 0x8000_0000
      ensures Valid() && live == map[] && fresh(bitmap)
      ensures this.base == base && this.size == size && this.minAlloc == minAlloc && this.numEntries == numEntries
      ensures this.maxOrder == (if maxOrder == 0 || maxOrder > OrderOf(minAlloc, size) then OrderOf(minAlloc, size) else maxOrder)
    {
      this.base, this.size, this.minAlloc, this.numEntries := base, size, minAlloc, numEntries;
      this.maxOrder := maxOrder;
      this.bitmap := new Bits[numEntries](_ => Bits(0, false));
      this.live := map[];
      new;
      Init();
    }

    method Init()
      requires Shape() && live == map[]
      requires forall i :: 0 <= i < numEntries ==> !bitmap[i].used
      modifies this`maxOrder, bitmap
      ensures Valid()
      ensures maxOrder == (if old(maxOrder) == 0 || old(maxOrder) > OrderOf(minAlloc, size) then OrderOf(minAlloc, size) else old(maxOrder))
    {
      var autoOrder := Order(size);
      if maxOrder == 0 || maxOrder > autoOrder {
        maxOrder := autoOrder;
      }
      var index: nat := 0;
      var i := 31;
      InitStart(bitmap[..], numEntries);
      while i >= 0
        modifies bitmap
        invariant -1 <= i <= 31
        invariant InitDone(bitmap[..], numEntries, i, index)
      {
        InitStep(bitmap[..], numEntries, i, index);
        if Shr(numEntries, i) % 2 == 1 {
          ghost var before := bitmap[..];
          bitmap[index] := bitmap[index].(order := i);
          assert bitmap[..] == before[index := before[index].(order := i)];
          index := index + Pow2(bitmap[index].order);
        }
        i := i - 1;
      }
      InitRepresents(bitmap[..], numEntries, index);
    }

    /** `ba_order` */
    method Order(len: nat) returns (i: nat)
      requires Shape()
      ensures i == OrderOf(minAlloc, len)
    {
      var units := ((len + minAlloc - 1) % WORD) / minAlloc;
      units := (units - 1) % WORD;
      i := 0;
      while i < 32
        invariant 0 <= i <= 32
        invariant FirstZero(units, i) == OrderOf(minAlloc, len)
      {
        if Shr(units, i) == 0 {
          break;
        }
        i := i + 1;
      }
    }

    /** `ba_allocate`: best fit, lowest address first, then split down to size. */
    method Allocate(len: nat) returns (r: int)
      requires Valid() && len < WORD
      modifies this`live, bitmap
      ensures Valid()
      ensures r < 0 ==> r == -1 && live == old(live) && bitmap[..] == old(bitmap[..])
      ensures r < 0 <==> (OrderOf(minAlloc, len) > maxOrder || NoRun(numEntries, old(live), OrderOf(minAlloc, len)))
      ensures r >= 0 ==> r !in old(live) && live == old(live)[r := OrderOf(minAlloc, len)]
      ensures r >= 0 ==> LeastOrder(minAlloc, len, live[r])
      ensures r >= 0 ==> exists k: nat :: BestFit(numEntries, old(live), OrderOf(minAlloc, len), r, k)
    {
      var order := Order(len);
      if order > maxOrder {
        return -1;
      }
      ghost var k: nat;
      r, k := FindBestFit(order);
      if r >= 0 {
        FitsWord(numEntries, live, r, k, order);
        OrderMeaning(minAlloc, len);
        CarveLiveOk(numEntries, live, r, order, k);
        Split(r, order, k);
      }
    }

    /** The scan of `ba_allocate` over the block heads. */
    method FindBestFit(order: nat) returns (best: int, ghost k: nat)
      requires Valid()
      ensures best < 0 ==> best == -1 && NoRun(numEntries, live, order)
      ensures best >= 0 ==> BestFit(numEntries, live, order, best, k) && bitmap[best] == Bits(k, false)
    {
      best, k := -1, 0;
      var curr: nat := 0;
      ghost var o: nat := ScanStart(numEntries, live, order);
      while curr < numEntries
        invariant ScanDone(numEntries, live, order, curr, o, best, k)
        invariant best >= 0 ==> bitmap[best] == Bits(k, false)
        decreases numEntries - curr
      {
        HeadCell(bitmap[..], numEntries, live, curr, o);
        ghost var p := ScanStep(numEntries, live, order, curr, o, best, k);
        if !bitmap[curr].used {
          if bitmap[curr].order == order {
            best, k := curr, o;
            return;
          }
          if bitmap[curr].order > order && (best < 0 || bitmap[curr].order < bitmap[best].order) {
            best, k := curr, o;
          }
        }
        curr, o := curr + Pow2(bitmap[curr].order), p;
      }
      ScanEnd(numEntries, live, order, o, best, k);
    }

    /** Carves `(best, order)` out of the free block `(best, k)` and marks it. */
    method Split(best: nat, order: nat, ghost k: nat)
      requires Valid() && MaxRun(numEntries, live, best, k) && order <= k && bitmap[best] == Bits(k, false)
      modifies this`live, bitmap
      ensures Valid() && best !in old(live) && live == old(live)[best := order]
    {
      SplitLoop(best, order, k);
      SplitRepresents(bitmap[..], old(bitmap[..]), numEntries, live, best, order, k);
      ghost var before := bitmap[..];
      bitmap[best] := bitmap[best].(used := true);
      assert bitmap[..] == before[best := Bits(order, true)];
      live := live[best := order];
    }

    /** The splitting loop of `ba_allocate`. */
    method SplitLoop(best: nat, order: nat, ghost k: nat)
      requires Aligned(best, k) && best + Pow2(k) <= bitmap.Length && bitmap[best].order == k && order <= k
      modifies bitmap
      ensures SplitDown(bitmap[..], old(bitmap[..]), best, order, k, best + Pow2(k))
    {
      ghost var cells := bitmap[..];
      while bitmap[best].order > order
        invariant order <= bitmap[best].order
        invariant SplitDown(bitmap[..], cells, best, bitmap[best].order, k, best + Pow2(k))
      {
        ghost var before, m := bitmap[..], bitmap[best].order - 1;
        SplitIndex(best, m, k);
        SplitStep(before, cells, best, m, k, best + Pow2(k), Right(best, m));
        bitmap[best] := bitmap[best].(order := bitmap[best].order - 1);
        var buddy := Buddy(best, bitmap[best].order);
        bitmap[buddy] := bitmap[buddy].(order := bitmap[best].order);
        assert bitmap[..] == before[best := before[best].(order := m)][buddy := before[buddy].(order := m)];
      }
    }

    /** `ba_free`.  The source tests `curr`, not `buddy`, against the end of the bitmap; `pastEnd` reports that it
        reads the cell after the last one, whose content is `beyond`, and `spills` that it goes on to merge with
        that cell, which is where the model stops. */
    method Free(index: nat, beyond: Bits) returns (pastEnd: bool, spills: bool)
      requires Valid() && index in live
      modifies this`live, bitmap
      ensures live == old(live) - {index} && (!spills ==> Valid())
      ensures pastEnd <==> EmptiesLastTop(numEntries, old(live), index)
      ensures spills <==> pastEnd && SpillsInto(numEntries, old(live), index, beyond)
    {
      MergeStart(bitmap[..], numEntries, live, index);
      ghost var cells := bitmap[..];
      var curr := index;
      bitmap[curr] := bitmap[curr].(used := false);
      assert bitmap[..] == cells[index := Bits(live[index], false)];
      pastEnd, spills := false, false;
      while true
        modifies bitmap
        invariant !pastEnd && !spills && curr < numEntries
        invariant Merged(bitmap[..], cells, numEntries, live, index, curr, bitmap[curr].order)
        decreases numEntries - bitmap[curr].order
      {
        ghost var before, p := bitmap[..], bitmap[curr].order;
        JoinRuns(numEntries, live - {index}, curr, p);
        var buddy := Buddy(curr, bitmap[curr].order);
        if buddy >= numEntries {
          pastEnd := true;
          spills := !beyond.used && beyond.order == bitmap[curr].order;
          break;
        }
        BuddyTest(cells, numEntries, live, index, curr, p, buddy);
        if !bitmap[buddy].used && bitmap[buddy].order == bitmap[curr].order {
          MergeStep(before, cells, numEntries, live, index, curr, p, buddy);
          bitmap[buddy] := bitmap[buddy].(order := bitmap[buddy].order + 1);
          bitmap[curr] := bitmap[curr].(order := bitmap[curr].order + 1);
          assert bitmap[..] == before[buddy := Bits(p + 1, false)][curr := Bits(p + 1, false)];
          curr := if buddy < curr then buddy else curr;
        } else {
          break;
        }
      }
      MergeEnd(bitmap[..], cells, numEntries, live, index, curr, bitmap[curr].order);
      PastEnd(numEntries, live, index, curr, bitmap[curr].order);
      if pastEnd {
        Spills(numEntries, live, index, curr, bitmap[curr].order, beyond);
      }
      live := live - {index};
    }

    /** `ba_start_addr` */
    function StartAddr(index: nat): (addr: nat) {
      index * minAlloc + base
    }

    /** `ba_len` */
    function Len(index: nat): (len: nat)
      requires index < bitmap.Length
      reads bitmap
    {
      Pow2(bitmap[index].order) * minAlloc
    }

    /** The ranges reported for live indices: inside the region, 32-bit, pairwise disjoint. */
    lemma LiveRanges(i: nat, j: nat)
      requires Valid() && i in live && j in live
      ensures i < bitmap.Length && Len(i) == Pow2(live[i]) * minAlloc
      ensures base <= StartAddr(i) && StartAddr(i) + Len(i) <= base + size <= WORD
      ensures i < j ==> StartAddr(i) + Len(i) <= StartAddr(j)
    {
      assert Block(numEntries, live, i, live[i]);
      AddressRanges(numEntries, live, base, size, minAlloc, i, j);
    }
  }
}
