/**
 The arc4 generator of `bionic/libc/bionic/arc4random.c`: the permutation
 state, the reseed counter and the bounded draw.

 Locks and the process-id test are left out: each public call is atomic and
 the process is fixed.
 */
module Arc4 {
  import opened Basics

  const HALF: nat := 0x8000_0000

  // ----- The stream as a value

  datatype Stream = Stream(i: u8, j: u8, s: seq<u8>)

  /** `s` is a permutation of 0..255. */
  ghost predicate Perm(s: seq<u8>) {
    |s| == 256 && forall a, b :: 0 <= a < b < 256 ==> s[a] != s[b]
  }

  function Swap(s: seq<u8>, i: u8, j: u8): (r: seq<u8>)
    requires |s| == 256
    ensures |r| == 256
  {
    s[i := s[j]][j := s[i]]
  }

  function Identity(): seq<u8> {
    seq(256, n requires 0 <= n < 256 => n)
  }

  /** The state change of arc4_getbyte. */
  function Advance(r: Stream): Stream
    requires |r.s| == 256
  {
    var i := (r.i + 1) % 256;
    var j := (r.j + r.s[i]) % 256;
    Stream(i, j, Swap(r.s, i, j))
  }

  /** The byte arc4_getbyte returns in its new state. */
  function Output(r: Stream): u8
    requires |r.s| == 256
  {
    var a: nat, b: nat := r.s[r.i], r.s[r.j];
    r.s[(a + b) % 256]
  }

  function AdvanceBy(r: Stream, n: nat): (r': Stream)
    requires |r.s| == 256
    ensures |r'.s| == 256
  {
    if n == 0 then r else Advance(AdvanceBy(r, n - 1))
  }

  /** One round of arc4_addrandom. */
  function Mix(r: Stream, d: u8): Stream
    requires |r.s| == 256
  {
    var i := (r.i + 1) % 256;
    var j := (r.j + r.s[i] + d) % 256;
    Stream(i, j, Swap(r.s, i, j))
  }

  function MixRounds(r: Stream, dat: seq<u8>, n: nat): (r': Stream)
    requires |r.s| == 256 && dat != []
    ensures |r'.s| == 256
  {
    if n == 0 then r else Mix(MixRounds(r, dat, n - 1), dat[(n - 1) % |dat|])
  }

  /** arc4_addrandom */
  function Mixed(r: Stream, dat: seq<u8>): Stream
    requires |r.s| == 256 && dat != []
  {
    var m := MixRounds(r.(i := (r.i + 255) % 256), dat, 256);
    m.(j := m.i)
  }

  // ----- What every step keeps

  lemma SwapPerm(s: seq<u8>, i: u8, j: u8)
    requires Perm(s)
    ensures Perm(Swap(s, i, j))
  {
  }

  lemma {:induction false} AdvancePerm(r: Stream, n: nat)
    requires Perm(r.s)
    ensures Perm(AdvanceBy(r, n).s)
  {
    if n != 0 {
      AdvancePerm(r, n - 1);
      var q := AdvanceBy(r, n - 1);
      var i := (q.i + 1) % 256;
      SwapPerm(q.s, i, (q.j + q.s[i]) % 256);
    }
  }

  lemma {:induction false} MixPerm(r: Stream, dat: seq<u8>, n: nat)
    requires Perm(r.s) && dat != []
    ensures Perm(MixRounds(r, dat, n).s)
  {
    if n != 0 {
      MixPerm(r, dat, n - 1);
      var q := MixRounds(r, dat, n - 1);
      var i := (q.i + 1) % 256;
      SwapPerm(q.s, i, (q.j + q.s[i] + dat[(n - 1) % |dat|]) % 256);
    }
  }

  /** The state before a byte was drawn. */
  function Retreat(r: Stream): Stream
    requires |r.s| == 256
  {
    var s := Swap(r.s, r.i, r.j);
    Stream((r.i + 255) % 256, (r.j + 256 - s[r.i]) % 256, s)
  }

  /** Drawing loses nothing: the previous state can be recovered, so distinct states stay distinct. */
  lemma AdvanceInvertible(r: Stream)
    requires |r.s| == 256
    ensures Retreat(Advance(r)) == r
  {
    var i := (r.i + 1) % 256;
    var j := (r.j + r.s[i]) % 256;
    assert Swap(Swap(r.s, i, j), i, j) == r.s;
    StepBack(r.i, 1);
    StepBack(r.j, r.s[i]);
  }

  /** Adding and subtracting `d` on bytes. */
  lemma StepBack(x: u8, d: u8)
    ensures (Nat(x) + d) % 256 + 256 - d >= 0 && ((Nat(x) + d) % 256 + 256 - d) % 256 == x
  {
    assert (Nat(x) + d) % 256 == if Nat(x) + d < 256 then Nat(x) + d else Nat(x) + d - 256;
  }

  /** The exchange moves two entries and no other. */
  lemma SwapIs(s: seq<u8>, i: u8, j: u8, k: u8)
    requires |s| == 256
    ensures Swap(s, i, j)[k] == if k == i then s[j] else if k == j then s[i] else s[k]
  {
  }

  /** `n` steps back. */
  ghost function RetreatBy(r: Stream, n: nat): (r': Stream)
    requires |r.s| == 256
    ensures |r'.s| == 256
    decreases n
  {
    if n == 0 then r else RetreatBy(Retreat(r), n - 1)
  }

  lemma {:induction false} AdvanceByInvertible(r: Stream, n: nat)
    requires |r.s| == 256
    ensures RetreatBy(AdvanceBy(r, n), n) == r
  {
    if n != 0 {
      AdvanceInvertible(AdvanceBy(r, n - 1));
      AdvanceByInvertible(r, n - 1);
    }
  }

  /** The byte drawn from `r`: with x and y the entries at the new i and the new j, entry (x + y) mod 256 of the
      permutation in which the two have changed places. */
  lemma Drawn(r: Stream, i: u8, j: u8)
    requires |r.s| == 256 && i == (r.i + 1) % 256 && j == (r.j + r.s[i]) % 256
    ensures var x: nat, y: nat := r.s[i], r.s[j];
            Output(Advance(r)) == r.s[i := r.s[j]][j := r.s[i]][(x + y) % 256]
  {
    assert Advance(r).s[i] == r.s[j] && Advance(r).s[j] == r.s[i];
  }

  /** From the initial permutation the stream starts with 2 and 5. */
  lemma FirstBytes()
    ensures var r := Stream(0, 0, Identity());
            Output(AdvanceBy(r, 1)) == 2 && Output(AdvanceBy(r, 2)) == 5
  {
    var r := Stream(0, 0, Identity());
    assert AdvanceBy(r, 1) == Advance(r) by {
      assert AdvanceBy(r, 0) == r;
    }
    var q := Advance(r);
    assert q == Stream(1, 1, Identity());
    assert AdvanceBy(r, 2) == Advance(q);
    Drawn(r, 1, 1);
    Drawn(q, 2, 3);
  }

  // ----- What mixing in a seed keeps

  /** The state before the byte `d` was mixed in. */
  ghost function Unmix(r: Stream, d: u8): Stream
    requires |r.s| == 256
  {
    var s := Swap(r.s, r.i, r.j);
    Stream((r.i + 255) % 256, (r.j + 512 - s[r.i] - d) % 256, s)
  }

  /** The byte that leads from one state to the next. */
  ghost function SeedByte(r: Stream, next: Stream): u8
    requires |r.s| == 256
  {
    (next.j + 512 - r.j - r.s[next.i]) % 256
  }

  /** A round loses neither the state nor the byte: the old state is recovered from the new one and the byte,
      and the byte from the two states. */
  lemma MixInvertible(r: Stream, d: u8)
    requires |r.s| == 256
    ensures Unmix(Mix(r, d), d) == r && SeedByte(r, Mix(r, d)) == d
  {
    var i := (r.i + 1) % 256;
    var j := (r.j + r.s[i] + d) % 256;
    assert Swap(Swap(r.s, i, j), i, j) == r.s;
    StepBack(r.i, 1);
    TwoStepsBack(r.j, r.s[i], d);
  }

  lemma TwoStepsBack(x: u8, a: u8, d: u8)
    ensures ((Nat(x) + a + d) % 256 + 512 - a - d) % 256 == x
    ensures ((Nat(x) + a + d) % 256 + 512 - x - a) % 256 == d
  {
    var t := Nat(x) + a + d;
    assert t % 256 == if t < 256 then t else if t < 512 then t - 256 else t - 512;
  }

  /** So distinct states stay distinct while the same seed is mixed in, */
  lemma {:induction false} MixInjective(r: Stream, q: Stream, dat: seq<u8>, n: nat)
    requires |r.s| == |q.s| == 256 && dat != [] && r != q
    ensures MixRounds(r, dat, n) != MixRounds(q, dat, n)
  {
    if n != 0 {
      MixInjective(r, q, dat, n - 1);
      MixInvertible(MixRounds(r, dat, n - 1), dat[(n - 1) % |dat|]);
      MixInvertible(MixRounds(q, dat, n - 1), dat[(n - 1) % |dat|]);
    }
  }

  lemma {:induction false} SameSeed(r: Stream, a: seq<u8>, b: seq<u8>, n: nat)
    requires |r.s| == 256 && a != [] && b != [] && forall k :: 0 <= k < n ==> a[k % |a|] == b[k % |b|]
    ensures MixRounds(r, a, n) == MixRounds(r, b, n)
  {
    if n != 0 {
      SameSeed(r, a, b, n - 1);
    }
  }

  /** and two seeds lead to the same state up to the round where their bytes first differ, and to different
      states after it. */
  lemma SeedsDiffer(r: Stream, a: seq<u8>, b: seq<u8>, n: nat)
    requires |r.s| == 256 && a != [] && b != []
    requires (forall k :: 0 <= k < n ==> a[k % |a|] == b[k % |b|]) && a[n % |a|] != b[n % |b|]
    ensures MixRounds(r, a, n) == MixRounds(r, b, n) && MixRounds(r, a, n + 1) != MixRounds(r, b, n + 1)
  {
    SameSeed(r, a, b, n);
    MixInvertible(MixRounds(r, a, n), a[n % |a|]);
    MixInvertible(MixRounds(r, b, n), b[n % |b|]);
  }

  lemma {:induction false} MixIndex(r: Stream, dat: seq<u8>, n: nat)
    requires |r.s| == 256 && dat != []
    ensures MixRounds(r, dat, n).i == (r.i + n) % 256
  {
    if n != 0 {
      MixIndex(r, dat, n - 1);
      MixNext(MixRounds(r, dat, n - 1), dat[(n - 1) % |dat|], r.i + (n - 1));
    }
  }

  lemma MixNext(q: Stream, d: u8, x: nat)
    requires |q.s| == 256 && q.i == x % 256
    ensures Mix(q, d).i == (x + 1) % 256
  {
    NextIndex(x);
  }

  lemma NextIndex(x: nat)
    ensures (x % 256 + 1) % 256 == (x + 1) % 256
  {
  }

  /** A whole seeding goes once around: it starts one entry early and ends there, with j brought along. */
  lemma MixedIndices(r: Stream, dat: seq<u8>)
    requires |r.s| == 256 && dat != []
    ensures Mixed(r, dat).i == Mixed(r, dat).j == (r.i + 255) % 256
    ensures Mixed(r, dat).s == MixRounds(r.(i := (r.i + 255) % 256), dat, 256).s
  {
    var q := r.(i := (r.i + 255) % 256);
    MixIndex(q, dat, 256);
    FullTurn(q.i);
  }

  lemma FullTurn(x: u8)
    ensures (Nat(x) + 256) % 256 == x
  {
  }

  // ----- The bounded draw

  /** 2^32 mod `bound` without 64-bit arithmetic; every intermediate value is a 32-bit word. */
  function RejectBelow(bound: u32): u32
    requires bound >= 2
  {
    if bound > HALF then (1 + (WORD - 1 - bound)) % WORD
    else ((0xffff_ffff - (bound * 2) % WORD + 1) % WORD) % bound
  }

  lemma ModUnique(x: nat, b: nat, q: nat, r: nat)
    requires 0 < b && x == q * b + r && r < b
    ensures x % b == r && x / b == q
  {
    var d := x / b - q;
    assert x / b * b + x % b == x;
    assert d * b == r - x % b by {
      assert (x / b - q) * b == x / b * b - q * b;
    }
    SmallMultiple(d, b);
  }

  lemma SmallMultiple(d: int, b: int)
    requires 0 < b && -b < d * b < b
    ensures d == 0
  {
    if d > 0 {
      assert (d - 1) * b == d * b - b;
      NonNegative(d - 1, b);
    } else if d < 0 {
      assert (-d - 1) * b == -(d * b) - b;
      NonNegative(-d - 1, b);
    }
  }

  lemma ModShift(x: nat, b: nat)
    requires 0 < b <= x
    ensures (x - b) % b == x % b
  {
    var q, r := (x - b) / b, (x - b) % b;
    assert q * b + r == x - b;
    assert (q + 1) * b == q * b + b;
    ModUnique(x, b, q + 1, r);
  }

  lemma RejectHigh(bound: u32)
    requires bound > HALF
    ensures RejectBelow(bound) == WORD % bound < HALF
  {
    ModUnique(WORD, bound, 1, WORD - bound);
  }

  lemma RejectLow(bound: u32)
    requires 2 <= bound < HALF
    ensures RejectBelow(bound) == WORD % bound < HALF
  {
    var x := WORD - 2 * bound;
    assert (0xffff_ffff - (bound * 2) % WORD + 1) % WORD == x;
    ModShift(WORD, bound);
    ModShift(WORD - bound, bound);
    assert x % bound < bound;
  }

  /** The 32-bit formula is right in every branch, and more than half of all words are accepted. */
  lemma RejectBelowIs(bound: u32)
    requires bound >= 2
    ensures RejectBelow(bound) == WORD % bound < HALF
  {
    if bound > HALF {
      RejectHigh(bound);
    } else if bound < HALF {
      RejectLow(bound);
    }
  }

  /** The words from `lo` up to `hi` that are reduced to `v`. */
  ghost function Hits(lo: nat, hi: nat, bound: nat, v: nat): set<nat>
    requires bound > 0
  {
    if hi <= lo then {}
    else Hits(lo, hi - 1, bound, v) + (if (hi - 1) % bound == v then {hi - 1} else {})
  }

  lemma {:induction false} HitsMember(lo: nat, hi: nat, bound: nat, v: nat, r: nat)
    requires bound > 0
    ensures r in Hits(lo, hi, bound, v) <==> lo <= r < hi && r % bound == v
  {
    if lo < hi {
      HitsMember(lo, hi - 1, bound, v, r);
    }
  }

  /** One more word is one more hit or none. */
  lemma HitsNext(lo: nat, hi: nat, bound: nat, v: nat)
    requires bound > 0 && lo <= hi
    ensures |Hits(lo, hi + 1, bound, v)| == |Hits(lo, hi, bound, v)| + (if hi % bound == v then 1 else 0)
  {
    HitsMember(lo, hi, bound, v, hi);
    assert Hits(lo, hi + 1, bound, v) == Hits(lo, hi, bound, v) + (if hi % bound == v then {hi} else {});
  }

  /** How many words from `lo` up to `hi` are reduced to `v`. */
  ghost function Count(lo: nat, hi: nat, bound: nat, v: nat): nat
    requires bound > 0
  {
    if hi <= lo then 0 else Count(lo, hi - 1, bound, v) + (if (hi - 1) % bound == v then 1 else 0)
  }

  lemma {:induction false} HitsCount(lo: nat, hi: nat, bound: nat, v: nat)
    requires bound > 0
    ensures |Hits(lo, hi, bound, v)| == Count(lo, hi, bound, v)
  {
    if lo < hi {
      HitsCount(lo, hi - 1, bound, v);
      HitsNext(lo, hi - 1, bound, v);
    } else {
      assert Hits(lo, hi, bound, v) == {};
    }
  }

  lemma {:induction false} CountSplit(a: nat, b: nat, bound: nat, v: nat)
    requires bound > 0 && a <= b
    ensures Count(0, b, bound, v) == Count(0, a, bound, v) + Count(a, b, bound, v)
  {
    if a < b {
      CountSplit(a, b - 1, bound, v);
    }
  }

  /** Among the words below `q * bound + k` there are `q` that reduce to `v`, or one more. */
  lemma {:induction false} CountBelow(q: nat, k: nat, bound: nat, v: nat, n: nat)
    requires 0 < bound && v < bound && k < bound && n == q * bound + k
    ensures Count(0, n, bound, v) == q + (if v < k then 1 else 0)
    decreases n
  {
    if n != 0 {
      if k != 0 {
        ModUnique(n - 1, bound, q, k - 1);
        CountBelow(q, k - 1, bound, v, n - 1);
      } else {
        LastOfBlock(q, bound, n);
        CountBelow(q - 1, bound - 1, bound, v, n - 1);
      }
    } else {
      NoProduct(q, bound);
    }
  }

  lemma NoProduct(q: nat, bound: nat)
    requires q * bound == 0 && bound > 0
    ensures q == 0
  {
    SmallMultiple(q, bound);
  }

  lemma LastOfBlock(q: nat, bound: nat, n: nat)
    requires 0 < bound && 0 < n == q * bound
    ensures q > 0 && n - 1 == (q - 1) * bound + (bound - 1) && (n - 1) % bound == bound - 1
  {
    assert q * bound == (q - 1) * bound + bound;
    ModUnique(n - 1, bound, q - 1, bound - 1);
  }

  /** No modulo bias: every result below `bound` comes from the same number of accepted words. */
  lemma Unbiased(bound: u32, v: nat)
    requires bound >= 2 && v < bound
    ensures |Hits(RejectBelow(bound), WORD, bound, v)| == WORD / bound
  {
    var min, q := WORD % bound, WORD / bound;
    RejectBelowIs(bound);
    assert q * bound + min == WORD;
    CountBelow(q, min, bound, v, WORD);
    CountBelow(0, min, bound, v, min);
    CountSplit(min, WORD, bound, v);
    HitsCount(min, WORD, bound, v);
  }

  /** arc4random_uniform over a supply of words: the first accepted word, reduced; `used` words are drawn.
      Without an accepted word the loop goes on drawing, which `done` reports. */
  method Uniform(bound: u32, words: seq<u32>) returns (done: bool, r: nat, used: nat)
    ensures bound < 2 ==> done && r == 0 && used == 0
    ensures bound >= 2 && done ==> 0 < used <= |words| && words[used - 1] >= WORD % bound && r == words[used - 1] % bound < bound
    ensures bound >= 2 && done ==> forall k :: 0 <= k < used - 1 ==> words[k] < WORD % bound
    ensures bound >= 2 && !done ==> forall k :: 0 <= k < |words| ==> words[k] < WORD % bound
  {
    if bound < 2 {
      return true, 0, 0;
    }
    RejectBelowIs(bound);
    var min := RejectBelow(bound);
    used := 0;
    while used < |words|
      invariant 0 <= used <= |words|
      invariant forall k :: 0 <= k < used ==> words[k] < min
    {
      var word := words[used];
      used := used + 1;
      if word >= min {
        return true, word % bound, used;
      }
    }
    return false, 0, used;
  }

  // ----- The generator as a value

  const STIR_COUNT: nat := 1600000

  /** Stream, reseed counter, whether it was ever stirred, and the bytes handed out since the last stir. */
  datatype Gen = Gen(r: Stream, count: int, init: bool, drawn: nat)

  type Seed = d: seq<u8> | |d| == 128 witness seq(128, _ => 0)

  /** Holds between calls. */
  ghost predicate GenOk(g: Gen) {
    && |g.r.s| == 256
    && (g.init ==> Perm(g.r.s) && g.count >= 1 && g.drawn + g.count <= STIR_COUNT + 4)
  }

  ghost predicate Sized(g: Gen) {
    |g.r.s| == 256
  }

  /** arc4_stir */
  ghost function Stirred(g: Gen, rdat: Seed): (g': Gen)
    requires Sized(g)
    ensures Sized(g')
  {
    var r := if g.init then g.r else Stream(0, 0, Identity());
    Gen(AdvanceBy(Mixed(r, rdat), 256), STIR_COUNT, true, 0)
  }

  ghost function Spent(g: Gen, n: nat): Gen {
    g.(count := g.count - n)
  }

  /** `n` bytes leave the generator. */
  ghost function Took(g: Gen, n: nat): (g': Gen)
    requires Sized(g)
    ensures Sized(g')
  {
    g.(r := AdvanceBy(g.r, n), drawn := g.drawn + n)
  }

  /** __arc4_getbyte */
  ghost function AfterByte(g: Gen, rdat: Seed): (g': Gen)
    requires Sized(g)
    ensures Sized(g')
  {
    Took(if g.count - 1 == 0 || !g.init then Stirred(Spent(g, 1), rdat) else Spent(g, 1), 1)
  }

  /** arc4random, up to and including the stir. */
  ghost function ReadyWord(g: Gen, rdat: Seed): (g': Gen)
    requires Sized(g)
    ensures Sized(g')
  {
    if g.count - 4 <= 0 || !g.init then Stirred(Spent(g, 4), rdat) else Spent(g, 4)
  }

  /** One byte of arc4random_buf. */
  ghost function AfterBufByte(g: Gen, rdat: Seed): (g': Gen)
    requires Sized(g)
    ensures Sized(g')
  {
    Took(if g.count - 1 <= 0 then Stirred(Spent(g, 1), rdat) else Spent(g, 1), 1)
  }

  ghost function AfterBuf(g: Gen, rdats: seq<Seed>): (g': Gen)
    requires Sized(g)
    ensures Sized(g')
  {
    if rdats == [] then g else AfterBufByte(AfterBuf(g, rdats[..|rdats| - 1]), rdats[|rdats| - 1])
  }

  /** The public calls, with the seed material each may use. */
  datatype Call =
    | Byte(rdat: Seed)
    | Word(rdat: Seed)
    | Buf(rdat: Seed, rdats: seq<Seed>)
    | Stir(rdat: Seed)
    | Add(dat: seq<u8>, rdat: Seed)

  ghost function After(g: Gen, c: Call): (g': Gen)
    requires Sized(g) && (c.Add? ==> c.dat != [])
    ensures Sized(g')
  {
    match c
    case Byte(rdat) => AfterByte(g, rdat)
    case Word(rdat) => Took(ReadyWord(g, rdat), 4)
    case Buf(rdat, rdats) => AfterBuf(if g.init then g else Stirred(g, rdat), rdats)
    case Stir(rdat) => Stirred(g, rdat)
    case Add(dat, rdat) => var g1 := if g.init then g else Stirred(g, rdat); AddSized(g1.r, dat); g1.(r := Mixed(g1.r, dat))
  }

  lemma AddSized(r: Stream, dat: seq<u8>)
    requires |r.s| == 256 && dat != []
    ensures |Mixed(r, dat).s| == 256
  {
  }

  lemma IdentityPerm()
    ensures Perm(Identity())
  {
  }

  lemma MixedPerm(r: Stream, dat: seq<u8>)
    requires Perm(r.s) && dat != []
    ensures Perm(Mixed(r, dat).s)
  {
    MixPerm(r.(i := (r.i + 255) % 256), dat, 256);
  }

  lemma StirredOk(g: Gen, rdat: Seed)
    requires Sized(g) && (g.init ==> Perm(g.r.s))
    ensures var h := Stirred(g, rdat); Perm(h.r.s) && h.init && h.count == STIR_COUNT && h.drawn == 0
  {
    var r := if g.init then g.r else Stream(0, 0, Identity());
    IdentityPerm();
    MixedPerm(r, rdat);
    AdvancePerm(Mixed(r, rdat), 256);
  }

  /** Stirring mixes in the seed and discards 256 bytes: 256 steps back the seeded state appears. */
  lemma StirredFrom(g: Gen, rdat: Seed)
    requires Sized(g)
    ensures RetreatBy(Stirred(g, rdat).r, 256) == Mixed(if g.init then g.r else Stream(0, 0, Identity()), rdat)
  {
    AdvanceByInvertible(Mixed(if g.init then g.r else Stream(0, 0, Identity()), rdat), 256);
  }

  /** Once stirred, a call stirs again exactly when the bytes it asks for would use up the counter. */
  lemma StirsWhenDue(g: Gen, rdat: Seed)
    requires GenOk(g) && g.init
    ensures AfterByte(g, rdat).count == AfterBufByte(g, rdat).count == if g.count <= 1 then 1600000 else g.count - 1
    ensures ReadyWord(g, rdat).count == if g.count <= 4 then 1600000 else g.count - 4
    ensures AfterByte(g, rdat).drawn == AfterBufByte(g, rdat).drawn == if g.count <= 1 then 1 else g.drawn + 1
    ensures ReadyWord(g, rdat).drawn == if g.count <= 4 then 0 else g.drawn
  {
  }

  lemma BufByteOk(g: Gen, rdat: Seed)
    requires GenOk(g) && g.init
    ensures GenOk(AfterBufByte(g, rdat)) && AfterBufByte(g, rdat).init
  {
    StirredOk(Spent(g, 1), rdat);
    AdvancePerm(Stirred(Spent(g, 1), rdat).r, 1);
    AdvancePerm(g.r, 1);
  }

  lemma {:induction false} BufOk(g: Gen, rdats: seq<Seed>)
    requires GenOk(g) && g.init
    ensures GenOk(AfterBuf(g, rdats)) && AfterBuf(g, rdats).init
  {
    if rdats != [] {
      BufOk(g, rdats[..|rdats| - 1]);
      BufByteOk(AfterBuf(g, rdats[..|rdats| - 1]), rdats[|rdats| - 1]);
    }
  }

  /** Every call keeps the permutation and leaves the counter positive. */
  lemma CallOk(g: Gen, c: Call)
    requires GenOk(g) && (c.Add? ==> c.dat != [])
    ensures GenOk(After(g, c)) && After(g, c).init
  {
    StirredOk(g, c.rdat);
    match c
    case Byte(rdat) =>
      StirredOk(Spent(g, 1), rdat);
      AdvancePerm(Stirred(Spent(g, 1), rdat).r, 1);
      if g.init {
        AdvancePerm(g.r, 1);
      }
    case Word(rdat) =>
      StirredOk(Spent(g, 4), rdat);
      AdvancePerm(Stirred(Spent(g, 4), rdat).r, 4);
      if g.init {
        AdvancePerm(g.r, 4);
      }
    case Buf(rdat, rdats) =>
      BufOk(if g.init then g else Stirred(g, rdat), rdats);
    case Stir(_) =>
    case Add(dat, rdat) =>
      MixedPerm((if g.init then g else Stirred(g, rdat)).r, dat);
  }

  ghost predicate CallsOk(cs: seq<Call>) {
    forall k :: 0 <= k < |cs| ==> cs[k].Add? ==> cs[k].dat != []
  }

  ghost function Run(g: Gen, cs: seq<Call>): (g': Gen)
    requires Sized(g) && CallsOk(cs)
    ensures Sized(g')
  {
    if cs == [] then g else After(Run(g, cs[..|cs| - 1]), cs[|cs| - 1])
  }

  /** After any sequence of calls the state is a permutation, the counter is at least 1, and no more than
      1,600,003 bytes have been handed out since the last stir. */
  lemma {:induction false} RunOk(g: Gen, cs: seq<Call>)
    requires GenOk(g) && CallsOk(cs)
    ensures GenOk(Run(g, cs)) && (cs != [] ==> Run(g, cs).init && Run(g, cs).drawn <= 1600003)
  {
    if cs != [] {
      RunOk(g, cs[..|cs| - 1]);
      CallOk(Run(g, cs[..|cs| - 1]), cs[|cs| - 1]);
    }
  }

  lemma {:induction false} Drain(g: Gen, rdat: Seed, k: nat)
    requires Sized(g) && g.init && g.count > k
    ensures CallsOk(seq(k, _ => Byte(rdat)))
    ensures var h := Run(g, seq(k, _ => Byte(rdat))); h.init && h.count == g.count - k && h.drawn == g.drawn + k
  {
    if k != 0 {
      Drain(g, rdat, k - 1);
      assert seq(k, _ => Byte(rdat))[..k - 1] == seq(k - 1, _ => Byte(rdat));
    }
  }

  /** The bound on the bytes between two stirs is reached: a word that stirs, then single bytes. */
  lemma BoundReached(g: Gen, rdat: Seed)
    requires GenOk(g) && !g.init
    ensures exists cs: seq<Call> :: CallsOk(cs) && Run(g, cs).drawn == 1600003
  {
    var h := After(g, Word(rdat));
    WordStirs(g, rdat);
    var bytes := seq(1599999, _ => Byte(rdat));
    Drain(h, rdat, 1599999);
    RunAppend(g, [Word(rdat)], bytes);
    assert Run(g, [Word(rdat)] + bytes).drawn == 1600003;
  }

  lemma WordStirs(g: Gen, rdat: Seed)
    requires Sized(g) && !g.init
    ensures CallsOk([Word(rdat)]) && Run(g, [Word(rdat)]) == After(g, Word(rdat))
    ensures var h := After(g, Word(rdat)); h.init && h.count == STIR_COUNT && h.drawn == 4
  {
    assert [Word(rdat)][..0] == [];
  }

  lemma {:induction false} RunAppend(g: Gen, cs: seq<Call>, ds: seq<Call>)
    requires Sized(g) && CallsOk(cs) && CallsOk(ds)
    ensures CallsOk(cs + ds) && Run(g, cs + ds) == Run(Run(g, cs), ds)
  {
    if ds == [] {
      assert cs + ds == cs;
    } else {
      RunAppend(g, cs, ds[..|ds| - 1]);
      assert (cs + ds)[..|cs + ds| - 1] == cs + ds[..|ds| - 1];
    }
  }

  /** The bytes of the first `k` turns of arc4random_buf, the latest first. */
  ghost function BufOutputs(g: Gen, rdats: seq<Seed>, k: nat): seq<u8>
    requires Sized(g) && k <= |rdats|
  {
    if k == 0 then [] else [Output(AfterBuf(g, rdats[..k]).r)] + BufOutputs(g, rdats, k - 1)
  }

  /** After `m` turns of arc4random_buf the state is `h` and `out` has been drawn, the last byte first; folded, see
      `FilledIs`. */
  ghost predicate Filled(g: Gen, rdats: seq<Seed>, m: nat, h: Gen, out: seq<u8>)
    requires Sized(g) && m <= |rdats|
  {
    forall i {:trigger Parts(i)} :: Parts(i) ==> h == AfterBuf(g, rdats[..m]) && out == BufOutputs(g, rdats, m)
  }

  lemma FilledIs(g: Gen, rdats: seq<Seed>, m: nat, h: Gen, out: seq<u8>)
    requires Sized(g) && m <= |rdats|
    ensures Filled(g, rdats, m, h, out) <==> h == AfterBuf(g, rdats[..m]) && out == BufOutputs(g, rdats, m)
  {
    assert Parts(0);
  }

  lemma FilledMore(g: Gen, rdats: seq<Seed>, m: nat, h: Gen, out: seq<u8>)
    requires Sized(g) && m < |rdats| && Filled(g, rdats, m, h, out)
    ensures Sized(h) && Filled(g, rdats, m + 1, AfterBufByte(h, rdats[m]), [Output(AfterBufByte(h, rdats[m]).r)] + out)
  {
    FilledIs(g, rdats, m, h, out);
    assert rdats[..m + 1][..m] == rdats[..m];
    FilledIs(g, rdats, m + 1, AfterBufByte(h, rdats[m]), [Output(AfterBufByte(h, rdats[m]).r)] + out);
  }

  /** The next four outputs as one word, most significant first. */
  ghost function BigEndian(r: Stream): nat
    requires |r.s| == 256
  {
    Combine(Output(AdvanceBy(r, 1)), Output(AdvanceBy(r, 2)), Output(AdvanceBy(r, 3)), Output(AdvanceBy(r, 4)))
  }

  function Combine(b3: u8, b2: u8, b1: u8, b0: u8): u32 {
    Nat(b3) * 0x100_0000 + Nat(b2) * 0x1_0000 + Nat(b1) * 0x100 + Nat(b0)
  }

  /** The first byte drawn is the most significant one. */
  lemma WordBytes(r: Stream)
    requires |r.s| == 256
    ensures var word := BigEndian(r);
            && word / 0x100_0000 == Output(AdvanceBy(r, 1)) && word / 0x1_0000 % 256 == Output(AdvanceBy(r, 2))
            && word / 0x100 % 256 == Output(AdvanceBy(r, 3)) && word % 256 == Output(AdvanceBy(r, 4))
  {
    CombineBytes(Output(AdvanceBy(r, 1)), Output(AdvanceBy(r, 2)), Output(AdvanceBy(r, 3)), Output(AdvanceBy(r, 4)));
  }

  lemma CombineBytes(b3: u8, b2: u8, b1: u8, b0: u8)
    ensures var word := Combine(b3, b2, b1, b0);
            && word / 0x100_0000 == b3 && word / 0x1_0000 % 256 == b2 && word / 0x100 % 256 == b1 && word % 256 == b0
  {
    var word: nat := Combine(b3, b2, b1, b0);
    assert word / 0x100 == Nat(b3) * 0x1_0000 + Nat(b2) * 0x100 + Nat(b1);
    assert word / 0x1_0000 == Nat(b3) * 0x100 + Nat(b2);
  }

  /** The last byte drawn is the first of the buffer. */
  lemma BufOutputsAt(g: Gen, rdats: seq<Seed>, k: nat, at: nat)
    requires Sized(g) && at < k <= |rdats|
    ensures |BufOutputs(g, rdats, k)| == k && BufOutputs(g, rdats, k)[at] == Output(AfterBuf(g, rdats[..k - at]).r)
  {
    BufLength(g, rdats, k);
    BufOutput(g, rdats, k, at);
  }

  lemma {:induction false} BufLength(g: Gen, rdats: seq<Seed>, k: nat)
    requires Sized(g) && k <= |rdats|
    ensures |BufOutputs(g, rdats, k)| == k
  {
    if k > 0 {
      BufLength(g, rdats, k - 1);
    }
  }

  lemma {:induction false} BufOutput(g: Gen, rdats: seq<Seed>, k: nat, at: nat)
    requires Sized(g) && at < k <= |rdats| && at < |BufOutputs(g, rdats, k)|
    ensures BufOutputs(g, rdats, k)[at] == Output(AfterBuf(g, rdats[..k - at]).r)
  {
    if at > 0 {
      BufOutput(g, rdats, k - 1, at - 1);
    }
  }

  lemma AdvanceMore(r: Stream, n: nat)
    requires |r.s| == 256
    ensures AdvanceBy(AdvanceBy(r, n), 1) == AdvanceBy(r, n + 1)
  {
    var q := AdvanceBy(r, n);
    assert AdvanceBy(q, 1) == Advance(AdvanceBy(q, 0));
  }

  // ----- The generator

  class Generator {
    var i: u8
    var j: u8
    const s: array<u8>
    var count: int
    var initialized: bool
    ghost var drawn: nat

    ghost function Value(): Stream
      reads `i, `j, s
    {
      Stream(i, j, s[..])
    }

    ghost function State(): Gen
      reads this, s
    {
      Gen(Value(), count, initialized, drawn)
    }

    constructor ()
      ensures GenOk(State()) && !initialized && fresh(s)
    {
      i, j, count, initialized, drawn := 0, 0, 0, false, 0;
      s := new u8[256](_ => 0);
    }

    /** arc4_init */
    method Init()
      requires s.Length == 256
      modifies `i, `j, s
      ensures Value() == Stream(0, 0, Identity())
    {
      for n := 0 to 256
        invariant forall k :: 0 <= k < n ==> s[k] == k
      {
        s[n] := n;
      }
      i, j := 0, 0;
    }

    /** The exchange both loops make. */
    method Exchange()
      requires s.Length == 256
      modifies s
      ensures s[..] == Swap(old(s[..]), i, j)
    {
      var si := s[i];
      s[i] := s[j];
      s[j] := si;
    }

    /** arc4_addrandom */
    method AddRandom(dat: seq<u8>)
      requires s.Length == 256 && dat != []
      modifies `i, `j, s
      ensures Value() == Mixed(old(Value()), dat)
    {
      i := (i + 255) % 256;
      ghost var r := Value();
      for n := 0 to 256
        invariant Value() == MixRounds(r, dat, n)
      {
        MixByte(dat[n % |dat|]);
      }
      j := i;
    }

    /** arc4random_addrandom */
    method AddBytes(dat: seq<u8>, rdat: Seed)
      requires s.Length == 256 && dat != []
      modifies this, s
      ensures State() == After(old(State()), Add(dat, rdat))
    {
      if !initialized {
        Stir(rdat);
      }
      AddRandom(dat);
    }

    method MixByte(d: u8)
      requires s.Length == 256
      modifies `i, `j, s
      ensures Value() == Mix(old(Value()), d)
    {
      i := (i + 1) % 256;
      j := (j + s[i] + d) % 256;
      Exchange();
    }

    /** arc4_getbyte */
    method NextByte() returns (b: u8)
      requires s.Length == 256
      modifies `i, `j, s
      ensures Value() == Advance(old(Value())) && b == Output(Value())
    {
      i := (i + 1) % 256;
      j := (j + s[i]) % 256;
      var si: nat, sj: nat := s[i], s[j];
      Exchange();
      b := s[(si + sj) % 256];
    }

    /** arc4_stir with the seed material it was able to collect. */
    method Stir(rdat: Seed)
      requires s.Length == 256
      modifies this, s
      ensures State() == Stirred(old(State()), rdat)
    {
      if !initialized {
        Init();
        initialized := true;
      }
      AddRandom(rdat);
      ghost var r := Value();
      for k := 0 to 256
        invariant Value() == AdvanceBy(r, k) && initialized
      {
        var _ := NextByte();
      }
      count, drawn := STIR_COUNT, 0;
    }

    /** A byte that leaves the generator. */
    method Draw() returns (b: u8)
      requires s.Length == 256
      modifies `i, `j, `drawn, s
      ensures State() == Took(old(State()), 1) && b == Output(Value())
    {
      ghost var r := Value();
      assert AdvanceBy(r, 1) == Advance(AdvanceBy(r, 0));
      b := NextByte();
      drawn := drawn + 1;
    }

    /** __arc4_getbyte */
    method GetByte(rdat: Seed) returns (b: u8)
      requires s.Length == 256
      modifies this, s
      ensures State() == After(old(State()), Byte(rdat)) && b == Output(Value())
    {
      count := count - 1;
      if count == 0 || !initialized {
        Stir(rdat);
      }
      b := Draw();
    }

    /** arc4random: four bytes, most significant first. */
    method Random(rdat: Seed) returns (word: u32)
      requires s.Length == 256
      modifies this, s
      ensures State() == After(old(State()), Word(rdat))
      ensures word == BigEndian(ReadyWord(old(State()), rdat).r)
    {
      count := count - 4;
      if count <= 0 || !initialized {
        Stir(rdat);
      }
      word := DrawWord();
    }

    /** The next byte after `n` have been drawn since `g`. */
    method DrawAfter(ghost g: Gen, ghost n: nat) returns (b: u8)
      requires s.Length == 256 && Sized(g) && State() == Took(g, n)
      modifies `i, `j, `drawn, s
      ensures State() == Took(g, n + 1) && b == Output(AdvanceBy(g.r, n + 1))
    {
      AdvanceMore(g.r, n);
      b := Draw();
    }

    /** arc4_getword */
    method DrawWord() returns (word: u32)
      requires s.Length == 256
      modifies `i, `j, `drawn, s
      ensures State() == Took(old(State()), 4) && word == BigEndian(old(Value()))
    {
      ghost var g := State();
      var b3 := DrawAfter(g, 0);
      var b2 := DrawAfter(g, 1);
      var b1 := DrawAfter(g, 2);
      var b0 := DrawAfter(g, 3);
      word := Combine(b3, b2, b1, b0);
    }

    /** arc4random_buf fills its buffer from the back; byte `k` is drawn with `rdats[k]` at hand. */
    method Fill(buf: array<u8>, rdat: Seed, rdats: seq<Seed>)
      requires s.Length == 256 && buf != s && |rdats| == buf.Length
      modifies this, s, buf
      ensures State() == After(old(State()), Buf(rdat, rdats))
      ensures var g := if old(initialized) then old(State()) else Stirred(old(State()), rdat);
              buf[..] == BufOutputs(g, rdats, |rdats|)
    {
      if !initialized {
        Stir(rdat);
      }
      FillFrom(buf, rdats, State());
    }

    /** Its loop. */
    method FillFrom(buf: array<u8>, rdats: seq<Seed>, ghost g: Gen)
      requires s.Length == 256 && buf != s && |rdats| == buf.Length && State() == g
      modifies this, s, buf
      ensures State() == AfterBuf(g, rdats) && buf[..] == BufOutputs(g, rdats, |rdats|)
    {
      var n := buf.Length;
      FilledIs(g, rdats, 0, g, []);
      while n > 0
        invariant 0 <= n <= buf.Length && s.Length == 256
        invariant Filled(g, rdats, buf.Length - n, State(), buf[n..])
      {
        n := n - 1;
        FillByte(buf, n, rdats, g);
      }
      FilledIs(g, rdats, |rdats|, State(), buf[..]);
      assert buf[0..] == buf[..] && rdats[..|rdats|] == rdats;
    }

    /** One turn: draw a byte and store it at `n`. */
    method FillByte(buf: array<u8>, n: nat, rdats: seq<Seed>, ghost g: Gen)
      requires s.Length == 256 && buf != s && |rdats| == buf.Length && n < buf.Length
      requires Sized(g) && Filled(g, rdats, buf.Length - n - 1, State(), buf[n + 1..])
      modifies this, s, buf
      ensures Filled(g, rdats, buf.Length - n, State(), buf[n..])
    {
      var m := buf.Length - n - 1;
      ghost var h, rest := State(), buf[n + 1..];
      var b := BufByte(rdats[m]);
      FilledMore(g, rdats, m, h, rest);
      buf[n] := b;
      assert buf[n..] == [b] + rest;
    }

    /** One turn of that loop. */
    method BufByte(rdat: Seed) returns (b: u8)
      requires s.Length == 256
      modifies this, s
      ensures State() == AfterBufByte(old(State()), rdat) && b == Output(Value())
    {
      count := count - 1;
      if count <= 0 {
        Stir(rdat);
      }
      b := Draw();
    }
  }
}
