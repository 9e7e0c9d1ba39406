/**
 Symbol lookup through an ELF hash table: `elfhash` and `_elf_lookup` of
 `bionic/linker/linker.c`, and the hand-made table of `bionic/linker/dlfcn.c`.
 */
module ElfLookup {
  import opened Basics
  import opened AlignedBlocks

  type Bytes = seq<u8>

  const TOP: nat := 0x1000_0000

  // ----- Exclusive or on words of `w` bits

  function Xor(x: nat, y: nat, w: nat): nat {
    if w == 0 then 0 else (x + y) % 2 + 2 * Xor(x / 2, y / 2, w - 1)
  }

  lemma {:induction false} XorBound(x: nat, y: nat, w: nat)
    ensures Xor(x, y, w) < Pow2(w)
  {
    if w != 0 {
      XorBound(x / 2, y / 2, w - 1);
    }
  }

  lemma {:induction false} XorZero(x: nat, w: nat)
    requires x < Pow2(w)
    ensures Xor(x, 0, w) == x && Xor(x, x, w) == 0
  {
    if w != 0 {
      XorZero(x / 2, w - 1);
    }
  }

  /** Bit `k` of a word. */
  ghost function Bit(x: nat, k: nat): nat {
    if k == 0 then x % 2 else Bit(x / 2, k - 1)
  }

  /** A bit of the result is set exactly when one of the two bits is. */
  lemma {:induction false} XorBit(x: nat, y: nat, w: nat, k: nat)
    requires k < w
    ensures Bit(Xor(x, y, w), k) == if Bit(x, k) != Bit(y, k) then 1 else 0
  {
    LowBit((x + y) % 2, Xor(x / 2, y / 2, w - 1));
    if k != 0 {
      XorBit(x / 2, y / 2, w - 1, k - 1);
    } else {
      SumBit(x, y);
    }
  }

  lemma LowBit(b: nat, rest: nat)
    requires b < 2
    ensures (b + 2 * rest) % 2 == b && (b + 2 * rest) / 2 == rest
  {
  }

  lemma SumBit(x: nat, y: nat)
    ensures (x + y) % 2 == if x % 2 != y % 2 then 1 else 0
  {
  }

  /** The high and the low part of two words are combined separately. */
  lemma {:induction false} XorParts(t: nat, x: nat, u: nat, y: nat, w: nat, v: nat)
    requires x < Pow2(w) && y < Pow2(w)
    ensures Xor(t * Pow2(w) + x, u * Pow2(w) + y, w + v) == Xor(t, u, v) * Pow2(w) + Xor(x, y, w)
  {
    if w != 0 {
      var p := Pow2(w - 1);
      NonNegative(t, p);
      NonNegative(u, p);
      var tp: nat, up: nat, z := t * p, u * p, Xor(t, u, v);
      XorParts(t, x / 2, u, y / 2, w - 1, v);
      assert Xor(tp + x / 2, up + y / 2, w + v - 1) == z * p + Xor(x / 2, y / 2, w - 1);
      XorHalves(tp, x, up, y, w + v);
      assert t * Pow2(w) == 2 * tp by { Twice(t, p); }
      assert u * Pow2(w) == 2 * up by { Twice(u, p); }
      assert z * Pow2(w) == 2 * (z * p) by { Twice(z, p); }
    }
  }

  lemma XorHalves(a: nat, x: nat, b: nat, y: nat, w: nat)
    requires w > 0
    ensures Xor(2 * a + x, 2 * b + y, w) == (x + y) % 2 + 2 * Xor(a + x / 2, b + y / 2, w - 1)
  {
    Half(a, x);
    Half(b, y);
    Parity(a + b, x + y);
  }

  lemma Half(a: nat, x: nat)
    ensures (2 * a + x) / 2 == a + x / 2
  {
  }

  lemma Parity(a: nat, x: nat)
    ensures (2 * a + x) % 2 == x % 2
  {
  }

  // ----- The hash

  /** `(h << 4) + c` on 32-bit words. */
  function Shifted(h: nat, c: u8): nat {
    (h * 16 + c) % WORD
  }

  /** `h & 0xf0000000` */
  function TopBits(h: nat): nat {
    h / TOP * TOP
  }

  /** Folding the top four bits back in, as the linker writes it: `h ^= g; h ^= g >> 24`. */
  function Fold(h: nat): nat {
    Xor(Xor(h, TopBits(h), 32), TopBits(h) / 0x100_0000, 32)
  }

  /** The same step as chapter 5 of the System V ABI writes it: `if (g) h ^= g >> 24; h &= ~g`. */
  function AbiFold(h: nat): nat {
    (if TopBits(h) != 0 then Xor(h, TopBits(h) / 0x100_0000, 32) else h) % TOP
  }

  /** The hash function of the System V ABI. */
  function AbiHash(name: Bytes): nat {
    if name == [] then 0 else AbiFold(Shifted(AbiHash(name[..|name| - 1]), name[|name| - 1]))
  }

  lemma Powers()
    ensures Pow2(28) == TOP && Pow2(4) == 16
  {
    WordPowers();
    assert Pow2(30) == 4 * Pow2(28);
    assert Pow2(31) == 2 * Pow2(30);
  }

  lemma FoldIsAbi(h: nat)
    requires h < WORD
    ensures Fold(h) == AbiFold(h) < TOP
  {
    var t, low := h / TOP, h % TOP;
    Split(h, t, low);
    FoldParts(t, low);
    FoldValue(h, t, low);
    AbiFoldValue(h, t, low);
  }

  lemma Split(h: nat, t: nat, low: nat)
    requires h < WORD && t == h / TOP && low == h % TOP
    ensures t < 16 && h == t * TOP + low && TopBits(h) == t * TOP && TopBits(h) / 0x100_0000 == 16 * t
  {
  }

  lemma FoldValue(h: nat, t: nat, low: nat)
    requires t < 16 && low < TOP && h == t * TOP + low && TopBits(h) == t * TOP && TopBits(h) / 0x100_0000 == 16 * t
    ensures Fold(h) == Xor(low, 16 * t, 28)
  {
    FoldParts(t, low);
  }

  lemma AbiFoldValue(h: nat, t: nat, low: nat)
    requires t < 16 && low < TOP && h == t * TOP + low && TopBits(h) == t * TOP && TopBits(h) / 0x100_0000 == 16 * t
    ensures AbiFold(h) == Xor(low, 16 * t, 28)
  {
    var z := Xor(low, 16 * t, 28);
    assert z < TOP && Xor(h, 16 * t, 32) == t * TOP + z && Xor(low, 0, 28) == low by {
      FoldParts(t, low);
    }
    assert (t * TOP + z) % TOP == z && low % TOP == low by {
      Reduced(t, z);
      Reduced(0, low);
    }
    if t == 0 {
      assert AbiFold(h) == h % TOP;
    } else {
      assert AbiFold(h) == Xor(h, 16 * t, 32) % TOP;
    }
  }

  lemma Reduced(t: nat, z: nat)
    requires z < TOP
    ensures (t * TOP + z) % TOP == z && z % TOP == z
  {
  }

  lemma FoldParts(t: nat, low: nat)
    requires t < 16 && low < TOP
    ensures Xor(t * TOP + low, t * TOP, 32) == low && Xor(low, 0, 32) == low && Xor(low, 0, 28) == low
    ensures Xor(low, 16 * t, 32) == Xor(low, 16 * t, 28) < TOP
    ensures Xor(t * TOP + low, 16 * t, 32) == t * TOP + Xor(low, 16 * t, 28)
  {
    FoldClears(t, low);
    FoldMixes(t, low);
  }

  lemma FoldClears(t: nat, low: nat)
    requires t < 16 && low < TOP
    ensures Xor(t * TOP + low, t * TOP, 32) == low && Xor(low, 0, 32) == low && Xor(low, 0, 28) == low
  {
    Powers();
    XorZero(t, 4);
    XorZero(0, 4);
    XorZero(low, 28);
    XorParts(t, low, t, 0, 28, 4);
    XorParts(0, low, 0, 0, 28, 4);
  }

  lemma FoldMixes(t: nat, low: nat)
    requires t < 16 && low < TOP
    ensures Xor(low, 16 * t, 32) == Xor(low, 16 * t, 28) < TOP
    ensures Xor(t * TOP + low, 16 * t, 32) == t * TOP + Xor(low, 16 * t, 28)
  {
    Powers();
    XorZero(t, 4);
    XorZero(0, 4);
    XorBound(low, 16 * t, 28);
    XorParts(0, low, 0, 16 * t, 28, 4);
    XorParts(t, low, 0, 16 * t, 28, 4);
  }

  // ----- What the hash is

  /** One more byte: of the 32-bit word 16 * hash + c the low 28 bits are kept, and the top four are
      combined with bits 4 to 7. */
  lemma HashStep(name: Bytes, c: u8)
    ensures AbiHash(name) < 0x1000_0000
    ensures var word := (16 * AbiHash(name) + c) % 0x1_0000_0000;
            AbiHash(name + [c]) == Xor(word % 0x1000_0000, word / 0x1000_0000 * 16, 28)
  {
    HashBound(name);
    var word := Shifted(AbiHash(name), c);
    assert AbiHash(name + [c]) == AbiFold(word) by {
      assert (name + [c])[..|name|] == name;
    }
    FoldedWord(word);
  }

  lemma HashBound(name: Bytes)
    ensures AbiHash(name) < TOP
  {
  }

  lemma FoldedWord(word: nat)
    requires word < WORD
    ensures AbiFold(word) == Xor(word % TOP, word / TOP * 16, 28)
  {
    Split(word, word / TOP, word % TOP);
    AbiFoldValue(word, word / TOP, word % TOP);
  }

  /** The bytes as the digits of a number in base 16. */
  ghost function Digits(name: Bytes): nat {
    if name == [] then 0 else 16 * Digits(name[..|name| - 1]) + name[|name| - 1]
  }

  lemma {:induction false} DigitsBound(name: Bytes)
    requires |name| <= 5
    ensures Digits(name) + 17 <= 0x110_0000
    ensures |name| <= 4 ==> Digits(name) + 17 <= 0x11_0000
    ensures |name| <= 3 ==> Digits(name) + 17 <= 0x1_1000
    ensures |name| <= 2 ==> Digits(name) + 17 <= 0x1100
    ensures |name| <= 1 ==> Digits(name) + 17 <= 0x110
    ensures |name| == 0 ==> Digits(name) == 0
  {
    if name != [] {
      DigitsBound(name[..|name| - 1]);
    }
  }

  /** Up to five bytes nothing is folded: the hash is the plain sum of the bytes times powers of 16. */
  lemma {:induction false} ShortHash(name: Bytes)
    requires |name| <= 5
    ensures AbiHash(name) == Digits(name)
  {
    if name != [] {
      ShortHash(name[..|name| - 1]);
      DigitsBound(name);
      FoldNone(Digits(name));
    }
  }

  lemma FoldNone(h: nat)
    requires h < TOP
    ensures h % WORD == h && AbiFold(h) == h
  {
    Split(h, 0, h);
  }

  /** `elfhash`: the ABI's hash, below 2^28 although the sum can wrap around. */
  method ElfHash(name: Bytes) returns (h: nat)
    ensures h == AbiHash(name) && h < TOP
  {
    h := 0;
    for i := 0 to |name|
      invariant h == AbiHash(name[..i]) && h < TOP
    {
      assert name[..i + 1][..i] == name[..i];
      h := Shifted(h, name[i]);
      FoldIsAbi(h);
      var g := TopBits(h);
      h := Xor(h, g, 32);
      h := Xor(h, g / 0x100_0000, 32);
    }
    assert name[..|name|] == name;
  }

  // ----- The table

  const STB_GLOBAL: nat := 1
  const STB_WEAK: nat := 2

  datatype Sym = Sym(name: Bytes, bind: nat, shndx: nat)

  /** `bucket` and `chain` of DT_HASH over the symbol table. */
  datatype Table = Table(bucket: seq<nat>, chain: seq<nat>, symtab: seq<Sym>)

  /** A global or weak definition of `name`. */
  predicate Defines(s: Sym, name: Bytes) {
    s.name == name && (s.bind == STB_GLOBAL || s.bind == STB_WEAK) && s.shndx != 0
  }

  /** What a scan over the whole symbol table would find. */
  ghost predicate Defined(t: Table, name: Bytes) {
    exists n :: 0 <= n < |t.symtab| && Defines(t.symtab[n], name)
  }

  /** The bucket a name belongs to. */
  function Slot(t: Table, hash: nat): nat
    requires t.bucket != []
  {
    hash % |t.bucket|
  }

  ghost function At(s: seq<nat>, k: nat): nat {
    if k < |s| then s[k] else 0
  }

  ghost predicate Link(t: Table, list: seq<nat>, k: nat)
    requires k < |list|
  {
    0 < list[k] < |t.symtab| && list[k] < |t.chain| && t.chain[list[k]] == At(list, k + 1)
  }

  /** `list` is the chain of symbols that starts at `head` and ends with the sentinel. */
  ghost predicate Chain(t: Table, head: nat, list: seq<nat>) {
    head == At(list, 0) && forall k :: 0 <= k < |list| ==> Link(t, list, k)
  }

  /** Every chain ends, and every symbol but the first is on the chain of its own name. */
  ghost predicate WellFormed(t: Table, lists: seq<seq<nat>>) {
    && t.bucket != [] && |lists| == |t.bucket|
    && (forall b :: 0 <= b < |lists| ==> Chain(t, t.bucket[b], lists[b]))
    && (forall n :: 0 < n < |t.symtab| ==> n in lists[Slot(t, AbiHash(t.symtab[n].name))])
    && (|t.symtab| > 0 ==> t.symtab[0].shndx == 0)
  }

  ghost predicate NoneBefore(t: Table, list: seq<nat>, k: nat, name: Bytes) {
    forall j :: 0 <= j < k && j < |list| ==> list[j] < |t.symtab| && !Defines(t.symtab[list[j]], name)
  }

  /** `_elf_lookup`: the index of the symbol, or 0.  It finds a definition exactly when the symbol table
      holds one, and the first one on the chain. */
  method Lookup(t: Table, hash: nat, name: Bytes, ghost lists: seq<seq<nat>>) returns (n: nat)
    requires WellFormed(t, lists) && hash == AbiHash(name)
    ensures n != 0 <==> Defined(t, name)
    ensures n != 0 ==> n < |t.symtab| && Defines(t.symtab[n], name)
    ensures n != 0 ==> var list := lists[Slot(t, hash)];
                       exists k :: 0 <= k < |list| && list[k] == n && NoneBefore(t, list, k, name)
  {
    ghost var list := lists[Slot(t, hash)];
    ghost var k := 0;
    n := t.bucket[Slot(t, hash)];
    assert Chain(t, n, list);
    while n != 0
      invariant 0 <= k <= |list| && n == At(list, k)
      invariant NoneBefore(t, list, k, name)
      decreases |list| - k
    {
      assert Link(t, list, k);
      var s := t.symtab[n];
      if s.name == name && (s.bind == STB_GLOBAL || s.bind == STB_WEAK) && s.shndx != 0 {
        return;
      }
      n, k := t.chain[n], k + 1;
    }
    assert k < |list| ==> Link(t, list, k);
    NotOnChain(t, hash, name, lists);
  }

  lemma NotOnChain(t: Table, hash: nat, name: Bytes, lists: seq<seq<nat>>)
    requires WellFormed(t, lists) && hash == AbiHash(name)
    requires var list := lists[Slot(t, hash)]; NoneBefore(t, list, |list|, name)
    ensures !Defined(t, name)
  {
  }

  // ----- The table of libdl

  function Ascii(s: string): Bytes {
    seq(|s|, i requires 0 <= i < |s| => s[i] as int % 256)
  }

  const LIBDL_NAMES: seq<string> := ["dlopen", "dlclose", "dlsym", "dlerror", "dladdr", "dl_unwind_find_exidx"]

  const LIBDL: Table :=
    Table([1], [0, 2, 3, 4, 5, 6, 0],
          [Sym([], 0, 0)] + seq(6, i requires 0 <= i < 6 => Sym(Ascii(LIBDL_NAMES[i]), STB_GLOBAL, 1)))

  /** The one-bucket table walks through every symbol, so its lookups find exactly its six functions. */
  lemma LibdlWellFormed()
    ensures WellFormed(LIBDL, [[1, 2, 3, 4, 5, 6]])
    ensures forall i :: 0 <= i < 6 ==> Defined(LIBDL, Ascii(LIBDL_NAMES[i]))
  {
    var list := [1, 2, 3, 4, 5, 6];
    assert |LIBDL.symtab| == 7;
    forall k | 0 <= k < |list| ensures Link(LIBDL, list, k) {
      assert list[k] == k + 1;
    }
    forall n | 0 < n < 7 ensures n in list {
      assert list[n - 1] == n;
    }
    forall i | 0 <= i < 6 ensures Defined(LIBDL, Ascii(LIBDL_NAMES[i])) {
      assert Defines(LIBDL.symtab[i + 1], Ascii(LIBDL_NAMES[i]));
    }
  }
}
