/**
 Reserving and filling a library's address range: `get_lib_extents` and
 `load_segments` of `bionic/linker/linker.c`.

 Memory is a function from addresses to cells, mapped or not.  Addresses and lengths are
 32-bit and wrap; the contracts state what holds for files whose segments do
 not overflow.
 */
module SegmentLoader {
  import opened Basics

  const PAGE: nat := 4096

  datatype Cell = Unmapped | Byte(value: u8)
  type Memory = int -> Cell

  /** A program header: a PT_LOAD segment or anything else. */
  datatype Phdr = Phdr(load: bool, vaddr: u32, memsz: u32, filesz: u32, offset: u32, writable: bool)

  function PageDown(x: nat): (r: nat)
    ensures r <= x < r + PAGE && r % PAGE == 0
  {
    x / PAGE * PAGE
  }

  function PageUp(x: nat): (r: nat)
    ensures x <= r < x + PAGE && r % PAGE == 0
  {
    PageDown(x + PAGE - 1)
  }

  /** `(x + PAGE_SIZE - 1) & ~PAGE_MASK` on 32-bit words. */
  function PageUp32(x: nat): u32 {
    PageDown((x + PAGE - 1) % WORD)
  }

  // ----- What a well-formed file promises

  ghost predicate SegmentOk(p: Phdr, file: seq<u8>) {
    p.load ==>
      && p.filesz <= p.memsz && p.offset % PAGE == p.vaddr % PAGE && p.offset + p.filesz <= |file|
      && p.vaddr + p.memsz + PAGE < WORD
  }

  /** First and last page boundary of a segment, relative to the load base. */
  ghost function Lo(p: Phdr): nat { PageDown(p.vaddr) }
  ghost function Hi(p: Phdr): nat { PageUp(p.vaddr + p.memsz) }

  ghost predicate PageDisjoint(phdrs: seq<Phdr>) {
    forall i, j :: 0 <= i < j < |phdrs| && phdrs[i].load && phdrs[j].load
                   ==> Hi(phdrs[i]) <= Lo(phdrs[j]) || Hi(phdrs[j]) <= Lo(phdrs[i])
  }

  ghost predicate FileOk(phdrs: seq<Phdr>, file: seq<u8>) {
    (forall i :: 0 <= i < |phdrs| ==> SegmentOk(phdrs[i], file)) && PageDisjoint(phdrs)
  }

  // ----- get_lib_extents

  ghost predicate AnyLoad(phdrs: seq<Phdr>) {
    exists i :: 0 <= i < |phdrs| && phdrs[i].load
  }

  /** `lo` and `hi` are the outermost page boundaries of the PT_LOAD segments. */
  ghost predicate Span(phdrs: seq<Phdr>, lo: nat, hi: nat) {
    && (forall i :: 0 <= i < |phdrs| && phdrs[i].load ==> lo <= Lo(phdrs[i]) && Hi(phdrs[i]) <= hi)
    && (exists i :: 0 <= i < |phdrs| && phdrs[i].load && Lo(phdrs[i]) == lo)
    && (exists i :: 0 <= i < |phdrs| && phdrs[i].load && Hi(phdrs[i]) == hi)
  }

  const ELF_MAGIC: seq<u8> := [0x7f, 0x45, 0x4c, 0x46]
  const PRELINK_TAG: seq<u8> := [0x50, 0x52, 0x45, 0x20]

  /** The error result, -1 as an unsigned number. */
  const FAILED: u32 := 0xffff_ffff

  /** is_prelinked: the address before the tag at the end of the file, 0 if there is no tag or the end cannot be
      read. */
  function PrelinkBase(file: seq<u8>, readable: bool): u32 {
    if readable && |file| >= 8 && file[|file| - 4..] == PRELINK_TAG then FromLe32(file[|file| - 8..|file| - 4]) else 0
  }

  /** A prelinked file ends with its address, the low byte first, and "PRE "; any other file asks for no address. */
  lemma PrelinkBaseIs(body: seq<u8>, a: u8, b: u8, c: u8, d: u8, tag: seq<u8>)
    requires |tag| == 4
    ensures PrelinkBase(body + [a, b, c, d] + tag, true) ==
            if tag == [0x50, 0x52, 0x45, 0x20] then Nat(a) + 0x100 * Nat(b) + 0x1_0000 * Nat(c) + 0x100_0000 * Nat(d) else 0
    ensures PrelinkBase(body + [a, b, c, d] + tag, false) == 0 && (|body| < 8 ==> PrelinkBase(body, true) == 0)
  {
    var file := body + [a, b, c, d] + tag;
    assert file[|file| - 4..] == tag;
    assert file[|file| - 8..|file| - 4] == [a, b, c, d];
  }

  /** `get_lib_extents`: the requested base, 0 if there is none, and the size to reserve.  `header` is the page
      that holds the ELF header. */
  method GetLibExtents(header: seq<u8>, phdrs: seq<Phdr>, file: seq<u8>, readable: bool) returns (reqBase: u32, size: u32)
    requires |header| == PAGE
    ensures FileOk(phdrs, file) ==>
              (reqBase == FAILED <==> header[..4] != ELF_MAGIC || PrelinkBase(file, readable) == FAILED || !AnyLoad(phdrs))
    ensures reqBase != FAILED ==> reqBase == PrelinkBase(file, readable)
    ensures FileOk(phdrs, file) && reqBase != FAILED ==> Reserved(phdrs, size)
  {
    if header[0] != ELF_MAGIC[0] || header[1] != ELF_MAGIC[1] || header[2] != ELF_MAGIC[2] || header[3] != ELF_MAGIC[3] {
      return FAILED, 0;
    }
    assert header[..4] == ELF_MAGIC;
    reqBase := PrelinkBase(file, readable);
    if reqBase == FAILED {
      return FAILED, 0;
    }
    var minV, maxV;
    ghost var first, last;
    minV, maxV, first, last := ScanSegments(phdrs, file);
    if minV == 0xffff_ffff && maxV == 0 {
      return FAILED, 0;
    }
    size := ExtentSize(minV, maxV);
    if FileOk(phdrs, file) {
      ScannedSpan(phdrs, file, minV, maxV, first, last);
    }
  }

  /** The loop over the program headers. */
  method ScanSegments(phdrs: seq<Phdr>, file: seq<u8>) returns (minV: u32, maxV: u32, ghost first: int, ghost last: int)
    ensures FileOk(phdrs, file) ==> Scanned(phdrs, |phdrs|, minV, maxV, first, last)
  {
    minV, maxV := 0xffff_ffff, 0;
    first, last := -1, -1;
    for cnt := 0 to |phdrs|
      invariant FileOk(phdrs, file) ==> Scanned(phdrs, cnt, minV, maxV, first, last)
    {
      var p := phdrs[cnt];
      if p.load {
        ScanStep(phdrs, file, cnt, minV, maxV, first, last);
        var end := (p.vaddr + p.memsz) % WORD;
        first, last := if p.vaddr < minV then cnt else first, if end > maxV || last < 0 then cnt else last;
        maxV := if end > maxV then end else maxV;
        minV := if p.vaddr < minV then p.vaddr else minV;
      }
    }
  }

  /** Truncate the minimum, round up the maximum, subtract. */
  function ExtentSize(minV: u32, maxV: u32): u32 {
    (PageUp32(maxV) - PageDown(minV)) % WORD
  }

  lemma NoWrap(x: nat)
    requires x + PAGE < WORD
    ensures PageUp32(x) == PageUp(x) < WORD
  {
  }

  lemma SizeNoWrap(minV: u32, maxV: u32)
    requires minV <= maxV && maxV + PAGE < WORD
    ensures PageDown(minV) <= PageUp(maxV) && ExtentSize(minV, maxV) == PageUp(maxV) - PageDown(minV)
  {
  }

  lemma ScanStep(phdrs: seq<Phdr>, file: seq<u8>, n: nat, minV: u32, maxV: u32, first: int, last: int)
    requires n < |phdrs| && phdrs[n].load
    ensures FileOk(phdrs, file) && Scanned(phdrs, n, minV, maxV, first, last) ==>
              var p := phdrs[n];
              var end := (p.vaddr + p.memsz) % WORD;
              Scanned(phdrs, n + 1, if p.vaddr < minV then p.vaddr else minV, if end > maxV then end else maxV,
                      if p.vaddr < minV then n else first, if end > maxV || last < 0 then n else last)
  {
    if FileOk(phdrs, file) && Scanned(phdrs, n, minV, maxV, first, last) {
      assert SegmentOk(phdrs[n], file);
      Unwrapped(phdrs[n].vaddr + phdrs[n].memsz);
      ScanMore(phdrs, n, minV, maxV, first, last, phdrs[n].vaddr + phdrs[n].memsz);
    }
  }

  lemma Unwrapped(x: nat)
    requires x < WORD
    ensures x % WORD == x
  {
  }

  lemma ScanMore(phdrs: seq<Phdr>, n: nat, minV: nat, maxV: nat, first: int, last: int, end: nat)
    requires n < |phdrs| && phdrs[n].load && Scanned(phdrs, n, minV, maxV, first, last)
    requires phdrs[n].vaddr < 0xffff_ffff && end == phdrs[n].vaddr + phdrs[n].memsz
    ensures var v := phdrs[n].vaddr;
            Scanned(phdrs, n + 1, if v < minV then v else minV, if end > maxV then end else maxV,
                    if v < minV then n else first, if end > maxV || last < 0 then n else last)
  {
  }

  ghost predicate Scanned(phdrs: seq<Phdr>, n: nat, minV: nat, maxV: nat, first: int, last: int) {
    && n <= |phdrs| && -1 <= first < n && -1 <= last < n
    && (first < 0 <==> last < 0) && (first < 0 ==> minV == 0xffff_ffff && maxV == 0)
    && (forall i :: 0 <= i < n && phdrs[i].load ==> first >= 0 && minV <= phdrs[i].vaddr && phdrs[i].vaddr + phdrs[i].memsz <= maxV)
    && (first >= 0 ==> phdrs[first].load && phdrs[first].vaddr == minV)
    && (last >= 0 ==> phdrs[last].load && phdrs[last].vaddr + phdrs[last].memsz == maxV)
  }

  lemma PageMono(x: nat, y: nat)
    requires x <= y
    ensures PageDown(x) <= PageDown(y) && PageUp(x) <= PageUp(y)
  {
  }

  lemma ScannedSpan(phdrs: seq<Phdr>, file: seq<u8>, minV: u32, maxV: u32, first: int, last: int)
    requires FileOk(phdrs, file) && Scanned(phdrs, |phdrs|, minV, maxV, first, last)
    requires !(minV == 0xffff_ffff && maxV == 0)
    ensures AnyLoad(phdrs)
    ensures Reserved(phdrs, ExtentSize(minV, maxV))
  {
    assert SegmentOk(phdrs[first], file) && SegmentOk(phdrs[last], file);
    SizeNoWrap(minV, maxV);
    SpanOf(phdrs, minV, maxV, first, last);
  }

  lemma SpanOf(phdrs: seq<Phdr>, minV: nat, maxV: nat, first: nat, last: nat)
    requires Scanned(phdrs, |phdrs|, minV, maxV, first, last)
    ensures Span(phdrs, PageDown(minV), PageUp(maxV))
  {
    forall i | 0 <= i < |phdrs| && phdrs[i].load
      ensures PageDown(minV) <= Lo(phdrs[i]) && Hi(phdrs[i]) <= PageUp(maxV)
    {
      PageMono(minV, phdrs[i].vaddr);
      PageMono(phdrs[i].vaddr + phdrs[i].memsz, maxV);
    }
    assert Lo(phdrs[first]) == PageDown(minV) && Hi(phdrs[last]) == PageUp(maxV);
  }

  // ----- load_segments

  function FileByte(file: seq<u8>, o: nat): u8 {
    if o < |file| then file[o] else 0
  }

  /** The byte a loaded segment holds at `x`, an address relative to the load base: file bytes up to
      p_filesz, then zeros, except that the rest of the last file page of a read-only segment
      keeps whatever follows in the file. */
  ghost function LoadedByte(p: Phdr, file: seq<u8>, x: nat): u8
    requires Lo(p) <= x
  {
    var d, len := x - Lo(p), p.filesz + p.vaddr % PAGE;
    if d < len || (d < PageUp(len) && !p.writable) then FileByte(file, PageDown(p.offset) + d) else 0
  }

  ghost predicate In(p: Phdr, base: nat, a: int) {
    p.load && base + Lo(p) <= a < base + Hi(p)
  }

  /** `m` is `m0` with the first `n` segments loaded at `base`. */
  ghost predicate Holds(m0: Memory, m: Memory, base: nat, phdrs: seq<Phdr>, n: nat, file: seq<u8>) {
    && n <= |phdrs|
    && (forall i, a :: 0 <= i < n && In(phdrs[i], base, a) ==> m(a) == Byte(LoadedByte(phdrs[i], file, a - base)))
    && (forall a :: (forall i :: 0 <= i < n ==> !In(phdrs[i], base, a)) ==> m(a) == m0(a))
  }

  /** A segment placed at `base` stays below the end of the address space. */
  ghost predicate Fits(p: Phdr, base: nat) {
    p.load ==> base + p.vaddr + p.memsz + PAGE < WORD
  }

  /** A writable segment reads as its file bytes followed by zeros up to p_memsz; every segment reads
      as its file bytes, and a read-only one goes on with the file to the end of the page. */
  lemma SegmentReads(p: Phdr, file: seq<u8>, k: nat)
    requires p.load && SegmentOk(p, file) && k < p.memsz
    ensures Lo(p) <= p.vaddr + k < Hi(p)
    ensures k < p.filesz ==> LoadedByte(p, file, p.vaddr + k) == file[p.offset + k]
    ensures k >= p.filesz && p.writable ==> LoadedByte(p, file, p.vaddr + k) == 0
    ensures k >= p.filesz && !p.writable && p.offset + k < |file| ==>
              LoadedByte(p, file, p.vaddr + k) == if p.vaddr + k < PageUp(p.vaddr + p.filesz) then file[p.offset + k] else 0
  {
    AlignedUp(Lo(p), p.filesz + p.vaddr % PAGE);
  }

  // ----- The reservation

  ghost predicate InsideReservation(phdrs: seq<Phdr>, size: nat) {
    forall i :: 0 <= i < |phdrs| && phdrs[i].load ==> Hi(phdrs[i]) <= size
  }

  /** Segments go to the load base plus their own address, while the reservation is only as long as
      their span: they all lie inside it exactly when the lowest one starts in page 0. */
  lemma InsideExactly(phdrs: seq<Phdr>, lo: nat, hi: nat)
    requires Span(phdrs, lo, hi)
    ensures InsideReservation(phdrs, hi - lo) <==> lo == 0
  {
  }

  // ----- Why the size check passes

  function Range(a: int, b: int): set<int>
    decreases b - a
  {
    if a >= b then {} else Range(a, b - 1) + {b - 1}
  }

  lemma {:induction false} RangeMeaning(a: int, b: int)
    ensures forall k :: k in Range(a, b) <==> a <= k < b
    ensures a <= b ==> |Range(a, b)| == b - a
    decreases b - a
  {
    if a < b {
      RangeMeaning(a, b - 1);
    }
  }

  /** The page numbers of a segment. */
  ghost function Pages(p: Phdr): set<int> {
    if p.load then Range(Lo(p) / PAGE, Hi(p) / PAGE) else {}
  }

  ghost function Length(p: Phdr): nat {
    if p.load then Hi(p) - Lo(p) else 0
  }

  ghost function Total(phdrs: seq<Phdr>, n: nat): nat
    requires n <= |phdrs|
  {
    if n == 0 then 0 else Total(phdrs, n - 1) + Length(phdrs[n - 1])
  }

  ghost function Covered(phdrs: seq<Phdr>, n: nat): set<int>
    requires n <= |phdrs|
  {
    if n == 0 then {} else Covered(phdrs, n - 1) + Pages(phdrs[n - 1])
  }

  lemma PagesMeaning(p: Phdr)
    requires p.load
    ensures forall k :: k in Pages(p) <==> Lo(p) <= k * PAGE < Hi(p)
    ensures |Pages(p)| * PAGE == Length(p)
  {
    RangeMeaning(Lo(p) / PAGE, Hi(p) / PAGE);
  }

  lemma {:induction false} CoveredMeaning(phdrs: seq<Phdr>, n: nat, k: int)
    requires n <= |phdrs|
    ensures k in Covered(phdrs, n) <==> exists i :: 0 <= i < n && k in Pages(phdrs[i])
  {
    if n != 0 {
      CoveredMeaning(phdrs, n - 1, k);
    }
  }

  lemma NotCovered(phdrs: seq<Phdr>, n: nat, k: int)
    requires n < |phdrs| && PageDisjoint(phdrs) && phdrs[n].load && k in Covered(phdrs, n)
    ensures k !in Pages(phdrs[n])
  {
    CoveredMeaning(phdrs, n, k);
    var i :| 0 <= i < n && k in Pages(phdrs[i]);
    PagesMeaning(phdrs[i]);
    PagesMeaning(phdrs[n]);
  }

  lemma DisjointCard(a: set<int>, b: set<int>)
    requires a !! b
    ensures |a + b| * PAGE == |a| * PAGE + |b| * PAGE
  {
    assert |a + b| == |a| + |b|;
  }

  lemma {:induction false} TotalIsCovered(phdrs: seq<Phdr>, n: nat)
    requires n <= |phdrs| && PageDisjoint(phdrs)
    ensures |Covered(phdrs, n)| * PAGE == Total(phdrs, n)
  {
    if n != 0 {
      TotalIsCovered(phdrs, n - 1);
      SameGrowth(phdrs, n - 1, |Covered(phdrs, n - 1)|, |Covered(phdrs, n)|);
    } else {
      assert Covered(phdrs, 0) == {};
    }
  }

  lemma SameGrowth(phdrs: seq<Phdr>, n: nat, before: nat, after: nat)
    requires n < |phdrs| && PageDisjoint(phdrs) && before * PAGE == Total(phdrs, n)
    requires before == |Covered(phdrs, n)| && after == |Covered(phdrs, n + 1)|
    ensures after * PAGE == Total(phdrs, n + 1)
  {
    CoveredStep(phdrs, n);
    assert Total(phdrs, n + 1) == Total(phdrs, n) + Length(phdrs[n]);
  }

  lemma CoveredStep(phdrs: seq<Phdr>, n: nat)
    requires n < |phdrs| && PageDisjoint(phdrs)
    ensures |Covered(phdrs, n + 1)| * PAGE == |Covered(phdrs, n)| * PAGE + Length(phdrs[n])
  {
    PagesCard(phdrs[n]);
    CoveredApart(phdrs, n);
    DisjointCard(Covered(phdrs, n), Pages(phdrs[n]));
    assert Covered(phdrs, n + 1) == Covered(phdrs, n) + Pages(phdrs[n]);
  }

  lemma PagesCard(p: Phdr)
    ensures |Pages(p)| * PAGE == Length(p)
  {
    if p.load {
      PagesMeaning(p);
    }
  }

  lemma CoveredApart(phdrs: seq<Phdr>, n: nat)
    requires n < |phdrs| && PageDisjoint(phdrs)
    ensures Covered(phdrs, n) !! Pages(phdrs[n])
  {
    if phdrs[n].load {
      forall k | k in Covered(phdrs, n) ensures k !in Pages(phdrs[n]) {
        NotCovered(phdrs, n, k);
      }
    }
  }

  /** Page-disjoint segments together are no longer than their span. */
  lemma TotalFits(phdrs: seq<Phdr>, lo: nat, hi: nat)
    requires PageDisjoint(phdrs) && Span(phdrs, lo, hi)
    ensures Total(phdrs, |phdrs|) <= hi - lo
  {
    var all := Range(lo / PAGE, hi / PAGE);
    RangeMeaning(lo / PAGE, hi / PAGE);
    forall k | k in Covered(phdrs, |phdrs|) ensures k in all {
      CoveredMeaning(phdrs, |phdrs|, k);
      var i :| 0 <= i < |phdrs| && k in Pages(phdrs[i]);
      PagesMeaning(phdrs[i]);
    }
    SubsetCard(Covered(phdrs, |phdrs|), all);
    TotalIsCovered(phdrs, |phdrs|);
    SpanAligned(phdrs, lo, hi);
  }

  lemma SpanAligned(phdrs: seq<Phdr>, lo: nat, hi: nat)
    requires Span(phdrs, lo, hi)
    ensures lo <= hi && lo % PAGE == 0 && hi % PAGE == 0
  {
  }

  // ----- Memory operations

  /** mmap of the file at `off` onto the addresses from `lo` to `hi`. */
  function MapFile(m: Memory, lo: nat, hi: nat, file: seq<u8>, off: nat): Memory {
    a => if lo <= a < hi then Byte(FileByte(file, off + (a - lo))) else m(a)
  }

  /** Zero bytes, from an anonymous mapping or memset. */
  function Zeroed(m: Memory, lo: nat, hi: nat): Memory {
    a => if lo <= a < hi then Byte(0) else m(a)
  }

  function Released(m: Memory, lo: nat, hi: nat): Memory {
    a => if lo <= a < hi then Unmapped else m(a)
  }

  /** `m` is `m0` with one segment loaded at `base`. */
  ghost predicate HoldsOne(m0: Memory, m: Memory, base: nat, p: Phdr, file: seq<u8>) {
    && (forall a :: In(p, base, a) ==> m(a) == Byte(LoadedByte(p, file, a - base)))
    && (forall a :: !In(p, base, a) ==> m(a) == m0(a))
  }

  /** The page arithmetic of one segment. */
  lemma SegmentLayout(p: Phdr, base: nat)
    requires p.load && p.filesz <= p.memsz && base % PAGE == 0
    ensures var len := p.filesz + p.vaddr % PAGE;
            && PageUp(base + Lo(p) + len) == base + Lo(p) + PageUp(len) <= base + Hi(p)
            && PageUp(base + p.vaddr + p.memsz) == base + Hi(p)
            && (base + Lo(p) + PageUp(len) < base + p.vaddr + p.memsz <==> Lo(p) + PageUp(len) < Hi(p))
  {
    FilePagesUp(p);
    FilePagesEnd(p);
    AlignedUp(base + Lo(p), p.filesz + p.vaddr % PAGE);
    AlignedUp(base, p.vaddr + p.memsz);
  }

  lemma FilePagesUp(p: Phdr)
    requires p.filesz <= p.memsz
    ensures Lo(p) + PageUp(p.filesz + p.vaddr % PAGE) <= Hi(p)
  {
    var len := p.filesz + p.vaddr % PAGE;
    assert p.vaddr == Lo(p) + p.vaddr % PAGE;
    AlignedUp(Lo(p), len);
    PageMono(Lo(p) + len, p.vaddr + p.memsz);
  }

  /** Zero pages are needed exactly when the file's pages end before the segment's last page does. */
  lemma FilePagesEnd(p: Phdr)
    requires p.filesz <= p.memsz
    ensures var mid := Lo(p) + PageUp(p.filesz + p.vaddr % PAGE); mid < p.vaddr + p.memsz <==> mid < Hi(p)
  {
    AlignedSum(Lo(p), PageUp(p.filesz + p.vaddr % PAGE));
    BoundaryBefore(Lo(p) + PageUp(p.filesz + p.vaddr % PAGE), p.vaddr + p.memsz);
  }

  lemma AlignedSum(a: nat, b: nat)
    requires a % PAGE == 0 && b % PAGE == 0
    ensures (a + b) % PAGE == 0
  {
  }

  lemma BoundaryBefore(b: nat, x: nat)
    requires b % PAGE == 0
    ensures b < x <==> b < PageUp(x)
  {
  }

  lemma AlignedUp(b: nat, x: nat)
    requires b % PAGE == 0
    ensures PageUp(b + x) == b + PageUp(x)
  {
  }

  /** The writes of one iteration: file pages from `b` to `mid`, the file ending at `e`, then zeros to `hi`. */
  ghost function SegmentWrites(m: Memory, b: nat, e: nat, mid: nat, hi: nat, p: Phdr, file: seq<u8>): Memory
    requires b <= e <= mid
  {
    var m2 := FilePages(m, b, e, mid, p, file);
    if mid < hi then Zeroed(m2, mid, hi) else m2
  }

  function FilePages(m: Memory, b: nat, e: nat, mid: nat, p: Phdr, file: seq<u8>): Memory {
    var m1 := MapFile(m, b, mid, file, PageDown(p.offset));
    if e < mid && p.writable then Zeroed(m1, e, mid) else m1
  }

  lemma SegmentWritesAt(m: Memory, b: nat, e: nat, mid: nat, hi: nat, p: Phdr, file: seq<u8>, a: int)
    requires b <= e <= mid <= hi
    ensures SegmentWrites(m, b, e, mid, hi, p, file)(a)
         == if !(b <= a < hi) then m(a)
            else if a < e || (a < mid && !p.writable) then Byte(FileByte(file, PageDown(p.offset) + (a - b)))
            else Byte(0)
  {
  }

  lemma SegmentWritten(m: Memory, base: nat, p: Phdr, file: seq<u8>)
    requires p.load && p.filesz <= p.memsz && base % PAGE == 0
    ensures var b, len := base + Lo(p), p.filesz + p.vaddr % PAGE;
            HoldsOne(m, SegmentWrites(m, b, b + len, b + PageUp(len), base + Hi(p), p, file), base, p, file)
  {
    var b, len := base + Lo(p), p.filesz + p.vaddr % PAGE;
    var r := SegmentWrites(m, b, b + len, b + PageUp(len), base + Hi(p), p, file);
    forall a: int
      ensures r(a) == if In(p, base, a) then Byte(LoadedByte(p, file, a - base)) else m(a)
    {
      WrittenAt(m, base, p, file, a);
    }
  }

  lemma WrittenAt(m: Memory, base: nat, p: Phdr, file: seq<u8>, a: int)
    requires p.load && p.filesz <= p.memsz && base % PAGE == 0
    ensures var b, len := base + Lo(p), p.filesz + p.vaddr % PAGE;
            SegmentWrites(m, b, b + len, b + PageUp(len), base + Hi(p), p, file)(a)
            == if In(p, base, a) then Byte(LoadedByte(p, file, a - base)) else m(a)
  {
    var b, len := base + Lo(p), p.filesz + p.vaddr % PAGE;
    SegmentLayout(p, base);
    SegmentWritesAt(m, b, b + len, b + PageUp(len), base + Hi(p), p, file, a);
  }

  /** The writes of one iteration, whether or not the anonymous pages were granted. */
  lemma SegmentResult(m0: Memory, m: Memory, base: nat, p: Phdr, file: seq<u8>, ok: bool, end: nat)
    requires p.load && p.filesz <= p.memsz && base % PAGE == 0
    requires var b, len := base + Lo(p), p.filesz + p.vaddr % PAGE;
             var tmp, pages := b + PageUp(len), FilePages(m0, b, b + len, b + PageUp(len), p, file);
             && (tmp < end <==> tmp < base + Hi(p)) && (tmp < end ==> tmp + PageUp(end - tmp) == base + Hi(p))
             && m == (if ok && tmp < end then Zeroed(pages, tmp, tmp + PageUp(end - tmp)) else pages)
             && (!ok ==> tmp < end)
    ensures ok ==> HoldsOne(m0, m, base, p, file)
    ensures !ok ==> forall a :: !In(p, base, a) ==> m(a) == m0(a)
  {
    SegmentMid(m0, base, p, file);
    SegmentWritten(m0, base, p, file);
  }

  lemma TailPages(p: Phdr, base: nat)
    requires p.load && p.filesz <= p.memsz && base % PAGE == 0
    ensures var end := base + p.vaddr + p.memsz;
            var tmp := base + Lo(p) + PageUp(p.filesz + p.vaddr % PAGE);
            && (tmp < end <==> Lo(p) + PageUp(p.filesz + p.vaddr % PAGE) < Hi(p))
            && (tmp < end ==> tmp + PageUp(end - tmp) == base + Hi(p))
  {
    var end, mid := base + p.vaddr + p.memsz, Lo(p) + PageUp(p.filesz + p.vaddr % PAGE);
    SegmentLayout(p, base);
    AlignedSum(Lo(p), PageUp(p.filesz + p.vaddr % PAGE));
    AlignedSum(base, mid);
    if base + mid < end {
      AlignedUp(base + mid, end - (base + mid));
    }
  }

  /** Without overflow the 32-bit values of one iteration are the plain sums. */
  lemma SegmentNumbers(p: Phdr, base: nat)
    requires p.load && p.filesz <= p.memsz && Fits(p, base) && base % PAGE == 0
    ensures var len := p.filesz + p.vaddr % PAGE;
            var end := base + p.vaddr + p.memsz;
            && (base + PageDown(p.vaddr)) % WORD == base + Lo(p) && len % WORD == len
            && PageUp32(base + Lo(p) + len) == base + Lo(p) + PageUp(len) && end % WORD == end
            && PageUp32(end) == base + Hi(p) && (base + Hi(p) - (base + Lo(p))) % WORD == Length(p)
  {
    var len := p.filesz + p.vaddr % PAGE;
    SegmentLayout(p, base);
    NoWrap(base + Lo(p) + len);
    NoWrap(base + p.vaddr + p.memsz);
    Unwrapped(base + Lo(p));
    Unwrapped(len);
    Unwrapped(base + p.vaddr + p.memsz);
    Unwrapped(Hi(p) - Lo(p));
  }

  /** With only the file pages written, nothing outside the segment has changed. */
  lemma SegmentMid(m: Memory, base: nat, p: Phdr, file: seq<u8>)
    requires p.load && p.filesz <= p.memsz && base % PAGE == 0
    ensures var b, len := base + Lo(p), p.filesz + p.vaddr % PAGE;
            forall a :: !In(p, base, a) ==> FilePages(m, b, b + len, b + PageUp(len), p, file)(a) == m(a)
  {
    SegmentLayout(p, base);
  }

  // ----- Which mappings are asked for

  /** The file part of a segment is empty, so its mapping has length 0, which mmap refuses. */
  predicate EmptyFilePart(p: Phdr) {
    p.filesz + p.vaddr % PAGE == 0
  }

  ghost predicate NoEmptyFilePart(phdrs: seq<Phdr>, n: nat)
    requires n <= |phdrs|
  {
    forall i :: 0 <= i < n && phdrs[i].load ==> !EmptyFilePart(phdrs[i])
  }

  /** The segment reaches beyond the pages of its file part. */
  ghost predicate NeedsTail(p: Phdr) {
    Lo(p) + PageUp(p.filesz + p.vaddr % PAGE) < Hi(p)
  }

  /** The number of mappings for one segment and for the first `n` headers. */
  ghost function MapCalls(p: Phdr): nat {
    if NeedsTail(p) then 2 else 1
  }

  ghost function Calls(phdrs: seq<Phdr>, n: nat): nat
    requires n <= |phdrs|
  {
    if n == 0 then 0 else Calls(phdrs, n - 1) + if phdrs[n - 1].load then MapCalls(phdrs[n - 1]) else 0
  }

  lemma {:induction false} CallsMono(phdrs: seq<Phdr>, m: nat, n: nat)
    requires m <= n <= |phdrs|
    ensures Calls(phdrs, m) <= Calls(phdrs, n)
    decreases n
  {
    if m < n {
      CallsMono(phdrs, m, n - 1);
    }
  }

  /** The system grants the mappings from number `from` up to `to`. */
  ghost predicate Granted(grants: nat -> bool, from: nat, to: nat) {
    forall k :: from <= k < to ==> grants(k)
  }

  /** The conditions under which a file can be placed at `base`. */
  ghost predicate Placeable(phdrs: seq<Phdr>, file: seq<u8>, base: nat) {
    FileOk(phdrs, file) && forall i :: 0 <= i < |phdrs| ==> Fits(phdrs[i], base)
  }

  /** `size` is what get_lib_extents computes for these segments. */
  ghost predicate Reserved(phdrs: seq<Phdr>, size: nat) {
    exists lo: nat, hi: nat :: Span(phdrs, lo, hi) && size == hi - lo
  }

  lemma ReservedFits(phdrs: seq<Phdr>, size: u32)
    requires PageDisjoint(phdrs) && Reserved(phdrs, size)
    ensures Total32(phdrs, |phdrs|) <= size
  {
    var lo: nat, hi: nat :| Span(phdrs, lo, hi) && size == hi - lo;
    TotalFits(phdrs, lo, hi);
    Total32Plain(phdrs, |phdrs|);
  }

  function Add32(x: nat, y: nat): u32 {
    (x + y) % WORD
  }

  /** The running 32-bit total of load_segments. */
  ghost function Total32(phdrs: seq<Phdr>, n: nat): nat
    requires n <= |phdrs|
  {
    if n == 0 then 0
    else if !phdrs[n - 1].load then Total32(phdrs, n - 1)
    else Add32(Total32(phdrs, n - 1), Length(phdrs[n - 1]))
  }

  lemma {:induction false} Total32Plain(phdrs: seq<Phdr>, n: nat)
    requires n <= |phdrs| && Total(phdrs, n) < WORD
    ensures Total32(phdrs, n) == Total(phdrs, n)
  {
    if n != 0 {
      Total32Plain(phdrs, n - 1);
      Unwrapped(Total(phdrs, n));
    }
  }

  lemma HoldsOutside(m0: Memory, m: Memory, m': Memory, base: nat, phdrs: seq<Phdr>, n: nat, file: seq<u8>)
    requires Holds(m0, m, base, phdrs, n, file) && n < |phdrs|
    requires forall a :: !In(phdrs[n], base, a) ==> m'(a) == m(a)
    ensures forall a :: Outside(phdrs, base, a) ==> m'(a) == m0(a)
  {
  }

  lemma HoldsStep(m0: Memory, m: Memory, m': Memory, base: nat, phdrs: seq<Phdr>, n: nat, file: seq<u8>)
    requires Holds(m0, m, base, phdrs, n, file) && n < |phdrs| && PageDisjoint(phdrs)
    requires if phdrs[n].load then HoldsOne(m, m', base, phdrs[n], file) else m' == m
    ensures Holds(m0, m', base, phdrs, n + 1, file)
  {
  }

  ghost predicate Outside(phdrs: seq<Phdr>, base: nat, a: int) {
    forall i :: 0 <= i < |phdrs| ==> !In(phdrs[i], base, a)
  }

  lemma OutsideReservation(phdrs: seq<Phdr>, base: nat, size: nat)
    ensures InsideReservation(phdrs, size) ==> forall a :: !(base <= a < base + size) ==> Outside(phdrs, base, a)
  {
  }

  lemma FillEnd(len: nat)
    ensures PageUp(len) == if len % PAGE == 0 then len else len + PAGE - len % PAGE
  {
  }

  /** After the first `n` headers: what memory holds, the total so far, and the mappings made; folded, see
      `ProgressParts`. */
  ghost predicate Progress(m0: Memory, m: Memory, base: nat, phdrs: seq<Phdr>, n: nat, file: seq<u8>, total: nat,
                           grants: nat -> bool, call: nat)
    requires n <= |phdrs|
  {
    forall i {:trigger Parts(i)} :: Parts(i) ==>
      && Holds(m0, m, base, phdrs, n, file) && total == Total32(phdrs, n) && call == Calls(phdrs, n)
      && NoEmptyFilePart(phdrs, n) && Granted(grants, 0, call)
  }

  lemma ProgressParts(m0: Memory, m: Memory, base: nat, phdrs: seq<Phdr>, n: nat, file: seq<u8>, total: nat,
                      grants: nat -> bool, call: nat)
    requires n <= |phdrs|
    ensures Progress(m0, m, base, phdrs, n, file, total, grants, call) <==>
            && Holds(m0, m, base, phdrs, n, file) && total == Total32(phdrs, n) && call == Calls(phdrs, n)
            && NoEmptyFilePart(phdrs, n) && Granted(grants, 0, call)
  {
    assert Parts(0);
  }

  /** Segment `n` loads. */
  ghost predicate Loads(p: Phdr, grants: nat -> bool, call: nat) {
    !EmptyFilePart(p) && Granted(grants, call, call + MapCalls(p))
  }

  lemma CallsStep(phdrs: seq<Phdr>, n: nat, grants: nat -> bool, call: nat)
    requires n < |phdrs| && phdrs[n].load && Loads(phdrs[n], grants, call)
    requires call == Calls(phdrs, n) && NoEmptyFilePart(phdrs, n) && Granted(grants, 0, call)
    ensures var next := call + MapCalls(phdrs[n]);
            next == Calls(phdrs, n + 1) && NoEmptyFilePart(phdrs, n + 1) && Granted(grants, 0, next)
  {
  }

  lemma ProgressStep(m0: Memory, m: Memory, m': Memory, base: nat, phdrs: seq<Phdr>, n: nat, file: seq<u8>, total: nat,
                     grants: nat -> bool, call: nat)
    requires n < |phdrs| && PageDisjoint(phdrs) && Progress(m0, m, base, phdrs, n, file, total, grants, call)
    requires phdrs[n].load && HoldsOne(m, m', base, phdrs[n], file) && Loads(phdrs[n], grants, call)
    ensures Progress(m0, m', base, phdrs, n + 1, file, Add32(total, Length(phdrs[n])), grants, call + MapCalls(phdrs[n]))
  {
    ProgressParts(m0, m, base, phdrs, n, file, total, grants, call);
    HoldsStep(m0, m, m', base, phdrs, n, file);
    CallsStep(phdrs, n, grants, call);
    ProgressParts(m0, m', base, phdrs, n + 1, file, Add32(total, Length(phdrs[n])), grants, call + MapCalls(phdrs[n]));
  }

  lemma ProgressSkip(m0: Memory, m: Memory, base: nat, phdrs: seq<Phdr>, n: nat, file: seq<u8>, total: nat,
                     grants: nat -> bool, call: nat)
    requires n < |phdrs| && PageDisjoint(phdrs) && Progress(m0, m, base, phdrs, n, file, total, grants, call)
    requires !phdrs[n].load
    ensures Progress(m0, m, base, phdrs, n + 1, file, total, grants, call)
  {
    ProgressParts(m0, m, base, phdrs, n, file, total, grants, call);
    HoldsStep(m0, m, m, base, phdrs, n, file);
    ProgressParts(m0, m, base, phdrs, n + 1, file, total, grants, call);
  }

  /** The outcome as the headers and the system's answers determine it. */
  ghost predicate AllLoad(phdrs: seq<Phdr>, grants: nat -> bool) {
    NoEmptyFilePart(phdrs, |phdrs|) && Granted(grants, 0, Calls(phdrs, |phdrs|))
  }

  /** Header `n` does not load: neither does the file, and nothing outside the segments has changed. */
  lemma ProgressEnds(m0: Memory, m: Memory, m': Memory, base: nat, phdrs: seq<Phdr>, n: nat, file: seq<u8>, total: nat,
                     grants: nat -> bool, call: nat)
    requires n < |phdrs| && Progress(m0, m, base, phdrs, n, file, total, grants, call)
    requires phdrs[n].load && !Loads(phdrs[n], grants, call)
    requires forall a :: !In(phdrs[n], base, a) ==> m'(a) == m(a)
    ensures !AllLoad(phdrs, grants) && forall a :: Outside(phdrs, base, a) ==> m'(a) == m0(a)
  {
    ProgressParts(m0, m, base, phdrs, n, file, total, grants, call);
    HoldsOutside(m0, m, m', base, phdrs, n, file);
    CallsMono(phdrs, n + 1, |phdrs|);
    if !EmptyFilePart(phdrs[n]) {
      var k :| call <= k < call + MapCalls(phdrs[n]) && !grants(k);
      assert k < Calls(phdrs, |phdrs|);
    }
  }

  class AddressSpace {
    var mem: Memory

    constructor (m: Memory)
      ensures mem == m
    {
      mem := m;
    }

    /** One PT_LOAD iteration of `load_segments`; `len` is what it adds to the total.  The mappings are numbered;
        this one starts with number `call`. */
    method LoadSegment(p: Phdr, base: u32, file: seq<u8>, grants: nat -> bool, call: nat) returns (ok: bool, len: nat, next: nat)
      requires p.load && base % PAGE == 0
      modifies this
      ensures SegmentOk(p, file) && Fits(p, base) ==> (ok <==> Loads(p, grants, call))
      ensures SegmentOk(p, file) && Fits(p, base) && ok ==>
                HoldsOne(old(mem), mem, base, p, file) && len == Length(p) && next == call + MapCalls(p)
      ensures SegmentOk(p, file) && Fits(p, base) && !ok ==> forall a :: !In(p, base, a) ==> mem(a) == old(mem)(a)
    {
      ghost var m0 := mem;
      var pbase, filled, tmp, end, total := Layout(p, base);
      len, next := total, call + 1;
      if filled == 0 || !grants(call) {
        return false, 0, next;
      }
      MapFilePages(p, pbase, filled, file);
      ok, next := ExtendSegment(tmp, end, grants, next);
      if SegmentOk(p, file) && Fits(p, base) {
        SegmentResult(m0, mem, base, p, file, ok, end);
      }
    }

    /** The 32-bit address arithmetic of one iteration: where the file pages go and how long the mapping
        is, where the anonymous pages start, where the segment ends, and its length in whole pages. */
    method Layout(p: Phdr, base: u32) returns (pbase: u32, len: u32, tmp: u32, end: u32, total: u32)
      requires p.load && base % PAGE == 0
      ensures p.filesz <= p.memsz && Fits(p, base) ==>
                && pbase == base + Lo(p) && len == p.filesz + p.vaddr % PAGE && tmp == pbase + PageUp(len)
                && (tmp < end <==> tmp < base + Hi(p)) && (tmp < end ==> tmp + PageUp(end - tmp) == base + Hi(p))
                && total == Length(p)
    {
      if p.filesz <= p.memsz && Fits(p, base) {
        SegmentNumbers(p, base);
        TailPages(p, base);
      }
      pbase := (base + PageDown(p.vaddr)) % WORD;
      len := (p.filesz + p.vaddr % PAGE) % WORD;
      tmp := PageUp32(pbase + len);
      end := (base + p.vaddr + p.memsz) % WORD;
      total := (PageUp32(end) - pbase) % WORD;
    }

    /** The file mapping, and zeros up to the next page boundary of a writable segment. */
    method MapFilePages(p: Phdr, pbase: nat, len: nat, file: seq<u8>)
      modifies this
      ensures mem == FilePages(old(mem), pbase, pbase + len, pbase + PageUp(len), p, file)
    {
      FillEnd(len);
      mem := MapFile(mem, pbase, pbase + PageUp(len), file, PageDown(p.offset));
      if len % PAGE != 0 && p.writable {
        mem := Zeroed(mem, pbase + len, pbase + len + PAGE - len % PAGE);
      }
    }

    /** Anonymous pages from `tmp` when the segment ends beyond it. */
    method ExtendSegment(tmp: nat, end: nat, grants: nat -> bool, call: nat) returns (ok: bool, next: nat)
      modifies this
      ensures next == (if tmp < end then call + 1 else call) && ok == (tmp < end ==> grants(call))
      ensures mem == if ok && tmp < end then Zeroed(old(mem), tmp, tmp + PageUp(end - tmp)) else old(mem)
    {
      ok, next := true, call;
      if tmp < end {
        ok, next := grants(next), next + 1;
        if ok {
          mem := Zeroed(mem, tmp, tmp + PageUp(end - tmp));
        }
      }
    }

    /** The loop of `load_segments` over the program headers. */
    method LoadAll(phdrs: seq<Phdr>, file: seq<u8>, base: u32, grants: nat -> bool) returns (ok: bool, totalSz: nat)
      requires base % PAGE == 0
      modifies this
      ensures Placeable(phdrs, file, base) ==>
                (ok <==> AllLoad(phdrs, grants))
      ensures Placeable(phdrs, file, base) && ok ==> Holds(old(mem), mem, base, phdrs, |phdrs|, file)
      ensures Placeable(phdrs, file, base) && ok ==> totalSz == Total32(phdrs, |phdrs|)
      ensures Placeable(phdrs, file, base) ==> forall a :: Outside(phdrs, base, a) ==> mem(a) == old(mem)(a)
    {
      ghost var m0, good := mem, Placeable(phdrs, file, base);
      totalSz := 0;
      var call := 0;
      ProgressParts(m0, mem, base, phdrs, 0, file, totalSz, grants, call);
      for cnt := 0 to |phdrs|
        invariant good ==> Progress(m0, mem, base, phdrs, cnt, file, totalSz, grants, call)
      {
        ghost var m, c := mem, call;
        if phdrs[cnt].load {
          assert good ==> SegmentOk(phdrs[cnt], file) && Fits(phdrs[cnt], base);
          var len;
          ok, len, call := LoadSegment(phdrs[cnt], base, file, grants, call);
          if !ok {
            if good {
              ProgressEnds(m0, m, mem, base, phdrs, cnt, file, totalSz, grants, c);
            }
            return;
          }
          if good {
            ProgressStep(m0, m, mem, base, phdrs, cnt, file, totalSz, grants, c);
          }
          totalSz := Add32(totalSz, len);
        } else if good {
          ProgressSkip(m0, m, base, phdrs, cnt, file, totalSz, grants, c);
        }
      }
      ok := true;
      ProgressParts(m0, mem, base, phdrs, |phdrs|, file, totalSz, grants, call);
    }

    /** `load_segments`: `grants(k)` is the system's answer to mapping number `k`.  A well-formed file whose
        reservation was computed for it is loaded exactly when no PT_LOAD has an empty file part and the system
        grants every mapping.  On success memory holds every segment and nothing else has changed; on failure the
        whole reservation is unmapped. */
    method LoadSegments(phdrs: seq<Phdr>, file: seq<u8>, base: u32, size: u32, grants: nat -> bool) returns (ok: bool)
      requires base % PAGE == 0
      modifies this
      ensures Placeable(phdrs, file, base) && Reserved(phdrs, size) ==>
                (ok <==> AllLoad(phdrs, grants))
      ensures Placeable(phdrs, file, base) && ok ==> Holds(old(mem), mem, base, phdrs, |phdrs|, file)
      ensures Placeable(phdrs, file, base) && InsideReservation(phdrs, size) && !ok ==>
                forall a :: mem(a) == if base <= a < base + size then Unmapped else old(mem)(a)
    {
      var totalSz;
      ok, totalSz := LoadAll(phdrs, file, base, grants);
      if FileOk(phdrs, file) && Reserved(phdrs, size) {
        ReservedFits(phdrs, size);
      }
      if !ok || totalSz > size {
        ok := false;
        OutsideReservation(phdrs, base, size);
        mem := Released(mem, base, base + size);
      }
    }
  }

  // ----- A well-formed file that never loads

  /** One page of text, and a page-aligned data segment without a file part. */
  function PureBss(): seq<Phdr> {
    [Phdr(true, 0, 0x1000, 0x1000, 0, false), Phdr(true, 0x2000, 0x3000, 0, 0, true)]
  }

  lemma PureBssFails(file: seq<u8>)
    requires |file| >= 0x1000
    ensures Placeable(PureBss(), file, 0x8000_0000) && Reserved(PureBss(), 0x5000) && InsideReservation(PureBss(), 0x5000)
    ensures forall grants: nat -> bool :: !AllLoad(PureBss(), grants)
  {
    var phdrs := PureBss();
    assert Lo(phdrs[0]) == 0 && Hi(phdrs[0]) == 0x1000 && Lo(phdrs[1]) == 0x2000 && Hi(phdrs[1]) == 0x5000;
    assert Span(phdrs, 0, 0x5000);
    assert EmptyFilePart(phdrs[1]);
  }
}
