/**
 Printing and parsing of numbers in `bionic/linker/linker_format.c`.
 */
module FormatNumber {
  import opened CStrings

  const DECIMAL: string := "0123456789"
  const TOP: nat := 0x8000_0000_0000_0000
  const RANGE: nat := 0x1_0000_0000_0000_0000

  // ----- Digits, least significant first

  function Quotient(v: nat, base: nat): (q: nat)
    requires base >= 2
    ensures v > 0 ==> q < v
  {
    if v < base then 0 else 1 + Quotient(v - base, base)
  }

  function Last(v: nat, base: nat): (d: nat)
    requires base >= 2
    ensures d < base
  {
    if v < base then v else Last(v - base, base)
  }

  /** They are the operators, kept apart from the solver's division by a variable. */
  lemma {:induction false} DivMod(v: nat, base: nat)
    requires base >= 2
    ensures v == Last(v, base) + base * Quotient(v, base)
    ensures v / base == Quotient(v, base) && v % base == Last(v, base)
  {
    if v >= base {
      DivMod(v - base, base);
      assert base * (1 + Quotient(v - base, base)) == base + base * Quotient(v - base, base);
    }
    Unique(Quotient(v, base), Last(v, base), base);
  }

  lemma Unique(q: nat, r: nat, base: nat)
    requires r < base
    ensures (r + base * q) / base == q && (r + base * q) % base == r
  {
    var v := r + base * q;
    var p, s := v / base, v % base;
    assert v == base * p + s;
    Multiples(p, q, base);
    Multiples(q, p, base);
  }

  lemma {:induction false} Multiples(p: nat, q: nat, base: nat)
    ensures p < q ==> base * p + base <= base * q
    decreases q
  {
    if p + 1 < q {
      Multiples(p, q - 1, base);
      assert base * q == base * (q - 1) + base;
    }
  }

  function Digits(v: nat, base: nat): seq<nat>
    requires base >= 2
  {
    if v == 0 then [] else [Last(v, base)] + Digits(Quotient(v, base), base)
  }

  /** The number a digit sequence denotes. */
  function Denotes(ds: seq<nat>, base: nat): nat {
    if ds == [] then 0 else ds[0] + base * Denotes(ds[1..], base)
  }

  /** The digits to print: zero has one. */
  function Shown(v: nat, base: nat): seq<nat>
    requires base >= 2
  {
    if v == 0 then [0] else Digits(v, base)
  }

  /** Every digit is below the base, and the most significant one is not zero. */
  lemma {:induction false} DigitsSmall(v: nat, base: nat)
    requires base >= 2
    ensures forall k :: 0 <= k < |Digits(v, base)| ==> Digits(v, base)[k] < base
    ensures v > 0 ==> Digits(v, base) != [] && Digits(v, base)[|Digits(v, base)| - 1] != 0
  {
    if v > 0 {
      DigitsSmall(Quotient(v, base), base);
      if v < base {
        assert Last(v, base) == v && Quotient(v, base) == 0;
      }
    }
  }

  lemma {:induction false} DigitsDenote(v: nat, base: nat)
    requires base >= 2
    ensures Denotes(Digits(v, base), base) == v
  {
    if v > 0 {
      var rest := Quotient(v, base);
      DigitsDenote(rest, base);
      assert Digits(v, base)[1..] == Digits(rest, base);
      DivMod(v, base);
    }
  }

  function Power(base: nat, n: nat): nat {
    if n == 0 then 1 else base * Power(base, n - 1)
  }

  /** `k` low digits denote the remainder. */
  lemma {:induction false} LowDigits(v: nat, base: nat, k: nat)
    requires base >= 2 && k <= |Digits(v, base)|
    ensures Denotes(Digits(v, base)[..k], base) < Power(base, k)
    ensures k < |Digits(v, base)| ==> Power(base, k) <= v
  {
    if k > 0 {
      var q := Quotient(v, base);
      var ds, rest := Digits(v, base), Digits(q, base);
      LowDigits(q, base, k - 1);
      assert ds[..k][1..] == rest[..k - 1];
      LowStep(Last(v, base), Denotes(rest[..k - 1], base), Power(base, k - 1), base);
      if k < |ds| {
        DivMod(v, base);
        GrowStep(v, q, Power(base, k - 1), base);
      }
    }
  }

  lemma LowStep(d: nat, low: nat, power: nat, base: nat)
    requires d < base && low < power
    ensures d + base * low < base * power
  {
    assert base * low + base == base * (low + 1) <= base * power;
  }

  lemma GrowStep(v: nat, q: nat, power: nat, base: nat)
    requires power <= q && base * q <= v
    ensures base * power <= v
  {
    assert base * power <= base * q;
  }

  /** Cutting digits off the front loses the value: it is kept exactly when every digit is. */
  lemma KeptExactly(v: nat, base: nat, k: nat)
    requires base >= 2 && 0 < k
    ensures var ds := Shown(v, base);
            Denotes(if k < |ds| then ds[..k] else ds, base) == v <==> |ds| <= k
  {
    DigitsDenote(v, base);
    if v > 0 && k < |Digits(v, base)| {
      LowDigits(v, base, k);
    }
  }

  // ----- Printing

  function Rev(s: string): string {
    if s == [] then [] else Rev(s[1..]) + [s[0]]
  }

  lemma {:induction false} RevLength(s: string)
    ensures |Rev(s)| == |s|
  {
    if s != [] {
      RevLength(s[1..]);
    }
  }

  lemma {:induction false} RevAt(s: string, k: nat)
    requires k < |s|
    ensures |Rev(s)| == |s| && Rev(s)[k] == s[|s| - 1 - k]
  {
    RevLength(s);
    RevLength(s[1..]);
    if k < |s| - 1 {
      RevAt(s[1..], k);
    }
  }

  /** A table of digit characters for `base`. */
  ghost predicate Table(table: string, base: nat) {
    2 <= base <= |table| && table[0] == '0' && NUL !in table
  }

  /** The characters of digits, in the same order. */
  function Chars(ds: seq<nat>, table: string): (s: string)
    requires forall k :: 0 <= k < |ds| ==> ds[k] < |table|
    ensures |s| == |ds| && forall k :: 0 <= k < |ds| ==> s[k] == table[ds[k]]
  {
    seq(|ds|, k requires 0 <= k < |ds| => table[ds[k]])
  }

  /** The digits that fit into `room` characters: the low ones. */
  function Kept(v: nat, base: nat, room: nat): seq<nat>
    requires base >= 2
  {
    var ds := Shown(v, base);
    if room < |ds| then ds[..room] else ds
  }

  lemma KeptSmall(v: nat, base: nat, room: nat)
    requires base >= 2
    ensures forall k :: 0 <= k < |Kept(v, base, room)| ==> Kept(v, base, room)[k] < base
  {
    DigitsSmall(v, base);
  }

  /** What is printed, most significant digit first. */
  function Printed(v: nat, base: nat, room: nat, table: string): string
    requires Table(table, base)
  {
    KeptSmall(v, base, room);
    Rev(Chars(Kept(v, base, room), table))
  }

  /** The digits of `v` from `at`, least significant first; `room` characters at most. */
  method GenerateDigits(buffer: array<char>, at: nat, room: nat, v: nat, base: nat, table: string) returns (pos: nat)
    requires Table(table, base) && at + room < buffer.Length
    modifies buffer
    ensures at <= pos <= at + room && buffer[..at] == old(buffer[..at])
    ensures Rev(buffer[at..pos]) == Printed(v, base, room, table)
  {
    KeptSmall(v, base, room);
    DigitsSmall(v, base);
    pos := FillDigits(buffer, at, room, v, base, table, Digits(v, base));
    if pos == at {
      if pos < at + room {
        buffer[pos] := '0';
        pos := pos + 1;
      }
    }
    PrintedFrom(buffer[at..pos], v, base, room, table);
  }

  /** A text whose characters are those of the digits that fit is the output in reverse. */
  lemma PrintedFrom(text: string, v: nat, base: nat, room: nat, table: string)
    requires Table(table, base) && |text| == |Kept(v, base, room)|
    requires forall k :: 0 <= k < |text| ==> Kept(v, base, room)[k] < |table| && text[k] == table[Kept(v, base, room)[k]]
    ensures Rev(text) == Printed(v, base, room, table)
  {
    assert text == Chars(Kept(v, base, room), table);
  }

  method FillDigits(buffer: array<char>, at: nat, room: nat, v: nat, base: nat, table: string, ghost all: seq<nat>)
    returns (pos: nat)
    requires Table(table, base) && at + room < buffer.Length
    requires all == Digits(v, base) && forall k :: 0 <= k < |all| ==> all[k] < base
    modifies buffer
    ensures at <= pos && pos - at == (if |all| < room then |all| else room)
    ensures buffer[..at] == old(buffer[..at]) && forall k :: 0 <= k < pos - at ==> buffer[at + k] == table[all[k]]
  {
    var value, end := v, at + room;
    pos := at;
    ghost var done := 0;
    while value != 0
      invariant 0 <= done <= |all| && all[done..] == Digits(value, base)
      invariant at <= pos <= end && pos - at == (if done < room then done else room)
      invariant buffer[..at] == old(buffer[..at])
      invariant forall k :: 0 <= k < pos - at ==> buffer[at + k] == table[all[k]]
    {
      var d;
      ghost var left := Digits(value, base);
      value, d := LastDigit(value, base);
      assert all[done] == left[0] == d && all[done + 1..] == left[1..];
      done := done + 1;
      if pos < end {
        buffer[pos] := table[d];
        pos := pos + 1;
      }
    }
  }

  method LastDigit(value: nat, base: nat) returns (rest: nat, d: nat)
    requires value > 0 && base >= 2
    ensures Digits(value, base) == [d] + Digits(rest, base) && rest < value && d < base
  {
    DivMod(value, base);
    rest, d := value / base, value % base;
  }

  lemma ReversedIs(s: string, t: string)
    requires |t| == |s| && forall k :: 0 <= k < |s| ==> t[k] == s[|s| - 1 - k]
    ensures t == Rev(s)
  {
    RevLength(s);
    forall k | 0 <= k < |s| ensures t[k] == Rev(s)[k] {
      RevAt(s, k);
    }
  }

  /** Reverse a stretch of the buffer in place. */
  method ReverseRange(buffer: array<char>, from: nat, to: nat)
    requires from <= to <= buffer.Length
    modifies buffer
    ensures buffer[from..to] == Rev(old(buffer[from..to]))
    ensures buffer[..from] == old(buffer[..from]) && buffer[to..] == old(buffer[to..])
  {
    var lo, hi := from, to - 1;
    ghost var was := buffer[..];
    while lo < hi
      invariant from <= lo <= hi + 1 && hi < to && lo + hi == from + to - 1
      invariant Mirrored(was, buffer[..], from, to, lo, hi)
    {
      ghost var before := buffer[..];
      buffer[lo], buffer[hi] := buffer[hi], buffer[lo];
      assert buffer[..] == before[lo := before[hi]][hi := before[lo]];
      lo, hi := lo + 1, hi - 1;
    }
    MirroredIs(was, buffer[..], from, to, lo, hi);
    assert buffer[from..to] == buffer[..][from..to] && was[from..to] == old(buffer[from..to]);
    assert buffer[..from] == buffer[..][..from] && buffer[to..] == buffer[..][to..];
  }

  /** Swapped outside `lo..hi`, untouched inside it and beyond the stretch. */
  ghost predicate Mirrored(was: string, now: string, from: nat, to: nat, lo: int, hi: int)
    requires from <= to <= |was| && from <= lo <= hi + 1 && hi < to && lo + hi == from + to - 1
  {
    && |now| == |was|
    && (forall k :: from <= k < lo || hi < k < to ==> now[k] == was[from + to - 1 - k])
    && (forall k :: lo <= k <= hi || 0 <= k < from || to <= k < |was| ==> now[k] == was[k])
  }

  lemma MirroredIs(was: string, now: string, from: nat, to: nat, lo: int, hi: int)
    requires from <= to <= |was| && from <= lo && hi < to && lo + hi == from + to - 1 && hi <= lo <= hi + 1
    requires Mirrored(was, now, from, to, lo, hi)
    ensures now[from..to] == Rev(was[from..to]) && now[..from] == was[..from] && now[to..] == was[to..]
  {
    var s, t := was[from..to], now[from..to];
    forall k | 0 <= k < |s| ensures t[k] == s[|s| - 1 - k] {
      assert t[k] == now[from + k];
      assert s[|s| - 1 - k] == was[to - 1 - k];
    }
    ReversedIs(s, t);
  }

  /** format_number at offset `at`, into `bufsize` bytes. */
  method Format(buffer: array<char>, at: nat, bufsize: nat, v: nat, base: nat, table: string)
    requires Table(table, base) && bufsize > 0 && at + bufsize <= buffer.Length
    modifies buffer
    ensures buffer[..at] == old(buffer[..at])
    ensures Text(buffer[at..]) == Printed(v, base, bufsize - 1, table)
  {
    ghost var s := Printed(v, base, bufsize - 1, table);
    PrintedText(v, base, bufsize - 1, table);
    var pos := GenerateDigits(buffer, at, bufsize - 1, v, base, table);
    Terminate(buffer, at, pos, s);
  }

  /** Terminate and reverse. */
  method Terminate(buffer: array<char>, at: nat, pos: nat, ghost s: string)
    requires at <= pos < buffer.Length && Rev(buffer[at..pos]) == s && NUL !in s
    modifies buffer
    ensures buffer[..at] == old(buffer[..at]) && Text(buffer[at..]) == s
  {
    ghost var digits := buffer[at..pos];
    buffer[pos] := NUL;
    assert buffer[at..pos] == digits;
    ReverseRange(buffer, at, pos);
    assert buffer[pos..][0] == buffer[pos];
    assert buffer[at..][..pos - at] == s;
    TextIs(buffer[at..], pos - at);
  }

  lemma PrintedText(v: nat, base: nat, room: nat, table: string)
    requires Table(table, base)
    ensures NUL !in Printed(v, base, room, table)
  {
    KeptSmall(v, base, room);
    var s := Chars(Kept(v, base, room), table);
    RevLength(s);
    forall k | 0 <= k < |s| ensures Rev(s)[k] != NUL {
      RevAt(s, k);
    }
  }

  // ----- Reading back

  /** The table has no character twice among its digits. */
  ghost predicate Distinct(table: string) {
    forall i, j :: 0 <= i < j < |table| ==> table[i] != table[j]
  }

  function DigitOf(c: char, table: string): nat {
    if table == [] || table[0] == c then 0 else 1 + DigitOf(c, table[1..])
  }

  lemma {:induction false} DigitOfIs(table: string, k: nat)
    requires Distinct(table) && k < |table|
    ensures DigitOf(table[k], table) == k
  {
    if k > 0 {
      DigitOfIs(table[1..], k - 1);
    }
  }

  /** The number a text denotes, most significant digit first. */
  function Read(s: string, base: nat, table: string): nat {
    if s == [] then 0 else Read(s[..|s| - 1], base, table) * base + DigitOf(s[|s| - 1], table)
  }

  lemma ReadLast(s: string, c: char, base: nat, table: string)
    ensures Read(s + [c], base, table) == DigitOf(c, table) + base * Read(s, base, table)
  {
    assert (s + [c])[..|s|] == s;
  }

  lemma {:induction false} ReadRev(ds: seq<nat>, base: nat, table: string)
    requires Distinct(table) && forall k :: 0 <= k < |ds| ==> ds[k] < |table|
    ensures Read(Rev(Chars(ds, table)), base, table) == Denotes(ds, base)
  {
    if ds != [] {
      var s := Chars(ds, table);
      ReadRev(ds[1..], base, table);
      assert s[1..] == Chars(ds[1..], table);
      ReadLast(Rev(s[1..]), s[0], base, table);
      DigitOfIs(table, ds[0]);
    }
  }

  /** The output denotes the value in the given base exactly when all its digits fit. */
  lemma PrintedDenotes(v: nat, base: nat, room: nat, table: string)
    requires Table(table, base) && Distinct(table) && room > 0
    ensures Read(Printed(v, base, room, table), base, table) == v <==> |Shown(v, base)| <= room
  {
    KeptSmall(v, base, room);
    ReadRev(Kept(v, base, room), base, table);
    KeptExactly(v, base, room);
  }

  /** Then it has no superfluous leading zero. */
  lemma NoLeadingZero(v: nat, base: nat, room: nat, table: string)
    requires Table(table, base) && Distinct(table) && |Shown(v, base)| <= room
    ensures var s := Printed(v, base, room, table);
            |s| == |Shown(v, base)| && s != [] && (s[0] == '0' <==> v == 0) && (v == 0 ==> s == "0")
  {
    KeptSmall(v, base, room);
    DigitsSmall(v, base);
    var s := Chars(Kept(v, base, room), table);
    RevAt(s, 0);
    if v == 0 {
      assert s == ['0'];
      assert s[1..] == [];
    }
  }

  // ----- parse_decimal

  predicate IsDigit(c: char) {
    '0' <= c <= '9'
  }

  function RunEnd(s: string, pos: nat): (end: nat)
    requires pos <= |s|
    ensures pos <= end <= |s| && (end < |s| ==> !IsDigit(s[end])) && forall k :: pos <= k < end ==> IsDigit(s[k])
    decreases |s| - pos
  {
    if pos < |s| && IsDigit(s[pos]) then RunEnd(s, pos + 1) else pos
  }

  lemma DecimalTable(base: nat)
    requires 2 <= base <= 10
    ensures Table(DECIMAL, base) && Distinct(DECIMAL)
  {
    assert forall k :: 0 <= k < 10 ==> DECIMAL[k] as int == k + '0' as int;
  }

  lemma DecimalDistinct()
    ensures Distinct(DECIMAL) && Table(DECIMAL, 10)
    ensures forall c :: IsDigit(c) ==> DigitOf(c, DECIMAL) == c as int - '0' as int
  {
    assert forall k :: 0 <= k < 10 ==> DECIMAL[k] as int == k + '0' as int;
    forall c | IsDigit(c) ensures DigitOf(c, DECIMAL) == c as int - '0' as int {
      var k := c as int - '0' as int;
      assert DECIMAL[k] == c;
      DigitOfIs(DECIMAL, k);
    }
  }

  lemma WrapStep(x: nat, d: nat)
    ensures (x % 0x1_0000_0000 * 10 + d) % 0x1_0000_0000 == (x * 10 + d) % 0x1_0000_0000
  {
  }

  /** The value of the digit run at `pos`, in 32-bit arithmetic, and the position after it. */
  method ParseDecimal(format: string, pos: nat) returns (result: nat, end: nat)
    requires pos <= |format|
    ensures end == RunEnd(format, pos) && result == Read(format[pos..end], 10, DECIMAL) % 0x1_0000_0000
  {
    result, end := 0, pos;
    while end < |format| && IsDigit(format[end])
      invariant pos <= end <= |format| && RunEnd(format, pos) == RunEnd(format, end)
      invariant result == Read(format[pos..end], 10, DECIMAL) % 0x1_0000_0000
    {
      var d := format[end] as int - '0' as int;
      ReadStep(format, pos, end);
      result := (result * 10 + d) % 0x1_0000_0000;
      end := end + 1;
    }
  }

  lemma ReadStep(s: string, pos: nat, end: nat)
    requires pos <= end < |s| && IsDigit(s[end])
    ensures (Read(s[pos..end], 10, DECIMAL) % 0x1_0000_0000 * 10 + (s[end] as int - '0' as int)) % 0x1_0000_0000
            == Read(s[pos..end + 1], 10, DECIMAL) % 0x1_0000_0000
  {
    DecimalDistinct();
    var run, longer := s[pos..end], s[pos..end + 1];
    assert longer[..|run|] == run && longer[|run|] == s[end];
    WrapStep(Read(run, 10, DECIMAL), s[end] as int - '0' as int);
  }

  lemma {:induction false} RunEndIs(s: string, pos: nat, end: nat)
    requires pos <= end <= |s| && (end < |s| ==> !IsDigit(s[end])) && forall k :: pos <= k < end ==> IsDigit(s[k])
    ensures RunEnd(s, pos) == end
    decreases end - pos
  {
    if pos < end {
      RunEndIs(s, pos + 1, end);
    }
  }

  lemma PrintedDigits(v: nat, room: nat)
    requires Table(DECIMAL, 10)
    ensures var s := Printed(v, 10, room, DECIMAL); forall k :: 0 <= k < |s| ==> IsDigit(s[k])
  {
    KeptSmall(v, 10, room);
    var low := Chars(Kept(v, 10, room), DECIMAL);
    RevLength(low);
    forall k | 0 <= k < |low| ensures IsDigit(Rev(low)[k]) {
      RevAt(low, k);
    }
  }

  /** parse_decimal inverts format_number in base 10, modulo 2^32, whatever non-digit follows. */
  lemma ParseInverts(v: nat, room: nat, rest: string)
    requires room > 0 && |Shown(v, 10)| <= room && (rest != [] ==> !IsDigit(rest[0]))
    ensures Table(DECIMAL, 10)
    ensures var s := Printed(v, 10, room, DECIMAL);
            && RunEnd(s + rest, 0) == |s|
            && Read((s + rest)[0..|s|], 10, DECIMAL) % 0x1_0000_0000 == v % 0x1_0000_0000
  {
    DecimalDistinct();
    PrintedDenotes(v, 10, room, DECIMAL);
    var s := Printed(v, 10, room, DECIMAL);
    PrintedDigits(v, room);
    RunEndIs(s + rest, 0, |s|);
    assert (s + rest)[0..|s|] == s;
  }

  // ----- format_integer

  /** A 64-bit word as a two's complement number. */
  function Signed(value: nat): (r: int)
    requires value < RANGE
    ensures -0x8000_0000_0000_0000 <= r < 0x8000_0000_0000_0000
    ensures r == value || r == value - 0x1_0000_0000_0000_0000
  {
    if value < TOP then value else value - RANGE
  }

  predicate Negative(value: nat, isSigned: bool)
    requires value < RANGE
  {
    isSigned && value >= TOP
  }

  /** The magnitude, as the negated word. */
  function Magnitude(value: nat, isSigned: bool): nat
    requires value < RANGE
  {
    if Negative(value, isSigned) then RANGE - value else value
  }

  function Integer(value: nat, base: nat, bufsize: nat, isSigned: bool): string
    requires value < RANGE && bufsize > 1 && Table(DECIMAL, base)
  {
    if Negative(value, isSigned) then "-" + Printed(Magnitude(value, isSigned), base, bufsize - 2, DECIMAL)
    else Printed(value, base, bufsize - 1, DECIMAL)
  }

  method FormatInteger(buffer: array<char>, bufsize: nat, value: nat, base: nat, isSigned: bool)
    requires value < RANGE && 2 <= base <= 10 && 2 < bufsize <= buffer.Length
    modifies buffer
    ensures Table(DECIMAL, base) && Text(buffer[..]) == Integer(value, base, bufsize, isSigned)
  {
    DecimalTable(base);
    if Negative(value, isSigned) {
      buffer[0] := '-';
      Format(buffer, 1, bufsize - 1, RANGE - value, base, DECIMAL);
      assert buffer[..1][0] == '-';
      assert buffer[..][1..] == buffer[1..];
    } else {
      Format(buffer, 0, bufsize, value, base, DECIMAL);
      assert buffer[..] == buffer[0..];
    }
  }

  /** Reads an optional sign and digits. */
  function ReadSigned(s: string, base: nat): int {
    if s != [] && s[0] == '-' then 0 - Read(s[1..], base, DECIMAL) else Read(s, base, DECIMAL)
  }

  function Octal(n: nat): nat {
    if n == 0 then 1 else 8 * Octal(n - 1)
  }

  lemma {:induction false} LongIsLarge(v: nat, base: nat, n: nat)
    requires base >= 8
    ensures n < |Digits(v, base)| ==> Octal(n) <= v
  {
    if n > 0 && v > 0 {
      var q := Quotient(v, base);
      LongIsLarge(q, base, n - 1);
      DivMod(v, base);
      AtLeastEight(base, q);
    }
  }

  lemma AtLeastEight(base: nat, q: nat)
    requires base >= 8
    ensures 8 * q <= base * q
  {
    assert (base - 8) * q >= 0;
  }

  lemma OctalRange()
    ensures Octal(22) >= RANGE
  {
    assert Octal(6) == 262144;
    assert Octal(12) == 68719476736;
    assert Octal(18) == 18014398509481984;
  }

  /** No 64-bit value needs more than 22 digits in base 8 or above. */
  lemma DigitsBound(v: nat, base: nat)
    requires v < RANGE && 8 <= base
    ensures |Shown(v, base)| <= 22
  {
    LongIsLarge(v, base, 22);
    OctalRange();
  }

  /** Sign and magnitude are right for every 64-bit value, the minimum included, in the 32-byte buffer that
      out_vformat uses. */
  lemma IntegerCorrect(value: nat, base: nat, isSigned: bool)
    requires value < RANGE && 8 <= base <= 10
    ensures Table(DECIMAL, base)
    ensures ReadSigned(Integer(value, base, 32, isSigned), base) == if isSigned then Signed(value) else value
  {
    DecimalTable(base);
    var m := Magnitude(value, isSigned);
    var room := if Negative(value, isSigned) then 30 else 31;
    DigitsBound(m, base);
    PrintedDenotes(m, base, room, DECIMAL);
    var s := Printed(m, base, room, DECIMAL);
    if Negative(value, isSigned) {
      assert ("-" + s)[1..] == s;
    } else {
      NotMinus(m, base, room);
    }
  }

  lemma NotMinus(v: nat, base: nat, room: nat)
    requires Table(DECIMAL, base)
    ensures var s := Printed(v, base, room, DECIMAL); s != [] ==> s[0] != '-'
  {
    KeptSmall(v, base, room);
    var low := Chars(Kept(v, base, room), DECIMAL);
    RevLength(low);
    if low != [] {
      RevAt(low, 0);
    }
  }
}
