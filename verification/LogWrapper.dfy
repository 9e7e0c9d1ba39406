/**
 The line splitter of `parent` in `system/netd/logwrapper.c`.

 The reference is a fold over single bytes: a line is logged at a newline,
 when 4095 bytes are pending, and at the end of the input.  `Parent` works
 through a fixed buffer and whatever chunks read() happens to return.
 */
module LogWrapper {
  import opened CStrings

  const SIZE: nat := 4096
  const NL: char := '\n'
  const CR: char := '\r'

  // ----- The reference

  /** A carriage return ends the text of its line, like a NUL. */
  function Cook(c: char): char {
    if c == CR then NUL else c
  }

  /** Lines logged so far and bytes still pending. */
  datatype Log = Log(lines: seq<string>, pending: string)

  function Flush(g: Log): Log {
    Log(g.lines + [Text(g.pending)], [])
  }

  function Feed(g: Log, c: char): Log {
    if c == NL then Flush(g)
    else if |g.pending| + 1 == SIZE - 1 then Flush(Log(g.lines, g.pending + [Cook(c)]))
    else Log(g.lines, g.pending + [Cook(c)])
  }

  function FeedAll(g: Log, s: string): Log {
    if s == [] then g else Feed(FeedAll(g, s[..|s| - 1]), s[|s| - 1])
  }

  /** The lines a byte-at-a-time reader logs for the whole input. */
  function Lines(input: string): seq<string> {
    var g := FeedAll(Log([], []), input);
    if g.pending == [] then g.lines else Flush(g).lines
  }

  lemma {:induction false} FeedConcat(g: Log, s: string, t: string)
    ensures FeedAll(g, s + t) == FeedAll(FeedAll(g, s), t)
  {
    if t == [] {
      assert s + t == s;
    } else {
      FeedConcat(g, s, t[..|t| - 1]);
      assert (s + t)[..|s + t| - 1] == s + t[..|t| - 1];
    }
  }

  // ----- What the reference keeps

  function WithoutNewlines(s: string): string {
    if s == [] then []
    else WithoutNewlines(s[..|s| - 1]) + if s[|s| - 1] == NL then [] else [s[|s| - 1]]
  }

  /** No carriage return and no NUL. */
  ghost predicate Plain(s: string) {
    forall k :: 0 <= k < |s| ==> s[k] != CR && s[k] != NUL
  }

  lemma {:induction false} PlainText(s: string)
    requires Plain(s)
    ensures Text(s) == s
  {
    if s != [] {
      PlainText(s[1..]);
      assert s == [s[0]] + s[1..];
    }
  }

  lemma FlushKeeps(g: Log)
    requires Plain(g.pending)
    ensures Flat(Flush(g).lines) == Flat(g.lines) + g.pending
  {
    PlainText(g.pending);
    assert Flush(g).lines[..|g.lines|] == g.lines;
  }

  lemma {:induction false} FeedKeeps(s: string)
    requires Plain(s)
    ensures var g := FeedAll(Log([], []), s);
            Plain(g.pending) && Flat(g.lines) + g.pending == WithoutNewlines(s)
  {
    if s != [] {
      var front, c := s[..|s| - 1], s[|s| - 1];
      FeedKeeps(front);
      var g := FeedAll(Log([], []), front);
      FlushKeeps(g);
      FlushKeeps(Log(g.lines, g.pending + [c]));
      assert Flat(g.lines) + (g.pending + [c]) == (Flat(g.lines) + g.pending) + [c];
    }
  }

  /** Nothing is lost, repeated or reordered: over plain input the logged lines, put end to end, are the
      input without its newlines, forced breaks included. */
  lemma Conserved(input: string)
    requires Plain(input)
    ensures Flat(Lines(input)) == WithoutNewlines(input)
  {
    FeedKeeps(input);
    FlushKeeps(FeedAll(Log([], []), input));
  }

  /** What may appear in the log: at most 4095 bytes and none of the three terminators. */
  ghost predicate Loggable(line: string) {
    && |line| <= SIZE - 1
    && forall k :: 0 <= k < |line| ==> line[k] != NL && line[k] != CR && line[k] != NUL
  }

  lemma {:induction false} TextLoggable(s: string)
    requires |s| <= SIZE - 1 && forall k :: 0 <= k < |s| ==> s[k] != NL && s[k] != CR
    ensures |Text(s)| <= |s| && Loggable(Text(s))
  {
    if s != [] {
      TextLoggable(s[1..]);
    }
  }

  lemma {:induction false} FeedLoggable(s: string)
    ensures var g := FeedAll(Log([], []), s);
            Pending(g.pending) && forall k :: 0 <= k < |g.lines| ==> Loggable(g.lines[k])
  {
    if s != [] {
      var front, c := s[..|s| - 1], s[|s| - 1];
      FeedLoggable(front);
      var g := FeedAll(Log([], []), front);
      TextLoggable(g.pending);
      if c != NL {
        TextLoggable(g.pending + [Cook(c)]);
      }
    }
  }

  lemma LinesLoggable(input: string)
    ensures forall k :: 0 <= k < |Lines(input)| ==> Loggable(Lines(input)[k])
  {
    FeedLoggable(input);
    TextLoggable(FeedAll(Log([], []), input).pending);
  }

  /** Pending bytes are cooked, hold no newline and leave room in the buffer. */
  ghost predicate Pending(s: string) {
    |s| < SIZE - 1 && forall k :: 0 <= k < |s| ==> s[k] != NL && s[k] != CR
  }

  lemma {:induction false} FeedPending(g: Log, s: string)
    requires Pending(g.pending)
    ensures Pending(FeedAll(g, s).pending)
  {
    if s != [] {
      FeedPending(g, s[..|s| - 1]);
    }
  }

  /** Scanning pending bytes again from an empty line changes nothing. */
  lemma {:induction false} Rescan(lines: seq<string>, s: string)
    requires Pending(s)
    ensures FeedAll(Log(lines, []), s) == Log(lines, s)
  {
    if s != [] {
      var front, c := s[..|s| - 1], s[|s| - 1];
      assert s == front + [c];
      assert Pending(front);
      Rescan(lines, front);
      assert Cook(c) == c;
    }
  }

  // ----- Which lines the input has

  /** `p` is the longest prefix of `x` without a carriage return or a NUL. */
  ghost predicate Visible(p: string, x: string) {
    && |p| <= |x| && p == x[..|p|]
    && (forall k :: 0 <= k < |p| ==> x[k] != CR && x[k] != NUL)
    && (|p| < |x| ==> x[|p|] == CR || x[|p|] == NUL)
  }

  function Cooked(x: string): string {
    seq(|x|, k requires 0 <= k < |x| => Cook(x[k]))
  }

  lemma CookedText(p: string, x: string)
    requires Visible(p, x)
    ensures Text(Cooked(x)) == p
  {
    TextIs(Cooked(x), |p|);
    assert Cooked(x)[..|p|] == p;
  }

  /** Bytes without a newline only pile up until there are 4095. */
  lemma {:induction false} FeedPlain(lines: seq<string>, x: string)
    requires NL !in x && |x| < SIZE - 1
    ensures FeedAll(Log(lines, []), x) == Log(lines, Cooked(x))
  {
    if x != [] {
      FeedPlain(lines, x[..|x| - 1]);
      assert Cooked(x) == Cooked(x[..|x| - 1]) + [Cook(x[|x| - 1])];
    }
  }

  /** The lines already logged have no influence on what follows. */
  lemma {:induction false} FeedAfter(lines: seq<string>, pending: string, s: string)
    ensures var g := FeedAll(Log([], pending), s);
            FeedAll(Log(lines, pending), s) == Log(lines + g.lines, g.pending)
  {
    if s != [] {
      FeedAfter(lines, pending, s[..|s| - 1]);
      var g := FeedAll(Log([], pending), s[..|s| - 1]);
      Associate(lines, g.lines, [Text(g.pending)]);
      Associate(lines, g.lines, [Text(g.pending + [Cook(s[|s| - 1])])]);
    }
  }

  /** Once a line is out, the rest of the input is split as if it stood alone. */
  lemma LinesAfter(s: string, p: string, y: string)
    requires FeedAll(Log([], []), s) == Log([p], [])
    ensures Lines(s + y) == [p] + Lines(y)
  {
    FeedConcat(Log([], []), s, y);
    FeedAfter([p], [], y);
    var g := FeedAll(Log([], []), y);
    Associate([p], g.lines, [Text(g.pending)]);
  }

  /** A line that ends with a newline. */
  lemma FirstLine(x: string, y: string, p: string)
    requires NL !in x && |x| < 4095 && Visible(p, x)
    ensures Lines(x + [NL] + y) == [p] + Lines(y)
  {
    FeedPlain([], x);
    CookedText(p, x);
    FeedConcat(Log([], []), x, [NL]);
    assert FeedAll(Log([], Cooked(x)), [NL]) == Flush(Log([], Cooked(x))) by {
      assert [NL][..0] == [];
    }
    LinesAfter(x + [NL], p, y);
  }

  /** A line broken because 4095 bytes came without a newline. */
  lemma BrokenLine(x: string, y: string, p: string)
    requires NL !in x && |x| == 4095 && Visible(p, x)
    ensures Lines(x + y) == [p] + Lines(y)
  {
    var front, c := x[..|x| - 1], x[|x| - 1];
    FeedPlain([], front);
    assert Cooked(x) == Cooked(front) + [Cook(c)];
    CookedText(p, x);
    LinesAfter(x, p, y);
  }

  /** The last line, without a newline; an empty one is not logged. */
  lemma LastLine(x: string, p: string)
    requires NL !in x && |x| < 4095 && Visible(p, x)
    ensures Lines(x) == if x == [] then [] else [p]
  {
    FeedPlain([], x);
    CookedText(p, x);
  }

  // ----- One pass over the buffer

  /** The scan looks only for newlines. */
  function Scan(g: Log, s: string): Log {
    if s == [] then g
    else
      var h, c := Scan(g, s[..|s| - 1]), s[|s| - 1];
      if c == NL then Flush(h) else Log(h.lines, h.pending + [Cook(c)])
  }

  function FlushFull(h: Log): Log {
    if |h.pending| == SIZE - 1 then Flush(h) else h
  }

  lemma ScanNext(g: Log, s: string, k: nat)
    requires k < |s|
    ensures var h := Scan(g, s[..k]);
            Scan(g, s[..k + 1]) == if s[k] == NL then Flush(h) else Log(h.lines, h.pending + [Cook(s[k])])
  {
    assert s[..k + 1][..k] == s[..k];
  }

  /** Over at most a bufferful, the scan differs from the reference only in that a full buffer is still to
      be flushed. */
  lemma {:induction false} ScanIsFeed(lines: seq<string>, s: string)
    requires |s| <= SIZE - 1
    ensures var h := Scan(Log(lines, []), s);
            && |h.pending| <= |s| && (|h.pending| == |s| ==> h.lines == lines)
            && FeedAll(Log(lines, []), s) == FlushFull(h)
  {
    if s != [] {
      ScanIsFeed(lines, s[..|s| - 1]);
    }
  }

  /** So scanning the pending bytes together with a chunk, and flushing a full buffer, feeds the chunk. */
  lemma TurnIsFeed(lines: seq<string>, pending: string, chunk: string)
    requires Pending(pending) && |pending| + |chunk| <= SIZE - 1
    ensures var h := Scan(Log(lines, []), pending + chunk);
            && |h.pending| <= |pending| + |chunk|
            && FeedAll(Log(lines, pending), chunk) == FlushFull(h)
  {
    ScanIsFeed(lines, pending + chunk);
    Rescan(lines, pending);
    FeedConcat(Log(lines, []), pending, chunk);
  }

  // ----- parent()

  /** The read, scan and flush loop.  `requests` records how many bytes each read asked for. */
  method Parent(input: string) returns (log: seq<string>, ghost requests: seq<nat>)
    ensures log == Lines(input)
    ensures forall k :: 0 <= k < |requests| ==> 1 <= requests[k] < SIZE
  {
    var buffer := new char[SIZE](_ => NUL);
    var a, b := 0, 0;
    log, requests := [], [];
    var pos := 0;
    ghost var g := Log([], []);
    while true
      invariant a == 0 && 0 <= b < SIZE - 1 && 0 <= pos <= |input| && buffer.Length == SIZE
      invariant g == FeedAll(Log([], []), input[..pos]) && g == Log(log, buffer[..b]) && Pending(g.pending)
      invariant forall k :: 0 <= k < |requests| ==> 1 <= requests[k] < SIZE
      decreases |input| - pos
    {
      var request := SIZE - 1 - b;
      requests := requests + [request];
      if pos == |input| {
        break;
      }
      var got: nat := *;
      var most := if request < |input| - pos then request else |input| - pos;
      var sz := if 1 <= got <= most then got else most;
      var chunk := input[pos..pos + sz];
      log, b := Pass(buffer, b, chunk, log);
      ghost var h := FeedAll(g, chunk);
      FeedConcat(Log([], []), input[..pos], chunk);
      FeedPending(g, chunk);
      assert input[..pos] + chunk == input[..pos + sz];
      g, pos := h, pos + sz;
    }
    assert input[..pos] == input;
    if a != b {
      buffer[b] := NUL;
      log := log + [Text(buffer[a..b])];
    }
  }

  /** One turn: read `chunk` behind the `b0` pending bytes, log the complete lines, keep the rest. */
  method Pass(buffer: array<char>, b0: nat, chunk: string, log0: seq<string>) returns (log: seq<string>, b: nat)
    requires buffer.Length == SIZE && b0 < SIZE - 1 && 0 < |chunk| <= SIZE - 1 - b0 && Pending(buffer[..b0])
    modifies buffer
    ensures b < SIZE - 1 && Log(log, buffer[..b]) == FeedAll(Log(log0, old(buffer[..b0])), chunk)
  {
    TurnIsFeed(log0, buffer[..b0], chunk);
    Receive(buffer, b0, chunk);
    var a;
    log, a := ScanBuffer(buffer, b0 + |chunk|, log0);
    log, b := KeepRest(buffer, a, b0 + |chunk|, log);
  }

  /** What read() does to the buffer. */
  method Receive(buffer: array<char>, b0: nat, chunk: string)
    requires b0 + |chunk| <= buffer.Length
    modifies buffer
    ensures buffer[..b0 + |chunk|] == old(buffer[..b0]) + chunk
  {
    forall k | 0 <= k < |chunk| {
      buffer[b0 + k] := chunk[k];
    }
  }

  /** Flush a full buffer, or move what is left of the last line to the front. */
  method KeepRest(buffer: array<char>, a: nat, sz: nat, log0: seq<string>) returns (log: seq<string>, b: nat)
    requires buffer.Length == SIZE && a <= sz < SIZE
    modifies buffer
    ensures b < SIZE - 1 && Log(log, buffer[..b]) == FlushFull(Log(log0, old(buffer[a..sz])))
  {
    log, b := log0, sz;
    if a == 0 && b == SIZE - 1 {
      buffer[b] := NUL;
      log := log + [Text(buffer[a..b])];
      b := 0;
    } else if a != b {
      b := b - a;
      forall k | 0 <= k < b {
        buffer[k] := buffer[a + k];
      }
    } else {
      b := 0;
    }
  }

  /** The for loop over the buffer. */
  method ScanBuffer(buffer: array<char>, sz: nat, log0: seq<string>) returns (log: seq<string>, a: nat)
    requires buffer.Length == SIZE && sz < SIZE
    modifies buffer
    ensures a <= sz && Log(log, buffer[a..sz]) == Scan(Log(log0, []), old(buffer[..sz]))
  {
    ghost var raw := buffer[..sz];
    log, a := log0, 0;
    var b := 0;
    while b < sz
      invariant 0 <= a <= b <= sz
      invariant Log(log, buffer[a..b]) == Scan(Log(log0, []), raw[..b])
      invariant forall k :: b <= k < sz ==> buffer[k] == raw[k]
    {
      ScanNext(Log(log0, []), raw, b);
      ghost var line := buffer[a..b];
      if buffer[b] == CR {
        buffer[b] := NUL;
        assert buffer[a..b + 1] == line + [NUL];
      } else if buffer[b] == NL {
        buffer[b] := NUL;
        log := log + [Text(buffer[a..b])];
        assert buffer[a..b] == line;
        a := b + 1;
      } else {
        assert buffer[a..b + 1] == line + [raw[b]];
      }
      b := b + 1;
    }
    assert raw[..sz] == raw;
  }
}
