/**
 The stop-and-wait sender of `bootable/recovery/mpeg_burning.c`.

 A ROM image goes out in frames of 4096 bytes, each behind a 16-bit frame id
 and before a 32-bit checksum.  Replies and short writes are arbitrary inputs.
 */
module MpegTransfer {
  import opened Basics

  const PAYLOAD: nat := 4096
  const FRAME: nat := 4102
  const IDS: nat := 65536

  // ----- Frames

  function Word(s: seq<u8>, i: nat): nat
    requires 2 * i + 1 < |s|
  {
    Nat(s[2 * i]) + 256 * Nat(s[2 * i + 1])
  }

  /** The sum of the first `n` little-endian words. */
  function Sum(s: seq<u8>, n: nat): nat
    requires 2 * n <= |s|
  {
    if n == 0 then 0 else Sum(s, n - 1) + Word(s, n - 1)
  }

  lemma {:induction false} SumBound(s: seq<u8>, n: nat)
    requires 2 * n <= |s|
    ensures Sum(s, n) <= 65535 * n
  {
    if n > 0 {
      SumBound(s, n - 1);
    }
  }

  function Le16(x: nat): seq<u8>
    requires x < IDS
  {
    [x % 256, x / 256]
  }

  function Le32(x: nat): seq<u8>
    requires x < 0x1_0000_0000
  {
    [x % 256, x / 256 % 256, x / 65536 % 256, x / 16777216]
  }

  function Chunk(image: seq<u8>, k: nat): (payload: seq<u8>)
    requires (k + 1) * 4096 <= |image|
    ensures |payload| == PAYLOAD
  {
    image[k * 4096..k * 4096 + 4096]
  }

  function Frame(image: seq<u8>, k: nat): (f: seq<u8>)
    requires k < IDS && (k + 1) * 4096 <= |image|
    ensures |f| == FRAME && f[2..4098] == Chunk(image, k)
  {
    var payload := Chunk(image, k);
    SumBound(payload, 2048);
    Le16(k) + payload + Le32(Sum(payload, 2048))
  }

  datatype Decoded = Bad | Good(id: nat, payload: seq<u8>)

  /** What a receiver that checks the sum makes of a frame. */
  function Decode(f: seq<u8>): Decoded {
    if |f| == FRAME && Sum(f[2..4098], 2048) == FromLe32(f[4098..])
    then Good(Nat(f[0]) + 256 * Nat(f[1]), f[2..4098]) else Bad
  }

  lemma Le32Inverse(x: nat)
    requires x < 0x1_0000_0000
    ensures FromLe32(Le32(x)) == x
  {
    assert x == x % 256 + 256 * (x / 256);
    var y := x / 256;
    assert y == y % 256 + 256 * (y / 256) && y / 256 == x / 65536;
    var z := x / 65536;
    assert z == z % 256 + 256 * (z / 256) && z / 256 == x / 16777216;
  }

  lemma FrameDecodes(image: seq<u8>, k: nat)
    requires k < IDS && (k + 1) * 4096 <= |image|
    ensures Decode(Frame(image, k)) == Good(k, Chunk(image, k))
  {
    var payload, f := Chunk(image, k), Frame(image, k);
    SumBound(payload, 2048);
    var sum := Sum(payload, 2048);
    Le32Inverse(sum);
    assert f[4098..] == Le32(sum);
    assert f[0] == Le16(k)[0] && f[1] == Le16(k)[1];
  }

  /** The bytes at the first `n` even offsets (`odd` 0) or odd offsets (`odd` 1), added up. */
  ghost function Column(s: seq<u8>, odd: nat, n: nat): nat
    requires odd <= 1 && 2 * n <= |s|
  {
    if n == 0 then 0 else Column(s, odd, n - 1) + s[2 * (n - 1) + odd]
  }

  /** The low bytes of the words come first. */
  lemma {:induction false} SumIs(s: seq<u8>, n: nat)
    requires 2 * n <= |s|
    ensures Sum(s, n) == Column(s, 0, n) + 256 * Column(s, 1, n)
  {
    if n > 0 {
      SumIs(s, n - 1);
    }
  }

  /** A frame byte by byte: the number of the frame, the image, and the sum, all with the low byte first. */
  lemma FrameLayout(image: seq<u8>, k: nat, f: seq<u8>)
    requires k < IDS && (k + 1) * 4096 <= |image| && f == Frame(image, k)
    ensures |f| == 4102 && Nat(f[0]) + 256 * Nat(f[1]) == k
    ensures forall i :: 2 <= i < 4098 ==> f[i] == image[4096 * k + i - 2]
    ensures Nat(f[4098]) + 0x100 * Nat(f[4099]) + 0x1_0000 * Nat(f[4100]) + 0x100_0000 * Nat(f[4101]) ==
            Column(f[2..4098], 0, 2048) + 256 * Column(f[2..4098], 1, 2048)
  {
    var payload := Chunk(image, k);
    SumBound(payload, 2048);
    SumIs(payload, 2048);
    var sum := Sum(payload, 2048);
    Le32Inverse(sum);
    assert f[4098..] == Le32(sum);
    assert f[2..4098] == payload;
    forall i | 2 <= i < 4098 ensures f[i] == image[4096 * k + i - 2] {
      assert f[i] == payload[i - 2];
    }
  }

  /** One changed byte changes the sum by as much, or by 256 times as much. */
  lemma {:induction false} SumChange(s: seq<u8>, n: nat, at: nat, v: u8)
    requires at < 2 * n <= |s|
    ensures Sum(s[at := v], n) == Sum(s, n) + (v - s[at]) * if at % 2 == 0 then 1 else 256
  {
    if at < 2 * (n - 1) {
      SumChange(s, n - 1, at, v);
    } else {
      SumSame(s, n - 1, at, v);
    }
  }

  lemma {:induction false} SumSame(s: seq<u8>, n: nat, at: nat, v: u8)
    requires 2 * n <= at < |s|
    ensures Sum(s[at := v], n) == Sum(s, n)
  {
    if n > 0 {
      SumSame(s, n - 1, at, v);
    }
  }

  /** A frame of which one payload byte was changed on the way is never accepted. */
  lemma ChangeCaught(image: seq<u8>, k: nat, at: nat, v: u8)
    requires k < IDS && (k + 1) * 4096 <= |image| && 2 <= at < 4098 && v != Frame(image, k)[at]
    ensures Decode(Frame(image, k)[at := v]) == Bad
  {
    var f := Frame(image, k);
    var g := f[at := v];
    FrameDecodes(image, k);
    assert g[2..4098] == f[2..4098][at - 2 := v] && g[4098..] == f[4098..];
    SumChange(f[2..4098], 2048, at - 2, v);
  }

  method GetChecksum(buf: array<u8>) returns (checksum: nat)
    requires buf.Length == FRAME
    ensures checksum == Sum(buf[2..4098], 2048)
  {
    ghost var payload := buf[2..4098];
    checksum := 0;
    var at, size := 2, 4096;
    ghost var n := 0;
    while size != 0
      invariant 0 <= n <= 2048 && at == 2 + 2 * n && size == 4096 - 2 * n
      invariant checksum == Sum(payload, n)
    {
      SumBound(payload, n + 1);
      var low, high := buf[at], buf[at + 1];
      assert low == payload[2 * n] && high == payload[2 * n + 1];
      checksum := (checksum + (Nat(low) + 256 * Nat(high))) % 0x1_0000_0000;
      at, size, n := at + 2, size - 2, n + 1;
    }
  }

  method GetFrame(buf: array<u8>, image: seq<u8>, frameid: nat)
    requires buf.Length == FRAME && frameid < IDS && (frameid + 1) * 4096 <= |image|
    modifies buf
    ensures buf[..] == Frame(image, frameid)
  {
    buf[0], buf[1] := frameid % 256, frameid / 256;
    forall k | 0 <= k < 4096 {
      buf[2 + k] := image[frameid * 4096 + k];
    }
    assert buf[2..4098] == Chunk(image, frameid);
    var checksum := GetChecksum(buf);
    SumBound(Chunk(image, frameid), 2048);
    buf[4098], buf[4099] := checksum % 256, checksum / 256 % 256;
    buf[4100], buf[4101] := checksum / 65536 % 256, checksum / 16777216 % 256;
  }

  /** How many of the writes failed. */
  function Failures(pattern: seq<int>): nat {
    if pattern == [] then 0 else Failures(pattern[..|pattern| - 1]) + if pattern[|pattern| - 1] < 0 then 1 else 0
  }

  lemma {:induction false} NoFailures(pattern: seq<int>)
    requires forall k :: 0 <= k < |pattern| ==> pattern[k] >= 0
    ensures Failures(pattern) == 0
  {
    if pattern != [] {
      NoFailures(pattern[..|pattern| - 1]);
    }
  }

  lemma FailuresNext(pattern: seq<int>, k: nat)
    requires k < |pattern|
    ensures Failures(pattern[..k + 1]) == Failures(pattern[..k]) + if pattern[k] < 0 then 1 else 0
  {
    assert pattern[..k + 1][..k] == pattern[..k];
  }

  /** The bytes from `from` to `to`; in front of the buffer there is other memory. */
  function Stretch(buf: seq<u8>, around: int -> u8, from: int, to: int): (s: seq<u8>)
    requires from <= to <= |buf|
    ensures |s| == to - from && (0 <= from ==> s == buf[from..to])
  {
    seq(to - from, i requires 0 <= i < to - from => if from + i >= 0 then buf[from + i] else around(from + i))
  }

  /** write() takes any number of bytes up to the request; `pattern` says how many, a negative entry is a failed
      write, and once the pattern is used up writes are complete.  A failure counts as minus one byte: the sender
      steps back by one.  So the wire carries one byte more per failure, and exactly the frame without any. */
  method SendFrame(buf: array<u8>, around: int -> u8, frameSize: nat, pattern: seq<int>)
    returns (wire: seq<u8>, used: nat)
    requires buf.Length == FRAME && frameSize > 0
    ensures used <= |pattern| && |wire| == FRAME + Failures(pattern[..used])
    ensures wire == buf[..] <==> Failures(pattern[..used]) == 0
  {
    wire, used := [], 0;
    var remain, out := FRAME, 0;
    while remain != 0
      invariant 0 <= remain && out == FRAME - remain && used <= |pattern|
      invariant |wire| == out + Failures(pattern[..used])
      invariant Failures(pattern[..used]) == 0 ==> wire == buf[..out]
      decreases |pattern| - used, remain
    {
      var request := if frameSize < remain then frameSize else remain;
      var end := request;
      if used < |pattern| {
        FailuresNext(pattern, used);
        end := if pattern[used] < 0 then -1 else if pattern[used] < request then pattern[used] else request;
        used := used + 1;
      }
      if end > 0 {
        wire := wire + Stretch(buf[..], around, out, out + end);
      }
      remain, out := remain - end, out + end;
    }
  }

  // ----- Runs

  /** The 16-bit frame id. */
  function Id(n: nat): (id: nat)
    ensures id <= n && id < IDS && (n < IDS ==> id == n)
  {
    n % 65536
  }

  lemma NextId(n: nat)
    ensures (Id(n) + 1) % 65536 == Id(n + 1)
  {
  }

  /** `Divide` is the division by a zero progress step, `Overread` the first frame of an empty ROM; `Waiting`
      means the replies given so far do not end the transfer. */
  datatype Outcome = Success | Failure | Divide | Overread | Waiting

  datatype Round = Round(bytes: seq<u8>, reply: char)

  function Acked(trace: seq<Round>): nat {
    if trace == [] then 0
    else Acked(trace[..|trace| - 1]) + if trace[|trace| - 1].reply == 'O' then 1 else 0
  }

  /** Each round sends the frame numbered by the acknowledgements before it: the next frame follows an 'O'
      for the last one, and anything else repeats the same bytes. */
  ghost predicate StopAndWait(image: seq<u8>, trace: seq<Round>) {
    trace == [] ||
    var front := trace[..|trace| - 1];
    StopAndWait(image, front) && Sends(image, trace[|trace| - 1], Acked(front))
  }

  /** The buffer holds the frame to send after `acked` acknowledgements. */
  ghost predicate Loaded(image: seq<u8>, bytes: seq<u8>, frameid: nat, acked: nat) {
    frameid == Id(acked) && (frameid + 1) * 4096 <= |image| && bytes == Frame(image, frameid)
  }

  ghost predicate Sends(image: seq<u8>, round: Round, acked: nat) {
    (Id(acked) + 1) * 4096 <= |image| && round.bytes == Frame(image, Id(acked))
  }

  /** The payload of a round, if it was acknowledged. */
  function Accepted(round: Round): seq<u8> {
    if round.reply == 'O' && |round.bytes| == FRAME then round.bytes[2..4098] else []
  }

  /** The payloads of the acknowledged rounds, put end to end. */
  function Delivered(trace: seq<Round>): seq<u8> {
    if trace == [] then [] else Delivered(trace[..|trace| - 1]) + Accepted(trace[|trace| - 1])
  }

  /** The device's answers, in order. */
  ghost predicate Answered(trace: seq<Round>, replies: string) {
    |trace| <= |replies| && forall n :: 0 <= n < |trace| ==> trace[n].reply == replies[n]
  }

  /** Read round by round. */
  lemma {:induction false} EveryRound(image: seq<u8>, trace: seq<Round>, n: nat)
    requires StopAndWait(image, trace) && n < |trace|
    ensures Sends(image, trace[n], Acked(trace[..n]))
  {
    var front := trace[..|trace| - 1];
    if n < |front| {
      EveryRound(image, front, n);
      assert front[..n] == trace[..n];
    }
  }

  /** Chunks 0, 1, ..., n - 1 as a 16-bit counter numbers them. */
  function Carried(image: seq<u8>, n: nat): (c: seq<u8>)
    requires n * 4096 <= |image|
    ensures |c| == n * 4096
  {
    if n == 0 then [] else Carried(image, n - 1) + Chunk(image, Id(n - 1))
  }

  /** The part of `StopAndWait` that is about payloads. */
  ghost predicate Carries(image: seq<u8>, trace: seq<Round>) {
    trace == [] ||
    var front, last := trace[..|trace| - 1], trace[|trace| - 1];
    Carries(image, front) && CarriesChunk(image, last.bytes, Id(Acked(front)))
  }

  ghost predicate CarriesChunk(image: seq<u8>, bytes: seq<u8>, k: nat) {
    |bytes| == FRAME && (k + 1) * 4096 <= |image| && bytes[2..4098] == Chunk(image, k)
  }

  lemma {:induction false} SendsChunks(image: seq<u8>, trace: seq<Round>)
    requires StopAndWait(image, trace)
    ensures Carries(image, trace)
  {
    if trace != [] {
      SendsChunks(image, trace[..|trace| - 1]);
    }
  }

  lemma CarriedStep(image: seq<u8>, n: nat)
    requires (n + 1) * 4096 <= |image|
    ensures Carried(image, n + 1) == Carried(image, n) + Chunk(image, Id(n))
  {
  }

  /** Each acknowledged frame contributes its payload once, in order. */
  lemma {:induction false} DeliveredInOrder(image: seq<u8>, trace: seq<Round>, acked: nat)
    requires Carries(image, trace) && acked == Acked(trace) && acked * 4096 <= |image|
    ensures Delivered(trace) == Carried(image, acked)
  {
    if trace != [] {
      var front, last := trace[..|trace| - 1], trace[|trace| - 1];
      var before := if last.reply == 'O' then acked - 1 else acked;
      DeliveredInOrder(image, front, before);
      if last.reply == 'O' {
        CarriedStep(image, before);
        assert Delivered(trace) == Delivered(front) + Chunk(image, Id(before));
      } else {
        assert Delivered(trace) == Delivered(front) + [];
      }
    }
  }

  lemma {:induction false} CarriedChunk(image: seq<u8>, n: nat, k: nat)
    requires n * 4096 <= |image| && k < n
    ensures Chunk(Carried(image, n), k) == Chunk(image, Id(k))
  {
    if k < n - 1 {
      CarriedChunk(image, n - 1, k);
      assert Chunk(Carried(image, n), k) == Chunk(Carried(image, n - 1), k);
    }
  }

  /** Frame `k` reaches the device as itself: always so while the id does not wrap. */
  ghost predicate Intact(image: seq<u8>, k: nat)
    requires (k + 1) * 4096 <= |image|
  {
    Chunk(image, k) == Chunk(image, Id(k))
  }

  lemma {:induction false} CarriedPrefix(image: seq<u8>, n: nat)
    requires n * 4096 <= |image| && forall k :: 0 <= k < n ==> Intact(image, k)
    ensures Carried(image, n) == image[..n * 4096]
  {
    if n > 0 {
      CarriedPrefix(image, n - 1);
      assert Intact(image, n - 1);
      assert image[..(n - 1) * 4096] + Chunk(image, n - 1) == image[..n * 4096];
    }
  }

  lemma CarriedExactly(image: seq<u8>, frames: nat)
    requires |image| == frames * 4096
    ensures Carried(image, frames) == image <==> forall k :: 0 <= k < frames ==> Intact(image, k)
  {
    if Carried(image, frames) == image {
      forall k | 0 <= k < frames ensures Intact(image, k) {
        CarriedChunk(image, frames, k);
      }
    }
    if forall k :: 0 <= k < frames ==> Intact(image, k) {
      CarriedPrefix(image, frames);
      assert image[..frames * 4096] == image;
    }
  }

  // ----- transfer()

  /** The least number of frames that hold `size` bytes. */
  function Frames(size: nat): (n: nat)
    ensures size <= n * 4096 < size + 4096
  {
    (size + 4095) / 4096
  }

  /** The outcome as a function of the number of frames and the replies alone. */
  function Expected(frames: nat, acked: nat, replies: string): Outcome
    decreases |replies|
  {
    if replies == [] then Waiting
    else match replies[0]
      case 'O' =>
        if acked + 1 == frames then Success
        else if frames < 50 then Divide
        else Expected(frames, acked + 1, replies[1..])
      case 'L' => Expected(frames, acked, replies[1..])
      case 'X' => Expected(frames, acked, replies[1..])
      case 'E' => Success
      case _ => Failure
  }

  lemma ExpectedStep(frames: nat, acked: nat, replies: string, n: nat)
    requires n < |replies|
    ensures var c, rest := replies[n], replies[n + 1..];
            Expected(frames, acked, replies[n..]) ==
            if c == 'L' || c == 'X' then Expected(frames, acked, rest)
            else if c == 'E' then Success
            else if c != 'O' then Failure
            else if acked + 1 == frames then Success
            else if frames < 50 then Divide
            else Expected(frames, acked + 1, rest)
  {
  }

  /** How many of the first `n` replies are acknowledgements. */
  ghost function Acks(replies: string, n: nat): nat
    requires n <= |replies|
  {
    if n == 0 then 0 else (if replies[0] == 'O' then 1 else 0) + Acks(replies[1..], n - 1)
  }

  /** The first `n` replies neither end the transfer nor reach the division. */
  ghost predicate Going(frames: nat, acked: nat, replies: string, n: nat)
    requires n <= |replies|
  {
    && (forall k :: 0 <= k < n ==> replies[k] == 'O' || replies[k] == 'L' || replies[k] == 'X')
    && acked + Acks(replies, n) < frames && (frames < 50 ==> Acks(replies, n) == 0)
  }

  /** The outcome is decided by the first reply after which the transfer does not go on. */
  lemma {:induction false} OutcomeAt(frames: nat, acked: nat, replies: string, n: nat)
    requires n <= |replies| && Going(frames, acked, replies, n)
    requires n < |replies| ==> !Going(frames, acked, replies, n + 1)
    ensures Expected(frames, acked, replies) ==
            if n == |replies| then Waiting
            else if replies[n] == 'E' then Success
            else if replies[n] != 'O' then Failure
            else if acked + Acks(replies, n) + 1 == frames then Success
            else Divide
    decreases n
  {
    if n != 0 {
      var rest := replies[1..];
      GoingRest(frames, acked, replies, n);
      if n < |replies| {
        GoingRest(frames, acked, replies, n + 1);
      }
      OutcomeAt(frames, if replies[0] == 'O' then acked + 1 else acked, rest, n - 1);
    } else if replies != [] {
      GoingOne(frames, acked, replies);
    }
  }

  lemma GoingOne(frames: nat, acked: nat, replies: string)
    requires replies != [] && acked < frames
    ensures Acks(replies, 0) == 0 && Acks(replies, 1) == if replies[0] == 'O' then 1 else 0
    ensures Going(frames, acked, replies, 1) <==>
            || replies[0] == 'L' || replies[0] == 'X'
            || (replies[0] == 'O' && acked + 1 < frames && 50 <= frames)
  {
    assert Acks(replies[1..], 0) == 0;
  }

  lemma GoingRest(frames: nat, acked: nat, replies: string, n: nat)
    requires 0 < n <= |replies| && acked < frames && (replies[0] == 'O' ==> acked + 1 < frames && 50 <= frames)
    requires replies[0] == 'O' || replies[0] == 'L' || replies[0] == 'X'
    ensures Going(frames, acked, replies, n) <==>
            Going(frames, if replies[0] == 'O' then acked + 1 else acked, replies[1..], n - 1)
  {
    var rest := replies[1..];
    forall k | 0 <= k < n - 1 ensures rest[k] == replies[k + 1] {
    }
    if forall k :: 0 <= k < n - 1 ==> rest[k] == 'O' || rest[k] == 'L' || rest[k] == 'X' {
      forall k | 0 <= k < n ensures replies[k] == 'O' || replies[k] == 'L' || replies[k] == 'X' {
        assert k > 0 ==> replies[k] == rest[k - 1];
      }
    }
  }

  ghost predicate Retries(replies: string) {
    forall k :: 0 <= k < |replies| ==> replies[k] == 'L' || replies[k] == 'X'
  }

  /** The division by zero happens exactly for images of 2 to 49 frames, at the first acknowledgement. */
  lemma {:induction false} DivideExactly(frames: nat, acked: nat, replies: string)
    requires acked < frames && (frames < 50 ==> acked == 0)
    ensures Expected(frames, acked, replies) == Divide <==>
            2 <= frames < 50 && exists n :: 0 <= n < |replies| && replies[n] == 'O' && Retries(replies[..n])
    decreases |replies|
  {
    if replies == [] {
    } else if replies[0] == 'O' {
      assert Retries(replies[..0]);
      if acked + 1 < frames && 50 <= frames {
        DivideExactly(frames, acked + 1, replies[1..]);
      }
    } else if replies[0] == 'L' || replies[0] == 'X' {
      DivideExactly(frames, acked, replies[1..]);
      FirstAck(replies);
    } else {
      forall n | 0 < n < |replies| ensures !Retries(replies[..n]) {
        assert replies[..n][0] == replies[0];
      }
    }
  }

  lemma RetriesCons(c: char, rest: string)
    requires c == 'L' || c == 'X'
    ensures Retries([c] + rest) <==> Retries(rest)
  {
    forall k | 0 <= k < |rest| ensures rest[k] == ([c] + rest)[k + 1] {
    }
  }

  lemma FirstAck(replies: string)
    requires replies != [] && (replies[0] == 'L' || replies[0] == 'X')
    ensures (exists n :: 0 <= n < |replies| && replies[n] == 'O' && Retries(replies[..n])) <==>
            exists n :: 0 <= n < |replies[1..]| && replies[1..][n] == 'O' && Retries(replies[1..][..n])
  {
    var rest := replies[1..];
    forall n | 0 <= n < |rest| ensures Retries(rest[..n]) <==> Retries(replies[..n + 1]) {
      assert replies[..n + 1] == [replies[0]] + rest[..n];
      RetriesCons(replies[0], rest[..n]);
    }
    if n :| 0 <= n < |replies| && replies[n] == 'O' && Retries(replies[..n]) {
      assert rest[n - 1] == 'O' && Retries(rest[..n - 1]);
    }
    if n :| 0 <= n < |rest| && rest[n] == 'O' && Retries(rest[..n]) {
      assert replies[n + 1] == 'O' && Retries(replies[..n + 1]);
    }
  }

  ghost predicate Divides(frames: nat, replies: string) {
    Expected(frames, 0, replies) == Divide
  }

  /** So the transfer is free of it, whatever the device answers, exactly for one frame or at least fifty. */
  lemma SafeSizes(frames: nat)
    requires 0 < frames
    ensures (forall replies :: !Divides(frames, replies)) <==> frames == 1 || 50 <= frames
  {
    forall replies ensures Divides(frames, replies) ==> 2 <= frames < 50 {
      DivideExactly(frames, 0, replies);
    }
    var ack := "O";
    assert ack[0] == 'O' && ack[1..] == [];
    if 2 <= frames < 50 {
      assert Divides(frames, ack);
    }
  }

  /** The malloc'ed image: the file, then whatever the allocation held. */
  function Image(file: seq<u8>, garbage: nat -> u8): (image: seq<u8>)
    ensures |image| == Frames(|file|) * 4096 && file == image[..|file|]
  {
    file + seq(Frames(|file|) * 4096 - |file|, (i: nat) => garbage(i))
  }

  /** Success is reported on an 'O' for the last frame, or on an 'E' at any time; only the former means that
      every frame was acknowledged. */
  ghost predicate EndsWell(frames: nat, trace: seq<Round>) {
    trace != [] && EndsBy(frames, trace[|trace| - 1].reply, Acked(trace))
  }

  ghost predicate EndsBy(frames: nat, reply: char, acked: nat) {
    && (reply == 'O' || reply == 'E')
    && acked <= frames
    && (reply == 'O' <==> acked == frames)
  }

  /** A successful transfer delivered the whole image exactly when it ended by 'O' and every frame past the
      range of the 16-bit id equals the frame its id names. */
  lemma WholeImage(image: seq<u8>, frames: nat, trace: seq<Round>)
    requires |image| == frames * 4096 && StopAndWait(image, trace)
    requires EndsWell(frames, trace)
    ensures Delivered(trace) == image <==>
            trace[|trace| - 1].reply == 'O' && forall k :: IDS <= k < frames ==> Intact(image, k)
  {
    SendsChunks(image, trace);
    DeliveredInOrder(image, trace, Acked(trace));
    CarriedExactly(image, frames);
    forall k | 0 <= k < frames && k < IDS ensures Intact(image, k) {
    }
  }

  /** Loads the image and sends it against the given replies. */
  method Transfer(file: seq<u8>, garbage: nat -> u8, ready: bool, frameSize: nat, replies: string)
    returns (outcome: Outcome, trace: seq<Round>)
    requires |file| < 0x8000_0000 && frameSize > 0
    ensures StopAndWait(Image(file, garbage), trace) && Answered(trace, replies)
    ensures outcome == if !ready then Failure else if file == [] then Overread
                       else Expected(Frames(|file|), 0, replies)
    ensures outcome == Success ==> EndsWell(Frames(|file|), trace)
    ensures outcome == Success && Frames(|file|) <= IDS ==>
              (Delivered(trace) == Image(file, garbage) <==> trace[|trace| - 1].reply == 'O')
  {
    trace := [];
    if !ready {
      return Failure, trace;
    }
    var image := Image(file, garbage);
    if |image| == 0 {
      return Overread, trace;
    }
    ghost var acked;
    outcome, trace, acked := Rounds(image, Frames(|file|), frameSize, replies);
    HistoryParts(image, replies, trace, acked);
    if outcome == Success {
      WholeImage(image, Frames(|file|), trace);
    }
  }

  /** What a run has established.  It stays folded until `HistoryParts` is called. */
  ghost predicate History(image: seq<u8>, replies: string, trace: seq<Round>, acked: nat) {
    forall i {:trigger Parts(i)} :: Parts(i) ==>
      StopAndWait(image, trace) && Answered(trace, replies) && acked == Acked(trace)
  }

  lemma HistoryParts(image: seq<u8>, replies: string, trace: seq<Round>, acked: nat)
    requires History(image, replies, trace, acked)
    ensures StopAndWait(image, trace) && Answered(trace, replies) && acked == Acked(trace)
  {
    assert Parts(0);
  }

  /** Send what is in the buffer and wait for the reply. */
  method Exchange(buf: array<u8>, image: seq<u8>, frameid: nat, frameSize: nat, replies: string,
                  trace: seq<Round>, ghost acked: nat)
    returns (longer: seq<Round>, reply: char)
    requires buf.Length == FRAME && frameSize > 0 && |trace| < |replies|
    requires History(image, replies, trace, acked) && Loaded(image, buf[..], frameid, acked)
    ensures reply == replies[|trace|] && |longer| == |trace| + 1 && longer[|trace|].reply == reply
    ensures History(image, replies, longer, if reply == 'O' then acked + 1 else acked)
  {
    HistoryParts(image, replies, trace, acked);
    var pattern: seq<nat>, around: int -> u8 := *, *;
    var wire, used := SendFrame(buf, around, frameSize, pattern);
    NoFailures(pattern[..used]);
    reply := replies[|trace|];
    longer := trace + [Round(wire, reply)];
    TraceGrows(image, trace, Round(wire, reply));
  }

  method NextFrame(buf: array<u8>, image: seq<u8>, ghost acked: nat, frameid: nat) returns (next: nat)
    requires buf.Length == FRAME && Loaded(image, buf[..], frameid, acked) && (acked + 2) * 4096 <= |image|
    modifies buf
    ensures Loaded(image, buf[..], next, acked + 1)
  {
    NextId(acked);
    next := (frameid + 1) % 65536;
    GetFrame(buf, image, next);
  }

  /** Bytes after the frame in the buffer. */
  function Left(frames: nat, acked: nat): (n: nat)
    requires acked < frames
    ensures n == 0 <==> acked + 1 == frames
  {
    (frames - 1 - acked) * 4096
  }

  method Rounds(image: seq<u8>, frames: nat, frameSize: nat, replies: string)
    returns (outcome: Outcome, trace: seq<Round>, ghost acked: nat)
    requires |image| == frames * 4096 && frames > 0 && frameSize > 0
    ensures History(image, replies, trace, acked) && outcome == Expected(frames, 0, replies)
    ensures outcome == Success ==> trace != [] && EndsBy(frames, trace[|trace| - 1].reply, acked)
  {
    var step10, step2, outTimes := frames / 5, frames / 50, 0;
    assert step2 == 0 || step10 == 0 <==> frames < 50;
    var buf := new u8[FRAME];
    var frameid := 0;
    GetFrame(buf, image, frameid);
    var romsize := |image| - 4096;
    trace := [];
    while |trace| < |replies|
      invariant 0 <= outTimes < frames && |trace| <= |replies| && romsize == Left(frames, outTimes)
      invariant Loaded(image, buf[..], frameid, outTimes)
      invariant History(image, replies, trace, outTimes)
      invariant Expected(frames, 0, replies) == Expected(frames, outTimes, replies[|trace|..])
    {
      var reply;
      ExpectedStep(frames, outTimes, replies, |trace|);
      trace, reply := Exchange(buf, image, frameid, frameSize, replies, trace, outTimes);
      if reply == 'O' {
        if romsize == 0 {
          return Success, trace, outTimes + 1;
        }
      } else if reply == 'E' {
        return Success, trace, outTimes;
      } else if reply != 'L' && reply != 'X' {
        return Failure, trace, outTimes;
      }
      if reply == 'O' {
        frameid := NextFrame(buf, image, outTimes, frameid);
        romsize := romsize - 4096;
        outTimes := outTimes + 1;
        if step2 == 0 || step10 == 0 {
          return Divide, trace, outTimes;
        }
      }
    }
    outcome, acked := Waiting, outTimes;
  }

  lemma TraceGrows(image: seq<u8>, trace: seq<Round>, round: Round)
    requires StopAndWait(image, trace) && Sends(image, round, Acked(trace))
    ensures StopAndWait(image, trace + [round])
    ensures Acked(trace + [round]) == Acked(trace) + if round.reply == 'O' then 1 else 0
  {
  }
}
