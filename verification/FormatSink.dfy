/**
 The bounded output sink of `bionic/linker/linker_format.c`, and the library
 search of `bionic/linker/linker.c` that relies on its length.
 */
module FormatSink {
  import opened Basics
  import opened CStrings

  function Repeat(ch: char, count: int): (s: string)
    ensures |s| == (if count < 0 then 0 else count) && forall k :: 0 <= k < |s| ==> s[k] == ch
  {
    if count <= 0 then [] else Repeat(ch, count - 1) + [ch]
  }

  lemma {:induction false} RepeatGrows(ch: char, m: nat, s: string)
    requires forall k :: 0 <= k < |s| ==> s[k] == ch
    ensures Repeat(ch, m) + s == Repeat(ch, m + |s|)
  {
    if s != [] {
      var front := s[..|s| - 1];
      RepeatGrows(ch, m, front);
      assert Repeat(ch, m) + s == Repeat(ch, m) + front + [ch];
    }
  }

  class BufOut {
    const buffer: array<char>
    const end: nat
    var pos: nat
    var total: int
    ghost var sent: string

    /** The buffer holds the first `end` bytes of everything sent, and a NUL. */
    ghost predicate Valid()
      reads this, buffer
    {
      && end < buffer.Length
      && total == Int32(|sent|)
      && pos == (if |sent| < end then |sent| else end)
      && buffer[..pos] == sent[..pos]
      && buffer[pos] == NUL
    }

    /** buf_out_init with a size of at least one. */
    constructor (b: array<char>, size: nat)
      requires 0 < size <= b.Length
      modifies b
      ensures Valid() && sent == [] && buffer == b && end == size - 1
    {
      buffer, end, pos, total, sent := b, size - 1, 0, 0, [];
      new;
      buffer[0] := NUL;
    }

    /** buf_out_send; a negative length means the whole C string. */
    method Send(data: string, length: int)
      requires Valid() && length <= |data|
      modifies this, buffer
      ensures Valid() && sent == old(sent) + if length < 0 then Text(data) else data[..length]
    {
      var bytes := if length < 0 then Text(data) else data[..length];
      TextPrefix(data);
      Int32Add(|sent|, |bytes|);
      total := Int32(total + |bytes|);
      ghost var start := pos;
      Copy(bytes);
      assert (sent + bytes)[..pos] == sent[..start] + bytes[..pos - start];
      sent := sent + bytes;
    }

    /** The copy loop. */
    method Copy(bytes: string)
      requires pos <= end < buffer.Length && buffer[pos] == NUL
      modifies this`pos, buffer
      ensures pos == if old(pos) + |bytes| < end then old(pos) + |bytes| else end
      ensures buffer[..pos] == old(buffer[..pos]) + bytes[..pos - old(pos)] && buffer[pos] == NUL
    {
      var len := |bytes|;
      while len > 0
        invariant old(pos) <= pos <= end && 0 <= len == |bytes| - (pos - old(pos))
        invariant pos == old(pos) || len == 0 || pos == end
        invariant buffer[..pos] == old(buffer[..pos]) + bytes[..pos - old(pos)] && buffer[pos] == NUL
      {
        var avail := end - pos;
        if avail == 0 {
          break;
        }
        if avail > len {
          avail := len;
        }
        ghost var front := buffer[..pos];
        forall k | 0 <= k < avail {
          buffer[pos + k] := bytes[k];
        }
        assert buffer[..pos + avail] == front + bytes[..avail];
        pos := pos + avail;
        buffer[pos] := NUL;
        len := len - avail;
      }
    }

    /** out_send_repeat, eight bytes at a time. */
    method SendRepeat(ch: char, count: int)
      requires Valid()
      modifies this, buffer
      ensures Valid() && sent == old(sent) + Repeat(ch, count)
    {
      var pad := [ch, ch, ch, ch, ch, ch, ch, ch];
      var left, done := count, 0;
      while left > 0
        invariant Valid() && 0 <= done && (if 0 <= count then 0 <= left == count - done else done == 0 && left == count)
        invariant sent == old(sent) + Repeat(ch, done)
      {
        var avail := if left > 8 then 8 else left;
        RepeatGrows(ch, done, pad[..avail]);
        Send(pad, avail);
        Associate(old(sent), Repeat(ch, done), pad[..avail]);
        left, done := left - avail, done + avail;
      }
    }
  }

  // ----- format_buffer

  /** Output is cut when fewer bytes than were sent are in the buffer. */
  ghost predicate WasCut(contents: seq<char>, output: string) {
    Text(contents) != output
  }

  /** The directives' output sent piece by piece into a buffer of `size` bytes.  The result is the whole length as
      a C int, so a caller's test for a negative or too large result sees the length modulo 2^32. */
  method FormatBuffer(buf: array<char>, size: nat, pieces: seq<string>) returns (n: int)
    requires size <= buf.Length && NUL !in Flat(pieces)
    modifies buf
    ensures size == 0 ==> n == 0 && buf[..] == old(buf[..])
    ensures size > 0 ==> n == Int32(|Flat(pieces)|)
    ensures size > 0 ==> Text(buf[..]) == if |Flat(pieces)| < size then Flat(pieces) else Flat(pieces)[..size - 1]
    ensures size > 0 ==> (WasCut(buf[..], Flat(pieces)) <==> size <= |Flat(pieces)|)
  {
    if size == 0 {
      return 0;
    }
    var out := new BufOut(buf, size);
    var i := 0;
    while i < |pieces|
      invariant 0 <= i <= |pieces|
      invariant out.Valid() && out.buffer == buf && out.end == size - 1 && out.sent == Flat(pieces[..i])
    {
      out.Send(pieces[i], |pieces[i]|);
      assert pieces[..i + 1][..i] == pieces[..i];
      i := i + 1;
    }
    assert pieces[..|pieces|] == pieces;
    n := out.total;
    ghost var pos := out.pos;
    assert buf[..][..pos] == Flat(pieces)[..pos];
    TextIs(buf[..], pos);
  }

  /** The test `n < 0 || n >= size` on the result. */
  predicate LooksCut(n: int, size: nat) {
    n < 0 || n >= size
  }

  /** The test tells exactly whether the output was cut, except for lengths from 2^32 on whose remainder is below
      the size. */
  lemma LooksCutExactly(length: nat, size: nat)
    requires 0 < size <= 0x8000_0000
    ensures (LooksCut(Int32(length), size) <==> size <= length) <==> !(WORD <= length && length % WORD < size)
  {
  }

  // ----- open_library

  const LDPATH_BUFSIZE: nat := 512
  const NAME_MAX: nat := 256

  const BUF: nat := 512
  const SYSTEM_PATHS: seq<string> := ["/vendor/lib", "/system/lib"]

  function FullPath(dir: string, name: string): string {
    dir + ['/'] + name
  }

  predicate Usable(dir: string, name: string, opens: string -> bool) {
    |dir + "/" + name| < 512 && opens(dir + "/" + name)
  }

  /** The path under the first directory where it is short enough and can be opened. */
  function FirstOpen(dirs: seq<string>, name: string, opens: string -> bool): Option<string> {
    if dirs == [] then None
    else if Usable(dirs[0], name, opens) then Some(FullPath(dirs[0], name))
    else FirstOpen(dirs[1..], name, opens)
  }

  lemma {:induction false} FirstOpenIs(dirs: seq<string>, name: string, opens: string -> bool)
    ensures FirstOpen(dirs, name, opens) == None ==> forall k :: 0 <= k < |dirs| ==> !Usable(dirs[k], name, opens)
    ensures FirstOpen(dirs, name, opens) != None ==>
              exists k :: && 0 <= k < |dirs| && Usable(dirs[k], name, opens)
                          && FirstOpen(dirs, name, opens) == Some(dirs[k] + "/" + name)
                          && forall i :: 0 <= i < k ==> !Usable(dirs[i], name, opens)
  {
    if dirs != [] && !Usable(dirs[0], name, opens) {
      var rest := dirs[1..];
      FirstOpenIs(rest, name, opens);
      if FirstOpen(rest, name, opens) != None {
        var k :| && 0 <= k < |rest| && Usable(rest[k], name, opens)
                 && FirstOpen(rest, name, opens) == Some(rest[k] + "/" + name)
                 && forall i :: 0 <= i < k ==> !Usable(rest[i], name, opens);
        assert Usable(dirs[k + 1], name, opens);
        forall i | 0 <= i < k + 1 ensures !Usable(dirs[i], name, opens) {
          assert i > 0 ==> dirs[i] == rest[i - 1];
        }
      }
    }
  }

  /** One of the two search loops, through the 512-byte buffer. */
  method SearchPaths(dirs: seq<string>, name: string, opens: string -> bool) returns (r: Option<string>)
    requires NUL !in name && |name| <= NAME_MAX
    requires forall k :: 0 <= k < |dirs| ==> NUL !in dirs[k] && |dirs[k]| < LDPATH_BUFSIZE
    ensures r == FirstOpen(dirs, name, opens)
  {
    var buf := new char[BUF](_ => NUL);
    var i := 0;
    while i < |dirs|
      invariant 0 <= i <= |dirs|
      invariant FirstOpen(dirs, name, opens) == FirstOpen(dirs[i..], name, opens)
    {
      FlatPath(dirs[i], name);
      var n := FormatBuffer(buf, BUF, [dirs[i], "/", name]);
      assert dirs[i..][1..] == dirs[i + 1..];
      LooksCutExactly(|FullPath(dirs[i], name)|, BUF);
      if !LooksCut(n, BUF) && opens(Text(buf[..])) {
        return Some(Text(buf[..]));
      }
      i := i + 1;
    }
    r := None;
  }

  lemma FlatPath(dir: string, name: string)
    ensures Flat([dir, "/", name]) == FullPath(dir, name)
  {
    var pieces := [dir, "/", name];
    assert pieces[..2] == [dir, "/"] && pieces[..2][..1] == [dir] && [dir][..0] == [];
    assert Flat([dir]) == [] + dir == dir;
    assert Flat([dir, "/"]) == dir + ['/'];
  }

  /** open_library: an absolute name as it is, then LD_LIBRARY_PATH, then the system directories.  A path that
      does not fit the buffer is never opened. */
  method OpenLibrary(name: string, ldPaths: seq<string>, opens: string -> bool) returns (r: Option<string>)
    requires NUL !in name && forall k :: 0 <= k < |ldPaths| ==> NUL !in ldPaths[k] && |ldPaths[k]| < LDPATH_BUFSIZE
    ensures |name| > NAME_MAX ==> r == None
    ensures |name| <= NAME_MAX ==>
              r == if name != [] && name[0] == '/' && opens(name) then Some(name)
                   else FirstOpen(ldPaths + SYSTEM_PATHS, name, opens)
  {
    if |name| > NAME_MAX {
      return None;
    }
    if name != [] && name[0] == '/' && opens(name) {
      return Some(name);
    }
    FirstOpenAppend(ldPaths, SYSTEM_PATHS, name, opens);
    r := SearchPaths(ldPaths, name, opens);
    if r == None {
      r := SearchPaths(SYSTEM_PATHS, name, opens);
    }
  }

  lemma {:induction false} FirstOpenAppend(a: seq<string>, b: seq<string>, name: string, opens: string -> bool)
    ensures FirstOpen(a + b, name, opens) ==
            if FirstOpen(a, name, opens).Some? then FirstOpen(a, name, opens) else FirstOpen(b, name, opens)
  {
    if a == [] {
      assert a + b == b;
    } else {
      FirstOpenAppend(a[1..], b, name, opens);
      assert (a + b)[1..] == a[1..] + b;
    }
  }
}
