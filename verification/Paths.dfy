/**
 `dirname_r` and `basename_r` of `bionic/libc/bionic`.
 */
module Paths {
  import opened Basics
  import opened CStrings

  const MAXPATHLEN: nat := 4096
  const SLASH: char := '/'

  // ----- Components of a path

  /** The leading run without a slash. */
  function Name(s: string): (w: string)
    ensures |w| <= |s| && w == s[..|w|] && (|w| < |s| ==> s[|w|] == SLASH) && SLASH !in w
  {
    if s == [] || s[0] == SLASH then [] else [s[0]] + Name(s[1..])
  }

  /** The non-empty names between slashes. */
  function Components(s: string): seq<string>
    decreases |s|
  {
    if s == [] then []
    else if s[0] == SLASH then Components(s[1..])
    else [Name(s)] + Components(s[|Name(s)|..])
  }

  lemma {:induction false} NameIs(w: string, rest: string)
    requires SLASH !in w && (rest != [] ==> rest[0] == SLASH)
    ensures Name(w + rest) == w
  {
    if w != [] {
      NameIs(w[1..], rest);
      assert (w + rest)[1..] == w[1..] + rest;
    } else {
      assert w + rest == rest;
    }
  }

  lemma ComponentFirst(w: string, rest: string)
    requires w != [] && SLASH !in w && (rest != [] ==> rest[0] == SLASH)
    ensures Components(w + rest) == [w] + Components(rest)
  {
    NameIs(w, rest);
    assert (w + rest)[|w|..] == rest;
  }

  lemma OneComponent(w: string)
    requires w != [] && SLASH !in w
    ensures Components(w) == [w]
  {
    ComponentFirst(w, []);
    assert w + [] == w;
  }

  /** A slash separates components. */
  lemma {:induction false} ComponentsSplit(a: string, b: string)
    ensures Components(a + [SLASH] + b) == Components(a) + Components(b)
    decreases |a|
  {
    if a == [] {
      assert (a + [SLASH] + b)[1..] == b;
    } else if a[0] == SLASH {
      ComponentsSplit(a[1..], b);
      assert (a + [SLASH] + b)[1..] == a[1..] + [SLASH] + b;
    } else {
      var w := Name(a);
      var rest := a[|w|..];
      ComponentsSplit(rest, b);
      assert a + [SLASH] + b == w + (rest + [SLASH] + b);
      ComponentFirst(w, rest + [SLASH] + b);
      ComponentFirst(w, rest);
      assert a == w + rest;
      Associate([w], Components(rest), Components(b));
    }
  }

  lemma ComponentsTrailing(a: string)
    ensures Components(a + [SLASH]) == Components(a)
  {
    ComponentsSplit(a, []);
    assert a + [SLASH] + [] == a + [SLASH];
  }

  // ----- The two parts

  /** Without trailing slashes, down to one character. */
  function Trim(s: string): (t: string)
    ensures |t| <= |s| && t == s[..|t|] && (s != [] ==> t != [])
    ensures |t| > 1 ==> t[|t| - 1] != SLASH
  {
    if |s| > 1 && s[|s| - 1] == SLASH then Trim(s[..|s| - 1]) else s
  }

  /** Without the last name, down to one character. */
  function DropName(s: string): (t: string)
    ensures |t| <= |s| && t == s[..|t|] && (s != [] ==> t != [])
    ensures |t| > 1 ==> t[|t| - 1] == SLASH
    ensures forall k :: |t| <= k < |s| ==> s[k] != SLASH
  {
    if |s| > 1 && s[|s| - 1] != SLASH then DropName(s[..|s| - 1]) else s
  }

  function Dir(path: string): string {
    if path == [] then "."
    else
      var t := DropName(Trim(path));
      if |t| == 1 then (if t[0] == SLASH then "/" else ".")
      else Trim(t[..|t| - 1])
  }

  /** Where the name that ends at `k` starts. */
  function NameStart(s: string, k: nat): (start: nat)
    requires k < |s|
    ensures start <= k && (start > 0 ==> s[start - 1] == SLASH)
    ensures forall i :: start <= i < k ==> s[i] != SLASH
  {
    if k > 0 && s[k - 1] != SLASH then NameStart(s, k - 1) else k
  }

  /** The last name of a string that does not end in a slash. */
  function LastName(s: string): string
    requires s != []
  {
    s[NameStart(s, |s| - 1)..]
  }

  lemma {:induction false} NameStartPrefix(s: string, n: nat, k: nat)
    requires k < n <= |s|
    ensures NameStart(s[..n], k) == NameStart(s, k)
  {
  }

  function Base(path: string): string {
    if path == [] then "."
    else
      var t := Trim(path);
      if |t| == 1 && t[0] == SLASH then "/" else LastName(t)
  }

  lemma {:induction false} TrimKeeps(s: string)
    ensures Components(Trim(s)) == Components(s)
  {
    if |s| > 1 && s[|s| - 1] == SLASH {
      var front := s[..|s| - 1];
      TrimKeeps(front);
      ComponentsTrailing(front);
      assert s == front + [SLASH];
    }
  }

  /** No directory part: no slash before the name. */
  predicate Bare(path: string) {
    SLASH !in Trim(path)
  }

  predicate AllSlashes(path: string) {
    forall k :: 0 <= k < |path| ==> path[k] == SLASH
  }

  lemma {:induction false} TrimSlash(s: string)
    requires s != []
    ensures Trim(s) == "/" <==> AllSlashes(s)
    ensures !AllSlashes(s) ==> Trim(s)[|Trim(s)| - 1] != SLASH
  {
    if |s| > 1 && s[|s| - 1] == SLASH {
      TrimSlash(s[..|s| - 1]);
    }
  }

  /** The name follows the directory's slash. */
  lemma {:induction false} SplitName(t: string)
    requires t != [] && t[|t| - 1] != SLASH
    ensures SLASH !in t ==> NameStart(t, |t| - 1) == 0 && |DropName(t)| == 1 && DropName(t)[0] != SLASH
    ensures SLASH in t ==> NameStart(t, |t| - 1) == |DropName(t)| && DropName(t)[|DropName(t)| - 1] == SLASH
  {
  }

  lemma DeepPath(d: string, w: string)
    requires d != [] && d[|d| - 1] == SLASH && w != [] && SLASH !in w
    ensures Components(d + w) == Components(Trim(d[..|d| - 1])) + [w]
  {
    var q := d[..|d| - 1];
    ComponentsSplit(q, w);
    assert d + w == q + [SLASH] + w;
    TrimKeeps(q);
    OneComponent(w);
  }

  lemma RootIsEmpty()
    ensures Components("/") == [] && Components([]) == [] && Trim([]) == []
  {
  }

  /** The components of a path are those of its directory, then its base name. */
  lemma PartsOfPath(path: string)
    requires path != [] && !AllSlashes(path)
    ensures Components(path) == (if Bare(path) then [] else Components(Dir(path))) + [Base(path)]
    ensures Bare(path) ==> Dir(path) == "."
  {
    var t := Trim(path);
    TrimSlash(path);
    TrimKeeps(path);
    SplitName(t);
    if Bare(path) {
      assert LastName(t) == t;
      OneComponent(t);
    } else {
      var d := DropName(t);
      assert t == d + LastName(t);
      DeepPath(d, LastName(t));
      DirComponents(path, d);
    }
  }

  lemma DirComponents(path: string, d: string)
    requires path != [] && d == DropName(Trim(path)) && d[|d| - 1] == SLASH
    ensures Components(Dir(path)) == Components(Trim(d[..|d| - 1]))
  {
    RootIsEmpty();
    assert |d| == 1 ==> d[..0] == [];
  }

  /** The directory is written as in the path, without a slash at its end. */
  lemma DirShape(path: string)
    ensures Dir(path) == "." || Dir(path) == "/" ||
            (1 <= |Dir(path)| < |path| && Dir(path) == path[..|Dir(path)|] && Dir(path)[|Dir(path)| - 1] != SLASH)
  {
    if path != [] {
      var t := DropName(Trim(path));
      assert t == path[..|t|];
      if |t| > 1 {
        assert t[..|t| - 1] == path[..|t| - 1];
      }
    }
  }

  /** The directory is absolute exactly when the path is; a path of slashes is its own directory and base. */
  lemma Absolute(path: string)
    requires path != []
    ensures Dir(path) != [] && (Dir(path)[0] == SLASH <==> path[0] == SLASH)
    ensures AllSlashes(path) ==> Dir(path) == "/" && Base(path) == "/"
  {
  }

  // ----- The code

  /** A null path counts as empty. */
  function Given(path: Option<string>): string {
    if path.Some? then path.value else []
  }

  /** `(int) bufflen - 1`: the characters that fit, negative for an empty buffer and for lengths over 2^31. */
  function Room(bufflen: u32): int {
    Int32(bufflen - 1)
  }

  /** The result is the whole length, or -1 (ERANGE) if there is no room for it; then as much as there is room for
      is copied. */
  ghost predicate Copied(text: string, bufflen: u32, result: int, before: seq<char>, after: seq<char>) {
    && result == (if |text| <= Room(bufflen) then |text| else -1)
    && (0 <= Room(bufflen) ==> Text(after) == if |text| <= Room(bufflen) then text else text[..Room(bufflen)])
    && (Room(bufflen) < 0 ==> after == before)
  }

  method CopyOut(text: string, buffer: array<char>, bufflen: u32) returns (result: int)
    requires NUL !in text && bufflen <= buffer.Length
    modifies buffer
    ensures Copied(text, bufflen, result, old(buffer[..]), buffer[..])
  {
    var len: int := |text|;
    result := len;
    if len > Room(bufflen) {
      len := Room(bufflen);
      result := -1;
    }
    if len >= 0 {
      RoomFits(bufflen);
      forall k | 0 <= k < len {
        buffer[k] := text[k];
      }
      buffer[len] := NUL;
      assert buffer[..][..len] == text[..len];
      TextIs(buffer[..], len);
    }
  }

  lemma RoomFits(bufflen: u32)
    ensures Room(bufflen) < bufflen && (Room(bufflen) >= 0 <==> 0 < bufflen <= 0x8000_0000)
  {
  }

  /** Step back over slashes. */
  method StripSlashes(path: string, from: nat) returns (endp: nat)
    requires from < |path|
    ensures endp <= from && path[..endp + 1] == Trim(path[..from + 1])
  {
    endp := from;
    while endp > 0 && path[endp] == SLASH
      invariant endp <= from && Trim(path[..endp + 1]) == Trim(path[..from + 1])
    {
      assert path[..endp + 1][..endp] == path[..endp];
      endp := endp - 1;
    }
  }

  /** Step back over a name. */
  method StripName(path: string, from: nat) returns (endp: nat)
    requires from < |path|
    ensures endp <= from && path[..endp + 1] == DropName(path[..from + 1])
  {
    endp := from;
    while endp > 0 && path[endp] != SLASH
      invariant endp <= from && DropName(path[..endp + 1]) == DropName(path[..from + 1])
    {
      assert path[..endp + 1][..endp] == path[..endp];
      endp := endp - 1;
    }
  }

  method FindDir(path: string) returns (dir: string)
    ensures dir == Dir(path)
  {
    if path == [] {
      return ".";
    }
    assert path[..|path| - 1 + 1] == path;
    var endp := StripSlashes(path, |path| - 1);
    endp := StripName(path, endp);
    ghost var t := path[..endp + 1];
    if endp == 0 {
      assert t[0] == path[0];
      return if path[0] == SLASH then "/" else ".";
    }
    assert t[..|t| - 1] == path[..endp - 1 + 1];
    endp := StripSlashes(path, endp - 1);
    dir := path[..endp + 1];
  }

  /** Step back to the start of the name that ends at `endp`. */
  method StartOfName(path: string, endp: nat) returns (startp: nat)
    requires endp < |path|
    ensures startp == NameStart(path, endp)
  {
    startp := endp;
    while startp > 0 && path[startp - 1] != SLASH
      invariant startp <= endp && NameStart(path, startp) == NameStart(path, endp)
    {
      startp := startp - 1;
    }
  }

  method FindBase(path: string) returns (base: string)
    ensures base == Base(path)
  {
    if path == [] {
      return ".";
    }
    assert path[..|path| - 1 + 1] == path;
    var endp := StripSlashes(path, |path| - 1);
    if endp == 0 && path[endp] == SLASH {
      assert path[..1][0] == SLASH;
      return "/";
    }
    assert path[..endp + 1][0] == path[0];
    var startp := StartOfName(path, endp);
    NameStartPrefix(path, endp + 1, endp);
    base := path[startp..endp + 1];
    assert path[..endp + 1][startp..] == base;
  }

  /** -1 (ENAMETOOLONG) and an untouched buffer from MAXPATHLEN on; a null buffer asks for the length only. */
  method DirnameR(path: Option<string>, buffer: array?<char>, bufflen: u32) returns (result: int)
    requires NUL !in Given(path) && (buffer != null ==> bufflen <= buffer.Length)
    modifies buffer
    ensures |Dir(Given(path))| >= MAXPATHLEN ==> result == -1 && (buffer != null ==> buffer[..] == old(buffer[..]))
    ensures |Dir(Given(path))| < MAXPATHLEN && buffer == null ==> result == |Dir(Given(path))|
    ensures |Dir(Given(path))| < MAXPATHLEN && buffer != null ==>
              Copied(Dir(Given(path)), bufflen, result, old(buffer[..]), buffer[..])
  {
    var dir := FindDir(Given(path));
    DirText(Given(path));
    if |dir| + 1 > MAXPATHLEN {
      return -1;
    }
    if buffer == null {
      return |dir|;
    }
    result := CopyOut(dir, buffer, bufflen);
  }

  method BasenameR(path: Option<string>, buffer: array?<char>, bufflen: u32) returns (result: int)
    requires NUL !in Given(path) && (buffer != null ==> bufflen <= buffer.Length)
    modifies buffer
    ensures buffer == null ==> result == |Base(Given(path))|
    ensures buffer != null ==> Copied(Base(Given(path)), bufflen, result, old(buffer[..]), buffer[..])
  {
    var base := FindBase(Given(path));
    DirText(Given(path));
    if buffer == null {
      return |base|;
    }
    result := CopyOut(base, buffer, bufflen);
  }

  lemma DirText(path: string)
    requires NUL !in path
    ensures NUL !in Dir(path) && NUL !in Base(path)
  {
  }
}
