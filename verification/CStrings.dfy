/** C strings in their buffers. */
module CStrings {

  const NUL: char := '\0'

  datatype Option<T> = None | Some(value: T)

  /** The bytes before the first NUL. */
  function Text(s: seq<char>): string {
    if s == [] || s[0] == NUL then [] else [s[0]] + Text(s[1..])
  }

  lemma {:induction false} TextIs(s: seq<char>, k: nat)
    requires k <= |s| && (k < |s| ==> s[k] == NUL) && forall i :: 0 <= i < k ==> s[i] != NUL
    ensures Text(s) == s[..k]
  {
    if k > 0 {
      TextIs(s[1..], k - 1);
      assert s[..k] == [s[0]] + s[1..][..k - 1];
    }
  }

  lemma {:induction false} TextPrefix(s: seq<char>)
    ensures |Text(s)| <= |s| && Text(s) == s[..|Text(s)|]
    ensures |Text(s)| < |s| ==> s[|Text(s)|] == NUL
    ensures forall i :: 0 <= i < |Text(s)| ==> s[i] != NUL
  {
    if s != [] && s[0] != NUL {
      TextPrefix(s[1..]);
    }
  }

  /** Strings put end to end. */
  function Flat(pieces: seq<string>): string {
    if pieces == [] then [] else Flat(pieces[..|pieces| - 1]) + pieces[|pieces| - 1]
  }

  lemma {:induction false} FlatSplit(a: seq<string>, b: seq<string>, p: string)
    ensures Flat(a + b) == Flat(a) + Flat(b) && Flat([p]) == p
  {
    assert [p][..0] == [];
    if b == [] {
      assert a + b == a;
    } else {
      FlatSplit(a, b[..|b| - 1], p);
      assert (a + b)[..|a + b| - 1] == a + b[..|b| - 1];
    }
  }

  lemma Associate<T>(a: seq<T>, b: seq<T>, c: seq<T>)
    ensures a + b + c == a + (b + c)
  {
  }
}
