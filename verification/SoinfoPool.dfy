/**
 The soinfo pool of `bionic/linker/linker.c`: the live list headed by the
 static `libdl_info`, and the free list.

 A soinfo is named by its slot.  Slots `0..SO_MAX` are `sopool`; slot `LIBDL`
 is the static entry.  `NULL` is the null pointer.
 */
module SoinfoPool {
  import opened Basics

  const SO_MAX: nat := 256
  const NAME_LEN: nat := 128
  const LIBDL: nat := 256
  const NULL: int := -1

  /** The payload of a DT_NEEDED entry: a name until link_image patches in the soinfo,
      and zero once unload_library has dropped it. */
  datatype Needed = Name(name: string) | Lib(id: nat) | Dropped

  datatype Soinfo = Soinfo(name: string, next: int, base: nat, size: nat, baIndex: int, needed: seq<Needed>,
                           linked: bool, error: bool, exe: bool, refcount: nat)

  /** What alloc_info leaves: zeroed, named, prelinked by default. */
  function Fresh(name: string): Soinfo {
    Soinfo(name, NULL, 0, 0, -1, [], false, false, false, 0)
  }

  /** `a` and `b` differ at most in their list pointer. */
  ghost predicate SameButNext(a: Soinfo, b: Soinfo) {
    a == b.(next := a.next)
  }

  // ----- Linked lists over the slots

  ghost predicate Distinct(s: seq<nat>) {
    forall i, j :: 0 <= i < j < |s| ==> s[i] != s[j]
  }

  /** The pointer to element `k`, null past the end. */
  ghost function At(s: seq<nat>, k: nat): int {
    if k < |s| then s[k] else NULL
  }

  /** The entry at position `k` points to the one at position `k + 1`. */
  ghost predicate Follows(infos: seq<Soinfo>, s: seq<nat>, k: nat)
    requires k < |s| && s[k] < |infos|
  {
    infos[s[k]].next == At(s, k + 1)
  }

  /** The `next` pointers lead through `s` to the null pointer. */
  ghost predicate Chain(infos: seq<Soinfo>, s: seq<nat>) {
    && (forall k :: 0 <= k < |s| ==> s[k] < |infos|)
    && (forall k :: 0 <= k < |s| ==> Follows(infos, s, k))
  }

  lemma ChainFrame(infos: seq<Soinfo>, s: seq<nat>, x: nat, v: Soinfo)
    requires Chain(infos, s) && x < |infos| && x !in s
    ensures Chain(infos[x := v], s)
  {
    var after := infos[x := v];
    forall k | 0 <= k < |s| ensures Follows(after, s, k) {
      assert Follows(infos, s, k) && s[k] in s;
    }
  }

  lemma ChainSame(infos: seq<Soinfo>, s: seq<nat>, x: nat, v: Soinfo)
    requires Chain(infos, s) && x < |infos| && v.next == infos[x].next
    ensures Chain(infos[x := v], s)
  {
    var after := infos[x := v];
    forall k | 0 <= k < |s| ensures Follows(after, s, k) {
      assert Follows(infos, s, k);
    }
  }

  lemma ChainTail(infos: seq<Soinfo>, s: seq<nat>)
    requires Chain(infos, s) && s != []
    ensures Chain(infos, s[1..]) && infos[s[0]].next == At(s[1..], 0)
  {
    assert Follows(infos, s, 0);
    forall k | 0 <= k < |s| - 1 ensures Follows(infos, s[1..], k) {
      assert Follows(infos, s, k + 1);
    }
  }

  lemma ChainCons(infos: seq<Soinfo>, x: nat, s: seq<nat>)
    requires Chain(infos, s) && x < |infos| && infos[x].next == At(s, 0)
    ensures Chain(infos, [x] + s)
  {
    var t := [x] + s;
    forall k | 0 <= k < |t| ensures t[k] < |infos| && Follows(infos, t, k) {
      if k > 0 {
        assert Follows(infos, s, k - 1);
      }
    }
  }

  /** Pointing the last element of `s` at the head of `t` joins the two lists. */
  lemma ChainJoin(infos: seq<Soinfo>, s: seq<nat>, t: seq<nat>, last: nat)
    requires Chain(infos, s) && Chain(infos, t) && Distinct(s)
    requires s != [] && last == s[|s| - 1] && last !in t
    ensures Chain(infos[last := infos[last].(next := At(t, 0))], s + t)
  {
    var after, u := infos[last := infos[last].(next := At(t, 0))], s + t;
    forall k | 0 <= k < |u| ensures u[k] < |infos| && Follows(after, u, k) {
      if k < |s| {
        assert Follows(infos, s, k);
      } else {
        assert Follows(infos, t, k - |s|) && t[k - |s|] in t;
      }
    }
  }

  /** Cutting a list after position `k` leaves two lists. */
  lemma ChainCut(infos: seq<Soinfo>, s: seq<nat>, k: nat)
    requires Chain(infos, s) && Distinct(s) && 0 < k <= |s|
    ensures Chain(infos[s[k - 1] := infos[s[k - 1]].(next := NULL)], s[..k])
    ensures Chain(infos, s[k..])
  {
    var after := infos[s[k - 1] := infos[s[k - 1]].(next := NULL)];
    forall j | 0 <= j < k ensures Follows(after, s[..k], j) {
      assert Follows(infos, s, j);
    }
    forall j | 0 <= j < |s| - k ensures Follows(infos, s[k..], j) {
      assert Follows(infos, s, k + j);
    }
  }

  ghost function Without(s: seq<nat>, k: nat): seq<nat>
    requires k < |s|
  {
    s[..k] + s[k + 1..]
  }

  lemma WithoutMember(s: seq<nat>, k: nat)
    requires k < |s| && Distinct(s)
    ensures Distinct(Without(s, k))
    ensures forall x :: x in Without(s, k) <==> x in s && x != s[k]
  {
  }

  ghost function Elems(s: seq<nat>): set<nat> {
    set x | x in s
  }

  ghost predicate Slot(x: nat) { true }

  ghost function UpTo(n: nat): set<nat> {
    set x: nat {:trigger Slot(x)} | Slot(x) && x < n
  }

  lemma {:induction false} DistinctCard(s: seq<nat>)
    requires Distinct(s)
    ensures |Elems(s)| == |s|
  {
    if s != [] {
      var t := s[..|s| - 1];
      DistinctCard(t);
      assert Elems(s) == Elems(t) + {s[|s| - 1]};
    }
  }

  lemma {:induction false} UpToCard(n: nat)
    ensures |UpTo(n)| == n
  {
    if n != 0 {
      UpToCard(n - 1);
      assert UpTo(n) == UpTo(n - 1) + {n - 1};
    }
  }

  /** The live list and the free list are acyclic and partition the slots in use. */
  ghost predicate Partition(infos: seq<Soinfo>, live: seq<nat>, free: seq<nat>, socount: nat) {
    && |infos| == SO_MAX + 1 && socount <= SO_MAX
    && live != [] && live[0] == LIBDL
    && Distinct(live) && Distinct(free) && Chain(infos, live) && Chain(infos, free)
    && (forall x :: x in live ==> x !in free)
    && (forall x: nat :: x in live || x in free <==> x < socount || x == LIBDL)
  }

  /** The pool is exhausted exactly when every slot is live. */
  lemma Exhausted(infos: seq<Soinfo>, live: seq<nat>, free: seq<nat>, socount: nat)
    requires Partition(infos, live, free, socount)
    ensures |live| <= SO_MAX + 1
    ensures free == [] && socount == SO_MAX <==> |live| == SO_MAX + 1
  {
    var all := UpTo(SO_MAX + 1);
    DistinctCard(live);
    UpToCard(SO_MAX + 1);
    SubsetCard(Elems(live), all);
    NoMember(free);
    assert forall x: nat :: x in all <==> Slot(x) && x < SO_MAX + 1;
    if free == [] && socount == SO_MAX {
      assert Elems(live) == all;
    }
    if Elems(live) == all {
      assert Slot(255) && 255 in live;
      assert forall x: nat :: Slot(x) && x < SO_MAX + 1 ==> x in live;
      forall x: nat ensures x !in free {
        assert Slot(x);
      }
    }
  }

  lemma NoMember(s: seq<nat>)
    ensures s == [] <==> forall x: nat :: x !in s
  {
    assert s != [] ==> s[0] in s;
  }

  // ----- The list surgery of alloc_info and free_info

  lemma TakeFree(infos: seq<Soinfo>, live: seq<nat>, free: seq<nat>, socount: nat, blank: Soinfo)
    requires Partition(infos, live, free, socount) && free != [] && blank.next == NULL
    ensures var si, tail := free[0], live[|live| - 1];
            && si != tail && si != LIBDL && si !in live && si < |infos| && infos[si].next == At(free[1..], 0)
            && Partition(infos[tail := infos[tail].(next := si)][si := blank], live + [si], free[1..], socount)
  {
    var si, tail := free[0], live[|live| - 1];
    assert tail in live && si in free && tail !in free && si !in live;
    ChainTail(infos, free);
    assert si !in free[1..];
    var one := infos[si := blank];
    ChainFrame(infos, free[1..], si, blank);
    ChainFrame(infos, live, si, blank);
    ChainFrame(one, free[1..], tail, one[tail].(next := si));
    assert Chain(one, [si]) by {
      assert Follows(one, [si], 0);
    }
    ChainJoin(one, live, [si], tail);
    assert one[tail := one[tail].(next := si)] == infos[tail := infos[tail].(next := si)][si := blank];
    assert forall x :: x in free <==> x == si || x in free[1..];
  }

  lemma GrowFree(infos: seq<Soinfo>, live: seq<nat>, socount: nat)
    requires Partition(infos, live, [], socount) && socount < SO_MAX
    ensures Partition(infos[socount := infos[socount].(next := NULL)], live, [socount], socount + 1)
  {
    var after := infos[socount := infos[socount].(next := NULL)];
    ChainFrame(infos, live, socount, infos[socount].(next := NULL));
    assert Follows(after, [socount], 0);
  }

  lemma GiveBack(infos: seq<Soinfo>, live: seq<nat>, free: seq<nat>, socount: nat, k: nat)
    requires Partition(infos, live, free, socount) && 0 < k < |live|
    ensures var si, prev := live[k], live[k - 1];
            && si != prev
            && Partition(infos[prev := infos[prev].(next := infos[si].next)][si := infos[si].(next := At(free, 0))],
                         Without(live, k), [si] + free, socount)
  {
    var si, prev := live[k], live[k - 1];
    var w := Without(live, k);
    WithoutMember(live, k);
    assert si in live && prev in live && si !in free && prev !in free;
    var back := infos[si].(next := At(free, 0));
    var one := infos[prev := infos[prev].(next := infos[si].next)];
    CutOut(infos, live, k);
    ChainFrame(one, w, si, back);
    ChainFrame(infos, free, prev, infos[prev].(next := infos[si].next));
    ChainFrame(one, free, si, back);
    ChainCons(one[si := back], si, free);
    assert forall x :: x in [si] + free <==> x == si || x in free;
  }

  /** Bypassing the entry at position `k`. */
  lemma CutOut(infos: seq<Soinfo>, s: seq<nat>, k: nat)
    requires Chain(infos, s) && Distinct(s) && 0 < k < |s|
    ensures Chain(infos[s[k - 1] := infos[s[k - 1]].(next := infos[s[k]].next)], Without(s, k))
  {
    var prev, t := s[k - 1], s[k + 1..];
    var one := infos[prev := infos[prev].(next := NULL)];
    ChainCut(infos, s, k);
    ChainCut(infos, s, k + 1);
    assert Follows(infos, s, k);
    ChainFrame(infos, t, prev, infos[prev].(next := NULL));
    ChainJoin(one, s[..k], t, prev);
    assert one[prev := one[prev].(next := At(t, 0))] == infos[prev := infos[prev].(next := infos[s[k]].next)];
  }

  class Pool {
    const infos: array<Soinfo>
    var socount: nat
    var freelist: int
    var sonext: int
    ghost var live: seq<nat>
    ghost var free: seq<nat>

    ghost predicate Valid()
      reads this, infos
    {
      && infos.Length == SO_MAX + 1
      && Partition(infos[..], live, free, socount)
      && freelist == At(free, 0) && sonext == live[|live| - 1]
    }

    /** The static state: only `libdl_info`, linked, on the live list. */
    constructor ()
      ensures Valid() && fresh(infos) && live == [LIBDL]
      ensures forall i :: 0 <= i < SO_MAX ==> infos[i] == Fresh("")
      ensures infos[LIBDL] == Fresh("libdl.so").(linked := true, baIndex := 0)
    {
      infos := new Soinfo[SO_MAX + 1](_ => Fresh(""));
      socount, freelist, sonext := 0, NULL, LIBDL;
      live, free := [LIBDL], [];
      new;
      infos[LIBDL] := Fresh("libdl.so").(linked := true, baIndex := 0);
      assert Follows(infos[..], live, 0);
    }

    /** Overwrites a soinfo, leaving its list pointer alone. */
    method Put(i: nat, info: Soinfo)
      requires Valid() && i <= SO_MAX && info.next == infos[i].next
      modifies infos
      ensures Valid() && infos[..] == old(infos[..])[i := info]
    {
      ghost var before := infos[..];
      infos[i] := info;
      assert infos[..] == before[i := info];
      ChainSame(before, live, i, info);
      ChainSame(before, free, i, info);
    }

    /** `alloc_info` */
    method AllocInfo(name: string) returns (si: int)
      requires Valid()
      modifies this, infos
      ensures Valid()
      ensures si < 0 <==> |name| >= NAME_LEN || |old(live)| == SO_MAX + 1
      ensures si < 0 ==> si == NULL && live == old(live) && infos[..] == old(infos[..])
      ensures si >= 0 ==> si < SO_MAX && si !in old(live) && live == old(live) + [si] && infos[si] == Fresh(name)
      ensures si >= 0 ==> forall i: nat :: i <= SO_MAX && i != si ==> SameButNext(infos[i], old(infos[i]))
    {
      if |name| >= NAME_LEN {
        return NULL;
      }
      var ok := Refill();
      if !ok {
        return NULL;
      }
      si := Take(Fresh(name));
    }

    /** Extends an empty free list by the next unused slot of `sopool`. */
    method Refill() returns (ok: bool)
      requires Valid()
      modifies this, infos
      ensures Valid() && live == old(live)
      ensures !ok <==> |live| == SO_MAX + 1
      ensures ok ==> free != []
      ensures !ok ==> infos[..] == old(infos[..])
      ensures forall i: nat :: i <= SO_MAX ==> SameButNext(infos[i], old(infos[i]))
    {
      Exhausted(infos[..], live, free, socount);
      if freelist == NULL {
        if socount == SO_MAX {
          return false;
        }
        GrowFree(infos[..], live, socount);
        ghost var before := infos[..];
        infos[socount] := infos[socount].(next := NULL);
        assert infos[..] == before[socount := before[socount].(next := NULL)];
        freelist, free, socount := socount, [socount], socount + 1;
      }
      return true;
    }

    /** Moves the head of the free list to the tail of the live list. */
    method Take(blank: Soinfo) returns (si: nat)
      requires Valid() && free != [] && blank.next == NULL
      modifies this, infos
      ensures Valid() && si < SO_MAX && si !in old(live) && live == old(live) + [si] && infos[si] == blank
      ensures forall i: nat :: i <= SO_MAX && i != si ==> SameButNext(infos[i], old(infos[i]))
    {
      TakeFree(infos[..], live, free, socount, blank);
      ghost var before, tail := infos[..], sonext;
      si := freelist;
      freelist := infos[si].next;
      infos[sonext] := infos[sonext].(next := si);
      infos[si] := blank;
      assert infos[..] == before[tail := before[tail].(next := si)][si := blank];
      live, free := live + [si], free[1..];
      sonext := si;
    }

    /** `free_info`; a slot that is not on the live list is left alone. */
    method FreeInfo(si: nat)
      requires Valid() && si < SO_MAX
      modifies this, infos
      ensures Valid()
      ensures forall i :: 0 <= i <= SO_MAX ==> SameButNext(infos[i], old(infos[i]))
      ensures si !in old(live) ==> live == old(live) && infos[..] == old(infos[..])
      ensures si in old(live) ==> exists k :: 0 < k < |old(live)| && old(live)[k] == si && live == Without(old(live), k)
    {
      var prev, trav;
      ghost var k;
      prev, trav, k := Locate(si);
      if trav == NULL {
        return;
      }
      Unlink(prev, si, k);
    }

    /** Takes `si` out behind `prev` and pushes it on the free list. */
    method Unlink(prev: nat, si: nat, ghost k: nat)
      requires Valid() && si < SO_MAX && 0 < k < |live| && live[k] == si && live[k - 1] == prev
      modifies this, infos
      ensures Valid() && live == Without(old(live), k)
      ensures forall i :: 0 <= i <= SO_MAX ==> SameButNext(infos[i], old(infos[i]))
    {
      GiveBack(infos[..], live, free, socount, k);
      ghost var before := infos[..];
      infos[prev] := infos[prev].(next := infos[si].next);
      if si == sonext {
        sonext := prev;
      }
      infos[si] := infos[si].(next := freelist);
      assert infos[..] == before[prev := before[prev].(next := before[si].next)][si := before[si].(next := freelist)];
      live, free := Without(live, k), [si] + free;
      freelist := si;
    }

    /** The search loop of `free_info`: the slot and the one before it on the live list. */
    method Locate(si: nat) returns (prev: int, trav: int, ghost k: nat)
      requires Valid() && si < SO_MAX
      ensures trav == NULL || trav == si
      ensures trav == NULL ==> si !in live
      ensures trav == si ==> 0 < k < |live| && live[k] == si && prev == live[k - 1]
    {
      prev, trav, k := NULL, LIBDL as int, 0;
      while trav != NULL && trav != si
        invariant 0 <= k <= |live| && trav == At(live, k)
        invariant k > 0 ==> prev == live[k - 1]
        invariant si !in live[..k]
        decreases |live| - k
      {
        assert Follows(infos[..], live, k);
        prev, trav, k := trav, infos[trav].next, k + 1;
      }
      assert trav == NULL ==> live == live[..k];
    }

    /** The name search of `find_library`: the first live entry with this name. */
    method Find(bname: string) returns (si: int)
      requires Valid()
      ensures si < 0 ==> si == NULL && forall k :: 0 <= k < |live| ==> infos[live[k]].name != bname
      ensures si >= 0 ==> exists k :: 0 <= k < |live| && live[k] == si && infos[si].name == bname
                                      && forall j :: 0 <= j < k ==> infos[live[j]].name != bname
    {
      si := LIBDL;
      ghost var k := 0;
      while si != NULL
        invariant 0 <= k <= |live| && si == At(live, k)
        invariant forall j :: 0 <= j < k ==> infos[live[j]].name != bname
        decreases |live| - k
      {
        if infos[si].name == bname {
          return;
        }
        assert Follows(infos[..], live, k);
        si, k := infos[si].next, k + 1;
      }
    }
  }
}
