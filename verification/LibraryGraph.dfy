/**
 What the linker's bookkeeping means: the libraries on the live list, the
 references between them, and the address blocks they own.

 `Ok` is the invariant.  The stamps record the order in which links finished;
 a patched DT_NEEDED entry always leads to an earlier stamp, so the graph has
 no cycles.  `debt` holds the libraries whose count has not been lowered yet
 although a reference to them is gone, as happens inside unload_library.
 */
module LibraryGraph {
  import opened Basics
  import opened SoinfoPool
  import opened AlignedBlocks
  import BuddyBlocks
  import BuddyAllocator

  const LIBBASE: nat := 0x8000_0000
  const LIBLAST: nat := 0x9000_0000
  const LIBINC: nat := 0x0010_0000

  /**
   The live libraries (list pointers left out), the handles callers hold, the
   preloads, the link stamps, the allocated address blocks and their owners.
   */
  datatype State = State(libs: map<nat, Soinfo>, handles: multiset<nat>, preloads: seq<nat>,
                         stamp: map<nat, nat>, clock: nat, blocks: map<nat, nat>, owner: map<nat, nat>)

  // ----- Reference counts

  /** How many patched entries of `u` lead to `v`. */
  ghost function Occ(libs: map<nat, Soinfo>, u: nat, v: nat): nat {
    if u in libs then multiset(libs[u].needed)[Lib(v)] else 0
  }

  /** How many patched entries of the slots below `n` lead to `v`. */
  ghost function Entries(libs: map<nat, Soinfo>, v: nat, n: nat): nat {
    if n == 0 then 0 else Entries(libs, v, n - 1) + Occ(libs, n - 1, v)
  }

  /** The references to `v`: handles, preloads, the executable's own, patched entries. */
  ghost function Count(s: State, v: nat): nat
    requires v in s.libs
  {
    s.handles[v] + multiset(s.preloads)[v] + (if s.libs[v].exe then 1 else 0) + Entries(s.libs, v, SO_MAX + 1)
  }

  ghost predicate Counted(s: State, debt: set<nat>) {
    forall v :: v in s.libs ==> s.libs[v].refcount == Count(s, v) + (if v in debt then 1 else 0)
  }

  lemma {:induction false} EntriesUpdate(libs: map<nat, Soinfo>, libs': map<nat, Soinfo>, u: nat, v: nat, n: nat)
    requires forall w: nat :: w != u ==> Occ(libs', w, v) == Occ(libs, w, v)
    ensures Entries(libs', v, n) == Entries(libs, v, n) + (if u < n then Occ(libs', u, v) - Occ(libs, u, v) else 0)
  {
    if n != 0 {
      EntriesUpdate(libs, libs', u, v, n - 1);
    }
  }

  lemma {:induction false} EntriesZero(libs: map<nat, Soinfo>, v: nat, n: nat)
    requires forall u: nat :: Occ(libs, u, v) == 0
    ensures Entries(libs, v, n) == 0
  {
    if n != 0 {
      EntriesZero(libs, v, n - 1);
    }
  }

  lemma {:induction false} EntryExists(libs: map<nat, Soinfo>, v: nat, n: nat) returns (u: nat)
    requires Entries(libs, v, n) > 0
    ensures u < n && Occ(libs, u, v) > 0
  {
    if Occ(libs, n - 1, v) > 0 {
      u := n - 1;
    } else {
      u := EntryExists(libs, v, n - 1);
    }
  }

  lemma {:induction false} EntryCounts(libs: map<nat, Soinfo>, v: nat, n: nat, u: nat)
    requires u < n
    ensures Entries(libs, v, n) >= Occ(libs, u, v)
  {
    if u < n - 1 {
      EntryCounts(libs, v, n - 1, u);
    }
  }

  // ----- The invariant

  /** A reference may lead only to a linked library. */
  ghost predicate Linked(s: State, v: nat) {
    v in s.stamp
  }

  ghost predicate Graph(s: State) {
    && (forall u :: u in s.libs ==> u <= SO_MAX)
    && (forall u :: u in s.stamp <==> u in s.libs && s.libs[u].linked)
    && LIBDL in s.stamp && s.libs[LIBDL].needed == []
    && (forall u :: u in s.stamp ==> s.stamp[u] < s.clock)
    && (forall u :: u in s.libs ==> !(s.libs[u].linked && s.libs[u].error))
    && (forall v :: v in s.handles ==> Linked(s, v))
    && (forall v :: v in s.preloads ==> Linked(s, v))
    && (forall u, v :: u in s.libs && Lib(v) in s.libs[u].needed ==> EdgeOk(s, u, v))
  }

  ghost predicate EdgeOk(s: State, u: nat, v: nat) {
    Linked(s, v) && (u in s.stamp ==> s.stamp[v] < s.stamp[u])
  }

  /** Names are distinct, except that the executable may share that of libdl. */
  ghost predicate Names(s: State) {
    forall u, v :: u in s.libs && v in s.libs && u != v && s.libs[u].name == s.libs[v].name
                   ==> Static(s, u) && Static(s, v)
  }

  ghost predicate Static(s: State, u: nat)
    requires u in s.libs
  {
    u == LIBDL || s.libs[u].exe
  }

  /** A block index; that of the static libdl is meaningless. */
  ghost predicate HasBlock(s: State, u: nat)
    requires u in s.libs
  {
    u != LIBDL && s.libs[u].baIndex >= 0
  }

  /** Allocated blocks correspond one to one with the pool's libraries that have a block index,
      and each such library lies in its block. */
  ghost predicate Owned(s: State) {
    && s.owner.Keys == s.blocks.Keys
    && (forall b :: b in s.owner ==> s.owner[b] in s.libs && s.owner[b] != LIBDL && s.libs[s.owner[b]].baIndex == b)
    && (forall u :: u in s.libs && HasBlock(s, u) ==> OwnsBlock(s, u, s.libs[u].baIndex))
  }

  ghost predicate OwnsBlock(s: State, u: nat, b: nat)
    requires u in s.libs
  {
    && b in s.owner && s.owner[b] == u
    && b in s.blocks && s.libs[u].base == b * LIBINC + LIBBASE && s.libs[u].size <= Pow2(s.blocks[b]) * LIBINC
  }

  /** The invariant.  Its parts stay folded until `OkParts` is called, which keeps proofs that
      only pass the invariant along from looking at them. */
  ghost predicate Ok(s: State, debt: set<nat>) {
    forall i {:trigger Assumed(i, s, debt)} :: Assumed(i, s, debt) ==>
      exists j {:trigger Shown(j, s, debt)} :: Shown(j, s, debt) && Graph(s) && Counted(s, debt) && Names(s) && Owned(s)
  }

  ghost predicate Assumed(i: int, s: State, debt: set<nat>) { true }

  ghost predicate Shown(j: int, s: State, debt: set<nat>) { true }

  lemma OkParts(s: State, debt: set<nat>)
    ensures Ok(s, debt) <==> Graph(s) && Counted(s, debt) && Names(s) && Owned(s)
  {
    assert Assumed(0, s, debt) && Shown(0, s, debt);
  }

  /** Every linked library from the pool, except possibly those named, is referenced. */
  ghost predicate Held(s: State, except: set<int>) {
    forall u :: u in s.libs && s.libs[u].linked && u != LIBDL && u !in except ==> s.libs[u].refcount > 0
  }

  // ----- Paths, cycles and reachability

  ghost predicate Edge(libs: map<nat, Soinfo>, u: nat, v: nat) {
    u in libs && Lib(v) in libs[u].needed
  }

  ghost predicate Path(libs: map<nat, Soinfo>, p: seq<nat>) {
    p != [] && forall k :: 0 < k < |p| ==> Edge(libs, p[k - 1], p[k])
  }

  ghost predicate Reachable(libs: map<nat, Soinfo>, roots: set<nat>, v: nat) {
    exists p :: Path(libs, p) && p[0] in roots && p[|p| - 1] == v
  }

  /** Open handles, preloads, the executable, and libraries whose link failed. */
  ghost function Roots(s: State): set<nat> {
    set v | v in s.libs && (v in s.handles || v in s.preloads || s.libs[v].exe || s.libs[v].error)
  }

  /** No link is in progress: every library is linked or has failed. */
  ghost predicate Settled(s: State) {
    forall u :: u in s.libs ==> SettledAt(s.libs[u])
  }

  ghost predicate SettledAt(a: Soinfo) {
    a.linked || a.error
  }

  /** Stamps fall along every path, so no path returns to its start. */
  lemma {:induction false} Acyclic(s: State, p: seq<nat>)
    requires Graph(s) && Path(s.libs, p) && |p| > 1
    ensures p[|p| - 1] in s.stamp && (p[0] in s.stamp ==> s.stamp[p[|p| - 1]] < s.stamp[p[0]])
    ensures p[0] != p[|p| - 1]
  {
    var q := p[..|p| - 1];
    assert Edge(s.libs, p[|p| - 2], p[|p| - 1]);
    assert EdgeOk(s, p[|p| - 2], p[|p| - 1]);
    if |q| > 1 {
      Acyclic(s, q);
    }
  }

  /** At rest every library on the list, libdl aside, can be reached from a root. */
  lemma {:induction false} HeldFromRoot(s: State, v: nat)
    requires Ok(s, {}) && Held(s, {}) && Settled(s) && v in s.libs
    requires v == LIBDL ==> s.libs[v].refcount > 0
    ensures Reachable(s.libs, Roots(s), v)
    decreases if v in s.stamp then s.clock - s.stamp[v] else 0
  {
    OkParts(s, {});
    if v in Roots(s) {
      assert Path(s.libs, [v]);
    } else {
      var u := EntryExists(s.libs, v, SO_MAX + 1);
      assert Edge(s.libs, u, v) && EdgeOk(s, u, v);
      assert u != LIBDL;
      HeldFromRoot(s, u);
      var p :| Path(s.libs, p) && p[0] in Roots(s) && p[|p| - 1] == u;
      assert Path(s.libs, p + [v]);
      assert (p + [v])[0] in Roots(s);
    }
  }

  lemma {:induction false} PathStays(libs: map<nat, Soinfo>, inside: set<nat>, p: seq<nat>)
    requires Path(libs, p) && p[0] in inside
    requires forall u, v :: u in inside && Edge(libs, u, v) ==> v in inside
    ensures forall x :: x in p ==> x in inside
  {
    if |p| > 1 {
      var q := p[..|p| - 1];
      PathStays(libs, inside, q);
      assert Edge(libs, p[|p| - 2], p[|p| - 1]) && p[|p| - 2] == q[|q| - 1];
      assert forall x :: x in p <==> x in q || x == p[|p| - 1];
    }
  }

  /** A reachable library is on the list, and a referenced one has a positive count. */
  lemma ReachableIsLive(s: State, v: nat)
    requires Ok(s, {}) && Reachable(s.libs, Roots(s), v)
    ensures v in s.libs && (v in s.stamp ==> s.libs[v].refcount > 0)
  {
    OkParts(s, {});
    var p :| Path(s.libs, p) && p[0] in Roots(s) && p[|p| - 1] == v;
    forall u, w | u in s.libs.Keys && Edge(s.libs, u, w) ensures w in s.libs.Keys {
      assert EdgeOk(s, u, w);
    }
    PathStays(s.libs, s.libs.Keys, p);
    assert v in p;
    if |p| > 1 {
      assert Edge(s.libs, p[|p| - 2], v);
      EntryCounts(s.libs, v, SO_MAX + 1, p[|p| - 2]);
    }
  }

  /** At rest the list holds libdl and exactly the libraries reachable from the roots. */
  lemma LiveIsReachable(s: State, v: nat)
    requires Ok(s, {}) && Held(s, {}) && Settled(s)
    ensures v in s.libs <==> v == LIBDL || Reachable(s.libs, Roots(s), v)
    ensures LIBDL in s.libs && (s.libs[LIBDL].refcount > 0 <==> Reachable(s.libs, Roots(s), LIBDL))
  {
    OkParts(s, {});
    if v in s.libs && v != LIBDL {
      HeldFromRoot(s, v);
    }
    if s.libs[LIBDL].refcount > 0 {
      HeldFromRoot(s, LIBDL);
    }
    if Reachable(s.libs, Roots(s), v) {
      ReachableIsLive(s, v);
    }
    if Reachable(s.libs, Roots(s), LIBDL) {
      ReachableIsLive(s, LIBDL);
    }
  }

  /** Regions reserved through the buddy allocator lie in its range and do not overlap. */
  lemma RegionsDisjoint(s: State, u: nat, v: nat)
    requires Owned(s) && BuddyBlocks.LiveOk(256, s.blocks)
    requires u in s.libs && v in s.libs && u != v && HasBlock(s, u) && HasBlock(s, v)
    ensures LIBBASE <= s.libs[u].base && s.libs[u].base + s.libs[u].size <= LIBLAST
    ensures s.libs[u].base + s.libs[u].size <= s.libs[v].base || s.libs[v].base + s.libs[v].size <= s.libs[u].base
  {
    var a, b := s.libs[u].baIndex, s.libs[v].baIndex;
    assert OwnsBlock(s, u, a) && OwnsBlock(s, v, b);
    BuddyAllocator.AddressRanges(256, s.blocks, LIBBASE, LIBLAST - LIBBASE, LIBINC, a, b);
    BuddyAllocator.AddressRanges(256, s.blocks, LIBBASE, LIBLAST - LIBBASE, LIBINC, b, a);
  }

  // ----- Growth: what find_library may change

  ghost predicate Grows(s: State, t: State) {
    && s.libs.Keys <= t.libs.Keys
    && (forall u :: u in s.libs ==> GrowsAt(s.libs[u], t.libs[u]))
    && t.handles == s.handles && t.preloads == s.preloads && s.clock <= t.clock
    && (forall u :: u in s.stamp ==> u in t.stamp && t.stamp[u] == s.stamp[u])
  }

  ghost predicate GrowsAt(a: Soinfo, b: Soinfo) {
    b == a.(refcount := b.refcount) && a.refcount <= b.refcount && (!a.linked ==> a == b)
  }

  // ----- Loading: a new, unlinked library

  ghost predicate Addable(s: State, si: nat, info: Soinfo) {
    && si < SO_MAX && si !in s.libs
    && !info.linked && !info.error && info.refcount == (if info.exe then 1 else 0)
    && (forall v :: Lib(v) !in info.needed)
    && (forall u :: u in s.libs ==> s.libs[u].name == info.name ==> Static(s, u) && info.exe)
  }

  /** `t` is `s` with the unlinked library `si` added, in the block `info.baIndex` if it has one. */
  ghost predicate Added(s: State, t: State, si: nat, info: Soinfo) {
    && t.libs == s.libs[si := info]
    && t == s.(libs := t.libs, blocks := t.blocks, owner := t.owner)
    && (info.baIndex < 0 ==> t.blocks == s.blocks && t.owner == s.owner)
    && (info.baIndex >= 0 ==>
          && info.baIndex !in s.blocks && t.owner == s.owner[info.baIndex := si]
          && t.blocks.Keys == s.blocks.Keys + {info.baIndex}
          && (forall b :: b in s.blocks ==> t.blocks[b] == s.blocks[b])
          && info.base == info.baIndex * LIBINC + LIBBASE && info.size <= Pow2(t.blocks[info.baIndex]) * LIBINC)
  }

  lemma AddOwners(s: State, t: State, si: nat, info: Soinfo)
    requires Owned(s) && Addable(s, si, info) && Added(s, t, si, info)
    ensures t.owner.Keys == t.blocks.Keys
    ensures forall b :: b in t.owner ==> t.owner[b] in t.libs && t.owner[b] != LIBDL && t.libs[t.owner[b]].baIndex == b
  {
  }

  lemma AddOwned(s: State, t: State, si: nat, info: Soinfo)
    requires Owned(s) && Addable(s, si, info) && Added(s, t, si, info)
    ensures Owned(t)
  {
    AddOwners(s, t, si, info);
    forall u | u in t.libs && HasBlock(t, u) ensures OwnsBlock(t, u, t.libs[u].baIndex) {
      if u != si {
        assert OwnsBlock(s, u, s.libs[u].baIndex);
      }
    }
  }

  lemma AddGraph(s: State, t: State, si: nat, info: Soinfo)
    requires Graph(s) && Addable(s, si, info) && Added(s, t, si, info)
    ensures Graph(t)
  {
    assert forall v :: Linked(t, v) <==> Linked(s, v);
    forall u, v | u in t.libs && Lib(v) in t.libs[u].needed ensures EdgeOk(t, u, v) {
      assert u != si;
      assert EdgeOk(s, u, v);
    }
  }

  lemma AddCounted(s: State, t: State, si: nat, info: Soinfo)
    requires Graph(s) && Counted(s, {}) && Addable(s, si, info) && Added(s, t, si, info)
    ensures Counted(t, {})
  {
    NoEntries(s, si);
    forall v | v in t.libs ensures t.libs[v].refcount == Count(t, v) {
      assert Occ(t.libs, si, v) == 0;
      EntriesUpdate(s.libs, t.libs, si, v, SO_MAX + 1);
    }
  }

  lemma AddNames(s: State, t: State, si: nat, info: Soinfo)
    requires Names(s) && Addable(s, si, info) && Added(s, t, si, info)
    ensures Names(t)
  {
  }

  lemma AddOk(s: State, t: State, si: nat, info: Soinfo)
    requires Ok(s, {}) && Addable(s, si, info) && Added(s, t, si, info)
    ensures Ok(t, {})
  {
    OkParts(s, {});
    AddOwned(s, t, si, info);
    AddGraph(s, t, si, info);
    AddCounted(s, t, si, info);
    AddNames(s, t, si, info);
    OkParts(t, {});
  }

  lemma AddKeeps(s: State, t: State, si: nat, info: Soinfo)
    requires Ok(s, {}) && Held(s, {}) && Addable(s, si, info) && Added(s, t, si, info)
    ensures Ok(t, {}) && Held(t, {}) && Grows(s, t)
  {
    AddOk(s, t, si, info);
  }

  /** Nothing refers to a slot that holds no linked library. */
  lemma NoEntries(s: State, v: nat)
    requires Graph(s) && v !in s.stamp
    ensures Entries(s.libs, v, SO_MAX + 1) == 0 && s.handles[v] == 0 && multiset(s.preloads)[v] == 0
  {
    forall u: nat ensures Occ(s.libs, u, v) == 0 {
      assert u in s.libs && Lib(v) in s.libs[u].needed ==> EdgeOk(s, u, v);
    }
    EntriesZero(s.libs, v, SO_MAX + 1);
    assert v in s.handles ==> Linked(s, v);
    assert v in s.preloads ==> Linked(s, v);
  }

  // ----- Changing one library in place

  function WithLib(s: State, u: nat, info: Soinfo): State {
    s.(libs := s.libs[u := info])
  }

  lemma Overwritten(s: State, si: nat, a: Soinfo, b: Soinfo)
    ensures WithLib(WithLib(s, si, a), si, b) == WithLib(s, si, b)
  {
  }

  /** `s` with one more in the count of `r`. */
  ghost function Raised(s: State, r: nat): State
    requires r in s.libs
  {
    WithLib(s, r, s.libs[r].(refcount := s.libs[r].refcount + 1))
  }

  /** Fields that no part of the invariant but the counts and the graph depends on. */
  ghost predicate SameIdentity(a: Soinfo, b: Soinfo) {
    a.name == b.name && a.exe == b.exe && a.base == b.base && a.size == b.size && a.baIndex == b.baIndex
  }

  lemma IdentityKeeps(s: State, u: nat, info: Soinfo)
    requires u in s.libs && SameIdentity(s.libs[u], info) && Names(s) && Owned(s)
    ensures Names(WithLib(s, u, info)) && Owned(WithLib(s, u, info))
  {
    var t := WithLib(s, u, info);
    forall w | w in t.libs && HasBlock(t, w) ensures OwnsBlock(t, w, t.libs[w].baIndex) {
      assert OwnsBlock(s, w, s.libs[w].baIndex);
    }
  }

  /** The references do not depend on counts, flags or stamps. */
  lemma SameCounts(s: State, t: State)
    requires t.libs.Keys == s.libs.Keys && t.handles == s.handles && t.preloads == s.preloads
    requires forall u :: u in s.libs ==> t.libs[u].needed == s.libs[u].needed && t.libs[u].exe == s.libs[u].exe
    ensures forall v :: v in s.libs ==> Count(t, v) == Count(s, v)
  {
    forall v | v in s.libs ensures Count(t, v) == Count(s, v) {
      EntriesUpdate(s.libs, t.libs, 0, v, SO_MAX + 1);
    }
  }

  lemma RecountCounted(s: State, t: State, u: nat, debt: set<nat>, debt': set<nat>)
    requires Counted(s, debt) && u in s.libs && t.libs.Keys == s.libs.Keys && u in t.libs
    requires t == WithLib(s, u, s.libs[u].(refcount := t.libs[u].refcount))
    requires t.libs[u].refcount == Count(s, u) + (if u in debt' then 1 else 0)
    requires forall v :: v != u ==> (v in debt <==> v in debt')
    ensures Counted(t, debt')
  {
    SameCounts(s, t);
  }

  /** Only the count of `u` changes; `debt` says how the rest must agree. */
  lemma RecountKeeps(s: State, u: nat, rc: nat, debt: set<nat>, debt': set<nat>)
    requires Ok(s, debt) && u in s.libs
    requires rc == Count(s, u) + (if u in debt' then 1 else 0)
    requires forall v :: v != u ==> (v in debt <==> v in debt')
    ensures Ok(WithLib(s, u, s.libs[u].(refcount := rc)), debt')
  {
    var t := WithLib(s, u, s.libs[u].(refcount := rc));
    SameStructure(s, u, t.libs[u], debt);
    assert Counted(t, debt') by {
      OkParts(s, debt);
      RecountCounted(s, t, u, debt, debt');
    }
    OkParts(t, debt');
  }

  /** States with the same entries, links and stamps satisfy the same graph conditions. */
  lemma SameNeeded(s: State, t: State)
    requires Graph(s) && t.libs.Keys == s.libs.Keys && t.stamp == s.stamp && t.clock == s.clock
    requires t.handles <= s.handles && t.preloads == s.preloads
    requires forall u :: u in s.libs ==> t.libs[u].needed == s.libs[u].needed && t.libs[u].linked == s.libs[u].linked
    requires forall u :: u in s.libs ==> !(t.libs[u].linked && t.libs[u].error)
    ensures Graph(t)
  {
    assert forall v :: Linked(t, v) <==> Linked(s, v);
    forall u, v | u in t.libs && Lib(v) in t.libs[u].needed ensures EdgeOk(t, u, v) {
      assert EdgeOk(s, u, v);
    }
  }

  /** Everything but the counts is kept by a change of count or of FLAG_ERROR. */
  lemma SameStructure(s: State, u: nat, info: Soinfo, debt: set<nat>)
    requires Ok(s, debt) && u in s.libs && info == s.libs[u].(refcount := info.refcount, error := info.error)
    requires info.linked && info.error ==> s.libs[u].error
    ensures var t := WithLib(s, u, info); Graph(t) && Names(t) && Owned(t)
  {
    OkParts(s, debt);
    IdentityKeeps(s, u, info);
    SameNeeded(s, WithLib(s, u, info));
  }

  /** FLAG_ERROR on a library that is not linked. */
  lemma FailKeeps(s: State, si: nat)
    requires Ok(s, {}) && Held(s, {}) && si in s.libs && !s.libs[si].linked
    ensures var t := WithLib(s, si, s.libs[si].(error := true)); Ok(t, {}) && Held(t, {})
  {
    var t := WithLib(s, si, s.libs[si].(error := true));
    SameStructure(s, si, t.libs[si], {});
    assert Counted(t, {}) by {
      OkParts(s, {});
      FlagCounted(s, t, si);
    }
    OkParts(t, {});
  }

  lemma FlagCounted(s: State, t: State, si: nat)
    requires Counted(s, {}) && si in s.libs && si in t.libs && t.libs == s.libs[si := t.libs[si]]
    requires t.handles == s.handles && t.preloads == s.preloads
    requires t.libs[si] == s.libs[si].(error := t.libs[si].error, linked := t.libs[si].linked)
    ensures Counted(t, {})
  {
    SameCounts(s, t);
  }

  // ----- Changing one DT_NEEDED entry

  ghost function WithEntry(s: State, si: nat, k: nat, x: Needed): State
    requires si in s.libs && k < |s.libs[si].needed|
  {
    WithLib(s, si, s.libs[si].(needed := s.libs[si].needed[k := x]))
  }

  lemma EntryUpdate(needed: seq<Needed>, k: nat, x: Needed, v: nat)
    requires k < |needed|
    ensures multiset(needed[k := x])[Lib(v)] + (if needed[k] == Lib(v) then 1 else 0)
            == multiset(needed)[Lib(v)] + (if x == Lib(v) then 1 else 0)
    ensures forall y :: y in needed[k := x] ==> y == x || y in needed
  {
  }

  lemma EntryCount(s: State, si: nat, k: nat, x: Needed, v: nat)
    requires si in s.libs && si <= SO_MAX && k < |s.libs[si].needed| && v in s.libs
    ensures Count(WithEntry(s, si, k, x), v) + (if s.libs[si].needed[k] == Lib(v) then 1 else 0)
            == Count(s, v) + (if x == Lib(v) then 1 else 0)
  {
    EntryUpdate(s.libs[si].needed, k, x, v);
    EntriesUpdate(s.libs, WithEntry(s, si, k, x).libs, si, v, SO_MAX + 1);
  }

  lemma EntryGraph(s: State, si: nat, k: nat, x: Needed)
    requires Graph(s) && si in s.libs && k < |s.libs[si].needed|
    requires x.Lib? ==> EdgeOk(s, si, x.id)
    ensures Graph(WithEntry(s, si, k, x))
  {
    var t := WithEntry(s, si, k, x);
    assert forall v :: Linked(t, v) <==> Linked(s, v);
    forall u, v | u in t.libs && Lib(v) in t.libs[u].needed ensures EdgeOk(t, u, v) {
      EntryUpdate(s.libs[si].needed, k, x, v);
      assert EdgeOk(s, u, v);
    }
  }

  /** The debts after the entry at `k` of `si` becomes `x`. */
  ghost function Settle(s: State, si: nat, k: nat, x: Needed, debt: set<nat>): set<nat>
    requires si in s.libs && k < |s.libs[si].needed|
  {
    if x.Lib? then debt - {x.id}
    else if s.libs[si].needed[k].Lib? then debt + {s.libs[si].needed[k].id}
    else debt
  }

  /** Patching an entry settles a debt; dropping one creates it. */
  lemma EntryKeeps(s: State, si: nat, k: nat, x: Needed, debt: set<nat>)
    requires Ok(s, debt) && si in s.libs && k < |s.libs[si].needed|
    requires x.Lib? ==> EdgeOk(s, si, x.id) && x.id in debt && !s.libs[si].needed[k].Lib?
    requires s.libs[si].needed[k].Lib? ==> s.libs[si].needed[k].id !in debt
    ensures Ok(WithEntry(s, si, k, x), Settle(s, si, k, x, debt))
  {
    OkParts(s, debt);
    var t, debt' := WithEntry(s, si, k, x), Settle(s, si, k, x, debt);
    IdentityKeeps(s, si, t.libs[si]);
    EntryGraph(s, si, k, x);
    EntryCounted(s, si, k, x, debt);
    OkParts(t, debt');
  }

  lemma EntryCounted(s: State, si: nat, k: nat, x: Needed, debt: set<nat>)
    requires Counted(s, debt) && si in s.libs && si <= SO_MAX && k < |s.libs[si].needed|
    requires x.Lib? ==> x.id in debt && !s.libs[si].needed[k].Lib?
    requires s.libs[si].needed[k].Lib? ==> s.libs[si].needed[k].id !in debt
    ensures Counted(WithEntry(s, si, k, x), Settle(s, si, k, x, debt))
  {
    var t, debt' := WithEntry(s, si, k, x), Settle(s, si, k, x, debt);
    forall v | v in t.libs ensures t.libs[v].refcount == Count(t, v) + (if v in debt' then 1 else 0) {
      EntryCount(s, si, k, x, v);
    }
  }

  // ----- Linking

  /** Entry `k` of `si` is patched to `r`, whose count rises. */
  ghost function Patched(s: State, si: nat, k: nat, r: nat): State
    requires si in s.libs && r in s.libs && k < |s.libs[si].needed|
  {
    Raised(WithEntry(s, si, k, Lib(r)), r)
  }

  lemma PatchOrder(s: State, si: nat, k: nat, r: nat)
    requires si in s.libs && r in s.libs && si != r && k < |s.libs[si].needed|
    ensures var s1 := Raised(s, r);
            WithEntry(s1, si, k, Lib(r)) == Patched(s, si, k, r)
  {
    var s1 := Raised(s, r);
    assert WithEntry(s1, si, k, Lib(r)).libs == Patched(s, si, k, r).libs;
  }

  lemma PatchOk(s: State, si: nat, k: nat, r: nat)
    requires Ok(s, {}) && si in s.libs && !s.libs[si].linked && k < |s.libs[si].needed|
    requires Linked(s, r) && r in s.libs && si != r && !s.libs[si].needed[k].Lib?
    ensures Ok(Patched(s, si, k, r), {})
  {
    OkParts(s, {});
    var s1 := Raised(s, r);
    RaiseKeeps(s, r);
    assert EdgeOk(s1, si, r);
    EntryKeeps(s1, si, k, Lib(r), {r});
    assert Settle(s1, si, k, Lib(r), {r}) == {};
    PatchOrder(s, si, k, r);
  }

  lemma PatchKeeps(s: State, si: nat, k: nat, r: nat)
    requires Ok(s, {}) && Held(s, {r}) && si in s.libs && !s.libs[si].linked && k < |s.libs[si].needed|
    requires Linked(s, r) && !s.libs[si].needed[k].Lib?
    ensures r in s.libs && r != si && Ok(Patched(s, si, k, r), {}) && Held(Patched(s, si, k, r), {})
  {
    OkParts(s, {});
    PatchOk(s, si, k, r);
  }

  /** `r` gains a handle or a place among the preloads, and its count rises. */
  ghost function Opened(s: State, r: nat, preload: bool): State
    requires r in s.libs
  {
    if preload then Raised(s, r).(preloads := s.preloads + [r]) else Raised(s, r).(handles := s.handles + multiset{r})
  }

  /** The count may rise before or after the root is recorded. */
  lemma RaiseRooted(s: State, t: State, r: nat)
    requires r in s.libs && t == s.(handles := t.handles, preloads := t.preloads)
    ensures Raised(t, r) == Raised(s, r).(handles := t.handles, preloads := t.preloads)
  {
  }

  lemma RootsFree(s: State, t: State)
    requires Names(s) && Owned(s) && t == s.(handles := t.handles, preloads := t.preloads)
    ensures Names(t) && Owned(t)
  {
    forall u | u in t.libs && HasBlock(t, u) ensures OwnsBlock(t, u, t.libs[u].baIndex) {
      assert OwnsBlock(s, u, s.libs[u].baIndex);
    }
  }

  lemma RootsGraph(s: State, t: State)
    requires Graph(s) && t == s.(handles := t.handles, preloads := t.preloads)
    requires forall v :: v in t.handles || v in t.preloads ==> Linked(s, v)
    ensures Graph(t)
  {
    assert forall v :: Linked(t, v) <==> Linked(s, v);
    forall u, v | u in t.libs && Lib(v) in t.libs[u].needed ensures EdgeOk(t, u, v) {
      assert EdgeOk(s, u, v);
    }
  }

  lemma OpenOk(s1: State, t: State, r: nat)
    requires Ok(s1, {r}) && Linked(s1, r) && t == s1.(handles := t.handles, preloads := t.preloads)
    requires (t.handles == s1.handles + multiset{r} && t.preloads == s1.preloads)
          || (t.handles == s1.handles && t.preloads == s1.preloads + [r])
    ensures Ok(t, {})
  {
    OkParts(s1, {r});
    OkParts(t, {});
    OpenCounted(s1, t, r);
    RootsFree(s1, t);
    RootsGraph(s1, t);
  }

  lemma OpenHeld(s: State, r: nat, preload: bool)
    requires Held(s, {r}) && r in s.libs
    ensures Held(Opened(s, r, preload), {})
  {
  }

  lemma RaiseKeeps(s: State, r: nat)
    requires Ok(s, {}) && r in s.libs && Linked(s, r)
    ensures var s1 := Raised(s, r); Ok(s1, {r}) && Linked(s1, r)
  {
    CountIs(s, r, {});
    var t := WithLib(s, r, s.libs[r].(refcount := s.libs[r].refcount + 1));
    assert Raised(s, r) == t;
    assert Ok(t, {r}) by {
      RecountKeeps(s, r, s.libs[r].refcount + 1, {}, {r});
    }
  }

  lemma CountIs(s: State, v: nat, debt: set<nat>)
    requires Ok(s, debt) && v in s.libs
    ensures s.libs[v].refcount == Count(s, v) + if v in debt then 1 else 0
  {
    OkParts(s, debt);
  }

  lemma OpenKeeps(s: State, r: nat, preload: bool)
    requires Ok(s, {}) && Held(s, {r}) && r in s.libs && Linked(s, r)
    ensures Ok(Opened(s, r, preload), {}) && Held(Opened(s, r, preload), {})
  {
    RaiseKeeps(s, r);
    OpenOk(Raised(s, r), Opened(s, r, preload), r);
    OpenHeld(s, r, preload);
  }

  lemma OpenCounted(s: State, t: State, r: nat)
    requires Counted(s, {r}) && t == s.(handles := t.handles, preloads := t.preloads)
    requires (t.handles == s.handles + multiset{r} && t.preloads == s.preloads)
          || (t.handles == s.handles && t.preloads == s.preloads + [r])
    ensures Counted(t, {})
  {
  }

  lemma CloseCounted(s: State, t: State, h: nat)
    requires Counted(s, {}) && h in s.handles && t == s.(handles := s.handles - multiset{h})
    ensures Counted(t, {h})
  {
  }

  /** A caller gives up a handle, and the count has still to follow. */
  lemma CloseKeeps(s: State, h: nat)
    requires Ok(s, {}) && h in s.handles
    ensures Ok(s.(handles := s.handles - multiset{h}), {h})
  {
    var t := s.(handles := s.handles - multiset{h});
    OkParts(s, {});
    OkParts(t, {h});
    CloseCounted(s, t, h);
    RootsFree(s, t);
    RootsGraph(s, t);
  }

  /** FLAG_LINKED: `si` gets the next stamp. */
  ghost function Finished(s: State, si: nat): State
    requires si in s.libs
  {
    WithLib(s, si, s.libs[si].(linked := true)).(stamp := s.stamp[si := s.clock], clock := s.clock + 1)
  }

  lemma FinishGraph(s: State, si: nat)
    requires Graph(s) && si in s.libs && !s.libs[si].linked && !s.libs[si].error
    ensures Graph(Finished(s, si))
  {
    var t := Finished(s, si);
    assert si !in s.stamp;
    assert forall v :: Linked(s, v) ==> Linked(t, v) && t.stamp[v] == s.stamp[v];
    forall u, v | u in t.libs && Lib(v) in t.libs[u].needed ensures EdgeOk(t, u, v) {
      assert EdgeOk(s, u, v);
    }
  }

  lemma FinishKeeps(s: State, si: nat)
    requires Ok(s, {}) && Held(s, {}) && si in s.libs && !s.libs[si].linked && !s.libs[si].error
    ensures Ok(Finished(s, si), {}) && Held(Finished(s, si), {si})
  {
    OkParts(s, {});
    OkParts(Finished(s, si), {});
    var info := s.libs[si].(linked := true);
    IdentityKeeps(s, si, info);
    FinishGraph(s, si);
    FlagCounted(s, Finished(s, si), si);
    StampFree(WithLib(s, si, info), Finished(s, si));
  }

  /** Names and ownership do not depend on the stamps. */
  lemma StampFree(s: State, t: State)
    requires Names(s) && Owned(s) && t == s.(stamp := t.stamp, clock := t.clock)
    ensures Names(t) && Owned(t)
  {
    forall u | u in t.libs && HasBlock(t, u) ensures OwnsBlock(t, u, t.libs[u].baIndex) {
      assert OwnsBlock(s, u, s.libs[u].baIndex);
    }
  }

  // ----- Unloading

  /** `t` is what unloading a library stamped `top` may leave of `s`. */
  ghost predicate Shrinks(s: State, t: State, top: nat) {
    && t.libs.Keys <= s.libs.Keys
    && (forall u :: u in t.libs ==> ShrinksAt(s.libs[u], t.libs[u]))
    && (forall u :: u in s.libs && (u in s.stamp ==> s.stamp[u] > top) ==> u in t.libs && t.libs[u] == s.libs[u])
    && (forall u :: u in s.libs && s.libs[u].exe ==> u in t.libs)
    && t.handles == s.handles && t.preloads == s.preloads && t.clock == s.clock
    && (forall u :: u in t.stamp ==> u in s.stamp && t.stamp[u] == s.stamp[u])
  }

  ghost predicate ShrinksAt(a: Soinfo, b: Soinfo) {
    b == a.(refcount := b.refcount) && b.refcount <= a.refcount
  }

  lemma ShrinksTrans(s: State, t: State, r: State, top: nat, top': nat)
    requires Shrinks(s, t, top) && Shrinks(t, r, top') && top' <= top
    ensures Shrinks(s, r, top)
  {
    forall u | u in r.libs ensures ShrinksAt(s.libs[u], r.libs[u]) {
      assert ShrinksAt(s.libs[u], t.libs[u]) && ShrinksAt(t.libs[u], r.libs[u]);
    }
  }

  ghost function Removed(s: State, si: nat): State
    requires si in s.libs
  {
    var b := s.libs[si].baIndex;
    s.(libs := s.libs - {si}, stamp := s.stamp - {si},
       blocks := if b >= 0 then s.blocks - {b} else s.blocks,
       owner := if b >= 0 then s.owner - {b} else s.owner)
  }

  /** No library refers to `si` any more and all its own entries are dropped. */
  ghost predicate Unreferenced(s: State, si: nat) {
    si in s.libs && Count(s, si) == 0 && forall v :: Lib(v) !in s.libs[si].needed
  }

  lemma RemoveGraph(s: State, si: nat)
    requires Graph(s) && Unreferenced(s, si) && si != LIBDL
    ensures Graph(Removed(s, si))
  {
    var t := Removed(s, si);
    assert forall v :: Linked(t, v) <==> Linked(s, v) && v != si;
    assert forall v :: v in s.preloads ==> v in multiset(s.preloads);
    forall u, v | u in t.libs && Lib(v) in t.libs[u].needed ensures EdgeOk(t, u, v) {
      assert EdgeOk(s, u, v);
      EntryCounts(s.libs, v, SO_MAX + 1, u);
    }
  }

  lemma RemoveCounted(s: State, si: nat, debt: set<nat>)
    requires Counted(s, debt + {si}) && Unreferenced(s, si)
    ensures Counted(Removed(s, si), debt)
  {
    var t := Removed(s, si);
    forall v | v in t.libs ensures t.libs[v].refcount == Count(t, v) + (if v in debt then 1 else 0) {
      assert Occ(s.libs, si, v) == 0;
      EntriesUpdate(s.libs, t.libs, si, v, SO_MAX + 1);
    }
  }

  lemma RemoveOwned(s: State, si: nat)
    requires Owned(s) && Names(s) && si in s.libs && si != LIBDL
    ensures Owned(Removed(s, si)) && Names(Removed(s, si))
  {
  }

  lemma RemoveOk(s: State, si: nat, debt: set<nat>)
    requires Ok(s, debt + {si}) && Unreferenced(s, si) && si != LIBDL
    ensures Ok(Removed(s, si), debt)
  {
    OkParts(s, debt + {si});
    RemoveGraph(s, si);
    RemoveCounted(s, si, debt);
    RemoveOwned(s, si);
    OkParts(Removed(s, si), debt);
  }

  lemma RemoveKeeps(s: State, si: nat, debt: set<nat>)
    requires Ok(s, debt + {si}) && Held(s, {}) && Unreferenced(s, si) && si in s.stamp && si != LIBDL
    ensures Ok(Removed(s, si), debt) && Held(Removed(s, si), {}) && Shrinks(s, Removed(s, si), s.stamp[si])
  {
    RemoveOk(s, si, debt);
  }

  /** The same edit to `si` on both sides keeps the relation. */
  lemma ShrinksEdit(s: State, t: State, si: nat, info: Soinfo)
    requires si in s.stamp && si in t.libs && Shrinks(s, t, s.stamp[si])
    requires info.exe == s.libs[si].exe
    ensures Shrinks(WithLib(s, si, info), WithLib(t, si, info), s.stamp[si])
  {
  }

  /** Once `si` is gone, how it was edited before does not matter. */
  lemma ShrinksRemoved(s: State, t: State, si: nat, info: Soinfo)
    requires si in s.stamp && si in s.libs && !s.libs[si].exe && Shrinks(WithLib(s, si, info), t, s.stamp[si]) && si !in t.libs
    ensures Shrinks(s, t, s.stamp[si])
  {
  }

  lemma SamePaths(s: State, t: State, p: seq<nat>)
    requires Graph(t) && t.libs.Keys <= s.libs.Keys
    requires forall u :: u in t.libs ==> t.libs[u].needed == s.libs[u].needed
    requires p != [] && p[0] in t.libs
    ensures Path(s.libs, p) <==> Path(t.libs, p)
  {
    if Path(s.libs, p) {
      forall u, v | u in t.libs.Keys && Edge(s.libs, u, v) ensures v in t.libs.Keys {
        assert EdgeOk(t, u, v);
      }
      PathStays(s.libs, t.libs.Keys, p);
      forall k | 0 < k < |p| ensures Edge(t.libs, p[k - 1], p[k]) {
        assert Edge(s.libs, p[k - 1], p[k]) && p[k - 1] in p;
      }
    }
    if Path(t.libs, p) {
      forall k | 0 < k < |p| ensures Edge(s.libs, p[k - 1], p[k]) {
        assert Edge(t.libs, p[k - 1], p[k]);
      }
    }
  }

  lemma SameRoots(s: State, t: State, top: nat)
    requires Graph(s) && Graph(t) && Shrinks(s, t, top)
    ensures Roots(s) == Roots(t)
  {
  }

  /** Unloading leaves libdl and exactly what the remaining roots reached before it. */
  lemma UnloadExact(s: State, t: State, top: nat, v: nat)
    requires Graph(s) && Settled(s) && Ok(t, {}) && Held(t, {}) && Shrinks(s, t, top)
    ensures v in t.libs <==> v == LIBDL || Reachable(s.libs, Roots(s), v)
    ensures LIBDL in t.libs && (t.libs[LIBDL].refcount > 0 <==> Reachable(s.libs, Roots(s), LIBDL))
  {
    OkParts(t, {});
    SameRoots(s, t, top);
    assert forall u :: u in t.libs ==> ShrinksAt(s.libs[u], t.libs[u]);
    forall p: seq<nat> | p != [] && p[0] in Roots(s) ensures Path(s.libs, p) <==> Path(t.libs, p) {
      SamePaths(s, t, p);
    }
    assert forall w :: Reachable(s.libs, Roots(s), w) <==> Reachable(t.libs, Roots(t), w);
    assert Settled(t);
    LiveIsReachable(t, v);
  }

  /** Before anything is loaded: libdl alone, with no references. */
  lemma InitialKeeps(s: State)
    requires s.libs.Keys == {LIBDL} && s.libs[LIBDL] == Fresh("libdl.so").(linked := true, baIndex := 0)
    requires s.handles == multiset{} && s.preloads == [] && s.stamp == map[LIBDL := 0] && s.clock == 1
    requires s.blocks == map[] && s.owner == map[]
    ensures Ok(s, {}) && Held(s, {})
  {
    OkParts(s, {});
    assert forall u: nat :: Occ(s.libs, u, LIBDL) == 0;
    EntriesZero(s.libs, LIBDL, SO_MAX + 1);
  }

  // ----- The steps of unload_library

  /** `si` is about to lose a reference; the libraries in `dying` are being unloaded around it. */
  ghost predicate UnloadPre(s: State, si: nat, dying: set<nat>) {
    && Ok(s, dying + {si}) && Held(s, {}) && si in s.stamp && si in s.libs && LIBDL in s.libs
    && forall d :: d in dying ==> d in s.stamp && s.stamp[d] > s.stamp[si]
  }

  /** `t` is what unloading `si` leaves; `fault` says that the count of libdl fell to zero. */
  ghost predicate Unloaded(s: State, t: State, si: nat, dying: set<nat>, fault: bool) {
    && Ok(t, dying) && Held(t, {}) && si in s.stamp && Shrinks(s, t, s.stamp[si])
    && LIBDL in s.libs && LIBDL in t.libs
    && (fault <==> s.libs[LIBDL].refcount > 0 && t.libs[LIBDL].refcount == 0)
  }

  ghost function Lowered(s: State, si: nat): State
    requires si in s.libs
  {
    WithLib(s, si, s.libs[si].(refcount := if s.libs[si].refcount > 0 then s.libs[si].refcount - 1 else 0))
  }

  lemma LowerOk(s: State, si: nat, dying: set<nat>)
    requires Ok(s, dying + {si}) && si in s.libs && si !in dying
    ensures s.libs[si].refcount > 0 && Ok(Lowered(s, si), dying)
  {
    CountIs(s, si, dying + {si});
    var t := WithLib(s, si, s.libs[si].(refcount := s.libs[si].refcount - 1));
    assert Lowered(s, si) == t;
    assert Ok(t, dying) by {
      RecountKeeps(s, si, s.libs[si].refcount - 1, dying + {si}, dying);
    }
  }

  lemma LowerShrinks(s: State, si: nat)
    requires si in s.stamp && si in s.libs
    ensures Shrinks(s, Lowered(s, si), s.stamp[si])
  {
  }

  lemma LowerStep(s: State, si: nat, dying: set<nat>)
    requires UnloadPre(s, si, dying) && (s.libs[si].refcount != 1 || si == LIBDL)
    ensures s.libs[si].refcount > 0 && Unloaded(s, Lowered(s, si), si, dying, s.libs[si].refcount == 1)
  {
    assert si !in dying;
    LowerOk(s, si, dying);
    LowerShrinks(s, si);
  }

  /** `s` is `s0` after the first `k` entries of the dying library `si` were dropped. */
  ghost predicate Dropping(s0: State, s: State, si: nat, dying: set<nat>, k: nat) {
    && Ok(s, dying + {si}) && Held(s, {}) && si in s0.stamp && si in s.stamp && s.stamp[si] == s0.stamp[si]
    && si in s0.libs && si in s.libs && si != LIBDL && s.libs[si].refcount == 1 && LIBDL in s0.libs && LIBDL in s.libs
    && s.libs[si] == s0.libs[si].(needed := s.libs[si].needed) && |s.libs[si].needed| == |s0.libs[si].needed|
    && Shrinks(WithLib(s0, si, s.libs[si]), s, s0.stamp[si])
    && (forall d :: d in dying ==> d in s.stamp && s.stamp[d] > s.stamp[si])
    && (forall j :: 0 <= j < k && j < |s.libs[si].needed| ==> !s.libs[si].needed[j].Lib?)
  }

  lemma DropStart(s: State, si: nat, dying: set<nat>)
    requires UnloadPre(s, si, dying) && s.libs[si].refcount == 1 && si != LIBDL
    ensures Dropping(s, s, si, dying, 0)
  {
    assert WithLib(s, si, s.libs[si]) == s;
    assert Shrinks(s, s, s.stamp[si]);
  }

  /** Dropping the entry that leads to `l` leaves `l` about to lose a reference. */
  lemma DropEntry(s: State, si: nat, dying: set<nat>, k: nat, l: nat)
    requires Ok(s, dying + {si}) && Held(s, {}) && si in s.stamp && si in s.libs
    requires forall d :: d in dying ==> d in s.stamp && s.stamp[d] > s.stamp[si]
    requires k < |s.libs[si].needed| && s.libs[si].needed[k] == Lib(l)
    ensures UnloadPre(WithEntry(s, si, k, Dropped), l, dying + {si}) && s.stamp[l] < s.stamp[si] && l != si
  {
    OkParts(s, dying + {si});
    assert Lib(l) in s.libs[si].needed && EdgeOk(s, si, l);
    EntryKeeps(s, si, k, Dropped, dying + {si});
  }

  lemma DropShrinks(s0: State, s: State, t: State, si: nat, info: Soinfo, low: nat)
    requires si in s0.stamp && si in s.stamp && s.stamp[si] == s0.stamp[si] && low < s.stamp[si] && si in s.libs && si in s0.libs
    requires Shrinks(WithLib(s0, si, s.libs[si]), s, s0.stamp[si]) && info.exe == s.libs[si].exe
    requires Shrinks(WithLib(s, si, info), t, low)
    ensures Shrinks(WithLib(s0, si, info), t, s0.stamp[si]) && si in t.libs && t.libs[si] == info
  {
    ShrinksEdit(WithLib(s0, si, s.libs[si]), s, si, info);
    Overwritten(s0, si, s.libs[si], info);
    DropKept(WithLib(s, si, info), t, si, low);
    ShrinksTrans(WithLib(s0, si, info), WithLib(s, si, info), t, s0.stamp[si], low);
  }

  lemma DropKept(s: State, t: State, si: nat, low: nat)
    requires Shrinks(s, t, low) && si in s.libs && (si in s.stamp ==> low < s.stamp[si])
    ensures si in t.libs && t.libs[si] == s.libs[si]
  {
  }

  lemma DropStep(s0: State, s: State, t: State, si: nat, dying: set<nat>, k: nat, l: nat, fault: bool)
    requires Dropping(s0, s, si, dying, k) && k < |s.libs[si].needed| && l in s.stamp && s.stamp[l] < s.stamp[si]
    requires UnloadPre(WithEntry(s, si, k, Dropped), l, dying + {si})
    requires Unloaded(WithEntry(s, si, k, Dropped), t, l, dying + {si}, fault)
    ensures Dropping(s0, t, si, dying, k + 1)
  {
    var s1 := WithEntry(s, si, k, Dropped);
    assert si in t.libs && t.libs[si] == s1.libs[si] && Shrinks(WithLib(s0, si, t.libs[si]), t, s0.stamp[si]) by {
      DropShrinks(s0, s, t, si, s1.libs[si], s.stamp[l]);
    }
    assert forall d :: d in dying + {si} ==> d in t.stamp && t.stamp[d] == s.stamp[d] by {
      DropStamps(s1, t, l, dying + {si});
    }
    DroppedMore(s.libs[si].needed, t.libs[si].needed, k);
  }

  lemma DroppedMore(needed: seq<Needed>, got: seq<Needed>, k: nat)
    requires k < |needed| && got == needed[k := Dropped] && forall j :: 0 <= j < k ==> !needed[j].Lib?
    ensures forall j :: 0 <= j < k + 1 ==> !got[j].Lib?
  {
  }

  lemma DropStamps(s: State, t: State, l: nat, above: set<nat>)
    requires l in s.stamp && Shrinks(s, t, s.stamp[l]) && Ok(t, above) && Ok(s, above + {l})
    requires forall d :: d in above ==> d in s.stamp && s.stamp[d] > s.stamp[l]
    ensures forall d :: d in above ==> d in t.stamp && t.stamp[d] == s.stamp[d]
  {
    OkParts(t, above);
    OkParts(s, above + {l});
  }

  /** The entry at `k` is not a reference. */
  lemma DropSkip(s0: State, s: State, si: nat, dying: set<nat>, k: nat)
    requires Dropping(s0, s, si, dying, k) && k < |s.libs[si].needed| && !s.libs[si].needed[k].Lib?
    ensures Dropping(s0, s, si, dying, k + 1)
  {
  }

  lemma DropEnd(s0: State, s: State, si: nat, dying: set<nat>, k: nat, fault: bool)
    requires Dropping(s0, s, si, dying, k) && k == |s.libs[si].needed|
    requires fault <==> s0.libs[LIBDL].refcount > 0 && s.libs[LIBDL].refcount == 0
    ensures Unloaded(s0, Removed(s, si), si, dying, fault)
  {
    DropUnreferenced(s, si, dying);
    RemoveKeeps(s, si, dying);
    ShrinksTrans(WithLib(s0, si, s.libs[si]), s, Removed(s, si), s0.stamp[si], s.stamp[si]);
    ShrinksRemoved(s0, Removed(s, si), si, s.libs[si]);
  }

  lemma DropUnreferenced(s: State, si: nat, dying: set<nat>)
    requires Ok(s, dying + {si}) && si in s.libs && s.libs[si].refcount == 1
    requires forall j :: 0 <= j < |s.libs[si].needed| ==> !s.libs[si].needed[j].Lib?
    ensures Unreferenced(s, si) && !s.libs[si].exe
  {
    OkParts(s, dying + {si});
  }

  /** The roots left once the handle `h` is given up. */
  ghost function RootsWithout(s: State, h: nat): set<nat> {
    Roots(s.(handles := s.handles - multiset{h}))
  }

  /** dlclose removes exactly the libraries, libdl aside, that the remaining roots do not reach,
      and faults exactly when libdl loses its last root. */
  lemma CloseExact(s: State, t: State, h: nat, fault: bool)
    requires Ok(s, {}) && Held(s, {}) && Settled(s) && h in s.handles
    requires Unloaded(s.(handles := s.handles - multiset{h}), t, h, {}, fault)
    ensures forall v: nat :: v in t.libs <==> v == LIBDL || Reachable(s.libs, RootsWithout(s, h), v)
    ensures fault <==> Reachable(s.libs, Roots(s), LIBDL) && !Reachable(s.libs, RootsWithout(s, h), LIBDL)
  {
    var s1 := s.(handles := s.handles - multiset{h});
    CloseKeeps(s, h);
    OkParts(s1, {h});
    forall v: nat ensures v in t.libs <==> v == LIBDL || Reachable(s.libs, RootsWithout(s, h), v) {
      UnloadExact(s1, t, s1.stamp[h], v);
    }
    UnloadExact(s1, t, s1.stamp[h], LIBDL);
    LiveIsReachable(s, LIBDL);
  }

  // ----- The fault at an actual input

  /** Before anything is loaded. */
  ghost function Initial(): State {
    State(map[LIBDL := Fresh("libdl.so").(linked := true, baIndex := 0)], multiset{}, [], map[LIBDL := 0], 1, map[], map[])
  }

  /** The executable in slot 0, linked without any entries. */
  ghost function WithMain(): State {
    Finished(WithLib(Initial(), 0, Fresh("main").(exe := true, refcount := 1)), 0)
  }

  lemma WithMainOk()
    ensures Ok(WithMain(), {}) && Held(WithMain(), {})
  {
    var s, info := Initial(), Fresh("main").(exe := true, refcount := 1);
    InitialKeeps(s);
    AddKeeps(s, WithLib(s, 0, info), 0, info);
    FinishKeeps(WithLib(s, 0, info), 0);
  }

  /** A library in slot 1 that needs libdl is linked and opened once. */
  ghost function OneUser(): State {
    var lib := Fresh("libuser.so").(needed := [Name("libdl.so")]);
    Opened(Finished(Patched(WithLib(WithMain(), 1, lib), 1, 0, LIBDL), 1), 1, false)
  }

  lemma OneUserOk()
    ensures Ok(OneUser(), {}) && Held(OneUser(), {})
  {
    WithMainOk();
    var s, lib := WithMain(), Fresh("libuser.so").(needed := [Name("libdl.so")]);
    var t := WithLib(s, 1, lib);
    AddKeeps(s, t, 1, lib);
    PatchKeeps(t, 1, 0, LIBDL);
    var u := Patched(t, 1, 0, LIBDL);
    FinishKeeps(u, 1);
    OpenKeeps(Finished(u, 1), 1, false);
  }

  lemma OneUserShape()
    ensures var s := OneUser();
            && s.libs.Keys == {LIBDL, 0, 1} && s.handles == multiset{1} && s.preloads == []
            && s.libs[0].needed == [] && s.libs[1].needed == [Lib(LIBDL)]
            && s.libs[0].exe && !s.libs[1].exe && !s.libs[LIBDL].exe
            && forall u :: u in s.libs ==> s.libs[u].linked && !s.libs[u].error
  {
  }

  lemma OnlyUser(libs: map<nat, Soinfo>, roots: set<nat>)
    requires 0 in libs && 1 in libs && libs[0].needed == [] && libs[1].needed == [Lib(LIBDL)] && roots <= {0, 1}
    ensures Reachable(libs, roots, LIBDL) <==> 1 in roots
  {
    if 1 in roots {
      var p := [1, LIBDL];
      assert Path(libs, p) && p[0] in roots;
    } else {
      forall p: seq<nat> | Path(libs, p) && p[0] in roots ensures p[|p| - 1] != LIBDL {
        PathStays(libs, {0}, p);
        assert p[|p| - 1] in p;
      }
    }
  }

  /** An executable that does not need libdl and one open library that does: closing it takes the last root of
      libdl, which is the condition under which dlclose faults. */
  lemma CloseFaults()
    ensures var s := OneUser();
            && Ok(s, {}) && Held(s, {}) && Settled(s) && s.libs[0].exe && 1 in s.handles
            && Reachable(s.libs, Roots(s), LIBDL) && !Reachable(s.libs, RootsWithout(s, 1), LIBDL)
  {
    var s := OneUser();
    OneUserOk();
    OneUserShape();
    assert Roots(s) == {0, 1} && RootsWithout(s, 1) == {0};
    OnlyUser(s.libs, Roots(s));
    OnlyUser(s.libs, RootsWithout(s, 1));
  }
}
