/**
 The steps of loading and linking in `bionic/linker/linker.c` as changes of the
 abstract state: what a search, a link and an unload leave behind, and that
 they fit together.
 */
module LinkSteps {
  import opened Basics
  import opened CStrings
  import opened SoinfoPool
  import opened LibraryGraph
  import opened AlignedBlocks

  /** What the linker learns from a library file: requested base (0 if not prelinked), extent, DT_NEEDED names. */
  datatype Image = Image(reqBase: u32, size: u32, needed: seq<string>)

  /** The part of a path after its last slash. */
  function Basename(name: string): string {
    if name == [] || name[|name| - 1] == '/' then []
    else Basename(name[..|name| - 1]) + [name[|name| - 1]]
  }

  lemma {:induction false} BasenameIs(dir: string, name: string)
    requires (dir == [] || dir[|dir| - 1] == '/') && '/' !in name
    ensures Basename(dir + name) == name
  {
    if name != [] {
      BasenameIs(dir, name[..|name| - 1]);
      assert (dir + name)[..|dir + name| - 1] == dir + name[..|name| - 1];
    } else {
      assert dir + name == dir;
    }
  }

  /** The live libraries with their list pointers left out. */
  ghost function View(infos: seq<Soinfo>, live: seq<nat>): map<nat, Soinfo> {
    map u | u in live && u < |infos| :: infos[u].(next := NULL)
  }

  lemma ViewPut(infos: seq<Soinfo>, live: seq<nat>, u: nat, info: Soinfo)
    requires u in live && u < |infos|
    ensures View(infos[u := info], live) == View(infos, live)[u := info.(next := NULL)]
  {
  }

  lemma ViewAppend(infos: seq<Soinfo>, infos': seq<Soinfo>, live: seq<nat>, si: nat)
    requires si !in live && si < |infos| == |infos'|
    requires forall i: nat :: i < |infos| && i != si ==> SameButNext(infos'[i], infos[i])
    ensures View(infos', live + [si]) == View(infos, live)[si := infos'[si].(next := NULL)]
  {
  }

  lemma ViewWithout(infos: seq<Soinfo>, infos': seq<Soinfo>, live: seq<nat>, k: nat)
    requires Distinct(live) && k < |live| && |infos| == |infos'|
    requires forall i: nat :: i < |infos| ==> SameButNext(infos'[i], infos[i])
    ensures View(infos', Without(live, k)) == View(infos, live) - {live[k]}
  {
  }

  /** Every library that was not there before is linked or has failed. */
  ghost predicate Arrived(s: State, t: State, except: set<nat>) {
    forall u :: u in t.libs && u !in s.libs && u !in except ==> SettledAt(t.libs[u])
  }

  /** The libraries loaded while `si` is being linked leave everything but `si` as `Grows` says. */
  ghost predicate GrowsBut(s: State, t: State, si: nat) {
    && s.libs.Keys <= t.libs.Keys && Arrived(s, t, {si})
    && (forall u :: u in s.libs && u != si ==> GrowsAt(s.libs[u], t.libs[u]))
    && s.clock <= t.clock
    && (forall u :: u in s.stamp ==> u in t.stamp && t.stamp[u] == s.stamp[u])
  }

  /** `t` is `s` plus the library `si`, unlinked and with its entries still names. */
  ghost predicate Mapped(s: State, t: State, si: nat, bname: string) {
    && si !in s.libs && si in t.libs && Added(s, t, si, t.libs[si])
    && var info := t.libs[si];
    && info.name == bname && !info.linked && !info.error && !info.exe && info.refcount == 0
    && forall k :: 0 <= k < |info.needed| ==> info.needed[k].Name?
  }

  /** `s` after `si` was given the block at `index`. */
  ghost function Granted(s: State, si: nat, index: nat, order: nat): State
    requires si in s.libs
  {
    WithLib(s, si, s.libs[si].(baIndex := index, base := index * LIBINC + LIBBASE))
      .(blocks := s.blocks[index := order], owner := s.owner[index := si])
  }

  /** `s` after the block at `index` was taken back. */
  ghost function TakenBack(s: State, index: nat): State {
    s.(blocks := s.blocks - {index}, owner := s.owner - {index})
  }

  /** `t` is `s` with a new library whose region is settled. */
  ghost predicate Placed(s: State, t: State, si: nat, bname: string) {
    && si !in s.libs && si in t.libs && Added(s, t, si, t.libs[si])
    && t.libs[si] == Fresh(bname).(base := t.libs[si].base, size := t.libs[si].size, baIndex := t.libs[si].baIndex)
  }

  lemma GrantedPlaced(s: State, si: nat, info: Soinfo, index: nat, order: nat)
    requires si !in s.libs && info == Fresh(info.name).(size := info.size) && index !in s.blocks
    requires info.size <= Pow2(order) * LIBINC
    ensures Placed(s, Granted(WithLib(s, si, info), si, index, order), si, info.name)
  {
  }

  lemma Forgotten(s: State, si: nat, a: Soinfo)
    requires si !in s.libs
    ensures WithLib(s, si, a).(libs := WithLib(s, si, a).libs - {si}) == s
  {
  }

  lemma PlacedMapped(s: State, t: State, si: nat, bname: string, names: seq<Needed>)
    requires Placed(s, t, si, bname) && forall k :: 0 <= k < |names| ==> names[k].Name?
    ensures Mapped(s, WithLib(t, si, t.libs[si].(needed := names)), si, bname)
  {
  }

  lemma TakenBackAll(s: State, si: nat, info: Soinfo, info': Soinfo, index: nat, order: nat)
    requires index !in s.blocks && index !in s.owner
    ensures WithLib(TakenBack(Granted(WithLib(s, si, info), si, index, order), index), si, info') == WithLib(s, si, info')
  {
    assert s.blocks[index := order] - {index} == s.blocks;
    assert s.owner[index := si] - {index} == s.owner;
    assert WithLib(TakenBack(Granted(WithLib(s, si, info), si, index, order), index), si, info').libs == s.libs[si := info'];
  }

  lemma Undone(s: State, t: State, si: nat, bname: string, info: Soinfo)
    requires Placed(s, t, si, bname) && s.owner.Keys == s.blocks.Keys
    ensures var u := if t.libs[si].baIndex >= 0 then TakenBack(t, t.libs[si].baIndex) else t;
            u.(libs := u.libs[si := info] - {si}) == s
  {
  }

  ghost predicate Known(s: State, bname: string) {
    exists u :: u in s.libs && s.libs[u].name == bname
  }

  ghost predicate Refused(s: State, bname: string) {
    exists u :: u in s.libs && s.libs[u].name == bname && (s.libs[u].error || !s.libs[u].linked)
  }

  lemma NotKnown(infos: seq<Soinfo>, live: seq<nat>, bname: string)
    requires forall k :: 0 <= k < |live| ==> live[k] < |infos| && infos[live[k]].name != bname
    ensures forall u :: u in View(infos, live) ==> View(infos, live)[u].name != bname
  {
  }

  /** `si` is on the list and waits to be linked. */
  ghost predicate Unlinked(s: State, si: nat) {
    && si in s.libs && !s.libs[si].linked && !s.libs[si].error
    && forall k :: 0 <= k < |s.libs[si].needed| ==> s.libs[si].needed[k].Name?
  }

  /** Each name has become the library of that name. */
  ghost predicate Resolved(libs: map<nat, Soinfo>, names: seq<Needed>, got: seq<Needed>) {
    |names| == |got| && forall k :: 0 <= k < |names| ==> ResolvedTo(libs, names[k], got[k])
  }

  ghost predicate ResolvedTo(libs: map<nat, Soinfo>, name: Needed, got: Needed) {
    name.Name? && got.Lib? && LinkedAs(libs, got.id, name.name)
  }

  /** `r` is a linked library whose name is the last part of `name`. */
  ghost predicate LinkedAs(libs: map<nat, Soinfo>, r: nat, name: string) {
    r in libs && libs[r].linked && libs[r].name == Basename(name)
  }

  /** The preloads are the linked libraries of these names, in order. */
  ghost predicate Preloaded(libs: map<nat, Soinfo>, preloads: seq<nat>, names: seq<string>) {
    |preloads| == |names| && forall i :: 0 <= i < |names| ==> LinkedAs(libs, preloads[i], names[i])
  }

  /** What find_library promises: a linked library of that name, or the null pointer. */
  ghost predicate Found(s: State, t: State, r: int, bname: string) {
    && Ok(t, {}) && Held(t, {r}) && Grows(s, t) && Arrived(s, t, {})
    && (r < 0 ==> r == NULL)
    && (r >= 0 ==> r in t.libs && t.libs[r].linked && t.libs[r].name == bname)
  }

  /** An entry that is still a name is the name it was. */
  ghost predicate SameNames(names: seq<Needed>, got: seq<Needed>) {
    |got| == |names| && forall k :: 0 <= k < |got| && got[k].Name? ==> got[k] == names[k]
  }

  /** While `si` is being linked its entries are patched and other libraries may arrive. */
  ghost predicate Linking(s: State, t: State, si: nat) {
    && Ok(t, {}) && Held(t, {}) && GrowsBut(s, t, si) && si in s.libs && si in t.libs
    && t.libs[si] == s.libs[si].(needed := t.libs[si].needed) && SameNames(s.libs[si].needed, t.libs[si].needed)
    && t.handles == s.handles && (!s.libs[si].exe ==> t.preloads == s.preloads)
  }

  /** What link_image promises: `si` is linked to libraries of the right names, or marked as failed. */
  ghost predicate LinkEnds(s: State, t: State, si: nat, ok: bool) {
    && Ok(t, {}) && Held(t, if ok then {si} else {}) && GrowsBut(s, t, si) && si in s.libs && si in t.libs
    && t.handles == s.handles && (!s.libs[si].exe ==> t.preloads == s.preloads)
    && t.libs[si] == s.libs[si].(needed := t.libs[si].needed, linked := ok, error := !ok)
    && SameNames(s.libs[si].needed, t.libs[si].needed)
    && (ok ==> Resolved(t.libs, s.libs[si].needed, t.libs[si].needed))
  }

  /** The first `k` entries are resolved, the others are still the names. */
  ghost predicate PatchedUpTo(libs: map<nat, Soinfo>, names: seq<Needed>, got: seq<Needed>, k: nat) {
    && |got| == |names|
    && (forall j :: 0 <= j < |names| ==> names[j].Name?)
    && (forall j :: 0 <= j < k && j < |names| ==> ResolvedTo(libs, names[j], got[j]))
    && (forall j :: k <= j < |names| ==> got[j] == names[j])
  }

  /** Linked libraries stay what they are while `si` is being linked. */
  lemma LinkedStays(s: State, t: State, si: nat)
    requires GrowsBut(s, t, si) && si in s.libs && !s.libs[si].linked
    ensures forall r, name :: LinkedAs(s.libs, r, name) ==> LinkedAs(t.libs, r, name)
  {
  }

  lemma PreloadedGrows(s: State, t: State, si: nat, preloads: seq<nat>, names: seq<string>)
    requires GrowsBut(s, t, si) && si in s.libs && !s.libs[si].linked && Preloaded(s.libs, preloads, names)
    ensures Preloaded(t.libs, preloads, names)
  {
    LinkedStays(s, t, si);
  }

  lemma PreloadedMore(s: State, t: State, si: nat, preloads: seq<nat>, r: nat, names: seq<string>, name: string)
    requires GrowsBut(s, t, si) && si in s.libs && !s.libs[si].linked
    requires Preloaded(s.libs, preloads, names) && LinkedAs(t.libs, r, name)
    ensures Preloaded(t.libs, preloads + [r], names + [name])
  {
    LinkedStays(s, t, si);
  }

  lemma PatchedGrows(s: State, t: State, si: nat, names: seq<Needed>, got: seq<Needed>, k: nat)
    requires GrowsBut(s, t, si) && si in s.libs && !s.libs[si].linked && PatchedUpTo(s.libs, names, got, k)
    ensures PatchedUpTo(t.libs, names, got, k)
  {
    LinkedStays(s, t, si);
  }

  lemma GrowsButTrans(s: State, t: State, u: State, si: nat)
    requires GrowsBut(s, t, si) && GrowsBut(t, u, si)
    ensures GrowsBut(s, u, si)
  {
    forall v | v in u.libs && v !in s.libs && v != si ensures SettledAt(u.libs[v]) {
      assert v in t.libs ==> SettledAt(t.libs[v]) && GrowsAt(t.libs[v], u.libs[v]);
    }
  }

  lemma LinkingTrans(s: State, t: State, u: State, si: nat)
    requires Linking(s, t, si) && Linking(t, u, si)
    ensures Linking(s, u, si)
  {
    GrowsButTrans(s, t, u, si);
  }

  /** A library waiting to be linked is untouched by the search for another one. */
  lemma FoundAround(s: State, t: State, r: int, bname: string, si: nat)
    requires Found(s, t, r, bname) && si in s.libs && !s.libs[si].linked
    ensures si in t.libs && t.libs[si] == s.libs[si] && r != si && GrowsBut(s, t, si)
    ensures r < 0 ==> Linking(s, t, si)
  {
  }

  lemma PatchLinking(s: State, t: State, si: nat, k: nat, r: nat, bname: string)
    requires Found(s, t, r, bname) && si in s.libs && !s.libs[si].linked
    requires k < |s.libs[si].needed| && s.libs[si].needed[k].Name?
    ensures si in t.libs && t.libs[si] == s.libs[si]
    ensures Linking(s, Patched(t, si, k, r), si)
  {
    FoundAround(s, t, r, bname, si);
    LinkedOk(t, r);
    PatchKeeps(t, si, k, r);
    PatchGrows(t, si, k, r);
    GrowsButTrans(s, t, Patched(t, si, k, r), si);
  }

  lemma LinkedOk(t: State, r: nat)
    requires Ok(t, {}) && r in t.libs && t.libs[r].linked
    ensures Linked(t, r)
  {
    OkParts(t, {});
  }

  lemma PatchStep(s: State, t: State, si: nat, k: nat, r: nat, names: seq<Needed>)
    requires si in s.libs && !s.libs[si].linked && PatchedUpTo(s.libs, names, s.libs[si].needed, k) && k < |names|
    requires Found(s, t, r, Basename(names[k].name))
    ensures si in t.libs && t.libs[si] == s.libs[si]
    ensures Linking(s, Patched(t, si, k, r), si)
    ensures PatchedUpTo(Patched(t, si, k, r).libs, names, Patched(t, si, k, r).libs[si].needed, k + 1)
  {
    PatchLinking(s, t, si, k, r, Basename(names[k].name));
    var u := Patched(t, si, k, r);
    assert r != si;
    PatchedGrows(s, u, si, names, s.libs[si].needed, k);
    assert ResolvedTo(u.libs, names[k], Lib(r));
  }

  lemma PatchGrows(t: State, si: nat, k: nat, r: nat)
    requires si in t.libs && r in t.libs && r != si && t.libs[r].linked && k < |t.libs[si].needed|
    ensures GrowsBut(t, Patched(t, si, k, r), si)
  {
  }

  lemma PreloadStep(s: State, t: State, si: nat, r: nat, bname: string)
    requires Found(s, t, r, bname) && si in s.libs && !s.libs[si].linked && s.libs[si].exe
    ensures r in t.libs && Linking(s, Opened(t, r, true), si) && Opened(t, r, true).libs[si] == s.libs[si]
    ensures Opened(t, r, true).libs[r].linked && Opened(t, r, true).libs[r].name == bname
  {
    FoundAround(s, t, r, bname, si);
    LinkedOk(t, r);
    OpenKeeps(t, r, true);
    assert GrowsBut(t, Opened(t, r, true), si);
    GrowsButTrans(s, t, Opened(t, r, true), si);
  }

  /** `s` is `s0` after the preloads `names` of the executable `si`; folded like `Ok`. */
  ghost predicate Preloading(s0: State, s: State, si: nat, names: seq<string>) {
    forall i {:trigger Parts(i)} :: Parts(i) ==> PreloadingParts(s0, s, si) && Preloaded(s.libs, s.preloads, names)
  }

  ghost predicate PreloadingParts(s0: State, s: State, si: nat) {
    Linking(s0, s, si) && s.libs[si] == s0.libs[si] && !s.libs[si].linked && s.libs[si].exe
  }

  lemma PreloadingUnfold(s0: State, s: State, si: nat, names: seq<string>)
    ensures Preloading(s0, s, si, names) <==> PreloadingParts(s0, s, si) && Preloaded(s.libs, s.preloads, names)
  {
    assert Parts(0);
  }

  lemma PreloadStart(s: State, si: nat)
    requires Ok(s, {}) && Held(s, {}) && Unlinked(s, si) && s.libs[si].exe && s.preloads == []
    ensures Preloading(s, s, si, [])
  {
    PreloadingUnfold(s, s, si, []);
  }

  lemma PreloadMore(s0: State, s: State, t: State, si: nat, r: nat, names: seq<string>, name: string)
    requires Preloading(s0, s, si, names) && Found(s, t, r, Basename(name))
    ensures r in t.libs && Preloading(s0, Opened(t, r, true), si, names + [name])
  {
    PreloadingUnfold(s0, s, si, names);
    PreloadStep(s, t, si, r, Basename(name));
    var u := Opened(t, r, true);
    LinkingTrans(s0, s, u, si);
    PreloadedMore(s, u, si, s.preloads, r, names, name);
    PreloadingUnfold(s0, u, si, names + [name]);
  }

  lemma PreloadFails(s0: State, s: State, t: State, si: nat, names: seq<string>, name: string)
    requires Preloading(s0, s, si, names) && Found(s, t, NULL, Basename(name))
    ensures PreloadingParts(s0, t, si)
  {
    PreloadingUnfold(s0, s, si, names);
    FoundAround(s, t, NULL, Basename(name), si);
    LinkingTrans(s0, s, t, si);
  }

  ghost function Ended(t: State, si: nat, ok: bool): State
    requires si in t.libs
  {
    if ok then Finished(t, si) else WithLib(t, si, t.libs[si].(error := true))
  }

  lemma EndGrows(t: State, si: nat, ok: bool)
    requires Graph(t) && si in t.libs && !t.libs[si].linked
    ensures GrowsBut(t, Ended(t, si, ok), si)
  {
  }

  lemma EndKeeps(t: State, si: nat, ok: bool)
    requires Ok(t, {}) && Held(t, {}) && si in t.libs && !t.libs[si].linked && !t.libs[si].error
    ensures Ok(Ended(t, si, ok), {}) && Held(Ended(t, si, ok), if ok then {si} else {})
  {
    if ok {
      FinishKeeps(t, si);
    } else {
      FailKeeps(t, si);
    }
  }

  lemma EndResolved(t: State, si: nat, names: seq<Needed>, got: seq<Needed>)
    requires si in t.libs && Resolved(t.libs, names, got)
    ensures Resolved(Finished(t, si).libs, names, got)
  {
  }

  lemma EndPreloaded(t: State, si: nat, preloads: seq<nat>, names: seq<string>)
    requires si in t.libs
    ensures Preloaded(t.libs, preloads, names) ==> Preloaded(Finished(t, si).libs, preloads, names)
  {
  }

  lemma EndStep(s: State, t: State, si: nat, ok: bool)
    requires Linking(s, t, si) && !s.libs[si].linked && !s.libs[si].error
    requires ok ==> Resolved(t.libs, s.libs[si].needed, t.libs[si].needed)
    ensures LinkEnds(s, Ended(t, si, ok), si, ok)
  {
    OkParts(t, {});
    EndKeeps(t, si, ok);
    EndGrows(t, si, ok);
    GrowsButTrans(s, t, Ended(t, si, ok), si);
    if ok {
      EndResolved(t, si, s.libs[si].needed, t.libs[si].needed);
    }
  }

  lemma LinkedFound(s: State, t: State, u: State, si: nat, ok: bool, bname: string)
    requires Grows(s, t) && Mapped(s, t, si, bname) && LinkEnds(t, u, si, ok)
    ensures Found(s, u, if ok then si else NULL, bname)
  {
  }

  ghost predicate Main(s: State, m: nat) {
    m in s.libs && s.libs[m].exe && s.libs[m].linked
  }

  /** DT_NEEDED entries before they are patched. */
  function AsNames(names: seq<string>): (r: seq<Needed>)
    ensures |r| == |names| && forall k :: 0 <= k < |r| ==> r[k] == Name(names[k])
  {
    seq(|names|, k requires 0 <= k < |names| => Name(names[k]))
  }

  /** `t` is `s` plus the executable, unlinked, with the reference it keeps to itself. */
  ghost predicate Entered(s: State, t: State, si: nat, argv0: string, needed: seq<string>) {
    t == WithLib(s, si, Fresh(argv0).(exe := true, refcount := 1, needed := AsNames(needed)))
  }

  lemma EnterKeeps(s: State, t: State, si: nat, argv0: string, needed: seq<string>)
    requires Ok(s, {}) && Held(s, {}) && s.libs.Keys == {LIBDL} && si < SO_MAX && Entered(s, t, si, argv0, needed)
    ensures Ok(t, {}) && Held(t, {}) && Unlinked(t, si) && t.preloads == s.preloads
  {
    AddKeeps(s, t, si, t.libs[si]);
  }

  /** The executable's own reference keeps its count positive. */
  lemma ExeHeld(s: State, t: State, si: nat)
    requires LinkEnds(s, t, si, true) && s.libs[si].exe && s.libs[si].refcount > 0
    ensures Held(t, {}) && Main(t, si)
  {
  }

  /** After the executable's link everything is settled. */
  lemma StartSettled(s: State, t: State, si: nat)
    requires LinkEnds(s, t, si, true) && forall u :: u in s.libs ==> u == si || u == LIBDL
    ensures Settled(t)
  {
    OkParts(t, {});
  }

  lemma MainStays(s: State, t: State, m: nat)
    requires Main(s, m) && Grows(s, t)
    ensures Main(t, m)
  {
  }

  lemma FoundSettled(s: State, t: State, r: int, bname: string)
    requires Found(s, t, r, bname) && Settled(s)
    ensures Settled(t)
  {
    OkParts(t, {});
    forall u | u in t.libs ensures SettledAt(t.libs[u]) {
      assert u in s.libs ==> GrowsAt(s.libs[u], t.libs[u]);
    }
  }

  /** What dlopen may change: counts rise, libraries arrive, and the handle, if any, is recorded. */
  ghost predicate GrowsOpen(s: State, t: State, r: int) {
    && s.libs.Keys <= t.libs.Keys && s.preloads == t.preloads
    && (forall u :: u in s.libs ==> GrowsAt(s.libs[u], t.libs[u]))
    && (r < 0 ==> t.handles == s.handles)
    && (r >= 0 ==> r in t.libs && t.handles == s.handles + multiset{r})
  }

  lemma OpenStep(s: State, t: State, r: nat, m: nat)
    requires Grows(s, t) && Ok(t, {}) && Held(t, {r}) && Settled(t) && r in t.libs && t.libs[r].linked && Main(t, m)
    ensures var u := Opened(t, r, false); Ok(u, {}) && Held(u, {}) && Settled(u) && Main(u, m) && GrowsOpen(s, u, r)
    ensures var u := Opened(t, r, false); u.libs[r].linked && u.libs[r].name == t.libs[r].name
  {
    LinkedOk(t, r);
    OpenKeeps(t, r, false);
    forall u | u in s.libs ensures GrowsAt(s.libs[u], Opened(t, r, false).libs[u]) {
      assert GrowsAt(s.libs[u], t.libs[u]);
    }
  }

  lemma BlockLive(s: State, si: nat, debt: set<nat>)
    requires Ok(s, debt) && si in s.libs && si != LIBDL
    ensures s.libs[si].baIndex >= 0 ==> s.libs[si].baIndex in s.blocks
  {
    OkParts(s, debt);
    assert HasBlock(s, si) ==> OwnsBlock(s, si, s.libs[si].baIndex);
  }

  lemma CloseStart(s: State, h: nat)
    requires Ok(s, {}) && Held(s, {}) && h in s.handles
    ensures UnloadPre(s.(handles := s.handles - multiset{h}), h, {})
  {
    CloseKeeps(s, h);
    OkParts(s, {});
    assert Linked(s, h);
    assert {} + {h} == {h};
  }

  lemma MainKept(s: State, t: State, top: nat, m: nat)
    requires Main(s, m) && Shrinks(s, t, top)
    ensures Main(t, m)
  {
  }

  lemma Closed(s: State, t: State, h: nat, fault: bool, m: nat)
    requires Ok(s, {}) && Held(s, {}) && Settled(s) && h in s.handles && Main(s, m)
    requires Unloaded(s.(handles := s.handles - multiset{h}), t, h, {}, fault)
    ensures Main(t, m) && Settled(t) && t.handles == s.handles - multiset{h} && t.preloads == s.preloads
    ensures forall v: nat :: v in t.libs <==> v == LIBDL || Reachable(s.libs, RootsWithout(s, h), v)
    ensures forall u :: u in t.libs ==> u in s.libs && ShrinksAt(s.libs[u], t.libs[u])
    ensures fault <==> Reachable(s.libs, Roots(s), LIBDL) && !Reachable(s.libs, RootsWithout(s, h), LIBDL)
  {
    CloseExact(s, t, h, fault);
    MainKept(s.(handles := s.handles - multiset{h}), t, s.stamp[h], m);
  }
}
