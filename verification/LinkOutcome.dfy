/**
 Where the libraries of the linker come from, and when a search succeeds.

 `files` gives the library a path leads to, if a file can be opened there and
 is one; `answers` gives the system's answers, in the order in which
 `bionic/linker/linker.c` asks: reading the header, reserving the region,
 mapping the segments, and the work on the tables of a library.
 */
module LinkOutcome {
  import opened Basics
  import opened CStrings
  import opened SoinfoPool
  import opened LibraryGraph
  import opened LinkSteps
  import opened AlignedBlocks
  import BuddyAllocator

  type Files = string -> Option<Image>
  type Answers = nat -> bool

  function Open(files: Files, name: string): Option<Image> {
    files(name)
  }

  predicate Yes(answers: Answers, k: nat) {
    answers(k)
  }

  /** The path by which a library was opened, and what was found there. */
  datatype Source = Source(path: string, image: Image)

  /** The abstract state, the sources of its libraries, and how often the system was asked. */
  datatype World = World(s: State, origin: map<nat, Source>, asked: nat)

  // ----- Sources

  /** Every entry is the name in the file or the linked library of that name. */
  ghost predicate Partly(libs: map<nat, Soinfo>, names: seq<string>, got: seq<Needed>) {
    |got| == |names| &&
    forall k :: 0 <= k < |got| ==> got[k] == Name(names[k]) || ResolvedTo(libs, Name(names[k]), got[k])
  }

  /** Extent and address are those the file asks for. */
  ghost predicate MappedAs(info: Soinfo, image: Image) {
    && info.size == image.size
    && if image.reqBase == 0 then info.baIndex >= 0 else info.base == image.reqBase && info.baIndex == -1
  }

  /** `t` is `s` plus the unlinked library `si` as its file describes it. */
  ghost predicate Entering(s: State, t: State, si: nat, path: string, image: Image) {
    && Mapped(s, t, si, Basename(path)) && MappedAs(t.libs[si], image) && t.libs[si].needed == AsNames(image.needed)
  }

  lemma PlacedEntering(s: State, t: State, si: nat, path: string, image: Image)
    requires Placed(s, t, si, Basename(path)) && MappedAs(t.libs[si], image)
    ensures Entering(s, WithLib(t, si, t.libs[si].(needed := AsNames(image.needed))), si, path, image)
  {
    PlacedMapped(s, t, si, Basename(path), AsNames(image.needed));
  }

  /** `info` is the library at the path, and its entries lead to the libraries the file names. */
  ghost predicate SourcedAt(libs: map<nat, Soinfo>, info: Soinfo, src: Source) {
    && info.name == Basename(src.path) && MappedAs(info, src.image)
    && Partly(libs, src.image.needed, info.needed)
    && (info.linked ==> Resolved(libs, AsNames(src.image.needed), info.needed))
  }

  ghost predicate AllSourced(s: State, origin: map<nat, Source>) {
    forall u :: u in s.libs && !Static(s, u) ==> u in origin && SourcedAt(s.libs, s.libs[u], origin[u])
  }

  /** Every library but libdl and the executable is what its file says; folded like `Ok`, see `SourcedParts`. */
  ghost predicate Sourced(s: State, origin: map<nat, Source>) {
    forall i {:trigger Inward(i, World(s, origin, 0))} :: Inward(i, World(s, origin, 0)) ==>
      exists j {:trigger Outward(j, World(s, origin, 0))} :: Outward(j, World(s, origin, 0)) && AllSourced(s, origin)
  }

  lemma SourcedParts(s: State, origin: map<nat, Source>)
    ensures Sourced(s, origin) <==> AllSourced(s, origin)
  {
    assert Inward(0, World(s, origin, 0)) && Outward(0, World(s, origin, 0));
  }

  /** Linked libraries stay linked and keep their names. */
  ghost predicate Stays(libs: map<nat, Soinfo>, libs': map<nat, Soinfo>) {
    forall r :: r in libs && libs[r].linked ==> r in libs' && libs'[r].linked && libs'[r].name == libs[r].name
  }

  lemma SourcedStays(libs: map<nat, Soinfo>, libs': map<nat, Soinfo>, info: Soinfo, info': Soinfo, src: Source)
    requires SourcedAt(libs, info, src) && Stays(libs, libs') && SameIdentity(info, info')
    requires info.needed == info'.needed && info.linked == info'.linked
    ensures SourcedAt(libs', info', src)
  {
  }

  /** `t` differs from `s` at `si` and in counts only. */
  ghost predicate OnlyAt(s: State, t: State, si: nat) {
    && t.libs.Keys == s.libs.Keys + {si} && Stays(s.libs, t.libs) && (si in s.libs ==> t.libs[si].exe == s.libs[si].exe)
    && forall u :: u in s.libs && u != si ==> t.libs[u] == s.libs[u].(refcount := t.libs[u].refcount)
  }

  lemma SourcedOnlyAt(s: State, t: State, si: nat, origin: map<nat, Source>, origin': map<nat, Source>)
    requires AllSourced(s, origin) && OnlyAt(s, t, si)
    requires forall u :: u in s.libs && u != si && u in origin ==> u in origin' && origin'[u] == origin[u]
    requires !Static(t, si) ==> si in origin' && SourcedAt(t.libs, t.libs[si], origin'[si])
    ensures AllSourced(t, origin')
  {
    forall u | u in t.libs && !Static(t, u) ensures u in origin' && SourcedAt(t.libs, t.libs[u], origin'[u]) {
      if u != si {
        SourcedStays(s.libs, t.libs, s.libs[u], t.libs[u], origin[u]);
      }
    }
  }

  lemma SourcedAdd(s: State, t: State, si: nat, origin: map<nat, Source>, path: string, image: Image)
    requires Sourced(s, origin) && Entering(s, t, si, path, image)
    ensures Sourced(t, origin[si := Source(path, image)])
  {
    SourcedParts(s, origin);
    SourcedParts(t, origin[si := Source(path, image)]);
    SourcedOnlyAt(s, t, si, origin, origin[si := Source(path, image)]);
  }

  lemma OwnersAre(s: State)
    requires Ok(s, {})
    ensures s.owner.Keys == s.blocks.Keys
  {
    OkParts(s, {});
  }

  /** A library just entered keeps every invariant. */
  lemma EnteringKeeps(s: State, t: State, si: nat, origin: map<nat, Source>, path: string, image: Image)
    requires Ok(s, {}) && Held(s, {}) && Sourced(s, origin) && si < SO_MAX && Entering(s, t, si, path, image)
    requires forall u :: u in s.libs ==> s.libs[u].name != Basename(path)
    ensures Ok(t, {}) && Held(t, {}) && Grows(s, t) && Sourced(t, origin[si := Source(path, image)])
  {
    AddKeeps(s, t, si, t.libs[si]);
    SourcedAdd(s, t, si, origin, path, image);
  }

  lemma SourcedEnter(s: State, si: nat, info: Soinfo, origin: map<nat, Source>)
    requires Sourced(s, origin) && si !in s.libs && info.exe
    ensures Sourced(WithLib(s, si, info), origin)
  {
    SourcedParts(s, origin);
    SourcedParts(WithLib(s, si, info), origin);
    SourcedOnlyAt(s, WithLib(s, si, info), si, origin, origin);
  }

  lemma SourcedPatch(s: State, si: nat, k: nat, r: nat, origin: map<nat, Source>)
    requires Sourced(s, origin) && si in s.libs && !s.libs[si].linked && k < |s.libs[si].needed| && r != si
    requires s.libs[si].needed[k].Name? && LinkedAs(s.libs, r, s.libs[si].needed[k].name)
    ensures Sourced(Patched(s, si, k, r), origin) && OnlyAt(s, Patched(s, si, k, r), si)
  {
    var t := Patched(s, si, k, r);
    SourcedParts(s, origin);
    SourcedParts(t, origin);
    PatchOnlyAt(s, si, k, r);
    if !Static(s, si) {
      PartlyMore(s.libs, t.libs, origin[si].image.needed, s.libs[si].needed, k, r);
      SourcedPatched(s.libs, t.libs, s.libs[si], t.libs[si], origin[si]);
    }
    SourcedOnlyAt(s, t, si, origin, origin);
  }

  lemma PatchOnlyAt(s: State, si: nat, k: nat, r: nat)
    requires si in s.libs && !s.libs[si].linked && k < |s.libs[si].needed| && r != si && r in s.libs
    ensures OnlyAt(s, Patched(s, si, k, r), si)
    ensures Patched(s, si, k, r).libs[si] == s.libs[si].(needed := s.libs[si].needed[k := Lib(r)])
  {
  }

  lemma SourcedPatched(libs: map<nat, Soinfo>, libs': map<nat, Soinfo>, info: Soinfo, info': Soinfo, src: Source)
    requires SourcedAt(libs, info, src) && info' == info.(needed := info'.needed) && !info.linked
    requires Partly(libs', src.image.needed, info'.needed)
    ensures SourcedAt(libs', info', src)
  {
  }

  lemma PartlyMore(libs: map<nat, Soinfo>, libs': map<nat, Soinfo>, names: seq<string>, got: seq<Needed>, k: nat, r: nat)
    requires Partly(libs, names, got) && Stays(libs, libs') && k < |got| && got[k].Name? && LinkedAs(libs, r, got[k].name)
    ensures Partly(libs', names, got[k := Lib(r)])
  {
    assert got[k] == Name(names[k]);
  }

  lemma SourcedOpen(s: State, r: nat, preload: bool, origin: map<nat, Source>)
    requires Sourced(s, origin) && r in s.libs
    ensures Sourced(Opened(s, r, preload), origin) && OnlyAt(s, Opened(s, r, preload), r)
  {
    var t := Opened(s, r, preload);
    SourcedParts(s, origin);
    SourcedParts(t, origin);
    if !Static(s, r) {
      SourcedStays(s.libs, t.libs, s.libs[r], t.libs[r], origin[r]);
    }
    SourcedOnlyAt(s, t, r, origin, origin);
  }

  lemma SourcedEnd(s: State, si: nat, ok: bool, origin: map<nat, Source>)
    requires Sourced(s, origin) && si in s.libs && !s.libs[si].linked
    requires ok ==> forall k :: 0 <= k < |s.libs[si].needed| ==> s.libs[si].needed[k].Lib?
    ensures Sourced(Ended(s, si, ok), origin) && OnlyAt(s, Ended(s, si, ok), si)
  {
    var t := Ended(s, si, ok);
    SourcedParts(s, origin);
    SourcedParts(t, origin);
    if !Static(s, si) {
      assert SourcedAt(s.libs, s.libs[si], origin[si]);
      PartlyAll(s.libs, t.libs, origin[si].image.needed, s.libs[si].needed);
    }
    SourcedOnlyAt(s, t, si, origin, origin);
  }

  lemma PartlyAll(libs: map<nat, Soinfo>, libs': map<nat, Soinfo>, names: seq<string>, got: seq<Needed>)
    requires Partly(libs, names, got) && Stays(libs, libs')
    ensures Partly(libs', names, got)
    ensures (forall k :: 0 <= k < |got| ==> got[k].Lib?) ==> Resolved(libs', AsNames(names), got)
  {
  }

  /** Unloading leaves the entries of the remaining libraries as they are. */
  lemma SourcedShrinks(s: State, t: State, origin: map<nat, Source>)
    requires Sourced(s, origin) && Ok(t, {}) && forall u :: u in t.libs ==> u in s.libs && ShrinksAt(s.libs[u], t.libs[u])
    ensures Sourced(t, origin)
  {
    SourcedParts(s, origin);
    SourcedParts(t, origin);
    forall u | u in t.libs && !Static(t, u) ensures SourcedAt(t.libs, t.libs[u], origin[u]) {
      assert SourcedAt(s.libs, s.libs[u], origin[u]);
      EntriesStay(s, t, u, origin[u].image.needed);
    }
  }

  lemma EntriesStay(s: State, t: State, u: nat, names: seq<string>)
    requires Ok(t, {}) && forall v :: v in t.libs ==> v in s.libs && ShrinksAt(s.libs[v], t.libs[v])
    requires u in t.libs && Partly(s.libs, names, t.libs[u].needed)
    ensures Partly(t.libs, names, t.libs[u].needed)
    ensures Resolved(s.libs, AsNames(names), t.libs[u].needed) ==> Resolved(t.libs, AsNames(names), t.libs[u].needed)
  {
    OkParts(t, {});
    var got := t.libs[u].needed;
    forall k | 0 <= k < |got| && got[k].Lib? ensures ResolvedTo(t.libs, Name(names[k]), got[k]) {
      assert ResolvedTo(s.libs, Name(names[k]), got[k]);
      assert Lib(got[k].id) in got;
      assert EdgeOk(t, u, got[k].id);
    }
  }

  // ----- Why a search fails

  /** All the answers from number `from` up to `to` are favourable. */
  ghost predicate Given(answers: Answers, from: nat, to: nat) {
    forall k :: from <= k < to ==> Yes(answers, k)
  }

  lemma GivenThree(answers: Answers, from: nat)
    ensures Given(answers, from, from + 3) <==> Yes(answers, from) && Yes(answers, from + 1) && Yes(answers, from + 2)
  {
  }

  /** The 256 entries of the pool and libdl are all on the list. */
  ghost predicate NoSlot(s: State) {
    |s.libs.Keys| > 256
  }

  /** No aligned block of the region that holds `size` bytes is free; folded like `Ok`, see `NoBlockIs`. */
  ghost predicate NoBlock(blocks: map<nat, nat>, size: nat) {
    forall i {:trigger Parts(i)} :: Parts(i) ==> BuddyAllocator.NoRun(256, blocks, BuddyAllocator.OrderOf(LIBINC, size))
  }

  lemma NoBlockIs(blocks: map<nat, nat>, size: nat)
    ensures NoBlock(blocks, size) <==> BuddyAllocator.NoRun(256, blocks, BuddyAllocator.OrderOf(LIBINC, size))
  {
    assert Parts(0);
  }

  /** An order above that of the whole region is never available. */
  lemma TooLarge(blocks: map<nat, nat>, order: nat)
    requires order > BuddyAllocator.OrderOf(LIBINC, LIBLAST - LIBBASE)
    ensures BuddyAllocator.NoRun(256, blocks, order)
  {
    var top := BuddyAllocator.OrderOf(LIBINC, LIBLAST - LIBBASE);
    BuddyAllocator.OrderMeaning(LIBINC, LIBLAST - LIBBASE);
    assert Pow2(top) >= 256;
    Pow2Mono(top + 1, order);
  }

  ghost predicate NoRoom(s: State, image: Image) {
    image.reqBase == 0 && NoBlock(s.blocks, image.size)
  }

  /** Whatever the system answers, the library cannot be entered. */
  ghost predicate CannotLoad(files: Files, s: State, name: string) {
    Open(files, name).None? || |Basename(name)| >= 128 || NoSlot(s) || NoRoom(s, Open(files, name).value)
  }

  /** load_library succeeds exactly in this case; it asks for the header, the region and the segments. */
  ghost predicate CanLoad(files: Files, answers: Answers, asked: nat, s: State, name: string) {
    !CannotLoad(files, s, name) && Yes(answers, asked) && Yes(answers, asked + 1) && Yes(answers, asked + 2)
  }

  /** The library is on the list but failed or unfinished, or it is not on the list and cannot be loaded. */
  ghost predicate Unfound(files: Files, s: State, name: string) {
    Refused(s, Basename(name)) || (!Known(s, Basename(name)) && CannotLoad(files, s, name))
  }

  ghost predicate MissingAt(files: Files, s: State, needed: seq<Needed>, k: nat) {
    k < |needed| && needed[k].Name? && Unfound(files, s, needed[k].name)
  }

  /** One of the names the library needs is not found. */
  ghost predicate Lacks(files: Files, s: State, u: nat) {
    u in s.libs && exists k: nat :: MissingAt(files, s, s.libs[u].needed, k)
  }

  ghost predicate LacksPreload(files: Files, s: State, names: seq<string>) {
    exists i :: 0 <= i < |names| && Unfound(files, s, names[i])
  }

  /** Why the link of `si` fails although the system refused nothing. */
  ghost predicate LinkLacks(files: Files, s: State, si: nat, ldpreloads: seq<string>) {
    Lacks(files, s, si) || (si in s.libs && s.libs[si].exe && LacksPreload(files, s, ldpreloads))
  }

  ghost predicate AllLinked(s: State, t: State) {
    forall u :: u in t.libs && u !in s.libs ==> t.libs[u].linked
  }

  ghost predicate Excused(files: Files, s: State, t: State) {
    forall u :: u in t.libs && u !in s.libs ==> t.libs[u].linked || Lacks(files, t, u)
  }

  /** Sources are kept, and those of new libraries are files. */
  ghost predicate FromFiles(files: Files, w: World, w': World) {
    && (forall u :: u in w.s.libs && u in w.origin ==> u in w'.origin && w'.origin[u] == w.origin[u])
    && (forall u :: u in w'.s.libs && u !in w.s.libs ==>
          u in w'.origin && Open(files, w'.origin[u].path) == Some(w'.origin[u].image))
  }

  ghost predicate Progress(files: Files, w: World, w': World) {
    && Sourced(w'.s, w'.origin) && w.asked <= w'.asked && FromFiles(files, w, w')
    && w.s.libs.Keys <= w'.s.libs.Keys && Stays(w.s.libs, w'.s.libs) && NoNewExe(w.s, w'.s)
  }

  ghost predicate NoNewExe(s: State, t: State) {
    forall u :: u in t.libs && t.libs[u].exe ==> u in s.libs && s.libs[u].exe
  }

  ghost predicate Outcome(files: Files, answers: Answers, w: World, w': World, ok: bool, why: bool) {
    && (ok ==> Given(answers, w.asked, w'.asked) && AllLinked(w.s, w'.s))
    && (!ok && Given(answers, w.asked, w'.asked) ==> why && Excused(files, w.s, w'.s))
  }

  /** The way from `w` to `w'`.  If it ends well, the system refused nothing and every new library is linked.  If
      it fails although the system refused nothing, `why` says why, and every new library is linked or lacks
      something itself.  Folded like `Ok`, see `EndsParts`. */
  ghost predicate Ends(files: Files, answers: Answers, w: World, w': World, ok: bool, why: bool) {
    forall i {:trigger Inward(i, (w, w'))} :: Inward(i, (w, w')) ==>
      exists j {:trigger Outward(j, (w, w'))} ::
        Outward(j, (w, w')) && Progress(files, w, w') && Outcome(files, answers, w, w', ok, why)
  }

  lemma EndsParts(files: Files, answers: Answers, w: World, w': World, ok: bool, why: bool)
    ensures Ends(files, answers, w, w', ok, why) <==> Progress(files, w, w') && Outcome(files, answers, w, w', ok, why)
  {
    assert Inward(0, (w, w')) && Outward(0, (w, w'));
  }

  lemma EndsSourced(files: Files, answers: Answers, w: World, w': World, ok: bool, why: bool)
    requires Ends(files, answers, w, w', ok, why)
    ensures Sourced(w'.s, w'.origin)
  {
    EndsParts(files, answers, w, w', ok, why);
  }

  lemma EndsSame(files: Files, answers: Answers, w: World, why: bool)
    requires Sourced(w.s, w.origin)
    ensures Ends(files, answers, w, w, true, why)
  {
    EndsParts(files, answers, w, w, true, why);
  }

  lemma EndsKnown(files: Files, answers: Answers, w: World, ok: bool, name: string)
    requires Sourced(w.s, w.origin) && (!ok ==> Refused(w.s, Basename(name)))
    ensures Ends(files, answers, w, w, ok, Unfound(files, w.s, name))
  {
    EndsParts(files, answers, w, w, ok, Unfound(files, w.s, name));
  }

  lemma EndsTrans(files: Files, answers: Answers, w: World, w1: World, w2: World, ok: bool, why: bool)
    requires Ends(files, answers, w, w1, true, false) && Ends(files, answers, w1, w2, ok, why)
    ensures Ends(files, answers, w, w2, ok, why)
  {
    EndsParts(files, answers, w, w1, true, false);
    EndsParts(files, answers, w1, w2, ok, why);
    FromFilesTrans(files, w, w1, w2);
    OutcomeTrans(files, answers, w, w1, w2, ok, why);
    EndsParts(files, answers, w, w2, ok, why);
  }

  lemma FromFilesTrans(files: Files, w: World, w1: World, w2: World)
    requires FromFiles(files, w, w1) && FromFiles(files, w1, w2) && w.s.libs.Keys <= w1.s.libs.Keys <= w2.s.libs.Keys
    ensures FromFiles(files, w, w2)
  {
  }

  lemma OutcomeTrans(files: Files, answers: Answers, w: World, w1: World, w2: World, ok: bool, why: bool)
    requires Outcome(files, answers, w, w1, true, false) && Outcome(files, answers, w1, w2, ok, why)
    requires w.asked <= w1.asked <= w2.asked && Stays(w1.s.libs, w2.s.libs)
    ensures Outcome(files, answers, w, w2, ok, why)
  {
  }

  /** One more answer. */
  lemma EndsAsked(files: Files, answers: Answers, w: World, w': World, why: bool)
    requires Ends(files, answers, w, w', true, why)
    ensures Ends(files, answers, w, w'.(asked := w'.asked + 1), Yes(answers, w'.asked), why)
  {
    var next, yes := w'.(asked := w'.asked + 1), Yes(answers, w'.asked);
    EndsParts(files, answers, w, w', true, why);
    EndsParts(files, answers, w, next, yes, why);
    assert !yes ==> !Given(answers, w.asked, next.asked);
  }

  lemma EndsBecause(files: Files, answers: Answers, w: World, w': World, ok: bool, why: bool, why': bool)
    requires Ends(files, answers, w, w', ok, why) && (!ok && why ==> why')
    ensures Ends(files, answers, w, w', ok, why')
  {
    EndsParts(files, answers, w, w', ok, why);
    EndsParts(files, answers, w, w', ok, why');
  }

  lemma EndsOnlyAt(files: Files, answers: Answers, w: World, w': World, t: State, si: nat)
    requires Ends(files, answers, w, w', true, false) && OnlyAt(w'.s, t, si) && Sourced(t, w'.origin) && si in w'.s.libs
    requires si in w.s.libs || t.libs[si].linked
    ensures Ends(files, answers, w, w'.(s := t), true, false)
  {
    EndsParts(files, answers, w, w', true, false);
    OnlyAtProgress(files, w, w', t, si);
    OnlyAtLinked(w.s, w'.s, t, si);
    EndsParts(files, answers, w, w'.(s := t), true, false);
  }

  lemma OnlyAtProgress(files: Files, w: World, w': World, t: State, si: nat)
    requires Progress(files, w, w') && OnlyAt(w'.s, t, si) && Sourced(t, w'.origin) && si in w'.s.libs
    ensures Progress(files, w, w'.(s := t))
  {
    StaysTrans(w.s.libs, w'.s.libs, t.libs);
    assert t.libs.Keys == w'.s.libs.Keys;
    assert FromFiles(files, w, w'.(s := t));
  }

  lemma StaysTrans(a: map<nat, Soinfo>, b: map<nat, Soinfo>, c: map<nat, Soinfo>)
    requires Stays(a, b) && Stays(b, c)
    ensures Stays(a, c)
  {
  }

  lemma OnlyAtLinked(s: State, t: State, t': State, si: nat)
    requires AllLinked(s, t) && OnlyAt(t, t', si) && si in t.libs && (si in s.libs || t'.libs[si].linked)
    ensures AllLinked(s, t')
  {
  }

  lemma EndsPatched(files: Files, answers: Answers, w: World, w': World, si: nat, k: nat, r: nat)
    requires Ends(files, answers, w, w', true, false) && si in w.s.libs && si in w'.s.libs && !w'.s.libs[si].linked
    requires k < |w'.s.libs[si].needed| && r != si
    requires w'.s.libs[si].needed[k].Name? && LinkedAs(w'.s.libs, r, w'.s.libs[si].needed[k].name)
    ensures Ends(files, answers, w, w'.(s := Patched(w'.s, si, k, r)), true, false)
  {
    EndsSourced(files, answers, w, w', true, false);
    SourcedPatch(w'.s, si, k, r, w'.origin);
    EndsOnlyAt(files, answers, w, w', Patched(w'.s, si, k, r), si);
  }

  lemma EndsOpened(files: Files, answers: Answers, w: World, w': World, r: nat, preload: bool, why: bool, why': bool)
    requires Ends(files, answers, w, w', true, why) && r in w'.s.libs && w'.s.libs[r].linked
    ensures Ends(files, answers, w, w'.(s := Opened(w'.s, r, preload)), true, why')
  {
    EndsBecause(files, answers, w, w', true, why, false);
    EndsSourced(files, answers, w, w', true, false);
    SourcedOpen(w'.s, r, preload, w'.origin);
    EndsOnlyAt(files, answers, w, w', Opened(w'.s, r, preload), r);
    EndsBecause(files, answers, w, w'.(s := Opened(w'.s, r, preload)), true, false, why');
  }

  /** The end of a link that went well. */
  lemma EndsLinked(files: Files, answers: Answers, w: World, w': World, si: nat)
    requires Ends(files, answers, w, w', true, false) && si in w.s.libs && si in w'.s.libs && !w'.s.libs[si].linked
    requires forall k :: 0 <= k < |w'.s.libs[si].needed| ==> w'.s.libs[si].needed[k].Lib?
    ensures Ends(files, answers, w, w'.(s := Ended(w'.s, si, true)), true, false)
  {
    EndsSourced(files, answers, w, w', true, false);
    SourcedEnd(w'.s, si, true, w'.origin);
    EndsOnlyAt(files, answers, w, w', Ended(w'.s, si, true), si);
  }

  /** Marking `si` as failed helps no search. */
  lemma StillUnfound(files: Files, s: State, si: nat, name: string)
    requires si in s.libs && Unfound(files, s, name)
    ensures Unfound(files, Ended(s, si, false), name)
  {
    var t := Ended(s, si, false);
    assert t.libs.Keys == s.libs.Keys;
    if Refused(s, Basename(name)) {
      var u :| u in s.libs && s.libs[u].name == Basename(name) && (s.libs[u].error || !s.libs[u].linked);
      assert u in t.libs && t.libs[u].name == Basename(name) && (t.libs[u].error || !t.libs[u].linked);
    }
  }

  lemma StillLacks(files: Files, s: State, si: nat, u: nat)
    requires si in s.libs && Lacks(files, s, u)
    ensures Lacks(files, Ended(s, si, false), u)
  {
    var k: nat :| MissingAt(files, s, s.libs[u].needed, k);
    StillUnfound(files, s, si, s.libs[u].needed[k].name);
    assert MissingAt(files, Ended(s, si, false), Ended(s, si, false).libs[u].needed, k);
  }

  lemma StillLinkLacks(files: Files, s: State, si: nat, ldpreloads: seq<string>)
    requires si in s.libs && LinkLacks(files, s, si, ldpreloads)
    ensures LinkLacks(files, Ended(s, si, false), si, ldpreloads)
  {
    if Lacks(files, s, si) {
      StillLacks(files, s, si, si);
    } else {
      var i :| 0 <= i < |ldpreloads| && Unfound(files, s, ldpreloads[i]);
      StillUnfound(files, s, si, ldpreloads[i]);
    }
  }

  lemma StillExcused(files: Files, s: State, t: State, si: nat)
    requires si in s.libs && si in t.libs && Excused(files, s, t)
    ensures Excused(files, s, Ended(t, si, false))
  {
    var t' := Ended(t, si, false);
    forall u | u in t'.libs && u !in s.libs ensures t'.libs[u].linked || Lacks(files, t', u) {
      if !t.libs[u].linked {
        StillLacks(files, t, si, u);
      }
    }
  }

  /** The end of a link that failed. */
  lemma EndsFailed(files: Files, answers: Answers, w: World, w': World, si: nat, ldpreloads: seq<string>)
    requires Ends(files, answers, w, w', false, LinkLacks(files, w'.s, si, ldpreloads))
    requires si in w.s.libs && si in w'.s.libs && !w'.s.libs[si].linked
    ensures var t := Ended(w'.s, si, false);
            Ends(files, answers, w, w'.(s := t), false, LinkLacks(files, t, si, ldpreloads))
  {
    var t, why := Ended(w'.s, si, false), LinkLacks(files, w'.s, si, ldpreloads);
    EndsParts(files, answers, w, w', false, why);
    FailedProgress(files, w, w', si);
    if Given(answers, w.asked, w'.asked) {
      StillLinkLacks(files, w'.s, si, ldpreloads);
      StillExcused(files, w.s, w'.s, si);
    }
    EndsParts(files, answers, w, w'.(s := t), false, LinkLacks(files, t, si, ldpreloads));
  }

  lemma FailedProgress(files: Files, w: World, w': World, si: nat)
    requires Progress(files, w, w') && si in w.s.libs && si in w'.s.libs && !w'.s.libs[si].linked
    ensures Progress(files, w, w'.(s := Ended(w'.s, si, false)))
  {
    SourcedEnd(w'.s, si, false, w'.origin);
  }

  /** The end of a link, either way. */
  lemma EndsLink(files: Files, answers: Answers, w: World, w': World, si: nat, ok: bool, ldpreloads: seq<string>)
    requires Ends(files, answers, w, w', ok, LinkLacks(files, w'.s, si, ldpreloads)) && Linking(w.s, w'.s, si)
    requires !w.s.libs[si].linked && (ok ==> Resolved(w'.s.libs, w.s.libs[si].needed, w'.s.libs[si].needed))
    ensures var t := Ended(w'.s, si, ok);
            Ends(files, answers, w, w'.(s := t), ok, LinkLacks(files, t, si, ldpreloads))
  {
    if ok {
      EndsBecause(files, answers, w, w', true, LinkLacks(files, w'.s, si, ldpreloads), false);
      ResolvedLibs(w'.s.libs, w.s.libs[si].needed, w'.s.libs[si].needed);
      EndsLinked(files, answers, w, w', si);
      var t := Ended(w'.s, si, true);
      EndsBecause(files, answers, w, w'.(s := t), true, false, LinkLacks(files, t, si, ldpreloads));
    } else {
      EndsFailed(files, answers, w, w', si, ldpreloads);
    }
  }

  lemma ResolvedLibs(libs: map<nat, Soinfo>, names: seq<Needed>, got: seq<Needed>)
    requires Resolved(libs, names, got)
    ensures forall k :: 0 <= k < |got| ==> got[k].Lib?
  {
    forall k | 0 <= k < |got| ensures got[k].Lib? {
      assert ResolvedTo(libs, names[k], got[k]);
    }
  }

  /** The search for entry `k` of `si` ended. */
  lemma EndsEntry(files: Files, answers: Answers, w: World, w': World, si: nat, k: nat, r: int, name: string)
    requires Ends(files, answers, w, w', r >= 0, Unfound(files, w'.s, name)) && Found(w.s, w'.s, r, Basename(name))
    requires si in w.s.libs && si in w'.s.libs && w'.s.libs[si] == w.s.libs[si] && !w.s.libs[si].linked
    requires k < |w.s.libs[si].needed| && w.s.libs[si].needed[k] == Name(name)
    ensures r < 0 ==> Ends(files, answers, w, w', false, Lacks(files, w'.s, si))
    ensures r >= 0 ==> var t := Patched(w'.s, si, k, r); Ends(files, answers, w, w'.(s := t), true, Lacks(files, t, si))
  {
    if r < 0 {
      if Unfound(files, w'.s, name) {
        assert MissingAt(files, w'.s, w'.s.libs[si].needed, k);
      }
      EndsBecause(files, answers, w, w', false, Unfound(files, w'.s, name), Lacks(files, w'.s, si));
    } else {
      EndsBecause(files, answers, w, w', true, Unfound(files, w'.s, name), false);
      EndsPatched(files, answers, w, w', si, k, r);
      var t := Patched(w'.s, si, k, r);
      EndsBecause(files, answers, w, w'.(s := t), true, false, Lacks(files, t, si));
    }
  }

  /** The preloads of the executable come first. */
  lemma EndsPreloads(files: Files, answers: Answers, w: World, w1: World, w2: World, si: nat, ok: bool,
                     ldpreloads: seq<string>)
    requires Ends(files, answers, w, w1, true, LinkLacks(files, w1.s, si, ldpreloads))
    requires Ends(files, answers, w1, w2, ok, LacksPreload(files, w2.s, ldpreloads))
    requires si in w2.s.libs && w2.s.libs[si].exe
    ensures Ends(files, answers, w, w2, ok, LinkLacks(files, w2.s, si, ldpreloads))
  {
    EndsBecause(files, answers, w, w1, true, LinkLacks(files, w1.s, si, ldpreloads), false);
    EndsTrans(files, answers, w, w1, w2, ok, LacksPreload(files, w2.s, ldpreloads));
    EndsBecause(files, answers, w, w2, ok, LacksPreload(files, w2.s, ldpreloads), LinkLacks(files, w2.s, si, ldpreloads));
  }

  lemma EndsNeeded(files: Files, answers: Answers, w: World, w1: World, w2: World, si: nat, ok: bool,
                   ldpreloads: seq<string>)
    requires Ends(files, answers, w, w1, true, LinkLacks(files, w1.s, si, ldpreloads))
    requires Ends(files, answers, w1, w2, ok, Lacks(files, w2.s, si))
    ensures Ends(files, answers, w, w2, ok, LinkLacks(files, w2.s, si, ldpreloads))
  {
    EndsBecause(files, answers, w, w1, true, LinkLacks(files, w1.s, si, ldpreloads), false);
    EndsTrans(files, answers, w, w1, w2, ok, Lacks(files, w2.s, si));
    EndsBecause(files, answers, w, w2, ok, Lacks(files, w2.s, si), LinkLacks(files, w2.s, si, ldpreloads));
  }

  /** load_library failed. */
  lemma EndsUnloaded(files: Files, answers: Answers, w: World, asked: nat, name: string)
    requires Sourced(w.s, w.origin) && w.asked <= asked && !Known(w.s, Basename(name))
    requires Given(answers, w.asked, asked) ==> CannotLoad(files, w.s, name)
    ensures Ends(files, answers, w, w.(asked := asked), false, Unfound(files, w.s, name))
  {
    EndsParts(files, answers, w, w.(asked := asked), false, Unfound(files, w.s, name));
  }

  /** load_library entered `si`. */
  ghost predicate Loaded(files: Files, answers: Answers, w: World, w1: World, si: nat, name: string) {
    && Open(files, name).Some? && w1.origin == w.origin[si := Source(name, Open(files, name).value)]
    && w.asked <= w1.asked && Given(answers, w.asked, w1.asked)
    && si !in w.s.libs && si in w1.s.libs && w1.s.libs == w.s.libs[si := w1.s.libs[si]]
    && !w1.s.libs[si].exe && w1.s.libs[si].name == Basename(name)
  }

  /** The library `r` was read from the file that `name` leads to. */
  ghost predicate ReadFrom(files: Files, origin: map<nat, Source>, r: int, name: string) {
    r in origin && Open(files, name) == Some(origin[r].image) && origin[r].path == name
  }

  /** What the link of `si` adds to it. */
  lemma EndsLoaded(files: Files, answers: Answers, w: World, w1: World, w2: World, si: nat, ok: bool, name: string)
    requires Loaded(files, answers, w, w1, si, name) && LinkEnds(w1.s, w2.s, si, ok)
    requires Ends(files, answers, w1, w2, ok, LinkLacks(files, w2.s, si, []))
    ensures Ends(files, answers, w, w2, ok, Unfound(files, w2.s, name))
    ensures ReadFrom(files, w2.origin, si, name)
  {
    EndsParts(files, answers, w1, w2, ok, LinkLacks(files, w2.s, si, []));
    LoadedProgress(files, answers, w, w1, w2, si, name);
    LoadedOutcome(files, answers, w, w1, w2, si, ok, name);
    EndsParts(files, answers, w, w2, ok, Unfound(files, w2.s, name));
  }

  lemma LoadedProgress(files: Files, answers: Answers, w: World, w1: World, w2: World, si: nat, name: string)
    requires Loaded(files, answers, w, w1, si, name) && Progress(files, w1, w2)
    ensures Progress(files, w, w2) && si in w2.origin && w2.origin[si] == Source(name, Open(files, name).value)
  {
    assert w1.origin[si] == Source(name, Open(files, name).value);
    LoadedStays(w.s.libs, w1.s.libs, w2.s.libs, si);
    assert w.s.libs.Keys <= w1.s.libs.Keys;
    LoadedFrom(files, w, w1, w2, si);
  }

  lemma LoadedStays(a: map<nat, Soinfo>, b: map<nat, Soinfo>, c: map<nat, Soinfo>, si: nat)
    requires si !in a && si in b && b == a[si := b[si]] && Stays(b, c)
    ensures Stays(a, c)
  {
  }

  lemma LoadedFrom(files: Files, w: World, w1: World, w2: World, si: nat)
    requires si !in w.s.libs && w1.s.libs.Keys == w.s.libs.Keys + {si} && FromFiles(files, w1, w2)
    requires si in w1.origin && w1.origin == w.origin[si := w1.origin[si]]
    requires Open(files, w1.origin[si].path) == Some(w1.origin[si].image)
    ensures FromFiles(files, w, w2)
  {
  }

  lemma LoadedOutcome(files: Files, answers: Answers, w: World, w1: World, w2: World, si: nat, ok: bool, name: string)
    requires Loaded(files, answers, w, w1, si, name) && LinkEnds(w1.s, w2.s, si, ok) && w1.asked <= w2.asked
    requires Outcome(files, answers, w1, w2, ok, LinkLacks(files, w2.s, si, []))
    ensures Outcome(files, answers, w, w2, ok, Unfound(files, w2.s, name))
  {
    assert w2.s.libs[si].name == Basename(name) && w2.s.libs[si].error == !ok && w2.s.libs[si].linked == ok;
    assert Given(answers, w.asked, w2.asked) <==> Given(answers, w1.asked, w2.asked);
  }

  // ----- The public calls

  /** `r` is linked to the libraries the file names, and lies where the file asks. */
  ghost predicate LinkedFrom(libs: map<nat, Soinfo>, r: int, image: Image) {
    r in libs && Resolved(libs, AsNames(image.needed), libs[r].needed) && MappedAs(libs[r], image)
  }

  /** How the link of the executable ends. */
  lemma StartEnds(files: Files, answers: Answers, w: World, w': World, si: nat, ok: bool, needed: seq<string>,
                  ldpreloads: seq<string>)
    requires Ends(files, answers, w, w', ok, LinkLacks(files, w'.s, si, ldpreloads)) && LinkEnds(w.s, w'.s, si, ok)
    requires w.s.libs.Keys == {LIBDL, si} && w.s.libs[si].needed == AsNames(needed)
    ensures Sourced(w'.s, w'.origin) && (ok ==> Given(answers, w.asked, w'.asked))
    ensures ok ==> forall u :: u in w'.s.libs && u != LIBDL && u != si ==>
                     w'.s.libs[u].linked && u in w'.origin && ReadFrom(files, w'.origin, u, w'.origin[u].path)
    ensures !ok && Given(answers, w.asked, w'.asked) ==>
              LacksPreload(files, w'.s, needed) || LacksPreload(files, w'.s, ldpreloads)
  {
    EndsParts(files, answers, w, w', ok, LinkLacks(files, w'.s, si, ldpreloads));
    if Lacks(files, w'.s, si) {
      var k: nat :| MissingAt(files, w'.s, w'.s.libs[si].needed, k);
      assert Unfound(files, w'.s, needed[k]);
    }
  }

  /** A library of a name that was not known is new, and not the executable. */
  lemma NewLibrary(files: Files, w: World, w': World, r: nat, name: string)
    requires Ok(w.s, {}) && Found(w.s, w'.s, r, Basename(name)) && Progress(files, w, w') && !Known(w.s, Basename(name))
    ensures !Static(w'.s, r)
  {
    OkParts(w.s, {});
    assert r in w.s.libs ==> GrowsAt(w.s.libs[r], w'.s.libs[r]);
  }

  lemma ReadLinked(files: Files, s: State, origin: map<nat, Source>, r: nat, name: string)
    requires Sourced(s, origin) && r in s.libs && !Static(s, r) && s.libs[r].linked && ReadFrom(files, origin, r, name)
    ensures Open(files, name).Some? && LinkedFrom(s.libs, r, Open(files, name).value)
  {
    SourcedParts(s, origin);
  }

  /** How the search of dlopen ends, once the handle is recorded. */
  lemma DlopenEnds(files: Files, answers: Answers, w: World, w': World, r: nat, name: string)
    requires Ok(w.s, {}) && Found(w.s, w'.s, r, Basename(name))
    requires Ends(files, answers, w, w', true, Unfound(files, w'.s, name))
    requires !Known(w.s, Basename(name)) ==> ReadFrom(files, w'.origin, r, name)
    ensures var t := Opened(w'.s, r, false);
            && Sourced(t, w'.origin) && Ends(files, answers, w, w'.(s := t), true, Unfound(files, t, name))
            && (!Known(w.s, Basename(name)) ==>
                  Open(files, name).Some? && LinkedFrom(t.libs, r, Open(files, name).value))
  {
    var t := Opened(w'.s, r, false);
    EndsOpened(files, answers, w, w', r, false, Unfound(files, w'.s, name), Unfound(files, t, name));
    EndsSourced(files, answers, w, w'.(s := t), true, Unfound(files, t, name));
    if !Known(w.s, Basename(name)) {
      EndsParts(files, answers, w, w', true, Unfound(files, w'.s, name));
      NewLibrary(files, w, w', r, name);
      ReadLinked(files, t, w'.origin, r, name);
    }
  }

  ghost function Handed(s: State, r: int): State
    requires r >= 0 ==> r in s.libs
  {
    if r >= 0 then Opened(s, r, false) else s
  }

  /** Recording the handle keeps the invariants of a running program. */
  lemma HandedKeeps(s: State, t: State, r: int, bname: string, m: nat)
    requires Settled(s) && Main(s, m) && Found(s, t, r, bname)
    ensures var u := Handed(t, r);
            && Ok(u, {}) && Held(u, {}) && Settled(u) && Main(u, m) && GrowsOpen(s, u, r)
            && (r >= 0 ==> u.libs[r].linked && u.libs[r].name == bname)
  {
    MainStays(s, t, m);
    FoundSettled(s, t, r, bname);
    if r >= 0 {
      OpenStep(s, t, r, m);
    }
  }

  lemma HandedEnds(files: Files, answers: Answers, w: World, w': World, r: int, name: string)
    requires Ok(w.s, {}) && Found(w.s, w'.s, r, Basename(name))
    requires Ends(files, answers, w, w', r >= 0, Unfound(files, w'.s, name))
    requires !Known(w.s, Basename(name)) && r >= 0 ==> ReadFrom(files, w'.origin, r, name)
    ensures var t := Handed(w'.s, r);
            && Sourced(t, w'.origin) && Ends(files, answers, w, w'.(s := t), r >= 0, Unfound(files, t, name))
            && (!Known(w.s, Basename(name)) && r >= 0 ==>
                  Open(files, name).Some? && LinkedFrom(t.libs, r, Open(files, name).value))
  {
    if r >= 0 {
      DlopenEnds(files, answers, w, w', r, name);
    } else {
      EndsSourced(files, answers, w, w', false, Unfound(files, w'.s, name));
    }
  }

  // ----- A healthy system

  /** The name belongs to a linked library, or to a file that can be entered. */
  ghost predicate Provided(files: Files, s: State, t: State, name: string) {
    if Known(s, Basename(name)) then !Refused(s, Basename(name))
    else Open(files, name).Some? && |Basename(name)| < 128 && !NoRoom(t, Open(files, name).value)
  }

  /** Every name a file needs is provided, and `rank` shows that no file needs itself. */
  ghost predicate Complete(files: Files, s: State, t: State, rank: string -> nat) {
    forall n :: Open(files, n).Some? ==>
      forall k :: 0 <= k < |Open(files, n).value.needed| ==>
        && Provided(files, s, t, Open(files, n).value.needed[k])
        && rank(Basename(Open(files, n).value.needed[k])) < rank(Basename(n))
  }

  /** A library that failed although the system refused nothing lacks a name of its own file. */
  lemma LacksOfFile(files: Files, w: World, w': World, u: nat) returns (m: string)
    requires Progress(files, w, w') && u in w'.s.libs && u !in w.s.libs && !Static(w'.s, u) && Lacks(files, w'.s, u)
    ensures u in w'.origin && Open(files, w'.origin[u].path) == Some(w'.origin[u].image)
    ensures Basename(w'.origin[u].path) == w'.s.libs[u].name
    ensures m in w'.origin[u].image.needed && Unfound(files, w'.s, m)
  {
    SourcedParts(w'.s, w'.origin);
    var k: nat :| MissingAt(files, w'.s, w'.s.libs[u].needed, k);
    assert SourcedAt(w'.s.libs, w'.s.libs[u], w'.origin[u]);
    m := w'.s.libs[u].needed[k].name;
    assert m == w'.origin[u].image.needed[k];
  }

  lemma RefusedIsNew(s: State, t: State, bname: string) returns (u: nat)
    requires Grows(s, t) && Refused(t, bname) && !Refused(s, bname)
    ensures u in t.libs && u !in s.libs && t.libs[u].name == bname && (t.libs[u].error || !t.libs[u].linked)
  {
    u :| u in t.libs && t.libs[u].name == bname && (t.libs[u].error || !t.libs[u].linked);
    assert u in s.libs ==> GrowsAt(s.libs[u], t.libs[u]);
  }

  lemma KnownStays(s: State, t: State, bname: string)
    requires Grows(s, t) && Known(s, bname)
    ensures Known(t, bname)
  {
    var u :| u in s.libs && s.libs[u].name == bname;
    assert GrowsAt(s.libs[u], t.libs[u]);
  }

  /** A search over a healthy system that was refused nothing. */
  ghost predicate Healthy(files: Files, w: World, w': World, rank: string -> nat) {
    && Progress(files, w, w') && Excused(files, w.s, w'.s) && Graph(w'.s) && Grows(w.s, w'.s)
    && Complete(files, w.s, w'.s, rank) && !NoSlot(w'.s)
    && LIBDL in w.s.libs
  }

  lemma RefusedLacks(files: Files, w: World, w': World, rank: string -> nat, name: string) returns (m: string)
    requires Healthy(files, w, w', rank) && Provided(files, w.s, w'.s, name) && Refused(w'.s, Basename(name))
    ensures Provided(files, w.s, w'.s, m) && rank(Basename(m)) < rank(Basename(name)) && Unfound(files, w'.s, m)
  {
    var u := RefusedIsNew(w.s, w'.s, Basename(name));
    m := LacksOfFile(files, w, w', u);
    NeedsLess(files, w.s, w'.s, rank, w'.origin[u].path, m);
  }

  lemma NotKnownLoads(files: Files, w: World, w': World, rank: string -> nat, name: string)
    requires Healthy(files, w, w', rank) && Provided(files, w.s, w'.s, name)
    ensures Known(w'.s, Basename(name)) || !CannotLoad(files, w'.s, name)
  {
    if Known(w.s, Basename(name)) {
      KnownStays(w.s, w'.s, Basename(name));
    }
  }

  lemma {:induction false} NotUnfound(files: Files, w: World, w': World, rank: string -> nat, name: string)
    requires Healthy(files, w, w', rank) && Provided(files, w.s, w'.s, name)
    ensures !Unfound(files, w'.s, name)
    decreases rank(Basename(name))
  {
    NotKnownLoads(files, w, w', rank, name);
    if Refused(w'.s, Basename(name)) {
      var m := RefusedLacks(files, w, w', rank, name);
      NotUnfound(files, w, w', rank, m);
    }
  }

  lemma NeedsLess(files: Files, s: State, t: State, rank: string -> nat, path: string, m: string)
    requires Complete(files, s, t, rank) && Open(files, path).Some? && m in Open(files, path).value.needed
    ensures Provided(files, s, t, m) && rank(Basename(m)) < rank(Basename(path))
  {
    var k :| 0 <= k < |Open(files, path).value.needed| && Open(files, path).value.needed[k] == m;
  }

  /** So a search succeeds if the name is provided, every file's needs are, there is room, and the system refuses
      nothing. */
  lemma HealthyLoads(files: Files, answers: Answers, w: World, w': World, r: int, name: string, rank: string -> nat)
    requires Ok(w.s, {}) && Found(w.s, w'.s, r, Basename(name))
    requires Ends(files, answers, w, w', r >= 0, Unfound(files, w'.s, name))
    requires Given(answers, w.asked, w'.asked) && !NoSlot(w'.s)
    requires Provided(files, w.s, w'.s, name) && Complete(files, w.s, w'.s, rank)
    ensures r >= 0
  {
    EndsParts(files, answers, w, w', r >= 0, Unfound(files, w'.s, name));
    if r < 0 {
      OkParts(w.s, {});
      OkParts(w'.s, {});
      NotUnfound(files, w, w', rank, name);
    }
  }
}
