/**
 Loading, linking and unloading of libraries: `bionic/linker/linker.c` and
 `bionic/linker/dlfcn.c`.

 The file system and the system's answers are inputs, so every contract holds
 for every pattern of failures.  `state` is the abstract state; `Rest` is the
 invariant that holds between public calls.
 */
module Linker {
  import opened Basics
  import opened CStrings
  import opened SoinfoPool
  import opened LibraryGraph
  import opened LinkSteps
  import opened LinkOutcome
  import opened AlignedBlocks
  import BuddyBlocks
  import BuddyAllocator

  class Linker {
    const pool: Pool
    const ba: BuddyAllocator.BuddyAllocator
    var somain: int
    var preloads: seq<nat>

    /** The file system as it is now. */
    var files: Files
    /** What the system answers, in the order asked, and how often it was asked so far. */
    const answers: Answers
    var asked: nat

    /** The abstract state, and where its libraries come from. */
    ghost var state: State
    ghost var origin: map<nat, Source>

    /** The pool and the allocator are well formed and `state` describes them; folded like `Ok`, see `Unfold`. */
    ghost predicate Shape()
      reads `state, `preloads, pool, pool.infos, ba, ba.bitmap
    {
      forall i {:trigger Inward(i, state)} :: Inward(i, state) ==>
        exists j {:trigger Outward(j, state)} :: Outward(j, state) && WellFormed()
    }

    lemma Unfold()
      ensures Shape() <==> WellFormed()
    {
      assert Inward(0, state) && Outward(0, state);
    }

    ghost predicate WellFormed()
      reads `state, `preloads, pool, pool.infos, ba, ba.bitmap
    {
      && pool.Valid() && ba.Valid()
      && ba.base == LIBBASE && ba.size == LIBLAST - LIBBASE && ba.minAlloc == LIBINC && ba.numEntries == 256
      && ba.maxOrder == BuddyAllocator.OrderOf(LIBINC, LIBLAST - LIBBASE)
      && state.libs == View(pool.infos[..], pool.live) && state.blocks == ba.live && state.preloads == preloads
    }

    ghost function W(): World
      reads `state, `origin, `asked
    {
      World(state, origin, asked)
    }

    /** The invariant between public calls. */
    ghost predicate Rest()
      reads `state, `origin, `preloads, pool, pool.infos, ba, ba.bitmap
    {
      Shape() && Ok(state, {}) && Held(state, {}) && Sourced(state, origin)
    }

    /** The static state: libdl alone, with no references. */
    constructor (files: Files, answers: Answers)
      ensures Rest() && fresh(pool) && fresh(pool.infos) && fresh(ba) && fresh(ba.bitmap)
      ensures state.libs.Keys == {LIBDL} && somain == NULL && state.handles == multiset{} && state.preloads == []
      ensures this.files == files && this.answers == answers && asked == 0
    {
      this.files, this.answers, asked, origin := files, answers, 0, map[];
      pool := new Pool();
      ba := new BuddyAllocator.BuddyAllocator(LIBBASE, LIBLAST - LIBBASE, LIBINC, 256, 0);
      somain, preloads := NULL, [];
      new;
      state := State(View(pool.infos[..], pool.live), multiset{}, [], map[LIBDL := 0], 1, map[], map[]);
      Unfold();
      assert state.libs.Keys == {LIBDL};
      InitialKeeps(state);
      SourcedParts(state, origin);
    }

    // ----- Small steps

    /** Changes parts of the abstract state that describe nothing in the pool or the allocator. */
    ghost method Restate(t: State)
      requires Shape() && t.libs == state.libs && t.blocks == state.blocks && t.preloads == state.preloads
      modifies `state
      ensures Shape() && state == t
    {
      Unfold();
      state := t;
      Unfold();
    }

    lemma At(u: nat)
      requires Shape() && u in state.libs
      ensures u in pool.live && u < pool.infos.Length && state.libs[u] == pool.infos[u].(next := NULL)
    {
      Unfold();
    }

    /** Overwrites a live soinfo, except for its list pointer. */
    method Put(u: nat, info: Soinfo)
      requires Shape() && u in state.libs
      modifies `state, pool.infos
      ensures Shape() && state == WithLib(old(state), u, info.(next := NULL))
    {
      At(u);
      Unfold();
      var info' := info.(next := pool.infos[u].next);
      ghost var libs := View(pool.infos[..], pool.live)[u := info.(next := NULL)];
      assert View(pool.infos[..][u := info'], pool.live) == libs by {
        ViewPut(pool.infos[..], pool.live, u, info');
      }
      pool.Put(u, info');
      state := WithLib(state, u, info.(next := NULL));
      Unfold();
    }

    method Forget(si: nat)
      requires Shape() && si in state.libs && si != LIBDL
      modifies `state, pool, pool.infos
      ensures Shape() && state == old(state).(libs := old(state).libs - {si})
      ensures |pool.live| == |old(pool.live)| - 1
    {
      Unfold();
      pool.FreeInfo(si);
      ghost var k :| 0 < k < |old(pool.live)| && old(pool.live)[k] == si && pool.live == Without(old(pool.live), k);
      ViewWithout(old(pool.infos[..]), pool.infos[..], old(pool.live), k);
      state := state.(libs := state.libs - {si});
      assert state.libs == View(pool.infos[..], pool.live);
      Unfold();
    }

    /** Gives the block of `si`, if it has one, back to the buddy allocator.  The cell behind the bitmap is taken
        not to look like a free entry of the largest order. */
    method ReleaseBlock(si: nat)
      requires Shape() && si in state.libs && si != LIBDL && (state.libs[si].baIndex >= 0 ==> state.libs[si].baIndex in state.blocks)
      modifies `state, ba, ba.bitmap
      ensures Shape()
      ensures var b := old(state).libs[si].baIndex; state == if b >= 0 then TakenBack(old(state), b) else old(state)
    {
      Unfold();
      At(si);
      if pool.infos[si].baIndex >= 0 {
        var _, _ := ba.Free(pool.infos[si].baIndex, BuddyBlocks.Bits(0, true));
        state := TakenBack(state, pool.infos[si].baIndex);
      }
      Unfold();
    }

    // ----- Loading

    /** A request to the system. */
    method Ask() returns (yes: bool)
      modifies `asked
      ensures asked == old(asked) + 1 && yes == Yes(answers, old(asked))
    {
      yes := Yes(answers, asked);
      asked := asked + 1;
    }

    /** A block of the buddy allocator that holds `size` bytes. */
    method TakeBlock(size: nat) returns (index: int, ghost order: nat)
      requires Shape() && size < WORD
      modifies `state, ba, ba.bitmap
      ensures Shape()
      ensures index < 0 <==> NoBlock(old(state).blocks, size)
      ensures index < 0 ==> state == old(state)
      ensures index >= 0 ==> index !in old(state).blocks && size <= Pow2(order) * LIBINC
                             && state == old(state).(blocks := old(state).blocks[index := order])
    {
      Unfold();
      order := 0;
      NoBlockIs(ba.live, size);
      if BuddyAllocator.OrderOf(LIBINC, size) > ba.maxOrder {
        TooLarge(ba.live, BuddyAllocator.OrderOf(LIBINC, size));
      }
      index := ba.Allocate(size);
      if index >= 0 {
        order := ba.live[index];
        state := state.(blocks := state.blocks[index := order]);
      }
      Unfold();
    }

    /** Asks the buddy allocator for a block that holds `si`. */
    method GrantBlock(si: nat) returns (index: int)
      requires Shape() && si in state.libs && state.libs[si].size < WORD
      modifies `state, pool.infos, ba, ba.bitmap
      ensures Shape()
      ensures index < 0 <==> NoBlock(old(state).blocks, old(state).libs[si].size)
      ensures index < 0 ==> state == old(state)
      ensures index >= 0 ==> index in state.blocks && index !in old(state).blocks
                             && state == Granted(old(state), si, index, state.blocks[index])
                             && state.libs[si].size <= Pow2(state.blocks[index]) * LIBINC
    {
      At(si);
      ghost var order: nat;
      index, order := TakeBlock(pool.infos[si].size);
      if index >= 0 {
        Unfold();
        var info := pool.infos[si].(baIndex := index, base := ba.StartAddr(index));
        assert info.(next := NULL) == state.libs[si].(baIndex := index, base := index * LIBINC + LIBBASE);
        Restate(state.(owner := state.owner[index := si]));
        Put(si, info);
      }
    }

    /** `alloc_mem_region` for the library `si` just taken from the pool: a prelinked library
        keeps its base, any other gets a buddy block. */
    method AllocMemRegion(si: nat, image: Image, ghost s: State, ghost info: Soinfo) returns (ok: bool)
      requires Shape() && si != LIBDL && s.owner.Keys == s.blocks.Keys
      requires info == Fresh(info.name).(base := image.reqBase, size := image.size)
      requires si !in s.libs && state == WithLib(s, si, info)
      modifies `state, `asked, pool.infos, ba, ba.bitmap
      ensures Shape() && asked == (if NoRoom(s, image) then old(asked) else old(asked) + 1)
      ensures ok <==> !NoRoom(s, image) && Yes(answers, old(asked))
      ensures ok ==> Placed(s, state, si, info.name) && MappedAs(state.libs[si], image)
      ensures !ok ==> si in state.libs && state == WithLib(s, si, state.libs[si])
    {
      At(si);
      if pool.infos[si].base != 0 {
        ok := Ask();
        return;
      }
      var index := GrantBlock(si);
      if index < 0 {
        return false;
      }
      ghost var order := state.blocks[index];
      GrantedPlaced(s, si, info, index, order);
      ok := Ask();
      if !ok {
        ReturnBlock(si, index, order, s, info);
      }
    }

    /** The failure path of `alloc_mem_region`. */
    method ReturnBlock(si: nat, index: nat, ghost order: nat, ghost s: State, ghost info: Soinfo)
      requires Shape() && si != LIBDL && index in state.blocks && s.owner.Keys == s.blocks.Keys && index !in s.blocks
      requires state == Granted(WithLib(s, si, info), si, index, order)
      modifies `state, pool.infos, ba, ba.bitmap
      ensures Shape() && si in state.libs && state == WithLib(s, si, state.libs[si])
    {
      At(si);
      TakenBackAll(s, si, info, state.libs[si].(baIndex := -1, base := 0), index, order);
      ReleaseBlock(si);
      Put(si, pool.infos[si].(baIndex := -1, base := 0));
    }

    /** Reserves the region of the new library `si` and maps its segments; on failure
        everything `si` took is given back. */
    method Place(si: nat, image: Image, ghost s: State, ghost bname: string) returns (ok: bool)
      requires Shape() && si != LIBDL && s.owner.Keys == s.blocks.Keys
      requires si !in s.libs && state == WithLib(s, si, Fresh(bname))
      modifies `state, `asked, pool, pool.infos, ba, ba.bitmap
      ensures Shape() && old(asked) <= asked <= old(asked) + 2
      ensures ok <==> !NoRoom(s, image) && Yes(answers, old(asked)) && Yes(answers, old(asked) + 1)
      ensures ok ==> Placed(s, state, si, bname) && MappedAs(state.libs[si], image) && asked == old(asked) + 2
      ensures !ok && Given(answers, old(asked), asked) ==> NoRoom(s, image)
      ensures !ok ==> state == s && |pool.live| == |old(pool.live)| - 1
      ensures ok ==> pool.live == old(pool.live)
    {
      At(si);
      ghost var info := Fresh(bname).(base := image.reqBase, size := image.size);
      Put(si, pool.infos[si].(base := image.reqBase, size := image.size));
      Overwritten(s, si, Fresh(bname), info);
      ok := AllocMemRegion(si, image, s, info);
      if !ok {
        Forgotten(s, si, state.libs[si]);
        Forget(si);
        return;
      }
      ok := Ask();
      if !ok {
        Undo(si, s, bname);
      }
    }

    /** The failure path of `load_library`: region and entry are given back. */
    method Undo(si: nat, ghost s: State, ghost bname: string)
      requires Shape() && si != LIBDL && Placed(s, state, si, bname) && s.owner.Keys == s.blocks.Keys
      modifies `state, pool, pool.infos, ba, ba.bitmap
      ensures Shape() && state == s && |pool.live| == |old(pool.live)| - 1
    {
      At(si);
      Undone(s, state, si, bname, state.libs[si].(baIndex := -1));
      ReleaseBlock(si);
      Put(si, pool.infos[si].(baIndex := -1));
      Forget(si);
    }

    /** The list has as many entries as there are libraries. */
    lemma Slots()
      requires Shape()
      ensures |state.libs.Keys| == |pool.live| <= SO_MAX + 1
    {
      Unfold();
      Room();
      DistinctCard(pool.live);
      assert state.libs.Keys == Elems(pool.live);
    }

    /** `alloc_info` */
    method NewInfo(name: string) returns (si: int)
      requires Shape()
      modifies `state, pool, pool.infos
      ensures Shape() && (si < 0 <==> |name| >= 128 || NoSlot(old(state)))
      ensures si < 0 ==> si == NULL && state == old(state) && |pool.live| == |old(pool.live)|
      ensures si >= 0 ==> si < SO_MAX && si !in old(state).libs && state == WithLib(old(state), si, Fresh(name))
                          && |pool.live| == |old(pool.live)| + 1
    {
      Slots();
      Unfold();
      si := pool.AllocInfo(name);
      if si >= 0 {
        ViewAppend(old(pool.infos[..]), pool.infos[..], old(pool.live), si);
        state := WithLib(state, si, Fresh(name));
      }
      Unfold();
    }

    method SetNeeded(si: nat, names: seq<Needed>)
      requires Shape() && si in state.libs
      modifies `state, pool.infos
      ensures Shape() && state == WithLib(old(state), si, old(state).libs[si].(needed := names))
    {
      At(si);
      Put(si, pool.infos[si].(needed := names));
    }

    /** `load_library` on the state alone, for a file that could be opened. */
    method MapLibrary(name: string, image: Image) returns (si: int)
      requires Shape() && state.owner.Keys == state.blocks.Keys
      modifies `state, `asked, pool, pool.infos, ba, ba.bitmap
      ensures Shape() && old(asked) <= asked <= old(asked) + 3
      ensures si < 0 ==> state == old(state) && |pool.live| == |old(pool.live)|
      ensures si < 0 && Given(answers, old(asked), asked) ==>
                |Basename(name)| >= 128 || NoSlot(old(state)) || NoRoom(old(state), image)
      ensures si >= 0 ==> si < SO_MAX && asked == old(asked) + 3 && |pool.live| == |old(pool.live)| + 1
      ensures si >= 0 ==> Entering(old(state), state, si, name, image) && Given(answers, old(asked), asked)
      ensures si >= 0 ==> |Basename(name)| < 128 && !NoSlot(old(state)) && !NoRoom(old(state), image)
    {
      ghost var s := state;
      var readable := Ask();
      if !readable {
        return NULL;
      }
      si := NewInfo(Basename(name));
      if si < 0 {
        return;
      }
      var ok := Place(si, image, s, Basename(name));
      if !ok {
        return NULL;
      }
      GivenThree(answers, old(asked));
      PlacedEntering(s, state, si, name, image);
      SetNeeded(si, AsNames(image.needed));
    }

    /** `load_library` */
    method LoadLibrary(name: string) returns (si: int)
      requires Rest() && forall u :: u in state.libs ==> state.libs[u].name != Basename(name)
      modifies `state, `asked, `origin, pool, pool.infos, ba, ba.bitmap
      ensures Rest() && old(asked) <= asked
      ensures si >= 0 <==> CanLoad(files, answers, old(asked), old(state), name)
      ensures si < 0 ==> state == old(state) && |pool.live| == |old(pool.live)| && origin == old(origin)
      ensures si < 0 && Given(answers, old(asked), asked) ==> CannotLoad(files, old(state), name)
      ensures si >= 0 ==> si < SO_MAX && Entering(old(state), state, si, name, Open(files, name).value)
                          && Grows(old(state), state) && |pool.live| == |old(pool.live)| + 1
      ensures si >= 0 ==> Loaded(files, answers, old(W()), W(), si, name)
    {
      if Open(files, name).None? {
        return NULL;
      }
      ghost var s := state;
      OwnersAre(s);
      GivenThree(answers, asked);
      var image := Open(files, name).value;
      si := MapLibrary(name, image);
      if si >= 0 {
        EnteringKeeps(s, state, si, origin, name, image);
        origin := origin[si := Source(name, image)];
      }
    }

    // ----- Linking

    /** `find_library` for a name.  A library already on the list is returned as it is, or refused
        if its link failed or has not finished; any other is loaded and linked. */
    method FindLibrary(name: string) returns (r: int)
      requires Rest()
      modifies `state, `preloads, `origin, `asked, pool, pool.infos, ba, ba.bitmap
      ensures Shape() && Found(old(state), state, r, Basename(name)) && |pool.live| >= |old(pool.live)|
      ensures Known(old(state), Basename(name)) ==> state == old(state) && (r < 0 ==> Refused(state, Basename(name)))
      ensures Ends(files, answers, old(W()), W(), r >= 0, Unfound(files, state, name))
      ensures !Known(old(state), Basename(name)) && r >= 0 ==> ReadFrom(files, origin, r, name)
      decreases SO_MAX + 1 - |pool.live|, 1
    {
      Unfold();
      r := pool.Find(Basename(name));
      if r >= 0 {
        At(r);
        EndsKnown(files, answers, W(), pool.infos[r].linked && !pool.infos[r].error, name);
        if pool.infos[r].error {
          return NULL;
        }
        if pool.infos[r].linked {
          return;
        }
        return NULL;
      }
      NotKnown(pool.infos[..], pool.live, Basename(name));
      r := LoadAndLink(name);
    }

    /** The rest of `find_library`: `load_library`, then `init_library`. */
    method LoadAndLink(name: string) returns (r: int)
      requires Rest() && forall u :: u in state.libs ==> state.libs[u].name != Basename(name)
      modifies `state, `preloads, `origin, `asked, pool, pool.infos, ba, ba.bitmap
      ensures Shape() && Found(old(state), state, r, Basename(name)) && |pool.live| >= |old(pool.live)|
      ensures Ends(files, answers, old(W()), W(), r >= 0, Unfound(files, state, name))
      ensures r >= 0 ==> ReadFrom(files, origin, r, name)
      decreases SO_MAX + 1 - |pool.live|, 0
    {
      ghost var w := W();
      Room();
      r := LoadLibrary(name);
      if r < 0 {
        EndsUnloaded(files, answers, w, asked, name);
        return NULL;
      }
      ghost var w1 := W();
      var ok := LinkImage(r, []);
      LinkedFound(w.s, w1.s, state, r, ok, Basename(name));
      EndsLoaded(files, answers, w, w1, W(), r, ok, name);
      if !ok {
        return NULL;
      }
    }

    /** `link_image`; the preloads belong to the executable's link. */
    method LinkImage(si: nat, ldpreloads: seq<string>) returns (ok: bool)
      requires Rest() && Unlinked(state, si) && (state.libs[si].exe ==> state.preloads == [])
      modifies `state, `preloads, `origin, `asked, pool, pool.infos, ba, ba.bitmap
      ensures Shape() && LinkEnds(old(state), state, si, ok) && |pool.live| >= |old(pool.live)|
      ensures ok && state.libs[si].exe ==> Preloaded(state.libs, state.preloads, ldpreloads)
      ensures Ends(files, answers, old(W()), W(), ok, LinkLacks(files, state, si, ldpreloads))
      decreases SO_MAX + 1 - |pool.live|, 5
    {
      ghost var w := W();
      ok := PatchImage(si, ldpreloads);
      ghost var w1 := W();
      EndStep(w.s, w1.s, si, ok);
      EndsLink(files, answers, w, w1, si, ok, ldpreloads);
      if ok {
        EndPreloaded(state, si, state.preloads, ldpreloads);
        MarkLinked(si);
      } else {
        MarkFailed(si);
      }
    }

    /** FLAG_LINKED */
    method MarkLinked(si: nat)
      requires Shape() && si in state.libs
      modifies `state, pool.infos
      ensures Shape() && state == Finished(old(state), si)
    {
      At(si);
      ghost var s := state;
      var info := pool.infos[si].(linked := true);
      assert info.(next := NULL) == s.libs[si].(linked := true);
      Restate(s.(stamp := s.stamp[si := s.clock], clock := s.clock + 1));
      Put(si, info);
    }

    /** FLAG_ERROR */
    method MarkFailed(si: nat)
      requires Shape() && si in state.libs
      modifies `state, pool.infos
      ensures Shape() && state == WithLib(old(state), si, old(state).libs[si].(error := true))
    {
      At(si);
      ghost var s := state;
      var info := pool.infos[si].(error := true);
      assert info.(next := NULL) == s.libs[si].(error := true);
      Put(si, info);
    }

    /** `lsi->refcount++` */
    method Raise(r: nat)
      requires Shape() && r in state.libs
      modifies `state, pool.infos
      ensures Shape() && state == Raised(old(state), r)
    {
      At(r);
      var info := pool.infos[r].(refcount := pool.infos[r].refcount + 1);
      assert info.(next := NULL) == state.libs[r].(refcount := state.libs[r].refcount + 1);
      ghost var s := state;
      Put(r, info);
      assert state == WithLib(s, r, info.(next := NULL));
      assert state == Raised(s, r);
    }

    method SetEntry(si: nat, k: nat, x: Needed)
      requires Shape() && si in state.libs && k < |state.libs[si].needed|
      modifies `state, pool.infos
      ensures Shape() && state == WithEntry(old(state), si, k, x)
    {
      At(si);
      Put(si, pool.infos[si].(needed := pool.infos[si].needed[k := x]));
    }

    method AddHandle(r: nat)
      requires Shape() && r in state.libs
      modifies `state, pool.infos
      ensures Shape() && state == Opened(old(state), r, false)
    {
      ghost var s := state;
      Restate(s.(handles := s.handles + multiset{r}));
      ghost var t := state;
      assert t == s.(handles := s.handles + multiset{r});
      Raise(r);
      RaiseRooted(s, t, r);
    }

    method AddPreload(r: nat)
      requires Shape() && r in state.libs
      modifies `state, `preloads, pool.infos
      ensures Shape() && state == Opened(old(state), r, true)
    {
      ghost var s := state;
      Unfold();
      preloads, state := preloads + [r], state.(preloads := state.preloads + [r]);
      Unfold();
      ghost var t := state;
      assert t == s.(preloads := s.preloads + [r]);
      Raise(r);
      RaiseRooted(s, t, r);
    }

    /** `d[1] = lsi`, then `lsi->refcount++` */
    method Patch(si: nat, k: nat, r: nat)
      requires Shape() && si in state.libs && r in state.libs && k < |state.libs[si].needed|
      modifies `state, pool.infos
      ensures Shape() && state == Patched(old(state), si, k, r)
    {
      SetEntry(si, k, Lib(r));
      Raise(r);
    }

    /** The live list is never longer than the pool, which bounds the depth of recursion. */
    lemma Room()
      requires Shape()
      ensures |pool.live| <= SO_MAX + 1
    {
      Unfold();
      Exhausted(pool.infos[..], pool.live, pool.free, pool.socount);
    }

    /** Everything in `link_image` up to the flag: tables, preloads, entries, relocation. */
    method PatchImage(si: nat, ldpreloads: seq<string>) returns (ok: bool)
      requires Rest() && Unlinked(state, si) && (state.libs[si].exe ==> state.preloads == [])
      modifies `state, `preloads, `origin, `asked, pool, pool.infos, ba, ba.bitmap
      ensures Shape() && Linking(old(state), state, si) && |pool.live| >= |old(pool.live)|
      ensures ok ==> Resolved(state.libs, old(state).libs[si].needed, state.libs[si].needed)
      ensures ok && state.libs[si].exe ==> Preloaded(state.libs, state.preloads, ldpreloads)
      ensures Ends(files, answers, old(W()), W(), ok, LinkLacks(files, state, si, ldpreloads))
      decreases SO_MAX + 1 - |pool.live|, 4
    {
      ghost var w := W();
      Room();
      At(si);
      EndsSame(files, answers, w, LinkLacks(files, state, si, ldpreloads));
      ok := AskMore(w, LinkLacks(files, state, si, ldpreloads));
      if !ok {
        return;
      }
      ok := PatchPreloads(si, ldpreloads, w);
      if !ok {
        return;
      }
      ghost var w2 := W();
      EndsSourced(files, answers, w, w2, true, LinkLacks(files, state, si, ldpreloads));
      ok := LinkNeeded(si);
      EndsNeeded(files, answers, w, w2, W(), si, ok, ldpreloads);
      LinkingTrans(w.s, w2.s, state, si);
      if ok && state.libs[si].exe {
        PreloadedGrows(w2.s, state, si, state.preloads, ldpreloads);
      }
      if ok {
        ok := AskMore(w, LinkLacks(files, state, si, ldpreloads));
      }
    }

    /** Only the executable has preloads. */
    method PatchPreloads(si: nat, ldpreloads: seq<string>, ghost w: World) returns (ok: bool)
      requires Rest() && Unlinked(state, si) && (state.libs[si].exe ==> state.preloads == []) && state == w.s
      requires Ends(files, answers, w, W(), true, LinkLacks(files, state, si, ldpreloads))
      modifies `state, `preloads, `origin, `asked, pool, pool.infos, ba, ba.bitmap
      ensures Shape() && Linking(w.s, state, si) && state.libs[si] == w.s.libs[si] && |pool.live| >= |old(pool.live)|
      ensures ok && state.libs[si].exe ==> Preloaded(state.libs, state.preloads, ldpreloads)
      ensures Ends(files, answers, w, W(), ok, LinkLacks(files, state, si, ldpreloads))
      decreases SO_MAX + 1 - |pool.live|, 3, 1
    {
      ok := true;
      At(si);
      Room();
      if pool.infos[si].exe {
        ghost var w1 := W();
        ok := LoadPreloads(si, ldpreloads);
        EndsPreloads(files, answers, w, w1, W(), si, ok, ldpreloads);
      }
    }

    /** A request on the way from `w`. */
    method AskMore(ghost w: World, ghost why: bool) returns (ok: bool)
      requires Shape() && Ends(files, answers, w, W(), true, why)
      modifies `asked
      ensures Shape() && Ends(files, answers, w, W(), ok, why)
    {
      EndsAsked(files, answers, w, W(), why);
      ok := Ask();
    }

    /** The preload loop of `link_image`. */
    method LoadPreloads(si: nat, names: seq<string>) returns (ok: bool)
      requires Rest() && Unlinked(state, si) && state.libs[si].exe && state.preloads == []
      modifies `state, `preloads, `origin, `asked, pool, pool.infos, ba, ba.bitmap
      ensures Shape() && PreloadingParts(old(state), state, si) && |pool.live| >= |old(pool.live)|
      ensures ok ==> Preloaded(state.libs, state.preloads, names)
      ensures Ends(files, answers, old(W()), W(), ok, LacksPreload(files, state, names))
      decreases SO_MAX + 1 - |pool.live|, 3, 0
    {
      ghost var w, done := W(), [];
      Room();
      PreloadStart(w.s, si);
      EndsSame(files, answers, w, false);
      for i := 0 to |names|
        invariant Shape() && Preloading(w.s, state, si, done) && |pool.live| >= |old(pool.live)| && done == names[..i]
        invariant Ends(files, answers, w, W(), true, false)
      {
        ghost var w1 := W();
        EndsSourced(files, answers, w, w1, true, false);
        ok := LoadPreload(si, names[i], w.s, done);
        EndsTrans(files, answers, w, w1, W(), ok, Unfound(files, state, names[i]));
        EndsBecause(files, answers, w, W(), ok, Unfound(files, state, names[i]), LacksPreload(files, state, names));
        if !ok {
          return;
        }
        EndsBecause(files, answers, w, W(), ok, LacksPreload(files, state, names), false);
        done := done + [names[i]];
      }
      PreloadingUnfold(w.s, state, si, done);
      EndsBecause(files, answers, w, W(), true, false, LacksPreload(files, state, names));
      return true;
    }

    /** One preload after those for `before`: find the library, record it, count the reference. */
    method LoadPreload(si: nat, name: string, ghost s0: State, ghost before: seq<string>) returns (ok: bool)
      requires Shape() && Preloading(s0, state, si, before) && Sourced(state, origin)
      modifies `state, `preloads, `origin, `asked, pool, pool.infos, ba, ba.bitmap
      ensures Shape() && |pool.live| >= |old(pool.live)|
      ensures if ok then Preloading(s0, state, si, before + [name]) else PreloadingParts(s0, state, si)
      ensures Ends(files, answers, old(W()), W(), ok, Unfound(files, state, name))
      decreases SO_MAX + 1 - |pool.live|, 2
    {
      ghost var w := W();
      Room();
      PreloadingUnfold(s0, w.s, si, before);
      var r := FindLibrary(name);
      if r < 0 {
        PreloadFails(s0, w.s, state, si, before, name);
        return false;
      }
      PreloadMore(s0, w.s, state, si, r, before, name);
      EndsOpened(files, answers, w, W(), r, true, Unfound(files, state, name), Unfound(files, Opened(state, r, true), name));
      AddPreload(r);
      return true;
    }

    /** One DT_NEEDED entry: find the library, patch the entry, count the reference. */
    method LinkEntry(si: nat, k: nat, ghost names: seq<Needed>) returns (ok: bool)
      requires Rest() && si in state.libs && !state.libs[si].linked && k < |names|
      requires PatchedUpTo(state.libs, names, state.libs[si].needed, k)
      modifies `state, `preloads, `origin, `asked, pool, pool.infos, ba, ba.bitmap
      ensures Shape() && Linking(old(state), state, si) && |pool.live| >= |old(pool.live)| && state.preloads == old(state).preloads
      ensures ok ==> PatchedUpTo(state.libs, names, state.libs[si].needed, k + 1)
      ensures Ends(files, answers, old(W()), W(), ok, Lacks(files, state, si))
      decreases SO_MAX + 1 - |pool.live|, 2
    {
      ghost var w := W();
      Room();
      At(si);
      var name := pool.infos[si].needed[k].name;
      var r := FindLibrary(name);
      FoundAround(w.s, state, r, Basename(name), si);
      EndsEntry(files, answers, w, W(), si, k, r, name);
      if r < 0 {
        return false;
      }
      PatchStep(w.s, state, si, k, r, names);
      Patch(si, k, r);
      return true;
    }

    /** The DT_NEEDED loop of `link_image`. */
    method LinkNeeded(si: nat) returns (ok: bool)
      requires Rest() && Unlinked(state, si)
      modifies `state, `preloads, `origin, `asked, pool, pool.infos, ba, ba.bitmap
      ensures Shape() && Linking(old(state), state, si) && |pool.live| >= |old(pool.live)|
      ensures ok ==> Resolved(state.libs, old(state).libs[si].needed, state.libs[si].needed)
      ensures state.preloads == old(state).preloads
      ensures Ends(files, answers, old(W()), W(), ok, Lacks(files, state, si))
      decreases SO_MAX + 1 - |pool.live|, 3
    {
      ghost var w := W();
      ghost var names := w.s.libs[si].needed;
      Room();
      At(si);
      var k := 0;
      EndsSame(files, answers, w, false);
      while k < |pool.infos[si].needed|
        invariant Shape() && Linking(w.s, state, si) && state.preloads == old(state).preloads && |pool.live| >= |old(pool.live)|
        invariant si < pool.infos.Length && state.libs[si] == pool.infos[si].(next := NULL)
        invariant k <= |names| && PatchedUpTo(state.libs, names, state.libs[si].needed, k)
        invariant Ends(files, answers, w, W(), true, false)
        decreases |names| - k
      {
        ghost var w1 := W();
        EndsSourced(files, answers, w, w1, true, false);
        ok := LinkEntry(si, k, names);
        LinkingTrans(w.s, w1.s, state, si);
        EndsTrans(files, answers, w, w1, W(), ok, Lacks(files, state, si));
        if !ok {
          return false;
        }
        EndsBecause(files, answers, w, W(), true, Lacks(files, state, si), false);
        At(si);
        k := k + 1;
      }
      EndsBecause(files, answers, w, W(), true, false, Lacks(files, state, si));
      ok := true;
    }

    // ----- The executable

    /** The main program is linked and `dlopen(NULL)` finds it. */
    ghost predicate Running()
      reads this, pool, pool.infos, ba, ba.bitmap
    {
      Rest() && Settled(state) && somain >= 0 && Main(state, somain)
    }

    /** The part of `__linker_init` that enters the executable and links it; on failure the process exits.  It
        fails only for a long name, a refusal of the system, or a needed or preloaded library that is not found. */
    method Start(argv0: string, needed: seq<string>, ldpreloads: seq<string>) returns (ok: bool)
      requires Rest() && state.libs.Keys == {LIBDL} && state.preloads == []
      modifies this, pool, pool.infos, ba, ba.bitmap
      ensures files == old(files)
      ensures ok ==> Running() && state.libs[somain].name == argv0 && Given(answers, old(asked), asked)
      ensures ok ==> Resolved(state.libs, AsNames(needed), state.libs[somain].needed) && Preloaded(state.libs, state.preloads, ldpreloads)
      ensures ok ==> forall u :: u in state.libs && u != LIBDL && u != somain ==>
                       state.libs[u].linked && u in origin && ReadFrom(files, origin, u, origin[u].path)
      ensures !ok && Given(answers, old(asked), asked) ==>
                |argv0| >= 128 || LacksPreload(files, state, needed) || LacksPreload(files, state, ldpreloads)
    {
      var si := LinkMain(argv0, needed, ldpreloads);
      ok := si >= 0;
      if ok {
        ghost var t := state;
        somain := si;
        assert state == t;
      }
    }

    method LinkMain(argv0: string, needed: seq<string>, ldpreloads: seq<string>) returns (si: int)
      requires Rest() && state.libs.Keys == {LIBDL} && state.preloads == []
      modifies `state, `preloads, `origin, `asked, pool, pool.infos, ba, ba.bitmap
      ensures si >= 0 ==> Rest() && Settled(state) && Main(state, si) && state.libs[si].name == argv0
      ensures si >= 0 ==> Resolved(state.libs, AsNames(needed), state.libs[si].needed) && Preloaded(state.libs, state.preloads, ldpreloads)
      ensures si >= 0 ==> Given(answers, old(asked), asked)
      ensures si >= 0 ==> forall u :: u in state.libs && u != LIBDL && u != si ==>
                            state.libs[u].linked && u in origin && ReadFrom(files, origin, u, origin[u].path)
      ensures si < 0 && Given(answers, old(asked), asked) ==>
                |argv0| >= 128 || LacksPreload(files, state, needed) || LacksPreload(files, state, ldpreloads)
    {
      ghost var s := state;
      assert |s.libs.Keys| == 1;
      si := Enter(argv0, needed);
      if si < 0 {
        return NULL;
      }
      ghost var w := W();
      EnterKeeps(s, w.s, si, argv0, needed);
      SourcedEnter(s, si, w.s.libs[si], origin);
      ghost var main: nat := si;
      var ok := LinkImage(si, ldpreloads);
      StartEnds(files, answers, w, W(), main, ok, needed, ldpreloads);
      if !ok {
        return NULL;
      }
      ExeHeld(w.s, state, si);
      StartSettled(w.s, state, si);
    }

    /** `alloc_info` and the fields set for the executable. */
    method Enter(argv0: string, needed: seq<string>) returns (si: int)
      requires Shape()
      modifies `state, pool, pool.infos
      ensures Shape() && (si < 0 <==> |argv0| >= 128 || NoSlot(old(state)))
      ensures si >= 0 ==> si < SO_MAX && si !in old(state).libs && Entered(old(state), state, si, argv0, needed)
    {
      si := NewInfo(argv0);
      if si >= 0 {
        var info := Fresh(argv0).(exe := true, refcount := 1, needed := AsNames(needed));
        Overwritten(old(state), si, Fresh(argv0), info);
        Put(si, info);
      }
    }

    // ----- dlopen and dlclose

    /** `dlopen`; `None` is the null file name.  A library that was not on the list is read from its file, and its
        entries are the libraries that file names.  If the system refuses nothing, the call fails only if the
        library is not found. */
    method Dlopen(filename: Option<string>) returns (r: int)
      requires Running()
      modifies this, pool, pool.infos, ba, ba.bitmap
      ensures Running() && GrowsOpen(old(state), state, r) && files == old(files)
      ensures somain == old(somain) && (filename.None? ==> r == somain)
      ensures r >= 0 ==> state.libs[r].linked && (filename.Some? ==> state.libs[r].name == Basename(filename.value))
      ensures filename.Some? && Known(old(state), Basename(filename.value)) && r < 0
              ==> state == old(state) && Refused(state, Basename(filename.value))
      ensures filename.Some? ==> Ends(files, answers, old(W()), W(), r >= 0, Unfound(files, state, filename.value))
      ensures filename.Some? && !Known(old(state), Basename(filename.value)) && r >= 0 ==>
                Open(files, filename.value).Some? && LinkedFrom(state.libs, r, Open(files, filename.value).value)
    {
      match filename {
        case None =>
          r := OpenMain();
        case Some(name) =>
          r := OpenName(name);
      }
    }

    method OpenMain() returns (r: int)
      requires Running()
      modifies `state, pool.infos
      ensures Running() && r == somain && GrowsOpen(old(state), state, r)
    {
      r := somain;
      OpenStep(state, state, r, somain);
      SourcedOpen(state, r, false, origin);
      AddHandle(r);
    }

    /** `dlopen` of a name: the search, then the handle. */
    method OpenName(name: string) returns (r: int)
      requires Running()
      modifies `state, `preloads, `origin, `asked, pool, pool.infos, ba, ba.bitmap
      ensures Running() && GrowsOpen(old(state), state, r)
      ensures r >= 0 ==> state.libs[r].linked && state.libs[r].name == Basename(name)
      ensures Known(old(state), Basename(name)) && r < 0 ==> state == old(state) && Refused(state, Basename(name))
      ensures Ends(files, answers, old(W()), W(), r >= 0, Unfound(files, state, name))
      ensures !Known(old(state), Basename(name)) && r >= 0 ==>
                Open(files, name).Some? && LinkedFrom(state.libs, r, Open(files, name).value)
    {
      ghost var w := W();
      r := FindLibrary(name);
      HandedKeeps(w.s, state, r, Basename(name), somain);
      HandedEnds(files, answers, w, W(), r, name);
      if r >= 0 {
        AddHandle(r);
      }
    }

    /** `unload_library`.  The static libdl has no dynamic section, so the source dereferences the
        null pointer when its count falls to zero; `fault` reports that, and libdl is left in place. */
    method Unload(si: nat, ghost dying: set<nat>) returns (fault: bool)
      requires Shape() && UnloadPre(state, si, dying)
      modifies `state, pool, pool.infos, ba, ba.bitmap
      ensures Shape() && Unloaded(old(state), state, si, dying, fault)
      decreases state.stamp[si]
    {
      At(si);
      if pool.infos[si].refcount != 1 || si == LIBDL {
        LowerStep(state, si, dying);
        fault := pool.infos[si].refcount == 1;
        Lower(si);
      } else {
        fault := DropNeeded(si, dying);
        ghost var s := state;
        DropEnd(old(state), s, si, dying, |s.libs[si].needed|, fault);
        BlockLive(s, si, dying + {si});
        Remove(si);
      }
    }

    /** The loop of `unload_library` over the DT_NEEDED entries. */
    method DropNeeded(si: nat, ghost dying: set<nat>) returns (fault: bool)
      requires Shape() && UnloadPre(state, si, dying) && state.libs[si].refcount == 1 && si != LIBDL
      modifies `state, pool, pool.infos, ba, ba.bitmap
      ensures Shape() && si in state.libs && Dropping(old(state), state, si, dying, |state.libs[si].needed|)
      ensures fault <==> old(state).libs[LIBDL].refcount > 0 && state.libs[LIBDL].refcount == 0
      decreases state.stamp[si], 1
    {
      ghost var s := state;
      fault := false;
      DropStart(s, si, dying);
      At(si);
      var k := 0;
      while k < |pool.infos[si].needed|
        invariant Shape() && Dropping(s, state, si, dying, k) && k <= |state.libs[si].needed|
        invariant si < pool.infos.Length && state.libs[si] == pool.infos[si].(next := NULL)
        invariant fault <==> s.libs[LIBDL].refcount > 0 && state.libs[LIBDL].refcount == 0
        decreases |s.libs[si].needed| - k
      {
        var f := DropOne(si, k, s, dying);
        fault := fault || f;
        At(si);
        k := k + 1;
      }
    }

    /** One entry: forget the pointer, then unload the library it led to. */
    method DropOne(si: nat, k: nat, ghost s0: State, ghost dying: set<nat>) returns (fault: bool)
      requires Shape() && Dropping(s0, state, si, dying, k) && k < |state.libs[si].needed|
      modifies `state, pool, pool.infos, ba, ba.bitmap
      ensures Shape() && Dropping(s0, state, si, dying, k + 1)
      ensures fault <==> old(state).libs[LIBDL].refcount > 0 && state.libs[LIBDL].refcount == 0
      ensures state.libs[LIBDL].refcount <= old(state).libs[LIBDL].refcount
      decreases state.stamp[si], 0
    {
      ghost var s := state;
      At(si);
      var x := pool.infos[si].needed[k];
      if x.Lib? {
        DropEntry(s, si, dying, k, x.id);
        SetEntry(si, k, Dropped);
        fault := Unload(x.id, dying + {si});
        DropStep(s0, s, state, si, dying, k, x.id, fault);
      } else {
        DropSkip(s0, s, si, dying, k);
        fault := false;
      }
    }

    /** `si->refcount--` */
    method Lower(si: nat)
      requires Shape() && si in state.libs && state.libs[si].refcount > 0
      modifies `state, pool.infos
      ensures Shape() && state == Lowered(old(state), si)
    {
      At(si);
      var info := pool.infos[si].(refcount := pool.infos[si].refcount - 1);
      assert info.(next := NULL) == state.libs[si].(refcount := state.libs[si].refcount - 1);
      Put(si, info);
    }

    /** Gives back the block and the soinfo of `si`. */
    method Remove(si: nat)
      requires Shape() && si in state.libs && si != LIBDL && (state.libs[si].baIndex >= 0 ==> state.libs[si].baIndex in state.blocks)
      modifies `state, pool, pool.infos, ba, ba.bitmap
      ensures Shape() && state == Removed(old(state), si)
    {
      Restate(state.(stamp := state.stamp - {si}));
      ReleaseBlock(si);
      Forget(si);
    }

    /** `dlclose` of a handle the caller holds. */
    method Dlclose(h: nat) returns (fault: bool)
      requires Running() && h in state.handles
      modifies this, pool, pool.infos, ba, ba.bitmap
      ensures Running() && state.handles == old(state).handles - multiset{h} && state.preloads == old(state).preloads && files == old(files)
      ensures forall v: nat :: v in state.libs <==> v == LIBDL || Reachable(old(state).libs, RootsWithout(old(state), h), v)
      ensures forall u :: u in state.libs ==> u in old(state).libs && ShrinksAt(old(state).libs[u], state.libs[u])
      ensures fault <==> Reachable(old(state).libs, Roots(old(state)), LIBDL)
                         && !Reachable(old(state).libs, RootsWithout(old(state), h), LIBDL)
    {
      ghost var s, m: nat := state, somain;
      DropHandle(h);
      fault := Unload(h, {});
      Closed(s, state, h, fault, m);
      SourcedShrinks(s, state, origin);
    }

    ghost method DropHandle(h: nat)
      requires Rest() && h in state.handles
      modifies `state
      ensures Shape() && UnloadPre(state, h, {}) && state == old(state).(handles := old(state).handles - multiset{h})
    {
      CloseStart(state, h);
      Restate(state.(handles := state.handles - multiset{h}));
    }
  }
}
