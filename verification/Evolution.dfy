/** What operations of one address space leave alone in all the others. */
module Evolution {
  import opened Options
  import opened MemoryTypes
  import opened PageTables
  import opened PageWalks
  import opened Translation

  // From one state of the tables to a later one, by operations of `owner`: tables of
  // others are as they were, new tables are its own, and present entries of top-level tables
  // stay. The top slot is touched only if `top`, and then filled only with a table of its own.
  ghost predicate TableKept(frames: Frames, frames': Frames, place: Place, t: nat, owner: nat, top: bool) {
    && t in frames && t in frames' && |frames[t]| == |frames'[t]| == TABLE_SIZE
    && (place.owner != owner ==> frames'[t] == frames[t])
    && (place.level == 4 ==>
      forall i :: 0 <= i < TABLE_SIZE && (frames[t][i].Present? || (i == KERNEL_PML4 && !top)) ==>
          frames'[t][i] == frames[t][i])
  }

  // What a top slot holds is as before, or a table of `owner`.
  ghost predicate SlotKept(frames: Frames, frames': Frames, places': map<nat, Place>, t: nat, owner: nat) {
    t in frames && t in frames' && |frames[t]| == |frames'[t]| == TABLE_SIZE ==>
      var e := frames'[t][KERNEL_PML4];
      frames[t][KERNEL_PML4] == e || (e.Present? && e.addr in places' && places'[e.addr].owner == owner)
  }

  ghost predicate Evolves(frames: Frames, places: map<nat, Place>, frames': Frames, places': map<nat, Place>,
      owner: nat, top: bool)
  {
    && (forall t :: t in places ==>
      t in places' && places'[t] == places[t] && TableKept(frames, frames', places[t], t, owner, top))
    && (forall t :: t in places' && t !in places ==> places'[t].owner == owner)
    && (forall t :: t in places && places[t].level == 4 ==> SlotKept(frames, frames', places', t, owner))
  }

  lemma EvolvesTrans(f1: Frames, p1: map<nat, Place>, f2: Frames, p2: map<nat, Place>, f3: Frames, p3: map<nat, Place>,
      owner: nat, top: bool)
    requires Evolves(f1, p1, f2, p2, owner, top) && Evolves(f2, p2, f3, p3, owner, top)
    ensures Evolves(f1, p1, f3, p3, owner, top)
  {
    forall t | t in p1
      ensures t in p3 && p3[t] == p1[t] && TableKept(f1, f3, p1[t], t, owner, top)
      ensures p1[t].level == 4 ==> SlotKept(f1, f3, p3, t, owner)
    {
      assert TableKept(f1, f2, p1[t], t, owner, top) && TableKept(f2, f3, p2[t], t, owner, top);
      assert p1[t].level == 4 ==> SlotKept(f1, f2, p2, t, owner) && SlotKept(f2, f3, p3, t, owner);
    }
  }

  // Who leaves the top slot alone does so in particular when free to touch it.
  lemma EvolvesMore(f1: Frames, p1: map<nat, Place>, f2: Frames, p2: map<nat, Place>, owner: nat, top: bool)
    requires Evolves(f1, p1, f2, p2, owner, top)
    ensures Evolves(f1, p1, f2, p2, owner, true)
  {
    forall t | t in p1
      ensures TableKept(f1, f2, p1[t], t, owner, true)
    {
      assert TableKept(f1, f2, p1[t], t, owner, top);
    }
  }

  lemma EvolvesNot(frames: Frames, places: map<nat, Place>, kernel: nat, owner: nat, top: bool)
    requires Placed(frames, places, kernel)
    ensures Evolves(frames, places, frames, places, owner, top)
  {
    forall t | t in places
      ensures TableKept(frames, frames, places[t], t, owner, top)
    {
      assert TableOk(frames, places, kernel, t);
    }
  }

  // Setting an entry of one's own: below the top level any entry, at the top level
  // one that was absent.
  lemma EvolvesBySet(frames: Frames, places: map<nat, Place>, kernel: nat, owner: nat, top: bool, t: nat, i: nat,
      e: Entry)
    requires Placed(frames, places, kernel) && t in places && places[t].owner == owner
    requires t in frames && i < |frames[t]|
    requires places[t].level == 4 ==> frames[t][i] == Absent && (top || i != KERNEL_PML4)
    requires places[t].level == 4 && i == KERNEL_PML4 ==>
      e.Present? && e.addr in places && places[e.addr].owner == owner
    ensures Evolves(frames, places, SetEntry(frames, t, i, e), places, owner, top)
  {
    forall u | u in places
      ensures TableKept(frames, SetEntry(frames, t, i, e), places[u], u, owner, top)
    {
      assert TableOk(frames, places, kernel, u);
    }
  }

  lemma EvolvesByFresh(frames: Frames, places: map<nat, Place>, kernel: nat, owner: nat, top: bool, f: nat,
      place: Place)
    requires Placed(frames, places, kernel) && f !in places && place.owner == owner
    ensures Evolves(frames, places, frames[f := ZERO_TABLE], places[f := place], owner, top)
  {
    forall u | u in places
      ensures TableKept(frames, frames[f := ZERO_TABLE], places[u], u, owner, top)
    {
      assert TableOk(frames, places, kernel, u);
    }
  }

  // The tables of everyone but `owner` are as they were.
  ghost predicate KeepsOthers(frames: Frames, places: map<nat, Place>, frames': Frames, owner: nat) {
    forall t :: t in places && places[t].owner != owner ==> t in frames && t in frames' && frames'[t] == frames[t]
  }

  lemma KeepsByEvolving(frames: Frames, places: map<nat, Place>, frames': Frames, places': map<nat, Place>, owner: nat,
      top: bool)
    requires Evolves(frames, places, frames', places', owner, top)
    ensures KeepsOthers(frames, places, frames', owner)
  {
    forall t | t in places && places[t].owner != owner
      ensures t in frames && t in frames' && frames'[t] == frames[t]
    {
      assert TableKept(frames, frames', places[t], t, owner, top);
    }
  }

  /** Nothing that another address space does to its own tables changes the walk of an
      address that is one's own. */
  lemma {:induction false} OthersKeepWalk(frames: Frames, places: map<nat, Place>, frames': Frames, kernel: nat,
      owner: nat, t: nat, level: nat, v: nat)
    requires Placed(frames, places, kernel) && KeepsOthers(frames, places, frames', owner)
    requires Serves(places, t, level, v) && places[t].owner != owner
    requires level == 4 && places[t].owner != kernel ==> Index(4, v) != KERNEL_PML4
    ensures Walk(frames', t, level, v) == Walk(frames, t, level, v)
    decreases level
  {
    StepServes(frames, places, kernel, t, level, v);
    var e := frames[t][Index(level, v)];
    assert EntryOk(places, kernel, t, Index(level, v), e) by { assert TableOk(frames, places, kernel, t); }
    if e.Present? && !IsLeaf(level, e) {
      OthersKeepWalk(frames, places, frames', kernel, owner, e.addr, level - 1, v);
    }
  }

  // A user's top-level table holds the kernel's top entry, and that is present.
  predicate SharesKernel(frames: Frames, user: nat, kernel: nat) {
    && user in frames && kernel in frames && |frames[user]| == |frames[kernel]| == TABLE_SIZE
    && frames[user][KERNEL_PML4].Present? && frames[user][KERNEL_PML4] == frames[kernel][KERNEL_PML4]
  }

  // The same, or neither has anything there.
  predicate SameSlot(frames: Frames, user: nat, kernel: nat) {
    && user in frames && kernel in frames && |frames[user]| == |frames[kernel]| == TABLE_SIZE
    && frames[user][KERNEL_PML4] == frames[kernel][KERNEL_PML4]
  }

  // What the top slot of a user may hold: nothing, the kernel's entry, or a table of its own.
  ghost predicate SlotOk(frames: Frames, places: map<nat, Place>, user: nat, kernel: nat) {
    && user in frames && kernel in frames && |frames[user]| == |frames[kernel]| == TABLE_SIZE
    && var e := frames[user][KERNEL_PML4];
       e.Absent? || e == frames[kernel][KERNEL_PML4] || (e.addr in places && places[e.addr].owner == user)
  }

  // Who sees what the kernel maps.
  predicate Shares(frames: Frames, root: nat, kernel: nat) {
    root == kernel || SharesKernel(frames, root, kernel)
  }

  lemma SameSlotKept(frames: Frames, places: map<nat, Place>, frames': Frames, places': map<nat, Place>, owner: nat,
      top: bool, user: nat, kernel: nat)
    requires Evolves(frames, places, frames', places', owner, top)
    requires SameSlot(frames, user, kernel) && (top ==> SharesKernel(frames, user, kernel))
    requires user in places && places[user].level == 4 && kernel in places && places[kernel].level == 4
    ensures SameSlot(frames', user, kernel) && kernel in places' && places'[kernel] == places[kernel]
  {
    assert TableKept(frames, frames', places[user], user, owner, top);
    assert TableKept(frames, frames', places[kernel], kernel, owner, top);
  }

  /** Copying the slot before the kernel has mapped anything shares nothing: the copy
      stays absent when the kernel's entry appears. */
  lemma SharesExactlyWhenPresent(frames: Frames, places: map<nat, Place>, frames': Frames, places': map<nat, Place>,
      user: nat, kernel: nat)
    requires Evolves(frames, places, frames', places', kernel, true)
    requires user in places && places[user].level == 4 && places[user].owner == user && user != kernel
    requires kernel in places && places[kernel].level == 4
    requires frames[user][KERNEL_PML4] == frames[kernel][KERNEL_PML4] && frames'[kernel][KERNEL_PML4].Present?
    ensures SharesKernel(frames', user, kernel) <==> frames[kernel][KERNEL_PML4].Present?
  {
    assert TableKept(frames, frames', places[user], user, kernel, true);
    assert TableKept(frames, frames', places[kernel], kernel, kernel, true);
  }

  // The top-level table that a user's address space is born with.
  function BornWith(e: Entry): seq<Entry> {
    seq(TABLE_SIZE, i => if i == KERNEL_PML4 then e else Absent)
  }

  // The tables of an address space translate its own addresses by `maps`, and the
  // kernel's as the kernel's do.
  ghost predicate TablesOk(frames: Frames, places: map<nat, Place>, kernel: nat, pml4: nat, isKernel: bool,
      maps: map<Item, nat>)
  {
    && Translates(frames, pml4, isKernel, maps)
    && (!isKernel ==> kernel in places && places[kernel] == Place(4, 0, kernel) && SameSlot(frames, pml4, kernel))
  }

  /** What one address space maps or unmaps changes no other, but for the kernel's first mapping,
      which a user born before it does not see. */
  lemma OthersUndisturbed(f0: Frames, p0: map<nat, Place>, f1: Frames, p1: map<nat, Place>, kernel: nat, actor: nat,
      top: bool, pml4: nat, isKernel: bool, maps: map<Item, nat>)
    requires Placed(f0, p0, kernel) && Evolves(f0, p0, f1, p1, actor, top)
    requires pml4 in p0 && p0[pml4] == Place(4, 0, pml4) && isKernel == (pml4 == kernel) && actor != pml4
    requires TablesOk(f0, p0, kernel, pml4, isKernel, maps)
    requires top && !isKernel ==> SharesKernel(f0, pml4, kernel)
    ensures TablesOk(f1, p1, kernel, pml4, isKernel, maps)
  {
    KeepsByEvolving(f0, p0, f1, p1, actor, top);
    forall v: nat | OwnAddress(isKernel, v)
      ensures Translated(f1, pml4, maps, v)
    {
      RootServes(p0, f0, kernel, pml4, v);
      OthersKeepWalk(f0, p0, f1, kernel, actor, pml4, 4, v);
      assert Translated(f0, pml4, maps, v);
    }
    if !isKernel {
      SameSlotKept(f0, p0, f1, p1, actor, top, pml4, kernel);
    }
  }

  // What is left when everything of one owner is gone.
  ghost function WithoutOwner(places: map<nat, Place>, owner: nat): map<nat, Place> {
    map t | t in places && places[t].owner != owner :: places[t]
  }

  lemma KernelTable(frames: Frames, places: map<nat, Place>, kernel: nat)
    requires Placed(frames, places, kernel) && kernel in places
    ensures kernel in frames && |frames[kernel]| == TABLE_SIZE
  {
    assert TableOk(frames, places, kernel, kernel);
  }

  lemma BornEmpty(frames: Frames, places: map<nat, Place>, kernel: nat, pml4: nat, isKernel: bool)
    requires pml4 in frames && |frames[pml4]| == TABLE_SIZE
    requires forall i :: 0 <= i < TABLE_SIZE && (isKernel || i != KERNEL_PML4) ==> frames[pml4][i] == Absent
    ensures Translates(frames, pml4, isKernel, map[])
  {
  }

  // A new user's top-level table, with the entry it is born with.
  lemma Birth(f0: Frames, p0: map<nat, Place>, kernel: nat, r: nat)
    requires Placed(f0, p0, kernel) && kernel in p0 && p0[kernel] == Place(4, 0, kernel) && r !in p0
    requires kernel in f0 && |f0[kernel]| == TABLE_SIZE
    ensures var f1, p1 := f0[r := ZERO_TABLE], p0[r := Place(4, 0, r)];
      var e := f0[kernel][KERNEL_PML4];
      var f2 := SetEntry(f1, r, KERNEL_PML4, e);
      && f1[kernel] == f0[kernel] && f2 == f0[r := BornWith(e)]
      && Placed(f2, p1, kernel)
      && TablesOk(f2, p1, kernel, r, false, map[])
  {
    var f1, p1 := f0[r := ZERO_TABLE], p0[r := Place(4, 0, r)];
    var e := f0[kernel][KERNEL_PML4];
    PlacedWithFresh(f0, p0, kernel, r, Place(4, 0, r));
    assert EntryOk(p1, kernel, kernel, KERNEL_PML4, e) by { assert TableOk(f1, p1, kernel, kernel); }
    PlacedAfterSet(f1, p1, kernel, r, KERNEL_PML4, e);
    BornEmpty(SetEntry(f1, r, KERNEL_PML4, e), p1, kernel, r, false);
    assert ZERO_TABLE[KERNEL_PML4 := e] == BornWith(e);
    hide Placed, Translates;
  }

  lemma MappedAll(f0: Frames, p0: map<nat, Place>, f1: Frames, p1: map<nat, Place>, pml4: nat, kernel: nat,
      isKernel: bool, maps: map<Item, nat>, item: Item, phys: nat)
    requires TablesOk(f0, p0, kernel, pml4, isKernel, maps) && Fresh(maps, isKernel, item, phys)
    requires Extended(f0, f1, pml4, isKernel, item, phys, item.addr + item.length)
    requires Evolves(f0, p0, f1, p1, pml4, isKernel) && pml4 in p0 && p0[pml4] == Place(4, 0, pml4)
    ensures TablesOk(f1, p1, kernel, pml4, isKernel, maps[item := phys])
  {
    TranslatesMore(f0, f1, pml4, isKernel, maps, item, phys);
    if !isKernel {
      SameSlotKept(f0, p0, f1, p1, pml4, isKernel, pml4, kernel);
    }
  }

  // Whose tables serve an address: a shared top slot leads into the kernel's.
  function Owner(frames: Frames, root: nat, kernel: nat, v: nat): nat {
    if Index(4, v) == KERNEL_PML4 && Shares(frames, root, kernel) then kernel else root
  }

  // `root` is the top-level table of the kernel, or of a user.
  ghost predicate Rooted(frames: Frames, places: map<nat, Place>, kernel: nat, root: nat) {
    && Placed(frames, places, kernel)
    && kernel in places && places[kernel] == Place(4, 0, kernel)
    && root in places && places[root] == Place(4, 0, root)
    && (root != kernel ==> SlotOk(frames, places, root, kernel))
  }

  lemma {:induction false} OwnerBelow(frames: Frames, places: map<nat, Place>, kernel: nat, t: nat, level: nat,
      v: nat, target: nat)
    requires Placed(frames, places, kernel) && Serves(places, t, level, v) && 1 <= target <= level <= 3
    ensures var u := TableFor(frames, t, level, v, target);
      u.Some? ==> u.value in places && places[u.value].owner == places[t].owner
    decreases level
  {
    if target < level {
      StepServes(frames, places, kernel, t, level, v);
      var e := frames[t][Index(level, v)];
      if e.Present? && !IsLeaf(level, e) {
        assert EntryOk(places, kernel, t, Index(level, v), e) by { assert TableOk(frames, places, kernel, t); }
        OwnerBelow(frames, places, kernel, e.addr, level - 1, v, target);
      }
    }
  }

  lemma ActorIs(frames: Frames, root: nat, kernel: nat, v: nat)
    ensures Owner(frames, root, kernel, v) == root || Owner(frames, root, kernel, v) == kernel
  {
  }

  lemma RootedIs(frames: Frames, places: map<nat, Place>, kernel: nat, root: nat)
    requires Rooted(frames, places, kernel, root)
    ensures Placed(frames, places, kernel)
    ensures kernel in places && places[kernel] == Place(4, 0, kernel)
    ensures root in places && places[root] == Place(4, 0, root)
    ensures root in frames && |frames[root]| == TABLE_SIZE && kernel in frames && |frames[kernel]| == TABLE_SIZE
    ensures root != kernel ==> SlotOk(frames, places, root, kernel)
    ensures Rooted(frames, places, kernel, kernel)
  {
    assert TableOk(frames, places, kernel, root) && TableOk(frames, places, kernel, kernel);
  }

  // The table that a present top entry leads to is of the owner that serves the address.
  lemma FirstOwner(frames: Frames, places: map<nat, Place>, kernel: nat, root: nat, v: nat)
    requires Rooted(frames, places, kernel, root)
    ensures root in frames && |frames[root]| == TABLE_SIZE
    ensures var e := frames[root][Index(4, v)];
      e.Present? ==> e.addr in places && places[e.addr].owner == Owner(frames, root, kernel, v)
  {
    assert TableOk(frames, places, kernel, root) && TableOk(frames, places, kernel, kernel);
    assert EntryOk(places, kernel, root, Index(4, v), frames[root][Index(4, v)]);
    assert EntryOk(places, kernel, kernel, KERNEL_PML4, frames[kernel][KERNEL_PML4]);
  }

  // ----- what keeps every address space in its place -----

  // Who was an address space still is, and sees the kernel's part if it did.
  ghost predicate RootsKept(f0: Frames, p0: map<nat, Place>, f: Frames, p: map<nat, Place>, kernel: nat) {
    forall r :: Rooted(f0, p0, kernel, r) ==>
      Rooted(f, p, kernel, r) && (Shares(f, r, kernel) <==> Shares(f0, r, kernel))
  }

  lemma RootsKeptTrans(f0: Frames, p0: map<nat, Place>, f1: Frames, p1: map<nat, Place>, f2: Frames,
      p2: map<nat, Place>, kernel: nat)
    requires RootsKept(f0, p0, f1, p1, kernel) && RootsKept(f1, p1, f2, p2, kernel)
    ensures RootsKept(f0, p0, f2, p2, kernel)
  {
    hide Rooted, Shares;
  }

  lemma RootsKeptAt(f0: Frames, p0: map<nat, Place>, f: Frames, p: map<nat, Place>, kernel: nat, r: nat)
    requires RootsKept(f0, p0, f, p, kernel) && Rooted(f0, p0, kernel, r)
    ensures Rooted(f, p, kernel, r) && (Shares(f, r, kernel) <==> Shares(f0, r, kernel))
  {
    hide Rooted, Shares;
  }

  lemma RootsKeptNone(f: Frames, p: map<nat, Place>, kernel: nat)
    ensures RootsKept(f, p, f, p, kernel)
  {
    hide Rooted, Shares;
  }

  lemma RootsByEvolving(f: Frames, p: map<nat, Place>, f': Frames, p': map<nat, Place>, kernel: nat, owner: nat,
      top: bool)
    requires Evolves(f, p, f', p', owner, top) && Placed(f', p', kernel)
    ensures RootsKept(f, p, f', p', kernel)
  {
    hide *;
    forall r | Rooted(f, p, kernel, r)
      ensures Rooted(f', p', kernel, r) && (Shares(f', r, kernel) <==> Shares(f, r, kernel))
    {
      RootByEvolving(f, p, f', p', kernel, owner, top, r);
    }
    RootsKeptAll(f, p, f', p', kernel);
  }

  lemma RootsKeptAll(f0: Frames, p0: map<nat, Place>, f: Frames, p: map<nat, Place>, kernel: nat)
    requires forall r :: Rooted(f0, p0, kernel, r) ==>
      Rooted(f, p, kernel, r) && (Shares(f, r, kernel) <==> Shares(f0, r, kernel))
    ensures RootsKept(f0, p0, f, p, kernel)
  {
    hide Rooted, Shares;
  }

  lemma RootByEvolving(f: Frames, p: map<nat, Place>, f': Frames, p': map<nat, Place>, kernel: nat, owner: nat,
      top: bool, r: nat)
    requires Evolves(f, p, f', p', owner, top) && Placed(f', p', kernel) && Rooted(f, p, kernel, r)
    ensures Rooted(f', p', kernel, r) && (Shares(f', r, kernel) <==> Shares(f, r, kernel))
  {
    assert TableKept(f, f', p[r], r, owner, top) && TableKept(f, f', p[kernel], kernel, owner, top);
    assert SlotKept(f, f', p', r, owner) && SlotKept(f, f', p', kernel, owner);
    if r != kernel {
      KernelEntryOwner(f, p, kernel);
      KernelEntryOwner(f', p', kernel);
      var e := f[r][KERNEL_PML4];
      assert e.Present? && e.addr in p ==> p'[e.addr] == p[e.addr];
    }
    hide Placed;
  }

  lemma KernelEntryOwner(frames: Frames, places: map<nat, Place>, kernel: nat)
    requires Placed(frames, places, kernel) && kernel in places && places[kernel] == Place(4, 0, kernel)
    ensures kernel in frames && |frames[kernel]| == TABLE_SIZE
    ensures var e := frames[kernel][KERNEL_PML4];
      e.Present? ==> e.addr in places && places[e.addr].owner == kernel
  {
    assert TableOk(frames, places, kernel, kernel);
    assert EntryOk(places, kernel, kernel, KERNEL_PML4, frames[kernel][KERNEL_PML4]);
  }

  // ----- who sees what -----

  // What `root` maps or unmaps at `v` is seen by `r`.
  predicate Seen(frames: Frames, kernel: nat, root: nat, r: nat, v: nat) {
    r == root || (Index(4, v) == KERNEL_PML4 && Shares(frames, root, kernel) && Shares(frames, r, kernel))
  }

  lemma SeenKept(f0: Frames, f: Frames, kernel: nat, root: nat, r: nat, v: nat)
    requires Shares(f, root, kernel) <==> Shares(f0, root, kernel)
    requires Shares(f, r, kernel) <==> Shares(f0, r, kernel)
    ensures Seen(f, kernel, root, r, v) == Seen(f0, kernel, root, r, v)
  {
    hide Shares;
  }

  lemma SeenInPage(frames: Frames, kernel: nat, root: nat, r: nat, level: nat, v: nat, x: nat)
    requires 1 <= level <= 4 && Page(level, x) == Page(level, v)
    ensures Seen(frames, kernel, root, r, x) == Seen(frames, kernel, root, r, v)
  {
    SamePageIndices(level, x, v);
    hide Shares;
  }

  /** A final entry that `root` writes or clears on its way to `w` changes, for every address
      space, the addresses of that page if it sees them, and no others. */
  lemma SetSeen(frames: Frames, places: map<nat, Place>, kernel: nat, root: nat, r: nat, w: nat, level: nat, t: nat,
      e: Entry, x: nat)
    requires Rooted(frames, places, kernel, root) && Rooted(frames, places, kernel, r)
    requires 1 <= level <= 3 && TableFor(frames, root, 4, w, level) == Some(t)
    requires e.Present? ==> (e.ps <==> level > 1)
    ensures t in frames && |frames[t]| == TABLE_SIZE
    ensures Walk(SetEntry(frames, t, Index(level, w), e), r, 4, x) ==
      if Page(level, x) != Page(level, w) || !Seen(frames, kernel, root, r, w) then Walk(frames, r, 4, x)
      else if e.Absent? then None
      else UnderAll(Above(frames, root, 4, w, level), Some(LeafHit(level, e, x)))
  {
    hide *;
    RootedIs(frames, places, kernel, root);
    RootedIs(frames, places, kernel, r);
    WalkAfterSet(frames, places, kernel, root, w, level, t, e, w);
    if Page(level, x) != Page(level, w) {
      ElsewhereSame(frames, places, kernel, root, r, w, level, t, e, x);
    } else if Seen(frames, kernel, root, r, w) {
      SeenTable(frames, kernel, root, r, w, level);
      WalkAfterSet(frames, places, kernel, r, w, level, t, e, x);
    } else {
      UnseenSame(frames, places, kernel, root, r, w, level, t, e, x);
    }
  }

  lemma ElsewhereSame(frames: Frames, places: map<nat, Place>, kernel: nat, root: nat, r: nat, w: nat, level: nat,
      t: nat, e: Entry, x: nat)
    requires Placed(frames, places, kernel) && root in places && places[root].level == 4
    requires r in places && places[r].level == 4
    requires 1 <= level <= 3 && TableFor(frames, root, 4, w, level) == Some(t) && Page(level, x) != Page(level, w)
    requires t in frames && |frames[t]| == TABLE_SIZE
    ensures Walk(SetEntry(frames, t, Index(level, w), e), r, 4, x) == Walk(frames, r, 4, x)
  {
    hide *;
    RootServes(places, frames, kernel, root, w);
    RootServes(places, frames, kernel, r, x);
    FoundServes(frames, places, kernel, root, 4, w, level);
    SetOffPath(frames, places, kernel, t, level, w, e, x);
    WalkSame(frames, SetEntry(frames, t, Index(level, w), e), places, kernel, r, 4, x);
  }

  // Whoever sees an address meets the same table on the way.
  lemma SeenTable(frames: Frames, kernel: nat, root: nat, r: nat, w: nat, level: nat)
    requires Seen(frames, kernel, root, r, w) && 1 <= level <= 3
    ensures TableFor(frames, r, 4, w, level) == TableFor(frames, root, 4, w, level)
    ensures Above(frames, r, 4, w, level) == Above(frames, root, 4, w, level)
  {
  }

  // The table written to is of an owner whom `r` does not meet.
  lemma UnseenSame(frames: Frames, places: map<nat, Place>, kernel: nat, root: nat, r: nat, w: nat, level: nat,
      t: nat, e: Entry, x: nat)
    requires Rooted(frames, places, kernel, root) && Rooted(frames, places, kernel, r)
    requires 1 <= level <= 3 && TableFor(frames, root, 4, w, level) == Some(t) && Page(level, x) == Page(level, w)
    requires t in frames && |frames[t]| == TABLE_SIZE && !Seen(frames, kernel, root, r, w)
    ensures Walk(SetEntry(frames, t, Index(level, w), e), r, 4, x) == Walk(frames, r, 4, x)
  {
    var f := SetEntry(frames, t, Index(level, w), e);
    WrittenOwner(frames, places, kernel, root, w, level, t);
    FirstOwner(frames, places, kernel, r, x);
    SamePageIndices(level, x, w);
    UnseenOwner(frames, kernel, root, r, w, x);
    RootedIs(frames, places, kernel, r);
    RootServes(places, frames, kernel, r, x);
    StepServes(frames, places, kernel, r, 4, x);
    var owner := places[t].owner;
    assert KeepsOthers(frames, places, f, owner) by {
      forall u | u in places && places[u].owner != owner
        ensures u in frames && u in f && f[u] == frames[u]
      {
        assert TableOk(frames, places, kernel, u);
      }
    }
    var first := frames[r][Index(4, x)];
    assert f[r] == frames[r];
    hide Placed, Rooted, Seen, Shares, SlotOk, Owner, KeepsOthers;
    if first.Present? {
      OthersKeepWalk(frames, places, f, kernel, owner, first.addr, 3, x);
    }
  }

  lemma WrittenOwner(frames: Frames, places: map<nat, Place>, kernel: nat, root: nat, w: nat, level: nat, t: nat)
    requires Rooted(frames, places, kernel, root)
    requires 1 <= level <= 3 && TableFor(frames, root, 4, w, level) == Some(t)
    ensures t in places && places[t].owner == Owner(frames, root, kernel, w) && places[t].level == level
  {
    FirstOwner(frames, places, kernel, root, w);
    RootServes(places, frames, kernel, root, w);
    StepServes(frames, places, kernel, root, 4, w);
    FoundServes(frames, places, kernel, root, 4, w, level);
    hide Rooted, Placed, Owner;
    OwnerBelow(frames, places, kernel, frames[root][Index(4, w)].addr, 3, w, level);
  }

  lemma UnseenOwner(frames: Frames, kernel: nat, root: nat, r: nat, w: nat, x: nat)
    requires !Seen(frames, kernel, root, r, w) && Index(4, x) == Index(4, w)
    ensures Owner(frames, r, kernel, x) != Owner(frames, root, kernel, w)
  {
  }

  /** What is not met from a top-level table may change: the walk stays. */
  lemma RootKeepsWalk(frames: Frames, places: map<nat, Place>, frames': Frames, kernel: nat, owner: nat, r: nat,
      x: nat)
    requires Rooted(frames, places, kernel, r) && KeepsOthers(frames, places, frames', owner)
    requires r != owner && kernel != owner
    ensures Walk(frames', r, 4, x) == Walk(frames, r, 4, x)
  {
    FirstOwner(frames, places, kernel, r, x);
    RootedIs(frames, places, kernel, r);
    RootServes(places, frames, kernel, r, x);
    StepServes(frames, places, kernel, r, 4, x);
    assert places[r].owner == r && frames'[r] == frames[r];
    assert Owner(frames, r, kernel, x) != owner;
    var first := frames[r][Index(4, x)];
    hide Placed, Rooted, Shares, SlotOk, Owner, KeepsOthers;
    if first.Present? {
      OthersKeepWalk(frames, places, frames', kernel, owner, first.addr, 3, x);
    }
  }
}
