/** How writing one table entry changes the walk of every address. */
module PageWalks {
  import opened Options
  import opened MemoryTypes
  import opened PageTables

  // The table that the walk of `v` meets at level `target`.
  function TableFor(frames: Frames, t: nat, level: nat, v: nat, target: nat): Option<nat>
    requires 1 <= target <= level <= 4
    decreases level
  {
    if target == level then Some(t)
    else if t !in frames || |frames[t]| != TABLE_SIZE then None
    else
      var e := frames[t][Index(level, v)];
      if e.Absent? || IsLeaf(level, e) then None
      else TableFor(frames, e.addr, level - 1, v, target)
  }

  // The flags of the entries that lead there.
  function Above(frames: Frames, t: nat, level: nat, v: nat, target: nat): seq<Flags>
    requires 1 <= target <= level <= 4
    decreases level
  {
    if target == level || t !in frames || |frames[t]| != TABLE_SIZE then []
    else
      var e := frames[t][Index(level, v)];
      if e.Absent? || IsLeaf(level, e) then [] else [e.flags] + Above(frames, e.addr, level - 1, v, target)
  }

  function UnderAll(above: seq<Flags>, r: Option<Hit>): Option<Hit> {
    if above == [] then r else Under(above[0], UnderAll(above[1..], r))
  }

  // A table on the walk of `v`.
  ghost predicate Serves(places: map<nat, Place>, t: nat, level: nat, v: nat)
  {
    1 <= level <= 4 && t in places && places[t].level == level && places[t].prefix == Prefix(level, v)
  }

  lemma RootServes(places: map<nat, Place>, frames: Frames, kernel: nat, t: nat, v: nat)
    requires Placed(frames, places, kernel) && t in places && places[t].level == 4
    ensures Serves(places, t, 4, v)
  {
    assert TableOk(frames, places, kernel, t);
  }

  // One step down.
  lemma StepServes(frames: Frames, places: map<nat, Place>, kernel: nat, t: nat, level: nat, v: nat)
    requires Placed(frames, places, kernel) && Serves(places, t, level, v)
    ensures t in frames && |frames[t]| == TABLE_SIZE
    ensures var e := frames[t][Index(level, v)];
      e.Present? ==>
        (IsLeaf(level, e) <==> level == 1 || e.ps) && (!IsLeaf(level, e) ==> Serves(places, e.addr, level - 1, v))
  {
    assert TableOk(frames, places, kernel, t);
    var i := Index(level, v);
    assert EntryOk(places, kernel, t, i, frames[t][i]);
    if level > 1 {
      PrefixStep(level, v);
    }
  }

  lemma {:induction false} FoundServes(frames: Frames, places: map<nat, Place>, kernel: nat, t: nat, level: nat,
      v: nat, target: nat)
    requires Placed(frames, places, kernel) && Serves(places, t, level, v) && 1 <= target <= level
    ensures var u := TableFor(frames, t, level, v, target); u.Some? ==> Serves(places, u.value, target, v)
    decreases level
  {
    if target < level {
      StepServes(frames, places, kernel, t, level, v);
      var e := frames[t][Index(level, v)];
      if e.Present? && !IsLeaf(level, e) {
        FoundServes(frames, places, kernel, e.addr, level - 1, v, target);
      }
    }
  }

  // From the table found on, the walk is the same, with the rights along the way to it.
  lemma {:induction false} WalkFrom(frames: Frames, t: nat, level: nat, v: nat, target: nat)
    requires 1 <= target <= level <= 4
    ensures var u := TableFor(frames, t, level, v, target);
      u.Some? ==>
        Walk(frames, t, level, v) == UnderAll(Above(frames, t, level, v, target), Walk(frames, u.value, target, v))
    decreases level
  {
    if target < level && t in frames && |frames[t]| == TABLE_SIZE {
      var e := frames[t][Index(level, v)];
      if e.Present? && !IsLeaf(level, e) {
        WalkFrom(frames, e.addr, level - 1, v, target);
      }
    }
  }

  // The entries that the walk of `v` can meet, at `low` and above, are the same.
  ghost predicate SameOnPath(frames: Frames, frames': Frames, places: map<nat, Place>, v: nat, low: nat) {
    forall u, level :: Serves(places, u, level, v) && low <= level ==>
      u in frames && u in frames' && |frames'[u]| == |frames[u]| == TABLE_SIZE
      && frames'[u][Index(level, v)] == frames[u][Index(level, v)]
  }

  lemma {:induction false} WalkSame(frames: Frames, frames': Frames, places: map<nat, Place>, kernel: nat, t: nat,
      level: nat, v: nat)
    requires Placed(frames, places, kernel) && Serves(places, t, level, v)
    requires SameOnPath(frames, frames', places, v, 1)
    ensures Walk(frames', t, level, v) == Walk(frames, t, level, v)
    decreases level
  {
    StepServes(frames, places, kernel, t, level, v);
    var e := frames[t][Index(level, v)];
    assert frames'[t][Index(level, v)] == e;
    if e.Present? && !IsLeaf(level, e) {
      WalkSame(frames, frames', places, kernel, e.addr, level - 1, v);
    }
  }

  lemma {:induction false} FoundSame(frames: Frames, frames': Frames, places: map<nat, Place>, kernel: nat, t: nat,
      level: nat, v: nat, target: nat)
    requires Placed(frames, places, kernel) && Serves(places, t, level, v) && 1 <= target <= level
    requires SameOnPath(frames, frames', places, v, target + 1)
    ensures TableFor(frames', t, level, v, target) == TableFor(frames, t, level, v, target)
    ensures Above(frames', t, level, v, target) == Above(frames, t, level, v, target)
    decreases level
  {
    if target < level {
      StepServes(frames, places, kernel, t, level, v);
      var e := frames[t][Index(level, v)];
      assert frames'[t][Index(level, v)] == e;
      if e.Present? && !IsLeaf(level, e) {
        FoundSame(frames, frames', places, kernel, e.addr, level - 1, v, target);
      }
    }
  }

  // Addresses of one page meet the same table.
  lemma {:induction false} FoundForPage(frames: Frames, t: nat, level: nat, v: nat, w: nat, target: nat)
    requires 1 <= target <= level <= 4
    requires forall l :: target < l <= 4 ==> Index(l, v) == Index(l, w)
    ensures TableFor(frames, t, level, v, target) == TableFor(frames, t, level, w, target)
    ensures Above(frames, t, level, v, target) == Above(frames, t, level, w, target)
    decreases level
  {
    if target < level && t in frames && |frames[t]| == TABLE_SIZE {
      var e := frames[t][Index(level, v)];
      if e.Present? && !IsLeaf(level, e) {
        FoundForPage(frames, e.addr, level - 1, v, w, target);
      }
    }
  }

  lemma {:induction false} SamePageIndices(target: nat, v: nat, w: nat)
    requires 1 <= target <= 4 && Page(target, v) == Page(target, w)
    ensures forall l :: target <= l <= 4 ==> Index(l, v) == Index(l, w)
    ensures forall l :: target <= l <= 4 ==> Page(l, v) == Page(l, w)
    decreases 4 - target
  {
    PageIs(target, v);
    PageIs(target, w);
    if target < 4 {
      SamePageAbove(target, v, w);
      SamePageIndices(target + 1, v, w);
    }
  }

  function SetEntry(frames: Frames, t: nat, i: nat, e: Entry): Frames
    requires t in frames && i < |frames[t]|
  {
    frames[t := frames[t][i := e]]
  }

  // The entry of `t` that the walk of `w` meets lies on the walk of `v` only if both
  // are in the same page.
  lemma SetOffPath(frames: Frames, places: map<nat, Place>, kernel: nat, t: nat, level: nat, w: nat, e: Entry, v: nat)
    requires Placed(frames, places, kernel) && Serves(places, t, level, w)
    requires Page(level, v) != Page(level, w)
    requires t in frames && |frames[t]| == TABLE_SIZE
    ensures SameOnPath(frames, SetEntry(frames, t, Index(level, w), e), places, v, 1)
  {
    var frames' := SetEntry(frames, t, Index(level, w), e);
    PageIs(level, v);
    PageIs(level, w);
    forall u, l | Serves(places, u, l, v)
      ensures u in frames && u in frames' && |frames'[u]| == |frames[u]| == TABLE_SIZE
      ensures frames'[u][Index(l, v)] == frames[u][Index(l, v)]
    {
      StepServes(frames, places, kernel, u, l, v);
    }
  }

  lemma SetBelow(frames: Frames, places: map<nat, Place>, kernel: nat, t: nat, level: nat, i: nat, e: Entry, v: nat)
    requires Placed(frames, places, kernel)
    requires t in places && places[t].level == level && t in frames && i < |frames[t]|
    ensures SameOnPath(frames, SetEntry(frames, t, i, e), places, v, level + 1)
  {
    var frames' := SetEntry(frames, t, i, e);
    forall u, l | Serves(places, u, l, v) && level + 1 <= l
      ensures u in frames && u in frames' && |frames'[u]| == |frames[u]| == TABLE_SIZE
      ensures frames'[u][Index(l, v)] == frames[u][Index(l, v)]
    {
      StepServes(frames, places, kernel, u, l, v);
    }
  }

  /** Writing a final entry, or clearing one, changes the walk of exactly the addresses
      of its page, to what the entry says under the rights along the way. */
  lemma WalkAfterSet(frames: Frames, places: map<nat, Place>, kernel: nat, root: nat, w: nat, level: nat, t: nat,
      e: Entry, v: nat)
    requires Placed(frames, places, kernel) && root in places && places[root].level == 4
    requires 1 <= level <= 3 && TableFor(frames, root, 4, w, level) == Some(t)
    requires e.Present? ==> (e.ps <==> level > 1)
    ensures t in frames && |frames[t]| == TABLE_SIZE
    ensures Walk(SetEntry(frames, t, Index(level, w), e), root, 4, v) ==
      if Page(level, v) != Page(level, w) then Walk(frames, root, 4, v)
      else if e.Absent? then None
      else UnderAll(Above(frames, root, 4, w, level), Some(LeafHit(level, e, v)))
  {
    RootServes(places, frames, kernel, root, w);
    RootServes(places, frames, kernel, root, v);
    FoundServes(frames, places, kernel, root, 4, w, level);
    StepServes(frames, places, kernel, t, level, w);
    var frames' := SetEntry(frames, t, Index(level, w), e);
    hide *;
    if Page(level, v) != Page(level, w) {
      SetOffPath(frames, places, kernel, t, level, w, e, v);
      WalkSame(frames, frames', places, kernel, root, 4, v);
    } else {
      SamePageIndices(level, v, w);
      FoundForPage(frames, root, 4, v, w, level);
      ServesLevel(places, t, level, w);
      SetBelow(frames, places, kernel, t, level, Index(level, w), e, v);
      FoundSame(frames, frames', places, kernel, root, 4, v, level);
      WalkFrom(frames', root, 4, v, level);
      WalkAtSet(frames, t, level, w, e, v);
      NoneUnder(Above(frames, root, 4, w, level));
    }
  }

  lemma {:induction false} NoneUnder(above: seq<Flags>)
    ensures UnderAll(above, None) == None
  {
    if above != [] {
      NoneUnder(above[1..]);
    }
  }

  lemma ServesLevel(places: map<nat, Place>, t: nat, level: nat, v: nat)
    requires Serves(places, t, level, v)
    ensures t in places && places[t].level == level
  {
  }

  lemma WalkAtSet(frames: Frames, t: nat, level: nat, w: nat, e: Entry, v: nat)
    requires t in frames && |frames[t]| == TABLE_SIZE && 1 <= level <= 3
    requires Index(level, v) == Index(level, w) && (e.Present? ==> (e.ps <==> level > 1))
    ensures Walk(SetEntry(frames, t, Index(level, w), e), t, level, v) ==
      if e.Absent? then None else Some(LeafHit(level, e, v))
  {
  }

  // ----- what keeps every table in its place -----

  lemma PlacedAfterSet(frames: Frames, places: map<nat, Place>, kernel: nat, t: nat, i: nat, e: Entry)
    requires Placed(frames, places, kernel) && t in places && t in frames && i < |frames[t]|
    requires EntryOk(places, kernel, t, i, e)
    ensures Placed(SetEntry(frames, t, i, e), places, kernel)
  {
    var frames' := SetEntry(frames, t, i, e);
    forall u | u in places
      ensures TableOk(frames', places, kernel, u)
    {
      assert TableOk(frames, places, kernel, u);
      forall j | 0 <= j < TABLE_SIZE
        ensures EntryOk(places, kernel, u, j, frames'[u][j])
      {
        assert EntryOk(places, kernel, u, j, frames[u][j]);
      }
    }
  }

  const ZERO_TABLE: seq<Entry> := seq(TABLE_SIZE, _ => Absent)

  // A fresh, zeroed table takes a place of its own.
  lemma PlacedWithFresh(frames: Frames, places: map<nat, Place>, kernel: nat, f: nat, place: Place)
    requires Placed(frames, places, kernel) && f !in places
    requires 1 <= place.level <= 4 && (place.level == 4 ==> place.prefix == 0)
    ensures Placed(frames[f := ZERO_TABLE], places[f := place], kernel)
  {
    var frames', places' := frames[f := ZERO_TABLE], places[f := place];
    forall u | u in places'
      ensures TableOk(frames', places', kernel, u)
    {
      if u != f {
        assert TableOk(frames, places, kernel, u);
        forall j | 0 <= j < TABLE_SIZE
          ensures EntryOk(places', kernel, u, j, frames'[u][j])
        {
          assert EntryOk(places, kernel, u, j, frames[u][j]);
        }
      }
    }
  }

  lemma FreshOffPath(frames: Frames, places: map<nat, Place>, kernel: nat, f: nat, table: seq<Entry>, v: nat)
    requires Placed(frames, places, kernel) && f !in places
    ensures SameOnPath(frames, frames[f := table], places, v, 1)
  {
    forall u, l | Serves(places, u, l, v)
      ensures u in frames && |frames[u]| == TABLE_SIZE && u != f
    {
      StepServes(frames, places, kernel, u, l, v);
    }
  }

  /** Linking a zeroed table where nothing was changes no walk at all. */
  lemma WalkAfterLink(frames: Frames, places: map<nat, Place>, kernel: nat, root: nat, w: nat, level: nat, t: nat,
      f: nat, flags: Flags, v: nat)
    requires Placed(frames, places, kernel) && root in places && places[root].level == 4
    requires 2 <= level <= 4 && Serves(places, t, level, w) && f !in places
    requires t in frames && |frames[t]| == TABLE_SIZE && frames[t][Index(level, w)] == Absent
    ensures Walk(SetEntry(frames[f := ZERO_TABLE], t, Index(level, w), Present(f, false, flags)), root, 4, v) ==
      Walk(frames, root, 4, v)
  {
    var g := frames[f := ZERO_TABLE];
    RootServes(places, frames, kernel, root, v);
    FreshOffPath(frames, places, kernel, f, ZERO_TABLE, v);
    WalkSame(frames, g, places, kernel, root, 4, v);
    PlacedIgnoresFresh(frames, places, kernel, f, ZERO_TABLE);
    assert g[t][Index(level, w)] == Absent && g[f] == ZERO_TABLE;
    ServesNot(places, t, level, w, f);
    hide *;
    LinkKeepsWalk(g, places, kernel, root, 4, w, level, t, f, flags, v);
  }

  lemma ServesNot(places: map<nat, Place>, t: nat, level: nat, w: nat, f: nat)
    requires Serves(places, t, level, w) && f !in places
    ensures t != f
  {
  }

  lemma PlacedIgnoresFresh(frames: Frames, places: map<nat, Place>, kernel: nat, f: nat, table: seq<Entry>)
    requires Placed(frames, places, kernel) && f !in places
    ensures Placed(frames[f := table], places, kernel)
  {
    forall u | u in places
      ensures TableOk(frames[f := table], places, kernel, u)
    {
      assert TableOk(frames, places, kernel, u);
    }
  }

  lemma {:induction false} LinkKeepsWalk(frames: Frames, places: map<nat, Place>, kernel: nat, u: nat, l: nat, w: nat,
      level: nat, t: nat, f: nat, flags: Flags, v: nat)
    requires Placed(frames, places, kernel) && Serves(places, u, l, v)
    requires 2 <= level <= 4 && Serves(places, t, level, w)
    requires f != t && f in frames && frames[f] == ZERO_TABLE
    requires t in frames && |frames[t]| == TABLE_SIZE && frames[t][Index(level, w)] == Absent
    ensures Walk(SetEntry(frames, t, Index(level, w), Present(f, false, flags)), u, l, v) == Walk(frames, u, l, v)
    decreases l
  {
    StepServes(frames, places, kernel, u, l, v);
    var e := frames[u][Index(l, v)];
    if e.Present? && !IsLeaf(l, e) {
      LinkKeepsWalk(frames, places, kernel, e.addr, l - 1, w, level, t, f, flags, v);
    }
  }
}
