/** What every history of allocations and frees keeps, and what the heap promises
    when everything has been handed back. */
module HeapProofs {
  import opened Options
  import opened HeapSpec

  ghost predicate ListOk(base: nat, end: nat, free: seq<Block>, live: set<Block>) {
    && (forall i :: 0 <= i < |free| ==> Fits(base, end, free[i]))
    && (forall b :: b in live ==> 0 < b.size)
    && Ascending(free)
    && (forall i :: 0 <= i < |free| ==> ApartFrom(free[i], live))
  }

  function MergeOnce(free: seq<Block>, i: nat): seq<Block>
    requires i + 1 < |free|
  {
    free[..i] + [Block(free[i].addr, free[i].size + free[i + 1].size)] + free[i + 2..]
  }

  lemma MergeOnceKeeps(base: nat, end: nat, free: seq<Block>, live: set<Block>, i: nat)
    requires ListOk(base, end, free, live)
    requires i + 1 < |free| && free[i].End() == free[i + 1].addr
    ensures ListOk(base, end, MergeOnce(free, i), live)
  {
    var r := MergeOnce(free, i);
    assert r[i] == Block(free[i].addr, free[i].size + free[i + 1].size);
    assert forall j :: 0 <= j < i ==> r[j] == free[j];
    assert forall j :: i < j < |r| ==> r[j] == free[j + 1];
    hide MergeOnce;
    forall j | 0 <= j < |r|
      ensures Fits(base, end, r[j]) && ApartFrom(r[j], live)
    {
      if j == i {
        JoinedFits(base, end, free, live, i);
      } else {
        hide Fits, ApartFrom;
        assert r[j] == free[if j < i then j else j + 1];
      }
    }
    assert Ascending(r) by { hide Fits, ApartFrom; }
    hide Fits, ApartFrom, Ascending;
  }

  lemma JoinedFits(base: nat, end: nat, free: seq<Block>, live: set<Block>, i: nat)
    requires ListOk(base, end, free, live)
    requires i + 1 < |free| && free[i].End() == free[i + 1].addr
    ensures var b := Block(free[i].addr, free[i].size + free[i + 1].size);
      Fits(base, end, b) && ApartFrom(b, live)
  {
    var b := Block(free[i].addr, free[i].size + free[i + 1].size);
    assert Fits(base, end, free[i]) && Fits(base, end, free[i + 1]);
    assert ApartFrom(free[i], live) && ApartFrom(free[i + 1], live);
    forall c | c in live
      ensures Disjoint(b, c)
    {
      assert Disjoint(free[i], c) && Disjoint(free[i + 1], c);
    }
  }

  lemma MergeOnceCovers(free: seq<Block>, i: nat, a: nat)
    requires i + 1 < |free| && free[i].End() == free[i + 1].addr
    ensures InFree(MergeOnce(free, i), a) <==> InFree(free, a)
  {
    var r := MergeOnce(free, i);
    assert forall j :: 0 <= j < i ==> r[j] == free[j];
    assert forall j :: i < j < |r| ==> r[j] == free[j + 1];
    if InFree(free, a) {
      var j :| 0 <= j < |free| && free[j].Holds(a);
      assert r[if j <= i then j else j - 1].Holds(a);
    }
    if InFree(r, a) {
      var j :| 0 <= j < |r| && r[j].Holds(a);
      if j < i {
        assert free[j].Holds(a);
      } else if j > i {
        assert free[j + 1].Holds(a);
      } else {
        assert free[i].Holds(a) || free[i + 1].Holds(a);
      }
    }
  }

  /** Merging keeps a well-formed list well-formed over the same addresses, changes
      nothing before `i`, and leaves block `i` apart from its successor. */
  lemma {:induction false} MergeKeeps(base: nat, end: nat, free: seq<Block>, live: set<Block>, i: nat)
    requires ListOk(base, end, free, live) && i < |free|
    ensures var r := MergeAt(free, i);
      && ListOk(base, end, r, live)
      && i < |r|
      && r[..i] == free[..i]
      && r[i].addr == free[i].addr
      && (i + 1 < |r| ==> r[i].End() != r[i + 1].addr)
      && (forall a :: InFree(r, a) <==> InFree(free, a))
    decreases |free|
  {
    if i + 1 < |free| && free[i].End() == free[i + 1].addr {
      MergeOnceKeeps(base, end, free, live, i);
      MergeKeeps(base, end, MergeOnce(free, i), live, i);
      forall a
        ensures InFree(MergeOnce(free, i), a) <==> InFree(free, a)
      {
        MergeOnceCovers(free, i, a);
      }
    }
  }

  function Spliced(free: seq<Block>, b: Block): seq<Block> {
    var k := Below(free, b.addr);
    free[..k] + [b] + free[k..]
  }

  lemma SplicedAt(free: seq<Block>, b: Block, j: nat)
    requires j <= |free|
    ensures var k := Below(free, b.addr);
      Spliced(free, b)[j] == if j < k then free[j] else if j == k then b else free[j - 1]
  {
  }

  lemma SplicedKeeps(base: nat, end: nat, free: seq<Block>, live: set<Block>, b: Block)
    requires ListOk(base, end, free, live)
    requires Fits(base, end, b) && ApartFrom(b, live)
    requires forall i :: 0 <= i < |free| ==> Disjoint(b, free[i])
    ensures ListOk(base, end, Spliced(free, b), live)
  {
    var k, r := Below(free, b.addr), Spliced(free, b);
    forall i | 0 <= i < |r|
      ensures Fits(base, end, r[i]) && ApartFrom(r[i], live)
    {
      SplicedAt(free, b, i);
    }
    forall i, j | 0 <= i < j < |r|
      ensures r[i].End() <= r[j].addr
    {
      SplicedAt(free, b, i);
      SplicedAt(free, b, j);
    }
  }

  lemma SplicedCovers(free: seq<Block>, b: Block, a: nat)
    ensures InFree(Spliced(free, b), a) <==> InFree(free, a) || b.Holds(a)
  {
    var k, r := Below(free, b.addr), Spliced(free, b);
    SplicedAt(free, b, k);
    if InFree(free, a) {
      var j :| 0 <= j < |free| && free[j].Holds(a);
      SplicedAt(free, b, if j < k then j else j + 1);
      assert r[if j < k then j else j + 1].Holds(a);
    }
    if InFree(r, a) {
      var j :| 0 <= j < |r| && r[j].Holds(a);
      SplicedAt(free, b, j);
    }
    assert b.Holds(a) ==> r[k].Holds(a);
  }

  lemma FreeCovers(s: HeapState, b: Block, a: nat)
    requires Ok(s) && b in s.live && s.base <= a < s.end
    ensures InFree(Spliced(s.free, b), a) || InLive(s.live - {b}, a)
  {
    SplicedCovers(s.free, b, a);
    if InLive(s.live, a) && !b.Holds(a) {
      var c :| c in s.live && c.Holds(a);
      assert c in s.live - {b};
    }
  }

  /** Freeing a live block keeps the tiling and the head invariant. */
  lemma FreeKeeps(s: HeapState, b: Block)
    requires Ok(s) && b in s.live
    ensures Ok(FreeStep(s, b))
  {
    FreedList(s, b);
    FreedCovers(s, b);
    HeadStays(s, b);
    hide ListOk, FreeStep, InFree, InLive, HeadApart;
  }

  // The list after freeing `b`, and its place in it.
  lemma FreedList(s: HeapState, b: Block)
    requires Ok(s) && b in s.live
    ensures var t := FreeStep(s, b); t.base == s.base && t.end == s.end && t.live == s.live - {b}
    ensures ListOk(s.base, s.end, FreeStep(s, b).free, s.live - {b})
  {
    var k := Below(s.free, b.addr);
    SplicedKeeps(s.base, s.end, s.free, s.live - {b}, b);
    MergeKeeps(s.base, s.end, Spliced(s.free, b), s.live - {b}, if k == 0 then 0 else k - 1);
    hide ListOk, Below, MergeAt;
  }

  lemma FreedCovers(s: HeapState, b: Block)
    requires Ok(s) && b in s.live
    ensures forall a: nat :: s.base <= a < s.end ==> InFree(FreeStep(s, b).free, a) || InLive(s.live - {b}, a)
  {
    var k := Below(s.free, b.addr);
    var spliced := Spliced(s.free, b);
    SplicedKeeps(s.base, s.end, s.free, s.live - {b}, b);
    MergeKeeps(s.base, s.end, spliced, s.live - {b}, if k == 0 then 0 else k - 1);
    assert FreeStep(s, b).free == MergeAt(spliced, if k == 0 then 0 else k - 1);
    hide ListOk, Below, MergeAt, Spliced, InFree, InLive, FreeStep, Ok;
    forall a: nat | s.base <= a < s.end
      ensures InFree(FreeStep(s, b).free, a) || InLive(s.live - {b}, a)
    {
      FreeCovers(s, b, a);
    }
  }

  // Inserting past the second place leaves the head and what follows it alone.
  lemma HeadStays(s: HeapState, b: Block)
    requires Ok(s) && b in s.live
    ensures HeadApart(FreeStep(s, b))
  {
    var k := Below(s.free, b.addr);
    var spliced := Spliced(s.free, b);
    var i := if k == 0 then 0 else k - 1;
    var r := MergeAt(spliced, i);
    FreeIs(s, b);
    hide *;
    SplicedKeeps(s.base, s.end, s.free, s.live - {b}, b);
    MergeKeeps(s.base, s.end, spliced, s.live - {b}, i);
    if i > 0 {
      HeadKept(s.free, b, k, spliced, r, s.base);
    }
    HeadIs(FreeStep(s, b));
  }

  // Freeing a live block is splicing it in and merging from the block before on.
  lemma FreeIs(s: HeapState, b: Block)
    requires Ok(s) && b in s.live
    ensures var k := Below(s.free, b.addr);
      var spliced := Spliced(s.free, b);
      var i := if k == 0 then 0 else k - 1;
      && k <= |s.free| && spliced == s.free[..k] + [b] + s.free[k..] && i < |spliced|
      && FreeStep(s, b).free == MergeAt(spliced, i) && FreeStep(s, b).base == s.base
    ensures ListOk(s.base, s.end, s.free, s.live - {b}) && Fits(s.base, s.end, b) && ApartFrom(b, s.live - {b})
    ensures forall i :: 0 <= i < |s.free| ==> Disjoint(b, s.free[i])
    ensures |s.free| >= 2 && s.free[0].addr == s.base ==> s.free[0].End() != s.free[1].addr
  {
    hide MergeAt;
  }

  lemma HeadIs(s: HeapState)
    ensures HeadApart(s) <==> (|s.free| >= 2 && s.free[0].addr == s.base ==> s.free[0].End() != s.free[1].addr)
  {
  }

  lemma HeadKept(free: seq<Block>, b: Block, k: nat, spliced: seq<Block>, r: seq<Block>, base: nat)
    requires 2 <= k <= |free| && spliced == free[..k] + [b] + free[k..]
    requires |r| >= k && r[..k - 1] == spliced[..k - 1] && r[k - 1].addr == spliced[k - 1].addr
    requires free[0].addr == base ==> free[0].End() != free[1].addr
    ensures r[0].addr == base ==> r[0].End() != r[1].addr
  {
    assert r[0] == r[..k - 1][0] == spliced[..k - 1][0] == spliced[0] == free[0];
    if k > 2 {
      assert r[1] == r[..k - 1][1] == spliced[..k - 1][1] == spliced[1] == free[1];
    }
  }

  // ----- alloc -----

  function Cut(free: seq<Block>, k: nat, size: nat): seq<Block>
    requires k < |free| && size <= free[k].size
  {
    free[..k] + Remainder(free[k], size) + free[k + 1..]
  }

  // Where block `j` of the list after the cut stood before it.
  lemma CutAt(free: seq<Block>, k: nat, size: nat, j: nat)
    requires k < |free| && size <= free[k].size
    requires j < |Cut(free, k, size)|
    ensures |Cut(free, k, size)| == |free| - 1 + |Remainder(free[k], size)|
    ensures var d := |Remainder(free[k], size)|;
      Cut(free, k, size)[j] ==
      if j < k then free[j] else if j < k + d then Remainder(free[k], size)[0] else free[j + 1 - d]
  {
  }

  lemma CutKeeps(base: nat, end: nat, free: seq<Block>, live: set<Block>, k: nat, size: nat)
    requires ListOk(base, end, free, live)
    requires k < |free| && 0 < size <= free[k].size && size % NODE_SIZE == 0
    ensures ListOk(base, end, Cut(free, k, size), live + {Block(free[k].addr, size)})
  {
    var r := Cut(free, k, size);
    var b := Block(free[k].addr, size);
    var d := |Remainder(free[k], size)|;
    hide Cut;
    forall j | 0 <= j < |r|
      ensures Fits(base, end, r[j]) && ApartFrom(r[j], live + {b})
    {
      CutApart(base, end, free, live, k, size, j);
    }
    forall i, j | 0 <= i < j < |r|
      ensures r[i].End() <= r[j].addr
    {
      CutAt(free, k, size, i);
      CutAt(free, k, size, j);
    }
  }

  lemma CutApart(base: nat, end: nat, free: seq<Block>, live: set<Block>, k: nat, size: nat, j: nat)
    requires ListOk(base, end, free, live)
    requires k < |free| && 0 < size <= free[k].size && size % NODE_SIZE == 0 && j < |Cut(free, k, size)|
    ensures var r := Cut(free, k, size);
      Fits(base, end, r[j]) && ApartFrom(r[j], live + {Block(free[k].addr, size)})
  {
    var r := Cut(free, k, size);
    CutAt(free, k, size, j);
    hide Cut;
    assert Fits(base, end, free[k]) && ApartFrom(free[k], live);
    forall c | c in live
      ensures Disjoint(r[j], c)
    {
      assert Disjoint(free[k], c);
    }
  }

  lemma CutCovers(free: seq<Block>, k: nat, size: nat, a: nat)
    requires k < |free| && 0 < size <= free[k].size && size % NODE_SIZE == 0
    requires InFree(free, a) && !Block(free[k].addr, size).Holds(a)
    ensures InFree(Cut(free, k, size), a)
  {
    var r := Cut(free, k, size);
    var d := |Remainder(free[k], size)|;
    var j :| 0 <= j < |free| && free[j].Holds(a);
    var t := if j <= k then j else j - 1 + d;
    assert t < |r|;
    CutAt(free, k, size, t);
    assert r[t].Holds(a);
  }

  lemma AllocCovers(s: HeapState, size: nat, a: nat)
    requires Ok(s) && AllocStep(s, size).Some?
    requires 0 < size && size % NODE_SIZE == 0 && s.base <= a < s.end
    ensures var s' := AllocStep(s, size).value.0; InFree(s'.free, a) || InLive(s'.live, a)
  {
    var k := FirstFit(s.free, size);
    var b := Block(s.free[k].addr, size);
    var s' := AllocStep(s, size).value.0;
    if InLive(s.live, a) {
      var c :| c in s.live && c.Holds(a);
      assert c in s'.live;
    } else if b.Holds(a) {
      assert b in s'.live;
    } else {
      assert s'.free == Cut(s.free, k, size);
      CutCovers(s.free, k, size, a);
    }
  }

  lemma AllocTiles(s: HeapState, size: nat)
    requires Ok(s) && AllocStep(s, size).Some?
    requires 0 < size && size % NODE_SIZE == 0
    ensures Tiles(AllocStep(s, size).value.0)
  {
    var k := FirstFit(s.free, size);
    var b := Block(s.free[k].addr, size);
    var s' := AllocStep(s, size).value.0;
    assert s'.free == Cut(s.free, k, size);
    CutKeeps(s.base, s.end, s.free, s.live, k, size);
    assert Fits(s.base, s.end, s.free[k]) && ApartFrom(s.free[k], s.live);
    forall c | c in s.live
      ensures Disjoint(b, c)
    {
      assert Disjoint(s.free[k], c);
    }
    forall a: nat | s.base <= a < s.end
      ensures InFree(s'.free, a) || InLive(s'.live, a)
    {
      AllocCovers(s, size, a);
    }
  }

  /** A whole number of nodes can be handed out without harm. */
  lemma AllocKeeps(s: HeapState, size: nat)
    requires Ok(s) && AllocStep(s, size).Some? && WholeNodes(size)
    ensures Ok(AllocStep(s, size).value.0)
  {
    AllocTiles(s, size);
    var k := FirstFit(s.free, size);
    var r := Cut(s.free, k, size);
    assert AllocStep(s, size).value.0.free == r;
    InOrder(s, 0);
    if |r| >= 2 {
      CutAt(s.free, k, size, 0);
      CutAt(s.free, k, size, 1);
    }
  }

  // What is handed out at `a` is nobody else's: no listed block holds the address, and none
  // reaches into the range.
  ghost predicate HandedOut(s: HeapState, a: nat, size: nat) {
    forall i :: 0 <= i < |s.free| ==> !s.free[i].Holds(a) && Disjoint(s.free[i], Block(a, size))
  }

  /** What is handed out leaves the list exactly when the size is a positive multiple of 16,
      and exactly then the tiling is kept: zero bytes are handed out of a block that stays
      listed, and between two multiples the remainder begins inside the allocation. */
  lemma AllocKeepsExactly(s: HeapState, size: nat)
    requires Ok(s) && AllocStep(s, size).Some?
    ensures HandedOut(AllocStep(s, size).value.0, AllocStep(s, size).value.1, size) <==> WholeNodes(size)
    ensures Tiles(AllocStep(s, size).value.0) <==> WholeNodes(size)
  {
    var k := FirstFit(s.free, size);
    var s' := AllocStep(s, size).value.0;
    var b := Block(s.free[k].addr, size);
    assert b in s'.live;
    if WholeNodes(size) {
      AllocKeeps(s, size);
      forall i | 0 <= i < |s'.free|
        ensures !s'.free[i].Holds(b.addr) && Disjoint(s'.free[i], b)
      {
        assert ApartFrom(s'.free[i], s'.live) && Fits(s'.base, s'.end, s'.free[i]);
      }
    } else {
      assert !Fits(s.base, s.end, b);
      RestOverlaps(s, k, size);
    }
  }

  // The remainder of a bad size holds the address handed out, or a part of the range.
  lemma RestOverlaps(s: HeapState, k: nat, size: nat)
    requires Ok(s) && k < |s.free| && k == FirstFit(s.free, size) && !WholeNodes(size)
    ensures var (s', a) := AllocStep(s, size).value; !HandedOut(s', a, size)
  {
    var b := s.free[k];
    assert Fits(s.base, s.end, b) && size < b.size;
    var s' := AllocStep(s, size).value.0;
    assert s'.free == Cut(s.free, k, size);
    CutAt(s.free, k, size, k);
    assert s'.free[k] == Block(RestAt(b, size), b.size - size);
    hide Cut, AllocStep, Ok, FirstFit;
  }

  /** Asking for nothing changes the list in nothing, and whatever is asked for next, if the
      first block can give it, is handed out at the same address. */
  lemma NothingTwice(s: HeapState, size: nat)
    requires Ok(s) && |s.free| > 0 && size <= s.free[0].size
    ensures AllocStep(s, 0).Some?
    ensures var (s', a) := AllocStep(s, 0).value;
      s'.free == s.free && AllocStep(s', size).Some? && AllocStep(s', size).value.1 == a
  {
    var b := s.free[0];
    assert Fits(s.base, s.end, b);
    var s' := AllocStep(s, 0).value.0;
    assert s'.free == s.free[..0] + [b] + s.free[1..] == s.free;
  }

  /** Twenty-four bytes of a heap of 64, and then sixteen, overlap in eight. */
  lemma OddSizeOverlaps(base: nat)
    ensures Ok(Init(base, 64)) && AllocStep(Init(base, 64), 24).Some?
    ensures var (s1, a) := AllocStep(Init(base, 64), 24).value;
      AllocStep(s1, 16).Some? && a == base && AllocStep(s1, 16).value.1 == base + 16
  {
    InitOk(base, 64);
    var s := Init(base, 64);
    assert s.free == [Block(base, 64)];
    var s1 := AllocStep(s, 24).value.0;
    assert s1.free == [] + [Block(base + 16, 40)] + [];
  }

  /** First fit: the block handed out is the lowest listed block that is large enough,
      and an allocation fails only when no listed block is. */
  lemma AllocIsFirstFit(s: HeapState, size: nat)
    requires Ok(s)
    ensures AllocStep(s, size).None? <==> forall i :: 0 <= i < |s.free| ==> s.free[i].size < size
    ensures AllocStep(s, size).Some? ==>
      var p := AllocStep(s, size).value.1;
      exists k :: 0 <= k < |s.free| && s.free[k].addr == p && size <= s.free[k].size
        && forall i :: 0 <= i < |s.free| && size <= s.free[i].size ==> p <= s.free[i].addr
  {
    var k := FirstFit(s.free, size);
    if k < |s.free| {
      assert size <= s.free[k].size;
      forall i | 0 <= i < |s.free| && size <= s.free[i].size
        ensures s.free[k].addr <= s.free[i].addr
      {
        assert k <= i;
        if k < i {
          assert s.free[k].End() <= s.free[i].addr;
        }
      }
    }
  }

  lemma InitOk(base: nat, length: nat)
    requires 0 < length && length % NODE_SIZE == 0
    ensures Ok(Init(base, length)) && Whole(Init(base, length))
  {
    var b := Block(base, length);
    var s := Init(base, length);
    assert [][..0] + [b] + [][0..] == [b];
    assert s.free == [b];
    forall a: nat | base <= a < base + length
      ensures InFree(s.free, a)
    {
      assert s.free[0].Holds(a);
    }
  }

  lemma InOrder(s: HeapState, i: nat)
    requires Tiles(s)
    ensures forall j :: i < j < |s.free| ==> s.free[i].End() <= s.free[j].addr
    ensures forall j :: i <= j < |s.free| ==> 0 < s.free[j].size && s.base <= s.free[j].addr && s.free[j].End() <= s.end
  {
    forall j | i <= j < |s.free|
      ensures 0 < s.free[j].size && s.base <= s.free[j].addr && s.free[j].End() <= s.end
    {
      assert Fits(s.base, s.end, s.free[j]);
    }
  }

  lemma NothingLiveHeadAtBase(s: HeapState)
    requires Ok(s) && s.live == {}
    ensures |s.free| > 0 && s.free[0].addr == s.base
  {
    InOrder(s, 0);
    assert InFree(s.free, s.base);
    var i :| 0 <= i < |s.free| && s.free[i].Holds(s.base);
  }

  // Only the second block can hold the address where the first one ends, and only
  // by starting there.
  lemma HolderOfHeadsEnd(s: HeapState, j: nat)
    requires Tiles(s) && j < |s.free| && s.free[j].Holds(s.free[0].End())
    ensures |s.free| >= 2 && s.free[1].addr == s.free[0].End()
  {
    InOrder(s, 0);
    InOrder(s, 1);
  }

  lemma NothingLiveHeadReachesEnd(s: HeapState)
    requires Ok(s) && s.live == {}
    requires |s.free| > 0 && s.free[0].addr == s.base
    ensures s.free[0].End() == s.end
  {
    InOrder(s, 0);
    if s.free[0].End() < s.end {
      assert InFree(s.free, s.free[0].End());
      var j :| 0 <= j < |s.free| && s.free[j].Holds(s.free[0].End());
      HolderOfHeadsEnd(s, j);
    }
  }

  /** The destructor's check succeeds exactly when nothing is allocated. */
  lemma WholeExactlyWhenAllFreed(s: HeapState)
    requires Ok(s)
    ensures Whole(s) <==> s.live == {}
  {
    if s.live == {} {
      NothingLiveHeadAtBase(s);
      NothingLiveHeadReachesEnd(s);
      InOrder(s, 0);
      assert s.free == [s.free[0]];
    } else {
      var c :| c in s.live;
      assert Fits(s.base, s.end, c);
      assert !Disjoint(Block(s.base, s.end - s.base), c);
      assert |s.free| > 0 ==> ApartFrom(s.free[0], s.live);
    }
  }

  // ----- whole histories -----

  datatype Op = Alloc(size: nat) | Free(block: Block)

  // Callers ask for whole nodes and hand back what they were given.
  predicate Legal(s: HeapState, op: Op) {
    match op
    case Alloc(size) => 0 < size && size % NODE_SIZE == 0 && AllocStep(s, size).Some?
    case Free(b) => b in s.live
  }

  function Do(s: HeapState, op: Op): HeapState
    requires Legal(s, op)
  {
    match op
    case Alloc(size) => AllocStep(s, size).value.0
    case Free(b) => FreeStep(s, b)
  }

  ghost predicate Reaches(s: HeapState, ops: seq<Op>, t: HeapState)
    decreases |ops|
  {
    if ops == [] then s == t
    else Legal(s, ops[0]) && Reaches(Do(s, ops[0]), ops[1..], t)
  }

  lemma {:induction false} ReachedOk(s: HeapState, ops: seq<Op>, t: HeapState)
    requires Ok(s) && Reaches(s, ops, t)
    ensures Ok(t) && t.base == s.base && t.end == s.end
    decreases |ops|
  {
    if ops != [] {
      match ops[0] {
        case Alloc(size) => AllocKeeps(s, size);
        case Free(b) => FreeKeeps(s, b);
      }
      ReachedOk(Do(s, ops[0]), ops[1..], t);
    }
  }

  /** After any history of splits and partial merges, freeing everything in any order
      leaves the one block the heap began with. */
  lemma AllFreedIsWhole(base: nat, length: nat, ops: seq<Op>, t: HeapState)
    requires 0 < length && length % NODE_SIZE == 0
    requires Reaches(Init(base, length), ops, t)
    ensures Tiles(t)
    ensures t.live == {} <==> t.free == [Block(base, length)]
  {
    InitOk(base, length);
    ReachedOk(Init(base, length), ops, t);
    WholeExactlyWhenAllFreed(t);
  }

  // ----- how much free() merges -----

  predicate FullyMerged(free: seq<Block>) {
    forall i :: 0 <= i && i + 1 < |free| ==> free[i].End() != free[i + 1].addr
  }

  // The new block touches its right neighbour but not the block before it.
  predicate MissesRightNeighbour(free: seq<Block>, b: Block) {
    var k := Below(free, b.addr);
    0 < k < |free| && free[k - 1].End() != b.addr && b.End() == free[k].addr
  }

  // No two neighbours touch, except perhaps the pairs starting at i and i + 1.
  predicate MergedBut(free: seq<Block>, i: nat) {
    forall j :: 0 <= j && j + 1 < |free| && j != i && j != i + 1 ==> free[j].End() != free[j + 1].addr
  }

  lemma MergedButMergeOnce(free: seq<Block>, i: nat)
    requires i + 1 < |free| && free[i].End() == free[i + 1].addr && MergedBut(free, i)
    ensures forall j :: 0 <= j && j + 1 < |free| - 1 && j != i ==>
      MergeOnce(free, i)[j].End() != MergeOnce(free, i)[j + 1].addr
  {
    var r := MergeOnce(free, i);
    forall j | 0 <= j && j + 1 < |r| && j != i
      ensures r[j].End() != r[j + 1].addr
    {
      if j < i {
        assert r[j] == free[j] && r[j + 1].addr == free[j + 1].addr;
      } else {
        assert r[j] == free[j + 1] && r[j + 1] == free[j + 2];
      }
    }
  }

  lemma {:induction false} MergeFinishes(free: seq<Block>, i: nat)
    requires i + 1 < |free| && free[i].End() == free[i + 1].addr && MergedBut(free, i)
    ensures FullyMerged(MergeAt(free, i))
    decreases |free|
  {
    MergedButMergeOnce(free, i);
    var r := MergeOnce(free, i);
    if i + 1 < |r| && r[i].End() == r[i + 1].addr {
      MergeFinishes(r, i);
    }
  }

  lemma SplicedMergedBut(s: HeapState, b: Block)
    requires FullyMerged(s.free)
    ensures var k := Below(s.free, b.addr); MergedBut(Spliced(s.free, b), if k == 0 then 0 else k - 1)
  {
    var free, k, r := s.free, Below(s.free, b.addr), Spliced(s.free, b);
    forall j | 0 <= j && j + 1 < |r| && j + 1 != k && j != k
      ensures r[j].End() != r[j + 1].addr
    {
      SplicedAt(free, b, j);
      SplicedAt(free, b, j + 1);
      if j < k {
        assert r[j] == free[j] && r[j + 1] == free[j + 1];
      } else {
        assert r[j] == free[j - 1] && r[j + 1] == free[j];
      }
    }
    if k == 0 && |free| > 1 {
      assert r[1] == free[0] && r[2] == free[1];
    }
  }

  /** `free` promises to coalesce. From a fully merged list it does so exactly when
      the block does not touch its right neighbour alone: merging starts at the block
      before the insertion point and stops there if that block is not adjacent. */
  lemma FreeMergesExactly(s: HeapState, b: Block)
    requires FullyMerged(s.free)
    ensures FullyMerged(FreeStep(s, b).free) <==> !MissesRightNeighbour(s.free, b)
  {
    var free, k, r := s.free, Below(s.free, b.addr), Spliced(s.free, b);
    var i := if k == 0 then 0 else k - 1;
    SplicedMergedBut(s, b);
    SplicedAt(free, b, k);
    if k > 0 {
      SplicedAt(free, b, k - 1);
    }
    if k < |free| {
      SplicedAt(free, b, k + 1);
    }
    if i + 1 < |r| && r[i].End() == r[i + 1].addr {
      MergeFinishes(r, i);
    } else {
      assert MergeAt(r, i) == r;
      MergedExceptAt(free, b, i);
    }
  }

  // With nothing to merge at i, only the pair starting at the new block can touch.
  lemma MergedExceptAt(free: seq<Block>, b: Block, i: nat)
    requires FullyMerged(free)
    requires var k := Below(free, b.addr); i == if k == 0 then 0 else k - 1
    requires var r := Spliced(free, b); MergedBut(r, i) && (i + 1 < |r| ==> r[i].End() != r[i + 1].addr)
    ensures FullyMerged(Spliced(free, b)) <==> !MissesRightNeighbour(free, b)
  {
    var k, r := Below(free, b.addr), Spliced(free, b);
    assert r[k] == b;
    assert k > 0 ==> r[k - 1] == free[k - 1];
    assert k < |free| ==> r[k + 1] == free[k];
    if k == 0 && |free| > 1 {
      assert r[1] == free[0] && r[2] == free[1];
    }
  }

  function Demo(i: nat): HeapState {
    var a, b, c := Block(0, 16), Block(16, 16), Block(32, 16);
    if i == 0 then HeapState(0, 64, [Block(0, 64)], {})
    else if i == 1 then HeapState(0, 64, [Block(16, 48)], {a})
    else if i == 2 then HeapState(0, 64, [Block(32, 32)], {a, b})
    else if i == 3 then HeapState(0, 64, [Block(48, 16)], {a, b, c})
    else if i == 4 then HeapState(0, 64, [a, Block(48, 16)], {b, c})
    else HeapState(0, 64, [a, c, Block(48, 16)], {b})
  }

  lemma DemoAllocs(i: nat)
    requires i < 3
    ensures Legal(Demo(i), Alloc(16)) && Do(Demo(i), Alloc(16)) == Demo(i + 1)
  {
    TakeFront(Demo(i), 16);
  }

  lemma DemoFrees()
    ensures FreeStep(Demo(3), Block(0, 16)) == Demo(4)
    ensures FreeStep(Demo(4), Block(32, 16)) == Demo(5)
  {
    var f3, f4 := Demo(3).free, Demo(4).free;
    assert f3[..0] + [Block(0, 16)] + f3[0..] == Demo(4).free;
    assert f4[1..] == [Block(48, 16)];
    assert Below(f4, 32) == 1;
    assert f4[..1] + [Block(32, 16)] + f4[1..] == Demo(5).free;
  }

  /** A history of three allocations and two frees that leaves two adjacent free blocks. */
  lemma AdjacentFreeBlocksOccur()
    ensures exists ops, t ::
      Reaches(Init(0, 64), ops, t) && !FullyMerged(t.free)
  {
    InitOk(0, 64);
    DemoFrees();
    assert Reaches(Demo(5), [], Demo(5));
    ReachFrom(Demo(4), Free(Block(32, 16)), [], Demo(5));
    ReachFrom(Demo(3), Free(Block(0, 16)), [Free(Block(32, 16))] + [], Demo(5));
    DemoReached([Free(Block(0, 16))] + ([Free(Block(32, 16))] + []), 3);
    assert Demo(5).free[1].End() == Demo(5).free[2].addr;
  }

  lemma {:induction false} DemoReached(ops: seq<Op>, i: nat)
    requires i <= 3 && Reaches(Demo(i), ops, Demo(5))
    ensures exists ops' :: Reaches(Demo(0), ops', Demo(5))
    decreases i
  {
    if i > 0 {
      DemoAllocs(i - 1);
      ReachFrom(Demo(i - 1), Alloc(16), ops, Demo(5));
      DemoReached([Alloc(16)] + ops, i - 1);
    }
  }

  lemma ReachFrom(s: HeapState, op: Op, ops: seq<Op>, t: HeapState)
    requires Legal(s, op) && Reaches(Do(s, op), ops, t)
    ensures Reaches(s, [op] + ops, t)
  {
    assert ([op] + ops)[1..] == ops;
  }

  lemma TakeFront(s: HeapState, size: nat)
    requires |s.free| == 1 && size < s.free[0].size && size % NODE_SIZE == 0
    ensures AllocStep(s, size) ==
      Some((s.(free := [Block(s.free[0].addr + size, s.free[0].size - size)],
               live := s.live + {Block(s.free[0].addr, size)}),
            s.free[0].addr))
  {
    var b := s.free[0];
    assert FirstFit(s.free, size) == 0;
    assert s.free[..0] + Remainder(b, size) + s.free[1..] == [Block(b.addr + size, b.size - size)];
  }
}
