/** What `remove` does to the shape of the tree, link by link. */
module TreeRemoval {
  import opened TreeShape

  // A hole reached by going left only.
  predicate AllLeft(d: Path) {
    match d
    case Top => true
    case InLeft(up, x, r) => AllLeft(up)
    case InRight(up, l, x) => false
  }

  // The way to the leftmost node below a hole, and the tree found there.
  function MinPath(s: Shape, c: Path): Path
    requires s != Leaf
  {
    if s.l == Leaf then c else MinPath(s.l, InLeft(c, s.x, s.r))
  }

  function MinTree(s: Shape): (m: Shape)
    requires s != Leaf
    ensures m != Leaf && m.l == Leaf
  {
    if s.l == Leaf then s else MinTree(s.l)
  }

  lemma {:induction false} MinSplits(s: Shape, c: Path)
    requires s != Leaf
    ensures Plug(MinPath(s, c), MinTree(s)) == Plug(c, s)
    ensures AllLeft(c) ==> AllLeft(MinPath(s, c))
  {
    if s.l != Leaf {
      MinSplits(s.l, InLeft(c, s.x, s.r));
    }
  }

  lemma {:induction false} AllLeftBefore(d: Path)
    requires AllLeft(d)
    ensures Before(d) == []
  {
    if d.InLeft? {
      AllLeftBefore(d.up);
    }
  }

  // The topmost node of a path.
  function Summit(c: Path): Node?
  {
    match c
    case Top => null
    case InLeft(up, x, r) => if up == Top then x else Summit(up)
    case InRight(up, l, x) => if up == Top then x else Summit(up)
  }

  lemma {:induction false} SummitIsRoot(c: Path, s: Shape)
    requires c != Top
    ensures Root(Plug(c, s)) == Summit(c)
  {
    match c
    case InLeft(up, x, r) => if up != Top { SummitIsRoot(up, Bin(s, x, r)); }
    case InRight(up, l, x) => if up != Top { SummitIsRoot(up, Bin(l, x, s)); }
  }

  lemma {:induction false} SummitOnPath(c: Path)
    requires c != Top
    ensures Summit(c) in PathNodes(c)
  {
    if c.up != Top {
      SummitOnPath(c.up);
    }
  }

  /** Hanging a path elsewhere changes the parent link of its topmost node. */
  lemma {:induction false} OtherBase(c: Path, h: Node?, p: Node?, p': Node?, n: Node)
    requires n in PathNodes(c) && PathOk(c)
    ensures LinksOn(c, h, p', n) ==
      if n == Summit(c) then LinksOn(c, h, p, n).(parent := p') else LinksOn(c, h, p, n)
  {
    if c.up != Top {
      SummitOnPath(c.up);
      if n in PathNodes(c.up) {
        OtherBase(c.up, c.x, p, p', n);
      }
    }
  }

  // ----- a node with at most one child gives way to it -----

  // The links after `x`, found at the end of `c`, was replaced by its child.
  ghost function Unhooked(c: Path, x: Node, child: Node?, n: Node, k: Links): Links {
    if n == Above(c, null) && c.InLeft? then k.(left := child)
    else if n == Above(c, null) && c.InRight? then k.(right := child)
    else if n == child then k.(parent := Above(c, null))
    else k
  }

  lemma UnhookedIs(c: Path, l: Shape, x: Node, r: Shape, n: Node)
    requires l == Leaf || r == Leaf
    requires Ok(Plug(c, Bin(l, x, r)))
    requires var child := if l != Leaf then l else r; n in PathNodes(c) + Nodes(child)
    ensures var child := if l != Leaf then l else r;
      && Ok(Plug(c, child)) && Nodes(Plug(c, child)) == PathNodes(c) + Nodes(child)
      && n in Nodes(Plug(c, Bin(l, x, r)))
      && LinksIn(Plug(c, child), null, n)
        == Unhooked(c, x, Root(child), n, LinksIn(Plug(c, Bin(l, x, r)), null, n))
  {
    var s := Bin(l, x, r);
    var child := if l != Leaf then l else r;
    PlugOk(c, s);
    PlugOk(c, child);
    PlugNodes(c, s);
    PlugNodes(c, child);
    if n in PathNodes(c) {
      PlugLinksOn(c, s, null, n);
      PlugLinksOn(c, child, null, n);
      OtherHole(c, x, Root(child), null, n);
    } else {
      PlugLinksIn(c, s, null, n);
      PlugLinksIn(c, child, null, n);
      OtherParent(child, x, Above(c, null), n);
      AboveNotBelow(c, child);
    }
  }

  lemma AboveNotBelow(c: Path, s: Shape)
    requires PathNodes(c) !! Nodes(s)
    ensures c != Top ==> Above(c, null) in PathNodes(c) && Above(c, null) !in Nodes(s)
  {
  }

  // ----- a node with two children changes places with its successor -----

  // The links after `x` and its successor `t` changed places.
  ghost function Swapped(c: Path, l: Shape, x: Node, d: Path, t: Node, rr: Shape, n: Node, k: Links): Links {
    if n == x then Links(Above(d, t), null, Root(rr))
    else if n == t then Links(Above(c, null), Root(l), if d == Top then x else Summit(d))
    else Links(
      if n == Root(l) || (d != Top && n == Summit(d)) then t else if n == Root(rr) then x else k.parent,
      if d != Top && n == Above(d, x) then x else if c.InLeft? && n == Above(c, null) then t else k.left,
      if c.InRight? && n == Above(c, null) then t else k.right)
  }

  function WithTwo(c: Path, l: Shape, x: Node, d: Path, t: Node, rr: Shape): Shape {
    Plug(c, Bin(l, x, Plug(d, Bin(Leaf, t, rr))))
  }

  // What distinctness of the nodes means for the parts.
  ghost predicate Apart(c: Path, l: Shape, x: Node, d: Path, t: Node, rr: Shape) {
    && PathOk(c) && Ok(l) && PathOk(d) && Ok(rr)
    && x != t
    && {x, t} !! PathNodes(c) !! Nodes(l) !! PathNodes(d) !! Nodes(rr)
  }

  lemma ApartExactly(c: Path, l: Shape, x: Node, d: Path, t: Node, rr: Shape)
    ensures Ok(WithTwo(c, l, x, d, t, rr)) <==> Apart(c, l, x, d, t, rr)
    ensures Nodes(WithTwo(c, l, x, d, t, rr)) == PathNodes(c) + Nodes(l) + PathNodes(d) + Nodes(rr) + {x, t}
  {
    var r := Plug(d, Bin(Leaf, t, rr));
    PlugOk(c, Bin(l, x, r));
    PlugNodes(c, Bin(l, x, r));
    PlugOk(d, Bin(Leaf, t, rr));
    PlugNodes(d, Bin(Leaf, t, rr));
  }

  // The links of each part of such a tree.
  lemma LinksWithTwo(c: Path, l: Shape, x: Node, d: Path, t: Node, rr: Shape, n: Node)
    requires Apart(c, l, x, d, t, rr)
    requires n in PathNodes(c) + Nodes(l) + PathNodes(d) + Nodes(rr) + {x, t}
    ensures n in Nodes(WithTwo(c, l, x, d, t, rr))
    ensures LinksIn(WithTwo(c, l, x, d, t, rr), null, n) ==
      if n == x then Links(Above(c, null), Root(l), if d == Top then t else Summit(d))
      else if n == t then Links(Above(d, x), null, Root(rr))
      else if n in PathNodes(c) then LinksOn(c, x, null, n)
      else if n in Nodes(l) then LinksIn(l, x, n)
      else if n in PathNodes(d) then LinksOn(d, t, x, n)
      else LinksIn(rr, t, n)
  {
    var m := Bin(Leaf, t, rr);
    var r := Plug(d, m);
    var s := Bin(l, x, r);
    ApartExactly(c, l, x, d, t, rr);
    PlugNodes(d, m);
    PlugOk(c, s);
    if d != Top {
      SummitIsRoot(d, m);
    }
    if n in PathNodes(c) {
      PlugLinksOn(c, s, null, n);
    } else {
      PlugLinksIn(c, s, null, n);
      if n in PathNodes(d) {
        PlugLinksOn(d, m, x, n);
      } else if n == t || n in Nodes(rr) {
        PlugLinksIn(d, m, x, n);
      }
    }
  }

  lemma SwappedIs(c: Path, l: Shape, x: Node, d: Path, t: Node, rr: Shape, n: Node)
    requires l != Leaf && AllLeft(d)
    requires Apart(c, l, x, d, t, rr) && Apart(c, l, t, d, x, rr)
    requires n in PathNodes(c) + Nodes(l) + PathNodes(d) + Nodes(rr) + {x, t}
    ensures n in Nodes(WithTwo(c, l, x, d, t, rr)) && n in Nodes(WithTwo(c, l, t, d, x, rr))
    ensures LinksIn(WithTwo(c, l, t, d, x, rr), null, n)
      == Swapped(c, l, x, d, t, rr, n, LinksIn(WithTwo(c, l, x, d, t, rr), null, n))
  {
    hide *;
    ApartExactly(c, l, x, d, t, rr);
    ApartExactly(c, l, t, d, x, rr);
    if n == x || n == t {
      SwappedEnds(c, l, x, d, t, rr, n);
    } else {
      SwappedElsewhere(c, l, x, d, t, rr, n);
    }
  }

  lemma SwappedEnds(c: Path, l: Shape, x: Node, d: Path, t: Node, rr: Shape, n: Node)
    requires Apart(c, l, t, d, x, rr) && (n == x || n == t)
    ensures n in Nodes(WithTwo(c, l, t, d, x, rr))
    ensures forall k :: LinksIn(WithTwo(c, l, t, d, x, rr), null, n) == Swapped(c, l, x, d, t, rr, n, k)
  {
    LinksWithTwo(c, l, t, d, x, rr, n);
    hide WithTwo, LinksIn, Nodes;
  }

  lemma SwappedElsewhere(c: Path, l: Shape, x: Node, d: Path, t: Node, rr: Shape, n: Node)
    requires l != Leaf && AllLeft(d) && Apart(c, l, x, d, t, rr) && Apart(c, l, t, d, x, rr)
    requires n in PathNodes(c) + Nodes(l) + PathNodes(d) + Nodes(rr)
    ensures n in Nodes(WithTwo(c, l, x, d, t, rr)) && n in Nodes(WithTwo(c, l, t, d, x, rr))
    ensures LinksIn(WithTwo(c, l, t, d, x, rr), null, n)
      == Swapped(c, l, x, d, t, rr, n, LinksIn(WithTwo(c, l, x, d, t, rr), null, n))
  {
    assert n != x && n != t && {x, t} !! PathNodes(c) !! Nodes(l) !! PathNodes(d) !! Nodes(rr);
    hide *;
    LinksWithTwo(c, l, x, d, t, rr, n);
    LinksWithTwo(c, l, t, d, x, rr, n);
    if n in PathNodes(c) {
      SwappedUp(c, l, x, d, t, rr, n);
    } else if n in Nodes(l) {
      SwappedLeft(c, l, x, d, t, rr, n);
    } else if n in PathNodes(d) {
      SwappedOver(c, l, x, d, t, rr, n);
    } else if n in Nodes(rr) {
      SwappedBelow(c, l, x, d, t, rr, n);
    }
  }

  lemma SwappedUp(c: Path, l: Shape, x: Node, d: Path, t: Node, rr: Shape, n: Node)
    requires l != Leaf && Apart(c, l, x, d, t, rr) && n in PathNodes(c)
    ensures LinksOn(c, t, null, n) == Swapped(c, l, x, d, t, rr, n, LinksOn(c, x, null, n))
  {
    OtherHole(c, x, t, null, n);
    if d != Top {
      SummitOnPath(d);
    }
  }

  lemma SwappedLeft(c: Path, l: Shape, x: Node, d: Path, t: Node, rr: Shape, n: Node)
    requires l != Leaf && Apart(c, l, x, d, t, rr) && n in Nodes(l)
    ensures LinksIn(l, t, n) == Swapped(c, l, x, d, t, rr, n, LinksIn(l, x, n))
  {
    AboveNotBelow(c, l);
    OtherParent(l, x, t, n);
    if d != Top {
      SummitOnPath(d);
    }
  }

  lemma SwappedOver(c: Path, l: Shape, x: Node, d: Path, t: Node, rr: Shape, n: Node)
    requires l != Leaf && AllLeft(d) && Apart(c, l, x, d, t, rr) && n in PathNodes(d)
    ensures LinksOn(d, x, t, n) == Swapped(c, l, x, d, t, rr, n, LinksOn(d, t, x, n))
  {
    OtherBase(d, t, x, t, n);
    OtherHole(d, t, x, t, n);
    SummitOnPath(d);
  }

  lemma SwappedBelow(c: Path, l: Shape, x: Node, d: Path, t: Node, rr: Shape, n: Node)
    requires l != Leaf && Apart(c, l, x, d, t, rr) && n in Nodes(rr)
    ensures LinksIn(rr, x, n) == Swapped(c, l, x, d, t, rr, n, LinksIn(rr, t, n))
  {
    AboveNotBelow(c, rr);
    OtherParent(rr, t, x, n);
    if d != Top {
      SummitOnPath(d);
    }
  }

  lemma MinFirst(d: Path, t: Node, rr: Shape)
    requires AllLeft(d)
    ensures InOrder(Plug(d, Bin(Leaf, t, rr))) == [t] + InOrder(Plug(d, rr))
  {
    AllLeftBefore(d);
    PlugOrder(d, Bin(Leaf, t, rr));
    PlugOrder(d, rr);
    assert InOrder(Bin(Leaf, t, rr)) == [t] + InOrder(rr);
  }

  lemma OrderAround(c: Path, l: Shape, x: Node, r: Shape)
    ensures InOrder(Plug(c, Bin(l, x, r))) == (Before(c) + InOrder(l)) + [x] + (InOrder(r) + After(c))
  {
    PlugOrder(c, Bin(l, x, r));
    Regroup(Before(c), InOrder(l), [x], InOrder(r), After(c));
  }

  lemma Regroup<T>(a: seq<T>, b: seq<T>, m: seq<T>, d: seq<T>, e: seq<T>)
    ensures a + (b + m + d) + e == (a + b) + m + (d + e)
  {
  }

  /** Removing `x` after the swap takes exactly `x` out of the order. */
  lemma SwapThenUnhookOrder(c: Path, l: Shape, x: Node, d: Path, t: Node, rr: Shape)
    requires AllLeft(d)
    ensures var before, after := Before(c) + InOrder(l), InOrder(Plug(d, Bin(Leaf, t, rr))) + After(c);
      && InOrder(WithTwo(c, l, x, d, t, rr)) == before + [x] + after
      && InOrder(Plug(c, Bin(l, t, Plug(d, rr)))) == before + after
  {
    MinFirst(d, t, rr);
    OrderAround(c, l, x, Plug(d, Bin(Leaf, t, rr)));
    OrderAround(c, l, t, Plug(d, rr));
    var r' := Plug(d, rr);
    hide *;
    Shift(Before(c) + InOrder(l), t, InOrder(r'), After(c));
  }

  lemma Shift<T>(a: seq<T>, t: T, b: seq<T>, e: seq<T>)
    ensures a + [t] + (b + e) == a + (([t] + b) + e)
  {
  }

  // A path below the right child of `t`, seen from the root.
  function Through(c: Path, l: Shape, t: Node, d: Path): Path {
    match d
    case Top => InRight(c, l, t)
    case InLeft(up, x, r) => InLeft(Through(c, l, t, up), x, r)
    case InRight(up, l', x) => InRight(Through(c, l, t, up), l', x)
  }

  lemma {:induction false} ThroughPlugs(c: Path, l: Shape, t: Node, d: Path, s: Shape)
    ensures Plug(Through(c, l, t, d), s) == Plug(c, Bin(l, t, Plug(d, s)))
  {
    match d
    case Top =>
    case InLeft(up, x, r) => ThroughPlugs(c, l, t, up, Bin(s, x, r));
    case InRight(up, l', x) => ThroughPlugs(c, l, t, up, Bin(l', x, s));
  }
}
