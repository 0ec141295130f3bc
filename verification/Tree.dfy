/** The intrusive search tree with parent links, as it runs. */
module Tree {
  import opened MemoryTypes
  import opened TreeShape
  import opened TreeRemoval
  import opened TreeLinks

  ghost predicate Fits(n: Node, k: Links)
    reads n
  {
    n.parent == k.parent && n.left == k.left && n.right == k.right
  }

  // The nodes of `s` are linked as `s` says, below `p`.
  ghost predicate Hangs(s: Shape, p: Node?)
    reads Nodes(s)
  {
    forall n :: n in Nodes(s) ==> Fits(n, LinksIn(s, p, n))
  }

  ghost function LinkMap(all: set<Node>): map<Node, Links>
    reads all
  {
    map n | n in all :: Links(n.parent, n.left, n.right)
  }

  class Tree {
    var root: Node?
    ghost var shape: Shape

    ghost predicate Valid()
      reads this, Nodes(shape)
    {
      Ok(shape) && root == Root(shape) && Hangs(shape, null)
    }

    constructor ()
      ensures Valid() && shape == Leaf
    {
      root, shape := null, Leaf;
    }

    /** Puts a detached node behind everything that is not greater. */
    method Insert(x: Node)
      requires Valid() && Sorted(InOrder(shape))
      requires x.Detached() && x !in Nodes(shape)
      modifies this, x, Nodes(shape)
      ensures Valid() && Nodes(shape) == old(Nodes(shape)) + {x}
      ensures PutIn(old(InOrder(shape)), x, InOrder(shape)) && Sorted(InOrder(shape))
    {
      var parent, cur, goLeft := null, root, false;
      ghost var up, sub := Top, shape;
      while cur != null
        invariant Valid() && shape == old(shape) && shape == Plug(up, sub) && cur == Root(sub)
        invariant parent == Above(up, null) && goLeft == up.InLeft?
        invariant Splits(up, x.item.addr)
        invariant unchanged(this) && unchanged(x)
        decreases sub
      {
        LinksAt(shape, up, sub.l, sub.x, sub.r);
        Descend(up, sub, x.item.addr);
        parent, goLeft := cur, x.item.addr < cur.item.addr;
        cur := if goLeft then parent.left else parent.right;
        up, sub := if goLeft then InLeft(up, sub.x, sub.r) else InRight(up, sub.l, sub.x),
                   if goLeft then sub.l else sub.r;
      }
      LinkNew(x, parent, goLeft, up);
    }

    // The end of `do_insert`: the link found empty takes the new node.
    method LinkNew(x: Node, parent: Node?, goLeft: bool, ghost up: Path)
      requires Valid() && shape == Plug(up, Leaf) && parent == Above(up, null) && goLeft == up.InLeft?
      requires x.Detached() && x !in Nodes(shape)
      requires Sorted(InOrder(shape)) && Splits(up, x.item.addr)
      modifies this, x, Nodes(shape)
      ensures Valid() && Nodes(shape) == old(Nodes(shape)) + {x}
      ensures PutIn(old(InOrder(shape)), x, InOrder(shape)) && Sorted(InOrder(shape))
    {
      ghost var before := LinkMap(Nodes(shape));
      assert before.Keys == Nodes(shape);
      InsertedOrder(up, x);
      InsertedAll(before, up, x);
      hide PutIn, Sorted, Splits, InOrder, Plug, Nodes, LinksIn, Ok;
      SetLinks(x, parent, goLeft, before);
      hide LinkMap, Rehung;
      InsertedHangs(before, up, x);
      shape := Plug(up, Bin(Leaf, x, Leaf));
    }

    method SetLinks(x: Node, parent: Node?, goLeft: bool, ghost before: map<Node, Links>)
      requires x.Detached() && x !in before && before == LinkMap(before.Keys) && (parent != null ==> parent in before)
      modifies this`root, x, before.Keys
      ensures root == (if parent == null then x else old(root)) && Fits(x, Links(parent, null, null))
      ensures forall n :: n in before ==> Fits(n, Rehung(before[n], n == parent, goLeft, x))
    {
      x.parent := parent;
      if parent == null {
        root := x;
      } else if goLeft {
        parent.left := x;
      } else {
        parent.right := x;
      }
    }

    /** The first node, in order, that is not less than `k`. */
    method LowerBound(k: nat) returns (res: Node?)
      requires Valid() && Sorted(InOrder(shape))
      ensures var order := InOrder(shape);
        exists i :: 0 <= i <= |order| && res == First(order[i..])
          && (forall j :: 0 <= j < i ==> order[j].item.addr < k)
          && (forall j :: i <= j < |order| ==> k <= order[j].item.addr)
    {
      var n := root;
      res := null;
      ghost var up, sub := Top, shape;
      while n != null
        invariant Valid() && shape == Plug(up, sub) && n == Root(sub) && res == First(After(up))
        invariant forall m :: m in Before(up) ==> m.item.addr < k
        invariant forall m :: m in After(up) ==> k <= m.item.addr
        decreases sub
      {
        LinksAt(shape, up, sub.l, sub.x, sub.r);
        AroundSorted(up, sub);
        if n.item.addr < k {
          n, up, sub := n.right, InRight(up, sub.l, sub.x), sub.r;
        } else {
          res := n;
          n, up, sub := n.left, InLeft(up, sub.x, sub.r), sub.l;
        }
      }
      PlugOrder(up, Leaf);
      CutPoint(InOrder(shape), Before(up), After(up));
    }

    /** The first node, in order, that is greater than `k`. */
    method UpperBound(k: nat) returns (res: Node?)
      requires Valid() && Sorted(InOrder(shape))
      ensures var order := InOrder(shape);
        exists i :: 0 <= i <= |order| && res == First(order[i..])
          && (forall j :: 0 <= j < i ==> order[j].item.addr <= k)
          && (forall j :: i <= j < |order| ==> k < order[j].item.addr)
    {
      var n := root;
      res := null;
      ghost var up, sub := Top, shape;
      while n != null
        invariant Valid() && shape == Plug(up, sub) && n == Root(sub) && res == First(After(up))
        invariant Splits(up, k)
        decreases sub
      {
        LinksAt(shape, up, sub.l, sub.x, sub.r);
        Descend(up, sub, k);
        if k < n.item.addr {
          res := n;
          n, up, sub := n.left, InLeft(up, sub.x, sub.r), sub.l;
        } else {
          n, up, sub := n.right, InRight(up, sub.l, sub.x), sub.r;
        }
      }
      PlugOrder(up, Leaf);
      CutPoint(InOrder(shape), Before(up), After(up));
    }

    /** Iteration: from `begin`, by `++`, to the first node whose item satisfies `p`;
        `k` nodes come before it in order. */
    method FindIf(p: Item -> bool) returns (found: Node?, ghost k: nat)
      requires Valid()
      ensures k <= |InOrder(shape)| && found == First(InOrder(shape)[k..])
      ensures forall j :: 0 <= j < k ==> !p(InOrder(shape)[j].item)
      ensures k < |InOrder(shape)| ==> p(InOrder(shape)[k].item)
      ensures found == null ==> forall j :: 0 <= j < |InOrder(shape)| ==> !p(InOrder(shape)[j].item)
      ensures found != null ==> p(found.item)
    {
      ghost var c, l, r;
      found, c, l, r := Begin();
      ghost var seen := [];
      hide Came, First;
      while found != null && !p(found.item)
        invariant Valid() && Came(shape, found, c, l, r, seen)
        invariant forall j :: 0 <= j < |seen| ==> !p(seen[j].item)
        decreases |InOrder(shape)| - |seen|
      {
        ghost var x: Node := found;
        CameOn(shape, found, c, l, r, seen);
        found, c, l, r := Next(found, c, l, r, seen);
        seen := seen + [x];
      }
      CameOut(shape, found, c, l, r, seen);
      k := |seen|;
    }

    // `begin`.
    method Begin() returns (found: Node?, ghost c: Path, ghost l: Shape, ghost r: Shape)
      requires Valid()
      ensures Valid() && Came(shape, found, c, l, r, [])
    {
      found, c, l, r := root, Top, Leaf, Leaf;
      if root != null {
        LinksAt(shape, Top, shape.l, shape.x, shape.r);
        found := MinimumNode(root, Top, shape);
        MinSplits(shape, Top);
        c, l, r := MinPath(shape, Top), Leaf, MinTree(shape).r;
        AllLeftBefore(c);
      }
    }

    // `++`.
    method Next(x: Node, ghost c: Path, ghost l: Shape, ghost r: Shape, ghost seen: seq<Node>)
      returns (found: Node?, ghost c': Path, ghost l': Shape, ghost r': Shape)
      requires Valid() && Came(shape, x, c, l, r, seen)
      ensures Valid() && Came(shape, found, c', l', r', seen + [x])
    {
      OrderAround(c, l, x, r);
      found := SuccessorNode(x, c, l, r);
      c', l', r' := Advance(shape, c, l, x, r);
    }

    /** Takes `x` out of the tree, or leaves a detached node detached. `passes` counts
        the turns of the loop, the last one included. */
    method Remove(x: Node) returns (ghost passes: nat)
      requires Valid()
      requires x !in Nodes(shape) ==> x.Detached()
      modifies this, x, Nodes(shape)
      ensures Valid() && x.Detached() && passes <= 2
      ensures x in old(Nodes(shape)) ==> Nodes(shape) == old(Nodes(shape)) - {x}
      ensures x in old(Nodes(shape)) ==> TakenOut(old(InOrder(shape)), x, InOrder(shape))
      ensures x !in old(Nodes(shape)) ==> shape == old(shape) && root == old(root)
      ensures x !in old(Nodes(shape)) ==> LinkMap(Nodes(shape)) == old(LinkMap(Nodes(shape)))
    {
      ghost var attached := x in Nodes(shape);
      ghost var c, l, r := Top, Leaf, Leaf;
      if attached {
        c, l, r := Locate(shape, x, Top);
        LinksAt(shape, c, l, x, r);
        LeavingFromStart(c, l, x, r);
      }
      passes := 1;
      while x.left != null && x.right != null
        invariant Valid() && Nodes(shape) == old(Nodes(shape))
        invariant attached ==> Standing(shape, c, l, x, r) && Leaving(old(InOrder(shape)), c, l, x, r)
        invariant !attached ==>
          x.Detached() && shape == old(shape) && root == old(root)
          && LinkMap(Nodes(shape)) == old(LinkMap(Nodes(shape)))
        invariant passes <= 2 && (passes == 2 ==> l == Leaf)
        decreases 2 - passes
      {
        c, l, r := SwapOnce(x, c, l, r);
        passes := passes + 1;
      }
      Unhook(x, attached, c, l, r);
    }

    // One turn of the loop in `remove` for a node with two children.
    method SwapOnce(x: Node, ghost c: Path, ghost l: Shape, ghost r: Shape)
      returns (ghost c': Path, ghost l': Shape, ghost r': Shape)
      requires Valid() && Standing(shape, c, l, x, r) && l != Leaf && r != Leaf
      modifies this, Nodes(shape)
      ensures Valid() && Nodes(shape) == old(Nodes(shape))
      ensures Standing(shape, c', l', x, r') && l' == Leaf
      ensures forall order :: Leaving(order, c, l, x, r) ==> Leaving(order, c', l', x, r')
    {
      var t := SuccessorNode(x, c, l, r);
      ghost var d, rr := MinPath(r, Top), MinTree(r).r;
      MinSplits(r, Top);
      SwapWithSuccessor(x, t, c, l, d, rr);
      SwapThenUnhookOrder(c, l, x, d, t, rr);
      ThroughPlugs(c, l, t, d, Bin(Leaf, x, rr));
      ThroughPlugs(c, l, t, d, rr);
      TakenOutBetween(Before(c) + InOrder(l), x, InOrder(Plug(d, Bin(Leaf, t, rr))) + After(c));
      c', l', r' := Through(c, l, t, d), Leaf, rr;
      LinksAt(shape, c', l', x, r');
    }

    // The end of `remove`: a node with at most one child gives way to it.
    method Unhook(x: Node, ghost attached: bool, ghost c: Path, ghost l: Shape, ghost r: Shape)
      requires Valid() && (x.left == null || x.right == null)
      requires attached ==> Standing(shape, c, l, x, r)
      requires !attached ==> x.Detached() && x !in Nodes(shape)
      modifies this, x, Nodes(shape)
      ensures Valid() && x.Detached()
      ensures attached ==> shape == Plug(c, Child(l, r)) && Nodes(shape) == old(Nodes(shape)) - {x}
      ensures !attached ==>
        shape == old(shape) && root == old(root) && LinkMap(Nodes(shape)) == old(LinkMap(Nodes(shape)))
    {
      ghost var all, kept := Nodes(shape) + {x}, LinkMap(Nodes(shape));
      ghost var before := LinkMap(all);
      if attached {
        AttachedFacts(x, c, l, r, all, before);
      } else {
        DetachedFacts(x, all, before, kept);
      }
      hide *;
      var replacement := UnhookFrom(x, all, before);
      if root == x {
        root := replacement;
      }
      if attached {
        UnhookedHangs(before, c, l, x, r);
        ChildRoot(l, r);
        shape := Plug(c, Child(l, r));
        ValidFrom();
      } else {
        Untouched(x, before, kept);
      }
    }

    lemma AttachedFacts(x: Node, c: Path, l: Shape, r: Shape, all: set<Node>, before: map<Node, Links>)
      requires Valid() && (x.left == null || x.right == null) && Standing(shape, c, l, x, r)
      requires all == Nodes(shape) + {x} && before == LinkMap(all)
      ensures CanUnhook(x, all) && all == Nodes(shape) == before.Keys && x in before
      ensures shape == Plug(c, Bin(l, x, r)) && Ok(shape) && root == Root(shape) && (root == x <==> c == Top)
      ensures forall n :: n in before ==> before[n] == LinksIn(Plug(c, Bin(l, x, r)), null, n)
      ensures before[x] == Links(Above(c, null), Root(l), Root(r)) && NextTo(before, c, l, x, r)
      ensures l == Leaf || r == Leaf
    {
      UnhookReady(shape, c, l, x, r);
      assert all == Nodes(shape);
      hide Plug, Nodes, LinksIn, Ok, CanUnhook, NextTo, Hangs;
    }

    lemma DetachedFacts(x: Node, all: set<Node>, before: map<Node, Links>, kept: map<Node, Links>)
      requires Valid() && x.Detached() && x !in Nodes(shape)
      requires all == Nodes(shape) + {x} && before == LinkMap(all) && kept == LinkMap(Nodes(shape))
      ensures CanUnhook(x, all) && x in before && before.Keys == all && kept.Keys == Nodes(shape)
      ensures before[x] == Links(null, null, null) && forall n :: n in kept ==> n in before && before[n] == kept[n]
      ensures Ok(shape) && root == Root(shape) && root != x
      ensures forall n :: n in kept ==> kept[n] == LinksIn(shape, null, n)
    {
      assert root != null ==> root in Nodes(shape);
      hide LinksIn, Ok;
    }

    // Taking out a node that is not in the tree changes no other.
    lemma Untouched(x: Node, before: map<Node, Links>, kept: map<Node, Links>)
      requires x in before && before[x] == Links(null, null, null) && x !in kept && kept.Keys == Nodes(shape)
      requires forall n :: n in kept ==> n in before && before[n] == kept[n] && kept[n] == LinksIn(shape, null, n)
      requires forall n :: n in kept ==> Fits(n, Relinked(before[n], before[x], n, x))
      requires Ok(shape) && root == Root(shape)
      ensures Valid() && LinkMap(Nodes(shape)) == kept
    {
      hide LinksIn, Ok;
    }

    lemma ValidFrom()
      requires Ok(shape) && root == Root(shape) && Hangs(shape, null)
      ensures Valid()
    {
    }

    static method UnhookFrom(x: Node, ghost all: set<Node>, ghost before: map<Node, Links>) returns (replacement: Node?)
      requires before == LinkMap(all) && CanUnhook(x, all)
      modifies all
      ensures x.Detached() && x in before
      ensures replacement == (if before[x].left != null then before[x].left else before[x].right)
      ensures forall n :: n in all && n != x ==> n in before && Fits(n, Relinked(before[n], before[x], n, x))
    {
      replacement := UnhookLinks(x, all);
    }

    /** The leftmost node of the tree `s`, which stands at the end of `c`. */
    method MinimumNode(node: Node, ghost c: Path, ghost s: Shape) returns (m: Node)
      requires Valid() && shape == Plug(c, s) && s != Leaf && node == s.x
      ensures Valid()
      ensures m == MinTree(s).x && InOrder(s) != [] && m == InOrder(s)[0]
    {
      m := node;
      ghost var cur, up := s, c;
      MinIsFirst(s);
      LinksAt(shape, up, cur.l, cur.x, cur.r);
      while m.left != null
        invariant Valid() && shape == Plug(up, cur) && cur != Leaf && m == cur.x
        invariant MinTree(cur) == MinTree(s) && m.left == Root(cur.l)
        decreases cur
      {
        m, up, cur := m.left, InLeft(up, cur.x, cur.r), cur.l;
        LinksAt(shape, up, cur.l, cur.x, cur.r);
      }
    }

    /** The node after `x` in order, or null; `c`, `l` and `r` say where `x` stands. */
    method SuccessorNode(x: Node, ghost c: Path, ghost l: Shape, ghost r: Shape) returns (t: Node?)
      requires Valid() && shape == Plug(c, Bin(l, x, r))
      ensures Valid()
      ensures t == First(InOrder(r) + After(c))
      ensures r != Leaf ==> t == MinTree(r).x
    {
      LinksAt(shape, c, l, x, r);
      if x.right != null {
        t := MinimumNode(x.right, InRight(c, l, x), r);
        assert InOrder(r) + After(c) == [t] + (InOrder(r)[1..] + After(c));
        return;
      }
      var node: Node := x;
      t := x.parent;
      ghost var up, s := c, Bin(l, x, r);
      while t != null && t.right == node
        invariant Valid() && shape == Plug(up, s) && s != Leaf
        invariant node == s.x && t == Above(up, null)
        invariant After(up) == After(c)
        decreases up
      {
        LinkAbove(shape, up, s);
        node := t;
        s, up := Bin(up.l, up.x, s), up.up;
        LinksAt(shape, up, s.l, s.x, s.r);
        t := node.parent;
      }
      if t != null {
        LinkAbove(shape, up, s);
      }
      assert InOrder(r) + After(c) == After(up);
    }

    // The step of `remove` for a node with two children.
    method SwapWithSuccessor(x: Node, t: Node, ghost c: Path, ghost l: Shape, ghost d: Path, ghost rr: Shape)
      requires Valid() && shape == WithTwo(c, l, x, d, t, rr)
      requires l != Leaf && AllLeft(d)
      modifies this, Nodes(shape)
      ensures Valid() && shape == WithTwo(c, l, t, d, x, rr)
      ensures Nodes(shape) == old(Nodes(shape))
    {
      ghost var all := Nodes(shape);
      ghost var before := LinkMap(all);
      AroundTwo(root, c, l, x, d, t, rr);
      SwapLinks(x, t, c, l, d, rr, all);
      if x == root {
        root := t;
      }
      SwappedAll(before, c, l, x, d, t, rr);
      shape := WithTwo(c, l, t, d, x, rr);
    }

    static method SwapLinks(x: Node, t: Node, ghost c: Path, ghost l: Shape, ghost d: Path, ghost rr: Shape,
        ghost all: set<Node>)
      requires Around(c, l, x, d, t, rr, all)
      modifies all
      ensures forall n :: n in all ==>
        Fits(n, Swapped(c, l, x, d, t, rr, n, Links(old(n.parent), old(n.left), old(n.right))))
    {
      if t == x.right {
        SwapAdjacent(x, t, Above(c, null), c.InLeft?, Root(l), Root(rr), all);
      } else {
        SwapDistant(x, t, Above(d, x), Above(c, null), c.InLeft?, Root(l), Summit(d), Root(rr), all);
      }
    }
  }

  ghost predicate TakenOut(s: seq<Node>, x: Node, t: seq<Node>) {
    exists k :: 0 <= k < |s| && s[k] == x && t == s[..k] + s[k + 1..]
  }

  // Where the successor of `x` stands.
  lemma Advance(s: Shape, c: Path, l: Shape, x: Node, r: Shape) returns (c': Path, l': Shape, r': Shape)
    requires Ok(s) && s == Plug(c, Bin(l, x, r))
    ensures var t, seen := First(InOrder(r) + After(c)), Before(c) + InOrder(l) + [x];
      && InOrder(s) == seen + (InOrder(r) + After(c))
      && (t != null ==> s == Plug(c', Bin(l', t, r')) && seen == Before(c') + InOrder(l'))
  {
    OrderAround(c, l, x, r);
    var rest, seen := InOrder(r) + After(c), Before(c) + InOrder(l) + [x];
    c', l', r' := c, l, r;
    if rest != [] {
      var t := rest[0];
      assert t in InOrder(s) by { assert InOrder(s)[|seen|] == t; }
      OrderDistinct(s);
      OrderMember(s, t);
      c', l', r' := Locate(s, t, Top);
      FromHere(c', l', t, r');
      hide *;
      SameSplit(InOrder(s), seen, rest, Before(c') + InOrder(l'), [t] + (InOrder(r') + After(c')));
    }
  }

  lemma FromHere(c: Path, l: Shape, x: Node, r: Shape)
    ensures InOrder(Plug(c, Bin(l, x, r))) == (Before(c) + InOrder(l)) + ([x] + (InOrder(r) + After(c)))
  {
    OrderAround(c, l, x, r);
    hide Plug, InOrder, Before, After;
  }

  // A node stands at one place in the order.
  lemma SameSplit(all: seq<Node>, a: seq<Node>, y: seq<Node>, b: seq<Node>, z: seq<Node>)
    requires forall i, j :: 0 <= i < j < |all| ==> all[i] != all[j]
    requires all == a + y && all == b + z && y != [] && z != [] && y[0] == z[0]
    ensures a == b
  {
    assert all[|a|] == y[0] && all[|b|] == z[0];
    assert a == all[..|a|] && b == all[..|b|];
  }

  lemma {:induction false} OrderMember(s: Shape, n: Node)
    ensures n in InOrder(s) <==> n in Nodes(s)
  {
    if s != Leaf {
      OrderMember(s.l, n);
      OrderMember(s.r, n);
    }
  }

  /** A well-formed tree lists every node once. */
  lemma {:induction false} OrderDistinct(s: Shape)
    requires Ok(s)
    ensures forall i, j :: 0 <= i < j < |InOrder(s)| ==> InOrder(s)[i] != InOrder(s)[j]
  {
    if s != Leaf {
      OrderDistinct(s.l);
      OrderDistinct(s.r);
      var a, b := InOrder(s.l), InOrder(s.r);
      forall i | 0 <= i < |a|
        ensures a[i] in Nodes(s.l)
      {
        OrderMember(s.l, a[i]);
      }
      forall i | 0 <= i < |b|
        ensures b[i] in Nodes(s.r)
      {
        OrderMember(s.r, b[i]);
      }
      Distinct(a, s.x, b);
    }
  }

  lemma Distinct(a: seq<Node>, x: Node, b: seq<Node>)
    requires forall i, j :: 0 <= i < |a| && 0 <= j < |b| ==> a[i] != b[j]
    requires forall i :: 0 <= i < |a| ==> a[i] != x
    requires forall i :: 0 <= i < |b| ==> b[i] != x
    requires forall i, j :: 0 <= i < j < |a| ==> a[i] != a[j]
    requires forall i, j :: 0 <= i < j < |b| ==> b[i] != b[j]
    ensures forall i, j :: 0 <= i < j < |a + [x] + b| ==> (a + [x] + b)[i] != (a + [x] + b)[j]
  {
    var s := a + [x] + b;
    assert forall i :: 0 <= i < |a| ==> s[i] == a[i];
    assert s[|a|] == x;
    assert forall i :: |a| < i < |s| ==> s[i] == b[i - |a| - 1];
  }

  predicate Sorted(s: seq<Node>) {
    forall i, j :: 0 <= i < j < |s| ==> s[i].item.addr <= s[j].item.addr
  }

  // Inserted behind everything that is not greater.
  ghost predicate PutIn(s: seq<Node>, x: Node, t: seq<Node>) {
    exists k :: 0 <= k <= |s| && t == s[..k] + [x] + s[k..]
      && (forall i :: 0 <= i < k ==> s[i].item.addr <= x.item.addr)
      && (forall i :: k <= i < |s| ==> x.item.addr < s[i].item.addr)
  }

  // A hole between what is at most `k` and what is greater.
  ghost predicate Splits(c: Path, k: nat) {
    (forall m :: m in Before(c) ==> m.item.addr <= k) && (forall m :: m in After(c) ==> k < m.item.addr)
  }

  lemma AroundSorted(c: Path, s: Shape)
    requires s != Leaf && Sorted(InOrder(Plug(c, s)))
    ensures forall m :: m in InOrder(s.l) ==> m.item.addr <= s.x.item.addr
    ensures forall m :: m in InOrder(s.r) ==> s.x.item.addr <= m.item.addr
  {
    OrderAround(c, s.l, s.x, s.r);
    hide *;
    SortedAround(Before(c) + InOrder(s.l), s.x, InOrder(s.r) + After(c));
  }

  lemma SortedAround(a: seq<Node>, x: Node, b: seq<Node>)
    requires Sorted(a + [x] + b)
    ensures forall m :: m in a ==> m.item.addr <= x.item.addr
    ensures forall m :: m in b ==> x.item.addr <= m.item.addr
  {
    var order := a + [x] + b;
    assert order[|a|] == x;
    forall m | m in a
      ensures m.item.addr <= x.item.addr
    {
      var i :| 0 <= i < |a| && a[i] == m;
      assert order[i] == m;
    }
    forall m | m in b
      ensures x.item.addr <= m.item.addr
    {
      var i :| 0 <= i < |b| && b[i] == m;
      assert order[|a| + 1 + i] == m;
    }
  }

  lemma Descend(c: Path, s: Shape, k: nat)
    requires s != Leaf && Sorted(InOrder(Plug(c, s))) && Splits(c, k)
    ensures k < s.x.item.addr ==> Splits(InLeft(c, s.x, s.r), k)
    ensures s.x.item.addr <= k ==> Splits(InRight(c, s.l, s.x), k)
  {
    AroundSorted(c, s);
  }

  lemma CutPoint(order: seq<Node>, a: seq<Node>, b: seq<Node>)
    requires order == a + [] + b
    ensures order[|a|..] == b && order[..|a|] == a
    ensures forall j :: 0 <= j < |a| ==> order[j] in a
    ensures forall j :: |a| <= j < |order| ==> order[j] in b
  {
  }

  lemma InsertedOrder(c: Path, x: Node)
    requires Sorted(InOrder(Plug(c, Leaf))) && Splits(c, x.item.addr)
    ensures var s, t := InOrder(Plug(c, Leaf)), InOrder(Plug(c, Bin(Leaf, x, Leaf)));
      PutIn(s, x, t) && Sorted(t)
  {
    PlugOrder(c, Leaf);
    PlugOrder(c, Bin(Leaf, x, Leaf));
    assert Before(c) + [] + After(c) == Before(c) + After(c);
    assert InOrder(Bin(Leaf, x, Leaf)) == [x];
    PutBetween(Before(c), x, After(c));
  }

  lemma PutBetween(a: seq<Node>, x: Node, b: seq<Node>)
    requires Sorted(a + b)
    requires forall i :: 0 <= i < |a| ==> a[i].item.addr <= x.item.addr
    requires forall i :: 0 <= i < |b| ==> x.item.addr < b[i].item.addr
    ensures PutIn(a + b, x, a + [x] + b) && Sorted(a + [x] + b)
  {
    var s := a + b;
    assert s[..|a|] == a && s[|a|..] == b;
    assert forall i :: 0 <= i < |a| ==> s[i] == a[i];
    assert forall i :: |a| <= i < |s| ==> s[i] == b[i - |a|];
    PutInAt(s, x, a + [x] + b, |a|);
    SortedPut(a, x, b);
  }

  lemma SortedPut(a: seq<Node>, x: Node, b: seq<Node>)
    requires Sorted(a + b)
    requires forall i :: 0 <= i < |a| ==> a[i].item.addr <= x.item.addr
    requires forall i :: 0 <= i < |b| ==> x.item.addr < b[i].item.addr
    ensures Sorted(a + [x] + b)
  {
    var s, t := a + b, a + [x] + b;
    assert t[|a|] == x;
    forall i | 0 <= i < |a|
      ensures t[i] == s[i] && t[i].item.addr <= x.item.addr
    {
      assert t[i] == a[i];
    }
    forall i | |a| < i < |t|
      ensures t[i] == s[i - 1] && x.item.addr <= t[i].item.addr
    {
      assert t[i] == b[i - |a| - 1];
    }
    hide *;
    SortedByParts(s, t, |a|);
  }

  lemma SortedByParts(s: seq<Node>, t: seq<Node>, k: nat)
    requires Sorted(s) && |t| == |s| + 1 && k < |t|
    requires forall i :: 0 <= i < k ==> t[i] == s[i] && t[i].item.addr <= t[k].item.addr
    requires forall i :: k < i < |t| ==> t[i] == s[i - 1] && t[k].item.addr <= t[i].item.addr
    ensures Sorted(t)
  {
  }

  lemma PutInAt(s: seq<Node>, x: Node, t: seq<Node>, k: nat)
    requires k <= |s| && t == s[..k] + [x] + s[k..]
    requires forall i :: 0 <= i < k ==> s[i].item.addr <= x.item.addr
    requires forall i :: k <= i < |s| ==> x.item.addr < s[i].item.addr
    ensures PutIn(s, x, t)
  {
  }

  function Rehung(k: Links, above: bool, isLeft: bool, x: Node): Links {
    if !above then k else if isLeft then k.(left := x) else k.(right := x)
  }

  lemma InsertedAll(before: map<Node, Links>, c: Path, x: Node)
    requires Ok(Plug(c, Leaf)) && before.Keys == Nodes(Plug(c, Leaf)) && x !in before
    requires forall n :: n in before ==> before[n] == LinksIn(Plug(c, Leaf), null, n)
    ensures var s := Plug(c, Bin(Leaf, x, Leaf));
      && Ok(s) && Nodes(s) == before.Keys + {x}
      && Root(s) == (if c == Top then x else Root(Plug(c, Leaf)))
      && LinksIn(s, null, x) == Links(Above(c, null), null, null)
      && (c != Top ==> c.x in before)
      && forall n :: n in before ==> LinksIn(s, null, n) == Rehung(before[n], n == Above(c, null), c.InLeft?, x)
  {
    var m := Bin(Leaf, x, Leaf);
    PlugNodes(c, Leaf);
    PlugOk(c, Leaf);
    PlugNodes(c, m);
    PlugOk(c, m);
    PlugLinksIn(c, m, null, x);
    if c != Top {
      SummitIsRoot(c, Leaf);
      SummitIsRoot(c, m);
    }
    forall n | n in before
      ensures LinksIn(Plug(c, m), null, n) == Rehung(before[n], n == Above(c, null), c.InLeft?, x)
    {
      PlugLinksOn(c, Leaf, null, n);
      PlugLinksOn(c, m, null, n);
      OtherHole(c, null, x, null, n);
    }
  }

  // The tree that takes the place of a node with at most one child.
  function Child(l: Shape, r: Shape): Shape {
    if l != Leaf then l else r
  }

  // `x` stands at the end of `c` with `l` and `r` below it.
  ghost predicate Standing(s: Shape, c: Path, l: Shape, x: Node, r: Shape)
    reads x
  {
    s == Plug(c, Bin(l, x, r)) && x in Nodes(s) && x.left == Root(l) && x.right == Root(r)
  }

  // Giving way to its child takes `x` out of the order.
  ghost predicate Leaving(order: seq<Node>, c: Path, l: Shape, x: Node, r: Shape) {
    if l == Leaf || r == Leaf then TakenOut(order, x, InOrder(Plug(c, Child(l, r))))
    else order == InOrder(Plug(c, Bin(l, x, r)))
  }

  lemma {:induction false} MinIsFirst(s: Shape)
    requires s != Leaf
    ensures InOrder(s) != [] && InOrder(s)[0] == MinTree(s).x
  {
    if s.l != Leaf {
      MinIsFirst(s.l);
    }
  }

  // The first node of a sequence, or none.
  function First(s: seq<Node>): Node? {
    if s == [] then null else s[0]
  }

  lemma TakenOutBetween(a: seq<Node>, x: Node, b: seq<Node>)
    ensures TakenOut(a + [x] + b, x, a + b)
  {
    var s := a + [x] + b;
    assert s[|a|] == x && s[..|a|] == a && s[|a| + 1..] == b;
  }

  lemma LeavingFromStart(c: Path, l: Shape, x: Node, r: Shape)
    ensures Leaving(InOrder(Plug(c, Bin(l, x, r))), c, l, x, r)
  {
    if l == Leaf || r == Leaf {
      OrderAround(c, l, x, r);
      PlugOrder(c, Child(l, r));
      RegroupChild(Before(c), InOrder(l), InOrder(r), After(c), InOrder(Child(l, r)));
      hide Plug, InOrder, Before, After, TakenOut;
      TakenOutBetween(Before(c) + InOrder(l), x, InOrder(r) + After(c));
    }
  }

  lemma RegroupChild<T>(a: seq<T>, b: seq<T>, d: seq<T>, e: seq<T>, child: seq<T>)
    requires (b == [] && child == d) || (d == [] && child == b)
    ensures (a + b) + (d + e) == a + child + e
  {
  }

  // What stands around a node.
  lemma AroundOne(c: Path, l: Shape, x: Node, r: Shape)
    requires Ok(Plug(c, Bin(l, x, r)))
    ensures var s := Plug(c, Bin(l, x, r));
      && x in Nodes(s) && LinksIn(s, null, x) == Links(Above(c, null), Root(l), Root(r))
      && (Root(s) == x <==> c == Top)
      && (l != Leaf ==> l.x in Nodes(s) && l.x != x && l.x != Above(c, null))
      && (r != Leaf ==> r.x in Nodes(s) && r.x != x && r.x != Above(c, null))
  {
    var m := Bin(l, x, r);
    PlugOk(c, m);
    PlugNodes(c, m);
    PlugLinksIn(c, m, null, x);
    AboveNotBelow(c, m);
    if c != Top {
      SummitIsRoot(c, m);
      SummitOnPath(c);
    }
  }

  lemma AboveOne(c: Path, s: Shape)
    requires c != Top && s != Leaf && Ok(Plug(c, s))
    ensures c.x in Nodes(Plug(c, s)) && c.x != s.x
    ensures var k := LinksIn(Plug(c, s), null, c.x);
      if c.InLeft? then k.left == s.x && k.right != s.x else k.left != s.x && k.right == s.x
  {
    PlugOk(c, s);
    PlugNodes(c, s);
    PlugLinksOn(c, s, null, c.x);
  }

  // Iteration has come to `found`, and seen all that comes before it.
  ghost predicate Came(s: Shape, found: Node?, c: Path, l: Shape, r: Shape, seen: seq<Node>) {
    && (found != null ==> s == Plug(c, Bin(l, found, r)) && seen == Before(c) + InOrder(l))
    && (found == null ==> seen == InOrder(s))
    && seen <= InOrder(s) && found == First(InOrder(s)[|seen|..])
  }

  lemma CameOn(s: Shape, found: Node?, c: Path, l: Shape, r: Shape, seen: seq<Node>)
    requires Came(s, found, c, l, r, seen) && found != null
    ensures |seen| < |InOrder(s)|
  {
  }

  lemma CameOut(s: Shape, found: Node?, c: Path, l: Shape, r: Shape, seen: seq<Node>)
    requires Came(s, found, c, l, r, seen)
    ensures |seen| <= |InOrder(s)| && found == First(InOrder(s)[|seen|..])
    ensures forall j :: 0 <= j < |seen| ==> InOrder(s)[j] == seen[j]
    ensures if found == null then |seen| == |InOrder(s)| else |seen| < |InOrder(s)| && InOrder(s)[|seen|] == found
  {
  }

  lemma {:induction false} LinksAt(s: Shape, c: Path, l: Shape, x: Node, r: Shape)
    requires Ok(s) && Hangs(s, null) && s == Plug(c, Bin(l, x, r))
    ensures x in Nodes(s) && x.parent == Above(c, null) && x.left == Root(l) && x.right == Root(r)
    ensures Root(s) == x <==> c == Top
    ensures l != Leaf ==> l.x in Nodes(s) && l.x != x && l.x != Above(c, null)
    ensures r != Leaf ==> r.x in Nodes(s) && r.x != x && r.x != Above(c, null)
  {
    AroundOne(c, l, x, r);
    HangsAt(s, null, x);
  }

  lemma LinkAbove(s: Shape, c: Path, t: Shape)
    requires Ok(s) && Hangs(s, null) && s == Plug(c, t) && t != Leaf
    ensures c != Top ==> c.x in Nodes(s) && c.x != t.x
    ensures c.InLeft? ==> c.x.left == t.x && c.x.right != t.x
    ensures c.InRight? ==> c.x.left != t.x && c.x.right == t.x
  {
    if c != Top {
      AboveOne(c, t);
      HangsAt(s, null, c.x);
    }
  }

  lemma HangsAt(s: Shape, p: Node?, n: Node)
    requires Hangs(s, p) && n in Nodes(s)
    ensures Links(n.parent, n.left, n.right) == LinksIn(s, p, n)
  {
    assert Fits(n, LinksIn(s, p, n));
  }

  lemma UnhookedAll(before: map<Node, Links>, c: Path, l: Shape, x: Node, r: Shape)
    requires l == Leaf || r == Leaf
    requires Ok(Plug(c, Bin(l, x, r))) && before.Keys == Nodes(Plug(c, Bin(l, x, r)))
    requires forall n :: n in before ==> before[n] == LinksIn(Plug(c, Bin(l, x, r)), null, n)
    ensures var child := Child(l, r);
      && Ok(Plug(c, child)) && Nodes(Plug(c, child)) == before.Keys - {x}
      && Root(Plug(c, child)) == (if c == Top then Root(child) else Root(Plug(c, Bin(l, x, r))))
      && forall n :: n in before && n != x ==>
        LinksIn(Plug(c, child), null, n) == Unhooked(c, x, Root(child), n, before[n])
  {
    var child := Child(l, r);
    PlugOk(c, Bin(l, x, r));
    PlugNodes(c, Bin(l, x, r));
    PlugOk(c, child);
    PlugNodes(c, child);
    forall n | n in before && n != x
      ensures LinksIn(Plug(c, child), null, n) == Unhooked(c, x, Root(child), n, before[n])
    {
      UnhookedIs(c, l, x, r, n);
    }
    if c != Top {
      SummitIsRoot(c, Bin(l, x, r));
      SummitIsRoot(c, child);
    }
  }

  lemma InsertedHangs(before: map<Node, Links>, c: Path, x: Node)
    requires Ok(Plug(c, Leaf)) && before.Keys == Nodes(Plug(c, Leaf)) && x !in before
    requires forall n :: n in before ==> before[n] == LinksIn(Plug(c, Leaf), null, n)
    requires Fits(x, Links(Above(c, null), null, null))
    requires forall n :: n in before ==> Fits(n, Rehung(before[n], n == Above(c, null), c.InLeft?, x))
    ensures var s := Plug(c, Bin(Leaf, x, Leaf));
      Ok(s) && Hangs(s, null) && Nodes(s) == before.Keys + {x}
        && Root(s) == (if c == Top then x else Root(Plug(c, Leaf)))
  {
    InsertedAll(before, c, x);
    hide Plug, Nodes, LinksIn, Ok, Rehung, Root;
  }

  // The links of `n` once `x`, whose links were `kx`, has given way to its child.
  ghost function Relinked(k: Links, kx: Links, n: Node, x: Node): Links {
    var child := if kx.left != null then kx.left else kx.right;
    Links(
      if n == child then kx.parent else k.parent,
      if n == kx.parent && k.left == x then child else k.left,
      if n == kx.parent && k.left != x then child else k.right)
  }

  ghost predicate CanUnhook(x: Node, all: set<Node>)
    reads all
  {
    && x in all && (x.left == null || x.right == null)
    && (x.parent != null ==> x.parent in all && x.parent != x && (x.parent.left == x || x.parent.right == x))
    && (x.left != null ==> x.left in all && x.left != x && x.left != x.parent)
    && (x.right != null ==> x.right in all && x.right != x && x.right != x.parent)
  }

  // How the node above `x` is linked.
  ghost predicate NextTo(links: map<Node, Links>, c: Path, l: Shape, x: Node, r: Shape) {
    c != Top ==> c.x in links && (c.InLeft? <==> links[c.x].left == x) && Root(l) != c.x && Root(r) != c.x
  }

  lemma {:induction false} UnhookReady(s: Shape, c: Path, l: Shape, x: Node, r: Shape)
    requires Ok(s) && Hangs(s, null) && s == Plug(c, Bin(l, x, r)) && (x.left == null || x.right == null)
    ensures x in Nodes(s) && CanUnhook(x, Nodes(s)) && (Root(s) == x <==> c == Top)
    ensures LinkMap(Nodes(s))[x] == Links(Above(c, null), Root(l), Root(r)) && NextTo(LinkMap(Nodes(s)), c, l, x, r)
    ensures forall n :: n in Nodes(s) ==> LinkMap(Nodes(s))[n] == LinksIn(s, null, n)
  {
    LinksAt(s, c, l, x, r);
    LinkAbove(s, c, Bin(l, x, r));
    hide Plug, LinksIn, Nodes, Ok;
  }

  lemma RelinkedAll(before: map<Node, Links>, c: Path, l: Shape, x: Node, r: Shape)
    requires (l == Leaf || r == Leaf) && x in before && before[x] == Links(Above(c, null), Root(l), Root(r))
    requires NextTo(before, c, l, x, r)
    ensures forall n :: n in before ==>
      Relinked(before[n], before[x], n, x) == Unhooked(c, x, Root(Child(l, r)), n, before[n])
  {
  }

  // What takes the place of a node with at most one child.
  lemma ChildRoot(l: Shape, r: Shape)
    requires l == Leaf || r == Leaf
    ensures Root(Child(l, r)) == if Root(l) != null then Root(l) else Root(r)
  {
  }

  lemma UnhookedHangs(before: map<Node, Links>, c: Path, l: Shape, x: Node, r: Shape)
    requires l == Leaf || r == Leaf
    requires Ok(Plug(c, Bin(l, x, r))) && before.Keys == Nodes(Plug(c, Bin(l, x, r)))
    requires forall n :: n in before ==> before[n] == LinksIn(Plug(c, Bin(l, x, r)), null, n)
    requires x in before && forall n :: n in before && n != x ==> Fits(n, Relinked(before[n], before[x], n, x))
    requires before[x] == Links(Above(c, null), Root(l), Root(r)) && NextTo(before, c, l, x, r)
    ensures var s := Plug(c, Child(l, r));
      && Ok(s) && Hangs(s, null) && Nodes(s) == before.Keys - {x}
      && Root(s) == (if c == Top then Root(Child(l, r)) else Root(Plug(c, Bin(l, x, r))))
  {
    RelinkedAll(before, c, l, x, r);
    UnhookedAll(before, c, l, x, r);
    hide Relinked, Unhooked, NextTo;
  }

  lemma SwappedRoot(c: Path, l: Shape, x: Node, d: Path, t: Node, rr: Shape)
    ensures Root(WithTwo(c, l, t, d, x, rr)) == if c == Top then t else Root(WithTwo(c, l, x, d, t, rr))
  {
    if c != Top {
      SummitIsRoot(c, Bin(l, x, Plug(d, Bin(Leaf, t, rr))));
      SummitIsRoot(c, Bin(l, t, Plug(d, Bin(Leaf, x, rr))));
    }
  }

  lemma SwappedAll(before: map<Node, Links>, c: Path, l: Shape, x: Node, d: Path, t: Node, rr: Shape)
    requires l != Leaf && AllLeft(d) && Ok(WithTwo(c, l, x, d, t, rr))
    requires before.Keys == Nodes(WithTwo(c, l, x, d, t, rr))
    requires forall n :: n in before ==> before[n] == LinksIn(WithTwo(c, l, x, d, t, rr), null, n)
    ensures var s := WithTwo(c, l, t, d, x, rr);
      && Ok(s) && Nodes(s) == before.Keys
      && Root(s) == (if c == Top then t else Root(WithTwo(c, l, x, d, t, rr)))
      && forall n :: n in before ==> LinksIn(s, null, n) == Swapped(c, l, x, d, t, rr, n, before[n])
  {
    ApartExactly(c, l, x, d, t, rr);
    ApartExactly(c, l, t, d, x, rr);
    SwappedRoot(c, l, x, d, t, rr);
    hide WithTwo, LinksIn, Swapped, Nodes;
    forall n | n in before
      ensures LinksIn(WithTwo(c, l, t, d, x, rr), null, n) == Swapped(c, l, x, d, t, rr, n, before[n])
    {
      SwappedIs(c, l, x, d, t, rr, n);
    }
  }

  ghost predicate Around(c: Path, l: Shape, x: Node, d: Path, t: Node, rr: Shape, all: set<Node>)
    reads all
  {
    && l != Leaf && x in all && t in all && Root(l) in all
    && (Above(c, null) != null ==> Above(c, null) in all) && (Root(rr) != null ==> Root(rr) in all)
    && (d == Top <==> x.right == t)
    && (d == Top ==> Adjacent(x, t, Above(c, null), c.InLeft?, Root(l), Root(rr)))
    && (d != Top ==> Summit(d) in all && Above(d, x) in all)
    && (d != Top ==> Distant(x, t, Above(d, x), Above(c, null), c.InLeft?, Root(l), Summit(d), Root(rr)))
  }

  // What stands around a node and its successor.
  lemma AroundTwo(root: Node?, c: Path, l: Shape, x: Node, d: Path, t: Node, rr: Shape)
    requires l != Leaf && AllLeft(d)
    requires var s := WithTwo(c, l, x, d, t, rr); Ok(s) && root == Root(s) && Hangs(s, null)
    ensures root == x <==> c == Top
    ensures Around(c, l, x, d, t, rr, Nodes(WithTwo(c, l, x, d, t, rr)))
  {
    ApartExactly(c, l, x, d, t, rr);
    LinksWithTwo(c, l, x, d, t, rr, x);
    LinksWithTwo(c, l, x, d, t, rr, t);
    if c != Top {
      AboveNotBelow(c, l);
      LinksWithTwo(c, l, x, d, t, rr, Above(c, null));
      OtherHole(c, x, t, null, Above(c, null));
    }
    if d != Top {
      SummitOnPath(d);
      AboveNotBelow(d, rr);
      LinksWithTwo(c, l, x, d, t, rr, Above(d, x));
      OtherHole(d, t, x, x, Above(d, x));
    }
  }
}
