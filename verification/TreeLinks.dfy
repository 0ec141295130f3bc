/** The pointer surgery of `remove`, apart from what the links mean. */
module TreeLinks {
  import opened TreeShape

  // `x` has the children `l` and `r`; `t` is somewhere below `r`, the left child of
  // `q`, and has `rr` as its only child. `up` is above `x`.
  ghost predicate Distant(x: Node, t: Node, q: Node, up: Node?, isLeft: bool, l: Node, r: Node, rr: Node?)
    reads x, t, q, up
  {
    && x.parent == up && x.left == l && x.right == r
    && t.parent == q && t.left == null && t.right == rr
    && q.left == t
    && (up != null ==> if isLeft then up.left == x else up.left != x && up.right == x)
    && x != t && x != q && t != q && r != t && r != x
    && l != x && l != t && l != q && l != r
    && rr != x && rr != t && rr != q && rr != l && rr != r
    && up != x && up != t && up != q && up != l && up != r && (up != null ==> up != rr)
  }

  method SwapDistant(x: Node, t: Node, ghost q: Node, ghost up: Node?, ghost isLeft: bool, ghost l: Node,
      ghost r: Node, ghost rr: Node?, ghost all: set<Node>)
    requires Distant(x, t, q, up, isLeft, l, r, rr)
    requires x in all && t in all && q in all && l in all && r in all && (up != null ==> up in all)
    requires (rr != null ==> rr in all)
    modifies all
    ensures forall n :: n in all ==>
      n.parent ==
        (if n == x then q else if n == t then up else if n == l || n == r then t else if n == rr then x
        else old(n.parent))
    ensures forall n :: n in all ==>
      n.left ==
        (if n == x then null else if n == t then l else if n == q then x else if n == up && isLeft then t
        else old(n.left))
    ensures forall n :: n in all ==>
      n.right == (if n == x then rr else if n == t then r else if n == up && !isLeft then t else old(n.right))
  {
    UpdateParentOf(t, x, all);
    UpdateParentOf(x, t, all);
    x.left, t.left := t.left, x.left;
    x.right, t.right := t.right, x.right;
    x.parent, t.parent := t.parent, x.parent;
    ReparentChildNodes(x, all);
    ReparentChildNodes(t, all);
  }

  // `t`, the right child of `x`, has no left child.
  ghost predicate Adjacent(x: Node, t: Node, up: Node?, isLeft: bool, l: Node, rr: Node?)
    reads x, t, up
  {
    && x.parent == up && x.left == l && x.right == t
    && t.parent == x && t.left == null && t.right == rr
    && (up != null ==> if isLeft then up.left == x else up.left != x && up.right == x)
    && x != t && l != x && l != t && rr != x && rr != t && rr != l
    && up != x && up != t && up != l && (up != null ==> up != rr)
  }

  method SwapAdjacent(x: Node, t: Node, ghost up: Node?, ghost isLeft: bool, ghost l: Node, ghost rr: Node?,
      ghost all: set<Node>)
    requires Adjacent(x, t, up, isLeft, l, rr)
    requires x in all && t in all && l in all && (up != null ==> up in all) && (rr != null ==> rr in all)
    modifies all
    ensures forall n :: n in all ==>
      n.parent ==
        (if n == x then t else if n == t then up else if n == l then t else if n == rr then x else old(n.parent))
    ensures forall n :: n in all ==>
      n.left == (if n == x then null else if n == t then l else if n == up && isLeft then t else old(n.left))
    ensures forall n :: n in all ==>
      n.right == (if n == x then rr else if n == t then x else if n == up && !isLeft then t else old(n.right))
  {
    UpdateParentOf(x, t, all);
    t.parent := x.parent;
    x.left, t.left := t.left, x.left;
    x.right := t.right;
    t.right := x;
    ReparentChildNodes(x, all);
    ReparentChildNodes(t, all);
  }

  // A node with at most one child leaves; its child, if any, takes its place.
  method UnhookLinks(x: Node, ghost all: set<Node>) returns (replacement: Node?)
    requires x in all && (x.left == null || x.right == null)
    requires x.parent != null ==> x.parent in all && x.parent != x && (x.parent.left == x || x.parent.right == x)
    requires x.left != null ==> x.left in all && x.left != x && x.left != x.parent
    requires x.right != null ==> x.right in all && x.right != x && x.right != x.parent
    modifies all
    ensures replacement == old(if x.left != null then x.left else x.right)
    ensures x.Detached()
    ensures forall n :: n in all && n != x ==>
      n.parent == if n == replacement then old(x.parent) else old(n.parent)
    ensures forall n :: n in all && n != x ==>
      n.left == if n == old(x.parent) && old(n.left) == x then replacement else old(n.left)
    ensures forall n :: n in all && n != x ==>
      n.right == if n == old(x.parent) && old(n.left) != x then replacement else old(n.right)
  {
    replacement := null;
    if x.left != null {
      replacement, x.left := x.left, replacement;
    } else if x.right != null {
      replacement, x.right := x.right, replacement;
    }
    UpdateParentOf(x, replacement, all);
    if replacement != null {
      replacement.parent := x.parent;
    }
    x.parent := null;
  }

  /** The child link that led to `removed` leads to `replacement`. */
  method UpdateParentOf(removed: Node, replacement: Node?, ghost all: set<Node>)
    requires removed.parent != null ==>
      removed.parent in all && (removed.parent.left == removed || removed.parent.right == removed)
    modifies all
    ensures forall n :: n in all ==> n.parent == old(n.parent)
    ensures forall n :: n in all ==>
      n.left == (if n == old(removed.parent) && old(n.left) == removed then replacement else old(n.left))
    ensures forall n :: n in all ==>
      n.right == (if n == old(removed.parent) && old(n.left) != removed then replacement else old(n.right))
  {
    if removed.parent != null {
      if removed.parent.left == removed {
        removed.parent.left := replacement;
      } else {
        removed.parent.right := replacement;
      }
    }
  }

  /** The children of `n` point back at it. */
  method ReparentChildNodes(n: Node, ghost all: set<Node>)
    requires n in all
    requires (n.left != null ==> n.left in all) && (n.right != null ==> n.right in all)
    modifies all
    ensures forall m :: m in all ==> m.parent == (if m == old(n.left) || m == old(n.right) then n else old(m.parent))
    ensures forall m :: m in all ==> m.left == old(m.left) && m.right == old(m.right)
  {
    if n.left != null {
      n.left.parent := n;
    }
    if n.right != null {
      n.right.parent := n;
    }
  }
}
