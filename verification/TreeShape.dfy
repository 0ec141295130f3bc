/** Binary trees of linked nodes, as values: which links a shape stands for, and how
    a shape is taken apart around one of its nodes. */
module TreeShape {
  import opened MemoryTypes

  class Node {
    const item: Item
    var parent: Node?
    var left: Node?
    var right: Node?

    constructor (item: Item)
      ensures this.item == item && Detached()
    {
      this.item := item;
      parent, left, right := null, null, null;
    }

    predicate Detached()
      reads this
    {
      parent == null && left == null && right == null
    }
  }

  datatype Links = Links(parent: Node?, left: Node?, right: Node?)

  datatype Shape = Leaf | Bin(l: Shape, x: Node, r: Shape)

  ghost function Nodes(s: Shape): set<Node> {
    match s
    case Leaf => {}
    case Bin(l, x, r) => Nodes(l) + {x} + Nodes(r)
  }

  function InOrder(s: Shape): seq<Node> {
    match s
    case Leaf => []
    case Bin(l, x, r) => InOrder(l) + [x] + InOrder(r)
  }

  // No node occurs twice.
  ghost predicate Ok(s: Shape) {
    match s
    case Leaf => true
    case Bin(l, x, r) => Ok(l) && Ok(r) && x !in Nodes(l) && x !in Nodes(r) && Nodes(l) !! Nodes(r)
  }

  function Root(s: Shape): Node? {
    if s == Leaf then null else s.x
  }

  // The three links of node `n` when the tree `s` hangs below `p`.
  ghost function LinksIn(s: Shape, p: Node?, n: Node): Links
    requires n in Nodes(s)
  {
    if n == s.x then Links(p, Root(s.l), Root(s.r))
    else if n in Nodes(s.l) then LinksIn(s.l, s.x, n)
    else LinksIn(s.r, s.x, n)
  }

  // A tree with a hole: the way up from it.
  datatype Path = Top | InLeft(up: Path, x: Node, r: Shape) | InRight(up: Path, l: Shape, x: Node)

  function Plug(c: Path, s: Shape): Shape {
    match c
    case Top => s
    case InLeft(up, x, r) => Plug(up, Bin(s, x, r))
    case InRight(up, l, x) => Plug(up, Bin(l, x, s))
  }

  ghost function PathNodes(c: Path): set<Node> {
    match c
    case Top => {}
    case InLeft(up, x, r) => PathNodes(up) + {x} + Nodes(r)
    case InRight(up, l, x) => PathNodes(up) + {x} + Nodes(l)
  }

  // The node above the hole; `p` is above the whole tree.
  function Above(c: Path, p: Node?): Node? {
    if c == Top then p else c.x
  }

  ghost predicate PathOk(c: Path) {
    match c
    case Top => true
    case InLeft(up, x, r) => PathOk(up) && Ok(r) && x !in Nodes(r) && x !in PathNodes(up) && Nodes(r) !! PathNodes(up)
    case InRight(up, l, x) => PathOk(up) && Ok(l) && x !in Nodes(l) && x !in PathNodes(up) && Nodes(l) !! PathNodes(up)
  }

  // The links of a node on the way up, when the hole is filled with a tree rooted at `h`.
  ghost function LinksOn(c: Path, h: Node?, p: Node?, n: Node): Links
    requires n in PathNodes(c)
  {
    match c
    case InLeft(up, x, r) =>
      if n == x then Links(Above(up, p), h, Root(r))
      else if n in Nodes(r) then LinksIn(r, x, n)
      else LinksOn(up, x, p, n)
    case InRight(up, l, x) =>
      if n == x then Links(Above(up, p), Root(l), h)
      else if n in Nodes(l) then LinksIn(l, x, n)
      else LinksOn(up, x, p, n)
  }

  function Before(c: Path): seq<Node> {
    match c
    case Top => []
    case InLeft(up, x, r) => Before(up)
    case InRight(up, l, x) => Before(up) + InOrder(l) + [x]
  }

  function After(c: Path): seq<Node> {
    match c
    case Top => []
    case InLeft(up, x, r) => [x] + InOrder(r) + After(up)
    case InRight(up, l, x) => After(up)
  }

  // ----- lemmas -----

  lemma {:induction false} PlugNodes(c: Path, s: Shape)
    ensures Nodes(Plug(c, s)) == PathNodes(c) + Nodes(s)
  {
    match c
    case Top =>
    case InLeft(up, x, r) => PlugNodes(up, Bin(s, x, r));
    case InRight(up, l, x) => PlugNodes(up, Bin(l, x, s));
  }

  lemma {:induction false} PlugOk(c: Path, s: Shape)
    ensures Ok(Plug(c, s)) <==> PathOk(c) && Ok(s) && PathNodes(c) !! Nodes(s)
  {
    match c
    case Top =>
    case InLeft(up, x, r) => PlugOk(up, Bin(s, x, r));
    case InRight(up, l, x) => PlugOk(up, Bin(l, x, s));
  }

  lemma Regrouped(a: seq<Node>, l: seq<Node>, x: Node, r: seq<Node>, z: seq<Node>)
    ensures a + (l + [x] + r) + z == a + l + ([x] + r + z)
    ensures a + (l + [x] + r) + z == (a + l + [x]) + r + z
  {
  }

  lemma {:induction false} PlugOrder(c: Path, s: Shape)
    ensures InOrder(Plug(c, s)) == Before(c) + InOrder(s) + After(c)
  {
    match c
    case Top =>
    case InLeft(up, x, r) =>
      PlugOrder(up, Bin(s, x, r));
      Regrouped(Before(up), InOrder(s), x, InOrder(r), After(up));
    case InRight(up, l, x) =>
      PlugOrder(up, Bin(l, x, s));
      Regrouped(Before(up), InOrder(l), x, InOrder(s), After(up));
  }

  lemma {:induction false} PlugLinksIn(c: Path, s: Shape, p: Node?, n: Node)
    requires Ok(Plug(c, s)) && n in Nodes(s)
    ensures n in Nodes(Plug(c, s))
    ensures LinksIn(Plug(c, s), p, n) == LinksIn(s, Above(c, p), n)
  {
    PlugNodes(c, s);
    match c
    case Top =>
    case InLeft(up, x, r) =>
      PlugOk(up, Bin(s, x, r));
      PlugLinksIn(up, Bin(s, x, r), p, n);
    case InRight(up, l, x) =>
      PlugOk(up, Bin(l, x, s));
      PlugLinksIn(up, Bin(l, x, s), p, n);
  }

  lemma {:induction false} PlugLinksOn(c: Path, s: Shape, p: Node?, n: Node)
    requires Ok(Plug(c, s)) && n in PathNodes(c)
    ensures n in Nodes(Plug(c, s))
    ensures LinksIn(Plug(c, s), p, n) == LinksOn(c, Root(s), p, n)
  {
    PlugNodes(c, s);
    match c
    case InLeft(up, x, r) =>
      PlugOk(up, Bin(s, x, r));
      if n in PathNodes(up) {
        PlugLinksOn(up, Bin(s, x, r), p, n);
      } else {
        PlugLinksIn(up, Bin(s, x, r), p, n);
      }
    case InRight(up, l, x) =>
      PlugOk(up, Bin(l, x, s));
      if n in PathNodes(up) {
        PlugLinksOn(up, Bin(l, x, s), p, n);
      } else {
        PlugLinksIn(up, Bin(l, x, s), p, n);
      }
  }

  /** Filling the hole differently changes one child link of the node above it. */
  lemma OtherHole(c: Path, h: Node?, h': Node?, p: Node?, n: Node)
    requires n in PathNodes(c) && PathOk(c)
    ensures var k := LinksOn(c, h, p, n);
      LinksOn(c, h', p, n) ==
        if n != Above(c, p) then k else if c.InLeft? then k.(left := h') else k.(right := h')
    ensures n == Above(c, p) ==> (if c.InLeft? then LinksOn(c, h, p, n).left == h else LinksOn(c, h, p, n).right == h)
  {
  }

  /** Hanging a tree elsewhere changes the parent link of its root. */
  lemma OtherParent(s: Shape, p: Node?, p': Node?, n: Node)
    requires n in Nodes(s) && Ok(s)
    ensures LinksIn(s, p', n) == if n == Root(s) then LinksIn(s, p, n).(parent := p') else LinksIn(s, p, n)
  {
  }

  lemma {:induction false} Locate(s: Shape, n: Node, c: Path) returns (d: Path, l: Shape, r: Shape)
    requires n in Nodes(s)
    ensures Plug(d, Bin(l, n, r)) == Plug(c, s)
  {
    if n == s.x {
      d, l, r := c, s.l, s.r;
    } else if n in Nodes(s.l) {
      d, l, r := Locate(s.l, n, InLeft(c, s.x, s.r));
    } else {
      d, l, r := Locate(s.r, n, InRight(c, s.l, s.x));
    }
  }
}
