/** Reading AML: terms, data objects, and lists of objects. */
module AmlParser {
  import opened Options
  import opened Octets
  import opened AmlBytes
  import opened NameSpaces

  datatype Node =
    | Const(bits: nat, value: nat)
    | String(text: Bytes)
    | ElementName(name: Bytes)
    | Buffer(size: Option<Node>, data: Bytes)
    | PackageOf(elements: seq<Node>)
    | Simple(op: nat)
    | NameLookup(name: Bytes)
    | Call(name: Bytes, args: seq<Option<Node>>)
    | Operation(op: nat, args: seq<Option<Node>>)
    | Named(name: Bytes, thing: Node)
    | Container(op: nat, name: Bytes, nodes: seq<Node>)
    | Method(name: Bytes, flags: Byte, body: Bytes)
    | If(condition: Node, nodes: seq<Node>, otherwise: Option<seq<Node>>)
    | While(condition: Node, nodes: seq<Node>)

  // Stop: the system halts, or the input uses a construct that the model leaves out.
  // Null: a name was not bound. Otherwise the result, and what is left.
  datatype Outcome<+T> = Stop(outside: bool) | Null(rest: Bytes) | Got(value: T, rest: Bytes)

  // What comes of reading an object: the node, and the name space after it.
  datatype Placed<+T> = Placed(node: T, space: Space)

  const ZERO: Byte := 0x00
  const ONE: Byte := 0x01
  const NAME: Byte := 0x08
  const BYTE: Byte := 0x0a
  const WORD: Byte := 0x0b
  const DWORD: Byte := 0x0c
  const STRING: Byte := 0x0d
  const QWORD: Byte := 0x0e
  const SCOPE: Byte := 0x10
  const BUFFER: Byte := 0x11
  const PACKAGE: Byte := 0x12
  const METHOD: Byte := 0x14
  const EXT: Byte := 0x5b
  const STORE: Byte := 0x70
  const INDEX: Byte := 0x88
  const LNOT: Byte := 0x92
  const LEQUAL: Byte := 0x93
  const LGREATER: Byte := 0x94
  const LLESS: Byte := 0x95
  const IF: Byte := 0xa0
  const ELSE: Byte := 0xa1
  const WHILE: Byte := 0xa2
  const NOOP: Byte := 0xa3
  const RETURN: Byte := 0xa4
  const ONES: Byte := 0xff
  const DEVICE: nat := 0x5b82
  const NULL_NAME: nat := 0x8004

  predicate ArgOrLocal(c: Byte) {
    0x60 <= c <= 0x6e
  }

  predicate DataOp(c: Byte) {
    c == ZERO || c == ONE || c == ONES || c == BYTE || c == WORD || c == DWORD || c == STRING || c == QWORD
      || c == BUFFER || c == PACKAGE
  }

  // An operator's arguments, whether a target follows, and whether it gives up when an
  // argument is a name that is not bound.
  datatype Shape = Shape(arity: nat, target: bool, checked: bool)

  function ShapeOf(op: nat): Option<Shape> {
    if op in {0x72, 0x73, 0x74, 0x77, 0x79, 0x7a, 0x7b, 0x7d, 0x7f, 0x88} then Some(Shape(2, true, true))
    else if op in {0x80, 0x81, 0x82} then Some(Shape(1, true, true))
    else if op in {0x75, 0x76, 0x87, 0x8e} then Some(Shape(1, false, true))
    else if op in {0x90, 0x91, 0x93, 0x94, 0x95} then Some(Shape(2, false, true))
    else if op == 0x9e then Some(Shape(3, true, true))
    else if op in {0x83, 0x5b22} then Some(Shape(1, false, false))
    else None
  }

  // Operators that the model leaves out: Divide, CondRefOf, Acquire and Release.
  predicate LeftOutType2(op: nat) {
    op in {0x78, 0x5b12, 0x5b23, 0x5b27}
  }

  predicate Type2(op: nat) {
    ShapeOf(op).Some? || op == LNOT || LeftOutType2(op) || (op <= 0xff && NameStart(op))
  }

  // Objects that it leaves out: notifications, fields, regions, mutexes and the like.
  predicate LeftOutObject(op: nat) {
    op in {0x86, 0x8a, 0x8b, 0x8c, 0x8d, 0x8f, 0x5b01, 0x5b13, 0x5b32, 0x5b80, 0x5b81, 0x5b83, 0x5b84, 0x5b85, 0x5b86}
  }

  // The operation code in front, with the bytes behind it.
  function Opcode(data: Bytes): (r: Option<Read<nat>>)
    ensures r.Some? ==> Behind(r.value.rest, data)
  {
    if data == [] then None
    else if data[0] != EXT then Some(Read(data[0], data[1..]))
    else if |data| < 2 then None
    else Some(Read(256 * (data[0] as int) + data[1], data[2..]))
  }

  predicate Reads<T>(data: Bytes, r: Outcome<T>) {
    !r.Stop? ==> Behind(r.rest, data)
  }

  // ----- data objects -----

  function AsConst(bits: nat, r: Option<Read<nat>>): Outcome<Node> {
    if r.None? then Stop(false) else Got(Const(bits, r.value.value), r.value.rest)
  }

  function ParseData(s: Space, data: Bytes): (r: Outcome<Node>)
    ensures Reads(data, r) && !r.Null?
    decreases |data|, 1
  {
    if data == [] || !DataOp(data[0]) then Stop(false)
    else
      var op, rest := data[0], data[1..];
      if op == ZERO then Got(Const(8, 0), rest)
      else if op == ONE then Got(Const(8, 1), rest)
      else if op == ONES then Got(Const(8, 0xff), rest)
      else if op == BUFFER then ParseBuffer(s, data)
      else if op == PACKAGE then ParsePackage(s, data)
      else ParseScalar(op, data)
  }

  // Integers of some bytes, and strings.
  function ParseScalar(op: Byte, data: Bytes): (r: Outcome<Node>)
    requires data != []
    ensures Reads(data, r) && !r.Null?
  {
    var rest := data[1..];
    BehindDrop(data, 1);
    var r :=
      if op == BYTE then AsConst(8, Integer(rest, 1))
      else if op == WORD then AsConst(16, Integer(rest, 2))
      else if op == DWORD then AsConst(32, Integer(rest, 4))
      else if op == QWORD then AsConst(64, Integer(rest, 8))
      else
        var t := Text(rest);
        if t.None? then Stop(false) else Got(String(t.value.value), t.value.rest);
    if r.Got? then BehindTrans(r.rest, rest, data); r else r
  }

  function ParseBuffer(s: Space, data: Bytes): (r: Outcome<Node>)
    requires data != []
    ensures Reads(data, r) && !r.Null?
    decreases |data|, 0
  {
    var p := Adjust(data[1..]);
    if p.None? then Stop(false)
    else
      BehindTrans(p.value.after, data[1..], data);
      var size := ParseTermArg(s, p.value.inside);
      match size
      case Stop(outside) => Stop(outside)
      case Null(rest) => Got(Buffer(None, rest), p.value.after)
      case Got(v, rest) => Got(Buffer(Some(v), rest), p.value.after)
  }

  function ParsePackage(s: Space, data: Bytes): (r: Outcome<Node>)
    requires data != []
    ensures Reads(data, r) && !r.Null?
    decreases |data|, 0
  {
    var p := Adjust(data[1..]);
    if p.None? || p.value.inside == [] then Stop(false)
    else
      BehindTrans(p.value.after, data[1..], data);
      var count, elements := p.value.inside[0], ParseElements(s, p.value.inside[1..]);
      if elements.Stop? then Stop(elements.outside)
      else if elements.Null? || (elements.value != [] && count != |elements.value|) then Stop(false)
      else Got(PackageOf(elements.value), p.value.after)
  }

  function ParseElements(s: Space, data: Bytes): (r: Outcome<seq<Node>>)
    ensures !r.Null? && (r.Got? ==> r.rest == [])
    decreases |data|, 3
  {
    if data == [] then Got([], [])
    else
      var first := ParseElement(s, data);
      if first.Stop? then Stop(first.outside)
      else if first.Null? then Stop(false)
      else
        var others := ParseElements(s, first.rest);
        if others.Got? then Got([first.value] + others.value, others.rest) else others
  }

  function ParseElement(s: Space, data: Bytes): (r: Outcome<Node>)
    requires data != []
    ensures Reads(data, r) && !r.Null?
    decreases |data|, 2
  {
    if NameStart(data[0]) then
      var name := NameString(data);
      if name.None? then Stop(false) else Got(ElementName(name.value.value), name.value.rest)
    else ParseData(s, data)
  }

  // ----- terms -----

  function ParseTermArg(s: Space, data: Bytes): (r: Outcome<Node>)
    ensures Reads(data, r)
    decreases |data|, 3
  {
    if data == [] then Stop(false)
    else if ArgOrLocal(data[0]) then Got(Simple(data[0]), data[1..])
    else if DataOp(data[0]) then ParseData(s, data)
    else ParseType2(s, data)
  }

  function ParseType2(s: Space, data: Bytes): (r: Outcome<Node>)
    ensures Reads(data, r)
    decreases |data|, 2
  {
    if data == [] then Stop(false)
    else if NameStart(data[0]) then ParseCall(s, data)
    else
      var op := Opcode(data);
      if op.None? then Stop(false)
      else
        var shape := ShapeOf(op.value.value);
        if shape.Some? then Inside(data, op.value.rest, ParseOperation(s, op.value.rest, op.value.value, shape.value))
        else if op.value.value == LNOT then Inside(data, op.value.rest, ParseNot(s, op.value.rest))
        else Stop(LeftOutType2(op.value.value))
  }

  // What is behind something behind `data` is behind `data`.
  function Inside<T>(data: Bytes, rest: Bytes, r: Outcome<T>): (r': Outcome<T>)
    requires Behind(rest, data) && (!r.Stop? ==> Behind(r.rest, rest) || r.rest == rest)
    ensures r' == r && Reads(data, r')
  {
    if r.Stop? || r.rest == rest then r else BehindTrans(r.rest, rest, data); r
  }

  // A name that is bound: a method with its arguments, or just the name.
  function ParseCall(s: Space, data: Bytes): (r: Outcome<Node>)
    ensures Reads(data, r)
    decreases |data|, 1
  {
    var name := NameString(data);
    if name.None? then Stop(false)
    else
      var found := Lookup(s, name.value.value);
      match found
      case Stops => Stop(false)
      case Missing => Null(name.value.rest)
      case Bound(MethodKind(n)) =>
        var args := Inside(data, name.value.rest, ParseArgs(s, name.value.rest, n, true));
        (match args
         case Stop(outside) => Stop(outside)
         case Null(rest) => Null(rest)
         case Got(v, rest) => Got(Call(name.value.value, v), rest))
      case Bound(_) => Got(NameLookup(name.value.value), name.value.rest)
  }

  // `n` arguments.
  function ParseArgs(s: Space, data: Bytes, n: nat, checked: bool): (r: Outcome<seq<Option<Node>>>)
    ensures !r.Stop? ==> Behind(r.rest, data) || r.rest == data
    ensures n > 0 ==> Reads(data, r)
    ensures r.Got? ==> |r.value| == n
    decreases |data|, 4
  {
    if n == 0 then Got([], data)
    else
      var first := ParseTermArg(s, data);
      if first.Stop? then Stop(first.outside)
      else if first.Null? && checked then Null(first.rest)
      else
        var others := Inside(data, first.rest, ParseArgs(s, first.rest, n - 1, checked));
        match others
        case Stop(outside) => Stop(outside)
        case Null(rest) => Null(rest)
        case Got(v, rest) => Got([if first.Got? then Some(first.value) else None] + v, rest)
  }

  function ParseOperation(s: Space, data: Bytes, op: nat, shape: Shape): (r: Outcome<Node>)
    ensures !r.Stop? ==> Behind(r.rest, data) || r.rest == data
    decreases |data|, 5
  {
    var args := ParseArgs(s, data, shape.arity, shape.checked);
    match args
    case Stop(outside) => Stop(outside)
    case Null(rest) => Null(rest)
    case Got(v, rest) =>
      if !shape.target then Got(Operation(op, v), rest)
      else
        var target := ParseTarget(s, rest);
        if target.Stop? then Stop(target.outside)
        else
          BehindTrans(target.rest, rest, data);
          Got(Operation(op, v + [if target.Got? then Some(target.value) else None]), target.rest)
  }

  // `Not` joined with a comparison is one operator.
  function ParseNot(s: Space, data: Bytes): (r: Outcome<Node>)
    ensures !r.Stop? ==> Behind(r.rest, data) || r.rest == data
    decreases |data|, 6
  {
    var next := Opcode(data);
    if next.None? then Stop(false)
    else if next.value.value == LEQUAL || next.value.value == LGREATER || next.value.value == LLESS then
      Inside(data, next.value.rest,
        ParseOperation(s, next.value.rest, 256 * (LNOT as int) + next.value.value, Shape(2, false, true)))
    else ParseOperation(s, data, LNOT, Shape(1, false, true))
  }

  function ParseTarget(s: Space, data: Bytes): (r: Outcome<Node>)
    ensures Reads(data, r)
    decreases |data|, 4
  {
    if data != [] && data[0] == 0 then Got(Simple(NULL_NAME), data[1..]) else ParseSuperName(s, data)
  }

  function ParseSuperName(s: Space, data: Bytes): (r: Outcome<Node>)
    ensures Reads(data, r)
    decreases |data|, 3
  {
    if data == [] then Stop(false)
    else if ArgOrLocal(data[0]) then Got(Simple(data[0]), data[1..])
    else if NameStart(data[0]) then
      var name := NameString(data);
      if name.None? then Stop(false) else Got(NameLookup(name.value.value), name.value.rest)
    else if data[0] == INDEX then
      BehindDrop(data, 1);
      Inside(data, data[1..], ParseOperation(s, data[1..], INDEX, Shape(2, true, true)))
    else Stop(false)
  }

  // ----- objects -----

  // An object is read, or it stops; what is not bound inside a package leaves off there.
  predicate ReadsObject<T>(s: Space, data: Bytes, r: Outcome<Placed<T>>) {
    r.Got? ==> Behind(r.rest, data) && Kept(s, r.value.space)
  }

  function AsPlaced(s: Space, r: Outcome<Node>): Outcome<Placed<Node>> {
    match r
    case Stop(outside) => Stop(outside)
    case Null(rest) => Null(rest)
    case Got(v, rest) => Got(Placed(v, s), rest)
  }

  function ParseObject(s: Space, data: Bytes): (r: Outcome<Placed<Node>>)
    ensures ReadsObject(s, data, r)
    decreases |data|, 6
  {
    var op := Opcode(data);
    if op.None? then Stop(false)
    else if Type2(op.value.value) then AsPlaced(s, ParseType2(s, data))
    else if op.value.value == NAME then ParseNamed(s, data)
    else if op.value.value == SCOPE then ParseScope(s, data)
    else if op.value.value == DEVICE then ParseDevice(s, data)
    else if op.value.value == METHOD then ParseMethod(s, data)
    else if op.value.value == IF then ParseIf(s, data)
    else if op.value.value == WHILE then ParseWhile(s, data)
    else ParsePlain(s, data)
  }

  // Statements without a body.
  function ParsePlain(s: Space, data: Bytes): (r: Outcome<Placed<Node>>)
    ensures ReadsObject(s, data, r)
    decreases |data|, 0
  {
    var op := Opcode(data);
    if op.None? then Stop(false)
    else if op.value.value == NOOP then Got(Placed(Simple(NOOP), s), op.value.rest)
    else if op.value.value == RETURN then
      AsPlaced(s, Inside(data, op.value.rest, ParseOperation(s, op.value.rest, RETURN, Shape(1, false, true))))
    else if op.value.value == STORE then AsPlaced(s, Inside(data, op.value.rest, ParseStore(s, op.value.rest)))
    else Stop(LeftOutObject(op.value.value))
  }

  function ParseStore(s: Space, data: Bytes): (r: Outcome<Node>)
    ensures Reads(data, r)
    decreases |data|, 4
  {
    var arg := ParseTermArg(s, data);
    match arg
    case Stop(outside) => Stop(outside)
    case Null(rest) => Null(rest)
    case Got(v, rest) =>
      var name := Inside(data, rest, ParseSuperName(s, rest));
      if name.Stop? then Stop(name.outside)
      else Got(Operation(STORE, [Some(v), if name.Got? then Some(name.value) else None]), name.rest)
  }

  // A name opens a scope while its data is read.
  function ParseNamed(s: Space, data: Bytes): (r: Outcome<Placed<Node>>)
    requires data != []
    ensures ReadsObject(s, data, r)
    decreases |data|, 1
  {
    var name := NameString(data[1..]);
    if name.None? then Stop(false)
    else
      var inner := Opened(s, name.value.value);
      if inner.None? then Stop(false)
      else
        BehindTrans(name.value.rest, data[1..], data);
        var thing := Inside(data, name.value.rest, ParseData(inner.value, name.value.rest));
        if thing.Stop? then Stop(thing.outside)
        else if thing.Null? then Stop(false)
        else
          var t := Provided(inner.value, s.scope, OtherKind);
          if t.None? then Stop(false)
          else
            ProvidedKeeps(s, inner.value, OtherKind);
            Got(Placed(Named(name.value.value, thing.value), t.value), thing.rest)
  }

  // A method's body is not read now.
  function ParseMethod(s: Space, data: Bytes): (r: Outcome<Placed<Node>>)
    requires data != []
    ensures ReadsObject(s, data, r)
    decreases |data|, 1
  {
    var p := Adjust(data[1..]);
    if p.None? then Stop(false)
    else
      BehindTrans(p.value.after, data[1..], data);
      var name := NameString(p.value.inside);
      if name.None? then Stop(false)
      else
        var inner := Opened(s, name.value.value);
        if inner.None? || name.value.rest == [] then Stop(false)
        else
          var flags: Byte := name.value.rest[0];
          var t := Provided(inner.value, s.scope, MethodKind(flags % 8));
          if t.None? then Stop(false)
          else
            ProvidedKeeps(s, inner.value, MethodKind(flags % 8));
            Got(Placed(Method(name.value.value, flags, name.value.rest[1..]), t.value), p.value.after)
  }

  // A list runs to the end of its package.
  function ParseList(s: Space, data: Bytes): (r: Outcome<Placed<seq<Node>>>)
    ensures r.Got? ==> r.rest == [] && Kept(s, r.value.space)
    decreases |data|, 7
  {
    if data == [] then Got(Placed([], s), [])
    else
      var first := ParseObject(s, data);
      match first
      case Stop(outside) => Stop(outside)
      case Null(rest) => Null(rest)
      case Got(p, rest) =>
        var others := ParseList(p.space, rest);
        (match others
         case Stop(outside) => Stop(outside)
         case Null(rest) => Null(rest)
         case Got(q, rest) => Got(Placed([p.node] + q.node, q.space), rest))
  }

  datatype Body = Body(name: Bytes, nodes: seq<Node>, space: Space)

  // The objects in a package after a name, in the scope of that name.
  function ParseBody(s: Space, inside: Bytes): (r: Outcome<Body>)
    ensures !r.Null? && (r.Got? ==> Grown(s, r.value.space))
    decreases |inside|, 8
  {
    var name := NameString(inside);
    if name.None? then Stop(false)
    else
      var inner := Opened(s, name.value.value);
      if inner.None? then Stop(false)
      else
        var list := ParseList(inner.value, name.value.rest);
        match list
        case Stop(outside) => Stop(outside)
        case Null(_) => Stop(false)
        case Got(p, _) => Got(Body(name.value.value, p.node, p.space), [])
  }

  function ParseDevice(s: Space, data: Bytes): (r: Outcome<Placed<Node>>)
    requires |data| >= 2
    ensures ReadsObject(s, data, r)
    decreases |data|, 1
  {
    var p := Adjust(data[2..]);
    if p.None? then Stop(false)
    else
      BehindTrans(p.value.after, data[2..], data);
      var body := ParseBody(s, p.value.inside);
      if body.Stop? then Stop(body.outside)
      else if body.Null? then Stop(false)
      else
        var t := Provided(body.value.space, s.scope, DeviceKind);
        if t.None? then Stop(false)
        else
          ProvidedKeeps(s, body.value.space, DeviceKind);
          Got(Placed(Container(DEVICE, body.value.name, body.value.nodes), t.value), p.value.after)
  }

  // A scope that is bound already is merged into what it is bound to.
  function ParseScope(s: Space, data: Bytes): (r: Outcome<Placed<Node>>)
    requires data != []
    ensures ReadsObject(s, data, r)
    decreases |data|, 1
  {
    var p := Adjust(data[1..]);
    if p.None? then Stop(false)
    else
      BehindTrans(p.value.after, data[1..], data);
      var body := ParseBody(s, p.value.inside);
      if body.Stop? then Stop(body.outside)
      else if body.Null? then Stop(false)
      else
        var node := Container(SCOPE, body.value.name, body.value.nodes);
        var found := Lookup(body.value.space, body.value.name);
        match found
        case Stops => Stop(false)
        case Bound(kind) =>
          if kind == ScopeKind || kind == DeviceKind then
            Got(Placed(node, body.value.space.(scope := s.scope)), p.value.after)
          else Stop(false)
        case Missing =>
          var t := Provided(body.value.space, s.scope, ScopeKind);
          if t.None? then Stop(false)
          else
            ProvidedKeeps(s, body.value.space, ScopeKind);
            Got(Placed(node, t.value), p.value.after)
  }

  // A condition and the objects that depend on it.
  datatype Guarded = Guarded(condition: Node, nodes: seq<Node>)

  function ParseGuarded(s: Space, inside: Bytes): (r: Outcome<Placed<Guarded>>)
    ensures r.Got? ==> Kept(s, r.value.space)
    decreases |inside|, 8
  {
    var condition := ParseTermArg(s, inside);
    match condition
    case Stop(outside) => Stop(outside)
    case Null(rest) => Null(rest)
    case Got(c, rest) =>
      var list := ParseList(s, rest);
      (match list
       case Stop(outside) => Stop(outside)
       case Null(rest) => Null(rest)
       case Got(p, _) => Got(Placed(Guarded(c, p.node), p.space), []))
  }

  function ParseWhile(s: Space, data: Bytes): (r: Outcome<Placed<Node>>)
    requires data != []
    ensures ReadsObject(s, data, r)
    decreases |data|, 1
  {
    var p := Adjust(data[1..]);
    if p.None? then Stop(false)
    else
      BehindTrans(p.value.after, data[1..], data);
      var g := ParseGuarded(s, p.value.inside);
      match g
      case Stop(outside) => Stop(outside)
      case Null(rest) => Null(rest)
      case Got(q, _) => Got(Placed(While(q.node.condition, q.node.nodes), q.space), p.value.after)
  }

  function ParseIf(s: Space, data: Bytes): (r: Outcome<Placed<Node>>)
    requires data != []
    ensures ReadsObject(s, data, r)
    decreases |data|, 1
  {
    var p := Adjust(data[1..]);
    if p.None? then Stop(false)
    else
      BehindTrans(p.value.after, data[1..], data);
      var g := ParseGuarded(s, p.value.inside);
      match g
      case Stop(outside) => Stop(outside)
      case Null(rest) => Null(rest)
      case Got(q, _) =>
        var after := p.value.after;
        var next := Opcode(after);
        if after != [] && next.None? then Stop(false)
        else if after == [] || next.value.value != ELSE then
          Got(Placed(If(q.node.condition, q.node.nodes, None), q.space), after)
        else
          var otherwise := ParseElse(q.space, after);
          (match otherwise
           case Stop(outside) => Stop(outside)
           case Null(rest) => Null(rest)
           case Got(e, rest) =>
             BehindTrans(rest, after, data);
             Got(Placed(If(q.node.condition, q.node.nodes, Some(e.node)), e.space), rest))
  }

  // An `If` with an `Else` behind its package.
  lemma IfElseRead(s: Space, data: Bytes, inside: Bytes, after: Bytes)
    requires data != [] && Adjust(data[1..]) == Some(Package(inside, after))
    requires after != [] && Opcode(after).Some? && Opcode(after).value.value == ELSE
    ensures var g := ParseGuarded(s, inside);
      && (g.Stop? ==> ParseIf(s, data) == Stop(g.outside))
      && (g.Got? ==>
        var e := ParseElse(g.value.space, after);
        && (e.Stop? ==> ParseIf(s, data) == Stop(e.outside))
        && (e.Null? ==> ParseIf(s, data) == Null(e.rest))
        && (e.Got? ==>
          ParseIf(s, data) ==
            Got(Placed(If(g.value.node.condition, g.value.node.nodes, Some(e.value.node)), e.value.space), e.rest)))
  {
    hide Adjust, ParseGuarded, ParseElse, Opcode, Behind;
  }

  // An `If` with something else behind it, or nothing.
  lemma IfPlainRead(s: Space, data: Bytes, inside: Bytes, after: Bytes)
    requires data != [] && Adjust(data[1..]) == Some(Package(inside, after))
    requires after == [] || (Opcode(after).Some? && Opcode(after).value.value != ELSE)
    ensures var g := ParseGuarded(s, inside);
      g.Got? ==>
        ParseIf(s, data) == Got(Placed(If(g.value.node.condition, g.value.node.nodes, None), g.value.space), after)
  {
    hide Adjust, ParseGuarded, ParseElse, Opcode, Behind;
  }

  // What an `If` that is read at all begins with.
  lemma IfHas(s: Space, data: Bytes)
    requires data != [] && ParseIf(s, data).Got?
    ensures Adjust(data[1..]).Some? && ParseGuarded(s, Adjust(data[1..]).value.inside).Got?
    ensures Adjust(data[1..]).value.after == [] || Opcode(Adjust(data[1..]).value.after).Some?
  {
    hide Adjust, ParseGuarded, ParseElse, Opcode, Behind;
  }

  function ParseElse(s: Space, data: Bytes): (r: Outcome<Placed<seq<Node>>>)
    requires data != []
    ensures ReadsObject(s, data, r)
    decreases |data|, 1
  {
    var p := Adjust(data[1..]);
    if p.None? then Stop(false)
    else
      BehindTrans(p.value.after, data[1..], data);
      var list := ParseList(s, p.value.inside);
      match list
      case Stop(outside) => Stop(outside)
      case Null(rest) => Null(rest)
      case Got(q, _) => Got(q, p.value.after)
  }

  // What a list comes to when some of its objects have been read already.
  function Joined(nodes: seq<Node>, r: Outcome<Placed<seq<Node>>>): Outcome<Placed<seq<Node>>> {
    if r.Got? then Got(Placed(nodes + r.value.node, r.value.space), r.rest) else r
  }

  /** A list, read one object after the other. */
  method ReadList(s: Space, data: Bytes) returns (r: Outcome<Placed<seq<Node>>>)
    ensures r == ParseList(s, data)
  {
    var space, rest, nodes := s, data, [];
    hide ParseObject;
    JoinedNone(ParseList(s, data));
    while rest != []
      invariant ParseList(s, data) == Joined(nodes, ParseList(space, rest))
      decreases |rest|
    {
      var next := ParseObject(space, rest);
      assert next.Stop? ==> ParseList(space, rest) == Stop(next.outside);
      assert next.Null? ==> ParseList(space, rest) == Null(next.rest);
      if next.Stop? {
        return Stop(next.outside);
      }
      if next.Null? {
        return Null(next.rest);
      }
      ListStep(space, rest, nodes);
      nodes := nodes + [next.value.node];
      space, rest := next.value.space, next.rest;
    }
    assert ParseList(space, []) == Got(Placed([], space), []);
    assert nodes + [] == nodes;
    r := Got(Placed(nodes, space), []);
  }

  lemma JoinedNone(r: Outcome<Placed<seq<Node>>>)
    ensures Joined([], r) == r
  {
    if r.Got? {
      assert [] + r.value.node == r.value.node;
    }
  }

  lemma ListStep(s: Space, data: Bytes, nodes: seq<Node>)
    requires data != [] && ParseObject(s, data).Got?
    ensures var p := ParseObject(s, data);
      Joined(nodes, ParseList(s, data)) == Joined(nodes + [p.value.node], ParseList(p.value.space, p.rest))
  {
    hide ParseObject;
    var p := ParseObject(s, data);
    var others := ParseList(p.value.space, p.rest);
    if others.Got? {
      assert nodes + ([p.value.node] + others.value.node) == nodes + [p.value.node] + others.value.node;
    }
  }
}
