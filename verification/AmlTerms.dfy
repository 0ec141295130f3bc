/** Terms as they are encoded: arguments and locals, names, calls of methods, and operators
    with and without a target; and that reading them gives them back. */
module AmlTerms {
  import opened Options
  import opened Octets
  import opened AmlBytes
  import opened NameSpaces
  import opened AmlParser
  import opened AmlEncoding

  datatype Term =
    | DataTerm(item: Item)
    | PlaceTerm(place: Byte)
    | NameTerm(name: Name)
    | CallTerm(name: Name, args: Terms)
    | OpTerm(op: nat, args: Terms)
    | TargetTerm(op: nat, args: Terms, target: Target)
    | NotTerm(arg: Term)
    | NotCompareTerm(compare: Byte, args: Terms)

  datatype Terms = NoTerms | TermThen(head: Term, tail: Terms)

  datatype Target = Nowhere | AtPlace(place: Byte) | AtName(name: Name) | AtIndex(args: Terms, target: Target)

  function Count(ts: Terms): nat {
    match ts
    case NoTerms => 0
    case TermThen(_, tail) => 1 + Count(tail)
  }

  // ----- the operators -----

  // ShiftLeft and so on: so many arguments, and a target.
  predicate TakesTarget(op: nat, arity: nat) {
    // FindSetLeftBit, FindSetRightBit, Not
    || (arity == 1 && (op == 0x81 || op == 0x82 || op == 0x80))
    // Add, Concat, Subtract, Multiply, ShiftLeft, ShiftRight, And, Or, Xor, Index
    || (arity == 2
      && (op == 0x72 || op == 0x73 || op == 0x74 || op == 0x77 || op == 0x79 || op == 0x7a || op == 0x7b
        || op == 0x7d || op == 0x7f || op == 0x88))
    // Mid
    || (arity == 3 && op == 0x9e)
  }

  predicate TakesNoTarget(op: nat, arity: nat) {
    // Increment, Decrement, SizeOf, ObjectType, DerefOf, Sleep
    || (arity == 1 && (op == 0x75 || op == 0x76 || op == 0x87 || op == 0x8e || op == 0x83 || op == 0x5b22))
    // LAnd, LOr and the comparisons
    || (arity == 2 && (op == 0x90 || op == 0x91 || Compares(op)))
  }

  // LEqual, LGreater, LLess
  predicate Compares(op: nat) {
    op == 0x93 || op == 0x94 || op == 0x95
  }

  predicate IsPlace(c: Byte) {
    0x60 <= c <= 0x6e
  }

  // ----- bytes -----

  function OpBytes(op: nat): Bytes {
    if op == 0x5b22 then [0x5b, 0x22] else [op % 256]
  }

  function TermBytes(t: Term): Bytes {
    match t
    case DataTerm(item) => Encode(item)
    case PlaceTerm(place) => [place]
    case NameTerm(name) => NameBytes(name)
    case CallTerm(name, args) => NameBytes(name) + TermsBytes(args)
    case OpTerm(op, args) => OpBytes(op) + TermsBytes(args)
    case TargetTerm(op, args, target) => OpBytes(op) + (TermsBytes(args) + TargetBytes(target))
    case NotTerm(arg) => [0x92] + TermBytes(arg)
    case NotCompareTerm(op, args) => [0x92] + ([op] + TermsBytes(args))
  }

  function TermsBytes(ts: Terms): Bytes {
    match ts
    case NoTerms => []
    case TermThen(head, tail) => TermBytes(head) + TermsBytes(tail)
  }

  function TargetBytes(g: Target): Bytes {
    match g
    case Nowhere => [0]
    case AtPlace(place) => [place]
    case AtName(name) => NameBytes(name)
    case AtIndex(args, target) => [0x88] + (TermsBytes(args) + TargetBytes(target))
  }

  // Names must be bound, and a call has as many arguments as its method takes.
  predicate TermOk(s: Space, t: Term) {
    match t
    case DataTerm(item) => ItemOk(item)
    case PlaceTerm(place) => IsPlace(place)
    case NameTerm(name) =>
      && NameOk(name) && !LooksLikeZero(name)
      && Lookup(s, NameText(name)).Bound? && !Lookup(s, NameText(name)).kind.MethodKind?
    case CallTerm(name, args) =>
      && NameOk(name) && !LooksLikeZero(name)
      && Lookup(s, NameText(name)) == Bound(MethodKind(Count(args))) && TermsOk(s, args)
    case OpTerm(op, args) => TakesNoTarget(op, Count(args)) && TermsOk(s, args)
    case TargetTerm(op, args, target) => TakesTarget(op, Count(args)) && TermsOk(s, args) && TargetOk(s, target)
    case NotTerm(arg) => TermOk(s, arg) && !(arg.OpTerm? && Compares(arg.op))
    case NotCompareTerm(op, args) => Compares(op) && Count(args) == 2 && TermsOk(s, args)
  }

  predicate TermsOk(s: Space, ts: Terms) {
    match ts
    case NoTerms => true
    case TermThen(head, tail) => TermOk(s, head) && TermsOk(s, tail)
  }

  predicate TargetOk(s: Space, g: Target) {
    match g
    case Nowhere => true
    case AtPlace(place) => IsPlace(place)
    case AtName(name) => NameOk(name) && !LooksLikeZero(name)
    case AtIndex(args, target) => Count(args) == 2 && TermsOk(s, args) && TargetOk(s, target)
  }

  // ----- what reading is to give -----

  function TermNode(t: Term): Node {
    match t
    case DataTerm(item) => NodeOf(item)
    case PlaceTerm(place) => Simple(place)
    case NameTerm(name) => NameLookup(NameText(name))
    case CallTerm(name, args) => Node.Call(NameText(name), TermNodes(args))
    case OpTerm(op, args) => Operation(op, TermNodes(args))
    case TargetTerm(op, args, target) => Operation(op, TermNodes(args) + [Some(TargetNode(target))])
    case NotTerm(arg) => Operation(0x92, [Some(TermNode(arg))])
    case NotCompareTerm(op, args) => Operation(0x9200 + op, TermNodes(args))
  }

  function TermNodes(ts: Terms): (r: seq<Option<Node>>)
    ensures |r| == Count(ts)
  {
    match ts
    case NoTerms => []
    case TermThen(head, tail) => [Some(TermNode(head))] + TermNodes(tail)
  }

  function TargetNode(g: Target): Node {
    match g
    case Nowhere => Simple(0x8004)
    case AtPlace(place) => Simple(place)
    case AtName(name) => NameLookup(NameText(name))
    case AtIndex(args, target) => Operation(0x88, TermNodes(args) + [Some(TargetNode(target))])
  }

  // ----- how each kind of term is read -----

  lemma {:induction false} NameReads(s: Space, n: Name, tail: Bytes)
    requires NameOk(n) && !LooksLikeZero(n)
    ensures var data := NameBytes(n) + tail;
      data != [] && NameStart(data[0]) && !ArgOrLocal(data[0]) && !DataOp(data[0])
        && NameString(data) == Some(Read(NameText(n), tail)) && ParseTermArg(s, data) == ParseCall(s, data)
  {
    NameBack(n, tail);
    NameLeads(n, tail);
    hide NameBytes, NameString, NameText, NameOk, ParseCall;
  }

  lemma BoundReads(s: Space, data: Bytes, text: Bytes, rest: Bytes)
    requires NameString(data) == Some(Read(text, rest)) && Lookup(s, text).Bound?
    ensures !Lookup(s, text).kind.MethodKind? ==> ParseCall(s, data) == Got(NameLookup(text), rest)
    ensures Lookup(s, text).kind.MethodKind? ==>
      var args := ParseArgs(s, rest, Lookup(s, text).kind.args, true);
      args.Got? ==> ParseCall(s, data) == Got(Node.Call(text, args.value), args.rest)
  {
    hide NameString, Lookup, ParseArgs, Behind;
  }

  // An operation code is read as it is written.
  lemma OpReads(s: Space, op: nat, shape: Shape, tail: Bytes)
    requires ShapeOf(op) == Some(shape) && (op < 256 || op == 0x5b22)
    ensures ParseTermArg(s, OpBytes(op) + tail) == ParseOperation(s, tail, op, shape)
  {
    var data := OpBytes(op) + tail;
    OpAlone(op);
    assert data[0] == (if op == 0x5b22 then 0x5b else op);
    assert Opcode(data) == Some(Read(op, tail)) by {
      if op == 0x5b22 {
        assert data[1] == 0x22 && data[2..] == tail;
      } else {
        assert data[1..] == tail;
      }
    }
    hide Opcode, ShapeOf, ParseOperation, ParseCall, DataOp, ArgOrLocal, NameStart, OpBytes, Behind;
  }

  lemma OpAlone(op: nat)
    requires ShapeOf(op).Some?
    ensures var first: nat := if op == 0x5b22 then 0x5b else op;
      first < 256 && !DataOp(first) && !ArgOrLocal(first) && !NameStart(first)
    ensures op != 0x5b22 ==> op != 0x5b
  {
  }

  lemma ShapeIs(op: nat, arity: nat)
    ensures TakesTarget(op, arity) ==> ShapeOf(op) == Some(Shape(arity, true, true)) && op < 256
    ensures TakesNoTarget(op, arity) ==>
      ShapeOf(op).Some? && ShapeOf(op).value.arity == arity && !ShapeOf(op).value.target && (op < 256 || op == 0x5b22)
  {
  }

  lemma PlainReads(s: Space, op: nat, shape: Shape, data: Bytes, args: seq<Option<Node>>, rest: Bytes)
    requires ParseArgs(s, data, shape.arity, shape.checked) == Got(args, rest) && !shape.target
    ensures ParseOperation(s, data, op, shape) == Got(Operation(op, args), rest)
  {
    hide ParseArgs, Behind;
  }

  lemma TargetReads(s: Space, op: nat, shape: Shape, data: Bytes, args: seq<Option<Node>>, mid: Bytes, node: Node,
      rest: Bytes)
    requires ParseArgs(s, data, shape.arity, shape.checked) == Got(args, mid) && shape.target
    requires ParseTarget(s, mid) == Got(node, rest)
    ensures ParseOperation(s, data, op, shape) == Got(Operation(op, args + [Some(node)]), rest)
  {
    hide ParseArgs, ParseTarget, Behind;
  }

  lemma NotReads(s: Space, tail: Bytes)
    ensures ParseTermArg(s, [0x92] + tail) == ParseNot(s, tail)
  {
    var data := [0x92] + tail;
    assert data[0] == 0x92 && data[1..] == tail;
    assert Opcode(data) == Some(Read(0x92, tail));
    assert ShapeOf(0x92) == None;
    hide ParseNot, ParseCall, Opcode, ShapeOf, Behind;
  }

  // ----- reading back -----

  /** Reading is a left inverse of encoding for terms however they are nested: a name bound
      to a method is read with exactly as many arguments as the method takes, and each
      operator with its own number of arguments and its target, if it has one. */
  lemma {:induction false} TermBack(s: Space, t: Term, rest: Bytes)
    requires TermOk(s, t)
    ensures ParseTermArg(s, TermBytes(t) + rest) == Got(TermNode(t), rest)
    decreases t, 0
  {
    match t
    case DataTerm(item) => DataTermBack(s, item, rest);
    case PlaceTerm(place) => PlaceBack(s, place, rest);
    case NameTerm(name) =>
      NameReads(s, name, rest);
      BoundReads(s, NameBytes(name) + rest, NameText(name), rest);
      hide NameBytes, NameText, NameOk, NameString, Lookup, ParseTermArg, ParseCall;
    case CallTerm(name, args) =>
      var tail := TermsBytes(args) + rest;
      ArgsBack(s, args, rest, true);
      hide *;
      CallIs(s, t);
      NameReads(s, name, tail);
      BoundReads(s, NameBytes(name) + tail, NameText(name), tail);
      Apart(NameBytes(name), TermsBytes(args), rest);
    case OpTerm(op, args) =>
      var tail := TermsBytes(args) + rest;
      ShapeIs(op, Count(args));
      var shape := ShapeOf(op).value;
      ArgsBack(s, args, rest, shape.checked);
      hide *;
      OpReads(s, op, shape, tail);
      PlainReads(s, op, shape, tail, TermNodes(args), rest);
      Apart(OpBytes(op), TermsBytes(args), rest);
      OpIs(t);
    case TargetTerm(op, args, target) =>
      ShapeIs(op, Count(args));
      ArgsBack(s, args, TargetBytes(target) + rest, true);
      TargetBack(s, target, rest);
      OperandsBack(s, op, args, target, rest);
      hide *;
      OpReads(s, op, Shape(Count(args), true, true), TermsBytes(args) + TargetBytes(target) + rest);
      Apart(OpBytes(op), TermsBytes(args) + TargetBytes(target), rest);
      OpIs(t);
    case NotTerm(arg) => NotBack(s, arg, rest);
    case NotCompareTerm(op, args) => NotCompareBack(s, op, args, rest);
  }

  lemma Apart(a: Bytes, b: Bytes, c: Bytes)
    ensures a + b + c == a + (b + c)
  {
  }

  lemma CallIs(s: Space, t: Term)
    requires t.CallTerm? && TermOk(s, t)
    ensures NameOk(t.name) && !LooksLikeZero(t.name)
    ensures Lookup(s, NameText(t.name)) == Bound(MethodKind(Count(t.args)))
    ensures TermBytes(t) == NameBytes(t.name) + TermsBytes(t.args)
    ensures TermNode(t) == Node.Call(NameText(t.name), TermNodes(t.args))
  {
  }

  lemma OpIs(t: Term)
    ensures t.OpTerm? ==>
      TermBytes(t) == OpBytes(t.op) + TermsBytes(t.args) && TermNode(t) == Operation(t.op, TermNodes(t.args))
    ensures t.TargetTerm? ==>
      TermBytes(t) == OpBytes(t.op) + (TermsBytes(t.args) + TargetBytes(t.target))
      && TermNode(t) == Operation(t.op, TermNodes(t.args) + [Some(TargetNode(t.target))])
  {
    hide TermsBytes, TargetBytes, TermNodes, TargetNode, OpBytes;
  }

  lemma DataTermBack(s: Space, item: Item, rest: Bytes)
    requires ItemOk(item)
    ensures ParseTermArg(s, Encode(item) + rest) == Got(NodeOf(item), rest)
  {
    DataBack(s, item, rest);
    assert Encode(item) + rest != [] && (Encode(item) + rest)[0] == Encode(item)[0];
    hide Encode, ParseData, NodeOf, ItemOk;
  }

  lemma PlaceBack(s: Space, place: Byte, rest: Bytes)
    requires IsPlace(place)
    ensures ParseTermArg(s, [place] + rest) == Got(Simple(place), rest)
    ensures ParseSuperName(s, [place] + rest) == Got(Simple(place), rest)
  {
    assert ([place] + rest)[1..] == rest;
  }

  // As many terms as are asked for.
  lemma {:induction false} ArgsBack(s: Space, ts: Terms, rest: Bytes, checked: bool)
    requires TermsOk(s, ts)
    ensures ParseArgs(s, TermsBytes(ts) + rest, Count(ts), checked) == Got(TermNodes(ts), rest)
    decreases ts, 0
  {
    match ts
    case NoTerms =>
      assert TermsBytes(ts) + rest == rest;
    case TermThen(head, tail) =>
      var more := TermsBytes(tail) + rest;
      TermBack(s, head, more);
      ArgsBack(s, tail, rest, checked);
      hide *;
      Apart(TermBytes(head), TermsBytes(tail), rest);
      TermsAre(ts);
      OneMoreArg(s, TermBytes(head) + more, TermNode(head), more, Count(tail), TermNodes(tail), rest, checked);
  }

  lemma TermsAre(ts: Terms)
    requires ts.TermThen?
    ensures TermsBytes(ts) == TermBytes(ts.head) + TermsBytes(ts.tail) && Count(ts) == 1 + Count(ts.tail)
    ensures TermNodes(ts) == [Some(TermNode(ts.head))] + TermNodes(ts.tail)
  {
  }

  lemma OneMoreArg(s: Space, data: Bytes, node: Node, mid: Bytes, n: nat, nodes: seq<Option<Node>>, rest: Bytes,
      checked: bool)
    requires ParseTermArg(s, data) == Got(node, mid) && ParseArgs(s, mid, n, checked) == Got(nodes, rest)
    ensures ParseArgs(s, data, n + 1, checked) == Got([Some(node)] + nodes, rest)
  {
    hide ParseTermArg, Behind;
  }

  lemma {:induction false} TargetBack(s: Space, g: Target, rest: Bytes)
    requires TargetOk(s, g)
    ensures ParseTarget(s, TargetBytes(g) + rest) == Got(TargetNode(g), rest)
    decreases g, 0
  {
    match g
    case Nowhere =>
      assert ([0] + rest)[1..] == rest;
    case AtPlace(place) =>
      PlaceBack(s, place, rest);
      assert ([place] + rest)[0] == place;
      hide ParseSuperName;
    case AtName(name) =>
      NameReads(s, name, rest);
      hide NameBytes, NameText, NameOk, NameString;
    case AtIndex(args, target) =>
      var tail := TermsBytes(args) + TargetBytes(target) + rest;
      ArgsBack(s, args, TargetBytes(target) + rest, true);
      TargetBack(s, target, rest);
      OperandsBack(s, 0x88, args, target, rest);
      hide *;
      IndexReads(s, tail);
      Apart([0x88], TermsBytes(args) + TargetBytes(target), rest);
      IndexIs(g);
  }

  lemma IndexIs(g: Target)
    requires g.AtIndex?
    ensures TargetBytes(g) == [0x88] + (TermsBytes(g.args) + TargetBytes(g.target))
    ensures TargetNode(g) == Operation(0x88, TermNodes(g.args) + [Some(TargetNode(g.target))])
  {
  }

  lemma IndexReads(s: Space, tail: Bytes)
    ensures ParseTarget(s, [0x88] + tail) == ParseOperation(s, tail, 0x88, Shape(2, true, true))
  {
    hide ParseOperation, Behind, NameString;
    var data := [0x88] + tail;
    assert data[0] == 0x88 && data[1..] == tail;
    assert !NameStart(0x88) && !ArgOrLocal(0x88);
    hide NameStart, ArgOrLocal;
    assert ParseTarget(s, data) == ParseSuperName(s, data);
  }

  // Arguments and then a target.
  lemma OperandsBack(s: Space, op: nat, args: Terms, target: Target, rest: Bytes)
    requires ParseArgs(s, TermsBytes(args) + (TargetBytes(target) + rest), Count(args), true) ==
      Got(TermNodes(args), TargetBytes(target) + rest)
    requires ParseTarget(s, TargetBytes(target) + rest) == Got(TargetNode(target), rest)
    ensures ParseOperation(s, TermsBytes(args) + TargetBytes(target) + rest, op, Shape(Count(args), true, true)) ==
      Got(Operation(op, TermNodes(args) + [Some(TargetNode(target))]), rest)
  {
    var mid := TargetBytes(target) + rest;
    hide *;
    Apart(TermsBytes(args), TargetBytes(target), rest);
    TargetReads(s, op, Shape(Count(args), true, true), TermsBytes(args) + mid, TermNodes(args), mid,
      TargetNode(target), rest);
  }

  lemma {:induction false} NotBack(s: Space, arg: Term, rest: Bytes)
    requires TermOk(s, arg) && !(arg.OpTerm? && Compares(arg.op))
    ensures ParseTermArg(s, TermBytes(NotTerm(arg)) + rest) == Got(TermNode(NotTerm(arg)), rest)
    decreases arg, 1
  {
    var tail := TermBytes(arg) + rest;
    TermBack(s, arg, rest);
    TermStarts(s, arg, rest);
    assert TermBytes(NotTerm(arg)) == [0x92] + TermBytes(arg);
    assert TermNode(NotTerm(arg)) == Operation(0x92, [Some(TermNode(arg))]);
    hide *;
    NotReads(s, tail);
    NotPlain(s, tail, TermNode(arg), rest);
    Apart([0x92], TermBytes(arg), rest);
  }

  lemma NotPlain(s: Space, data: Bytes, node: Node, rest: Bytes)
    requires ParseTermArg(s, data) == Got(node, rest)
    requires Opcode(data).Some? && !Compares(Opcode(data).value.value)
    ensures ParseNot(s, data) == Got(Operation(0x92, [Some(node)]), rest)
  {
    assert ParseArgs(s, rest, 0, true) == Got([], rest);
    hide ParseTermArg, ParseArgs, ParseOperation, Opcode, Behind;
    OneMoreArg(s, data, node, rest, 0, [], rest, true);
    assert [Some(node)] + [] == [Some(node)];
    PlainReads(s, 0x92, Shape(1, false, true), data, [Some(node)], rest);
  }

  // A term begins with an operation code, of a comparison only when it is one.
  lemma TermStarts(s: Space, t: Term, rest: Bytes)
    requires TermOk(s, t)
    ensures Opcode(TermBytes(t) + rest).Some?
    ensures Compares(Opcode(TermBytes(t) + rest).value.value) ==> t.OpTerm? && Compares(t.op)
  {
    match t
    case DataTerm(item) =>
      DataBack(s, item, rest);
      assert (Encode(item) + rest)[0] == Encode(item)[0];
      hide Encode, ParseData, NodeOf, ItemOk;
    case PlaceTerm(place) => hide Encode, NameBytes;
    case NameTerm(name) => NameStarts(s, name, rest);
    case CallTerm(name, args) =>
      NameStarts(s, name, TermsBytes(args) + rest);
      Apart(NameBytes(name), TermsBytes(args), rest);
      hide *;
      CallIs(s, t);
    case OpTerm(op, args) =>
      OpStarts(op, Count(args), TermsBytes(args) + rest);
      Apart(OpBytes(op), TermsBytes(args), rest);
    case TargetTerm(op, args, target) =>
      OpStarts(op, Count(args), TermsBytes(args) + TargetBytes(target) + rest);
      Apart(OpBytes(op), TermsBytes(args) + TargetBytes(target), rest);
    case NotTerm(arg) => assert (TermBytes(t) + rest)[0] == 0x92;
    case NotCompareTerm(op, args) => assert (TermBytes(t) + rest)[0] == 0x92;
  }

  lemma NameStarts(s: Space, n: Name, rest: Bytes)
    requires NameOk(n) && !LooksLikeZero(n)
    ensures Opcode(NameBytes(n) + rest).Some? && !Compares(Opcode(NameBytes(n) + rest).value.value)
  {
    NameReads(s, n, rest);
    hide NameBytes, NameOk, NameString, ParseCall, Behind;
  }

  lemma OpStarts(op: nat, arity: nat, tail: Bytes)
    requires TakesTarget(op, arity) || TakesNoTarget(op, arity)
    ensures Opcode(OpBytes(op) + tail) == Some(Read(op, tail)) && (TakesTarget(op, arity) ==> !Compares(op))
  {
    var data := OpBytes(op) + tail;
    if op == 0x5b22 {
      assert data[0] == 0x5b && data[1] == 0x22 && data[2..] == tail;
    } else {
      assert data[0] == op && data[1..] == tail;
    }
    hide Behind;
  }

  lemma {:induction false} NotCompareBack(s: Space, op: Byte, args: Terms, rest: Bytes)
    requires Compares(op) && Count(args) == 2 && TermsOk(s, args)
    ensures ParseTermArg(s, TermBytes(NotCompareTerm(op, args)) + rest) ==
      Got(TermNode(NotCompareTerm(op, args)), rest)
    decreases args, 1
  {
    var t, tail := NotCompareTerm(op, args), TermsBytes(args) + rest;
    ArgsBack(s, args, rest, true);
    assert TermBytes(t) == [0x92] + ([op] + TermsBytes(args));
    assert TermNode(t) == Operation(0x9200 + op, TermNodes(args));
    hide *;
    NotReads(s, [op] + tail);
    CompareReads(s, op, tail);
    PlainReads(s, 0x9200 + op, Shape(2, false, true), tail, TermNodes(args), rest);
    Apart([op], TermsBytes(args), rest);
    Apart([0x92], [op] + TermsBytes(args), rest);
  }

  lemma CompareReads(s: Space, op: Byte, tail: Bytes)
    requires Compares(op)
    ensures ParseNot(s, [op] + tail) == ParseOperation(s, tail, 0x9200 + op, Shape(2, false, true))
  {
    var data := [op] + tail;
    assert data[0] == op && data[1..] == tail;
    assert Opcode(data) == Some(Read(op, tail));
    hide ParseOperation, Opcode, Behind;
  }
}
