/** Names bound by reading, and what they mean to what is read behind them: methods and their
    calls, scopes opened again, and names that are not bound. */
module AmlCalls {
  import opened Options
  import opened Octets
  import opened AmlBytes
  import opened NameSpaces
  import opened LookUps
  import opened AmlParser
  import opened AmlEncoding
  import opened AmlObjects
  import opened AmlTerms

  // ----- what objects are bound as -----

  // The kind that what follows will see an object as, for those that always bind their name.
  function KindOf(o: Obj): Option<Kind> {
    match o
    case NameObj(_, _) => Some(OtherKind)
    case DeviceObj(_, _) => Some(DeviceKind)
    case MethodObj(_, flags, _) => Some(MethodKind(flags % 8))
    case _ => None
  }

  /** Once a named value, a device or a method has been read, its rooted name is found from any
      scope, however much has been bound since: as a device, as a method with as many
      arguments as the low three bits of its flags say, or as neither. */
  lemma ObjectBinds(s: Space, o: Obj, path: Bytes, rest: Bytes, p: Placed<Node>, u: Space)
    requires ObjOk(o) && ParseObject(s, EncodeObj(o) + rest) == Got(p, rest) && KindOf(o).Some?
    requires OpensPath(s, NameText(o.name), path) && p.space.bindings <= u.bindings
    ensures Lookup(u, [0x5c] + path) == Bound(KindOf(o).value)
  {
    var name := NameText(o.name);
    ObjectBack(s, o, rest);
    ComesIs(Meaning(s, o), rest);
    var t := MeansBound(s, o, p);
    hide *;
    BoundIsFound(s, name, path, t, KindOf(o).value, u);
  }

  lemma MeansBound(s: Space, o: Obj, p: Placed<Node>) returns (t: Space)
    requires ObjOk(o) && Meaning(s, o) == Some(p) && KindOf(o).Some?
    ensures Opened(s, NameText(o.name)).Some? && t.scope == Opened(s, NameText(o.name)).value.scope
    ensures Provided(t, s.scope, KindOf(o).value) == Some(p.space)
  {
    var inner := Opened(s, NameText(o.name)).value;
    t := inner;
    if o.DeviceObj? {
      t := MeaningAll(inner, o.body).value.space;
      hide Opened, Provided, NameText, NameBytes, EncodeObjs, MeaningAll;
      ScopeKept(inner, o.body);
    }
    hide Opened, Provided, NameText, MeaningAll;
  }

  // ----- calls -----

  /** So, behind that name, terms are read as the arguments of a call: as many as the low three
      bits of the method's flags say. */
  lemma CallTakesFlags(s: Space, m: Obj, path: Bytes, rest: Bytes, p: Placed<Node>, u: Space, call: Name, args: Terms,
      tail: Bytes)
    requires m.MethodObj? && ObjOk(m) && ParseObject(s, EncodeObj(m) + rest) == Got(p, rest)
    requires OpensPath(s, NameText(m.name), path) && p.space.bindings <= u.bindings
    requires NameOk(call) && NameText(call) == [0x5c] + path && Count(args) == m.flags % 8 && TermsOk(u, args)
    ensures ParseTermArg(u, NameBytes(call) + TermsBytes(args) + tail) ==
      Got(Node.Call([0x5c] + path, TermNodes(args)), tail)
  {
    assert KindOf(m) == Some(MethodKind(m.flags % 8));
    NotZero(call, path);
    hide *;
    ObjectBinds(s, m, path, rest, p, u);
    CallOk(u, call, args);
    TermBack(u, CallTerm(call, args), tail);
    CallIs(u, CallTerm(call, args));
  }

  lemma CallOk(s: Space, call: Name, args: Terms)
    requires NameOk(call) && !LooksLikeZero(call) && TermsOk(s, args)
    requires Lookup(s, NameText(call)) == Bound(MethodKind(Count(args)))
    ensures TermOk(s, CallTerm(call, args))
  {
    hide Lookup, NameText;
  }

  lemma NotZero(n: Name, path: Bytes)
    requires NameText(n) == [0x5c] + path
    ensures !LooksLikeZero(n)
  {
  }

  // A name that nothing has been bound to.
  predicate Unbound(s: Space, name: Name) {
    NameOk(name) && !LooksLikeZero(name) && Lookup(s, NameText(name)) == Missing
  }

  lemma UnboundReads(s: Space, name: Name, rest: Bytes)
    requires Unbound(s, name)
    ensures ParseTermArg(s, NameBytes(name) + rest) == Null(rest)
  {
    NameReads(s, name, rest);
    hide NameBytes, NameText, NameString, Lookup, NameOk, Behind;
  }

  // Arguments are read up to a name that is not bound.
  lemma {:induction false} ArgsGiveUp(s: Space, ts: Terms, name: Name, n: nat, rest: Bytes)
    requires TermsOk(s, ts) && Count(ts) < n && Unbound(s, name)
    ensures ParseArgs(s, TermsBytes(ts) + (NameBytes(name) + rest), n, true) == Null(rest)
    decreases ts
  {
    hide *;
    var end := NameBytes(name) + rest;
    match ts
    case NoTerms =>
      UnboundReads(s, name, rest);
      NoTermsBytes();
      assert TermsBytes(ts) + end == end;
      NoneRead(s, end, n, rest);
    case TermThen(head, tail) =>
      TermsAre(ts);
      TermsOkParts(s, ts);
      TermBack(s, head, TermsBytes(tail) + end);
      ArgsGiveUp(s, tail, name, n - 1, rest);
      TermsAre(ts);
      Apart(TermBytes(head), TermsBytes(tail), end);
      NoMoreArgs(s, TermBytes(head) + (TermsBytes(tail) + end), TermNode(head), TermsBytes(tail) + end, n, rest);
  }

  lemma TermsOkParts(s: Space, ts: Terms)
    requires ts.TermThen? && TermsOk(s, ts)
    ensures TermOk(s, ts.head) && TermsOk(s, ts.tail)
  {
  }

  lemma NoneRead(s: Space, data: Bytes, n: nat, rest: Bytes)
    requires n > 0 && ParseTermArg(s, data) == Null(rest)
    ensures ParseArgs(s, data, n, true) == Null(rest)
  {
    hide ParseTermArg, Behind;
  }

  lemma NoMoreArgs(s: Space, data: Bytes, node: Node, mid: Bytes, n: nat, rest: Bytes)
    requires n > 0 && ParseTermArg(s, data) == Got(node, mid) && ParseArgs(s, mid, n - 1, true) == Null(rest)
    ensures ParseArgs(s, data, n, true) == Null(rest)
  {
    hide ParseTermArg, Behind;
  }

  /** An operator whose argument is a name that is not bound gives up right behind that name,
      but for DerefOf and Sleep, which go on without the argument. */
  lemma UnboundGivesUp(s: Space, op: nat, ts: Terms, name: Name, n: nat, rest: Bytes)
    requires (TakesTarget(op, n) || TakesNoTarget(op, n)) && TermsOk(s, ts) && Count(ts) < n && Unbound(s, name)
    ensures ParseTermArg(s, OpBytes(op) + (TermsBytes(ts) + (NameBytes(name) + rest))) ==
      if op == 0x83 || op == 0x5b22 then Got(Operation(op, [None]), rest) else Null(rest)
  {
    var tail := TermsBytes(ts) + (NameBytes(name) + rest);
    ShapeIs(op, n);
    assert ShapeOf(op).value.checked <==> op != 0x83 && op != 0x5b22;
    assert op == 0x83 || op == 0x5b22 ==> n == 1;
    var shape := ShapeOf(op).value;
    ArgsGiveUp(s, ts, name, n, rest);
    UnboundReads(s, name, rest);
    hide ShapeOf, TakesTarget, TakesNoTarget, NameBytes, ParseTermArg, ParseArgs, Unbound, TermsBytes, OpBytes;
    OpReads(s, op, shape, tail);
    if !shape.checked {
      assert ts == NoTerms;
      NoTermsBytes();
      assert tail == NameBytes(name) + rest;
      WithoutArg(s, op, tail, rest);
    }
  }

  lemma NoTermsBytes()
    ensures TermsBytes(NoTerms) == []
  {
  }

  lemma WithoutArg(s: Space, op: nat, data: Bytes, rest: Bytes)
    requires ParseTermArg(s, data) == Null(rest)
    ensures ParseOperation(s, data, op, Shape(1, false, false)) == Got(Operation(op, [None]), rest)
  {
    assert ParseArgs(s, rest, 0, false) == Got([], rest);
    var none: seq<Option<Node>> := [None];
    assert none + [] == none;
    assert ParseArgs(s, data, 1, false) == Got(none, rest);
    PlainReads(s, op, Shape(1, false, false), data, none, rest);
    hide ParseTermArg, Behind;
  }

  // ----- scopes -----

  /** A scope that is opened from the root is merged into what its path is bound to, when that
      is a scope or a device; it is bound itself when nothing is; and otherwise it halts. */
  lemma RootedScope(s: Space, name: Name, path: Bytes, body: Objs, rest: Bytes)
    requires ObjOk(ScopeObj(name, body)) && NameText(name) == [0x5c] + path && |path| % 4 == 0
    requires MeaningAll(Space(path, s.bindings), body).Some?
    ensures var m := MeaningAll(Space(path, s.bindings), body).value;
      var node := Container(0x10, [0x5c] + path, m.node);
      var after, r := m.space.bindings, ParseObject(s, EncodeObj(ScopeObj(name, body)) + rest);
      if NotBound(after, path) then
        r == Got(Placed(node, Space(s.scope, after + [Binding(path, ScopeKind)])), rest)
      else if exists i: nat ::
        FirstAt(after, path, i) && (after[i].kind == ScopeKind || after[i].kind == DeviceKind) then
        r == Got(Placed(node, Space(s.scope, after)), rest)
      else r == Stop(false)
  {
    var o, inner := ScopeObj(name, body), Space(path, s.bindings);
    RootedOpens(s, name, path);
    ScopeIs(s, o);
    var m := MeaningAll(inner, body).value;
    ScopeKept(inner, body);
    FindsFirst(m.space.bindings, path);
    RootedExactly(m.space, path);
    hide *;
    ObjectBack(s, o, rest);
    RootedMeans(s, path, m, rest);
  }

  lemma RootedOpens(s: Space, name: Name, path: Bytes)
    requires NameText(name) == [0x5c] + path && |path| % 4 == 0
    ensures Opened(s, NameText(name)) == Some(Space(path, s.bindings))
  {
    assert ([0x5c] + path)[1..] == path && [] + path == path;
  }

  lemma ScopeKept(s: Space, body: Objs)
    requires ObjsOk(body) && MeaningAll(s, body).Some?
    ensures MeaningAll(s, body).value.space.scope == s.scope
  {
    hide *;
    ObjectsBack(s, body);
    ComesIs(MeaningAll(s, body), []);
    ListKept(s, EncodeObjs(body));
  }

  lemma ListKept(s: Space, data: Bytes)
    ensures ParseList(s, data).Got? ==> ParseList(s, data).value.space.scope == s.scope
  {
    hide ParseObject;
  }

  lemma RootedMeans(s: Space, path: Bytes, m: Placed<seq<Node>>, rest: Bytes)
    requires m.space.scope == path
    ensures var body := Got(Body([0x5c] + path, m.node, m.space), []);
      var node := Container(0x10, [0x5c] + path, m.node);
      var after, r := m.space.bindings, Comes(ScopeMeans(s, body), rest);
      if NotBound(after, path) then
        r == Got(Placed(node, Space(s.scope, after + [Binding(path, ScopeKind)])), rest)
      else if exists i: nat ::
        FirstAt(after, path, i) && (after[i].kind == ScopeKind || after[i].kind == DeviceKind) then
        r == Got(Placed(node, Space(s.scope, after)), rest)
      else r == Stop(false)
  {
    FindsFirst(m.space.bindings, path);
    RootedExactly(m.space, path);
    FirstOnly(m.space.bindings, path);
    hide Lookup;
  }

  lemma FirstOnly(bindings: seq<Binding>, path: Bytes)
    ensures forall i: nat, j: nat :: FirstAt(bindings, path, i) && FirstAt(bindings, path, j) ==> i == j
    ensures forall i: nat :: FirstAt(bindings, path, i) ==> !NotBound(bindings, path)
  {
  }

  // ----- terms in objects -----

  /** A name, a call or an operator is an object by itself. */
  lemma StatementBack(s: Space, t: Term, rest: Bytes)
    requires TermOk(s, t) && !t.DataTerm? && !t.PlaceTerm?
    ensures ParseObject(s, TermBytes(t) + rest) == Got(Placed(TermNode(t), s), rest)
  {
    TermBack(s, t, rest);
    TermIsType2(s, t, rest);
    hide TermBytes, TermNode, TermOk, ParseTermArg, ParseType2;
  }

  // Neither a data object nor an argument or local is an operator.
  lemma TermIsType2(s: Space, t: Term, rest: Bytes)
    requires TermOk(s, t) && !t.DataTerm? && !t.PlaceTerm?
    ensures var data := TermBytes(t) + rest;
      && Opcode(data).Some? && Type2(Opcode(data).value.value) && ParseTermArg(s, data) == ParseType2(s, data)
  {
    match t
    case NameTerm(name) => NameIsType2(s, name, rest);
    case CallTerm(name, args) =>
      NameIsType2(s, name, TermsBytes(args) + rest);
      Apart(NameBytes(name), TermsBytes(args), rest);
    case OpTerm(op, args) =>
      OpIsType2(s, op, Count(args), TermsBytes(args) + rest);
      Apart(OpBytes(op), TermsBytes(args), rest);
    case TargetTerm(op, args, target) =>
      OpIsType2(s, op, Count(args), TermsBytes(args) + TargetBytes(target) + rest);
      Apart(OpBytes(op), TermsBytes(args) + TargetBytes(target), rest);
    case NotTerm(arg) =>
      NotIsType2(s, TermBytes(arg) + rest);
      Apart([0x92], TermBytes(arg), rest);
    case NotCompareTerm(op, args) =>
      NotIsType2(s, [op] + TermsBytes(args) + rest);
      Apart([0x92], [op] + TermsBytes(args), rest);
    hide ParseTermArg, ParseType2, Opcode, Type2, NameBytes, OpBytes, NameOk, Lookup, NameText, TakesTarget,
      TakesNoTarget;
  }

  lemma NameIsType2(s: Space, n: Name, rest: Bytes)
    requires NameOk(n) && !LooksLikeZero(n)
    ensures var data := NameBytes(n) + rest;
      && Opcode(data).Some? && Type2(Opcode(data).value.value) && ParseTermArg(s, data) == ParseType2(s, data)
  {
    NameReads(s, n, rest);
    hide NameBytes, NameOk, NameString, ParseCall, Behind, ShapeOf;
  }

  lemma OpIsType2(s: Space, op: nat, arity: nat, tail: Bytes)
    requires TakesTarget(op, arity) || TakesNoTarget(op, arity)
    ensures var data := OpBytes(op) + tail;
      && Opcode(data).Some? && Type2(Opcode(data).value.value) && ParseTermArg(s, data) == ParseType2(s, data)
  {
    OpStarts(op, arity, tail);
    ShapeIs(op, arity);
    OpAlone(op);
    var data := OpBytes(op) + tail;
    assert data != [] && data[0] == (if op == 0x5b22 then 0x5b else op);
    hide OpBytes, ParseType2, Behind, ShapeOf, DataOp, ArgOrLocal, NameStart, Opcode, TakesTarget, TakesNoTarget;
  }

  lemma NotIsType2(s: Space, tail: Bytes)
    ensures var data := [0x92] + tail;
      && Opcode(data).Some? && Type2(Opcode(data).value.value) && ParseTermArg(s, data) == ParseType2(s, data)
  {
    assert ([0x92] + tail)[0] == 0x92;
    hide ParseType2, Behind, ShapeOf;
  }

  /** A term can be what is returned, and what is stored to an argument, a name or an element. */
  lemma ReturnBack(s: Space, t: Term, rest: Bytes)
    requires TermOk(s, t)
    ensures ParseObject(s, [0xa4] + TermBytes(t) + rest) == Got(Placed(Operation(0xa4, [Some(TermNode(t))]), s), rest)
  {
    TermBack(s, t, rest);
    hide *;
    ReturnRead(s, TermBytes(t) + rest, TermNode(t), rest);
    PlainObject(s, 0xa4, TermBytes(t) + rest);
    Apart([0xa4], TermBytes(t), rest);
  }

  lemma StoreBack(s: Space, t: Term, g: Target, rest: Bytes)
    requires TermOk(s, t) && TargetOk(s, g) && !g.Nowhere?
    ensures ParseObject(s, [0x70] + (TermBytes(t) + TargetBytes(g)) + rest) ==
      Got(Placed(Operation(0x70, [Some(TermNode(t)), Some(TargetNode(g))]), s), rest)
  {
    TermBack(s, t, TargetBytes(g) + rest);
    SuperNameBack(s, g, rest);
    hide *;
    StoreGoes(s, TermBytes(t) + (TargetBytes(g) + rest), TermNode(t), TargetBytes(g) + rest, TargetNode(g), rest);
    PlainObject(s, 0x70, TermBytes(t) + (TargetBytes(g) + rest));
    Apart(TermBytes(t), TargetBytes(g), rest);
    Apart([0x70], TermBytes(t) + TargetBytes(g), rest);
  }

  lemma SuperNameBack(s: Space, g: Target, rest: Bytes)
    requires TargetOk(s, g) && !g.Nowhere?
    ensures ParseSuperName(s, TargetBytes(g) + rest) == Got(TargetNode(g), rest)
  {
    TargetBack(s, g, rest);
    if g.AtName? {
      NameReads(s, g.name, rest);
    } else {
      assert (TargetBytes(g) + rest)[0] == (if g.AtPlace? then g.place else 0x88);
    }
    hide ParseSuperName, TargetNode, NameBytes, NameString, NameOk;
  }

  lemma StoreGoes(s: Space, data: Bytes, node: Node, mid: Bytes, to: Node, rest: Bytes)
    requires ParseTermArg(s, data) == Got(node, mid) && ParseSuperName(s, mid) == Got(to, rest)
    ensures ParseStore(s, data) == Got(Operation(0x70, [Some(node), Some(to)]), rest)
  {
    hide ParseTermArg, ParseSuperName, Behind;
  }

  lemma PlainObject(s: Space, op: Byte, tail: Bytes)
    requires op == 0xa4 || op == 0x70
    ensures ParseObject(s, [op] + tail) ==
      AsPlaced(s, if op == 0xa4 then ParseOperation(s, tail, 0xa4, Shape(1, false, true)) else ParseStore(s, tail))
  {
    var data := [op] + tail;
    assert data[0] == op && data[1..] == tail;
    assert Opcode(data) == Some(Read(op, tail));
    assert !Type2(op);
    hide Type2, Opcode, ParseStore, ParseOperation, AsPlaced, Behind;
  }

  /** And it can be what a loop or a branch depends on. */
  lemma GuardedBack(s: Space, condition: Term, body: Objs)
    requires TermOk(s, condition) && ObjsOk(body)
    ensures ParseGuarded(s, TermBytes(condition) + EncodeObjs(body)) ==
      var m := MeaningAll(s, body);
      if m.None? then Stop(false) else Got(Placed(Guarded(TermNode(condition), m.value.node), m.value.space), [])
  {
    TermBack(s, condition, EncodeObjs(body));
    ObjectsBack(s, body);
    hide TermBytes, TermNode, TermOk, EncodeObjs, MeaningAll, ParseList, ParseTermArg, ObjsOk;
  }

  /** The size of a buffer is any term, or a name that is not bound, which leaves it open; the
      bytes behind it in the package are the contents. */
  lemma BufferBack(s: Space, size: Term, data: Bytes, rest: Bytes)
    requires TermOk(s, size) && |TermBytes(size) + data| < 0xFFFFD
    ensures ParseData(s, Packed(0x11, TermBytes(size) + data) + rest) == Got(Buffer(Some(TermNode(size)), data), rest)
  {
    TermBack(s, size, data);
    hide *;
    Unpacked(0x11, TermBytes(size) + data, rest);
    BufferReads(s, Packed(0x11, TermBytes(size) + data) + rest, TermBytes(size) + data, rest);
  }

  lemma OpenBufferBack(s: Space, size: Name, data: Bytes, rest: Bytes)
    requires Unbound(s, size) && |NameBytes(size) + data| < 0xFFFFD
    ensures ParseData(s, Packed(0x11, NameBytes(size) + data) + rest) == Got(Buffer(None, data), rest)
  {
    hide *;
    UnboundReads(s, size, data);
    Unpacked(0x11, NameBytes(size) + data, rest);
    BufferReads(s, Packed(0x11, NameBytes(size) + data) + rest, NameBytes(size) + data, rest);
  }

  lemma BufferReads(s: Space, data: Bytes, inside: Bytes, after: Bytes)
    requires data != [] && data[0] == 0x11 && Adjust(data[1..]) == Some(Package(inside, after))
    ensures var size := ParseTermArg(s, inside);
      && (size.Got? ==> ParseData(s, data) == Got(Buffer(Some(size.value), size.rest), after))
      && (size.Null? ==> ParseData(s, data) == Got(Buffer(None, size.rest), after))
  {
    hide Adjust, ParseTermArg, Behind;
  }

  /** A package is read exactly when it has as many elements as it says, or none. */
  lemma PackageCounts(s: Space, count: Byte, es: Items, rest: Bytes)
    requires AllOk(es) && |[count] + EncodeAll(es)| < 0xFFFFD
    ensures ParseData(s, Packed(0x12, [count] + EncodeAll(es)) + rest) ==
      if es == End || count == Length(es) then Got(PackageOf(NodesOf(es)), rest) else Stop(false)
  {
    var inside := [count] + EncodeAll(es);
    ElementsBack(s, es);
    assert inside[1..] == EncodeAll(es) && |NodesOf(es)| == Length(es) && (Length(es) == 0 <==> es == End);
    hide *;
    Unpacked(0x12, inside, rest);
    PackageReads(s, Packed(0x12, inside) + rest, inside, rest, NodesOf(es));
  }

  lemma PackageReads(s: Space, data: Bytes, inside: Bytes, after: Bytes, nodes: seq<Node>)
    requires data != [] && data[0] == 0x12 && Adjust(data[1..]) == Some(Package(inside, after)) && inside != []
    requires ParseElements(s, inside[1..]) == Got(nodes, [])
    ensures ParseData(s, data) ==
      if nodes == [] || inside[0] == |nodes| then Got(PackageOf(nodes), after) else Stop(false)
  {
    hide Adjust, ParseElements, Behind;
  }
}
