/** Objects as they are encoded, what they mean for the name space, and that reading them
    comes to that. */
module AmlObjects {
  import opened Options
  import opened Octets
  import opened AmlBytes
  import opened NameSpaces
  import opened AmlParser
  import opened AmlEncoding
  import AmlTerms

  datatype Obj =
    | NameObj(name: Name, item: Item)
    | ScopeObj(name: Name, body: Objs)
    | DeviceObj(name: Name, body: Objs)
    | MethodObj(name: Name, flags: Byte, code: Bytes)
    | IfObj(condition: Item, yes: Objs)
    | IfElseObj(condition: Item, yes: Objs, no: Objs)
    | WhileObj(condition: Item, body: Objs)
    | NoopObj
    | ReturnObj(item: Item)
    | StoreObj(item: Item, target: Byte)

  datatype Objs = Done | Then(head: Obj, tail: Objs)

  // ----- bytes -----

  function EncodeObj(o: Obj): Bytes
    decreases o, 0
  {
    match o
    case NameObj(name, item) => [NAME] + NameBytes(name) + Encode(item)
    case ScopeObj(name, body) => Packed(SCOPE, NameBytes(name) + EncodeObjs(body))
    case DeviceObj(name, body) => [EXT] + Packed(0x82, NameBytes(name) + EncodeObjs(body))
    case MethodObj(name, flags, code) => Packed(METHOD, NameBytes(name) + ([flags] + code))
    case IfObj(condition, yes) => Packed(IF, Encode(condition) + EncodeObjs(yes))
    case IfElseObj(condition, yes, no) => Packed(IF, Encode(condition) + EncodeObjs(yes)) + Packed(ELSE, EncodeObjs(no))
    case WhileObj(condition, body) => Packed(WHILE, Encode(condition) + EncodeObjs(body))
    case NoopObj => [NOOP]
    case ReturnObj(item) => [RETURN] + Encode(item)
    case StoreObj(item, target) => [STORE] + Encode(item) + [target]
  }

  function EncodeObjs(os: Objs): Bytes
    decreases os, 0
  {
    match os
    case Done => []
    case Then(o, tail) => EncodeObj(o) + EncodeObjs(tail)
  }

  predicate Fits(inside: Bytes) {
    |inside| < 0xFFFFD
  }

  predicate ObjOk(o: Obj) {
    match o
    case NameObj(name, item) => NameOk(name) && ItemOk(item)
    case ScopeObj(name, body) => NameOk(name) && ObjsOk(body) && Fits(NameBytes(name) + EncodeObjs(body))
    case DeviceObj(name, body) => NameOk(name) && ObjsOk(body) && Fits(NameBytes(name) + EncodeObjs(body))
    case MethodObj(name, flags, code) => NameOk(name) && Fits(NameBytes(name) + ([flags] + code))
    case IfObj(condition, yes) => ItemOk(condition) && ObjsOk(yes) && Fits(Encode(condition) + EncodeObjs(yes))
    case IfElseObj(condition, yes, no) =>
      ItemOk(condition) && ObjsOk(yes) && ObjsOk(no) && Fits(Encode(condition) + EncodeObjs(yes))
        && Fits(EncodeObjs(no))
    case WhileObj(condition, body) => ItemOk(condition) && ObjsOk(body) && Fits(Encode(condition) + EncodeObjs(body))
    case NoopObj => true
    case ReturnObj(item) => ItemOk(item)
    case StoreObj(item, target) => ItemOk(item) && ArgOrLocal(target)
  }

  predicate ObjsOk(os: Objs) {
    match os
    case Done => true
    case Then(o, tail) => ObjOk(o) && ObjsOk(tail)
  }

  // ----- meaning -----

  // The node, and the name space after it; None when a name cannot be opened or bound.
  function Meaning(s: Space, o: Obj): Option<Placed<Node>>
    decreases o, 0
  {
    match o
    case NameObj(name, item) =>
      Bind(s, Opened(s, NameText(name)), OtherKind, Named(NameText(name), NodeOf(item)))
    case MethodObj(name, flags, code) =>
      Bind(s, Opened(s, NameText(name)), MethodKind(flags % 8), Method(NameText(name), flags, code))
    case DeviceObj(name, body) =>
      var inner := Opened(s, NameText(name));
      if inner.None? then None
      else
        var m := MeaningAll(inner.value, body);
        if m.None? then None
        else Bind(s, Some(m.value.space), DeviceKind, Container(DEVICE, NameText(name), m.value.node))
    case ScopeObj(name, body) =>
      var inner := Opened(s, NameText(name));
      if inner.None? then None
      else
        var m := MeaningAll(inner.value, body);
        if m.None? then None
        else
          var node := Container(SCOPE, NameText(name), m.value.node);
          var found := Lookup(m.value.space, NameText(name));
          if found == Missing then Bind(s, Some(m.value.space), ScopeKind, node)
          else if found == Bound(ScopeKind) || found == Bound(DeviceKind) then
            Some(Placed(node, m.value.space.(scope := s.scope)))
          else None
    case IfObj(condition, yes) =>
      var m := MeaningAll(s, yes);
      if m.None? then None else Some(Placed(If(NodeOf(condition), m.value.node, None), m.value.space))
    case IfElseObj(condition, yes, no) =>
      var m := MeaningAll(s, yes);
      if m.None? then None
      else
        var n := MeaningAll(m.value.space, no);
        if n.None? then None else Some(Placed(If(NodeOf(condition), m.value.node, Some(n.value.node)), n.value.space))
    case WhileObj(condition, body) =>
      var m := MeaningAll(s, body);
      if m.None? then None else Some(Placed(While(NodeOf(condition), m.value.node), m.value.space))
    case NoopObj => Some(Placed(Simple(NOOP), s))
    case ReturnObj(item) => Some(Placed(Operation(RETURN, [Some(NodeOf(item))]), s))
    case StoreObj(item, target) => Some(Placed(Operation(STORE, [Some(NodeOf(item)), Some(Simple(target))]), s))
  }

  function Bind(s: Space, inner: Option<Space>, kind: Kind, node: Node): Option<Placed<Node>> {
    if inner.None? then None
    else
      var t := Provided(inner.value, s.scope, kind);
      if t.None? then None else Some(Placed(node, t.value))
  }

  function MeaningAll(s: Space, os: Objs): Option<Placed<seq<Node>>>
    decreases os, 0
  {
    match os
    case Done => Some(Placed([], s))
    case Then(o, tail) =>
      var m := Meaning(s, o);
      if m.None? then None
      else
        var n := MeaningAll(m.value.space, tail);
        if n.None? then None else Some(Placed([m.value.node] + n.value.node, n.value.space))
  }

  // ----- reading -----

  // What may follow an `If` that has no `Else`.
  predicate NoElse(rest: Bytes) {
    rest == [] || (Opcode(rest).Some? && Opcode(rest).value.value != ELSE)
  }

  // The first byte of an object, and how it is told apart.
  lemma StartsWith(o: Obj, rest: Bytes)
    requires ObjOk(o)
    ensures NoElse(EncodeObj(o) + rest) && EncodeObj(o) != []
    ensures Opcode(EncodeObj(o) + rest).Some? && !Type2(Opcode(EncodeObj(o) + rest).value.value)
    ensures Opcode(EncodeObj(o) + rest).value.value == OpOf(o)
  {
    FirstByte(o);
    OpIsObject(o);
    hide *;
    OpcodeRead(o, EncodeObj(o), rest);
  }

  lemma OpcodeRead(o: Obj, data: Bytes, rest: Bytes)
    requires data != [] && data[0] == FirstOf(o) && (o.DeviceObj? ==> |data| > 1 && data[1] == 0x82)
    requires !Type2(OpOf(o)) && OpOf(o) != ELSE
    ensures NoElse(data + rest) && Opcode(data + rest).Some? && Opcode(data + rest).value.value == OpOf(o)
    ensures !Type2(Opcode(data + rest).value.value)
  {
    hide Type2;
    assert (data + rest)[0] == data[0];
    if o.DeviceObj? {
      assert (data + rest)[1] == data[1];
    }
  }

  function FirstOf(o: Obj): Byte {
    if o.DeviceObj? then EXT else OpOf(o)
  }

  lemma FirstByte(o: Obj)
    requires ObjOk(o)
    ensures EncodeObj(o) != [] && EncodeObj(o)[0] == FirstOf(o)
    ensures o.DeviceObj? ==> |EncodeObj(o)| > 1 && EncodeObj(o)[1] == 0x82
  {
    match o
    case ScopeObj(name, body) => PackedStarts(SCOPE, NameBytes(name) + EncodeObjs(body), []);
    case DeviceObj(name, body) => PackedStarts(0x82, NameBytes(name) + EncodeObjs(body), []);
    case MethodObj(name, flags, code) => PackedStarts(METHOD, NameBytes(name) + ([flags] + code), []);
    case IfObj(condition, yes) => PackedStarts(IF, Encode(condition) + EncodeObjs(yes), []);
    case IfElseObj(condition, yes, no) =>
      PackedStarts(IF, Encode(condition) + EncodeObjs(yes), Packed(ELSE, EncodeObjs(no)));
    case WhileObj(condition, body) => PackedStarts(WHILE, Encode(condition) + EncodeObjs(body), []);
    case _ =>
    hide Packed, Encode, EncodeObjs, NameBytes, ObjsOk, ItemOk;
  }

  lemma PackedStarts(op: Byte, inside: Bytes, rest: Bytes)
    requires Fits(inside)
    ensures Packed(op, inside) != [] && Packed(op, inside)[0] == op
    ensures Packed(op, inside) + rest != [] && (Packed(op, inside) + rest)[0] == op
  {
    hide LengthOf;
  }

  lemma OpIsObject(o: Obj)
    ensures !Type2(OpOf(o)) && OpOf(o) != ELSE
  {
  }

  function OpOf(o: Obj): nat {
    match o
    case NameObj(_, _) => NAME
    case ScopeObj(_, _) => SCOPE
    case DeviceObj(_, _) => DEVICE
    case MethodObj(_, _, _) => METHOD
    case IfObj(_, _) => IF
    case IfElseObj(_, _, _) => IF
    case WhileObj(_, _) => WHILE
    case NoopObj => NOOP
    case ReturnObj(_) => RETURN
    case StoreObj(_, _) => STORE
  }

  // What reading is to come to.
  function Comes<T>(m: Option<Placed<T>>, rest: Bytes): Outcome<Placed<T>> {
    if m.None? then Stop(false) else Got(m.value, rest)
  }

  /** Reading is a left inverse of encoding for whole objects: the nodes, the scopes and
      the bindings are what the objects mean, and the bytes behind are untouched. */
  lemma {:induction false} ObjectBack(s: Space, o: Obj, rest: Bytes)
    requires ObjOk(o) && (o.IfObj? ==> NoElse(rest))
    ensures ParseObject(s, EncodeObj(o) + rest) == Comes(Meaning(s, o), rest)
    decreases o, 2
  {
    StartsWith(o, rest);
    ReadsAs(s, o, EncodeObj(o) + rest);
    hide EncodeObj, Meaning, Opcode, Type2, ParseObject, ParseNamed, ParseScope, ParseDevice, ParseMethod, ParseIf,
      ParseWhile, ParsePlain, ObjOk, NoElse;
    match o
    case NameObj(name, item) => NamedBack(s, o, rest);
    case ScopeObj(name, body) => ScopeBack(s, o, rest);
    case DeviceObj(name, body) => DeviceBack(s, o, rest);
    case MethodObj(name, flags, code) => MethodBack(s, o, rest);
    case IfObj(condition, yes) => IfBack(s, o, rest);
    case IfElseObj(condition, yes, no) => IfElseBack(s, o, rest);
    case WhileObj(condition, body) => WhileBack(s, o, rest);
    case _ => PlainBack(s, o, rest);
  }

  // Which way an object is read.
  lemma ReadsAs(s: Space, o: Obj, data: Bytes)
    requires Opcode(data).Some? && Opcode(data).value.value == OpOf(o) && !Type2(OpOf(o))
    ensures data != [] && (o.DeviceObj? ==> |data| >= 2)
    ensures ParseObject(s, data) ==
      match o
      case NameObj(_, _) => ParseNamed(s, data)
      case ScopeObj(_, _) => ParseScope(s, data)
      case DeviceObj(_, _) => ParseDevice(s, data)
      case MethodObj(_, _, _) => ParseMethod(s, data)
      case IfObj(_, _) => ParseIf(s, data)
      case IfElseObj(_, _, _) => ParseIf(s, data)
      case WhileObj(_, _) => ParseWhile(s, data)
      case _ => ParsePlain(s, data)
  {
    hide Type2, ParseNamed, ParseScope, ParseDevice, ParseMethod, ParseIf, ParseWhile, ParsePlain;
  }

  lemma {:induction false} ObjectsBack(s: Space, os: Objs)
    requires ObjsOk(os)
    ensures ParseList(s, EncodeObjs(os)) == Comes(MeaningAll(s, os), [])
    decreases os, 2
  {
    if os.Then? {
      var rest := EncodeObjs(os.tail);
      if os.tail.Then? {
        StartsWith(os.tail.head, EncodeObjs(os.tail.tail));
      }
      assert NoElse(rest);
      ObjectBack(s, os.head, rest);
      StartsWith(os.head, rest);
      var m := Meaning(s, os.head);
      if m.Some? {
        ObjectsBack(m.value.space, os.tail);
      }
      hide EncodeObj, Meaning, ParseObject, NoElse, Opcode, Type2, ObjOk;
    }
  }

  // ----- each object -----

  lemma {:induction false} BodyBack(s: Space, name: Name, body: Objs)
    requires NameOk(name) && ObjsOk(body)
    ensures var inner := Opened(s, NameText(name));
      ParseBody(s, NameBytes(name) + EncodeObjs(body)) ==
        if inner.None? then Stop(false)
        else
          var m := MeaningAll(inner.value, body);
          if m.None? then Stop(false) else Got(Body(NameText(name), m.value.node, m.value.space), [])
    decreases body, 3
  {
    NameBack(name, EncodeObjs(body));
    var inner := Opened(s, NameText(name));
    if inner.Some? {
      ObjectsBack(inner.value, body);
    }
    hide NameBytes, NameText, NameString, EncodeObjs, MeaningAll, ParseList, Opened, ObjsOk, NameOk;
  }

  lemma {:induction false} GuardBack(s: Space, condition: Item, body: Objs)
    requires ItemOk(condition) && ObjsOk(body)
    ensures ParseGuarded(s, Encode(condition) + EncodeObjs(body)) ==
      var m := MeaningAll(s, body);
      if m.None? then Stop(false) else Got(Placed(Guarded(NodeOf(condition), m.value.node), m.value.space), [])
    decreases body, 3
  {
    AmlTerms.DataTermBack(s, condition, EncodeObjs(body));
    ObjectsBack(s, body);
    hide Encode, EncodeObjs, MeaningAll, ParseList, ParseTermArg, NodeOf, ItemOk, ObjsOk;
  }

  // What reading a scope comes to, by its body.
  function ScopeMeans(s: Space, body: Outcome<Body>): Option<Placed<Node>> {
    if !body.Got? then None
    else
      var node := Container(SCOPE, body.value.name, body.value.nodes);
      var found := Lookup(body.value.space, body.value.name);
      if found == Missing then Bind(s, Some(body.value.space), ScopeKind, node)
      else if found == Bound(ScopeKind) || found == Bound(DeviceKind) then
        Some(Placed(node, body.value.space.(scope := s.scope)))
      else None
  }

  lemma ScopeRead(s: Space, data: Bytes, inside: Bytes, rest: Bytes)
    requires data != [] && Adjust(data[1..]) == Some(Package(inside, rest))
    ensures var body := ParseBody(s, inside);
      body == Stop(false) || body.Got? ==> ParseScope(s, data) == Comes(ScopeMeans(s, body), rest)
  {
    hide Adjust, ParseBody, Lookup, Provided, Behind;
  }

  lemma ScopeIs(s: Space, o: Obj)
    requires o.ScopeObj? && ObjOk(o)
    ensures NameOk(o.name) && ObjsOk(o.body) && Fits(NameBytes(o.name) + EncodeObjs(o.body))
    ensures EncodeObj(o) == Packed(SCOPE, NameBytes(o.name) + EncodeObjs(o.body))
    ensures var inner := Opened(s, NameText(o.name));
      var m := if inner.None? then None else MeaningAll(inner.value, o.body);
      Meaning(s, o) == ScopeMeans(s,
        if m.None? then Stop(false) else Got(Body(NameText(o.name), m.value.node, m.value.space), []))
  {
    hide Packed, NameBytes, NameText, EncodeObjs, MeaningAll, Opened, Provided, Lookup, ObjsOk;
  }

  lemma {:induction false} ScopeBack(s: Space, o: Obj, rest: Bytes)
    requires o.ScopeObj? && ObjOk(o)
    ensures EncodeObj(o) + rest != [] && ParseScope(s, EncodeObj(o) + rest) == Comes(Meaning(s, o), rest)
    decreases o, 1
  {
    var inside := NameBytes(o.name) + EncodeObjs(o.body);
    ScopeIs(s, o);
    Unpacked(SCOPE, inside, rest);
    BodyBack(s, o.name, o.body);
    hide *;
    ScopeRead(s, EncodeObj(o) + rest, inside, rest);
  }

  lemma {:induction false} DeviceBack(s: Space, o: Obj, rest: Bytes)
    requires o.DeviceObj? && ObjOk(o)
    ensures |EncodeObj(o) + rest| >= 2 && ParseDevice(s, EncodeObj(o) + rest) == Comes(Meaning(s, o), rest)
    decreases o, 1
  {
    var packed := Packed(0x82, NameBytes(o.name) + EncodeObjs(o.body));
    Unpacked(0x82, NameBytes(o.name) + EncodeObjs(o.body), rest);
    BodyBack(s, o.name, o.body);
    Past(EXT, packed, rest);
    hide Packed, Adjust, ParseBody, NameBytes, NameText, EncodeObjs, MeaningAll, Opened, Provided, Lookup, Behind,
      ObjsOk;
  }

  lemma Past(op: Byte, a: Bytes, rest: Bytes)
    requires a + rest != []
    ensures |[op] + a + rest| >= 2 && ([op] + a + rest)[2..] == (a + rest)[1..]
  {
  }

  lemma MethodBack(s: Space, o: Obj, rest: Bytes)
    requires o.MethodObj? && ObjOk(o)
    ensures EncodeObj(o) + rest != [] && ParseMethod(s, EncodeObj(o) + rest) == Comes(Meaning(s, o), rest)
  {
    var tail := [o.flags] + o.code;
    Unpacked(METHOD, NameBytes(o.name) + tail, rest);
    NameBack(o.name, tail);
    assert tail[0] == o.flags && tail[1..] == o.code;
    hide Packed, Adjust, NameBytes, NameText, NameString, Opened, Provided, Behind;
  }

  lemma NamedBack(s: Space, o: Obj, rest: Bytes)
    requires o.NameObj? && ObjOk(o)
    ensures EncodeObj(o) + rest != [] && ParseNamed(s, EncodeObj(o) + rest) == Comes(Meaning(s, o), rest)
  {
    NameBack(o.name, Encode(o.item) + rest);
    Regroup5(NAME, NameBytes(o.name), Encode(o.item), rest);
    var inner := Opened(s, NameText(o.name));
    if inner.Some? {
      DataBack(inner.value, o.item, rest);
    }
    hide NameBytes, NameText, NameString, Encode, NodeOf, ParseData, Opened, Provided, Behind, ItemOk;
  }

  lemma Regroup5(op: Byte, a: Bytes, b: Bytes, c: Bytes)
    ensures [op] + a + b + c != [] && ([op] + a + b + c)[1..] == a + (b + c)
  {
  }

  lemma {:induction false} WhileBack(s: Space, o: Obj, rest: Bytes)
    requires o.WhileObj? && ObjOk(o)
    ensures EncodeObj(o) + rest != [] && ParseWhile(s, EncodeObj(o) + rest) == Comes(Meaning(s, o), rest)
    decreases o, 1
  {
    Unpacked(WHILE, Encode(o.condition) + EncodeObjs(o.body), rest);
    GuardBack(s, o.condition, o.body);
    hide Packed, Adjust, ParseGuarded, Encode, EncodeObjs, MeaningAll, NodeOf, Behind, ItemOk, ObjsOk;
  }

  lemma {:induction false} IfBack(s: Space, o: Obj, rest: Bytes)
    requires o.IfObj? && ObjOk(o) && NoElse(rest)
    ensures EncodeObj(o) + rest != [] && ParseIf(s, EncodeObj(o) + rest) == Comes(Meaning(s, o), rest)
    decreases o, 1
  {
    Unpacked(IF, Encode(o.condition) + EncodeObjs(o.yes), rest);
    GuardBack(s, o.condition, o.yes);
    hide Packed, Adjust, ParseGuarded, Encode, EncodeObjs, MeaningAll, NodeOf, Behind, ItemOk, ObjsOk, Opcode,
      ParseElse;
  }

  lemma {:induction false} IfElseBack(s: Space, o: Obj, rest: Bytes)
    requires o.IfElseObj? && ObjOk(o)
    ensures EncodeObj(o) + rest != [] && ParseIf(s, EncodeObj(o) + rest) == Comes(Meaning(s, o), rest)
    decreases o, 1
  {
    var inside, no := Encode(o.condition) + EncodeObjs(o.yes), Packed(ELSE, EncodeObjs(o.no));
    IfElseIs(s, o);
    Unpacked(IF, inside, no + rest);
    OpcodeElse(EncodeObjs(o.no), rest);
    GuardBack(s, o.condition, o.yes);
    var m := MeaningAll(s, o.yes);
    if m.Some? {
      ElseBack(m.value.space, o.no, rest);
    }
    hide *;
    Joins(Packed(IF, inside), no, rest);
    IfElseRead(s, EncodeObj(o) + rest, inside, no + rest);
    ComesIs(m, rest);
    ComesIs(Meaning(s, o), rest);
    if m.Some? {
      ComesIs(MeaningAll(m.value.space, o.no), rest);
    }
  }

  lemma ComesIs<T>(m: Option<Placed<T>>, rest: Bytes)
    ensures Comes(m, rest) == if m.None? then Stop(false) else Got(m.value, rest)
  {
  }

  lemma IfElseIs(s: Space, o: Obj)
    requires o.IfElseObj? && ObjOk(o)
    ensures ItemOk(o.condition) && ObjsOk(o.yes) && ObjsOk(o.no)
    ensures Fits(Encode(o.condition) + EncodeObjs(o.yes)) && Fits(EncodeObjs(o.no))
    ensures EncodeObj(o) == Packed(IF, Encode(o.condition) + EncodeObjs(o.yes)) + Packed(ELSE, EncodeObjs(o.no))
    ensures var m := MeaningAll(s, o.yes);
      Meaning(s, o) ==
        if m.None? then None
        else
          var n := MeaningAll(m.value.space, o.no);
          if n.None? then None
          else Some(Placed(If(NodeOf(o.condition), m.value.node, Some(n.value.node)), n.value.space))
  {
    hide Packed, Encode, EncodeObjs, MeaningAll, NodeOf, ItemOk, ObjsOk;
  }

  lemma Joins(a: Bytes, b: Bytes, c: Bytes)
    ensures a + b + c == a + (b + c)
  {
  }

  lemma OpcodeElse(inside: Bytes, rest: Bytes)
    requires Fits(inside)
    ensures Packed(ELSE, inside) + rest != []
    ensures Opcode(Packed(ELSE, inside) + rest).Some? && Opcode(Packed(ELSE, inside) + rest).value.value == ELSE
  {
    PackedStarts(ELSE, inside, rest);
    hide Packed;
  }

  lemma {:induction false} ElseBack(s: Space, no: Objs, rest: Bytes)
    requires ObjsOk(no) && Fits(EncodeObjs(no))
    ensures var data := Packed(ELSE, EncodeObjs(no)) + rest;
      data != [] && ParseElse(s, data) == Comes(MeaningAll(s, no), rest)
    decreases no, 3
  {
    Unpacked(ELSE, EncodeObjs(no), rest);
    ObjectsBack(s, no);
    hide Packed, Adjust, EncodeObjs, MeaningAll, ParseList, Behind, ObjsOk;
  }

  lemma PlainBack(s: Space, o: Obj, rest: Bytes)
    requires ObjOk(o) && (o.NoopObj? || o.ReturnObj? || o.StoreObj?)
    ensures ParsePlain(s, EncodeObj(o) + rest) == Comes(Meaning(s, o), rest)
  {
    match o
    case NoopObj => NoopBack(s, rest);
    case ReturnObj(item) => ReturnBack(s, item, rest);
    case StoreObj(item, target) => StoreBack(s, item, target, rest);
    hide ParsePlain, Encode, NodeOf, ItemOk;
  }

  lemma NoopBack(s: Space, rest: Bytes)
    ensures ParsePlain(s, [NOOP] + rest) == Got(Placed(Simple(NOOP), s), rest)
  {
    assert ([NOOP] + rest)[1..] == rest;
    hide ParseOperation, ParseStore, Behind;
  }

  lemma ReturnBack(s: Space, item: Item, rest: Bytes)
    requires ItemOk(item)
    ensures ParsePlain(s, [RETURN] + Encode(item) + rest) ==
      Got(Placed(Operation(RETURN, [Some(NodeOf(item))]), s), rest)
  {
    Regroup2(RETURN, Encode(item), rest);
    AmlTerms.DataTermBack(s, item, rest);
    ReturnRead(s, Encode(item) + rest, NodeOf(item), rest);
    hide Encode, NodeOf, ParseOperation, ParseStore, ParseTermArg, ItemOk, Behind;
  }

  lemma StoreBack(s: Space, item: Item, target: Byte, rest: Bytes)
    requires ItemOk(item) && ArgOrLocal(target)
    ensures ParsePlain(s, [STORE] + Encode(item) + [target] + rest) ==
      Got(Placed(Operation(STORE, [Some(NodeOf(item)), Some(Simple(target))]), s), rest)
  {
    Regroup5(STORE, Encode(item), [target], rest);
    AmlTerms.DataTermBack(s, item, [target] + rest);
    StoreRead(s, Encode(item) + ([target] + rest), NodeOf(item), target, rest);
    hide Encode, NodeOf, ParseOperation, ParseStore, ParseTermArg, ItemOk, Behind;
  }

  lemma Regroup2(op: Byte, a: Bytes, b: Bytes)
    ensures [op] + a + b != [] && ([op] + a + b)[1..] == a + b && ([op] + a + b)[0] == op
  {
  }

  lemma ReturnRead(s: Space, data: Bytes, node: Node, rest: Bytes)
    requires ParseTermArg(s, data) == Got(node, rest)
    ensures ParseOperation(s, data, RETURN, Shape(1, false, true)) == Got(Operation(RETURN, [Some(node)]), rest)
  {
    assert ParseArgs(s, rest, 0, true) == Got([], rest);
    assert [Some(node)] + [] == [Some(node)];
    hide ParseTermArg, Behind;
  }

  lemma StoreRead(s: Space, data: Bytes, node: Node, target: Byte, rest: Bytes)
    requires ParseTermArg(s, data) == Got(node, [target] + rest) && ArgOrLocal(target)
    ensures ParseStore(s, data) == Got(Operation(STORE, [Some(node), Some(Simple(target))]), rest)
  {
    assert ([target] + rest)[1..] == rest;
    assert ParseSuperName(s, [target] + rest) == Got(Simple(target), rest);
    hide ParseTermArg, ParseSuperName, Behind;
  }
}
