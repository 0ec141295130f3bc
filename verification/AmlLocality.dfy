/** What reading does not look at: the bytes behind what it has read. */
module AmlLocality {
  import opened Options
  import opened Octets
  import opened AmlBytes
  import opened NameSpaces
  import opened AmlParser

  // The same outcome, with more bytes behind it.
  function Longer<T>(r: Outcome<T>, more: Bytes): Outcome<T> {
    match r
    case Stop(outside) => Stop(outside)
    case Null(rest) => Null(rest + more)
    case Got(v, rest) => Got(v, rest + more)
  }

  lemma TailMore(data: Bytes, more: Bytes, k: nat)
    requires k <= |data|
    ensures (data + more)[k..] == data[k..] + more
    ensures k < |data| ==> (data + more)[k] == data[k]
  {
  }

  lemma IntegerMore(data: Bytes, n: nat, more: Bytes)
    requires n > 0 && Integer(data, n).Some?
    ensures Integer(data + more, n) == Some(Read(Integer(data, n).value.value, Integer(data, n).value.rest + more))
  {
    TailMore(data, more, n);
    assert (data + more)[..n] == data[..n];
  }

  lemma {:induction false} TextMore(data: Bytes, more: Bytes)
    requires Text(data).Some?
    ensures Text(data + more) == Some(Read(Text(data).value.value, Text(data).value.rest + more))
  {
    TailMore(data, more, 0);
    TailMore(data, more, 1);
    if data[0] != 0 {
      TextMore(data[1..], more);
    }
  }

  lemma OpcodeMore(data: Bytes, more: Bytes)
    requires Opcode(data).Some?
    ensures Opcode(data + more) == Some(Read(Opcode(data).value.value, Opcode(data).value.rest + more))
  {
    TailMore(data, more, 0);
    TailMore(data, more, 1);
    if |data| >= 2 {
      TailMore(data, more, 2);
    }
  }

  // ----- data -----

  lemma ScalarSealed(op: Byte, data: Bytes, more: Bytes)
    requires data != [] && !ParseScalar(op, data).Stop?
    ensures ParseScalar(op, data + more) == Longer(ParseScalar(op, data), more)
  {
    var rest := data[1..];
    TailMore(data, more, 1);
    if op == BYTE {
      IntegerMore(rest, 1, more);
    } else if op == WORD {
      IntegerMore(rest, 2, more);
    } else if op == DWORD {
      IntegerMore(rest, 4, more);
    } else if op == QWORD {
      IntegerMore(rest, 8, more);
    } else {
      TextMore(rest, more);
    }
    hide Integer, Text, Behind;
  }

  lemma BufferSealed(s: Space, data: Bytes, more: Bytes)
    requires data != [] && !ParseBuffer(s, data).Stop?
    ensures ParseBuffer(s, data + more) == Longer(ParseBuffer(s, data), more)
  {
    TailMore(data, more, 1);
    AdjustSealed(data[1..], more);
    hide Adjust, ParseTermArg, Behind;
  }

  lemma PackageSealed(s: Space, data: Bytes, more: Bytes)
    requires data != [] && !ParsePackage(s, data).Stop?
    ensures ParsePackage(s, data + more) == Longer(ParsePackage(s, data), more)
  {
    TailMore(data, more, 1);
    AdjustSealed(data[1..], more);
    hide Adjust, ParseElements, Behind;
  }

  lemma DataSealed(s: Space, data: Bytes, more: Bytes)
    requires !ParseData(s, data).Stop?
    ensures ParseData(s, data + more) == Longer(ParseData(s, data), more)
  {
    TailMore(data, more, 0);
    TailMore(data, more, 1);
    if data[0] == BUFFER {
      BufferSealed(s, data, more);
    } else if data[0] == PACKAGE {
      PackageSealed(s, data, more);
    } else if data[0] != ZERO && data[0] != ONE && data[0] != ONES {
      ScalarSealed(data[0], data, more);
    }
    hide ParseBuffer, ParsePackage, ParseScalar, Behind;
  }

  // ----- terms -----

  /** What a term is does not depend on what comes after it. */
  lemma {:induction false} TermSealed(s: Space, data: Bytes, more: Bytes)
    requires !ParseTermArg(s, data).Stop?
    ensures ParseTermArg(s, data + more) == Longer(ParseTermArg(s, data), more)
    decreases |data|, 3
  {
    TailMore(data, more, 0);
    TailMore(data, more, 1);
    if !ArgOrLocal(data[0]) {
      if DataOp(data[0]) {
        DataSealed(s, data, more);
      } else {
        Type2Sealed(s, data, more);
      }
    }
    hide ParseData, ParseType2, Behind, DataOp;
  }

  lemma {:induction false} Type2Sealed(s: Space, data: Bytes, more: Bytes)
    requires !ParseType2(s, data).Stop?
    ensures ParseType2(s, data + more) == Longer(ParseType2(s, data), more)
    decreases |data|, 2
  {
    TailMore(data, more, 0);
    if NameStart(data[0]) {
      CallSealed(s, data, more);
    } else {
      OpcodeMore(data, more);
      var op := Opcode(data).value;
      if ShapeOf(op.value).Some? {
        OperationSealed(s, op.rest, op.value, ShapeOf(op.value).value, more);
      } else if op.value == LNOT {
        NotSealed(s, op.rest, more);
      }
    }
    hide ParseCall, ParseOperation, ParseNot, Opcode, ShapeOf, Behind, NameStart;
  }

  lemma {:induction false} CallSealed(s: Space, data: Bytes, more: Bytes)
    requires !ParseCall(s, data).Stop?
    ensures ParseCall(s, data + more) == Longer(ParseCall(s, data), more)
    decreases |data|, 1
  {
    NameSealed(data, more);
    var name := NameString(data).value;
    var found := Lookup(s, name.value);
    if found.Bound? && found.kind.MethodKind? {
      ArgsSealed(s, name.rest, found.kind.args, true, more);
    }
    hide NameString, Lookup, ParseArgs, Behind;
  }

  lemma {:induction false} ArgsSealed(s: Space, data: Bytes, n: nat, checked: bool, more: Bytes)
    requires !ParseArgs(s, data, n, checked).Stop?
    ensures ParseArgs(s, data + more, n, checked) == Longer(ParseArgs(s, data, n, checked), more)
    decreases |data|, 4
  {
    hide *;
    LongerKeeps(ParseArgs(s, data, n, checked), more);
    if n == 0 {
      ArgsNone(s, data, checked);
      ArgsNone(s, data + more, checked);
    } else {
      var first := ParseTermArg(s, data);
      ArgsNext(s, data, n, checked);
      ArgsNext(s, data + more, n, checked);
      TermSealed(s, data, more);
      LongerKeeps(first, more);
      if first.Got? || !checked {
        WithArgLonger(first, ParseArgs(s, first.rest, n - 1, checked), more);
        ArgsSealed(s, first.rest, n - 1, checked, more);
      }
    }
  }

  // An argument in front of others.
  function WithArg(first: Outcome<Node>, others: Outcome<seq<Option<Node>>>): Outcome<seq<Option<Node>>> {
    match others
    case Stop(outside) => Stop(outside)
    case Null(rest) => Null(rest)
    case Got(v, rest) => Got([if first.Got? then Some(first.value) else None] + v, rest)
  }

  lemma ArgsNone(s: Space, data: Bytes, checked: bool)
    ensures ParseArgs(s, data, 0, checked) == Got([], data)
  {
  }

  lemma ArgsNext(s: Space, data: Bytes, n: nat, checked: bool)
    requires n > 0
    ensures var first := ParseTermArg(s, data);
      && (first.Stop? ==> ParseArgs(s, data, n, checked) == Stop(first.outside))
      && (first.Null? && checked ==> ParseArgs(s, data, n, checked) == Null(first.rest))
      && (first.Got? || (first.Null? && !checked) ==>
           |first.rest| < |data|
           && ParseArgs(s, data, n, checked) == WithArg(first, ParseArgs(s, first.rest, n - 1, checked)))
  {
    hide ParseTermArg;
  }

  lemma LongerKeeps<T>(r: Outcome<T>, more: Bytes)
    ensures r.Stop? ==> Longer(r, more) == r
    ensures r.Null? ==> Longer(r, more) == Null(r.rest + more)
    ensures r.Got? ==> Longer(r, more) == Got(r.value, r.rest + more)
  {
  }

  lemma WithArgLonger(first: Outcome<Node>, others: Outcome<seq<Option<Node>>>, more: Bytes)
    ensures WithArg(first, others).Stop? <==> others.Stop?
    ensures WithArg(Longer(first, more), Longer(others, more)) == Longer(WithArg(first, others), more)
  {
  }

  lemma {:induction false} OperationSealed(s: Space, data: Bytes, op: nat, shape: Shape, more: Bytes)
    requires !ParseOperation(s, data, op, shape).Stop?
    ensures ParseOperation(s, data + more, op, shape) == Longer(ParseOperation(s, data, op, shape), more)
    decreases |data|, 5
  {
    ArgsSealed(s, data, shape.arity, shape.checked, more);
    var args := ParseArgs(s, data, shape.arity, shape.checked);
    if args.Got? && shape.target {
      TargetSealed(s, args.rest, more);
    }
    hide ParseArgs, ParseTarget, Behind;
  }

  lemma {:induction false} NotSealed(s: Space, data: Bytes, more: Bytes)
    requires !ParseNot(s, data).Stop?
    ensures ParseNot(s, data + more) == Longer(ParseNot(s, data), more)
    decreases |data|, 6
  {
    OpcodeMore(data, more);
    var next := Opcode(data).value;
    if next.value == LEQUAL || next.value == LGREATER || next.value == LLESS {
      OperationSealed(s, next.rest, 256 * (LNOT as int) + next.value, Shape(2, false, true), more);
    } else {
      OperationSealed(s, data, LNOT, Shape(1, false, true), more);
    }
    hide Opcode, ParseOperation, Behind;
  }

  lemma {:induction false} TargetSealed(s: Space, data: Bytes, more: Bytes)
    requires !ParseTarget(s, data).Stop?
    ensures ParseTarget(s, data + more) == Longer(ParseTarget(s, data), more)
    decreases |data|, 4
  {
    TailMore(data, more, 0);
    if data[0] == 0 {
      TailMore(data, more, 1);
    } else {
      SuperSealed(s, data, more);
    }
    hide ParseSuperName, Behind;
  }

  lemma {:induction false} SuperSealed(s: Space, data: Bytes, more: Bytes)
    requires !ParseSuperName(s, data).Stop?
    ensures ParseSuperName(s, data + more) == Longer(ParseSuperName(s, data), more)
    decreases |data|, 3
  {
    TailMore(data, more, 0);
    TailMore(data, more, 1);
    if !ArgOrLocal(data[0]) {
      if NameStart(data[0]) {
        NameSealed(data, more);
      } else {
        OperationSealed(s, data[1..], INDEX, Shape(2, true, true), more);
      }
    }
    hide NameString, ParseOperation, Behind, NameStart;
  }

  // ----- objects -----

  // An `If` whose package ends the input: an `Else` could still follow.
  predicate EndsInIf(data: Bytes) {
    data != [] && data[0] == IF && Adjust(data[1..]).Some? && Adjust(data[1..]).value.after == []
  }

  lemma NamedSealed(s: Space, data: Bytes, more: Bytes)
    requires data != [] && ParseNamed(s, data).Got?
    ensures ParseNamed(s, data + more) == Longer(ParseNamed(s, data), more)
  {
    TailMore(data, more, 1);
    NameSealed(data[1..], more);
    var name := NameString(data[1..]).value;
    DataSealed(Opened(s, name.value).value, name.rest, more);
    hide NameString, ParseData, Opened, Provided, Behind;
  }

  // A package that starts behind the first byte is the same with more bytes behind.
  lemma SamePackage(data: Bytes, more: Bytes)
    requires data != []
    ensures Adjust(data[1..]).Some? ==> var p := Adjust(data[1..]).value;
      Adjust((data + more)[1..]) == Some(Package(p.inside, p.after + more))
  {
    TailMore(data, more, 1);
    if Adjust(data[1..]).Some? {
      AdjustSealed(data[1..], more);
    }
    hide Adjust;
  }

  lemma ScopeSealed(s: Space, data: Bytes, more: Bytes)
    requires data != [] && ParseScope(s, data).Got?
    ensures ParseScope(s, data + more) == Longer(ParseScope(s, data), more)
  {
    SamePackage(data, more);
    hide Adjust, ParseBody, Lookup, Provided, Behind;
  }

  lemma MethodSealed(s: Space, data: Bytes, more: Bytes)
    requires data != [] && ParseMethod(s, data).Got?
    ensures ParseMethod(s, data + more) == Longer(ParseMethod(s, data), more)
  {
    SamePackage(data, more);
    hide Adjust, NameString, Opened, Provided, Behind;
  }

  lemma WhileSealed(s: Space, data: Bytes, more: Bytes)
    requires data != [] && ParseWhile(s, data).Got?
    ensures ParseWhile(s, data + more) == Longer(ParseWhile(s, data), more)
  {
    SamePackage(data, more);
    hide Adjust, ParseGuarded, Behind;
  }

  lemma ElseSealed(s: Space, data: Bytes, more: Bytes)
    requires data != [] && ParseElse(s, data).Got?
    ensures ParseElse(s, data + more) == Longer(ParseElse(s, data), more)
  {
    SamePackage(data, more);
    hide Adjust, ParseList, Behind;
  }

  lemma DeviceSealed(s: Space, data: Bytes, more: Bytes)
    requires |data| >= 2 && ParseDevice(s, data).Got?
    ensures ParseDevice(s, data + more) == Longer(ParseDevice(s, data), more)
  {
    TailMore(data, more, 2);
    AdjustSealed(data[2..], more);
    hide Adjust, ParseBody, Provided, Behind;
  }

  lemma IfSealed(s: Space, data: Bytes, more: Bytes)
    requires data != [] && data[0] == IF && ParseIf(s, data).Got? && !EndsInIf(data)
    ensures ParseIf(s, data + more) == Longer(ParseIf(s, data), more)
  {
    IfParts(s, data);
    SamePackage(data, more);
    var p := Adjust(data[1..]).value;
    var g := ParseGuarded(s, p.inside);
    hide *;
    OpcodeMore(p.after, more);
    IfParts(s, data + more);
    if Opcode(p.after).value.value == ELSE {
      ElseSealed(g.value.space, p.after, more);
      LongerKeeps(ParseElse(g.value.space, p.after), more);
    }
    LongerKeeps(ParseIf(s, data), more);
  }

  // What reading an `If` that does not end its input comes to, by its parts.
  lemma IfParts(s: Space, data: Bytes)
    requires data != []
    ensures ParseIf(s, data).Got? && data[0] == IF && !EndsInIf(data) ==>
      Adjust(data[1..]).Some? && Opcode(Adjust(data[1..]).value.after).Some?
      && ParseGuarded(s, Adjust(data[1..]).value.inside).Got?
    ensures Adjust(data[1..]).Some? && Opcode(Adjust(data[1..]).value.after).Some? ==>
      var p := Adjust(data[1..]).value;
      var g, next := ParseGuarded(s, p.inside), Opcode(p.after).value.value;
      p.after != [] && (g.Got? ==>
        && (next != ELSE ==>
          ParseIf(s, data) == Got(Placed(If(g.value.node.condition, g.value.node.nodes, None), g.value.space), p.after))
        && (next == ELSE ==>
          var e := ParseElse(g.value.space, p.after);
          && (ParseIf(s, data).Got? <==> e.Got?)
          && (e.Got? ==>
            ParseIf(s, data) ==
              Got(Placed(If(g.value.node.condition, g.value.node.nodes, Some(e.value.node)), e.value.space), e.rest))))
  {
    EndsIs(data);
    hide *;
    if ParseIf(s, data).Got? {
      IfHas(s, data);
    }
    if Adjust(data[1..]).Some? {
      var p := Adjust(data[1..]).value;
      OpcodeNone(p.after);
      if p.after != [] && Opcode(p.after).Some? {
        if Opcode(p.after).value.value == ELSE {
          IfElseRead(s, data, p.inside, p.after);
        } else {
          IfPlainRead(s, data, p.inside, p.after);
        }
      }
    }
  }

  lemma EndsIs(data: Bytes)
    ensures EndsInIf(data) <==>
      data != [] && data[0] == IF && Adjust(data[1..]).Some? && Adjust(data[1..]).value.after == []
  {
    hide Adjust;
  }

  lemma OpcodeNone(data: Bytes)
    ensures Opcode(data).Some? ==> data != []
  {
  }

  lemma PlainSealed(s: Space, data: Bytes, more: Bytes)
    requires ParsePlain(s, data).Got?
    ensures ParsePlain(s, data + more) == Longer(ParsePlain(s, data), more)
  {
    OpcodeMore(data, more);
    var op := Opcode(data).value;
    if op.value == RETURN {
      OperationSealed(s, op.rest, RETURN, Shape(1, false, true), more);
    } else if op.value == STORE {
      StoreSealed(s, op.rest, more);
    }
    hide Opcode, ParseOperation, ParseStore, Behind;
  }

  lemma StoreSealed(s: Space, data: Bytes, more: Bytes)
    requires ParseStore(s, data).Got?
    ensures ParseStore(s, data + more) == Longer(ParseStore(s, data), more)
  {
    TermSealed(s, data, more);
    SuperSealed(s, ParseTermArg(s, data).rest, more);
    hide ParseTermArg, ParseSuperName, Behind;
  }

  // Bytes put behind an object are left over when it has been read.
  predicate Sealed(s: Space, data: Bytes, more: Bytes) {
    ParseObject(s, data + more) == Longer(ParseObject(s, data), more)
  }

  /** What an object is depends on nothing that comes after it, exactly unless it is an `If`
      whose package ends the input. */
  lemma ObjectSealedExactly(s: Space, data: Bytes)
    requires ParseObject(s, data).Got?
    ensures (forall more: Bytes :: Sealed(s, data, more)) <==> !EndsInIf(data)
  {
    if EndsInIf(data) {
      OpenIfTakesElse(s, data);
      hide ParseObject;
      assert !Sealed(s, data, [ELSE, 1]);
    } else {
      forall more: Bytes
        ensures Sealed(s, data, more)
      {
        ObjectSealed(s, data, more);
        hide ParseObject;
      }
    }
  }

  lemma ObjectSealed(s: Space, data: Bytes, more: Bytes)
    requires ParseObject(s, data).Got? && !EndsInIf(data)
    ensures ParseObject(s, data + more) == Longer(ParseObject(s, data), more)
  {
    OpcodeMore(data, more);
    var op := Opcode(data).value.value;
    if Type2(op) {
      Type2Sealed(s, data, more);
    } else if op == NAME {
      NamedSealed(s, data, more);
    } else if op == DEVICE {
      DeviceSealed(s, data, more);
    } else if op == SCOPE {
      ScopeSealed(s, data, more);
    } else if op == METHOD {
      MethodSealed(s, data, more);
    } else if op == WHILE {
      WhileSealed(s, data, more);
    } else if op == IF {
      IfByte(data);
      IfSealed(s, data, more);
    } else {
      PlainSealed(s, data, more);
    }
    hide ParseType2, ParseNamed, ParseScope, ParseDevice, ParseMethod, ParseIf, ParseWhile, ParsePlain, Type2, Behind,
      Kept;
  }

  lemma IfByte(data: Bytes)
    requires data != []
    ensures Opcode(data).Some? ==> (Opcode(data).value.value == IF <==> data[0] == IF)
    ensures data[0] == IF ==> Opcode(data) == Some(Read(IF, data[1..]))
  {
  }

  lemma IfObject(s: Space, data: Bytes)
    requires data != [] && data[0] == IF
    ensures ParseObject(s, data) == ParseIf(s, data)
  {
    IfByte(data);
    assert !Type2(IF);
    hide ParseType2, ParseNamed, ParseScope, ParseDevice, ParseMethod, ParseIf, ParseWhile, ParsePlain, Opcode, Kept;
    hide AsPlaced, Reads, Behind, Type2;
  }

  /** An empty `Else` behind such an `If` is taken into it. */
  lemma OpenIfTakesElse(s: Space, data: Bytes)
    requires EndsInIf(data) && ParseObject(s, data).Got?
    ensures var r := ParseObject(s, data);
      && r.rest == [] && r.value.node.If? && r.value.node.otherwise == None
      && ParseObject(s, data + [ELSE, 1]) == Got(Placed(r.value.node.(otherwise := Some([])), r.value.space), [])
  {
    var more := [ELSE, 1];
    TailMore(data, more, 0);
    IfObject(s, data);
    IfObject(s, data + more);
    hide ParseObject;
    IfTakesElse(s, data);
  }

  lemma IfTakesElse(s: Space, data: Bytes)
    requires EndsInIf(data) && ParseIf(s, data).Got?
    ensures var r := ParseIf(s, data);
      && r.rest == [] && r.value.node.If? && r.value.node.otherwise == None
      && ParseIf(s, data + [ELSE, 1]) == Got(Placed(r.value.node.(otherwise := Some([])), r.value.space), [])
  {
    var more := [ELSE, 1];
    IfAlone(s, data);
    SamePackage(data, more);
    var p := Adjust(data[1..]).value;
    assert p.after + more == more;
    hide *;
    EmptyElse(ParseGuarded(s, p.inside).value.space);
    IfParts(s, data + more);
  }

  // An `If` that ends its input has no `Else`.
  lemma IfAlone(s: Space, data: Bytes)
    requires EndsInIf(data) && ParseIf(s, data).Got?
    ensures Adjust(data[1..]).Some? && Adjust(data[1..]).value.after == []
    ensures var g := ParseGuarded(s, Adjust(data[1..]).value.inside);
      g.Got? && ParseIf(s, data) ==
        Got(Placed(If(g.value.node.condition, g.value.node.nodes, None), g.value.space), [])
  {
    EndsIs(data);
    hide *;
    IfHas(s, data);
    IfPlainRead(s, data, Adjust(data[1..]).value.inside, []);
  }

  lemma EmptyElse(s: Space)
    ensures Opcode([ELSE, 1]) == Some(Read(ELSE, [1]))
    ensures ParseElse(s, [ELSE, 1]) == Got(Placed([], s), [])
  {
    var data: Bytes := [1];
    assert [ELSE, 1][1..] == data;
    assert Adjust(data) == Some(Package([], [])) by {
      assert PkgLength(data) == Some(Read(1, data[1..]));
      assert data[1..1] == [] && data[1..] == [];
    }
    assert ParseList(s, []) == Got(Placed([], s), []);
    hide Adjust, ParseList;
  }
}
