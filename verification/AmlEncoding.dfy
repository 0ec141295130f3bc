/** Data objects as they are encoded, and that reading them gives them back. */
module AmlEncoding {
  import opened Options
  import opened Octets
  import opened AmlBytes
  import opened NameSpaces
  import opened AmlParser

  datatype Item =
    | Zero
    | One
    | Ones
    | ByteItem(value: nat)
    | WordItem(value: nat)
    | DwordItem(value: nat)
    | QwordItem(value: nat)
    | StringItem(text: Bytes)
    | BufferItem(size: Item, data: Bytes)
    | PackageItem(count: Byte, elements: Items)

  datatype Items = End | NameThen(name: Name, tail: Items) | ItemThen(item: Item, tail: Items)

  function Length(es: Items): nat {
    match es
    case End => 0
    case NameThen(_, tail) => 1 + Length(tail)
    case ItemThen(_, tail) => 1 + Length(tail)
  }

  function Inner(i: Item): Bytes {
    match i
    case BufferItem(size, data) => Encode(size) + data
    case PackageItem(count, elements) => [count] + EncodeAll(elements)
    case _ => []
  }

  function Packed(op: Byte, inside: Bytes): Bytes {
    if |inside| < 0xFFFFD then [op] + LengthOf(|inside|) + inside else []
  }

  function Encode(i: Item): Bytes
    decreases i, 0
  {
    match i
    case Zero => [ZERO]
    case One => [ONE]
    case Ones => [ONES]
    case ByteItem(v) => [BYTE] + Digits(v, 1)
    case WordItem(v) => [WORD] + Digits(v, 2)
    case DwordItem(v) => [DWORD] + Digits(v, 4)
    case QwordItem(v) => [QWORD] + Digits(v, 8)
    case StringItem(t) => [STRING] + (t + [0])
    case BufferItem(size, data) => Packed(BUFFER, Encode(size) + data)
    case PackageItem(count, elements) => Packed(PACKAGE, [count] + EncodeAll(elements))
  }

  function EncodeAll(es: Items): Bytes
    decreases es, 0
  {
    match es
    case End => []
    case NameThen(name, tail) => NameBytes(name) + EncodeAll(tail)
    case ItemThen(item, tail) => Encode(item) + EncodeAll(tail)
  }

  // A name that is not told apart from the constant zero.
  predicate LooksLikeZero(n: Name) {
    !n.root && n.carets == 0 && n.path.NullPath?
  }

  // Values in range, strings without NUL, packages below a megabyte.
  predicate ItemOk(i: Item) {
    match i
    case Zero => true
    case One => true
    case Ones => true
    case ByteItem(v) => v < Power(1)
    case WordItem(v) => v < Power(2)
    case DwordItem(v) => v < Power(4)
    case QwordItem(v) => v < Power(8)
    case StringItem(t) => forall k :: 0 <= k < |t| ==> t[k] != 0
    case BufferItem(size, data) => ItemOk(size) && |Inner(i)| < 0xFFFFD
    case PackageItem(count, elements) =>
      AllOk(elements) && |Inner(i)| < 0xFFFFD && (elements == End || count == Length(elements))
  }

  predicate AllOk(es: Items) {
    match es
    case End => true
    case NameThen(name, tail) => NameOk(name) && !LooksLikeZero(name) && AllOk(tail)
    case ItemThen(item, tail) => ItemOk(item) && AllOk(tail)
  }

  // What reading is to give.
  function NodeOf(i: Item): Node {
    match i
    case Zero => Const(8, 0)
    case One => Const(8, 1)
    case Ones => Const(8, 0xff)
    case ByteItem(v) => Const(8, v)
    case WordItem(v) => Const(16, v)
    case DwordItem(v) => Const(32, v)
    case QwordItem(v) => Const(64, v)
    case StringItem(t) => String(t)
    case BufferItem(size, data) => Buffer(Some(NodeOf(size)), data)
    case PackageItem(_, elements) => PackageOf(NodesOf(elements))
  }

  function NodesOf(es: Items): (r: seq<Node>)
    ensures |r| == Length(es)
  {
    match es
    case End => []
    case NameThen(name, tail) => [ElementName(NameText(name))] + NodesOf(tail)
    case ItemThen(item, tail) => [NodeOf(item)] + NodesOf(tail)
  }

  /** Reading is a left inverse of encoding, for data objects however they are nested: the
      object comes back, and the bytes behind it are untouched. */
  lemma {:induction false} DataBack(s: Space, i: Item, rest: Bytes)
    requires ItemOk(i)
    ensures ParseData(s, Encode(i) + rest) == Got(NodeOf(i), rest)
    ensures Encode(i) != [] && DataOp(Encode(i)[0])
    decreases i, 1
  {
    match i
    case BufferItem(size, data) => BufferBack(s, i, rest);
    case PackageItem(count, elements) => PackBack(s, i, rest);
    case StringItem(t) =>
      TextBack(t, rest);
      Regroup3(STRING, t, [0], rest);
      ScalarRead(s, STRING, t + [0] + rest);
    case ByteItem(v) => NumberBack(s, BYTE, v, 1, rest);
    case WordItem(v) => NumberBack(s, WORD, v, 2, rest);
    case DwordItem(v) => NumberBack(s, DWORD, v, 4, rest);
    case QwordItem(v) => NumberBack(s, QWORD, v, 8, rest);
    case _ =>
      assert (Encode(i) + rest)[1..] == rest;
  }

  lemma Regroup3(op: Byte, a: Bytes, b: Bytes, c: Bytes)
    ensures [op] + (a + b) + c == [op] + (a + b + c)
  {
  }

  lemma ScalarRead(s: Space, op: Byte, tail: Bytes)
    requires op == BYTE || op == WORD || op == DWORD || op == QWORD || op == STRING
    ensures ParseData(s, [op] + tail) == ParseScalar(op, [op] + tail) && ([op] + tail)[1..] == tail
  {
  }

  lemma NumberBack(s: Space, op: Byte, v: nat, n: nat, rest: Bytes)
    requires n > 0 && v < Power(n)
    requires (op == BYTE && n == 1) || (op == WORD && n == 2) || (op == DWORD && n == 4) || (op == QWORD && n == 8)
    ensures ParseData(s, [op] + Digits(v, n) + rest) == Got(Const(8 * n, v), rest)
  {
    IntegerBack(v, n, rest);
    assert [op] + Digits(v, n) + rest == [op] + (Digits(v, n) + rest);
    ScalarRead(s, op, Digits(v, n) + rest);
    hide ParseData, Integer, Digits, Power;
  }

  // Taking a package apart again.
  lemma Unpacked(op: Byte, inside: Bytes, rest: Bytes)
    requires |inside| < 0xFFFFD
    ensures var data := Packed(op, inside) + rest;
      data != [] && data[0] == op && Adjust(data[1..]) == Some(Package(inside, rest))
  {
    PackageBack(inside, rest);
    hide Adjust, LengthOf;
    Regroup4(op, LengthOf(|inside|), inside, rest);
  }

  lemma Regroup4(op: Byte, a: Bytes, b: Bytes, c: Bytes)
    ensures ([op] + a + b + c)[1..] == a + b + c && ([op] + a + b + c)[0] == op
  {
  }

  lemma {:induction false} BufferBack(s: Space, i: Item, rest: Bytes)
    requires ItemOk(i) && i.BufferItem?
    ensures ParseData(s, Encode(i) + rest) == Got(NodeOf(i), rest)
    ensures Encode(i) != [] && DataOp(Encode(i)[0])
    decreases i, 0
  {
    var inside := Inner(i);
    Unpacked(BUFFER, inside, rest);
    assert |Encode(i)| > 0 && Encode(i)[0] == BUFFER;
    DataBack(s, i.size, i.data);
    assert ParseTermArg(s, inside) == Got(NodeOf(i.size), i.data) by {
      assert inside == Encode(i.size) + i.data;
      hide ParseData, Encode;
    }
    hide Adjust, Encode, ParseTermArg;
  }

  lemma {:induction false} PackBack(s: Space, i: Item, rest: Bytes)
    requires ItemOk(i) && i.PackageItem?
    ensures ParseData(s, Encode(i) + rest) == Got(NodeOf(i), rest)
    ensures Encode(i) != [] && DataOp(Encode(i)[0])
    decreases i, 0
  {
    var inside := Inner(i);
    Unpacked(PACKAGE, inside, rest);
    assert |Encode(i)| > 0 && Encode(i)[0] == PACKAGE;
    ElementsBack(s, i.elements);
    assert inside[1..] == EncodeAll(i.elements);
    hide Adjust, Encode, EncodeAll, ParseElements;
  }

  lemma {:induction false} ElementsBack(s: Space, es: Items)
    requires AllOk(es)
    ensures ParseElements(s, EncodeAll(es)) == Got(NodesOf(es), [])
    decreases es, 1
  {
    match es
    case End =>
    case NameThen(name, tail) =>
      ElementsBack(s, tail);
      NameBack(name, EncodeAll(tail));
      NameLeads(name, EncodeAll(tail));
      OneElement(s, EncodeAll(es), ElementName(NameText(name)), tail);
    case ItemThen(item, tail) =>
      ElementsBack(s, tail);
      DataBack(s, item, EncodeAll(tail));
      OneElement(s, EncodeAll(es), NodeOf(item), tail);
  }

  lemma OneElement(s: Space, data: Bytes, node: Node, tail: Items)
    requires data != [] && ParseElement(s, data) == Got(node, EncodeAll(tail))
    requires ParseElements(s, EncodeAll(tail)) == Got(NodesOf(tail), [])
    ensures ParseElements(s, data) == Got([node] + NodesOf(tail), [])
  {
    hide ParseElement, EncodeAll, NodesOf;
  }

  lemma NameLeads(n: Name, rest: Bytes)
    requires NameOk(n)
    ensures NameBytes(n) + rest != []
    ensures NameStart((NameBytes(n) + rest)[0]) <==> !LooksLikeZero(n)
  {
    PathBack(n.path, []);
    hide ValidSegs;
  }

  /** The one form of name that a package cannot hold as a name: it is read as zero. */
  lemma NullNameIsZero(s: Space, n: Name, tail: Bytes)
    requires NameOk(n)
    ensures var r := ParseElement(s, NameBytes(n) + tail);
      && NameBytes(n) + tail != []
      && (r == Got(ElementName(NameText(n)), tail) <==> !LooksLikeZero(n))
      && (LooksLikeZero(n) ==> r == Got(Const(8, 0), tail))
  {
    NameLeads(n, tail);
    NameBack(n, tail);
    if LooksLikeZero(n) {
      assert NameBytes(n) == [0];
      assert ([ZERO] + tail)[1..] == tail;
    }
    hide NameBytes, NameString, NameText;
  }
}
