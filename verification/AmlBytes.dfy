/** The lexical parts of AML: package lengths, integers, strings and names. */
module AmlBytes {
  import opened Options
  import opened Octets

  const ROOT: Byte := 0x5c
  const PARENT: Byte := 0x5e
  const DUAL: Byte := 0x2e
  const MULTI: Byte := 0x2f

  // A value, and the bytes behind it.
  datatype Read<+T> = Read(value: T, rest: Bytes)

  // What is left of `data` once some of it is read.
  predicate Behind(rest: Bytes, data: Bytes) {
    |rest| < |data| && rest == data[|data| - |rest|..]
  }

  lemma BehindTrans(a: Bytes, b: Bytes, c: Bytes)
    requires Behind(a, b) && (Behind(b, c) || b == c)
    ensures Behind(a, c)
  {
  }

  lemma BehindDrop(data: Bytes, k: nat)
    requires 0 < k <= |data|
    ensures Behind(data[k..], data)
  {
  }

  // ----- package lengths -----

  // None when the input is too short, or when three bytes follow the first.
  function PkgLength(data: Bytes): (r: Option<Read<nat>>)
    ensures r.Some? ==> Behind(r.value.rest, data)
  {
    if data == [] then None
    else
      var extra := data[0] / 64;
      if extra == 0 then Some(Read(data[0], data[1..]))
      else if extra == 3 || |data| < 1 + extra then None
      else if extra == 1 then Some(Read(data[0] % 16 + 16 * (data[1] as int), data[2..]))
      else Some(Read(data[0] % 16 + 16 * ((data[1] as int) + 256 * (data[2] as int)), data[3..]))
  }

  // A package: what is inside, and what comes after it.
  datatype Package = Package(inside: Bytes, after: Bytes)

  // `adjust_with_pkg_length`: the length counts its own bytes, and must fit.
  function Adjust(data: Bytes): (r: Option<Package>)
    ensures r.Some? ==> Behind(r.value.after, data) && |r.value.inside| < |data|
  {
    var len := PkgLength(data);
    if len.None? then None
    else
      var header, total := 1 + data[0] / 64, len.value.value;
      if total < header || total > |data| then None
      else Some(Package(data[header..total], data[total..]))
  }

  /** Bytes behind a package have no part in it. */
  lemma AdjustSealed(data: Bytes, more: Bytes)
    requires Adjust(data).Some?
    ensures Adjust(data + more) == Some(Package(Adjust(data).value.inside, Adjust(data).value.after + more))
  {
    var total := PkgLength(data).value.value;
    var header := 1 + data[0] / 64;
    assert (data + more)[total..] == data[total..] + more;
    assert (data + more)[header..total] == data[header..total];
    assert forall i :: 0 <= i < |data| ==> (data + more)[i] == data[i];
  }

  // The length of a package with `n` bytes inside, in as few bytes as will do.
  function LengthOf(n: nat): Bytes
    requires n < 0xFFFFD
  {
    if n + 1 < 64 then [n + 1]
    else if n + 2 < 0x1000 then [64 + (n + 2) % 16, (n + 2) / 16]
    else [128 + (n + 3) % 16, (n + 3) / 16 % 256, (n + 3) / 4096]
  }

  /** A package is read back as it was put together. */
  lemma PackageBack(inside: Bytes, rest: Bytes)
    requires |inside| < 0xFFFFD
    ensures Adjust(LengthOf(|inside|) + inside + rest) == Some(Package(inside, rest))
  {
    var header := LengthOf(|inside|);
    var data := header + inside + rest;
    var total := |header| + |inside|;
    LengthBack(|inside|, inside + rest);
    assert data == header + (inside + rest);
    assert data[|header|..total] == inside && data[total..] == rest;
    hide LengthOf;
  }

  lemma LengthBack(n: nat, rest: Bytes)
    requires n < 0xFFFFD
    ensures var h := LengthOf(n);
      PkgLength(h + rest) == Some(Read(|h| + n, rest)) && |h| == 1 + (h + rest)[0] / 64
  {
    var h := LengthOf(n);
    assert (h + rest)[|h|..] == rest;
    assert forall i :: 0 <= i < |h| ==> (h + rest)[i] == h[i];
    if n + 1 >= 64 {
      if n + 2 < 0x1000 {
        Nibbles(64, n + 2);
      } else {
        Nibbles(128, n + 3);
        assert (n + 3) / 16 == (n + 3) / 16 % 256 + 256 * ((n + 3) / 4096);
      }
    }
  }

  lemma Nibbles(lead: nat, x: nat)
    requires lead == 64 || lead == 128
    ensures (lead + x % 16) / 64 == lead / 64 && (lead + x % 16) % 16 == x % 16 && x == x % 16 + 16 * (x / 16)
  {
  }

  /** A package is refused exactly when its length is not there, takes four bytes, does not
      count itself, or does not fit. */
  lemma AdjustExactly(data: Bytes)
    ensures Adjust(data).Some? <==>
      && data != [] && data[0] < 192 && 1 + data[0] / 64 <= |data|
      && 1 + data[0] / 64 <= PkgLength(data).value.value <= |data|
  {
  }

  // ----- integers -----

  function Little(data: Bytes): nat {
    if data == [] then 0 else data[0] + 256 * Little(data[1..])
  }

  function Digits(x: nat, n: nat): (r: Bytes)
    ensures |r| == n
  {
    if n == 0 then [] else [x % 256] + Digits(x / 256, n - 1)
  }

  function Integer(data: Bytes, n: nat): (r: Option<Read<nat>>)
    requires n > 0
    ensures r.Some? ==> Behind(r.value.rest, data)
  {
    if |data| < n then None else Some(Read(Little(data[..n]), data[n..]))
  }

  function Power(n: nat): nat {
    if n == 0 then 1 else 256 * Power(n - 1)
  }

  lemma {:induction false} DigitsBack(x: nat, n: nat)
    requires x < Power(n)
    ensures Little(Digits(x, n)) == x
  {
    if n > 0 {
      DigitsBack(x / 256, n - 1);
      assert Digits(x, n)[1..] == Digits(x / 256, n - 1);
    }
  }

  lemma IntegerBack(x: nat, n: nat, rest: Bytes)
    requires n > 0 && x < Power(n)
    ensures Integer(Digits(x, n) + rest, n) == Some(Read(x, rest))
  {
    DigitsBack(x, n);
    var d := Digits(x, n);
    assert (d + rest)[..n] == d && (d + rest)[n..] == rest;
  }

  // ----- strings -----

  // Up to the NUL, which must be there.
  function Text(data: Bytes): (r: Option<Read<Bytes>>)
    ensures r.Some? ==> Behind(r.value.rest, data)
  {
    if data == [] then None
    else if data[0] == 0 then Some(Read([], data[1..]))
    else
      var r := Text(data[1..]);
      if r.None? then None
      else
        BehindTrans(r.value.rest, data[1..], data);
        Some(Read([data[0]] + r.value.value, r.value.rest))
  }

  lemma {:induction false} TextBack(s: Bytes, rest: Bytes)
    requires forall i :: 0 <= i < |s| ==> s[i] != 0
    ensures Text(s + [0] + rest) == Some(Read(s, rest))
  {
    var data := s + [0] + rest;
    if s == [] {
      assert data[1..] == rest;
    } else {
      TextBack(s[1..], rest);
      assert s == [s[0]] + s[1..];
      assert data[1..] == s[1..] + [0] + rest;
    }
  }

  // ----- names -----

  predicate LeadChar(c: Byte) {
    c == 0x5f || 0x41 <= c <= 0x5a
  }

  predicate NameChar(c: Byte) {
    LeadChar(c) || 0x30 <= c <= 0x39
  }

  predicate NameStart(c: Byte) {
    c == ROOT || c == PARENT || c == DUAL || c == MULTI || LeadChar(c)
  }

  predicate ValidSeg(s: Bytes) {
    |s| == 4 && LeadChar(s[0]) && NameChar(s[1]) && NameChar(s[2]) && NameChar(s[3])
  }

  predicate ValidSegs(s: Bytes, n: nat) {
    |s| == 4 * n && forall i :: 0 <= i < n ==> ValidSeg(s[4 * i..4 * i + 4])
  }

  // The leading `^`s, which something must follow.
  function Carets(data: Bytes): (r: Option<Read<Bytes>>)
    ensures r.Some? ==> r.value.rest != [] && (Behind(r.value.rest, data) || r.value.rest == data)
    ensures r.Some? ==> r.value.value + r.value.rest == data
  {
    if data == [] then None
    else if data[0] != PARENT then Some(Read([], data))
    else
      var r := Carets(data[1..]);
      if r.None? then None
      else
        BehindDrop(data, 1);
        if r.value.rest != data[1..] then
          BehindTrans(r.value.rest, data[1..], data); Some(Read([PARENT] + r.value.value, r.value.rest))
        else Some(Read([PARENT] + r.value.value, r.value.rest))
  }

  // `n` segments, each checked.
  function Segs(data: Bytes, n: nat): (r: Option<Read<Bytes>>)
    ensures r.Some? ==> 4 * n <= |data| && r.value == Read(data[..4 * n], data[4 * n..])
    ensures r.Some? <==> 4 * n <= |data| && ValidSegs(data[..4 * n], n)
  {
    if 4 * n > |data| then None
    else if ValidSegs(data[..4 * n], n) then Some(Read(data[..4 * n], data[4 * n..]))
    else None
  }

  // What follows the prefix of a name.
  function NamePath(data: Bytes): (r: Option<Read<Bytes>>)
    ensures r.Some? ==> Behind(r.value.rest, data)
  {
    if data == [] then None
    else if data[0] == 0 then Some(Read([], data[1..]))
    else if data[0] == DUAL then Segs(data[1..], 2)
    else if data[0] == MULTI then if |data| < 2 then None else Segs(data[2..], data[1])
    else if LeadChar(data[0]) then Segs(data, 1)
    else None
  }

  function NameString(data: Bytes): (r: Option<Read<Bytes>>)
    ensures r.Some? ==> Behind(r.value.rest, data)
  {
    if data == [] then None
    else if data[0] == ROOT then
      var p := NamePath(data[1..]);
      if p.None? then None
      else
        BehindTrans(p.value.rest, data[1..], data);
        Some(Read([ROOT] + p.value.value, p.value.rest))
    else
      var c := Carets(data);
      if c.None? then None
      else
        var p := NamePath(c.value.rest);
        if p.None? then None
        else
          BehindTrans(p.value.rest, c.value.rest, data);
          Some(Read(c.value.value + p.value.value, p.value.rest))
  }

  // ----- names as they are encoded -----

  datatype Path = NullPath | Seg(seg: Bytes) | Dual(segs: Bytes) | Multi(segs: Bytes, count: Byte)
  datatype Name = Name(root: bool, carets: nat, path: Path)

  predicate PathOk(p: Path) {
    match p
    case NullPath => true
    case Seg(s) => ValidSeg(s)
    case Dual(s) => ValidSegs(s, 2)
    case Multi(s, n) => ValidSegs(s, n)
  }

  predicate NameOk(n: Name) {
    PathOk(n.path) && (n.root ==> n.carets == 0)
  }

  function PathBytes(p: Path): Bytes {
    match p
    case NullPath => [0]
    case Seg(s) => s
    case Dual(s) => [DUAL] + s
    case Multi(s, n) => [MULTI, n] + s
  }

  function PathText(p: Path): Bytes {
    match p
    case NullPath => []
    case Seg(s) => s
    case Dual(s) => s
    case Multi(s, _) => s
  }

  function Repeat(c: Byte, n: nat): Bytes {
    if n == 0 then [] else [c] + Repeat(c, n - 1)
  }

  function Prefix(n: Name): Bytes {
    if n.root then [ROOT] else Repeat(PARENT, n.carets)
  }

  function NameBytes(n: Name): Bytes {
    Prefix(n) + PathBytes(n.path)
  }

  function NameText(n: Name): Bytes {
    Prefix(n) + PathText(n.path)
  }

  lemma SegsBack(s: Bytes, n: nat, rest: Bytes)
    requires ValidSegs(s, n)
    ensures Segs(s + rest, n) == Some(Read(s, rest))
  {
    assert (s + rest)[..4 * n] == s && (s + rest)[4 * n..] == rest;
  }

  lemma OneSeg(s: Bytes)
    ensures ValidSeg(s) <==> ValidSegs(s, 1)
  {
    if |s| == 4 {
      assert s[4 * 0..4 * 0 + 4] == s;
    }
  }

  lemma PathBack(p: Path, rest: Bytes)
    requires PathOk(p)
    ensures NamePath(PathBytes(p) + rest) == Some(Read(PathText(p), rest))
    ensures PathBytes(p) != [] && PathBytes(p)[0] != ROOT && PathBytes(p)[0] != PARENT
  {
    var data := PathBytes(p) + rest;
    match p
    case NullPath =>
      assert data[1..] == rest;
    case Seg(s) =>
      SegBack(s, rest);
      hide ValidSeg, NamePath;
    case Dual(s) =>
      SegsBack(s, 2, rest);
      DualRead(s, rest);
      hide ValidSegs, Segs, NamePath;
    case Multi(s, n) =>
      SegsBack(s, n, rest);
      MultiRead(s, n, rest);
      hide ValidSegs, Segs, NamePath;
  }

  lemma SegBack(s: Bytes, rest: Bytes)
    requires ValidSeg(s)
    ensures NamePath(s + rest) == Some(Read(s, rest)) && s != [] && s[0] != ROOT && s[0] != PARENT
  {
    OneSeg(s);
    SegsBack(s, 1, rest);
    assert (s + rest)[0] == s[0];
    hide ValidSegs, Segs;
  }

  lemma DualRead(s: Bytes, rest: Bytes)
    ensures NamePath([DUAL] + s + rest) == Segs(s + rest, 2)
  {
    var data := [DUAL] + s + rest;
    assert data[0] == DUAL && data[1..] == s + rest;
    hide Segs;
  }

  lemma MultiRead(s: Bytes, n: Byte, rest: Bytes)
    ensures NamePath([MULTI, n] + s + rest) == Segs(s + rest, n)
  {
    var data := [MULTI, n] + s + rest;
    assert data[0] == MULTI && data[1] == n && data[2..] == s + rest;
    hide Segs;
  }

  lemma Regroup(data: Bytes, a: Bytes, b: Bytes, c: Bytes)
    ensures data == a + (b + c) <==> data == a + b + c
    ensures data == a + b ==> data + c == a + (b + c)
  {
  }

  lemma HeadOff(c: Byte, a: Bytes, b: Bytes)
    ensures ([c] + a + b)[1..] == a + b && ([c] + a + b)[0] == c && [c] + a + b != []
  {
  }

  lemma {:induction false} CaretsBack(n: nat, rest: Bytes)
    requires rest != [] && rest[0] != PARENT
    ensures Carets(Repeat(PARENT, n) + rest) == Some(Read(Repeat(PARENT, n), rest))
  {
    if n == 0 {
      assert Repeat(PARENT, n) + rest == rest;
    } else {
      CaretsBack(n - 1, rest);
      HeadOff(PARENT, Repeat(PARENT, n - 1), rest);
      hide Behind;
    }
  }

  /** A name in any of its forms is read back, with the bytes behind it untouched. */
  lemma NameBack(n: Name, rest: Bytes)
    requires NameOk(n)
    ensures NameString(NameBytes(n) + rest) == Some(Read(NameText(n), rest))
  {
    var tail := PathBytes(n.path) + rest;
    PathBack(n.path, rest);
    Regroup(NameBytes(n) + rest, Prefix(n), PathBytes(n.path), rest);
    assert NameBytes(n) == Prefix(n) + PathBytes(n.path) && NameText(n) == Prefix(n) + PathText(n.path);
    assert Prefix(n) == if n.root then [ROOT] else Repeat(PARENT, n.carets);
    hide *;
    if n.root {
      RootRead(tail, Read(PathText(n.path), rest));
    } else {
      PrefixRead(n.carets, tail, Read(PathText(n.path), rest));
    }
  }

  lemma RootRead(tail: Bytes, path: Read<Bytes>)
    requires NamePath(tail) == Some(path)
    ensures NameString([ROOT] + tail) == Some(Read([ROOT] + path.value, path.rest))
  {
    assert ([ROOT] + tail)[1..] == tail;
    hide NamePath, Carets, Behind;
  }

  lemma PrefixRead(k: nat, tail: Bytes, path: Read<Bytes>)
    requires NamePath(tail) == Some(path) && tail != [] && tail[0] != ROOT && tail[0] != PARENT
    ensures NameString(Repeat(PARENT, k) + tail) == Some(Read(Repeat(PARENT, k) + path.value, path.rest))
  {
    CaretsBack(k, tail);
    assert Repeat(PARENT, k) + tail != [] && (Repeat(PARENT, k) + tail)[0] == if k == 0 then tail[0] else PARENT;
    hide NamePath, Carets, Behind, Repeat;
  }

  /** And nothing else is a name: what is read is always one of the forms. */
  lemma NameOnly(data: Bytes) returns (n: Name)
    requires NameString(data).Some?
    ensures NameOk(n) && data == NameBytes(n) + NameString(data).value.rest
    ensures NameText(n) == NameString(data).value.value
  {
    if data[0] == ROOT {
      var p := PathOnly(data[1..]);
      n := Name(true, 0, p);
      assert data == [ROOT] + data[1..];
      Regroup(data, [ROOT], PathBytes(p), NamePath(data[1..]).value.rest);
    } else {
      var c := Carets(data).value;
      var k := CaretsOnly(data);
      var p := PathOnly(c.rest);
      n := Name(false, k, p);
      assert data == c.value + c.rest;
      Regroup(data, c.value, PathBytes(p), NamePath(c.rest).value.rest);
    }
    hide NamePath, PathBytes, PathText, PathOk, Carets, Behind;
  }

  lemma {:induction false} CaretsOnly(data: Bytes) returns (k: nat)
    requires Carets(data).Some?
    ensures Carets(data).value.value == Repeat(PARENT, k)
  {
    hide Behind;
    var r := Carets(data).value.value;
    if data[0] != PARENT {
      k := 0;
    } else {
      var rest := Carets(data[1..]).value.value;
      assert r == [PARENT] + rest;
      var j := CaretsOnly(data[1..]);
      hide Carets;
      k := j + 1;
    }
  }

  lemma PathOnly(data: Bytes) returns (p: Path)
    requires NamePath(data).Some?
    ensures PathOk(p) && data == PathBytes(p) + NamePath(data).value.rest && PathText(p) == NamePath(data).value.value
  {
    var r := NamePath(data).value;
    if data[0] == 0 {
      p := NullPath;
    } else if data[0] == DUAL {
      p := Dual(r.value);
      assert data == [DUAL] + data[1..];
    } else if data[0] == MULTI {
      p := Multi(r.value, data[1]);
      assert data == [MULTI, data[1]] + data[2..];
    } else {
      OneSeg(data[..4]);
      p := Seg(r.value);
      assert data[4 * 1..] == data[4..];
    }
  }

  /** Bytes behind a name are not looked at. */
  lemma NameSealed(data: Bytes, more: Bytes)
    requires NameString(data).Some?
    ensures NameString(data + more) == Some(Read(NameString(data).value.value, NameString(data).value.rest + more))
  {
    var n := NameOnly(data);
    var rest := NameString(data).value.rest;
    NameBack(n, rest + more);
    hide *;
    Regroup(data, NameBytes(n), rest, more);
  }

  /** A name, read byte by byte and segment by segment. */
  method ReadName(data: Bytes) returns (r: Option<Read<Bytes>>)
    ensures r == NameString(data)
  {
    if data == [] {
      return None;
    }
    var name, i := [], 0;
    if data[0] == ROOT {
      name, i := [ROOT], 1;
    } else {
      assert data[0..] == data && (Carets(data).Some? ==> [] + Carets(data).value.value == Carets(data).value.value);
      while i < |data| && data[i] == PARENT
        invariant 0 <= i <= |data| && name == data[..i]
        invariant Carets(data) == Ahead(name, Carets(data[i..]))
      {
        assert data[i..][1..] == data[i + 1..];
        CaretStep(data, i);
        name, i := name + [PARENT], i + 1;
      }
    }
    var path := ReadPath(data[i..]);
    r := if path.None? then None else Some(Read(name + path.value.value, path.value.rest));
    hide NamePath;
  }

  function Ahead(name: Bytes, r: Option<Read<Bytes>>): Option<Read<Bytes>> {
    if r.None? then None else Some(Read(name + r.value.value, r.value.rest))
  }

  lemma CaretStep(data: Bytes, i: nat)
    requires i < |data| && data[i] == PARENT
    ensures Ahead(data[..i], Carets(data[i..])) == Ahead(data[..i] + [PARENT], Carets(data[i + 1..]))
    ensures data[..i] + [PARENT] == data[..i + 1]
  {
    hide Behind;
    var r := Carets(data[i + 1..]);
    assert data[i..][1..] == data[i + 1..];
    if r.Some? {
      assert data[..i] + ([PARENT] + r.value.value) == data[..i] + [PARENT] + r.value.value;
    }
  }

  method ReadPath(data: Bytes) returns (r: Option<Read<Bytes>>)
    ensures r == NamePath(data)
  {
    if data == [] {
      return None;
    }
    if data[0] == 0 {
      return Some(Read([], data[1..]));
    }
    if data[0] == DUAL {
      r := ReadSegs(data[1..], 2);
    } else if data[0] == MULTI {
      if |data| < 2 {
        return None;
      }
      r := ReadSegs(data[2..], data[1]);
    } else if LeadChar(data[0]) {
      r := ReadSegs(data, 1);
    } else {
      r := None;
    }
    hide Segs;
  }

  method ReadSegs(data: Bytes, n: nat) returns (r: Option<Read<Bytes>>)
    ensures r == Segs(data, n)
  {
    if 4 * n > |data| {
      return None;
    }
    var i := 0;
    while i < n
      invariant 0 <= i <= n
      invariant forall k :: 0 <= k < i ==> ValidSeg(data[4 * k..4 * k + 4])
    {
      if !ValidSeg(data[4 * i..4 * i + 4]) {
        assert data[..4 * n][4 * i..4 * i + 4] == data[4 * i..4 * i + 4];
        return None;
      }
      i := i + 1;
    }
    assert forall k :: 0 <= k < n ==> data[..4 * n][4 * k..4 * k + 4] == data[4 * k..4 * k + 4];
    r := Some(Read(data[..4 * n], data[4 * n..]));
  }
}
