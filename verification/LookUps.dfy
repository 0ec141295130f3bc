/** What looking up a name comes to, for each of its four forms, and that what a scope has
    been bound to is found again. */
module LookUps {
  import opened Options
  import opened Octets
  import opened AmlBytes
  import opened NameSpaces

  // Binding `i` is the first of the name.
  ghost predicate FirstAt(bindings: seq<Binding>, name: Bytes, i: nat) {
    i < |bindings| && bindings[i].name == name && forall j :: 0 <= j < i ==> bindings[j].name != name
  }

  ghost predicate NotBound(bindings: seq<Binding>, name: Bytes) {
    forall i :: 0 <= i < |bindings| ==> bindings[i].name != name
  }

  // `r` is the kind of the first binding of exactly this path, or says that there is none.
  ghost predicate Answers(bindings: seq<Binding>, path: Bytes, r: Found) {
    || (r == Missing && NotBound(bindings, path))
    || (exists i: nat :: FirstAt(bindings, path, i) && r == Bound(bindings[i].kind))
  }

  lemma {:induction false} FindsFirst(bindings: seq<Binding>, name: Bytes)
    ensures Answers(bindings, name, FoundIn(bindings, name))
    ensures FindBinding(bindings, name).None? <==> NotBound(bindings, name)
  {
    FindNone(bindings, name);
    if bindings != [] && bindings[0].name == name {
      assert FirstAt(bindings, name, 0);
    } else if bindings != [] {
      var rest := bindings[1..];
      FindsFirst(rest, name);
      assert forall i :: 0 <= i < |rest| ==> rest[i] == bindings[i + 1];
      if i: nat :| FirstAt(rest, name, i) && FoundIn(rest, name) == Bound(rest[i].kind) {
        assert FirstAt(bindings, name, i + 1);
      }
    }
  }

  /** A rooted name means the same from every scope: the path behind the root character. */
  lemma RootedExactly(s: Space, path: Bytes)
    ensures Answers(s.bindings, path, Lookup(s, [0x5c] + path))
  {
    FindsFirst(s.bindings, path);
    assert ([0x5c] + path)[1..] == path;
  }

  /** A name of more than four characters means its path from the root. */
  lemma LongExactly(s: Space, name: Bytes)
    requires |name| > 4 && name[0] != 0x5c && name[0] != 0x5e
    ensures Answers(s.bindings, name, Lookup(s, name))
  {
    FindsFirst(s.bindings, name);
  }

  /** With `n` carets in front the system halts exactly when fewer than `n` scopes are open;
      otherwise the rest of the name is its path, and from the root. */
  lemma CaretsExactly(s: Space, n: nat, path: Bytes)
    requires n > 0 && (path == [] || path[0] != 0x5e)
    ensures Lookup(s, Repeat(0x5e, n) + path) == Stops <==> n > |s.scope| / 4
    ensures n <= |s.scope| / 4 ==> Answers(s.bindings, path, Lookup(s, Repeat(0x5e, n) + path))
  {
    FindsFirst(s.bindings, path);
    ParentIs(s.bindings, s.scope, n, path);
    assert Repeat(0x5e, n)[0] == 0x5e;
    hide FoundIn, Parent;
  }

  lemma {:induction false} ParentIs(bindings: seq<Binding>, scope: Bytes, n: nat, path: Bytes)
    requires path == [] || path[0] != 0x5e
    ensures Parent(bindings, scope, Repeat(0x5e, n) + path) ==
      if n > |scope| / 4 then Stops else FoundIn(bindings, path)
  {
    if n == 0 {
      assert Repeat(0x5e, 0) + path == path;
    } else if |scope| >= 4 {
      assert (Repeat(0x5e, n) + path)[1..] == Repeat(0x5e, n - 1) + path;
      ParentIs(bindings, scope[..|scope| - 4], n - 1, path);
    }
  }

  // The path that a name stands for `k` scopes out.
  function Outer(scope: Bytes, k: nat): Bytes
    requires 4 * k <= |scope|
  {
    scope[..|scope| - 4 * k]
  }

  /** A short name is looked for in the scope that is open and then in those around it, the
      nearest first: it is missing exactly when none of them binds it. */
  lemma ShortExactly(s: Space, name: Bytes)
    requires |name| <= 4 && (name == [] || (name[0] != 0x5c && name[0] != 0x5e))
    ensures Lookup(s, name) == Missing <==>
      forall k: nat :: 4 * k <= |s.scope| ==> NotBound(s.bindings, Outer(s.scope, k) + name)
    ensures Lookup(s, name) != Missing ==>
      exists k: nat :: NearestAt(s, name, k) && Answers(s.bindings, Outer(s.scope, k) + name, Lookup(s, name))
  {
    SearchNearest(s.bindings, s.scope, name);
  }

  // The scope `k` out is the nearest that binds the name.
  ghost predicate NearestAt(s: Space, name: Bytes, k: nat) {
    && 4 * k <= |s.scope| && !NotBound(s.bindings, Outer(s.scope, k) + name)
    && forall j: nat :: j < k ==> NotBound(s.bindings, Outer(s.scope, j) + name)
  }

  lemma {:induction false} SearchNearest(bindings: seq<Binding>, scope: Bytes, name: Bytes)
    ensures var s := Space(scope, bindings);
      && (Search(bindings, scope, name) == Missing <==>
        forall k: nat :: 4 * k <= |scope| ==> NotBound(bindings, Outer(scope, k) + name))
      && (Search(bindings, scope, name) != Missing ==>
        exists k: nat ::
          NearestAt(s, name, k) && Answers(bindings, Outer(scope, k) + name, Search(bindings, scope, name)))
    decreases |scope|
  {
    var s := Space(scope, bindings);
    FindsFirst(bindings, scope + name);
    assert Outer(scope, 0) == scope;
    if FindBinding(bindings, scope + name).Some? {
      assert NearestAt(s, name, 0);
    } else if |scope| >= 4 {
      var outer := scope[..|scope| - 4];
      SearchNearest(bindings, outer, name);
      OuterShifts(scope);
      hide FindBinding, NotBound, Answers;
      if Search(bindings, scope, name) != Missing {
        var k: nat :| NearestAt(Space(outer, bindings), name, k)
          && Answers(bindings, Outer(outer, k) + name, Search(bindings, outer, name));
        assert Outer(scope, k + 1) == Outer(outer, k);
        assert forall j: nat :: j < k + 1 ==> j == 0 || Outer(scope, j) == Outer(outer, j - 1);
        assert NearestAt(s, name, k + 1);
      } else {
        forall k: nat | 4 * k <= |scope|
          ensures NotBound(bindings, Outer(scope, k) + name)
        {
          if k > 0 {
            assert Outer(scope, k) == Outer(outer, k - 1);
          }
        }
      }
    }
  }

  lemma OuterShifts(scope: Bytes)
    requires |scope| >= 4
    ensures forall k: nat :: 1 <= k && 4 * k <= |scope| ==>
      Outer(scope, k) == Outer(scope[..|scope| - 4], k - 1)
  {
  }

  // ----- what has been bound -----

  /** A path is bound behind all others, and only when nothing has been bound to it. */
  lemma ProvidesExactly(t: Space, before: Bytes, kind: Kind)
    ensures Provided(t, before, kind) ==
      if NotBound(t.bindings, t.scope) then Some(Space(before, t.bindings + [Binding(t.scope, kind)])) else None
  {
    FindsFirst(t.bindings, t.scope);
  }

  // The path that a name opens a scope for.
  ghost predicate OpensPath(s: Space, name: Bytes, path: Bytes) {
    || (name != [] && name[0] == 0x5c && name == [0x5c] + path)
    || ((name == [] || (name[0] != 0x5c && name[0] != 0x5e)) && path == s.scope + name)
  }

  /** Whatever is read inside a scope that a name has opened: once it is bound, its rooted
      path is found from anywhere, as what it has been bound to, however much is bound later. */
  lemma BoundIsFound(s: Space, name: Bytes, path: Bytes, t: Space, kind: Kind, u: Space)
    requires OpensPath(s, name, path) && Opened(s, name).Some? && t.scope == Opened(s, name).value.scope
    requires Provided(t, s.scope, kind).Some? && Provided(t, s.scope, kind).value.bindings <= u.bindings
    ensures Lookup(u, [0x5c] + path) == Bound(kind)
  {
    assert t.scope == path by {
      if name != [] && name[0] == 0x5c {
        assert [] + path == path;
        assert ([0x5c] + path)[1..] == path;
      }
    }
    StaysBound(t.bindings, path, kind, u.bindings);
    assert ([0x5c] + path)[1..] == path;
  }

  lemma {:induction false} StaysBound(before: seq<Binding>, path: Bytes, kind: Kind, after: seq<Binding>)
    requires FindBinding(before, path).None? && before + [Binding(path, kind)] <= after
    ensures FindBinding(after, path) == Some(kind)
  {
    if before == [] {
      assert after[0] == Binding(path, kind);
    } else {
      assert after[0] == before[0];
      assert before[1..] + [Binding(path, kind)] == (before + [Binding(path, kind)])[1..];
      StaysBound(before[1..], path, kind, after[1..]);
    }
  }

  /** And by a name of four characters it is found from the scope it was opened in. */
  lemma BoundIsFoundInside(s: Space, name: Bytes, t: Space, kind: Kind, u: Space)
    requires |name| == 4 && name[0] != 0x5c && name[0] != 0x5e
    requires Opened(s, name).Some? && t.scope == Opened(s, name).value.scope
    requires Provided(t, s.scope, kind).Some? && Provided(t, s.scope, kind).value.bindings <= u.bindings
    requires u.scope == s.scope
    ensures Lookup(u, name) == Bound(kind)
  {
    StaysBound(t.bindings, s.scope + name, kind, u.bindings);
  }

  /** A scope is opened for a path from the root, or else for one from the scope that is open,
      when it is of whole segments; a caret in front halts the system. */
  lemma OpensExactly(s: Space, path: Bytes)
    requires path == [] || (path[0] != 0x5c && path[0] != 0x5e)
    ensures Opened(s, [0x5e] + path).None?
    ensures Opened(s, [0x5c] + path) == (if |path| % 4 == 0 then Some(Space(path, s.bindings)) else None)
    ensures Opened(s, path) == (if |path| % 4 == 0 then Some(Space(s.scope + path, s.bindings)) else None)
  {
    assert ([0x5c] + path)[1..] == path && [] + path == path;
  }
}
