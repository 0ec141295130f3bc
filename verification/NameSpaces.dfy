/** The name space of AML objects: the scope being read, and what names are bound. */
module NameSpaces {
  import opened Options
  import opened Octets
  import opened AmlBytes

  // What a name is bound to, as far as reading on depends on it.
  datatype Kind = ScopeKind | DeviceKind | MethodKind(args: nat) | OtherKind
  datatype Binding = Binding(name: Bytes, kind: Kind)

  // The scope is the names of all that are open, joined.
  datatype Space = Space(scope: Bytes, bindings: seq<Binding>)

  // The outcome of a look-up; a name with too many `^`s stops the system.
  datatype Found = Stops | Missing | Bound(kind: Kind)

  // The first binding of exactly this name.
  function FindBinding(bindings: seq<Binding>, name: Bytes): Option<Kind> {
    if bindings == [] then None
    else if bindings[0].name == name then Some(bindings[0].kind)
    else FindBinding(bindings[1..], name)
  }

  function FoundIn(bindings: seq<Binding>, name: Bytes): Found {
    var k := FindBinding(bindings, name);
    if k.None? then Missing else Bound(k.value)
  }

  // From the scope outwards.
  function Search(bindings: seq<Binding>, scope: Bytes, name: Bytes): Found
    decreases |scope|
  {
    var k := FindBinding(bindings, scope + name);
    if k.Some? then Bound(k.value)
    else if |scope| < 4 then Missing
    else Search(bindings, scope[..|scope| - 4], name)
  }

  // Up one scope for each `^`; the name is then looked for from the root all the same.
  function Parent(bindings: seq<Binding>, scope: Bytes, name: Bytes): Found
    decreases |name|
  {
    if name == [] || name[0] != PARENT then FoundIn(bindings, name)
    else if |scope| < 4 then Stops
    else Parent(bindings, scope[..|scope| - 4], name[1..])
  }

  function Lookup(s: Space, name: Bytes): Found {
    if name != [] && name[0] == ROOT then FoundIn(s.bindings, name[1..])
    else if name != [] && name[0] == PARENT then Parent(s.bindings, s.scope, name)
    else if |name| > 4 then FoundIn(s.bindings, name)
    else Search(s.bindings, s.scope, name)
  }

  // Entering a scope.
  function Opened(s: Space, name: Bytes): Option<Space> {
    if name != [] && name[0] == PARENT then None
    else
      var base := if name != [] && name[0] == ROOT then [] else s.scope;
      var path := if name != [] && name[0] == ROOT then name[1..] else name;
      if |path| % 4 != 0 then None else Some(s.(scope := base + path))
  }

  // Leaving it for the scope before, with the name bound; a name can be bound only once.
  function Provided(s: Space, before: Bytes, kind: Kind): Option<Space> {
    if FindBinding(s.bindings, s.scope).Some? then None
    else Some(Space(before, s.bindings + [Binding(s.scope, kind)]))
  }

  predicate Unique(bindings: seq<Binding>) {
    forall i, j :: 0 <= i < j < |bindings| ==> bindings[i].name != bindings[j].name
  }

  // From before reading something to after: the same scope, and only new names.
  predicate Kept(s: Space, t: Space) {
    t.scope == s.scope && Grown(s, t)
  }

  predicate Grown(s: Space, t: Space) {
    s.bindings <= t.bindings && (Unique(s.bindings) ==> Unique(t.bindings))
  }

  lemma {:induction false} FindNone(bindings: seq<Binding>, name: Bytes)
    ensures FindBinding(bindings, name).None? <==> forall i :: 0 <= i < |bindings| ==> bindings[i].name != name
  {
    if bindings != [] {
      FindNone(bindings[1..], name);
      assert forall i :: 1 <= i < |bindings| ==> bindings[i] == bindings[1..][i - 1];
      assert forall i :: 0 <= i < |bindings| - 1 ==> bindings[1..][i] == bindings[i + 1];
    }
  }

  /** Opening a scope, reading inside it, and providing its binding leads back to where
      one was. */
  lemma ProvidedKeeps(s: Space, t: Space, kind: Kind)
    requires Grown(s, t) && Provided(t, s.scope, kind).Some?
    ensures Kept(s, Provided(t, s.scope, kind).value)
  {
    FindNone(t.bindings, t.scope);
  }

  /** Where names are unique, what is found is what is bound: the innermost scope wins. */
  lemma {:induction false} SearchFinds(bindings: seq<Binding>, scope: Bytes, name: Bytes, k: nat)
    requires 4 * k <= |scope| && forall j :: 0 <= j < k ==> FindBinding(bindings, scope[..|scope| - 4 * j] + name).None?
    requires FindBinding(bindings, scope[..|scope| - 4 * k] + name).Some?
    ensures Search(bindings, scope, name) == Bound(FindBinding(bindings, scope[..|scope| - 4 * k] + name).value)
    decreases k
  {
    if k == 0 {
      assert scope[..|scope| - 4 * 0] == scope;
    } else {
      assert scope[..|scope| - 4 * 0] == scope;
      var outer := scope[..|scope| - 4];
      forall j | 0 <= j < k
        ensures outer[..|outer| - 4 * j] == scope[..|scope| - 4 * (j + 1)]
        ensures j < k - 1 ==> FindBinding(bindings, outer[..|outer| - 4 * j] + name).None?
      {
        assert outer[..|outer| - 4 * j] == scope[..|scope| - 4 * (j + 1)];
      }
      SearchFinds(bindings, outer, name, k - 1);
    }
  }

  /** The name space as it is kept. Methods that return false, or `Stops`, have halted. */
  class NameSpace {
    var scope: Bytes
    var bindings: seq<Binding>

    function State(): Space
      reads this
    {
      Space(scope, bindings)
    }

    constructor ()
      ensures State() == Space([], [])
    {
      scope, bindings := [], [];
    }

    method Find(name: Bytes) returns (r: Option<Kind>)
      ensures r == FindBinding(bindings, name)
    {
      var i := 0;
      while i < |bindings|
        invariant 0 <= i <= |bindings| && FindBinding(bindings, name) == FindBinding(bindings[i..], name)
      {
        if bindings[i].name == name {
          return Some(bindings[i].kind);
        }
        assert bindings[i..][1..] == bindings[i + 1..];
        i := i + 1;
      }
      r := None;
    }

    method FindAs(name: Bytes) returns (r: Found)
      ensures r == FoundIn(bindings, name)
    {
      var k := Find(name);
      r := if k.None? then Missing else Bound(k.value);
    }

    method LookupNode(name: Bytes) returns (r: Found)
      ensures r == Lookup(State(), name)
    {
      if name != [] && name[0] == ROOT {
        r := FindAs(name[1..]);
      } else if name != [] && name[0] == PARENT {
        var ns, i := scope, 0;
        while i < |name| && name[i] == PARENT
          invariant 0 <= i <= |name| && Parent(bindings, scope, name) == Parent(bindings, ns, name[i..])
        {
          if |ns| < 4 {
            return Stops;
          }
          assert name[i..][1..] == name[i + 1..];
          ns, i := ns[..|ns| - 4], i + 1;
        }
        r := FindAs(name[i..]);
      } else if |name| > 4 {
        r := FindAs(name);
      } else {
        var ns := scope;
        while true
          invariant Search(bindings, scope, name) == Search(bindings, ns, name)
          decreases |ns|
        {
          var k := Find(ns + name);
          if k.Some? {
            return Bound(k.value);
          }
          if |ns| < 4 {
            return Missing;
          }
          ns := ns[..|ns| - 4];
        }
      }
    }

    // Returns the scope to come back to.
    method OpenScope(name: Bytes) returns (r: Option<Bytes>)
      modifies this`scope
      ensures r.Some? ==> Opened(old(State()), name) == Some(State()) && r.value == old(scope)
      ensures r.None? ==> Opened(old(State()), name).None?
    {
      var outer := scope;
      if name != [] && name[0] == PARENT {
        return None;
      }
      var path := name;
      if name != [] && name[0] == ROOT {
        path := name[1..];
        scope := [];
      }
      if |path| % 4 != 0 {
        return None;
      }
      scope := scope + path;
      r := Some(outer);
    }

    method Provide(before: Bytes, kind: Kind) returns (ok: bool)
      modifies this
      ensures ok ==> Provided(old(State()), before, kind) == Some(State())
      ensures !ok ==> Provided(old(State()), before, kind).None?
    {
      var name := scope;
      scope := before;
      var bound := Find(name);
      if bound.Some? {
        return false;
      }
      bindings := bindings + [Binding(name, kind)];
      ok := true;
    }
  }
}
