/** The processes as the kernel keeps them: a linked list, the newest first, and the
    current one. */
module ProcessTable {
  import opened Options
  import opened Processes

  // From `at` on, the list runs through `order`.
  predicate Linked(next: map<nat, Option<nat>>, at: Option<nat>, order: seq<nat>)
    decreases |order|
  {
    if order == [] then at == None
    else at == Some(order[0]) && order[0] in next && Linked(next, next[order[0]], order[1..])
  }

  // ----- what the destructor of a process takes with it -----

  // What goes with the objects in the first `k` slots.
  function DoomedBy(procs: map<nat, Proc>, order: seq<nat>, objects: seq<Option<Object>>, k: nat): set<nat>
    requires k <= |objects|
  {
    if k == 0 then {}
    else DoomedBy(procs, order, objects, k - 1) + DoomedIn1(procs, order, objects[k - 1])
  }

  function DoomedIn1(procs: map<nat, Proc>, order: seq<nat>, slot: Option<Object>): set<nat> {
    if slot.Some? && slot.value.Process? then Doomed(procs, order, slot.value.id) else {}
  }

  ghost predicate Forest(procs: map<nat, Proc>, order: seq<nat>) {
    && Distinct(order) && (forall p :: p in procs ==> |procs[p].objects| == MAX_OBJECTS) && Owned(procs, order)
  }

  lemma {:induction false} DoomedDown(procs: map<nat, Proc>, order: seq<nat>, id: nat, i: nat, q: nat, x: nat, at: nat)
    requires Forest(procs, order) && Holds(procs, id, i, q) && id in order
    requires at < |order| && order[at] == x && x in Doomed(procs, order, q)
    ensures x in Doomed(procs, order, id)
    decreases |order| - at
  {
    DoomedIn(procs, order, id);
    DoomedClosed(procs, order, id, id, i, q);
    if x != q {
      DoomedHeld(procs, order, q, x);
      var h, k :| h in Doomed(procs, order, q) && Holds(procs, h, k, x);
      var at' := IndexAfter(order, x, h, at);
      DoomedDown(procs, order, id, i, q, h, at');
      DoomedClosed(procs, order, id, h, k, x);
    }
  }

  lemma IndexAfter(order: seq<nat>, x: nat, h: nat, at: nat) returns (at': nat)
    requires Distinct(order) && Newer(order, x, h) && at < |order| && order[at] == x
    ensures at < at' < |order| && order[at'] == h
  {
    var i, j :| 0 <= i < j < |order| && order[i] == x && order[j] == h;
    at' := j;
  }

  // The slot of `id` by which `x` goes.
  lemma {:induction false} DoomedUp(procs: map<nat, Proc>, order: seq<nat>, id: nat, x: nat, at: nat)
    returns (i: nat, q: nat)
    requires Forest(procs, order) && x in Doomed(procs, order, id) && x != id && at < |order| && order[at] == x
    ensures Holds(procs, id, i, q) && x in Doomed(procs, order, q)
    decreases |order| - at
  {
    DoomedHeld(procs, order, id, x);
    var h, k :| h in Doomed(procs, order, id) && Holds(procs, h, k, x);
    if h == id {
      i, q := k, x;
      DoomedIn(procs, order, x);
      assert order[at] in order;
    } else {
      var at' := IndexAfter(order, x, h, at);
      i, q := DoomedUp(procs, order, id, h, at');
      DoomedClosed(procs, order, q, h, k, x);
    }
  }

  // Two slots of `id` take nothing in common.
  lemma {:induction false} DoomedApart(procs: map<nat, Proc>, order: seq<nat>, id: nat, i: nat, q: nat, i': nat,
      q': nat, x: nat, at: nat)
    requires Forest(procs, order) && Holds(procs, id, i, q) && Holds(procs, id, i', q') && i != i'
    requires at < |order| && order[at] == x && x in Doomed(procs, order, q)
    ensures x !in Doomed(procs, order, q')
    decreases |order| - at
  {
    if x in Doomed(procs, order, q') {
      if x == q {
        HolderApart(procs, order, id, i, q, i', q');
      } else if x == q' {
        HolderApart(procs, order, id, i', q', i, q);
      } else {
        DoomedHeld(procs, order, q, x);
        DoomedHeld(procs, order, q', x);
        var h, k :| h in Doomed(procs, order, q) && Holds(procs, h, k, x);
        var at' := IndexAfter(order, x, h, at);
        DoomedApart(procs, order, id, i, q, i', q', h, at');
      }
    }
  }

  lemma HolderApart(procs: map<nat, Proc>, order: seq<nat>, id: nat, i: nat, q: nat, i': nat, q': nat)
    requires Forest(procs, order) && Holds(procs, id, i, q) && Holds(procs, id, i', q') && i != i'
    ensures q !in Doomed(procs, order, q')
  {
    if q in Doomed(procs, order, q') && q != q' {
      DoomedHeld(procs, order, q', q);
      assert id in Doomed(procs, order, q');
      assert id != q' by { NotSelf(order, q', id); }
      DoomedNewer(procs, order, q', id);
      NewerTrans(order, id, q', id);
      NotSelf(order, id, id);
    }
  }

  lemma NotSelf(order: seq<nat>, q: nat, p: nat)
    requires Distinct(order) && Newer(order, q, p)
    ensures q != p
  {
  }

  // What goes with `id`: it, and what goes with its objects.
  lemma DoomedParts(procs: map<nat, Proc>, order: seq<nat>, id: nat)
    requires Forest(procs, order) && id in procs && id in order
    ensures Doomed(procs, order, id) == {id} + DoomedBy(procs, order, procs[id].objects, MAX_OBJECTS)
    ensures id !in DoomedBy(procs, order, procs[id].objects, MAX_OBJECTS)
  {
    var objects := procs[id].objects;
    DoomedIn(procs, order, id);
    forall x
      ensures x in Doomed(procs, order, id) && x != id <==> x in DoomedBy(procs, order, objects, MAX_OBJECTS)
    {
      if x in Doomed(procs, order, id) && x != id {
        var at :| 0 <= at < |order| && order[at] == x;
        var i, q := DoomedUp(procs, order, id, x, at);
        ByHas(procs, order, objects, MAX_OBJECTS, i, x);
      }
      if x in DoomedBy(procs, order, objects, MAX_OBJECTS) {
        var i := ByFrom(procs, order, objects, MAX_OBJECTS, x);
        ChildGoes(procs, order, id, i, x);
      }
    }
  }

  lemma ChildGoes(procs: map<nat, Proc>, order: seq<nat>, id: nat, i: nat, x: nat)
    requires Forest(procs, order) && id in procs && id in order && i < MAX_OBJECTS
    requires x in DoomedIn1(procs, order, procs[id].objects[i])
    ensures x in Doomed(procs, order, id) && x != id
  {
    var q := procs[id].objects[i].value.id;
    assert Holds(procs, id, i, q);
    assert Newer(order, q, id);
    DoomedIn(procs, order, q);
    var at :| 0 <= at < |order| && order[at] == x;
    DoomedDown(procs, order, id, i, q, x, at);
    NotSelf(order, q, id);
    if x != q {
      DoomedNewer(procs, order, q, x);
      NewerTrans(order, x, q, id);
      NotSelf(order, x, id);
    }
  }

  lemma {:induction false} ByHas(procs: map<nat, Proc>, order: seq<nat>, objects: seq<Option<Object>>, k: nat, i: nat,
      x: nat)
    requires i < k <= |objects| && x in DoomedIn1(procs, order, objects[i])
    ensures x in DoomedBy(procs, order, objects, k)
  {
    if i < k - 1 {
      ByHas(procs, order, objects, k - 1, i, x);
    }
  }

  lemma {:induction false} ByFrom(procs: map<nat, Proc>, order: seq<nat>, objects: seq<Option<Object>>, k: nat, x: nat)
    returns (i: nat)
    requires k <= |objects| && x in DoomedBy(procs, order, objects, k)
    ensures i < k && x in DoomedIn1(procs, order, objects[i])
  {
    if x in DoomedIn1(procs, order, objects[k - 1]) {
      i := k - 1;
    } else {
      i := ByFrom(procs, order, objects, k - 1, x);
    }
  }

  // The next slot takes nothing that is gone.
  lemma NextApart(procs: map<nat, Proc>, order: seq<nat>, id: nat, k: nat)
    requires Forest(procs, order) && id in procs && id in order && k < MAX_OBJECTS
    ensures DoomedBy(procs, order, procs[id].objects, k) !! DoomedIn1(procs, order, procs[id].objects[k])
    ensures DoomedIn1(procs, order, procs[id].objects[k]) <= DoomedBy(procs, order, procs[id].objects, MAX_OBJECTS)
  {
    var objects := procs[id].objects;
    forall x | x in DoomedIn1(procs, order, objects[k])
      ensures x !in DoomedBy(procs, order, objects, k)
      ensures x in DoomedBy(procs, order, objects, MAX_OBJECTS)
    {
      ByHas(procs, order, objects, MAX_OBJECTS, k, x);
      if x in DoomedBy(procs, order, objects, k) {
        var i := ByFrom(procs, order, objects, k, x);
        var q, q' := objects[k].value.id, objects[i].value.id;
        assert Holds(procs, id, k, q) && Holds(procs, id, i, q');
        DoomedIn(procs, order, q);
        var at :| 0 <= at < |order| && order[at] == x;
        DoomedApart(procs, order, id, k, q, i, q', x, at);
      }
    }
  }

  lemma {:induction false} WithoutTwice(order: seq<nat>, a: set<nat>, b: set<nat>)
    ensures Without(Without(order, a), b) == Without(order, a + b)
  {
    if order != [] {
      WithoutTwice(order[1..], a, b);
    }
  }

  lemma {:induction false} WithoutNone(order: seq<nat>)
    ensures Without(order, {}) == order
  {
    if order != [] {
      WithoutNone(order[1..]);
    }
  }

  // ----- the list -----

  lemma {:induction false} LinkedAt(next: map<nat, Option<nat>>, at: Option<nat>, order: seq<nat>, k: nat)
    requires Linked(next, at, order) && k < |order|
    ensures order[k] in next && Linked(next, Some(order[k]), order[k..]) && Linked(next, next[order[k]], order[k + 1..])
    decreases k
  {
    if k == 0 {
      assert order[0..] == order;
    } else {
      LinkedAt(next, next[order[0]], order[1..], k - 1);
      assert order[1..][k - 1..] == order[k..] && order[1..][k..] == order[k + 1..];
    }
  }

  // Links of processes that are not in the list do not matter.
  lemma {:induction false} LinkedSame(next: map<nat, Option<nat>>, next': map<nat, Option<nat>>, at: Option<nat>,
      order: seq<nat>)
    requires Linked(next, at, order) && forall p :: p in order && p in next ==> p in next' && next'[p] == next[p]
    ensures Linked(next', at, order)
    decreases |order|
  {
    if order != [] {
      LinkedSame(next, next', next[order[0]], order[1..]);
    }
  }

  lemma {:induction false} Relinked(next: map<nat, Option<nat>>, at: Option<nat>, order: seq<nat>, k: nat)
    requires Linked(next, at, order) && Distinct(order) && k + 1 < |order|
    ensures order[k] in next && order[k + 1] in next
    ensures Linked(next[order[k] := next[order[k + 1]]], at, order[..k + 1] + order[k + 2..])
    decreases k
  {
    LinkedAt(next, at, order, k);
    LinkedAt(next, at, order, k + 1);
    var next' := next[order[k] := next[order[k + 1]]];
    var t := order[..k + 1] + order[k + 2..];
    var rest := order[1..];
    assert forall i :: 0 <= i < |rest| ==> rest[i] == order[i + 1];
    if k == 0 {
      LinkedAt(next, at, order, 1);
      assert t[1..] == order[2..];
      LinkedSame(next, next', next[order[1]], order[2..]);
    } else {
      Relinked(next, next[order[0]], rest, k - 1);
      assert t[1..] == rest[..k] + rest[k + 1..];
      assert order[0] != order[k];
    }
  }

  lemma {:induction false} WithoutOne(order: seq<nat>, k: nat)
    requires Distinct(order) && k < |order|
    ensures Without(order, {order[k]}) == order[..k] + order[k + 1..]
    decreases k
  {
    var rest := order[1..];
    assert forall i :: 0 <= i < |rest| ==> rest[i] == order[i + 1];
    if k == 0 {
      WithoutOthers(rest, {order[0]});
      assert order[..0] + order[1..] == rest;
    } else {
      WithoutOne(rest, k - 1);
      assert order[..k] + order[k + 1..] == [order[0]] + (rest[..k - 1] + rest[k..]);
    }
  }

  lemma {:induction false} WithoutOthers(order: seq<nat>, gone: set<nat>)
    requires forall p :: p in order ==> p !in gone
    ensures Without(order, gone) == order
  {
    if order != [] {
      assert forall p :: p in order[1..] ==> p in order;
      WithoutOthers(order[1..], gone);
    }
  }

  function WithoutObject(p: Proc, i: nat): Proc
    requires i < |p.objects|
  {
    p.(objects := p.objects[i := None])
  }

  predicate AllThere(gone: set<nat>, order: seq<nat>, procs: map<nat, Proc>, procs0: map<nat, Proc>) {
    forall p :: p in gone ==> p in order && p in procs && p in procs0 && procs[p] == procs0[p]
  }

  lemma StillThere(gone: set<nat>, these: set<nat>, taken: set<nat>, id: nat, order: seq<nat>, order': seq<nat>,
      procs: map<nat, Proc>, procs': map<nat, Proc>, procs0: map<nat, Proc>)
    requires AllThere(gone, order, procs, procs0) && these <= gone && these !! taken && id !in these
    requires order' == Without(order, taken) && procs' - {id} == procs - {id} - taken
    ensures AllThere(these, order', procs', procs0)
  {
    WithoutIs(order, taken);
    forall p | p in these
      ensures p in procs' && procs'[p] == procs[p]
    {
      assert p in procs - {id} - taken;
      assert p in procs' - {id};
      assert (procs' - {id})[p] == (procs - {id} - taken)[p];
    }
  }

  lemma TakenMore(procs: map<nat, Proc>, procs': map<nat, Proc>, procs'': map<nat, Proc>, id: nat, x: Proc,
      taken: set<nat>, these: set<nat>)
    requires procs' - {id} == procs - {id} - taken && procs'' == (procs' - these)[id := x]
    ensures procs'' - {id} == procs - {id} - (taken + these)
  {
    assert procs'' - {id} == procs' - {id} - these;
  }

  // Clearing a slot of a process that stays changes nothing in what goes.
  lemma {:induction false} DoomedSame(procs: map<nat, Proc>, procs': map<nat, Proc>, order: seq<nat>, id: nat, me: nat)
    requires forall p, i, q :: p != me ==> (Holds(procs', p, i, q) <==> Holds(procs, p, i, q))
    requires me !in Doomed(procs, order, id)
    ensures Doomed(procs', order, id) == Doomed(procs, order, id)
  {
    if order != [] {
      DoomedSame(procs, procs', order[1..], id, me);
    }
  }

  lemma InvForest(s: System)
    requires Inv(s)
    ensures Forest(s.procs, s.order) && forall p :: p in s.procs <==> p in s.order
  {
    hide Owned, Chain, RunningOf;
  }

  // What a closed handle takes with it is all there, and `me` stays.
  lemma ClosesWell(s: System, me: nat, i: nat, id: nat) returns (at: nat)
    requires Inv(s) && s.current == Some(me) && Holds(s.procs, me, i, id)
    ensures Forest(s.procs, s.order) && id in s.procs && at < |s.order| && s.order[at] == id
    ensures AllThere(Doomed(s.procs, s.order, id), s.order, s.procs, s.procs)
    ensures forall p :: p in Doomed(s.procs, s.order, id) ==> p != me && s.procs[p].state != Running
  {
    InvForest(s);
    assert Newer(s.order, id, me);
    DoomedIn(s.procs, s.order, id);
    DoomedIdle(s, me, id);
    hide Inv, Forest;
    at :| 0 <= at < |s.order| && s.order[at] == id;
  }

  // How the state stands after a handle is closed, and after a refusal that never comes.
  lemma ClosedAs(s: System, me: nat, i: nat, gone: set<nat>, t: System, ok: bool)
    requires Inv(s) && s.current == Some(me) && me in s.procs && Slot(s.procs[me], s.regs.rdx) == Some(i)
    requires gone == DoomedIn1(s.procs, s.order, s.procs[me].objects[i])
    requires ok ==>
      t == s.(procs := (s.procs - gone)[me := WithoutObject(s.procs[me], i)], order := Without(s.order, gone))
    requires !ok ==> exists p :: p in gone && p in s.procs && (s.procs[p].state == Running || s.current == Some(p))
    ensures if ok then AfterDestroy(s, me) == Some(t) else AfterDestroy(s, me).None?
  {
    SlotIs(s.procs[me], s.regs.rdx, i);
    var item := s.procs[me].objects[i].value;
    if item.Process? {
      assert gone == Doomed(s.procs, s.order, item.id);
      hide *;
      GoneSame(s, me, i, item.id, gone);
      DestroyIs(s, me, i, gone);
    } else {
      assert gone == {};
      hide *;
      DeviceClosed(s, me, i);
    }
  }

  lemma SlotIs(p: Proc, handle: nat, i: nat)
    requires Slot(p, handle) == Some(i)
    ensures i < |p.objects| && p.objects[i].Some?
  {
  }

  // What is doomed with the handle is so without it, and none of it is in use.
  lemma GoneSame(s: System, me: nat, i: nat, id: nat, gone: set<nat>)
    requires Inv(s) && s.current == Some(me) && me in s.procs && i < |s.procs[me].objects|
    requires s.procs[me].objects[i] == Some(Process(id)) && gone == Doomed(s.procs, s.order, id)
    ensures Doomed(Closed(s, me, i).procs, s.order, id) == gone
    ensures forall p :: p in gone ==> p != me && p in s.procs && s.procs[p].state != Running
  {
    assert Holds(s.procs, me, i, id);
    var at := ClosesWell(s, me, i, id);
    var s' := Closed(s, me, i);
    SlotCleared(s.procs, s'.procs, me, i);
    DoomedSame(s.procs, s'.procs, s.order, id, me);
    hide Inv, Forest, Doomed, Holds;
  }

  lemma DestroyIs(s: System, me: nat, i: nat, gone: set<nat>)
    requires s.current == Some(me) && me in s.procs && Slot(s.procs[me], s.regs.rdx) == Some(i)
    requires i < |s.procs[me].objects| && s.procs[me].objects[i].Some? && s.procs[me].objects[i].value.Process?
    requires Doomed(Closed(s, me, i).procs, s.order, s.procs[me].objects[i].value.id) == gone
    requires forall p :: p in gone ==> p != me && p in s.procs && s.procs[p].state != Running
    ensures AfterDestroy(s, me) ==
      Some(s.(procs := (s.procs - gone)[me := WithoutObject(s.procs[me], i)], order := Without(s.order, gone)))
  {
    GoneAndClosed(s.procs, me, i, gone);
    hide Doomed, Without, Slot;
  }

  lemma DeviceClosed(s: System, me: nat, i: nat)
    requires me in s.procs && Slot(s.procs[me], s.regs.rdx) == Some(i)
    requires i < |s.procs[me].objects| && s.procs[me].objects[i].Some? && !s.procs[me].objects[i].value.Process?
    ensures AfterDestroy(s, me) ==
      Some(s.(procs := (s.procs - {})[me := WithoutObject(s.procs[me], i)], order := Without(s.order, {})))
  {
    WithoutNone(s.order);
    assert s.procs - {} == s.procs;
    hide Doomed, Without, Slot;
  }

  lemma GoneAndClosed(procs: map<nat, Proc>, me: nat, i: nat, gone: set<nat>)
    requires me in procs && me !in gone && i < |procs[me].objects|
    ensures procs[me := procs[me].(objects := procs[me].objects[i := None])] - gone ==
      (procs - gone)[me := WithoutObject(procs[me], i)]
  {
  }

  lemma SystemOk(s: System)
    requires Inv(s)
    ensures s.current.Some? ==> s.current.value in s.procs
    ensures forall p :: p in s.procs <==> p in s.order
  {
    RunningIs(s.procs, s.order);
    hide Owned, Chain, RunningOf;
  }

  lemma RaxInv(s: System)
    requires Inv(s) && s.current.Some?
    ensures Inv(s.(regs := s.regs.(rax := 0)))
  {
    hide Owned, Chain, RunningOf, Listed;
  }

  lemma StepInv(s: System, call: Call)
    requires Inv(s)
    ensures Step(s, call).Some? ==> Inv(Step(s, call).value)
  {
    if Step(s, call).Some? {
      StepKeeps(s, call);
    }
    hide Step, Inv;
  }

  /** The kernel's processes as they are kept. Methods that return false have halted it. */
  class UserProcesses {
    var procs: map<nat, Proc>
    var next: map<nat, Option<nat>>
    var first: Option<nat>
    var current: Option<nat>
    var regs: Regs
    var space: Option<nat>
    const original: Regs
    ghost var order: seq<nat>

    ghost predicate Valid()
      reads this
    {
      Linked(next, first, order) && Inv(State())
    }

    ghost function State(): System
      reads this
    {
      System(procs, order, current, regs, space, original)
    }

    // The first process, as the kernel starts it.
    constructor (id: nat, image: Regs, original: Regs)
      ensures Valid() && State() == Boot(id, image, original)
    {
      procs := map[id := NEW_PROC.(state := Running, context := image)];
      next, first, current := map[id := None], Some(id), Some(id);
      regs, space, order := image, Some(id), [id];
      this.original := original;
      BootInv(id, image, original);
    }

    // Takes a process out of the list.
    method Unlink(id: nat)
      requires Linked(next, first, order) && Distinct(order) && id in order
      modifies this`next, this`first, this`order
      ensures Linked(next, first, order) && order == Without(old(order), {id})
    {
      if first == Some(id) {
        first := next[id];
        WithoutOne(order, 0);
        order := order[1..];
      } else {
        var p := first.value;
        ghost var k := 0;
        LinkedAt(next, first, order, 0);
        while next[p] != Some(id)
          invariant k + 1 < |order| && order[k] == p && p in next && id !in order[..k + 1]
          invariant Linked(next, next[p], order[k + 1..]) && unchanged(this)
          decreases |order| - k
        {
          assert order[..k + 2] == order[..k + 1] + [order[k + 1]];
          p := next[p].value;
          k := k + 1;
          LinkedAt(next, first, order, k);
          assert id in order[..k + 1] + order[k + 1..];
        }
        assert order[k + 1] == id;
        WithoutOne(order, k + 1);
        Relinked(next, first, order, k);
        next := next[p := next[id]];
        order := order[..k + 1] + order[k + 2..];
      }
    }

    // The list as a vector, the newest process first.
    method AllProcesses() returns (all: seq<nat>)
      requires Linked(next, first, order)
      ensures all == order
    {
      all := [];
      var p := first;
      while p != None
        invariant |all| <= |order| && all == order[..|all|]
        invariant Linked(next, p, order[|all|..])
        decreases |order| - |all|
      {
        assert order[|all|..][1..] == order[|all| + 1..];
        all := all + [p.value];
        p := next[p.value];
      }
    }

    method FirstRunning() returns (r: Option<nat>)
      requires Linked(next, first, order)
      ensures r == if RunningOf(procs, order) == [] then None else Some(RunningOf(procs, order)[0])
    {
      var all := AllProcesses();
      var i := 0;
      while i < |all|
        invariant 0 <= i <= |all| && RunningOf(procs, all) == RunningOf(procs, all[i..])
      {
        assert all[i..][1..] == all[i + 1..];
        if all[i] in procs && procs[all[i]].state == Running {
          return Some(all[i]);
        }
        i := i + 1;
      }
      r := None;
    }

    // The destructor: first what the process holds, then the process itself. `procs0`
    // and `order0` are the processes before the handle was closed.
    method DestroyProcess(id: nat, ghost procs0: map<nat, Proc>, ghost order0: seq<nat>, ghost at: nat)
      returns (ok: bool)
      requires Forest(procs0, order0) && id in procs0 && at < |order0| && order0[at] == id
      requires Linked(next, first, order) && Distinct(order)
      requires AllThere(Doomed(procs0, order0, id), order, procs, procs0)
      modifies this`procs, this`next, this`first, this`order
      ensures ok ==> Linked(next, first, order) && order == Without(old(order), Doomed(procs0, order0, id))
      ensures ok ==> procs == old(procs) - Doomed(procs0, order0, id)
      ensures !ok ==> Refused(Doomed(procs0, order0, id), procs0)
      decreases at, 1
    {
      DoomedIn(procs0, order0, id);
      DoomedParts(procs0, order0, id);
      hide Forest, Doomed, Distinct, Linked, DoomedBy, Without;
      ghost var held, gone := procs0[id].objects, Doomed(procs0, order0, id);
      if procs[id].state == Running || current == Some(id) {
        return false;
      }
      ok := DestroyObjects(id, procs0, order0, at);
      if ok {
        ghost var taken := DoomedBy(procs0, order0, held, MAX_OBJECTS);
        WithoutIs(old(order), taken);
        Unlink(id);
        WithoutTwice(old(order), taken, {id});
        procs := procs - {id};
        assert taken + {id} == gone;
        ok := true;
      }
    }

    ghost predicate Refused(gone: set<nat>, procs0: map<nat, Proc>)
      reads this
    {
      exists p :: p in gone && p in procs0 && (procs0[p].state == Running || current == Some(p))
    }

    method DestroyObjects(id: nat, ghost procs0: map<nat, Proc>, ghost order0: seq<nat>, ghost at: nat)
      returns (ok: bool)
      requires Forest(procs0, order0) && id in procs0 && at < |order0| && order0[at] == id
      requires Linked(next, first, order) && Distinct(order)
      requires AllThere(Doomed(procs0, order0, id), order, procs, procs0)
      requires id in procs && procs[id] == procs0[id]
      modifies this`procs, this`next, this`first, this`order
      ensures ok ==>
        Linked(next, first, order)
        && order == Without(old(order), DoomedBy(procs0, order0, procs0[id].objects, MAX_OBJECTS))
      ensures ok ==>
        id in procs && procs - {id} == old(procs) - {id} - DoomedBy(procs0, order0, procs0[id].objects, MAX_OBJECTS)
      ensures !ok ==> Refused(Doomed(procs0, order0, id), procs0)
      decreases at, 0, 2
    {
      DoomedIn(procs0, order0, id);
      DoomedParts(procs0, order0, id);
      assert |procs0[id].objects| == MAX_OBJECTS;
      ghost var held, gone := procs0[id].objects, Doomed(procs0, order0, id);
      ghost var procs1, order1 := procs, order;
      WithoutNone(order);
      assert DoomedBy(procs0, order0, held, 0) == {};
      hide Forest, Doomed, Linked, Without, DoomedIn1, Distinct, AllThere, Refused;
      var i := 0;
      while i < MAX_OBJECTS
        invariant 0 <= i <= MAX_OBJECTS && id in procs && |procs[id].objects| == MAX_OBJECTS
        invariant Linked(next, first, order) && order == Without(order1, DoomedBy(procs0, order0, held, i))
        invariant procs - {id} == procs1 - {id} - DoomedBy(procs0, order0, held, i)
        invariant forall j :: i <= j < MAX_OBJECTS ==> procs[id].objects[j] == held[j]
      {
        ok := DestroyNext(id, i, procs0, order0, at, procs1, order1);
        if !ok {
          return;
        }
        i := i + 1;
      }
      ok := true;
    }

    // The next slot, after the first `i` have been emptied.
    method DestroyNext(id: nat, i: nat, ghost procs0: map<nat, Proc>, ghost order0: seq<nat>, ghost at: nat,
        ghost procs1: map<nat, Proc>, ghost order1: seq<nat>) returns (ok: bool)
      requires Forest(procs0, order0) && id in procs0 && id in order0 && at < |order0| && order0[at] == id
      requires i < MAX_OBJECTS
      requires Distinct(order1) && AllThere(Doomed(procs0, order0, id), order1, procs1, procs0)
      requires id in procs && |procs[id].objects| == |procs0[id].objects| == MAX_OBJECTS
      requires procs[id].objects[i] == procs0[id].objects[i]
      requires Linked(next, first, order) && order == Without(order1, DoomedBy(procs0, order0, procs0[id].objects, i))
      requires procs - {id} == procs1 - {id} - DoomedBy(procs0, order0, procs0[id].objects, i)
      modifies this`procs, this`next, this`first, this`order
      ensures ok ==>
        Linked(next, first, order) && order == Without(order1, DoomedBy(procs0, order0, procs0[id].objects, i + 1))
      ensures ok ==> procs - {id} == procs1 - {id} - DoomedBy(procs0, order0, procs0[id].objects, i + 1)
      ensures ok ==> id in procs && procs[id] == WithoutObject(old(procs)[id], i)
      ensures !ok ==> Refused(Doomed(procs0, order0, id), procs0)
      decreases at, 0, 1
    {
      ghost var held, gone, procs2 := procs0[id].objects, Doomed(procs0, order0, id), procs;
      ghost var taken, these := DoomedBy(procs0, order0, held, i), DoomedIn1(procs0, order0, held[i]);
      DoomedParts(procs0, order0, id);
      NextApart(procs0, order0, id, i);
      hide Forest, Doomed, Linked, Without, DoomedIn1, Distinct, AllThere, Refused;
      WithoutIs(order1, taken);
      StillThere(gone, these, taken, id, order1, order, procs1, procs, procs0);
      ok := DestroyObject(id, i, procs0, order0, at);
      if ok {
        WithoutTwice(order1, taken, these);
        TakenMore(procs1, procs2, procs, id, procs[id], taken, these);
      } else {
        RefusedMore(these, gone, procs0);
      }
    }

    lemma RefusedMore(these: set<nat>, gone: set<nat>, procs0: map<nat, Proc>)
      requires Refused(these, procs0) && these <= gone
      ensures Refused(gone, procs0)
    {
    }

    // One slot of a process that goes.
    method DestroyObject(id: nat, i: nat, ghost procs0: map<nat, Proc>, ghost order0: seq<nat>, ghost at: nat)
      returns (ok: bool)
      requires Forest(procs0, order0) && id in procs0 && at < |order0| && order0[at] == id && i < MAX_OBJECTS
      requires id in procs && |procs[id].objects| == |procs0[id].objects| == MAX_OBJECTS
      requires procs[id].objects[i] == procs0[id].objects[i]
      requires Linked(next, first, order) && Distinct(order)
      requires AllThere(DoomedIn1(procs0, order0, procs0[id].objects[i]), order, procs, procs0)
      modifies this`procs, this`next, this`first, this`order
      ensures ok ==>
        Linked(next, first, order) && order == Without(old(order), DoomedIn1(procs0, order0, procs0[id].objects[i]))
      ensures ok ==>
        procs == (old(procs) - DoomedIn1(procs0, order0, procs0[id].objects[i]))[id := WithoutObject(old(procs)[id], i)]
      ensures !ok ==> Refused(DoomedIn1(procs0, order0, procs0[id].objects[i]), procs0)
      decreases at, 0, 0
    {
      var slot := procs[id].objects[i];
      WithoutNone(order);
      if slot.Some? && slot.value.Process? {
        ghost var q := slot.value.id;
        assert Holds(procs0, id, i, q);
        ghost var k, l :| 0 <= k < l < |order0| && order0[k] == q && order0[l] == id;
        DoomedIn(procs0, order0, q);
        assert id !in Doomed(procs0, order0, q) by {
          if id in Doomed(procs0, order0, q) {
            ChildGoes(procs0, order0, id, i, id);
          }
        }
        ok := DestroyProcess(slot.value.id, procs0, order0, k);
        if !ok {
          return;
        }
      }
      procs := procs[id := WithoutObject(procs[id], i)];
      ok := true;
    }

    // ----- system calls -----

    method ObjectOpen(me: nat, item: Object) returns (ok: bool)
      requires me in procs
      modifies this`procs, this`regs
      ensures ok ==> Opened(old(State()), me, item) == Some(State())
      ensures !ok ==> Opened(old(State()), me, item).None?
    {
      var objects := procs[me].objects;
      var i := 0;
      while i < |objects| && objects[i].Some?
        invariant 0 <= i <= |objects| && forall k :: 0 <= k < i ==> objects[k].Some?
      {
        i := i + 1;
      }
      if i == |objects| {
        return false;
      }
      procs := procs[me := procs[me].(objects := objects[i := Some(item)])];
      regs := regs.(rax := i + 1);
      ok := true;
    }

    method CreateProcessObject(me: nat, id: nat) returns (ok: bool)
      requires Linked(next, first, order) && me in procs && id !in procs && id !in order
      modifies this`procs, this`next, this`first, this`order, this`regs
      ensures ok ==> Linked(next, first, order)
      ensures var s := old(State());
        var t := Opened(s.(procs := s.procs[id := NEW_PROC], order := [id] + s.order), me, Process(id));
        (ok ==> t == Some(State())) && (!ok ==> t.None?)
    {
      ghost var rest := order;
      LinkedSame(next, next[id := first], first, order);
      next := next[id := first];
      first := Some(id);
      order := [id] + order;
      assert order[1..] == rest;
      procs := procs[id := NEW_PROC];
      ok := ObjectOpen(me, Process(id));
    }

    // The last to run is this one's starter, or nobody.
    method ExitProcess(me: nat) returns (ok: bool)
      requires Linked(next, first, order) && me in procs
      modifies this`procs, this`current, this`space, this`regs
      ensures ok ==> AfterExit(old(State()), me) == Some(State())
      ensures !ok ==> AfterExit(old(State()), me).None?
    {
      if procs[me].state != Running {
        return false;
      }
      current := None;
      procs := procs[me := procs[me].(state := Exited, exitCode := regs.rdx)];
      var running := FirstRunning();
      if running == None {
        space := None;
        regs := original;
        return true;
      }
      if running.value !in procs {
        return false;
      }
      RunningIs(procs, order);
      assert running.value in RunningOf(procs, order);
      ok := SwitchTo(running.value);
    }

    method SwitchTo(id: nat) returns (ok: bool)
      requires id in procs
      modifies this`current, this`space, this`regs
      ensures ok <==> procs[id].state == Running
      ensures ok ==> regs == procs[id].context && space == Some(id) && current == Some(id)
    {
      if procs[id].state != Running {
        return false;
      }
      regs := procs[id].context;
      space := Some(id);
      current := Some(id);
      ok := true;
    }

    method StartProcess(me: nat, image: Option<Regs>) returns (ok: bool)
      requires me in procs
      modifies this`procs, this`current, this`space, this`regs
      ensures ok ==> AfterStart(old(State()), me, image) == Some(State())
      ensures !ok ==> AfterStart(old(State()), me, image).None?
    {
      var slot := Slot(procs[me], regs.rdx);
      if slot.None? {
        return false;
      }
      var item := procs[me].objects[slot.value].value;
      if item.Device? || item.id !in procs || image.None? || procs[item.id].state != Created {
        return false;
      }
      procs := procs[me := procs[me].(context := regs)];
      if procs[me].state != Running {
        return false;
      }
      current := None;
      procs := procs[item.id := procs[item.id].(state := Running, context := image.value)];
      ok := SwitchTo(item.id);
    }

    // What the handle names goes, and all that goes with it.
    method DestroyHeld(me: nat, i: nat) returns (ok: bool)
      requires Valid() && current == Some(me) && me in procs && i < |procs[me].objects|
      modifies this`procs, this`next, this`first, this`order
      ensures ok ==> Linked(next, first, order)
      ensures var gone := DoomedIn1(old(procs), old(order), old(procs)[me].objects[i]);
        if ok then order == Without(old(order), gone) && procs == old(procs) - gone && me in procs
          else Refused(gone, old(procs))
    {
      var slot := procs[me].objects[i];
      WithoutNone(order);
      assert procs - {} == procs;
      ok := true;
      if slot.Some? && slot.value.Process? {
        assert Holds(procs, me, i, slot.value.id);
        ghost var at := ClosesWell(State(), me, i, slot.value.id);
        hide Inv, Forest, Doomed, Without, Distinct, Linked, AllThere;
        assert Distinct(order) by { InvForest(State()); }
        ok := DestroyProcess(slot.value.id, procs, order, at);
      }
    }

    method CloseObject(me: nat) returns (ok: bool)
      requires Valid() && current == Some(me) && me in procs
      modifies this`procs, this`next, this`first, this`order
      ensures ok ==> Linked(next, first, order) && AfterDestroy(old(State()), me) == Some(State())
      ensures !ok ==> AfterDestroy(old(State()), me).None?
    {
      var slot := Slot(procs[me], regs.rdx);
      if slot.None? {
        return false;
      }
      ghost var s := State();
      ghost var gone := DoomedIn1(procs, order, procs[me].objects[slot.value]);
      hide Inv, Linked, Without, DoomedIn1, AfterDestroy;
      ok := DestroyHeld(me, slot.value);
      if ok {
        assert me in s.procs - gone;
        procs := procs[me := WithoutObject(procs[me], slot.value)];
      }
      ClosedAs(s, me, slot.value, gone, State(), ok);
    }

    // Any system call, or the process going on by itself.
    method Handle(call: Call) returns (ok: bool)
      requires Valid()
      modifies this
      ensures ok ==> Valid() && Step(old(State()), call) == Some(State())
      ensures !ok ==> Step(old(State()), call).None?
    {
      ghost var s := State();
      SystemOk(s);
      if current == None {
        return false;
      }
      var me := current.value;
      var rdx := regs.rdx;
      hide AfterExit, AfterDestroy, AfterStart, Opened, Linked, Inv, RunningOf;
      if !call.User? {
        regs := regs.(rax := 0);
        RaxInv(s);
      }
      match call {
        case User(r) =>
          regs := r;
          ok := true;
        case Exit =>
          ok := ExitProcess(me);
        case CreateProcess(id) =>
          if id in procs {
            ok := false;
          } else {
            ok := CreateProcessObject(me, id);
          }
        case CreateDevice(kind) =>
          ok := ObjectOpen(me, Device(kind));
        case Destroy =>
          ok := CloseObject(me);
        case StartExe(image) =>
          ok := StartProcess(me, image);
        case ExitCode =>
          var slot := Slot(procs[me], rdx);
          ok := slot.Some? && procs[me].objects[slot.value].value.Process?;
          if ok {
            var id := procs[me].objects[slot.value].value.id;
            ok := id in procs && procs[id].state == Exited;
            if ok {
              regs := regs.(rax := procs[id].exitCode);
            }
          }
        case Other(rax) =>
          regs := regs.(rax := rax);
          ok := true;
      }
      if ok {
        StepInv(s, call);
      }
    }
  }
}
