/** User processes as the system calls see them: who runs, who holds whom, and where each
    one goes on. */
module Processes {
  import opened Options

  // The registers that the system calls use, and one value for all the others.
  datatype Regs = Regs(rax: nat, rdx: nat, r8: nat, rip: nat, rsp: nat, others: nat)

  const ZERO_REGS := Regs(0, 0, 0, 0, 0, 0)

  datatype ProcState = Created | Running | Exited
  datatype Object = Device(kind: nat) | Process(id: nat)
  datatype Proc = Proc(state: ProcState, context: Regs, exitCode: nat, objects: seq<Option<Object>>)

  const MAX_OBJECTS: nat := 16
  const NO_OBJECTS: seq<Option<Object>> :=
    [None, None, None, None, None, None, None, None, None, None, None, None, None, None, None, None]
  const NEW_PROC := Proc(Created, ZERO_REGS, 0, NO_OBJECTS)

  // `order` lists all processes, the newest first. `space` says whose address space is
  // active, None for the kernel's; `original` is what the first switch saved.
  datatype System = System(procs: map<nat, Proc>, order: seq<nat>, current: Option<nat>, regs: Regs,
    space: Option<nat>, original: Regs)

  // What happens: a system call, or the process running on with other registers. A new
  // process is named by a number that no other has.
  datatype Call =
    | User(regs: Regs)
    | Exit
    | CreateProcess(id: nat)
    | CreateDevice(kind: nat)
    | Destroy
    | StartExe(image: Option<Regs>)
    | ExitCode
    | Other(rax: nat)

  // ----- objects -----

  function FirstFree(objects: seq<Option<Object>>): (i: nat)
    ensures i <= |objects| && (i < |objects| ==> objects[i] == None)
    ensures forall k :: 0 <= k < i ==> objects[k] != None
  {
    if objects == [] || objects[0] == None then 0 else 1 + FirstFree(objects[1..])
  }

  // The slot that `handle` names, when it is valid.
  function Slot(p: Proc, handle: nat): Option<nat> {
    if 1 <= handle <= MAX_OBJECTS && handle <= |p.objects| && p.objects[handle - 1].Some? then Some(handle - 1)
      else None
  }

  predicate Holds(procs: map<nat, Proc>, p: nat, i: nat, q: nat) {
    p in procs && i < |procs[p].objects| && procs[p].objects[i] == Some(Process(q))
  }

  // The processes that go when `id` goes: it, and what those that go hold.
  function Doomed(procs: map<nat, Proc>, order: seq<nat>, id: nat): set<nat> {
    if order == [] then {}
    else
      var older := Doomed(procs, order[1..], id);
      if order[0] == id || exists p, i | p in older && 0 <= i < MAX_OBJECTS :: Holds(procs, p, i, order[0])
      then older + {order[0]} else older
  }

  function Without(order: seq<nat>, gone: set<nat>): seq<nat> {
    if order == [] then []
    else if order[0] in gone then Without(order[1..], gone)
    else [order[0]] + Without(order[1..], gone)
  }

  // Those running, the newest first.
  function RunningOf(procs: map<nat, Proc>, order: seq<nat>): seq<nat> {
    if order == [] then []
    else if order[0] in procs && procs[order[0]].state == Running then [order[0]] + RunningOf(procs, order[1..])
    else RunningOf(procs, order[1..])
  }

  // ----- calls; None when the system halts -----

  function Opened(s: System, me: nat, item: Object): Option<System>
    requires me in s.procs
  {
    var p := s.procs[me];
    var i := FirstFree(p.objects);
    if i == |p.objects| then None
    else Some(s.(procs := s.procs[me := p.(objects := p.objects[i := Some(item)])], regs := s.regs.(rax := i + 1)))
  }

  function Closed(s: System, me: nat, i: nat): System
    requires me in s.procs && i < |s.procs[me].objects|
  {
    s.(procs := s.procs[me := s.procs[me].(objects := s.procs[me].objects[i := None])])
  }

  function AfterExit(s: System, me: nat): Option<System>
    requires me in s.procs
  {
    if s.procs[me].state != Running then None
    else
      var procs := s.procs[me := s.procs[me].(state := Exited, exitCode := s.regs.rdx)];
      var running := RunningOf(procs, s.order);
      if running == [] then Some(s.(procs := procs, current := None, space := None, regs := s.original))
      else if running[0] !in procs then None
      else
        Some(s.(procs := procs, current := Some(running[0]), space := Some(running[0]),
                regs := procs[running[0]].context))
  }

  function AfterDestroy(s: System, me: nat): Option<System>
    requires me in s.procs
  {
    var slot := Slot(s.procs[me], s.regs.rdx);
    if slot.None? then None
    else
      var item := s.procs[me].objects[slot.value].value;
      var s' := Closed(s, me, slot.value);
      if item.Device? then Some(s')
      else
        var gone := Doomed(s'.procs, s'.order, item.id);
        // The destructor's own checks.
        if exists p | p in gone :: p !in s'.procs || s'.procs[p].state == Running || s'.current == Some(p) then None
        else Some(s'.(procs := s'.procs - gone, order := Without(s'.order, gone)))
  }

  function AfterStart(s: System, me: nat, image: Option<Regs>): Option<System>
    requires me in s.procs
  {
    var slot := Slot(s.procs[me], s.regs.rdx);
    if slot.None? then None
    else
      var item := s.procs[me].objects[slot.value].value;
      if item.Device? || item.id !in s.procs || image.None? || s.procs[item.id].state != Created
        || s.procs[me].state != Running then None
      else
        var id := item.id;
        var procs := s.procs[me := s.procs[me].(context := s.regs)];
        var procs' := procs[id := procs[id].(state := Running, context := image.value)];
        Some(s.(procs := procs', current := Some(id), space := Some(id), regs := image.value))
  }

  function Step(s: System, call: Call): Option<System> {
    if s.current.None? || s.current.value !in s.procs then None
    else
      var me := s.current.value;
      var s0 := s.(regs := s.regs.(rax := 0));
      match call
      case User(regs) => Some(s.(regs := regs))
      case Exit => AfterExit(s0, me)
      case CreateProcess(id) =>
        if id in s.procs then None
        else Opened(s0.(procs := s0.procs[id := NEW_PROC], order := [id] + s0.order), me, Process(id))
      case CreateDevice(kind) => Opened(s0, me, Device(kind))
      case Destroy => AfterDestroy(s0, me)
      case StartExe(image) => AfterStart(s0, me, image)
      case ExitCode =>
        var slot := Slot(s.procs[me], s.regs.rdx);
        if slot.None? || s.procs[me].objects[slot.value].value.Device? then None
        else
          var id := s.procs[me].objects[slot.value].value.id;
          if id !in s.procs || s.procs[id].state != Exited then None
          else Some(s0.(regs := s0.regs.(rax := s.procs[id].exitCode)))
      case Other(rax) => Some(s0.(regs := s0.regs.(rax := rax)))
  }

  function Run(s: System, calls: seq<Call>): Option<System>
    decreases |calls|
  {
    if calls == [] then Some(s)
    else
      var t := Step(s, calls[0]);
      if t.None? then None else Run(t.value, calls[1..])
  }

  // The first process is started by the kernel itself.
  function Boot(id: nat, image: Regs, original: Regs): System {
    System(map[id := NEW_PROC.(state := Running, context := image)], [id], Some(id), image, Some(id), original)
  }

  // ----- what every call keeps -----

  predicate Distinct(order: seq<nat>) {
    forall i, j :: 0 <= i < j < |order| ==> order[i] != order[j]
  }

  // `q` is newer than `p`.
  ghost predicate Newer(order: seq<nat>, q: nat, p: nat) {
    exists i, j :: 0 <= i < j < |order| && order[i] == q && order[j] == p
  }

  ghost predicate Listed(procs: map<nat, Proc>, order: seq<nat>) {
    && Distinct(order) && (forall p :: p in procs <==> p in order)
    && forall p :: p in procs ==> |procs[p].objects| == MAX_OBJECTS
  }

  // What a process holds is newer and held by no one else; what has not run holds none.
  ghost predicate Owned(procs: map<nat, Proc>, order: seq<nat>) {
    && (forall p, i, q :: Holds(procs, p, i, q) ==> Newer(order, q, p) && procs[p].state != Created)
    && (forall p, i, p', i', q :: Holds(procs, p, i, q) && Holds(procs, p', i', q) ==> p == p' && i == i')
  }

  // Each running process is held by the one that started it.
  ghost predicate Chain(procs: map<nat, Proc>, running: seq<nat>) {
    forall k :: 0 <= k < |running| - 1 ==> HoldsSome(procs, running[k + 1], running[k])
  }

  ghost predicate HoldsSome(procs: map<nat, Proc>, p: nat, q: nat) {
    exists i :: Holds(procs, p, i, q)
  }

  ghost predicate Inv(s: System) {
    var running := RunningOf(s.procs, s.order);
    && Listed(s.procs, s.order) && Owned(s.procs, s.order) && Chain(s.procs, running)
    && s.current == (if running == [] then None else Some(running[0])) && s.space == s.current
    && (s.current == None ==> s.regs == s.original)
  }

  // ----- running, in the list -----

  lemma {:induction false} RunningIs(procs: map<nat, Proc>, order: seq<nat>)
    ensures forall p :: p in RunningOf(procs, order) <==> p in order && p in procs && procs[p].state == Running
    ensures Distinct(order) ==> Distinct(RunningOf(procs, order))
  {
    if order != [] {
      var rest := order[1..];
      RunningIs(procs, rest);
      assert forall p :: p in order <==> p == order[0] || p in rest;
      assert forall i :: 0 <= i < |rest| ==> rest[i] == order[i + 1];
    }
  }

  // Nothing newer than the newest that runs, runs.
  lemma {:induction false} NewestRuns(procs: map<nat, Proc>, order: seq<nat>, q: nat)
    requires Distinct(order) && RunningOf(procs, order) != [] && Newer(order, q, RunningOf(procs, order)[0])
    ensures q in procs ==> procs[q].state != Running
  {
    var p := RunningOf(procs, order)[0];
    var i, j :| 0 <= i < j < |order| && order[i] == q && order[j] == p;
    if i == 0 {
      RunningIs(procs, order[1..]);
      RunningIs(procs, order);
    } else {
      var rest := order[1..];
      assert rest[i - 1] == q && rest[j - 1] == p;
      RunningIs(procs, rest);
      assert order[0] != p;
      NewestRuns(procs, rest, q);
    }
  }

  lemma {:induction false} SameRunning(procs: map<nat, Proc>, procs': map<nat, Proc>, order: seq<nat>)
    requires forall p :: p in order ==>
      (p in procs && procs[p].state == Running <==> p in procs' && procs'[p].state == Running)
    ensures RunningOf(procs', order) == RunningOf(procs, order)
  {
    if order != [] {
      SameRunning(procs, procs', order[1..]);
    }
  }

  // A process that starts to run, newer than all that run.
  lemma {:induction false} OneMoreRuns(procs: map<nat, Proc>, procs': map<nat, Proc>, order: seq<nat>, q: nat)
    requires Distinct(order) && q in order && q in procs && procs[q].state != Running && q in procs'
    requires procs'[q].state == Running
    requires forall p :: p in order && p != q ==>
      (p in procs && procs[p].state == Running <==> p in procs' && procs'[p].state == Running)
    requires RunningOf(procs, order) != [] ==> Newer(order, q, RunningOf(procs, order)[0])
    ensures RunningOf(procs', order) == [q] + RunningOf(procs, order)
  {
    var rest := order[1..];
    if order[0] == q {
      assert forall i :: 0 <= i < |rest| ==> rest[i] == order[i + 1];
      SameRunning(procs, procs', rest);
    } else {
      NotFirst(procs, order, q);
      OneMoreRuns(procs, procs', rest, q);
    }
  }

  lemma NotFirst(procs: map<nat, Proc>, order: seq<nat>, q: nat)
    requires Distinct(order) && q in order && order[0] != q
    requires RunningOf(procs, order) != [] ==> Newer(order, q, RunningOf(procs, order)[0])
    ensures q in order[1..] && Distinct(order[1..]) && RunningOf(procs, order) == RunningOf(procs, order[1..])
    ensures RunningOf(procs, order) != [] ==> Newer(order[1..], q, RunningOf(procs, order)[0])
  {
    var rest := order[1..];
    assert forall i :: 0 <= i < |rest| ==> rest[i] == order[i + 1];
    if RunningOf(procs, order) != [] {
      var i, j :| 0 <= i < j < |order| && order[i] == q && order[j] == RunningOf(procs, order)[0];
      assert rest[i - 1] == q && rest[j - 1] == order[j];
    }
    assert q in rest;
  }

  // The newest that runs stops.
  lemma {:induction false} OneLessRuns(procs: map<nat, Proc>, procs': map<nat, Proc>, order: seq<nat>)
    requires Distinct(order) && RunningOf(procs, order) != []
    requires var me := RunningOf(procs, order)[0];
      && (me in procs' ==> procs'[me].state != Running)
      && forall p :: p in order && p != me ==>
        (p in procs && procs[p].state == Running <==> p in procs' && procs'[p].state == Running)
    ensures RunningOf(procs', order) == RunningOf(procs, order)[1..]
  {
    var rest := order[1..];
    assert forall i :: 0 <= i < |rest| ==> rest[i] == order[i + 1];
    RunningIs(procs, rest);
    RunningIs(procs, order);
    if order[0] == RunningOf(procs, order)[0] {
      SameRunning(procs, procs', rest);
    } else {
      OneLessRuns(procs, procs', rest);
    }
  }

  // ----- what goes with a process -----

  lemma {:induction false} DoomedIn(procs: map<nat, Proc>, order: seq<nat>, id: nat)
    ensures forall p :: p in Doomed(procs, order, id) ==> p in order
    ensures id in order ==> id in Doomed(procs, order, id)
  {
    if order != [] {
      DoomedIn(procs, order[1..], id);
      assert forall p :: p in order <==> p == order[0] || p in order[1..];
    }
  }

  lemma {:induction false} DoomedNewer(procs: map<nat, Proc>, order: seq<nat>, id: nat, p: nat)
    requires p in Doomed(procs, order, id) && p != id
    ensures Newer(order, p, id)
  {
    var rest := order[1..];
    DoomedIn(procs, rest, id);
    if p in Doomed(procs, rest, id) {
      DoomedNewer(procs, rest, id, p);
      var i, j :| 0 <= i < j < |rest| && rest[i] == p && rest[j] == id;
      assert order[i + 1] == p && order[j + 1] == id;
    } else {
      var h, i :| h in Doomed(procs, rest, id) && 0 <= i < MAX_OBJECTS && Holds(procs, h, i, p);
      if h != id {
        DoomedNewer(procs, rest, id, h);
      }
      var j :| 0 <= j < |rest| && rest[j] == id;
      assert order[0] == p && order[j + 1] == id;
    }
  }

  // Everything that goes, but for `id`, is held by something that goes.
  lemma {:induction false} DoomedHeld(procs: map<nat, Proc>, order: seq<nat>, id: nat, q: nat)
    requires q in Doomed(procs, order, id) && q != id
    ensures exists p, i :: p in Doomed(procs, order, id) && Holds(procs, p, i, q)
  {
    var rest := order[1..];
    if q in Doomed(procs, rest, id) {
      DoomedHeld(procs, rest, id, q);
    }
  }

  /** What goes is closed: whatever a process that goes holds goes too. */
  lemma {:induction false} DoomedClosed(procs: map<nat, Proc>, order: seq<nat>, id: nat, p: nat, i: nat, q: nat)
    requires Distinct(order) && p in Doomed(procs, order, id) && Holds(procs, p, i, q) && Newer(order, q, p)
    requires i < MAX_OBJECTS
    ensures q in Doomed(procs, order, id)
  {
    var rest := order[1..];
    var k, l :| 0 <= k < l < |order| && order[k] == q && order[l] == p;
    assert forall i :: 0 <= i < |rest| ==> rest[i] == order[i + 1];
    assert p in Doomed(procs, rest, id);
    if k > 0 {
      assert rest[k - 1] == q && rest[l - 1] == p;
      DoomedClosed(procs, rest, id, p, i, q);
    }
  }

  lemma {:induction false} WithoutIs(order: seq<nat>, gone: set<nat>)
    ensures forall p :: p in Without(order, gone) <==> p in order && p !in gone
    ensures Distinct(order) ==> Distinct(Without(order, gone))
  {
    if order != [] {
      var rest := order[1..];
      WithoutIs(rest, gone);
      assert forall p :: p in order <==> p == order[0] || p in rest;
      assert forall i :: 0 <= i < |rest| ==> rest[i] == order[i + 1];
    }
  }

  lemma {:induction false} WithoutNewer(order: seq<nat>, gone: set<nat>, q: nat, p: nat)
    requires Newer(order, q, p) && q !in gone && p !in gone
    ensures Newer(Without(order, gone), q, p)
  {
    var rest, t := order[1..], Without(order, gone);
    var i, j :| 0 <= i < j < |order| && order[i] == q && order[j] == p;
    WithoutIs(rest, gone);
    if i == 0 {
      assert rest[j - 1] == p;
      var k :| 0 <= k < |Without(rest, gone)| && Without(rest, gone)[k] == p;
      assert t[0] == q && t[k + 1] == p;
    } else {
      assert rest[i - 1] == q && rest[j - 1] == p;
      WithoutNewer(rest, gone, q, p);
      var k, l :| 0 <= k < l < |Without(rest, gone)| && Without(rest, gone)[k] == q && Without(rest, gone)[l] == p;
      var d := |t| - |Without(rest, gone)|;
      assert t[k + d] == q && t[l + d] == p;
    }
  }

  lemma {:induction false} WithoutRunning(procs: map<nat, Proc>, order: seq<nat>, gone: set<nat>)
    requires forall p :: p in gone && p in procs ==> procs[p].state != Running
    ensures RunningOf(procs - gone, Without(order, gone)) == RunningOf(procs, order)
  {
    if order != [] {
      WithoutRunning(procs, order[1..], gone);
    }
  }

  lemma NewerTrans(order: seq<nat>, r: nat, q: nat, p: nat)
    requires Distinct(order) && Newer(order, r, q) && Newer(order, q, p)
    ensures Newer(order, r, p)
  {
  }

  // ----- each call -----

  // Nothing that runs is touched when processes' objects and contexts change.
  lemma ChainKept(procs: map<nat, Proc>, procs': map<nat, Proc>, running: seq<nat>)
    requires Chain(procs, running)
    requires forall p, i, q :: p in running && Holds(procs, p, i, q) && q in running ==> Holds(procs', p, i, q)
    ensures Chain(procs', running)
  {
    forall k | 0 <= k < |running| - 1
      ensures HoldsSome(procs', running[k + 1], running[k])
    {
      assert HoldsSome(procs, running[k + 1], running[k]);
      var i :| Holds(procs, running[k + 1], i, running[k]);
      assert Holds(procs', running[k + 1], i, running[k]);
    }
  }

  ghost predicate Leads(t: Option<System>, running: seq<nat>) {
    t.Some? ==> Inv(t.value) && RunningOf(t.value.procs, t.value.order) == running
  }

  lemma ExitKeeps(s: System, me: nat)
    requires Inv(s) && s.current == Some(me)
    ensures RunningOf(s.procs, s.order) != [] && me in s.procs && AfterExit(s, me).Some?
    ensures Leads(AfterExit(s, me), RunningOf(s.procs, s.order)[1..])
  {
    var running := RunningOf(s.procs, s.order);
    RunningIs(s.procs, s.order);
    var procs := s.procs[me := s.procs[me].(state := Exited, exitCode := s.regs.rdx)];
    OneLessRuns(s.procs, procs, s.order);
    RunningIs(procs, s.order);
    ExitKeepsHeld(s.procs, procs, s.order, running, me);
    hide Owned, Chain, RunningOf, Holds, Listed;
  }

  lemma ExitKeepsHeld(procs: map<nat, Proc>, procs': map<nat, Proc>, order: seq<nat>, running: seq<nat>, me: nat)
    requires Listed(procs, order) && Owned(procs, order) && Chain(procs, running) && running != [] && me in procs
    requires me in procs' && procs' == procs[me := procs'[me]] && procs'[me].objects == procs[me].objects
    requires procs'[me].state == Exited
    ensures Listed(procs', order) && Owned(procs', order) && Chain(procs', running[1..])
  {
    assert forall p, i, q :: Holds(procs', p, i, q) <==> Holds(procs, p, i, q);
    ListedSame(procs, procs', order);
    ShorterChain(procs, running);
    ChainKept(procs, procs', running[1..]);
    hide Chain, Listed;
  }

  lemma ListedSame(procs: map<nat, Proc>, procs': map<nat, Proc>, order: seq<nat>)
    requires Listed(procs, order) && procs'.Keys == procs.Keys
    requires forall p :: p in procs' ==> |procs'[p].objects| == |procs[p].objects|
    ensures Listed(procs', order)
  {
  }

  lemma ShorterChain(procs: map<nat, Proc>, running: seq<nat>)
    requires running != [] && Chain(procs, running)
    ensures Chain(procs, running[1..])
  {
    var t := running[1..];
    forall k | 0 <= k < |t| - 1
      ensures HoldsSome(procs, t[k + 1], t[k])
    {
      assert HoldsSome(procs, running[k + 2], running[k + 1]);
    }
  }

  // The same processes, running alike and holding alike.
  ghost predicate Alike(procs: map<nat, Proc>, procs': map<nat, Proc>) {
    && (forall p :: p in procs' <==> p in procs)
    && (forall p :: p in procs ==> procs'[p].state == procs[p].state && |procs'[p].objects| == |procs[p].objects|)
    && (forall p, i, q :: Holds(procs', p, i, q) <==> Holds(procs, p, i, q))
  }

  lemma AlikeKeeps(s: System, t: System)
    requires Inv(s) && Alike(s.procs, t.procs) && t.order == s.order && t.current == s.current && t.space == s.space
    requires s.current != None
    ensures Inv(t) && RunningOf(t.procs, t.order) == RunningOf(s.procs, s.order)
  {
    SameRunning(s.procs, t.procs, s.order);
    var running := RunningOf(s.procs, s.order);
    assert Chain(t.procs, running) by {
      ChainKept(s.procs, t.procs, running);
    }
    assert Owned(t.procs, t.order);
    hide RunningOf, Chain;
  }

  lemma DeviceKeeps(s: System, me: nat, kind: nat)
    requires Inv(s) && s.current == Some(me) && me in s.procs
    ensures Leads(Opened(s, me, Device(kind)), RunningOf(s.procs, s.order))
  {
    var t := Opened(s, me, Device(kind));
    if t.Some? {
      assert Alike(s.procs, t.value.procs);
      AlikeKeeps(s, t.value);
    }
    hide Inv, RunningOf;
  }

  lemma CreateKeeps(s: System, me: nat, id: nat)
    requires Inv(s) && s.current == Some(me) && me in s.procs && id !in s.procs
    ensures Leads(Opened(s.(procs := s.procs[id := NEW_PROC], order := [id] + s.order), me, Process(id)),
      RunningOf(s.procs, s.order))
  {
    var s1 := s.(procs := s.procs[id := NEW_PROC], order := [id] + s.order);
    var t := Opened(s1, me, Process(id));
    if t.Some? {
      RunningIs(s.procs, s.order);
      var i := FirstFree(s.procs[me].objects);
      BornHolds(s.procs, t.value.procs, me, i, id);
      hide Holds, Owned, Listed, Chain;
      BornKeeps(s.procs, t.value.procs, s.order, me, i, id);
    }
  }

  lemma BornKeeps(procs: map<nat, Proc>, procs': map<nat, Proc>, order: seq<nat>, me: nat, i: nat, id: nat)
    requires Listed(procs, order) && Owned(procs, order) && Chain(procs, RunningOf(procs, order)) && me in procs
    requires id !in procs
    requires procs'.Keys == procs.Keys + {id} && procs'[id].state == Created && procs[me].state == Running
    requires forall p :: p in procs' ==> |procs'[p].objects| == MAX_OBJECTS
    requires forall p :: p in procs ==> procs'[p].state == procs[p].state
    requires forall p, k, q :: Holds(procs', p, k, q) <==> Holds(procs, p, k, q) || (p == me && k == i && q == id)
    ensures Listed(procs', [id] + order) && Owned(procs', [id] + order)
    ensures RunningOf(procs', [id] + order) == RunningOf(procs, order) && Chain(procs', RunningOf(procs, order))
  {
    BornListed(procs, procs', order, id);
    BornOwned(procs, procs', order, me, i, id);
    assert ([id] + order)[1..] == order;
    SameRunning(procs, procs', order);
    ChainKept(procs, procs', RunningOf(procs, order));
  }

  lemma BornHolds(procs: map<nat, Proc>, procs': map<nat, Proc>, me: nat, i: nat, id: nat)
    requires me in procs && id !in procs && i < |procs[me].objects| && procs[me].objects[i] == None
    requires procs' == procs[id := NEW_PROC][me := procs[me].(objects := procs[me].objects[i := Some(Process(id))])]
    ensures forall p, k, q :: Holds(procs', p, k, q) <==> Holds(procs, p, k, q) || (p == me && k == i && q == id)
  {
  }

  lemma BornListed(procs: map<nat, Proc>, procs': map<nat, Proc>, order: seq<nat>, id: nat)
    requires Listed(procs, order) && id !in procs && procs'.Keys == procs.Keys + {id}
    requires forall p :: p in procs' ==> |procs'[p].objects| == MAX_OBJECTS
    ensures Listed(procs', [id] + order)
  {
    var t := [id] + order;
    assert forall i :: 0 <= i < |order| ==> order[i] in order;
    assert forall i :: 1 <= i < |t| ==> t[i] == order[i - 1] && t[i] != id;
    forall p
      ensures p in procs' <==> p in t
    {
    }
  }

  lemma BornOwned(procs: map<nat, Proc>, procs': map<nat, Proc>, order: seq<nat>, me: nat, i: nat, id: nat)
    requires Listed(procs, order) && Owned(procs, order) && me in procs && id !in procs
    requires forall p, k, q :: Holds(procs', p, k, q) <==> Holds(procs, p, k, q) || (p == me && k == i && q == id)
    requires forall p :: p in procs ==> p in procs' && procs'[p].state == procs[p].state
    requires procs[me].state == Running
    ensures Owned(procs', [id] + order)
  {
    var t := [id] + order;
    forall p, k, q | Holds(procs', p, k, q)
      ensures Newer(t, q, p) && procs'[p].state != Created
    {
      if Holds(procs, p, k, q) {
        var i, j :| 0 <= i < j < |order| && order[i] == q && order[j] == p;
        assert t[i + 1] == q && t[j + 1] == p;
      } else {
        var j :| 0 <= j < |order| && order[j] == me;
        assert t[0] == id && t[j + 1] == me;
      }
    }
    forall p, k, q | Holds(procs, p, k, q)
      ensures q != id
    {
      assert Newer(order, q, p);
      assert q in order;
    }
  }

  // A process that `me` holds is newer than all that run.
  lemma HeldIsIdle(s: System, me: nat, i: nat, id: nat)
    requires Inv(s) && s.current == Some(me) && Holds(s.procs, me, i, id)
    ensures RunningOf(s.procs, s.order) != [] && RunningOf(s.procs, s.order)[0] == me
    ensures id in s.procs && id in s.order && s.procs[id].state != Running && Newer(s.order, id, me)
  {
    assert Newer(s.order, id, me);
    NewestRuns(s.procs, s.order, id);
    assert id in s.order;
  }

  lemma StartKeeps(s: System, me: nat, image: Option<Regs>)
    requires Inv(s) && s.current == Some(me) && me in s.procs
    ensures AfterStart(s, me, image).Some? ==>
      var slot := Slot(s.procs[me], s.regs.rdx);
      slot.Some? && s.procs[me].objects[slot.value].value.Process? &&
      var id := s.procs[me].objects[slot.value].value.id;
      Leads(AfterStart(s, me, image), [id] + RunningOf(s.procs, s.order))
  {
    var t := AfterStart(s, me, image);
    if t.Some? {
      var i := Slot(s.procs[me], s.regs.rdx).value;
      var id := s.procs[me].objects[i].value.id;
      var running := RunningOf(s.procs, s.order);
      assert Holds(s.procs, me, i, id);
      HeldIsIdle(s, me, i, id);
      var procs' := t.value.procs;
      assert forall p, k, q :: Holds(procs', p, k, q) <==> Holds(s.procs, p, k, q);
      OneMoreRuns(s.procs, procs', s.order, id);
      assert Owned(procs', s.order);
      ChainKept(s.procs, procs', running);
      assert Holds(procs', me, i, id);
      LongerChain(procs', running, id);
    }
    hide Owned, Chain, RunningOf, Holds;
  }

  lemma LongerChain(procs: map<nat, Proc>, running: seq<nat>, id: nat)
    requires running != [] && Chain(procs, running) && HoldsSome(procs, running[0], id)
    ensures Chain(procs, [id] + running)
  {
    var t := [id] + running;
    forall k | 0 <= k < |t| - 1
      ensures HoldsSome(procs, t[k + 1], t[k])
    {
      if k > 0 {
        assert HoldsSome(procs, running[k], running[k - 1]);
      }
    }
  }

  // Once the slot is cleared, nothing holds the process that goes.
  lemma ClosedKeeps(s: System, me: nat, i: nat)
    requires Inv(s) && s.current == Some(me) && me in s.procs && i < |s.procs[me].objects|
    requires s.procs[me].objects[i].Some?
    ensures var t := Closed(s, me, i);
      && Inv(t) && RunningOf(t.procs, t.order) == RunningOf(s.procs, s.order)
      && (s.procs[me].objects[i].value.Process? ==>
        forall p, k :: !Holds(t.procs, p, k, s.procs[me].objects[i].value.id))
  {
    var t := Closed(s, me, i);
    var item := s.procs[me].objects[i].value;
    var running := RunningOf(s.procs, s.order);
    SlotCleared(s.procs, t.procs, me, i);
    SameRunning(s.procs, t.procs, s.order);
    if item.Process? {
      assert Holds(s.procs, me, i, item.id);
      HeldIsIdle(s, me, i, item.id);
    }
    RunningIs(s.procs, s.order);
    ListedSame(s.procs, t.procs, s.order);
    assert Owned(t.procs, t.order);
    ChainKept(s.procs, t.procs, running);
    hide Owned, Listed, Chain, RunningOf;
  }

  lemma SlotCleared(procs: map<nat, Proc>, procs': map<nat, Proc>, me: nat, i: nat)
    requires me in procs && i < |procs[me].objects|
    requires procs' == procs[me := procs[me].(objects := procs[me].objects[i := None])]
    ensures forall p, k, q :: Holds(procs', p, k, q) <==> Holds(procs, p, k, q) && !(p == me && k == i)
  {
  }

  // Taking out what is doomed, when nothing else holds `id`.
  lemma GoneKeeps(s: System, me: nat, id: nat)
    requires Inv(s) && s.current == Some(me) && Newer(s.order, id, me) && forall p, k :: !Holds(s.procs, p, k, id)
    ensures var gone := Doomed(s.procs, s.order, id);
      && (forall p :: p in gone ==> p in s.procs && s.procs[p].state != Running && p != me)
      && Leads(Some(s.(procs := s.procs - gone, order := Without(s.order, gone))), RunningOf(s.procs, s.order))
  {
    var gone := Doomed(s.procs, s.order, id);
    var procs', order' := s.procs - gone, Without(s.order, gone);
    var running := RunningOf(s.procs, s.order);
    DoomedIdle(s, me, id);
    assert forall p :: p in running ==> p !in gone by { RunningIs(s.procs, s.order); }
    GoneOwned(s.procs, s.order, id);
    WithoutRunning(s.procs, s.order, gone);
    WithoutIs(s.order, gone);
    assert Listed(procs', order');
    assert Chain(procs', running) by {
      assert forall p, i, q :: p in running && Holds(s.procs, p, i, q) && q in running ==> Holds(procs', p, i, q);
      ChainKept(s.procs, procs', running);
    }
    hide *;
    InvOf(s.(procs := procs', order := order'), s, running);
  }

  lemma InvOf(t: System, s: System, running: seq<nat>)
    requires Inv(s) && running == RunningOf(s.procs, s.order) && running == RunningOf(t.procs, t.order)
    requires Listed(t.procs, t.order) && Owned(t.procs, t.order) && Chain(t.procs, running)
    requires t.current == s.current && t.space == s.space && t.regs == s.regs && t.original == s.original
    ensures Leads(Some(t), running)
  {
  }

  lemma DoomedIdle(s: System, me: nat, id: nat)
    requires Inv(s) && s.current == Some(me) && Newer(s.order, id, me)
    ensures forall p :: p in Doomed(s.procs, s.order, id) ==> p in s.procs && s.procs[p].state != Running && p != me
  {
    DoomedIn(s.procs, s.order, id);
    forall p | p in Doomed(s.procs, s.order, id)
      ensures p in s.procs && s.procs[p].state != Running && p != me
    {
      if p != id {
        DoomedNewer(s.procs, s.order, id, p);
        NewerTrans(s.order, p, id, me);
      }
      NewestRuns(s.procs, s.order, p);
    }
  }

  lemma GoneOwned(procs: map<nat, Proc>, order: seq<nat>, id: nat)
    requires Owned(procs, order) && forall p, k :: !Holds(procs, p, k, id)
    ensures var gone := Doomed(procs, order, id); Owned(procs - gone, Without(order, gone))
  {
    var gone := Doomed(procs, order, id);
    forall p, i, q | Holds(procs - gone, p, i, q)
      ensures Holds(procs, p, i, q) && Newer(Without(order, gone), q, p)
    {
      assert Holds(procs, p, i, q);
      if q in gone {
        DoomedHeld(procs, order, id, q);
      }
      WithoutNewer(order, gone, q, p);
    }
  }

  /** Closing a handle never meets the destructor's checks: of all that goes with it,
      nothing runs. */
  lemma DestroyKeeps(s: System, me: nat)
    requires Inv(s) && s.current == Some(me) && me in s.procs
    ensures AfterDestroy(s, me).None? <==> Slot(s.procs[me], s.regs.rdx).None?
    ensures Leads(AfterDestroy(s, me), RunningOf(s.procs, s.order))
  {
    var slot := Slot(s.procs[me], s.regs.rdx);
    if slot.Some? {
      var item := s.procs[me].objects[slot.value].value;
      ClosedKeeps(s, me, slot.value);
      if item.Process? {
        assert Holds(s.procs, me, slot.value, item.id);
        assert Newer(s.order, item.id, me);
        GoneKeeps(Closed(s, me, slot.value), me, item.id);
      }
    }
    hide Inv, RunningOf, Doomed, Without, Newer, Holds;
  }

  // ----- the whole step -----

  // What a call does to the processes that run: one starts, the newest ends, or they stay.
  function RunningAfter(s: System, call: Call): seq<nat>
    requires s.current.Some? && s.current.value in s.procs
  {
    var running := RunningOf(s.procs, s.order);
    var me := s.procs[s.current.value];
    match call
    case Exit => if running == [] then [] else running[1..]
    case StartExe(_) =>
      var slot := Slot(me, s.regs.rdx);
      if slot.None? || me.objects[slot.value].value.Device? then running
        else [me.objects[slot.value].value.id] + running
    case _ => running
  }

  /** Every call keeps the invariant: the processes that run form a chain of starters, the
      newest of them is the current one, and its address space is active. */
  lemma StepKeeps(s: System, call: Call)
    requires Inv(s) && Step(s, call).Some?
    ensures s.current.Some? && s.current.value in s.procs
    ensures Leads(Step(s, call), RunningAfter(s, call))
  {
    var s0 := s.(regs := s.regs.(rax := 0));
    var me := s.current.value;
    SameInv(s, s0);
    RunningIs(s.procs, s.order);
    match call
    case User(regs) => SameInv(s, s.(regs := regs));
    case Exit => ExitKeeps(s0, me);
    case CreateProcess(id) => if id !in s.procs { CreateKeeps(s0, me, id); }
    case CreateDevice(kind) => DeviceKeeps(s0, me, kind);
    case Destroy => DestroyKeeps(s0, me);
    case StartExe(image) => StartKeeps(s0, me, image);
    case ExitCode => SameInv(s, Step(s, call).value);
    case Other(rax) => SameInv(s, s0.(regs := s0.regs.(rax := rax)));
    hide Inv, AfterExit, AfterDestroy, AfterStart, Opened, RunningOf;
  }

  lemma SameInv(s: System, t: System)
    requires Inv(s) && s.current.Some? && t == s.(regs := t.regs)
    ensures Leads(Some(t), RunningOf(s.procs, s.order))
  {
    hide RunningOf, Listed, Owned, Chain;
  }

  // ----- who goes on where -----

  // A process that waits for the one it started, and the registers it will go on with.
  datatype Frame = Frame(id: nat, regs: Regs)

  function FramesOf(procs: map<nat, Proc>, running: seq<nat>): seq<Frame> {
    if |running| < 2 || running[1] !in procs then []
    else [Frame(running[1], procs[running[1]].context)] + FramesOf(procs, running[1..])
  }

  // All that wait, the newest first.
  function Frames(s: System): seq<Frame> {
    FramesOf(s.procs, RunningOf(s.procs, s.order))
  }

  lemma {:induction false} SameFrames(procs: map<nat, Proc>, procs': map<nat, Proc>, running: seq<nat>)
    requires forall p :: p in running[if |running| > 0 then 1 else 0..] ==>
      p in procs && p in procs' && procs'[p].context == procs[p].context
    ensures FramesOf(procs', running) == FramesOf(procs, running)
  {
    if |running| >= 2 {
      assert running[1] in running[1..];
      assert forall p :: p in running[1..][1..] ==> p in running[1..];
      SameFrames(procs, procs', running[1..]);
    }
  }

  lemma {:induction false} FramesOfLength(procs: map<nat, Proc>, running: seq<nat>)
    requires forall p :: p in running ==> p in procs
    ensures running != [] ==> |FramesOf(procs, running)| == |running| - 1
  {
    if |running| >= 2 {
      FramesOfLength(procs, running[1..]);
    }
  }

  /** Starting a process makes the starter wait with the registers it had, a result of
      zero in rax; an exit goes on with what waits first, or with the original context when
      nothing waits; no other call changes who waits, or for what. */
  lemma StepFrames(s: System, call: Call)
    requires Inv(s) && Step(s, call).Some?
    ensures s.current.Some?
    ensures var t := Step(s, call).value;
      if call.StartExe? then Frames(t) == [Frame(s.current.value, s.regs.(rax := 0))] + Frames(s)
      else if !call.Exit? then t.current == s.current && Frames(t) == Frames(s)
      else if Frames(s) == [] then t.current == None && t.regs == s.original && Frames(t) == []
      else t.current == Some(Frames(s)[0].id) && t.regs == Frames(s)[0].regs && Frames(t) == Frames(s)[1..]
  {
    StepKeeps(s, call);
    RunningIs(s.procs, s.order);
    var running := RunningOf(s.procs, s.order);
    if call.StartExe? {
      StartContexts(s, call.image);
    } else {
      StepContexts(s, call);
      assert forall p :: p in running[1..] ==> p in running;
      SameFrames(s.procs, Step(s, call).value.procs, running);
      if call.Exit? {
        FramesOfLength(s.procs, running);
        ExitRegs(s);
      }
    }
    hide Step, RunningOf, Listed, Owned, Chain;
  }

  lemma ExitRegs(s: System)
    requires Inv(s) && Step(s, Exit).Some?
    ensures var t := Step(s, Exit).value;
      t.regs == if t.current.Some? && t.current.value in t.procs then t.procs[t.current.value].context else s.original
  {
    hide RunningOf, Listed, Owned, Chain;
  }

  // Only starting a process changes where a running one goes on.
  lemma StepContexts(s: System, call: Call)
    requires Inv(s) && Step(s, call).Some? && !call.StartExe?
    ensures forall p :: p in RunningOf(s.procs, s.order) ==>
      p in s.procs && p in Step(s, call).value.procs && Step(s, call).value.procs[p].context == s.procs[p].context
  {
    RunningIs(s.procs, s.order);
    if call.Destroy? {
      DestroyContexts(s);
    }
    hide RunningOf, Owned, Chain, Doomed, Without, Listed, FirstFree;
  }

  lemma DestroyContexts(s: System)
    requires Inv(s) && Step(s, Destroy).Some?
    ensures forall p :: p in RunningOf(s.procs, s.order) ==>
      p in s.procs && p in Step(s, Destroy).value.procs && Step(s, Destroy).value.procs[p].context == s.procs[p].context
  {
    var t := Step(s, Destroy).value;
    StepKeeps(s, Destroy);
    RunningIs(t.procs, t.order);
    RunningIs(s.procs, s.order);
    hide RunningOf, Owned, Chain, Without, Listed, Doomed;
  }

  lemma StartContexts(s: System, image: Option<Regs>)
    requires Inv(s) && Step(s, StartExe(image)).Some?
    ensures s.current.Some?
    ensures Frames(Step(s, StartExe(image)).value) == [Frame(s.current.value, s.regs.(rax := 0))] + Frames(s)
  {
    StepKeeps(s, StartExe(image));
    RunningIs(s.procs, s.order);
    var t := Step(s, StartExe(image)).value;
    var me, running := s.current.value, RunningOf(s.procs, s.order);
    StartRegs(s, image);
    var id := t.current.value;
    assert ([id] + running)[1..] == running;
    assert forall p :: p in running[1..] ==> p in running && p != me;
    hide Step, RunningOf, Listed, Owned, Chain;
    SameFrames(s.procs, t.procs, running);
  }

  lemma StartRegs(s: System, image: Option<Regs>)
    requires Inv(s) && Step(s, StartExe(image)).Some?
    ensures var t := Step(s, StartExe(image)).value;
      && s.current.Some? && s.current.value in t.procs && t.procs[s.current.value].context == s.regs.(rax := 0)
      && t.current.Some? && t.current.value in s.procs && s.procs[t.current.value].state != Running
      && forall p :: p in s.procs && p != s.current.value && p != t.current.value ==>
        p in t.procs && t.procs[p].context == s.procs[p].context
  {
    hide RunningOf, Listed, Owned, Chain;
    assert s.current.Some?;
    RunningIs(s.procs, s.order);
  }

  // In a run, at least so many wait at every moment.
  predicate Above(s: System, calls: seq<Call>, depth: nat)
    decreases |calls|
  {
    |Frames(s)| >= depth
      && (calls != [] && Step(s, calls[0]).Some? ==> Above(Step(s, calls[0]).value, calls[1..], depth))
  }

  lemma {:induction false} RunKeeps(s: System, calls: seq<Call>)
    requires Inv(s)
    ensures Run(s, calls).Some? ==> Inv(Run(s, calls).value)
    decreases |calls|
  {
    if calls != [] && Step(s, calls[0]).Some? {
      StepKeeps(s, calls[0]);
      hide Step, Inv;
      RunKeeps(Step(s, calls[0]).value, calls[1..]);
    }
  }

  // While at least so many wait, the oldest of them wait unchanged.
  lemma {:induction false} OldestWait(s: System, calls: seq<Call>, depth: nat)
    requires Inv(s) && Above(s, calls, depth) && Run(s, calls).Some?
    ensures var t := Run(s, calls).value;
      && |Frames(t)| >= depth && |Frames(s)| >= depth
      && Frames(t)[|Frames(t)| - depth..] == Frames(s)[|Frames(s)| - depth..]
    decreases |calls|
  {
    hide *;
    OneCall(s, calls, depth);
    if calls != [] {
      var s' := Step(s, calls[0]).value;
      InvAfter(s, calls[0]);
      StepTail(s, calls[0], depth);
      OldestWait(s', calls[1..], depth);
    }
  }

  lemma InvAfter(s: System, call: Call)
    requires Inv(s) && Step(s, call).Some?
    ensures Inv(Step(s, call).value)
  {
    StepKeeps(s, call);
    hide Inv, Step, RunningOf, RunningAfter;
  }

  lemma OneCall(s: System, calls: seq<Call>, depth: nat)
    requires Above(s, calls, depth) && Run(s, calls).Some?
    ensures |Frames(s)| >= depth && (calls == [] ==> Run(s, calls) == Some(s))
    ensures calls != [] ==>
      Step(s, calls[0]).Some?
      && var s' := Step(s, calls[0]).value; Run(s, calls) == Run(s', calls[1..]) && Above(s', calls[1..], depth)
  {
    hide Step, Frames;
  }

  lemma StepTail(s: System, call: Call, depth: nat)
    requires Inv(s) && Step(s, call).Some? && |Frames(s)| >= depth
    ensures var t := Step(s, call).value;
      |Frames(t)| >= depth ==> Frames(t)[|Frames(t)| - depth..] == Frames(s)[|Frames(s)| - depth..]
  {
    hide *;
    StepFrames(s, call);
    var a, b := Frames(s), Frames(Step(s, call).value);
    if |b| >= depth {
      if call.StartExe? {
        PushTail(Frame(s.current.value, s.regs.(rax := 0)), a, depth);
      } else if call.Exit? && a != [] {
        PopTail(a, depth);
      }
    }
  }

  lemma PushTail(f: Frame, a: seq<Frame>, depth: nat)
    requires |a| >= depth
    ensures ([f] + a)[1 + |a| - depth..] == a[|a| - depth..]
  {
  }

  lemma PopTail(a: seq<Frame>, depth: nat)
    requires a != [] && |a| - 1 >= depth
    ensures a[1..][|a| - 1 - depth..] == a[|a| - depth..]
  {
  }

  /** Whatever a started process does, and whatever the processes do that it starts: when
      it exits, the process that started it goes on, with the registers it had then and
      zero in rax. */
  lemma ExitResumesStarter(s: System, image: Option<Regs>, calls: seq<Call>)
    requires Inv(s) && Step(s, StartExe(image)).Some?
    requires var s1 := Step(s, StartExe(image)).value;
      && Run(s1, calls).Some? && Above(s1, calls, |Frames(s1)|)
      && |Frames(Run(s1, calls).value)| == |Frames(s1)| && Step(Run(s1, calls).value, Exit).Some?
    ensures var t := Step(Run(Step(s, StartExe(image)).value, calls).value, Exit).value;
      t.current == s.current && t.current.Some? && t.regs == s.regs.(rax := 0) && Frames(t) == Frames(s)
  {
    var s1 := Step(s, StartExe(image)).value;
    StepKeeps(s, StartExe(image));
    StepFrames(s, StartExe(image));
    RunKeeps(s1, calls);
    OldestWait(s1, calls, |Frames(s1)|);
    StepFrames(Run(s1, calls).value, Exit);
    hide Step, Inv, Frames, Run, Above;
  }

  /** The original context comes back exactly when no process is left running. */
  lemma OriginalExactly(id: nat, image: Regs, original: Regs, calls: seq<Call>)
    ensures var t := Run(Boot(id, image, original), calls); t.Some? ==>
      && Inv(t.value)
      && (t.value.current == None <==> forall p :: p in t.value.procs ==> t.value.procs[p].state != Running)
      && (t.value.current == None ==> t.value.regs == original && t.value.space == None)
  {
    var s := Boot(id, image, original);
    BootInv(id, image, original);
    RunKeeps(s, calls);
    RunOriginal(s, calls);
    if Run(s, calls).Some? {
      var t := Run(s, calls).value;
      var running := RunningOf(t.procs, t.order);
      RunningIs(t.procs, t.order);
      assert running != [] ==> running[0] in running;
      hide Run, Boot, Owned, Chain, RunningOf;
    }
  }

  lemma {:induction false} RunOriginal(s: System, calls: seq<Call>)
    ensures Run(s, calls).Some? ==> Run(s, calls).value.original == s.original
    decreases |calls|
  {
    if calls != [] && Step(s, calls[0]).Some? {
      StepOriginal(s, calls[0]);
      hide Step;
      RunOriginal(Step(s, calls[0]).value, calls[1..]);
    }
  }

  lemma StepOriginal(s: System, call: Call)
    ensures Step(s, call).Some? ==> Step(s, call).value.original == s.original
  {
    hide RunningOf, Doomed, Without, FirstFree;
  }

  lemma BootInv(id: nat, image: Regs, original: Regs)
    ensures Inv(Boot(id, image, original))
  {
    var s := Boot(id, image, original);
    assert RunningOf(s.procs, s.order) == [id];
    assert forall p, i, q :: !Holds(s.procs, p, i, q);
  }

  /** Closing the handle of a process that has not been started undoes its creation. */
  lemma CloseUndoesCreate(s: System, id: nat)
    requires Inv(s) && Step(s, CreateProcess(id)).Some?
    ensures var t := Step(s, CreateProcess(id)).value;
      var u := Step(t.(regs := t.regs.(rdx := t.regs.rax)), Destroy);
      u.Some? && u.value.procs == s.procs && u.value.order == s.order && u.value.current == s.current
        && u.value.space == s.space
  {
    StepKeeps(s, CreateProcess(id));
    RunningIs(s.procs, s.order);
    var t := Step(s, CreateProcess(id)).value;
    var me := s.current.value;
    var i := FirstFree(s.procs[me].objects);
    var objects := s.procs[me].objects;
    assert t ==
      s.(procs := s.procs[id := NEW_PROC][me := s.procs[me].(objects := objects[i := Some(Process(id))])],
         order := [id] + s.order, regs := t.regs);
    assert t.regs.rax == i + 1 && id !in s.procs && i < |objects| && me in s.procs && |objects| == MAX_OBJECTS;
    var u := t.(regs := t.regs.(rdx := t.regs.rax));
    SameInv(t, u);
    assert forall p :: p in s.procs <==> p in s.order;
    hide Inv, RunningOf, Doomed, Without, Opened, FirstFree, AfterDestroy, Step;
    ClosesNew(s, u, me, i, id);
  }

  lemma ClosesNew(s: System, u: System, me: nat, i: nat, id: nat)
    requires Inv(u) && u.current == s.current == Some(me) && u.space == s.space && id !in s.procs && me in s.procs
    requires i < |s.procs[me].objects| == MAX_OBJECTS && s.procs[me].objects[i] == None && u.regs.rdx == i + 1
    requires u.procs ==
      s.procs[id := NEW_PROC][me := s.procs[me].(objects := s.procs[me].objects[i := Some(Process(id))])]
    requires u.order == [id] + s.order && forall p :: p in s.procs <==> p in s.order
    ensures var t := Step(u, Destroy);
      t.Some? && t.value.procs == s.procs && t.value.order == s.order && t.value.current == s.current
        && t.value.space == s.space
  {
    PutBack(s.procs, me, i, id);
    NewGoesAlone(s.procs, s.order, id);
    NewCloses(u, me, i, id);
    var u0 := u.(regs := u.regs.(rax := 0));
    assert Closed(u0, me, i).procs == s.procs[id := NEW_PROC];
    hide *;
    DestroyIs(u0, me, i, id, s.procs[id := NEW_PROC]);
  }

  lemma NewCloses(u: System, me: nat, i: nat, id: nat)
    requires Inv(u) && u.current == Some(me) && me in u.procs && i < |u.procs[me].objects| == MAX_OBJECTS
    requires u.procs[me].objects[i] == Some(Process(id)) && u.regs.rdx == i + 1
    ensures var u0 := u.(regs := u.regs.(rax := 0));
      Slot(u0.procs[me], u0.regs.rdx) == Some(i) && AfterDestroy(u0, me).Some?
        && Step(u, Destroy) == AfterDestroy(u0, me)
  {
    var u0 := u.(regs := u.regs.(rax := 0));
    SameInv(u, u0);
    hide Inv, RunningOf, AfterDestroy;
    DestroyKeeps(u0, me);
  }

  lemma DestroyIs(s: System, me: nat, i: nat, id: nat, procs: map<nat, Proc>)
    requires me in s.procs && Slot(s.procs[me], s.regs.rdx) == Some(i) && s.procs[me].objects[i] == Some(Process(id))
    requires procs == Closed(s, me, i).procs && AfterDestroy(s, me).Some?
    ensures var gone := Doomed(procs, s.order, id);
      AfterDestroy(s, me) == Some(s.(procs := procs - gone, order := Without(s.order, gone)))
  {
    hide Doomed, Without;
  }

  lemma PutBack(procs: map<nat, Proc>, me: nat, i: nat, id: nat)
    requires me in procs && id !in procs && i < |procs[me].objects| && procs[me].objects[i] == None
    ensures var p := procs[me];
      var held := procs[id := NEW_PROC][me := p.(objects := p.objects[i := Some(Process(id))])];
      held[me := held[me].(objects := held[me].objects[i := None])] == procs[id := NEW_PROC]
    ensures procs[id := NEW_PROC] - {id} == procs
  {
    var objects := procs[me].objects;
    assert objects[i := Some(Process(id))][i := None] == objects;
  }

  lemma NewGoesAlone(procs: map<nat, Proc>, order: seq<nat>, id: nat)
    requires id !in procs && forall p :: p in procs <==> p in order
    ensures Doomed(procs[id := NEW_PROC], [id] + order, id) == {id}
    ensures Without([id] + order, {id}) == order
  {
    assert ([id] + order)[1..] == order;
    NoneDoomed(procs[id := NEW_PROC], order, id);
    NoneGone(order, id);
  }

  lemma {:induction false} NoneDoomed(procs: map<nat, Proc>, order: seq<nat>, id: nat)
    requires id !in order
    ensures Doomed(procs, order, id) == {}
  {
    if order != [] {
      NoneDoomed(procs, order[1..], id);
    }
  }

  lemma {:induction false} NoneGone(order: seq<nat>, id: nat)
    requires id !in order
    ensures Without(order, {id}) == order
  {
    if order != [] {
      NoneGone(order[1..], id);
    }
  }
}
