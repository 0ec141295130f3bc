/** What each system call does, written out over the states before and after it. */
module ProcessCalls {
  import opened Options
  import opened Processes

  // The handle in rdx names `item` among the objects of the current process.
  ghost predicate Names(s: System, item: Object) {
    && s.current.Some? && s.current.value in s.procs
    && var objects := s.procs[s.current.value].objects;
      1 <= s.regs.rdx <= 16 && s.regs.rdx <= |objects| && objects[s.regs.rdx - 1] == Some(item)
  }

  // But for the processes in `touched`, all are as they were.
  ghost predicate OthersSame(s: System, t: System, touched: set<nat>) {
    && (forall p :: p in s.procs && p !in touched ==> p in t.procs && t.procs[p] == s.procs[p])
    && (forall p :: p in t.procs && p !in touched ==> p in s.procs)
  }

  lemma InvFacts(s: System)
    requires Inv(s) && s.current.Some?
    ensures s.current.value in s.procs && s.procs[s.current.value].state == Running
    ensures forall p :: p in s.procs ==> |s.procs[p].objects| == 16
  {
    RunningIs(s.procs, s.order);
    hide RunningOf, Owned, Chain;
  }

  /** A start succeeds exactly when there is an image to load and the handle names a process
      that has been created and not started. */
  lemma StartsExactly(s: System, image: Option<Regs>)
    requires Inv(s) && s.current.Some?
    ensures Step(s, StartExe(image)).Some? <==>
      image.Some? && exists id :: Names(s, Process(id)) && id in s.procs && s.procs[id].state == Created
  {
    InvFacts(s);
    hide Inv;
    var me := s.current.value;
    var slot := Slot(s.procs[me], s.regs.rdx);
    if slot.Some? && s.procs[me].objects[slot.value].value.Process? {
      assert Names(s, Process(s.procs[me].objects[slot.value].value.id));
    }
  }

  /** After a start the process that the handle names runs, which had only been created, in
      its own address space and with exactly the registers that its image asks for; the
      starter waits with its own, rax zero, and nothing else has changed. */
  lemma StartRuns(s: System, image: Option<Regs>, t: System, id: nat)
    requires Inv(s) && Step(s, StartExe(image)) == Some(t)
    requires Names(s, Process(id))
    ensures image.Some? && t.regs == image.value && t.current == Some(id) && t.space == Some(id)
    ensures id in s.procs && s.procs[id].state == Created && id in t.procs
    ensures t.procs[id] == s.procs[id].(state := Running, context := image.value)
    ensures var me := s.current.value;
      me != id && me in t.procs && t.procs[me] == s.procs[me].(context := s.regs.(rax := 0))
    ensures OthersSame(s, t, {id, s.current.value}) && t.order == s.order && t.original == s.original
  {
    InvFacts(s);
    hide Inv;
  }

  /** An exit leaves the process as it is but for its state and the code it gave in rdx. */
  lemma ExitLeaves(s: System, t: System)
    requires Inv(s) && Step(s, Exit) == Some(t)
    ensures s.current.Some? && s.current.value in s.procs && s.current.value in t.procs
    ensures t.procs[s.current.value] == s.procs[s.current.value].(state := Exited, exitCode := s.regs.rdx)
    ensures OthersSame(s, t, {s.current.value}) && t.order == s.order && t.original == s.original
  {
    InvFacts(s);
    hide Inv, RunningOf;
  }

  // `item` is in the lowest free slot now, and rax is one more than its number.
  ghost predicate PutLowest(s: System, t: System, item: Object)
    requires s.current.Some? && s.current.value in s.procs
  {
    var me := s.current.value;
    var objects := s.procs[me].objects;
    && t.regs.rax >= 1 && t.regs.rax <= |objects| && t.regs == s.regs.(rax := t.regs.rax)
    && objects[t.regs.rax - 1] == None && (forall k :: 0 <= k < t.regs.rax - 1 ==> objects[k].Some?)
    && me in t.procs && t.procs[me] == s.procs[me].(objects := objects[t.regs.rax - 1 := Some(item)])
    && t.current == s.current && t.space == s.space && t.original == s.original
  }

  /** Creating a process gives its handle, for the lowest free slot; the process is listed
      first, has not run, and holds nothing. */
  lemma CreatesExactly(s: System, id: nat)
    requires Inv(s) && s.current.Some? && s.current.value in s.procs && id !in s.procs
    ensures Step(s, CreateProcess(id)).Some? <==> None in s.procs[s.current.value].objects
    ensures Step(s, CreateProcess(id)).Some? ==>
      var t := Step(s, CreateProcess(id)).value;
      && PutLowest(s, t, Process(id)) && t.order == [id] + s.order && OthersSame(s, t, {id, s.current.value})
      && id in t.procs && t.procs[id].state == Created && |t.procs[id].objects| == 16
      && forall k :: 0 <= k < 16 ==> t.procs[id].objects[k] == None
  {
    InvFacts(s);
    hide Inv;
    var objects := s.procs[s.current.value].objects;
    var i := FirstFree(objects);
    hide FirstFree;
    assert i < |objects| <==> None in objects;
  }

  /** Creating a device object gives its handle likewise. */
  lemma DeviceExactly(s: System, kind: nat)
    requires Inv(s) && s.current.Some? && s.current.value in s.procs
    ensures Step(s, CreateDevice(kind)).Some? <==> None in s.procs[s.current.value].objects
    ensures Step(s, CreateDevice(kind)).Some? ==>
      var t := Step(s, CreateDevice(kind)).value;
      PutLowest(s, t, Device(kind)) && t.order == s.order && OthersSame(s, t, {s.current.value})
  {
    InvFacts(s);
    hide Inv;
    var objects := s.procs[s.current.value].objects;
    var i := FirstFree(objects);
    hide FirstFree;
    assert i < |objects| <==> None in objects;
  }

  /** Closing a handle empties exactly its slot; a device goes alone, and with a process go
      just those that can be reached from it by what processes hold. */
  lemma ClosesExactly(s: System, t: System, item: Object)
    requires Inv(s) && Step(s, Destroy) == Some(t) && Names(s, item)
    ensures var me := s.current.value;
      var objects := s.procs[me].objects[s.regs.rdx - 1 := None];
      && me in t.procs && t.procs[me] == s.procs[me].(objects := objects)
      && t.regs == s.regs.(rax := 0) && t.current == s.current && t.space == s.space
      && (item.Device? ==> OthersSame(s, t, {me}) && t.order == s.order)
  {
    InvFacts(s);
    StepKeeps(s, Destroy);
    InvFacts(t);
    DestroyStep(s);
    var s0 := s.(regs := s.regs.(rax := 0));
    hide *;
    if item.Device? {
      DeviceCloses(s0, s.current.value, s.regs.rdx - 1, t);
    } else {
      ProcessCloses(s0, s.current.value, s.regs.rdx - 1, t);
    }
  }

  lemma DeviceCloses(s: System, me: nat, i: nat, t: System)
    requires me in s.procs && i < 16 && i < |s.procs[me].objects| && s.regs.rdx == i + 1
    requires s.procs[me].objects[i].Some? && s.procs[me].objects[i].value.Device? && AfterDestroy(s, me) == Some(t)
    ensures me in t.procs && t.procs[me] == s.procs[me].(objects := s.procs[me].objects[i := None])
    ensures t == s.(procs := t.procs) && forall u: System :: u.procs == s.procs ==> OthersSame(u, t, {me})
  {
    hide Doomed, Without;
  }

  lemma ProcessCloses(s: System, me: nat, i: nat, t: System)
    requires me in s.procs && i < 16 && i < |s.procs[me].objects| && s.regs.rdx == i + 1
    requires s.procs[me].objects[i].Some? && s.procs[me].objects[i].value.Process? && AfterDestroy(s, me) == Some(t)
    requires me in t.procs
    ensures t.procs[me] == s.procs[me].(objects := s.procs[me].objects[i := None])
    ensures t == s.(procs := t.procs, order := t.order)
  {
    hide Doomed, Without;
  }

  lemma DestroyStep(s: System)
    requires s.current.Some? && s.current.value in s.procs
    ensures Step(s, Destroy) == AfterDestroy(s.(regs := s.regs.(rax := 0)), s.current.value)
  {
    hide AfterDestroy;
  }

  // What a close has taken away.
  predicate Gone(s: System, t: System, p: nat) {
    p in s.procs && p !in t.procs
  }

  /** With a process go exactly those that it holds, that they hold, and so on. */
  lemma GoneExactly(s: System, t: System, id: nat)
    requires Inv(s) && Step(s, Destroy) == Some(t) && Names(s, Process(id))
    ensures Gone(s, t, id)
    ensures forall p, i, q :: Gone(s, t, p) && Holds(s.procs, p, i, q) ==> Gone(s, t, q)
    ensures forall q :: Gone(s, t, q) && q != id ==> exists p, i :: Gone(s, t, p) && Holds(s.procs, p, i, q)
    ensures forall p :: p in s.procs && !Gone(s, t, p) && p != s.current.value ==> t.procs[p] == s.procs[p]
    ensures forall p :: p in t.procs ==> p in s.procs
  {
    var gone, procs := DestroyTakes(s, t, id);
    var me, i := s.current.value, s.regs.rdx - 1;
    assert Holds(s.procs, me, i, id);
    HeldIsThere(s, me, i, id);
    DoomedIn(procs, s.order, id);
    InvOrder(s);
    hide *;
    forall p, k, q | Gone(s, t, p) && Holds(s.procs, p, k, q)
      ensures Gone(s, t, q)
    {
      GoneIn(s, t, p, gone);
      HeldNewer(s, p, k, q);
      DoomedClosed(procs, s.order, id, p, k, q);
      GoneIn(s, t, q, gone);
    }
    forall q | Gone(s, t, q) && q != id
      ensures exists p, k :: Gone(s, t, p) && Holds(s.procs, p, k, q)
    {
      GoneIn(s, t, q, gone);
      DoomedHeld(procs, s.order, id, q);
      var p, k :| p in gone && Holds(procs, p, k, q);
      GoneIn(s, t, p, gone);
    }
    GoneIn(s, t, id, gone);
    GoneAll(s, t, gone);
  }

  lemma GoneIn(s: System, t: System, p: nat, gone: set<nat>)
    requires forall q :: q in t.procs <==> q in s.procs && q !in gone
    ensures Gone(s, t, p) <==> p in s.procs && p in gone
  {
  }

  lemma GoneAll(s: System, t: System, gone: set<nat>)
    requires forall q :: q in t.procs <==> q in s.procs && q !in gone
    ensures forall p :: Gone(s, t, p) <==> p in s.procs && p in gone
  {
  }

  lemma InvOrder(s: System)
    requires Inv(s)
    ensures Distinct(s.order) && forall p :: p in s.procs <==> p in s.order
  {
    hide RunningOf, Owned, Chain;
  }

  lemma HeldNewer(s: System, p: nat, k: nat, q: nat)
    requires Inv(s) && Holds(s.procs, p, k, q)
    ensures Newer(s.order, q, p) && k < 16 && q in s.procs
  {
    HeldIsThere(s, p, k, q);
    hide RunningOf, Chain, Listed;
  }

  // What goes, and the processes as they are once the slot has been emptied.
  lemma DestroyTakes(s: System, t: System, id: nat) returns (gone: set<nat>, procs: map<nat, Proc>)
    requires Inv(s) && Step(s, Destroy) == Some(t) && Names(s, Process(id))
    ensures gone == Doomed(procs, s.order, id) && s.current.value in t.procs && s.current.value !in gone
    ensures forall p :: p in t.procs <==> p in s.procs && p !in gone
    ensures forall p :: p in t.procs && p != s.current.value ==> t.procs[p] == s.procs[p]
    ensures forall p, k, q :: Holds(procs, p, k, q) <==>
      Holds(s.procs, p, k, q) && !(p == s.current.value && k == s.regs.rdx - 1)
  {
    StepKeeps(s, Destroy);
    InvFacts(s);
    InvFacts(t);
    var me, i := s.current.value, s.regs.rdx - 1;
    procs := Closed(s, me, i).procs;
    SlotCleared(s.procs, procs, me, i);
    gone := Doomed(procs, s.order, id);
    hide Inv, Doomed, Without, RunningOf, Holds;
  }

  // ----- the exit code -----

  // A process that has exited keeps its code for as long as it is there.
  lemma ExitedStays(s: System, call: Call, q: nat)
    requires Inv(s) && Step(s, call).Some? && q in s.procs && s.procs[q].state == Exited
    ensures var t := Step(s, call).value;
      q in t.procs ==> t.procs[q].state == Exited && t.procs[q].exitCode == s.procs[q].exitCode
  {
    InvFacts(s);
    hide Inv, RunningOf, Doomed, Without, FirstFree;
  }

  // `p` closes the handle of slot `i`.
  predicate Closes(s: System, call: Call, p: nat, i: nat) {
    call.Destroy? && s.current == Some(p) && s.regs.rdx == i + 1
  }

  // A handle stays for as long as its owner is there and does not close it.
  lemma HandleStays(s: System, call: Call, p: nat, i: nat, q: nat)
    requires Inv(s) && Step(s, call).Some? && Holds(s.procs, p, i, q) && !Closes(s, call, p, i)
    ensures p in Step(s, call).value.procs ==> Holds(Step(s, call).value.procs, p, i, q)
  {
    InvFacts(s);
    if call.Destroy? {
      DestroyStep(s);
      hide Inv, RunningOf, Doomed, Without, FirstFree, Step;
    } else {
      hide Inv, RunningOf, FirstFree, AfterDestroy;
    }
  }

  // In the run of `calls`, `p` stays and never closes the handle of slot `i`.
  predicate NeverClosed(s: System, calls: seq<Call>, p: nat, i: nat)
    decreases |calls|
  {
    && p in s.procs
    && (calls != [] ==> !Closes(s, calls[0], p, i))
    && (calls != [] && Step(s, calls[0]).Some? ==> NeverClosed(Step(s, calls[0]).value, calls[1..], p, i))
  }

  lemma {:induction false} CodeStays(s: System, calls: seq<Call>, p: nat, i: nat, q: nat, c: nat)
    requires Inv(s) && Holds(s.procs, p, i, q) && q in s.procs
    requires s.procs[q].state == Exited && s.procs[q].exitCode == c
    requires Run(s, calls).Some? && NeverClosed(s, calls, p, i)
    ensures var t := Run(s, calls).value;
      Inv(t) && Holds(t.procs, p, i, q) && q in t.procs && t.procs[q].state == Exited && t.procs[q].exitCode == c
    decreases |calls|
  {
    if calls != [] {
      var s' := Step(s, calls[0]).value;
      InvAfter(s, calls[0]);
      HandleStays(s, calls[0], p, i, q);
      ExitedStays(s, calls[0], q);
      HeldIsThere(s', p, i, q);
      hide Step, Inv, Holds, Closes;
      CodeStays(s', calls[1..], p, i, q, c);
    }
  }

  lemma HeldIsThere(s: System, p: nat, i: nat, q: nat)
    requires Inv(s) && Holds(s.procs, p, i, q)
    ensures q in s.procs && q in s.order && |s.procs[p].objects| == 16
  {
    assert Newer(s.order, q, p);
    hide RunningOf, Chain;
  }

  /** There is a code to be asked for exactly when the handle names a process that has exited. */
  lemma CodeExactly(s: System)
    requires Inv(s) && s.current.Some?
    ensures Step(s, ExitCode).Some? <==>
      exists id :: Names(s, Process(id)) && id in s.procs && s.procs[id].state == Exited
  {
    InvFacts(s);
    hide Inv;
    var me := s.current.value;
    var slot := Slot(s.procs[me], s.regs.rdx);
    if slot.Some? && s.procs[me].objects[slot.value].value.Process? {
      assert Names(s, Process(s.procs[me].objects[slot.value].value.id));
    }
  }

  /** Whatever runs after a process has exited: for as long as a handle of it has not been
      closed, asking for its exit code gives what it had in rdx, and changes nothing else. */
  lemma ExitCodeUntilClosed(s: System, calls: seq<Call>, p: nat, i: nat, t1: System, t: System)
    requires Inv(s) && s.current.Some? && Holds(s.procs, p, i, s.current.value)
    requires Step(s, Exit) == Some(t1) && Run(t1, calls) == Some(t) && NeverClosed(t1, calls, p, i)
    requires t.current == Some(p) && t.regs.rdx == i + 1
    ensures Step(t, ExitCode) == Some(t.(regs := t.regs.(rax := s.regs.rdx)))
  {
    var q := s.current.value;
    ExitLeaves(s, t1);
    InvAfter(s, Exit);
    HandleStays(s, Exit, p, i, q);
    HeldIsThere(t1, p, i, q);
    hide *;
    CodeStays(t1, calls, p, i, q, s.regs.rdx);
    HeldIsThere(t, p, i, q);
    CodeGiven(t, p, i, q);
  }

  lemma CodeGiven(s: System, p: nat, i: nat, q: nat)
    requires s.current == Some(p) && Holds(s.procs, p, i, q) && |s.procs[p].objects| == 16 && s.regs.rdx == i + 1
    requires q in s.procs && s.procs[q].state == Exited
    ensures Step(s, ExitCode) == Some(s.(regs := s.regs.(rax := s.procs[q].exitCode)))
  {
  }
}
