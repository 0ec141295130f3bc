/** Walking the stack by the unwind codes of the functions on it. */
module Unwind {
  import opened MemoryTypes
  import opened Options

  const PUSH_NONVOL: nat := 0
  const ALLOC_LARGE: nat := 1
  const ALLOC_SMALL: nat := 2
  const SET_FPREG: nat := 3
  const SAVE_NONVOL: nat := 4
  const SAVE_NONVOL_FAR: nat := 5
  const SAVE_XMM128: nat := 8
  const SAVE_XMM128_FAR: nat := 9
  const PUSH_MACHFRAME: nat := 10

  // Memory in words of eight bytes, by address.
  type Memory = map<nat, nat>

  function At(mem: Memory, a: nat): nat {
    if a % WORD in mem then mem[a % WORD] else 0
  }

  datatype Context = Context(rsp: nat, rip: nat)

  function Ret(mem: Memory, rsp: nat): Context {
    Context((rsp + 8) % WORD, At(mem, rsp))
  }

  function Iret(mem: Memory, rsp: nat): Context {
    Context(At(mem, rsp + 24), At(mem, rsp))
  }

  // One slot of the code table, read as a code: its offset, operation and information.
  datatype Code = Code(offset: nat, op: nat, info: nat)

  function AsCode(slot: nat): Code {
    Code(slot % 256, slot / 256 % 16, slot / 4096)
  }

  function AsSlot(c: Code): nat {
    c.offset + 256 * c.op + 4096 * c.info
  }

  // How many slots a code takes, and by how much it moves the stack pointer back;
  // None for the codes that halt.
  datatype Effect = Effect(slots: nat, bytes: nat, frame: bool)

  function EffectOf(c: Code, operand: nat): Option<Effect> {
    if c.op == PUSH_NONVOL then Some(Effect(1, 8, false))
    else if c.op == ALLOC_LARGE then if c.info == 0 then Some(Effect(2, 8 * operand, false)) else None
    else if c.op == ALLOC_SMALL then Some(Effect(1, 8 * (c.info + 1), false))
    else if c.op == SAVE_NONVOL || c.op == SAVE_XMM128 then Some(Effect(2, 0, false))
    else if c.op == SAVE_NONVOL_FAR || c.op == SAVE_XMM128_FAR then None
    else if c.op == PUSH_MACHFRAME then if c.info == 0 then Some(Effect(1, 0, true)) else None
    else Some(Effect(1, 0, false))
  }

  // Where the codes leave the stack pointer, and whether on a machine frame.
  datatype Stop = Stop(rsp: nat, frame: bool)

  function UnwindCodes(slots: seq<nat>, at: nat, rsp: nat): Option<Stop>
    decreases |slots|
  {
    if slots == [] then Some(Stop(rsp, false))
    else
      var c := AsCode(slots[0]);
      var e := EffectOf(c, if |slots| > 1 then slots[1] else 0);
      if e.None? || e.value.slots > |slots| then None
      else if c.offset > at then UnwindCodes(slots[e.value.slots..], at, rsp)
      else if e.value.frame then Some(Stop(rsp, true))
      else UnwindCodes(slots[e.value.slots..], at, Up(rsp, e.value.bytes))
  }

  function Up(rsp: nat, bytes: nat): (r: nat)
    ensures r < WORD && (rsp < WORD && bytes == 0 ==> r == rsp)
  {
    (rsp + bytes) % WORD
  }

  // The codes that are read as such.
  function Decoded(slots: seq<nat>): seq<Code>
    decreases |slots|
  {
    if slots == [] then []
    else
      var c := AsCode(slots[0]);
      var e := EffectOf(c, 0);
      if e.None? || e.value.slots > |slots| then [c] else [c] + Decoded(slots[e.value.slots..])
  }

  datatype UnwindInfo = UnwindInfo(version: nat, flags: nat, frameRegister: nat, frameOffset: nat, slots: seq<nat>)
  datatype RuntimeFunction = RuntimeFunction(begin: nat, end: nat, info: UnwindInfo)
  datatype Image = Image(base: nat, functions: seq<RuntimeFunction>)

  // The first function whose range holds the address, its end included.
  function FindFunction(functions: seq<RuntimeFunction>, rva: nat): (r: Option<RuntimeFunction>)
    ensures r.Some? ==> r.value in functions && r.value.begin <= rva <= r.value.end
  {
    if functions == [] then None
    else if functions[0].begin <= rva <= functions[0].end then Some(functions[0])
    else FindFunction(functions[1..], rva)
  }

  function Rva(image: Image, rip: nat): nat {
    (rip - image.base) % 0x1_0000_0000
  }

  // `unwind_once`; None when the system halts.
  function UnwindOnce(mem: Memory, image: Image, c: Context): Option<Context> {
    var f := FindFunction(image.functions, Rva(image, c.rip));
    if f.None? then Some(Ret(mem, c.rsp))
    else
      var info := f.value.info;
      if info.version != 1 || info.flags / 4 % 2 != 0 || (info.frameRegister == 0 && info.frameOffset != 0) then None
      else
        var stop := UnwindCodes(info.slots, Rva(image, c.rip) - f.value.begin, c.rsp);
        if stop.None? then None
        else if stop.value.frame then Some(Iret(mem, stop.value.rsp))
        else Some(Ret(mem, stop.value.rsp))
  }

  /** Unwinds one call, as it runs. */
  method UnwindOneCall(mem: Memory, image: Image, c: Context) returns (r: Option<Context>)
    requires c.rsp < WORD
    ensures r == UnwindOnce(mem, image, c)
  {
    var rva := Rva(image, c.rip);
    var k := 0;
    while k < |image.functions| && !(image.functions[k].begin <= rva <= image.functions[k].end)
      invariant 0 <= k <= |image.functions|
      invariant forall i :: 0 <= i < k ==> !(image.functions[i].begin <= rva <= image.functions[i].end)
    {
      k := k + 1;
    }
    FoundFirst(image.functions, rva, k);
    hide FindFunction, UnwindCodes;
    if k == |image.functions| {
      return Some(Ret(mem, c.rsp));
    }
    var f := image.functions[k];
    var info := f.info;
    if info.version != 1 || info.flags / 4 % 2 != 0 || (info.frameRegister == 0 && info.frameOffset != 0) {
      return None;
    }
    var stop := RunCodes(info.slots, rva - f.begin, c.rsp);
    if stop.None? {
      r := None;
    } else if stop.value.frame {
      r := Some(Iret(mem, stop.value.rsp));
    } else {
      r := Some(Ret(mem, stop.value.rsp));
    }
  }

  // The search finds the first that has the address.
  lemma {:induction false} FoundFirst(functions: seq<RuntimeFunction>, rva: nat, k: nat)
    requires k <= |functions|
    requires forall i :: 0 <= i < k ==> !(functions[i].begin <= rva <= functions[i].end)
    requires k < |functions| ==> functions[k].begin <= rva <= functions[k].end
    ensures FindFunction(functions, rva) == if k < |functions| then Some(functions[k]) else None
    decreases k
  {
    if k > 0 {
      FoundFirst(functions[1..], rva, k - 1);
    }
  }

  // The loop over the codes, up to a machine frame.
  method RunCodes(slots: seq<nat>, at: nat, start: nat) returns (r: Option<Stop>)
    requires start < WORD
    ensures r == UnwindCodes(slots, at, start)
  {
    var rsp: nat, i: nat := start, 0;
    FromStart(slots, at, start);
    hide UnwindCodes, AsCode, Up, From;
    while i < |slots|
      invariant i <= |slots| && rsp < WORD
      invariant UnwindCodes(slots, at, start) == From(slots, i, at, rsp)
    {
      var code := AsCode(slots[i]);
      var ignore := code.offset > at;
      OneCode(slots, i, at, rsp);
      if code.op == PUSH_NONVOL {
        if !ignore {
          rsp := Up(rsp, 8);
        }
      } else if code.op == ALLOC_LARGE {
        if code.info != 0 || i + 1 == |slots| {
          return None;
        }
        i := i + 1;
        if !ignore {
          rsp := Up(rsp, 8 * slots[i]);
        }
      } else if code.op == ALLOC_SMALL {
        if !ignore {
          rsp := Up(rsp, 8 * (code.info + 1));
        }
      } else if code.op == SAVE_NONVOL || code.op == SAVE_XMM128 {
        if i + 1 == |slots| {
          return None;
        }
        i := i + 1;
      } else if code.op == SAVE_NONVOL_FAR || code.op == SAVE_XMM128_FAR {
        return None;
      } else if code.op == PUSH_MACHFRAME {
        if code.info != 0 {
          return None;
        }
        if !ignore {
          return Some(Stop(rsp, true));
        }
      }
      i := i + 1;
    }
    NoCode(slots, at, rsp);
    r := Some(Stop(rsp, false));
  }

  // What the codes from slot `i` on come to.
  function From(slots: seq<nat>, i: nat, at: nat, rsp: nat): Option<Stop>
    requires i <= |slots|
  {
    UnwindCodes(slots[i..], at, rsp)
  }

  lemma FromStart(slots: seq<nat>, at: nat, rsp: nat)
    ensures From(slots, 0, at, rsp) == UnwindCodes(slots, at, rsp)
  {
    assert slots[0..] == slots;
    hide UnwindCodes;
  }

  lemma NoCode(slots: seq<nat>, at: nat, rsp: nat)
    ensures From(slots, |slots|, at, rsp) == Some(Stop(rsp, false))
  {
  }

  // One code of the table, and where the next one is.
  lemma OneCode(slots: seq<nat>, i: nat, at: nat, rsp: nat)
    requires i < |slots|
    ensures var c := AsCode(slots[i]);
      var e := EffectOf(c, if i + 1 < |slots| then slots[i + 1] else 0);
      From(slots, i, at, rsp) ==
        (if e.None? || i + e.value.slots > |slots| then None
         else if c.offset > at then From(slots, i + e.value.slots, at, rsp)
         else if e.value.frame then Some(Stop(rsp, true))
         else From(slots, i + e.value.slots, at, Up(rsp, e.value.bytes)))
  {
    var c := AsCode(slots[i]);
    var e := EffectOf(c, if i + 1 < |slots| then slots[i + 1] else 0);
    hide AsCode;
    if e.Some? && i + e.value.slots <= |slots| {
      assert slots[i..][e.value.slots..] == slots[i + e.value.slots..];
    }
  }

  // ----- halting -----

  // The codes that are read come to one that is not handled, or whose operand is missing,
  // before one that takes the processor's frame off the stack.
  predicate HaltsOn(slots: seq<nat>, at: nat)
    decreases |slots|
  {
    slots != [] &&
    var offset, op, info := slots[0] % 256, slots[0] / 256 % 16, slots[0] / 4096;
    var takesOperand := op == 1 || op == 4 || op == 8;
    || op == 5 || op == 9 || ((op == 1 || op == 10) && info != 0)
    || (takesOperand && |slots| == 1)
    || (!(op == 10 && offset <= at) && HaltsOn(slots[if takesOperand then 2 else 1..], at))
  }

  lemma {:induction false} CodesHalt(slots: seq<nat>, at: nat, rsp: nat)
    ensures UnwindCodes(slots, at, rsp).None? <==> HaltsOn(slots, at)
    decreases |slots|
  {
    if slots != [] {
      var e := EffectOf(AsCode(slots[0]), if |slots| > 1 then slots[1] else 0);
      if e.Some? && e.value.slots <= |slots| {
        var tail := slots[e.value.slots..];
        CodesHalt(tail, at, rsp);
        CodesHalt(tail, at, Up(rsp, e.value.bytes));
      }
    }
  }

  /** Unwinding halts the system exactly when the function that is found has information of
      another version than 1, or chained, or with an offset from no frame register, or has a
      code that is not handled among those that are read. */
  lemma HaltsExactly(mem: Memory, image: Image, c: Context)
    ensures UnwindOnce(mem, image, c).None? <==>
      var f := FindFunction(image.functions, Rva(image, c.rip));
      f.Some? && (!InfoOk(f.value.info) || HaltsOn(f.value.info.slots, Rva(image, c.rip) - f.value.begin))
  {
    var f := FindFunction(image.functions, Rva(image, c.rip));
    if f.Some? {
      CodesHalt(f.value.info.slots, Rva(image, c.rip) - f.value.begin, c.rsp);
      InfoChecked(f.value.info);
    }
    hide FindFunction, Rva, UnwindCodes, HaltsOn, At, InfoOk, Ret, Iret;
  }

  lemma InfoChecked(info: UnwindInfo)
    ensures InfoOk(info) <==>
      !(info.version != 1 || info.flags / 4 % 2 != 0 || (info.frameRegister == 0 && info.frameOffset != 0))
  {
  }

  // ----- prologues -----

  // What a prologue is made of, with the length of each instruction in bytes. A push
  // stores `value`; saving writes `words` at address `to`; a frame register may be set.
  datatype Instr =
    | Push(length: nat, reg: nat, value: nat)
    | AllocSmall(length: nat, info: nat)
    | AllocLarge(length: nat, units: nat)
    | SetFrame(length: nat, info: nat)
    | Save(length: nat, op: nat, reg: nat, operand: nat, to: nat, words: seq<nat>)

  predicate InstrOk(i: Instr) {
    && i.length > 0
    && match i
       case Push(_, reg, _) => reg < 16
       case AllocSmall(_, info) => info < 16
       case AllocLarge(_, units) => units < 0x1_0000
       case SetFrame(_, info) => info < 16
       case Save(_, op, reg, operand, _, _) =>
         (op == 4 || op == 8) && reg < 16 && operand < 0x1_0000
  }

  // By how much an instruction lowers the stack pointer.
  function Bytes(i: Instr): nat {
    match i
    case Push(_, _, _) => 8
    case AllocSmall(_, info) => 8 * (info + 1)
    case AllocLarge(_, units) => 8 * units
    case SetFrame(_, _) => 0
    case Save(_, _, _, _, _, _) => 0
  }

  function Offset(instrs: seq<Instr>): nat {
    if instrs == [] then 0 else Offset(instrs[..|instrs| - 1]) + instrs[|instrs| - 1].length
  }

  function Depth(instrs: seq<Instr>): nat {
    if instrs == [] then 0 else Depth(instrs[..|instrs| - 1]) + Bytes(instrs[|instrs| - 1])
  }

  // The offset of a code is that of the end of its instruction.
  function SlotsOf(i: Instr, end: nat): seq<nat> {
    match i
    case Push(_, reg, _) => [AsSlot(Code(end, 0, reg))]
    case AllocSmall(_, info) => [AsSlot(Code(end, 2, info))]
    case AllocLarge(_, units) => [AsSlot(Code(end, 1, 0)), units]
    case SetFrame(_, info) => [AsSlot(Code(end, 3, info))]
    case Save(_, op, reg, operand, _, _) => [AsSlot(Code(end, op, reg)), operand]
  }

  // The codes of a prologue: the last instruction first, the machine frame last of all.
  function Codes(frame: bool, instrs: seq<Instr>): seq<nat> {
    if instrs == [] then if frame then [AsSlot(Code(0, 10, 0))] else []
    else SlotsOf(instrs[|instrs| - 1], Offset(instrs)) + Codes(frame, instrs[..|instrs| - 1])
  }

  predicate PrologueOk(instrs: seq<Instr>) {
    Offset(instrs) < 256 && forall i :: 0 <= i < |instrs| ==> InstrOk(instrs[i])
  }

  // The instructions that have run when the next one is at or before `at`.
  function Reached(instrs: seq<Instr>, at: nat): seq<Instr> {
    if instrs == [] || Offset(instrs) <= at then instrs else Reached(instrs[..|instrs| - 1], at)
  }

  /** The codes undo what has run of the prologue, and nothing else, wherever it has been
      stopped. */
  lemma {:induction false} CodesUndo(frame: bool, instrs: seq<Instr>, at: nat, rsp: nat)
    requires PrologueOk(instrs) && rsp + Depth(Reached(instrs, at)) < WORD
    ensures UnwindCodes(Codes(frame, instrs), at, rsp) == Some(Stop(rsp + Depth(Reached(instrs, at)), frame))
  {
    hide *;
    if instrs == [] {
      FrameCode(frame, at, rsp);
      NoneReached(at);
    } else {
      var rest, last := instrs[..|instrs| - 1], instrs[|instrs| - 1];
      LastCode(frame, instrs, at, rsp);
      LastReached(instrs, at);
      CodesUndo(frame, rest, at, if Offset(instrs) <= at then rsp + Bytes(last) else rsp);
    }
  }

  lemma NoneReached(at: nat)
    ensures Depth(Reached([], at)) == 0
  {
  }

  lemma FrameCode(frame: bool, at: nat, rsp: nat)
    ensures UnwindCodes(Codes(frame, []), at, rsp) == Some(Stop(rsp, frame))
  {
    SlotBack(Code(0, 10, 0));
    hide AsCode, AsSlot;
  }

  lemma LastReached(instrs: seq<Instr>, at: nat)
    requires instrs != []
    ensures var rest := instrs[..|instrs| - 1];
      Depth(Reached(instrs, at)) == Depth(Reached(rest, at)) + if Offset(instrs) <= at then Bytes(instrs[|instrs| - 1])
        else 0
  {
    hide Bytes;
  }

  lemma LastCode(frame: bool, instrs: seq<Instr>, at: nat, rsp: nat)
    requires instrs != [] && PrologueOk(instrs) && rsp + Depth(Reached(instrs, at)) < WORD
    ensures PrologueOk(instrs[..|instrs| - 1])
    ensures var last := instrs[|instrs| - 1];
      UnwindCodes(Codes(frame, instrs), at, rsp)
      == UnwindCodes(Codes(frame, instrs[..|instrs| - 1]), at, if Offset(instrs) <= at then rsp + Bytes(last) else rsp)
  {
    var last := instrs[|instrs| - 1];
    assert InstrOk(last);
    LastReached(instrs, at);
    assert PrologueOk(instrs[..|instrs| - 1]) && Offset(instrs) < 256;
    assert Codes(frame, instrs) == SlotsOf(last, Offset(instrs)) + Codes(frame, instrs[..|instrs| - 1]);
    hide *;
    StepBack(last, Offset(instrs), Codes(frame, instrs[..|instrs| - 1]), at, rsp);
  }

  lemma SlotBack(c: Code)
    requires c.offset < 256 && c.op < 16
    ensures AsCode(AsSlot(c)) == c
  {
    var slot, high := AsSlot(c), c.op + 16 * c.info;
    assert slot == c.offset + 256 * high;
    assert slot / 256 == high && slot % 256 == c.offset;
    assert high % 16 == c.op && high / 16 == c.info;
    assert slot / 4096 == high / 16;
  }

  // Reading the codes of one instruction.
  lemma StepBack(i: Instr, end: nat, tail: seq<nat>, at: nat, rsp: nat)
    requires InstrOk(i) && end < 256 && (end <= at ==> rsp + Bytes(i) < WORD) && rsp < WORD
    ensures UnwindCodes(SlotsOf(i, end) + tail, at, rsp) ==
      UnwindCodes(tail, at, if end <= at then rsp + Bytes(i) else rsp)
  {
    var s, c := SlotsOf(i, end), CodeOf(i, end);
    SlotsAre(i, end);
    SlotBack(c);
    assert (s + tail)[0] == AsSlot(c) && (|s| > 1 ==> (s + tail)[1] == s[1]);
    assert (s + tail)[|s|..] == tail;
    hide *;
    FirstCode(s + tail, at, rsp);
    UpFits(rsp, Bytes(i));
  }

  // The slots of an instruction begin with its code, which has the effect of the instruction.
  lemma SlotsAre(i: Instr, end: nat)
    requires InstrOk(i) && end < 256
    ensures var s, c := SlotsOf(i, end), CodeOf(i, end);
      && 1 <= |s| <= 2 && s[0] == AsSlot(c) && c.offset == end && c.op < 16
      && EffectOf(c, if |s| > 1 then s[1] else 0) == Some(Effect(|s|, Bytes(i), false))
      && (|s| == 1 ==> forall operand :: EffectOf(c, operand) == EffectOf(c, 0))
  {
    hide AsSlot;
  }

  lemma FirstCode(slots: seq<nat>, at: nat, rsp: nat)
    requires slots != []
    ensures var c := AsCode(slots[0]);
      var e := EffectOf(c, if |slots| > 1 then slots[1] else 0);
      e.Some? && !e.value.frame && e.value.slots <= |slots| ==>
        UnwindCodes(slots, at, rsp) ==
          UnwindCodes(slots[e.value.slots..], at, if c.offset > at then rsp else Up(rsp, e.value.bytes))
  {
    hide AsCode, EffectOf, Up;
  }

  lemma UpFits(rsp: nat, bytes: nat)
    ensures rsp + bytes < WORD ==> Up(rsp, bytes) == rsp + bytes
  {
  }

  // The code that stands for an instruction.
  function CodeOf(i: Instr, end: nat): Code {
    match i
    case Push(_, reg, _) => Code(end, 0, reg)
    case AllocSmall(_, info) => Code(end, 2, info)
    case AllocLarge(_, units) => Code(end, 1, 0)
    case SetFrame(_, info) => Code(end, 3, info)
    case Save(_, op, reg, operand, _, _) => Code(end, op, reg)
  }

  function CodesOf(frame: bool, instrs: seq<Instr>): seq<Code> {
    if instrs == [] then if frame then [Code(0, 10, 0)] else []
    else [CodeOf(instrs[|instrs| - 1], Offset(instrs))] + CodesOf(frame, instrs[..|instrs| - 1])
  }

  /** What is decoded is one code for each instruction: no operand ever is. */
  lemma {:induction false} OperandsSkipped(frame: bool, instrs: seq<Instr>)
    requires PrologueOk(instrs)
    ensures Decoded(Codes(frame, instrs)) == CodesOf(frame, instrs)
  {
    if instrs == [] {
      if frame {
        SlotBack(Code(0, 10, 0));
      }
    } else {
      var n := |instrs| - 1;
      var s, tail := SlotsOf(instrs[n], Offset(instrs)), Codes(frame, instrs[..n]);
      var c := CodeOf(instrs[n], Offset(instrs));
      assert InstrOk(instrs[n]) && PrologueOk(instrs[..n]) && Offset(instrs) < 256;
      assert Codes(frame, instrs) == s + tail && CodesOf(frame, instrs) == [c] + CodesOf(frame, instrs[..n]);
      hide *;
      OperandsSkipped(frame, instrs[..n]);
      SlotsAre(instrs[n], Offset(instrs));
      SlotBack(c);
      assert (s + tail)[|s|..] == tail && (s + tail)[0] == AsSlot(c);
      OneDecoded(s + tail, c, |s|, Bytes(instrs[n]));
    }
  }

  lemma OneDecoded(slots: seq<nat>, c: Code, n: nat, bytes: nat)
    requires 1 <= n <= |slots| && AsCode(slots[0]) == c
    requires exists operand :: EffectOf(c, operand) == Some(Effect(n, bytes, false))
    ensures Decoded(slots) == [c] + Decoded(slots[n..])
  {
    hide AsCode;
    var operand :| EffectOf(c, operand) == Some(Effect(n, bytes, false));
    assert EffectOf(c, 0).Some? && EffectOf(c, 0).value.slots == n;
    hide EffectOf;
  }

  // ----- what a prologue does as it runs -----

  datatype Machine = Machine(rsp: int, mem: Memory)

  function Store(mem: Memory, to: nat, words: seq<nat>): Memory
    decreases |words|
  {
    if words == [] then mem else Store(mem[to := words[0]], to + 8, words[1..])
  }

  function Exec1(m: Machine, i: Instr): Machine {
    match i
    case Push(_, _, value) => Machine(m.rsp - 8, if m.rsp >= 8 then m.mem[m.rsp - 8 := value] else m.mem)
    case Save(_, _, _, _, to, words) => Machine(m.rsp, Store(m.mem, to, words))
    case _ => Machine(m.rsp - Bytes(i), m.mem)
  }

  function Exec(m: Machine, instrs: seq<Instr>): Machine {
    if instrs == [] then m else Exec1(Exec(m, instrs[..|instrs| - 1]), instrs[|instrs| - 1])
  }

  // No instruction saves over the word at `a`.
  predicate Spares(instrs: seq<Instr>, a: nat) {
    forall i :: 0 <= i < |instrs| && instrs[i].Save? ==> a < instrs[i].to || instrs[i].to + 8 * |instrs[i].words| <= a
  }

  lemma {:induction false} StoreKeeps(mem: Memory, to: nat, words: seq<nat>, a: nat)
    requires a < to || to + 8 * |words| <= a
    ensures a in Store(mem, to, words) <==> a in mem
    ensures a in mem ==> Store(mem, to, words)[a] == mem[a]
    decreases |words|
  {
    if words != [] {
      StoreKeeps(mem[to := words[0]], to + 8, words[1..], a);
    }
  }

  // A prologue lowers the stack pointer by its depth, and leaves alone what is above
  // where it began.
  lemma {:induction false} ExecKeeps(m: Machine, instrs: seq<Instr>, a: nat)
    requires Spares(instrs, a) && m.rsp <= a
    ensures Exec(m, instrs).rsp == m.rsp - Depth(instrs)
    ensures a in Exec(m, instrs).mem <==> a in m.mem
    ensures a in m.mem ==> Exec(m, instrs).mem[a] == m.mem[a]
  {
    if instrs != [] {
      var n := |instrs| - 1;
      var rest, last := instrs[..n], instrs[n];
      assert Spares(rest, a);
      ExecKeeps(m, rest, a);
      if last.Save? {
        StoreKeeps(Exec(m, rest).mem, last.to, last.words, a);
      }
      hide Store, Spares;
    }
  }

  // Where a function that was entered with the stack pointer at `entry` goes back to:
  // behind the call, or to what was interrupted.
  function CallerOf(frame: bool, mem: Memory, entry: nat): Context {
    if frame then Iret(mem, entry) else Ret(mem, entry)
  }

  // The words that say so.
  function Links(frame: bool, entry: nat): set<nat> {
    if frame then {entry, entry + 24} else {entry}
  }

  // Unwind information of version 1 that is not chained, and has an offset from a frame
  // register only when it has one.
  predicate InfoOk(info: UnwindInfo) {
    info.version == 1 && info.flags % 8 < 4 && (info.frameRegister != 0 || info.frameOffset == 0)
  }

  // A function of the image with unwind codes for its prologue.
  predicate Describes(f: RuntimeFunction, frame: bool, instrs: seq<Instr>) {
    PrologueOk(instrs) && InfoOk(f.info) && f.info.slots == Codes(frame, instrs)
  }

  // ----- the function an address is in -----

  // The function table: ranges in order, ends exclusive.
  predicate Ordered(fs: seq<RuntimeFunction>) {
    && (forall i :: 0 <= i < |fs| ==> fs[i].begin < fs[i].end)
    && (forall i, j :: 0 <= i < j < |fs| ==> fs[i].end <= fs[j].begin)
  }

  // Execution is in the function numbered, or behind its last instruction, when that is a
  // call; or in none of them, in a leaf function.
  predicate In(fs: seq<RuntimeFunction>, k: Option<nat>, rva: nat) {
    match k
    case Some(k) => k < |fs| && fs[k].begin <= rva <= fs[k].end
    case None => forall i :: 0 <= i < |fs| ==> !(fs[i].begin <= rva < fs[i].end)
  }

  // Another function ends just there.
  predicate AtSeam(fs: seq<RuntimeFunction>, k: Option<nat>, rva: nat) {
    exists j :: 0 <= j < |fs| && fs[j].end == rva && k != Some(j)
  }

  /** The search takes the end of a range for a part of it. It finds the function that an
      address is in, or none for a leaf function, exactly when no other one ends there. */
  lemma FoundExactly(fs: seq<RuntimeFunction>, k: Option<nat>, rva: nat)
    requires Ordered(fs) && In(fs, k, rva)
    ensures FindFunction(fs, rva) == (if k.Some? then Some(fs[k.value]) else None) <==> !AtSeam(fs, k, rva)
    ensures forall j :: 0 <= j < |fs| && fs[j].end == rva && k != Some(j) ==> FindFunction(fs, rva) == Some(fs[j])
  {
    var j := FirstHolding(fs, rva);
    if k.Some? && j != k.value {
      assert fs[j].end <= fs[k.value].begin;
    }
  }

  // The first function whose range, its end included, holds the address.
  lemma {:induction false} FirstHolding(fs: seq<RuntimeFunction>, rva: nat) returns (k: nat)
    ensures k <= |fs| && forall i :: 0 <= i < k ==> !(fs[i].begin <= rva <= fs[i].end)
    ensures k < |fs| ==> fs[k].begin <= rva <= fs[k].end && FindFunction(fs, rva) == Some(fs[k])
    ensures k == |fs| ==> FindFunction(fs, rva) == None
  {
    if fs == [] || fs[0].begin <= rva <= fs[0].end {
      k := 0;
    } else {
      k := FirstHolding(fs[1..], rva);
      k := k + 1;
      assert forall i :: 1 <= i < |fs| ==> fs[i] == fs[1..][i - 1];
    }
  }

  // How far into its function execution has come.
  function Into(fs: seq<RuntimeFunction>, k: Option<nat>, rva: nat): nat
    requires In(fs, k, rva)
  {
    if k.Some? then rva - fs[k.value].begin else 0
  }

  // The function has these instructions for a prologue, a leaf function none.
  predicate Prologue(fs: seq<RuntimeFunction>, k: Option<nat>, frame: bool, instrs: seq<Instr>) {
    match k
    case Some(k) => k < |fs| && Describes(fs[k], frame, instrs)
    case None => !frame && instrs == []
  }

  /** Wherever in a function it is stopped, unless another one ends just there, unwinding
      gives the stack pointer and the address that it was called from, or interrupted at. */
  lemma UnwindReturns(image: Image, k: Option<nat>, frame: bool, instrs: seq<Instr>, rip: nat, m: Machine)
    requires Ordered(image.functions) && Prologue(image.functions, k, frame, instrs)
    requires In(image.functions, k, Rva(image, rip)) && !AtSeam(image.functions, k, Rva(image, rip))
    requires Depth(instrs) <= m.rsp && m.rsp + 24 < WORD
    requires forall a :: a in Links(frame, m.rsp) ==> Spares(instrs, a)
    ensures var m' := Exec(m, Reached(instrs, Into(image.functions, k, Rva(image, rip))));
      m'.rsp >= 0 && UnwindOnce(m'.mem, image, Context(m'.rsp, rip)) == Some(CallerOf(frame, m.mem, m.rsp))
  {
    var ran := Reached(instrs, Into(image.functions, k, Rva(image, rip)));
    var m' := Exec(m, ran);
    ReachedLess(instrs, Into(image.functions, k, Rva(image, rip)));
    forall a | a in Links(frame, m.rsp)
      ensures At(m'.mem, a) == At(m.mem, a)
    {
      KeptBy(m, ran, instrs, a);
    }
    assert m.rsp in Links(frame, m.rsp);
    KeptBy(m, ran, instrs, m.rsp);
    assert CallerOf(frame, m'.mem, m.rsp) == CallerOf(frame, m.mem, m.rsp);
    hide *;
    UnwindStep(m'.mem, image, k, frame, instrs, Context(m'.rsp, rip), m.rsp);
  }

  lemma SeamFacts(image: Image, j: nat, frame: bool, instrs: seq<Instr>, rva: nat)
    requires Ordered(image.functions) && j < |image.functions| && image.functions[j].end == rva
    requires Describes(image.functions[j], frame, instrs)
    requires Offset(instrs) <= image.functions[j].end - image.functions[j].begin
    ensures var f := image.functions[j];
      && f.begin <= rva && PrologueOk(instrs) && InfoOk(f.info) && f.info.slots == Codes(frame, instrs)
      && Reached(instrs, rva - f.begin) == instrs
  {
    hide PrologueOk, Codes;
  }

  /** Where another function ends, that one's prologue is undone as a whole instead. */
  lemma SeamUnwinds(mem: Memory, image: Image, k: Option<nat>, j: nat, frame: bool, instrs: seq<Instr>, c: Context)
    requires Ordered(image.functions) && In(image.functions, k, Rva(image, c.rip))
    requires j < |image.functions| && image.functions[j].end == Rva(image, c.rip) && k != Some(j)
    requires Describes(image.functions[j], frame, instrs)
    requires Offset(instrs) <= image.functions[j].end - image.functions[j].begin
    requires c.rsp + Depth(instrs) < WORD
    ensures UnwindOnce(mem, image, c) == Some(CallerOf(frame, mem, c.rsp + Depth(instrs)))
  {
    hide *;
    SeamFacts(image, j, frame, instrs, Rva(image, c.rip));
    var f, at := image.functions[j], Rva(image, c.rip) - image.functions[j].begin;
    FoundExactly(image.functions, k, Rva(image, c.rip));
    CodesUndo(frame, instrs, at, c.rsp);
    OnceByCodes(mem, image, c, f, Codes(frame, instrs), Stop(c.rsp + Depth(instrs), frame));
  }

  /** So a call is unwound at its first instruction exactly when the function before it
      does not end there, or moves the stack pointer nowhere. */
  lemma SeamExactly(mem: Memory, image: Image, k: Option<nat>, j: nat, instrs: seq<Instr>, c: Context)
    requires Ordered(image.functions) && In(image.functions, k, Rva(image, c.rip))
    requires j < |image.functions| && image.functions[j].end == Rva(image, c.rip) && k != Some(j)
    requires Describes(image.functions[j], false, instrs)
    requires Offset(instrs) <= image.functions[j].end - image.functions[j].begin
    requires c.rsp + Depth(instrs) + 8 < WORD
    ensures UnwindOnce(mem, image, c) == Some(CallerOf(false, mem, c.rsp)) <==> Depth(instrs) == 0
  {
    SeamUnwinds(mem, image, k, j, false, instrs, c);
    hide UnwindOnce, Depth, At, FindFunction, Rva, Codes;
  }

  /** Two functions that adjoin, the first with one push: stopped at the start of the second,
      where the return address 555 is on top of the stack, unwinding takes the word above it. */
  lemma AdjoiningFunctions(first: UnwindInfo, second: UnwindInfo)
    requires first == UnwindInfo(1, 0, 0, 0, Codes(false, [Push(1, 3, 0)]))
    requires second == UnwindInfo(1, 0, 0, 0, Codes(false, []))
    ensures var image := Image(0, [RuntimeFunction(0, 16, first), RuntimeFunction(16, 32, second)]);
      var mem := map[1000 := 555, 1008 := 666];
      && Ordered(image.functions) && In(image.functions, Some(1), Rva(image, 16))
      && UnwindOnce(mem, image, Context(1000, 16)) == Some(Context(1016, 666))
      && CallerOf(false, mem, 1000) == Context(1008, 555)
  {
    var image := Image(0, [RuntimeFunction(0, 16, first), RuntimeFunction(16, 32, second)]);
    var mem: Memory := map[1000 := 555, 1008 := 666];
    var push := [Push(1, 3, 0)];
    assert Rva(image, 16) == 16 && In(image.functions, Some(1), 16) && image.functions[0].end == 16;
    assert push[..0] == [];
    assert Depth(push) == 8 && Offset(push) == 1;
    hide Codes, UnwindOnce;
    SeamUnwinds(mem, image, Some(1), 0, false, push, Context(1000, 16));
  }

  lemma KeptBy(m: Machine, ran: seq<Instr>, instrs: seq<Instr>, a: nat)
    requires ran <= instrs && Spares(instrs, a) && m.rsp <= a < WORD
    ensures At(Exec(m, ran).mem, a) == At(m.mem, a) && Exec(m, ran).rsp == m.rsp - Depth(ran)
  {
    assert Spares(ran, a);
    ExecKeeps(m, ran, a);
    hide Exec, Spares, Depth;
  }

  lemma UnwindStep(mem: Memory, image: Image, k: Option<nat>, frame: bool, instrs: seq<Instr>, c: Context, entry: nat)
    requires Ordered(image.functions) && Prologue(image.functions, k, frame, instrs)
    requires In(image.functions, k, Rva(image, c.rip)) && !AtSeam(image.functions, k, Rva(image, c.rip))
    requires c.rsp + Depth(Reached(instrs, Into(image.functions, k, Rva(image, c.rip)))) == entry && entry < WORD
    ensures UnwindOnce(mem, image, c) == Some(CallerOf(frame, mem, entry))
  {
    hide *;
    FoundExactly(image.functions, k, Rva(image, c.rip));
    if k.Some? {
      InStep(mem, image, k.value, frame, instrs, c, entry);
    } else {
      LeafStep(mem, image, frame, instrs, c, entry);
    }
  }

  lemma InStep(mem: Memory, image: Image, k: nat, frame: bool, instrs: seq<Instr>, c: Context, entry: nat)
    requires Prologue(image.functions, Some(k), frame, instrs) && In(image.functions, Some(k), Rva(image, c.rip))
    requires FindFunction(image.functions, Rva(image, c.rip)) == Some(image.functions[k])
    requires c.rsp + Depth(Reached(instrs, Into(image.functions, Some(k), Rva(image, c.rip)))) == entry && entry < WORD
    ensures UnwindOnce(mem, image, c) == Some(CallerOf(frame, mem, entry))
  {
    hide Reached, Depth, Codes, FindFunction, UnwindOnce, PrologueOk, Rva, CallerOf;
    var f, at := image.functions[k], Rva(image, c.rip) - image.functions[k].begin;
    assert PrologueOk(instrs) && InfoOk(f.info) && f.info.slots == Codes(frame, instrs);
    assert c.rsp + Depth(Reached(instrs, at)) == entry;
    hide *;
    CodesUndo(frame, instrs, at, c.rsp);
    OnceByCodes(mem, image, c, f, Codes(frame, instrs), Stop(entry, frame));
  }

  lemma OnceByCodes(mem: Memory, image: Image, c: Context, f: RuntimeFunction, slots: seq<nat>, stop: Stop)
    requires FindFunction(image.functions, Rva(image, c.rip)) == Some(f) && InfoOk(f.info) && f.info.slots == slots
    requires UnwindCodes(slots, Rva(image, c.rip) - f.begin, c.rsp) == Some(stop)
    ensures UnwindOnce(mem, image, c) == Some(CallerOf(stop.frame, mem, stop.rsp))
  {
    hide FindFunction, Rva, At, UnwindCodes;
  }

  lemma LeafStep(mem: Memory, image: Image, frame: bool, instrs: seq<Instr>, c: Context, entry: nat)
    requires Prologue(image.functions, None, frame, instrs) && In(image.functions, None, Rva(image, c.rip))
    requires FindFunction(image.functions, Rva(image, c.rip)) == None
    requires c.rsp + Depth(Reached(instrs, Into(image.functions, None, Rva(image, c.rip)))) == entry
    ensures UnwindOnce(mem, image, c) == Some(CallerOf(frame, mem, entry))
  {
    hide FindFunction, Rva, At;
  }

  lemma {:induction false} ReachedLess(instrs: seq<Instr>, at: nat)
    ensures Reached(instrs, at) <= instrs && Depth(Reached(instrs, at)) <= Depth(instrs)
  {
    if instrs != [] && Offset(instrs) > at {
      ReachedLess(instrs[..|instrs| - 1], at);
    }
  }

  // ----- the whole stack -----

  // A function that has not returned: where its code is, how it was entered, and its prologue.
  datatype Activation = Activation(k: Option<nat>, frame: bool, instrs: seq<Instr>, entry: nat)

  // Execution is in the function of an activation, with the stack pointer lowered as far as
  // its prologue has run, and not where another function ends.
  predicate Stopped(image: Image, a: Activation, c: Context) {
    var rva := Rva(image, c.rip);
    && Prologue(image.functions, a.k, a.frame, a.instrs)
    && In(image.functions, a.k, rva) && !AtSeam(image.functions, a.k, rva)
    && c.rsp + Depth(Reached(a.instrs, Into(image.functions, a.k, rva))) == a.entry && a.entry + 24 < WORD
  }

  // The activations, the newest first, as they stand in memory when execution is at `c`.
  predicate Stands(mem: Memory, image: Image, acts: seq<Activation>, c: Context) {
    acts != [] ==>
      Stopped(image, acts[0], c) && Stands(mem, image, acts[1..], CallerOf(acts[0].frame, mem, acts[0].entry))
  }

  function Callers(mem: Memory, acts: seq<Activation>): seq<Context> {
    if acts == [] then [] else [CallerOf(acts[0].frame, mem, acts[0].entry)] + Callers(mem, acts[1..])
  }

  // Unwinding `n` times, as printing the stack does.
  function Unwound(mem: Memory, image: Image, c: Context, n: nat): Option<seq<Context>>
    decreases n
  {
    if n == 0 then Some([])
    else
      var next := UnwindOnce(mem, image, c);
      if next.None? then None
      else
        var rest := Unwound(mem, image, next.value, n - 1);
        if rest.None? then None else Some([next.value] + rest.value)
  }

  /** Unwinding again and again meets every activation on the stack, in order. */
  lemma {:induction false} WholeStack(mem: Memory, image: Image, acts: seq<Activation>, c: Context)
    requires Ordered(image.functions) && Stands(mem, image, acts, c)
    ensures Unwound(mem, image, c, |acts|) == Some(Callers(mem, acts))
  {
    if acts != [] {
      var a := acts[0];
      StoppedStep(mem, image, a, c);
      hide UnwindOnce, CallerOf, Stopped, Ordered;
      WholeStack(mem, image, acts[1..], CallerOf(a.frame, mem, a.entry));
    }
  }

  lemma StoppedStep(mem: Memory, image: Image, a: Activation, c: Context)
    requires Ordered(image.functions) && Stopped(image, a, c)
    ensures UnwindOnce(mem, image, c) == Some(CallerOf(a.frame, mem, a.entry))
  {
    UnwindStep(mem, image, a.k, a.frame, a.instrs, c, a.entry);
    hide *;
  }

  function AllLinks(acts: seq<Activation>): set<nat> {
    if acts == [] then {} else Links(acts[0].frame, acts[0].entry) + AllLinks(acts[1..])
  }

  lemma {:induction false} LinksKept(mem: Memory, mem': Memory, image: Image, acts: seq<Activation>, c: Context)
    requires Stands(mem, image, acts, c)
    requires forall a :: a in AllLinks(acts) ==> At(mem', a) == At(mem, a)
    ensures Stands(mem', image, acts, c)
  {
    if acts != [] {
      var a := acts[0];
      assert a.entry in Links(a.frame, a.entry);
      assert CallerOf(a.frame, mem', a.entry) == CallerOf(a.frame, mem, a.entry) by {
        hide At;
      }
      hide At, CallerOf, Stopped;
      LinksKept(mem, mem', image, acts[1..], CallerOf(a.frame, mem, a.entry));
    }
  }

  // A call: the return address is pushed.
  function Called(m: Machine, ret: nat): Machine {
    Machine(m.rsp - 8, if m.rsp >= 8 then m.mem[m.rsp - 8 := ret] else m.mem)
  }

  /** A call from a standing stack leaves it standing, one activation higher, wherever the
      function called has come to in its prologue: what it pushes is below every link. */
  lemma CallStands(image: Image, acts: seq<Activation>, c: Context, mem: Memory,
      k: Option<nat>, instrs: seq<Instr>, rip: nat)
    requires Stands(mem, image, acts, c) && c.rsp + 24 < WORD && c.rsp >= 8 + Depth(instrs)
    requires Prologue(image.functions, k, false, instrs)
    requires In(image.functions, k, Rva(image, rip)) && !AtSeam(image.functions, k, Rva(image, rip))
    requires forall a :: a in AllLinks(acts) ==> c.rsp <= a < WORD && Spares(instrs, a)
    requires Spares(instrs, c.rsp - 8)
    ensures var ran := Reached(instrs, Into(image.functions, k, Rva(image, rip)));
      var m := Exec(Called(Machine(c.rsp, mem), c.rip), ran);
      var act := Activation(k, false, instrs, c.rsp - 8);
      && m.rsp >= 0 && Stands(m.mem, image, [act] + acts, Context(m.rsp, rip))
      && Callers(m.mem, [act] + acts)[0] == c
      && forall a :: a in AllLinks([act] + acts) ==> m.rsp <= a < WORD
  {
    hide *;
    var ran := Reached(instrs, Into(image.functions, k, Rva(image, rip)));
    var m := Exec(Called(Machine(c.rsp, mem), c.rip), ran);
    ReachedLess(instrs, Into(image.functions, k, Rva(image, rip)));
    CalledKeeps(c, mem, instrs, ran, AllLinks(acts));
    LinksKept(mem, m.mem, image, acts, c);
    CallIs(m.mem, c.rsp - 8, c);
    OneHigher(m.mem, image, acts, c, Activation(k, false, instrs, c.rsp - 8), Context(m.rsp, rip));
  }

  lemma CalledKeeps(c: Context, mem: Memory, instrs: seq<Instr>, ran: seq<Instr>, links: set<nat>)
    requires ran <= instrs && 8 <= c.rsp < WORD && Spares(instrs, c.rsp - 8)
    requires forall a :: a in links ==> c.rsp <= a < WORD && Spares(instrs, a)
    ensures var m := Exec(Called(Machine(c.rsp, mem), c.rip), ran);
      && m.rsp == c.rsp - 8 - Depth(ran) && At(m.mem, c.rsp - 8) == c.rip
      && forall a :: a in links ==> At(m.mem, a) == At(mem, a)
  {
    var m0 := Called(Machine(c.rsp, mem), c.rip);
    KeptBy(m0, ran, instrs, c.rsp - 8);
    hide Exec, Spares, Depth;
    forall a | a in links
      ensures At(Exec(m0, ran).mem, a) == At(mem, a)
    {
      KeptBy(m0, ran, instrs, a);
    }
  }

  lemma OneHigher(mem: Memory, image: Image, acts: seq<Activation>, c: Context, act: Activation, c': Context)
    requires Stands(mem, image, acts, c) && CallerOf(act.frame, mem, act.entry) == c && act.entry + 24 < WORD
    requires Prologue(image.functions, act.k, act.frame, act.instrs)
    requires In(image.functions, act.k, Rva(image, c'.rip)) && !AtSeam(image.functions, act.k, Rva(image, c'.rip))
    requires c'.rsp + Depth(Reached(act.instrs, Into(image.functions, act.k, Rva(image, c'.rip)))) == act.entry
    requires forall a :: a in AllLinks(acts) ==> act.entry <= a < WORD
    ensures Stands(mem, image, [act] + acts, c') && Callers(mem, [act] + acts)[0] == c
    ensures forall a :: a in AllLinks([act] + acts) ==> c'.rsp <= a < WORD
  {
    assert ([act] + acts)[1..] == acts;
    hide At, CallerOf, Prologue, In, AtSeam, Reached, Rva;
  }

  lemma CallIs(mem: Memory, entry: nat, c: Context)
    requires At(mem, entry) == c.rip && c.rsp == entry + 8 < WORD
    ensures CallerOf(false, mem, entry) == c
  {
  }

  // What the processor pushes when it is interrupted, from `top` down, on the same stack.
  function Interrupted(m: Machine, top: nat, c: Context, cs: nat, flags: nat, ss: nat): Machine
    requires top >= 40
  {
    Machine(top - 40, m.mem[top - 8 := ss][top - 16 := c.rsp][top - 24 := flags][top - 32 := cs][top - 40 := c.rip])
  }

  /** So does an interrupt, at any place: unwinding its handler leads back to exactly what
      was interrupted. */
  lemma InterruptStands(image: Image, acts: seq<Activation>, c: Context, mem: Memory,
      k: nat, instrs: seq<Instr>, rip: nat, top: nat, cs: nat, flags: nat, ss: nat)
    requires Stands(mem, image, acts, c) && 40 + Depth(instrs) <= top <= c.rsp < WORD
    requires Prologue(image.functions, Some(k), true, instrs)
    requires In(image.functions, Some(k), Rva(image, rip)) && !AtSeam(image.functions, Some(k), Rva(image, rip))
    requires forall a :: a in AllLinks(acts) ==> c.rsp <= a < WORD && Spares(instrs, a)
    requires Spares(instrs, top - 40) && Spares(instrs, top - 16)
    ensures var ran := Reached(instrs, Into(image.functions, Some(k), Rva(image, rip)));
      var m := Exec(Interrupted(Machine(c.rsp, mem), top, c, cs, flags, ss), ran);
      var act := Activation(Some(k), true, instrs, top - 40);
      && m.rsp >= 0 && Stands(m.mem, image, [act] + acts, Context(m.rsp, rip))
      && Callers(m.mem, [act] + acts)[0] == c
      && forall a :: a in AllLinks([act] + acts) ==> m.rsp <= a < WORD
  {
    hide *;
    var ran := Reached(instrs, Into(image.functions, Some(k), Rva(image, rip)));
    var m := Exec(Interrupted(Machine(c.rsp, mem), top, c, cs, flags, ss), ran);
    ReachedLess(instrs, Into(image.functions, Some(k), Rva(image, rip)));
    InterruptKeeps(c, mem, instrs, ran, AllLinks(acts), top, cs, flags, ss);
    LinksKept(mem, m.mem, image, acts, c);
    OneHigher(m.mem, image, acts, c, Activation(Some(k), true, instrs, top - 40), Context(m.rsp, rip));
  }

  lemma InterruptKeeps(c: Context, mem: Memory, instrs: seq<Instr>, ran: seq<Instr>, links: set<nat>, top: nat,
      cs: nat, flags: nat, ss: nat)
    requires ran <= instrs && 40 <= top < WORD && Spares(instrs, top - 40) && Spares(instrs, top - 16)
    requires forall a :: a in links ==> top <= a < WORD && Spares(instrs, a)
    ensures var m := Exec(Interrupted(Machine(c.rsp, mem), top, c, cs, flags, ss), ran);
      && m.rsp == top - 40 - Depth(ran) && CallerOf(true, m.mem, top - 40) == c
      && forall a :: a in links ==> At(m.mem, a) == At(mem, a)
  {
    var m0 := Interrupted(Machine(c.rsp, mem), top, c, cs, flags, ss);
    KeptBy(m0, ran, instrs, top - 40);
    KeptBy(m0, ran, instrs, top - 16);
    assert At(m0.mem, top - 40) == c.rip && At(m0.mem, top - 16) == c.rsp;
    hide Exec, Spares, Depth;
    forall a | a in links
      ensures At(Exec(m0, ran).mem, a) == At(mem, a)
    {
      KeptBy(m0, ran, instrs, a);
    }
  }
}
