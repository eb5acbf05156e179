/** A machine that runs a program by instruction numbers, and the proof that the interpreter on the
assembled, loaded bytes does the same, step for step, for whole runs. */
module Simulation {
  import opened Words
  import opened Isa
  import opened Tables
  import opened Machine
  import Tags

  // ---------------------------------------------------------------- the symbolic machine

  /** Instructions one after another in memory, and, for those that name an instruction, its number. */
  datatype Text = Text(base: nat, code: seq<Instr<nat>>, targets: seq<Option<nat>>)

  /** The address of instruction `k`; past the last one, the address of the end. */
  function AddrOf(x: Text, k: nat): nat
    requires k <= |x.code|
  {
    x.base + Offset(x.code, k)
  }

  /** Control state by instruction numbers: no byte, no address. */
  datatype SymFrame = SymFrame(current: Option<nat>, ret: nat, retReg: byte, handler: Option<nat>,
                               handlerReg: byte, locals: Table<Reg>)

  datatype SymMachine = SymMachine(pc: nat, frames: seq<SymFrame>, data: Data)

  const SYM_ROOT := NewSymFrame(0, 0)

  function NewSymFrame(ret: nat, retReg: byte): SymFrame {
    SymFrame(None, ret, retReg, None, REG_NULL, [])
  }

  type SymState = t: SymMachine | |t.frames| >= 1
    witness SymMachine(0, [NewSymFrame(0, 0)],
                       Registers(seq(GENERAL_REGISTERS, _ => None), seq(ARGUMENT_REGISTERS, _ => None),
                                 seq(PARAMETER_REGISTERS, _ => None), [], None, 0))

  /** Strayed: control left the program, or a computed address is no instruction of it. */
  datatype SymOutcome =
    SymRunning(t: SymState) | SymHalted(t: SymState) | SymUncaught(t: SymState) | SymFaulted | Strayed

  function SymTop(t: SymState): SymFrame { t.frames[|t.frames| - 1] }

  function SetSymTop(t: SymState, f: SymFrame): SymState { t.(frames := t.frames[|t.frames| - 1 := f]) }

  /** The addresses of all instructions and of the end. */
  function Addresses(x: Text): (a: seq<nat>)
    ensures |a| == |x.code| + 1
    ensures forall k :: 0 <= k <= |x.code| ==> a[k] == AddrOf(x, k)
  {
    seq(|x.code| + 1, k requires 0 <= k <= |x.code| => AddrOf(x, k))
  }

  /** The instruction loaded at an address. */
  ghost function Locate(addrs: seq<nat>, a: nat): (r: Option<nat>)
    ensures r.Some? ==> At(addrs, a, r.value)
  {
    if k :| 0 <= k < |addrs| && addrs[k] == a then Some(k) else None
  }

  /** `a` is the address of instruction `k`. */
  ghost predicate At(addrs: seq<nat>, a: nat, k: nat) { k < |addrs| && a == addrs[k] }

  /** Where instruction `k`'s address operand leads: to the instruction it names, or, when it was
  given as a number, to the instruction loaded there. */
  ghost function Goal(x: Text, k: nat): Option<nat>
    requires k < |x.code| == |x.targets|
  {
    if x.targets[k].Some? then x.targets[k] else Locate(Addresses(x), Wrap64(x.code[k].field))
  }

  ghost function SymGoto(t: SymState, goal: Option<nat>): SymOutcome {
    match goal
    case None => Strayed
    case Some(k) => SymRunning(t.(pc := k))
  }

  function SymHandler(frames: seq<SymFrame>, k: nat): (r: Option<nat>)
    requires k < |frames|
    ensures r.Some? ==> r.value <= k && frames[r.value].handler.Some?
  {
    if frames[k].handler.Some? then Some(k) else if k == 0 then None else SymHandler(frames, k - 1)
  }

  function SymClimb(t: SymState): SymOutcome {
    match SymHandler(t.frames, |t.frames| - 1)
    case None => SymUncaught(t)
    case Some(k) =>
      var f := t.frames[k];
      match Write(t.data, f.handlerReg, t.data.exception)
      case None => SymFaulted
      case Some(d) =>
        SymRunning(t.(pc := f.handler.value, data := d,
                      frames := t.frames[k := f.(handler := None, handlerReg := REG_NULL)]))
  }

  /** A call or invocation. `goal` is where the instruction's own operand leads. */
  ghost function SymCall(t: SymState, x: Instr<nat>, goal: Option<nat>, addrs: seq<nat>, env: Env): SymOutcome {
    match Destination(x, t.data, env)
    case None => SymFaulted
    case Some(dest) =>
      match if x.op == CALL || x.op == TAILCALL then goal else Locate(addrs, dest)
      case None => Strayed
      case Some(k) =>
        if x.op == TAILCALL then
          SymRunning(SetSymTop(t, NewSymFrame(SymTop(t).ret, SymTop(t).retReg)).(pc := k, data := CopyRegs(t.data)))
        else if |t.frames| >= STACK_SIZE then SymFaulted
        else SymRunning(t.(pc := k, data := CopyRegs(t.data),
                           frames := t.frames + [NewSymFrame(t.pc + 1, ReturnRegister(x))]))
  }

  function SymReturn(t: SymState, x: Instr<nat>): SymOutcome {
    if |t.frames| == 1 then SymClimb(t.(data := RaiseNew(t.data).d))
    else
      match Read(t.data, Reg0(x))
      case None => SymFaulted
      case Some(v) =>
        match Write(t.data, SymTop(t).retReg, v)
        case None => SymFaulted
        case Some(d) => SymRunning(t.(pc := SymTop(t).ret, frames := t.frames[..|t.frames| - 1], data := d))
  }

  ghost function SymJump(t: SymState, x: Instr<nat>, goal: Option<nat>, addrs: seq<nat>): SymOutcome {
    if x.op == JUMP then
      (if t.pc < |addrs| then SymGoto(t, Locate(addrs, JumpTo(Wrap64(addrs[t.pc]), x.field))) else Strayed)
    else if x.op == GOTO then SymGoto(t, goal)
    else
      match Read(t.data, Reg0(x))
      case None => SymFaulted
      case Some(None) => SymFaulted
      case Some(Some(v)) =>
        if x.op == GOTOADDRESS then (if v.Int? then SymGoto(t, Locate(addrs, Unsigned(v.n))) else SymFaulted)
        else if Falsey(v) then SymRunning(t.(pc := t.pc + 1))
        else SymGoto(t, goal)
  }

  ghost function SymExecute(t: SymState, x: Instr<nat>, goal: Option<nat>, addrs: seq<nat>, env: Env): SymOutcome {
    if x.op == DIE then SymHalted(t)
    else if Tagged(x.op) then SymCall(t, x, goal, addrs, env)
    else if x.op == RETURN then SymReturn(t, x)
    else if Jumps(x.op) then SymJump(t, x, goal, addrs)
    else if x.op == CATCH then
      (match goal
       case None => Strayed
       case Some(k) =>
         SymRunning(SetSymTop(t, SymTop(t).(handler := Some(k), handlerReg := RegPost(x))).(pc := t.pc + 1)))
    else if x.op == CLEARCATCH then
      SymRunning(SetSymTop(t, SymTop(t).(handler := None, handlerReg := REG_NULL)).(pc := t.pc + 1))
    else if Straightforward(x.op) then
      (match Compute(x, t.data, SymTop(t).locals, env.consts)
       case None => SymFaulted
       case Some(Continue(d, locals)) =>
         SymRunning(SetSymTop(t, SymTop(t).(locals := locals)).(pc := t.pc + 1, data := d))
       case Some(Raise(d)) => SymClimb(t.(data := d)))
    else SymFaulted
  }

  ghost function SymStep(x: Text, t: SymState, env: Env): SymOutcome
    requires |x.targets| == |x.code|
  {
    if t.pc >= |x.code| then Strayed
    else SymExecute(SetSymTop(t, SymTop(t).(current := Some(t.pc))), x.code[t.pc], Goal(x, t.pc), Addresses(x), env)
  }

  ghost function SymRun(x: Text, t: SymState, env: Env, n: nat): SymOutcome
    requires |x.targets| == |x.code|
    decreases n
  {
    if n == 0 then SymRunning(t)
    else
      match SymStep(x, t, env)
      case SymRunning(t') => SymRun(x, t', env, n - 1)
      case other => other
  }

  // ---------------------------------------------------------------- the two machines related

  ghost predicate FrameRelated(addrs: seq<nat>, i: nat, f: Frame, g: SymFrame) {
    && f.locals == g.locals && f.retReg == g.retReg && f.catchReg == g.handlerReg
    && (i > 0 ==> At(addrs, f.ret, g.ret))
    && (match g.handler case None => f.catchAt == EMPTY_CATCH case Some(k) => At(addrs, f.catchAt, k))
    && (match g.current case None => f.current == 0 case Some(k) => At(addrs, f.current, k))
  }

  ghost predicate FramesRelated(addrs: seq<nat>, fs: seq<Frame>, gs: seq<SymFrame>) {
    && |fs| == |gs|
    && forall i :: 0 <= i < |fs| ==> FrameRelated(addrs, i, fs[i], gs[i])
  }

  /** Control and data agree. */
  ghost predicate Related(addrs: seq<nat>, s: State, t: SymState) {
    && At(addrs, s.ip, t.pc)
    && FramesRelated(addrs, s.frames, t.frames)
    && s.data == t.data
  }

  /** What the byte machine must do when the symbolic one does `o`. */
  ghost predicate Matches(addrs: seq<nat>, r: Outcome<State>, o: SymOutcome) {
    match o
    case SymRunning(t) => r.Running? && Related(addrs, r.s, t)
    case SymHalted(t) => r.Halted? && Related(addrs, r.s, t)
    case SymUncaught(t) => r.Uncaught? && FramesRelated(addrs, r.s.frames, t.frames) && r.s.data == t.data
    case SymFaulted => r.Faulted?
    case Strayed => true
  }

  /** No instruction is at the address that means "no handler", or beyond. */
  ghost predicate Small(addrs: seq<nat>) {
    forall k :: 0 <= k < |addrs| ==> addrs[k] < EMPTY_CATCH
  }

  // ---------------------------------------------------------------- one instruction

  lemma {:induction false} HandlersAgree(addrs: seq<nat>, fs: seq<Frame>, gs: seq<SymFrame>, k: nat)
    requires Small(addrs) && FramesRelated(addrs, fs, gs) && k < |fs|
    ensures Handler(fs, k) == SymHandler(gs, k)
  {
    assert FrameRelated(addrs, k, fs[k], gs[k]);
    if gs[k].handler.None? && k > 0 {
      HandlersAgree(addrs, fs, gs, k - 1);
    }
  }

  lemma {:induction false} FramesUpdate(addrs: seq<nat>, fs: seq<Frame>, gs: seq<SymFrame>, k: nat,
      f: Frame, g: SymFrame)
    requires FramesRelated(addrs, fs, gs) && k < |fs| && FrameRelated(addrs, k, f, g)
    ensures FramesRelated(addrs, fs[k := f], gs[k := g])
  {
  }

  lemma {:induction false} PushFrame(addrs: seq<nat>, fs: seq<Frame>, gs: seq<SymFrame>, f: Frame, g: SymFrame)
    requires FramesRelated(addrs, fs, gs) && FrameRelated(addrs, |fs|, f, g)
    ensures FramesRelated(addrs, fs + [f], gs + [g])
  {
  }

  lemma {:induction false} PopFrame(addrs: seq<nat>, fs: seq<Frame>, gs: seq<SymFrame>)
    requires FramesRelated(addrs, fs, gs) && |fs| > 0
    ensures FramesRelated(addrs, fs[..|fs| - 1], gs[..|gs| - 1])
  {
  }

  lemma {:induction false} ClimbAgrees(addrs: seq<nat>, s: State, t: SymState)
    requires Small(addrs) && FramesRelated(addrs, s.frames, t.frames) && s.data == t.data
    ensures Matches(addrs, Climb(s), SymClimb(t))
  {
    HandlersAgree(addrs, s.frames, t.frames, |s.frames| - 1);
    var h := Handler(s.frames, |s.frames| - 1);
    if h.Some? {
      var k := h.value;
      var f, g := s.frames[k], t.frames[k];
      assert FrameRelated(addrs, k, f, g);
      FramesUpdate(addrs, s.frames, t.frames, k,
                   f.(catchAt := EMPTY_CATCH, catchReg := REG_NULL), g.(handler := None, handlerReg := REG_NULL));
    }
  }

  lemma {:induction false} CallAgrees(addrs: seq<nat>, s: State, t: SymState, x: Instr<nat>,
      goal: Option<nat>, env: Env)
    requires Related(addrs, s, t) && At(addrs, Wrap64(s.ip + x.Size()), t.pc + 1)
    requires goal.Some? ==> At(addrs, Wrap64(x.field), goal.value)
    ensures Matches(addrs, CallStep(s, x, env), SymCall(t, x, goal, addrs, env))
  {
    var o := SymCall(t, x, goal, addrs, env);
    if o.SymRunning? {
      var f, g := Top(s), SymTop(t);
      assert FrameRelated(addrs, |s.frames| - 1, f, g);
      if x.op == TAILCALL {
        FramesUpdate(addrs, s.frames, t.frames, |s.frames| - 1, NewFrame(f.ret, f.retReg),
                     NewSymFrame(g.ret, g.retReg));
      } else {
        PushFrame(addrs, s.frames, t.frames, NewFrame(Wrap64(s.ip + x.Size()), ReturnRegister(x)),
                  NewSymFrame(t.pc + 1, ReturnRegister(x)));
      }
    }
  }

  lemma {:induction false} ReturnAgrees(addrs: seq<nat>, s: State, t: SymState, x: Instr<nat>)
    requires Small(addrs) && Related(addrs, s, t)
    ensures Matches(addrs, ReturnStep(s, x), SymReturn(t, x))
  {
    if |s.frames| == 1 {
      ClimbAgrees(addrs, s.(data := RaiseNew(s.data).d), t.(data := RaiseNew(t.data).d));
    } else {
      assert FrameRelated(addrs, |s.frames| - 1, Top(s), SymTop(t));
      PopFrame(addrs, s.frames, t.frames);
    }
  }

  lemma {:induction false} JumpAgrees(addrs: seq<nat>, s: State, t: SymState, x: Instr<nat>, goal: Option<nat>)
    requires Small(addrs) && Related(addrs, s, t) && At(addrs, Wrap64(s.ip + x.Size()), t.pc + 1)
    requires goal.Some? ==> At(addrs, Wrap64(x.field), goal.value)
    ensures Matches(addrs, JumpStep(s, x), SymJump(t, x, goal, addrs))
  {
    assert Wrap64(addrs[t.pc]) == s.ip;
  }

  lemma {:induction false} ComputeAgrees(addrs: seq<nat>, s: State, t: SymState, x: Instr<nat>,
      goal: Option<nat>, env: Env)
    requires Small(addrs) && Related(addrs, s, t) && At(addrs, Wrap64(s.ip + x.Size()), t.pc + 1)
    requires Straightforward(x.op)
    ensures Matches(addrs, Execute(s, x, env), SymExecute(t, x, goal, addrs, env))
  {
    hide Compute, Climb, SymClimb;
    var f, g := Top(s), SymTop(t);
    assert FrameRelated(addrs, |s.frames| - 1, f, g);
    match Compute(x, s.data, f.locals, env.consts)
    case None =>
    case Some(Continue(d, locals)) =>
      FramesUpdate(addrs, s.frames, t.frames, |s.frames| - 1, f.(locals := locals), g.(locals := locals));
    case Some(Raise(d)) => ClimbAgrees(addrs, s.(data := d), t.(data := d));
  }

  lemma {:induction false} CatchAgrees(addrs: seq<nat>, s: State, t: SymState, x: Instr<nat>,
      goal: Option<nat>, env: Env)
    requires Related(addrs, s, t) && At(addrs, Wrap64(s.ip + x.Size()), t.pc + 1)
    requires goal.Some? ==> At(addrs, Wrap64(x.field), goal.value)
    requires x.op == CATCH || x.op == CLEARCATCH
    ensures Matches(addrs, Execute(s, x, env), SymExecute(t, x, goal, addrs, env))
  {
    var f, g, n := Top(s), SymTop(t), |s.frames| - 1;
    assert FrameRelated(addrs, n, f, g);
    if x.op == CLEARCATCH {
      FramesUpdate(addrs, s.frames, t.frames, n, f.(catchAt := EMPTY_CATCH, catchReg := REG_NULL),
                   g.(handler := None, handlerReg := REG_NULL));
    } else if goal.Some? {
      FramesUpdate(addrs, s.frames, t.frames, n, f.(catchAt := Wrap64(x.field), catchReg := RegPost(x)),
                   g.(handler := goal, handlerReg := RegPost(x)));
    }
  }

  lemma {:induction false} ExecuteAgrees(addrs: seq<nat>, s: State, t: SymState, x: Instr<nat>,
      goal: Option<nat>, env: Env)
    requires Small(addrs) && Related(addrs, s, t) && At(addrs, Wrap64(s.ip + x.Size()), t.pc + 1)
    requires goal.Some? ==> At(addrs, Wrap64(x.field), goal.value)
    ensures Matches(addrs, Execute(s, x, env), SymExecute(t, x, goal, addrs, env))
  {
    if x.op == DIE {
    } else if Tagged(x.op) {
      CallAgrees(addrs, s, t, x, goal, env);
    } else if x.op == RETURN {
      ReturnAgrees(addrs, s, t, x);
    } else if Jumps(x.op) {
      JumpAgrees(addrs, s, t, x, goal);
    } else if x.op == CATCH || x.op == CLEARCATCH {
      CatchAgrees(addrs, s, t, x, goal, env);
    } else if Straightforward(x.op) {
      ComputeAgrees(addrs, s, t, x, goal, env);
    }
  }

  // ---------------------------------------------------------------- instructions in memory

  /** The dispatcher knows the instruction, its number fits its field, and the number is the address
  of the instruction it names. */
  ghost predicate InstrSound(x: Text, k: nat)
    requires k < |x.code| == |x.targets|
  {
    && x.code[k].Known() && x.code[k].field < Pow256(x.code[k].width)
    && (x.targets[k].Some? ==>
          x.targets[k].value <= |x.code| && Wrap64(x.code[k].field) == AddrOf(x, x.targets[k].value))
  }

  ghost predicate Sound(x: Text) {
    && |x.targets| == |x.code| && AddrOf(x, |x.code|) < EMPTY_CATCH
    && forall k :: 0 <= k < |x.code| ==> InstrSound(x, k)
  }

  /** The instructions are in memory, whatever their tags have counted. */
  ghost predicate InMemory(x: Text, mem: seq<byte>) {
    forall k :: 0 <= k < |x.code| ==> Placed(x, mem, k)
  }

  ghost predicate Placed(x: Text, mem: seq<byte>, k: nat)
    requires k < |x.code|
  {
    HoldsAt(mem, AddrOf(x, k), x.code[k])
  }

  lemma {:induction false} AddressesSmall(x: Text)
    requires Sound(x)
    ensures Small(Addresses(x))
  {
    forall k | 0 <= k <= |x.code|
      ensures Addresses(x)[k] < EMPTY_CATCH
    {
      OffsetMonotone(x.code, k, |x.code|);
    }
  }

  lemma {:induction false} TaggedRoom(x: Instr<nat>)
    requires x.Known()
    ensures Tagged(x.op) ==> x.tagged && x.Size() >= 5
  {
  }

  /** The bytes before and after instruction `k` are other instructions'. */
  lemma {:induction false} Apart(x: Text, j: nat, k: nat)
    requires j < |x.code| && k < |x.code| && j != k
    ensures AddrOf(x, j) + x.code[j].Size() <= AddrOf(x, k) || AddrOf(x, k) + x.code[k].Size() <= AddrOf(x, j)
  {
    if j < k {
      OffsetMonotone(x.code, j, k);
    } else {
      OffsetMonotone(x.code, k, j);
    }
  }

  /** Changing tag bytes only. */
  lemma {:induction false} HoldsApart(mem: seq<byte>, mem': seq<byte>, at: nat, x: Instr<nat>, lo: nat)
    requires HoldsAt(mem, at, x) && |mem'| == |mem|
    requires forall i :: 0 <= i < |mem| && !(lo <= i < lo + 3) ==> mem'[i] == mem[i]
    requires (lo == at + 1 && x.tagged) || at + x.Size() <= lo || lo + 3 <= at
    ensures HoldsAt(mem', at, x)
  {
    forall b | 0 <= b < x.Size() && !InTag(x, b)
      ensures mem'[at + b] == Encode(x)[b]
    {
      assert mem[at + b] == Encode(x)[b];
    }
  }

  lemma {:induction false} BumpKeepsOne(x: Text, mem: seq<byte>, mem': seq<byte>, k: nat, j: nat)
    requires k < |x.code| && j < |x.code| && Placed(x, mem, j)
    requires x.code[k].tagged && x.code[k].Size() >= 5 && |mem'| == |mem|
    requires forall i :: 0 <= i < |mem| && !(AddrOf(x, k) + 1 <= i < AddrOf(x, k) + 4) ==> mem'[i] == mem[i]
    ensures Placed(x, mem', j)
  {
    if j != k {
      Apart(x, j, k);
    }
    HoldsApart(mem, mem', AddrOf(x, j), x.code[j], AddrOf(x, k) + 1);
  }

  /** Counting a call in its tag leaves every instruction where it was. */
  lemma {:induction false} BumpKeepsCode(x: Text, mem: seq<byte>, k: nat)
    requires Sound(x) && InMemory(x, mem) && k < |x.code|
    ensures InMemory(x, MemoryAfter(mem, AddrOf(x, k), x.code[k].op))
  {
    var lo := AddrOf(x, k) + 1;
    assert InstrSound(x, k);
    TaggedRoom(x.code[k]);
    if Tagged(x.code[k].op) {
      assert Placed(x, mem, k);
      Tags.BumpFrame(mem, lo);
      forall j | 0 <= j < |x.code|
        ensures Placed(x, BumpTag(mem, lo), j)
      {
        assert Placed(x, mem, j);
        BumpKeepsOne(x, mem, BumpTag(mem, lo), k, j);
      }
    }
  }

  // ---------------------------------------------------------------- runs

  lemma {:induction false} ExecuteKeepsMemory(s: State, x: Instr<nat>, env: Env)
    ensures var r := Execute(s, x, env); !r.Faulted? ==> r.s.mem == s.mem
  {
  }

  lemma {:induction false} NextAddress(x: Text, k: nat)
    requires Sound(x) && k < |x.code|
    ensures At(Addresses(x), Wrap64(AddrOf(x, k) + x.code[k].Size()), k + 1)
  {
    AddressesSmall(x);
    assert AddrOf(x, k + 1) == AddrOf(x, k) + x.code[k].Size();
    assert Addresses(x)[k + 1] < EMPTY_CATCH;
    QuotientUnique(AddrOf(x, k + 1), TWO64, 0, AddrOf(x, k + 1));
  }

  /** What the dispatcher fetches at instruction `k`: it, where control goes after it, and where
  its address operand leads. */
  ghost predicate Fetched(addrs: seq<nat>, mem: seq<byte>, k: nat, x: Instr<nat>, goal: Option<nat>) {
    && Small(addrs) && k < |addrs|
    && Decode(mem, addrs[k]) == Some(x)
    && At(addrs, Wrap64(addrs[k] + x.Size()), k + 1)
    && (goal.Some? ==> At(addrs, Wrap64(x.field), goal.value))
  }

  lemma {:induction false} FetchFacts(x: Text, mem: seq<byte>, k: nat)
    requires Sound(x) && InMemory(x, mem) && k < |x.code|
    ensures Fetched(Addresses(x), mem, k, x.code[k], Goal(x, k))
  {
    hide Decode, Small, Locate, HoldsAt;
    AddressesSmall(x);
    assert InstrSound(x, k) && Placed(x, mem, k);
    DecodeHeld(mem, AddrOf(x, k), x.code[k]);
    NextAddress(x, k);
  }

  /** One step of the symbolic machine is one turn of the dispatch loop. */
  lemma {:induction false} StepAgrees(x: Text, s: State, t: SymState, env: Env)
    requires Sound(x) && Related(Addresses(x), s, t) && InMemory(x, s.mem)
    ensures Matches(Addresses(x), Step(s, env), SymStep(x, t, env))
    ensures t.pc < |x.code| && !Step(s, env).Faulted? ==>
              && Step(s, env).s.mem == MemoryAfter(s.mem, AddrOf(x, t.pc), x.code[t.pc].op)
              && InMemory(x, Step(s, env).s.mem)
  {
    hide SymExecute, Matches, Step, InMemory, MemoryAfter, FramesRelated, Goal;
    if t.pc < |x.code| {
      FetchFacts(x, s.mem, t.pc);
      StepFetched(Addresses(x), s, t, x.code[t.pc], Goal(x, t.pc), env);
      BumpKeepsCode(x, s.mem, t.pc);
    } else {
      StraysMatch(Addresses(x), Step(s, env));
    }
  }

  lemma {:induction false} StraysMatch(addrs: seq<nat>, r: Outcome<State>)
    ensures Matches(addrs, r, Strayed)
  {
  }

  lemma {:induction false} StepFetched(addrs: seq<nat>, s: State, t: SymState, x: Instr<nat>,
      goal: Option<nat>, env: Env)
    requires Related(addrs, s, t) && Fetched(addrs, s.mem, t.pc, x, goal)
    ensures Matches(addrs, Step(s, env),
                    SymExecute(SetSymTop(t, SymTop(t).(current := Some(t.pc))), x, goal, addrs, env))
    ensures !Step(s, env).Faulted? ==> Step(s, env).s.mem == MemoryAfter(s.mem, s.ip, x.op)
  {
    hide Matches, Execute, SymExecute, MemoryAfter, Decode;
    var f, g := Top(s), SymTop(t);
    assert FrameRelated(addrs, |s.frames| - 1, f, g);
    var s' := SetTop(s, f.(current := s.ip)).(mem := MemoryAfter(s.mem, s.ip, x.op));
    FramesUpdate(addrs, s.frames, t.frames, |s.frames| - 1, f.(current := s.ip), g.(current := Some(t.pc)));
    ExecuteAgrees(addrs, s', SetSymTop(t, g.(current := Some(t.pc))), x, goal, env);
    ExecuteKeepsMemory(s', x, env);
  }

  /** Whole runs: whatever the symbolic machine does in `n` steps, the byte machine does too, tags
  counting along the way, until the program computes an address that is none of its instructions. */
  lemma {:induction false} RunAgrees(x: Text, s: State, t: SymState, env: Env, n: nat)
    requires Sound(x) && Related(Addresses(x), s, t) && InMemory(x, s.mem)
    ensures Matches(Addresses(x), Run(s, env, n), SymRun(x, t, env, n))
    ensures SymRun(x, t, env, n).SymRunning? ==> InMemory(x, Run(s, env, n).s.mem)
    decreases n
  {
    hide SymStep, Step, Related, InMemory, FramesRelated;
    if n > 0 {
      StepAgrees(x, s, t, env);
      var o := SymStep(x, t, env);
      if o.SymRunning? {
        RunningInside(x, t, env);
        RunAgrees(x, Step(s, env).s, o.t, env, n - 1);
      }
    }
  }

  lemma {:induction false} RunningInside(x: Text, t: SymState, env: Env)
    requires |x.targets| == |x.code| && !SymStep(x, t, env).Strayed?
    ensures t.pc < |x.code|
  {
    hide SymExecute;
  }

  // ---------------------------------------------------------------- tags in runs

  /** How often instruction `k` is executed in the first `n` steps. */
  ghost function Visits(x: Text, t: SymState, env: Env, k: nat, n: nat): nat
    requires |x.targets| == |x.code|
    decreases n
  {
    if n == 0 then 0
    else
      (if t.pc == k then 1 else 0)
      + match SymStep(x, t, env)
        case SymRunning(t') => Visits(x, t', env, k, n - 1)
        case _ => 0
  }

  lemma {:induction false} CountElsewhere(mem: seq<byte>, lo: nat, at: nat)
    requires lo + 4 <= |mem| && at + 4 <= |mem| && (lo + 4 <= at || at + 4 <= lo)
    ensures |BumpTag(mem, lo)| == |mem| && Tags.WordAt(BumpTag(mem, lo), at) == Tags.WordAt(mem, at)
  {
    hide BumpTag;
    Tags.BumpFrame(mem, lo);
    assert BumpTag(mem, lo)[at..at + 4] == mem[at..at + 4];
  }

  lemma {:induction false} CountHere(mem: seq<byte>, at: nat)
    requires at + 4 <= |mem|
    ensures |BumpTag(mem, at)| == |mem|
    ensures TagHeat(Tags.WordAt(BumpTag(mem, at), at)) == (TagHeat(Tags.WordAt(mem, at)) + 1) % 0x100
    ensures TagTrace(Tags.WordAt(BumpTag(mem, at), at)) == TagTrace(Tags.WordAt(mem, at))
  {
    hide BumpTag, TagHeat, TagTrace, Tags.WordAt;
    Tags.HeatAfter(mem, at, 1);
    assert Tags.BumpTimes(mem, at, 0) == mem;
  }

  /** Where the tag of a call is. */
  lemma {:induction false} TagRoom(x: Text, mem: seq<byte>, k: nat)
    requires Sound(x) && InMemory(x, mem) && k < |x.code| && Tagged(x.code[k].op)
    ensures AddrOf(x, k) + 5 <= AddrOf(x, k) + x.code[k].Size() <= |mem|
  {
    hide Tagged, HoldsAt;
    assert InstrSound(x, k) && Placed(x, mem, k);
    TaggedRoom(x.code[k]);
    HeldFits(mem, AddrOf(x, k), x.code[k]);
  }

  lemma {:induction false} HeldFits(mem: seq<byte>, at: nat, x: Instr<nat>)
    requires HoldsAt(mem, at, x)
    ensures at + x.Size() <= |mem|
  {
  }

  /** One step counts in the tag of the call executed and in no other. */
  lemma {:induction false} CountOnce(x: Text, mem: seq<byte>, pc: nat, k: nat)
    requires Sound(x) && InMemory(x, mem) && pc < |x.code| && k < |x.code| && Tagged(x.code[k].op)
    ensures var at, mem' := AddrOf(x, k) + 1, MemoryAfter(mem, AddrOf(x, pc), x.code[pc].op);
      && at + 4 <= |mem| == |mem'|
      && TagHeat(Tags.WordAt(mem', at)) == (TagHeat(Tags.WordAt(mem, at)) + if pc == k then 1 else 0) % 0x100
      && TagTrace(Tags.WordAt(mem', at)) == TagTrace(Tags.WordAt(mem, at))
  {
    hide Sound, BumpTag, TagHeat, TagTrace, Tags.WordAt, InMemory, Tagged, AddrOf;
    TagRoom(x, mem, k);
    HeatSmall(mem, AddrOf(x, k) + 1);
    if pc == k {
      CountHere(mem, AddrOf(x, k) + 1);
    } else if Tagged(x.code[pc].op) {
      TagRoom(x, mem, pc);
      Apart(x, pc, k);
      CountElsewhere(mem, AddrOf(x, pc) + 1, AddrOf(x, k) + 1);
    }
  }

  /** The heat of a call after a run is the heat before it plus the number of times the run executed the
  call, modulo 256; its trace index is as it was. */
  lemma {:induction false} HeatInRun(x: Text, s: State, t: SymState, env: Env, k: nat, n: nat)
    requires Sound(x) && Related(Addresses(x), s, t) && InMemory(x, s.mem)
    requires k < |x.code| && Tagged(x.code[k].op) && SymRun(x, t, env, n).SymRunning?
    ensures Run(s, env, n).Running?
    ensures var at, r := AddrOf(x, k) + 1, Run(s, env, n).s;
      && at + 4 <= |s.mem| == |r.mem|
      && TagHeat(Tags.WordAt(r.mem, at)) == (TagHeat(Tags.WordAt(s.mem, at)) + Visits(x, t, env, k, n)) % 0x100
      && TagTrace(Tags.WordAt(r.mem, at)) == TagTrace(Tags.WordAt(s.mem, at))
    decreases n
  {
    hide SymStep, Step, Related, InMemory, FramesRelated, TagHeat, TagTrace, MemoryAfter, Tags.WordAt, HoldsAt;
    var at := AddrOf(x, k) + 1;
    CountOnce(x, s.mem, k, k);
    HeatSmall(s.mem, at);
    if n > 0 {
      StepAgrees(x, s, t, env);
      var o := SymStep(x, t, env);
      RunningInside(x, t, env);
      CountOnce(x, s.mem, t.pc, k);
      HeatInRun(x, Step(s, env).s, o.t, env, k, n - 1);
      AddMod(TagHeat(Tags.WordAt(s.mem, at)), if t.pc == k then 1 else 0, Visits(x, o.t, env, k, n - 1));
    }
  }

  lemma {:induction false} HeatSmall(mem: seq<byte>, at: nat)
    requires at + 4 <= |mem|
    ensures TagHeat(Tags.WordAt(mem, at)) < 0x100
  {
    Tags.WordBound(mem, at);
  }

  lemma {:induction false} AddMod(h: nat, a: nat, b: nat)
    ensures ((h + a) % 0x100 + b) % 0x100 == (h + (a + b)) % 0x100
  {
  }
}
