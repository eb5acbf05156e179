/** Calls and returns match up, through any nesting of calls, tail calls and caught exceptions. */
module CallReturn {
  import opened Words
  import opened Isa
  import opened Machine
  import opened Tables
  import opened InstructionLaws
  import Simulation
  import Tags

  predicate IsCall(op: byte) { op == CALL || op == CALLSYMBOLIC || op == INVOKESYMBOLIC || op == INVOKEADDRESS }

  /** Bytes of a call instruction. */
  function CallLength(op: byte): nat
    requires IsCall(op)
  {
    if op == CALL then 13 else if op == CALLSYMBOLIC then 9 else 6
  }

  lemma {:induction false} CallSize(i: Instr<nat>)
    requires i.Known() && IsCall(i.op)
    ensures i.Size() == CallLength(i.op)
  {
  }

  /** The frame of the running instruction notes where it is. */
  function Noted(s: State): State { SetTop(s, Top(s).(current := s.ip)) }

  /** If the next instruction raises an exception, no frame below `d` has the handler for it. */
  ghost predicate Contained(s: State, env: Env, d: nat) {
    match Decode(s.mem, s.ip)
    case None => true
    case Some(i) =>
      Straightforward(i.op) ==>
        match Compute(i, s.data, Top(s).locals, env.consts)
        case Some(Raise(_)) => Handler(Noted(s).frames, |s.frames| - 1) == None
                               || Handler(Noted(s).frames, |s.frames| - 1).value >= d
        case _ => true
  }

  /** `m` turns, each from a state with more than `d` frames, none of them reaching into the lower ones. */
  ghost predicate StaysAbove(s: State, env: Env, d: nat, m: nat)
    decreases m
  {
    m == 0 || (
      && |s.frames| > d && Contained(s, env, d)
      && Step(s, env).Running? && StaysAbove(Step(s, env).s, env, d, m - 1))
  }

  /** The frames below the call, and the callee's return address and register. */
  datatype Call = Call(below: seq<Frame>, ret: u64, reg: byte)

  ghost predicate InCall(s: State, c: Call) {
    && |s.frames| > |c.below| >= 1
    && s.frames[..|c.below|] == c.below
    && s.frames[|c.below|].ret == c.ret && s.frames[|c.below|].retReg == c.reg
  }

  /** `r` is back from the call: `prev` executed the RETURN. */
  ghost predicate BackFrom(prev: State, r: State, c: Call) {
    && r.frames == c.below && r.ip == c.ret && r.mem == prev.mem
    && var i := Decode(prev.mem, prev.ip);
       && i.Some? && i.value.op == RETURN && |i.value.pre| == 1
       && var v := Read(prev.data, i.value.pre[0]);
          v.Some? && Write(prev.data, c.reg, v.value) == Some(r.data)
  }

  lemma {:induction false} NotedInCall(s: State, c: Call, mem: seq<byte>)
    requires InCall(s, c)
    ensures InCall(Noted(s).(mem := mem), c)
  {
  }

  lemma {:induction false} ReturnKeeps(s: State, i: Instr<nat>, c: Call)
    requires InCall(s, c) && i.Known() && i.op == RETURN && ReturnStep(s, i).Running?
    ensures var r := ReturnStep(s, i).s;
      && r.mem == s.mem
      && if |s.frames| == |c.below| + 1
         then r.frames == c.below && r.ip == c.ret && |i.pre| == 1 && Read(s.data, i.pre[0]).Some?
              && Write(s.data, c.reg, Read(s.data, i.pre[0]).value) == Some(r.data)
         else InCall(r, c)
  {
  }

  lemma {:induction false} ClimbKeeps(s: State, c: Call)
    requires InCall(s, c) && Climb(s).Running?
    requires Handler(s.frames, |s.frames| - 1) == None || Handler(s.frames, |s.frames| - 1).value >= |c.below|
    ensures InCall(Climb(s).s, c)
  {
  }

  lemma {:induction false} CallKeeps(s: State, i: Instr<nat>, env: Env, c: Call)
    requires InCall(s, c) && CallStep(s, i, env).Running?
    ensures InCall(CallStep(s, i, env).s, c)
  {
  }

  lemma {:induction false} OtherKeeps(s: State, i: Instr<nat>, env: Env, c: Call)
    requires InCall(s, c) && Execute(s, i, env).Running? && i.op != RETURN && !Tagged(i.op)
    requires Straightforward(i.op) ==>
      match Compute(i, s.data, Top(s).locals, env.consts)
      case Some(Raise(_)) => Handler(s.frames, |s.frames| - 1) == None
                             || Handler(s.frames, |s.frames| - 1).value >= |c.below|
      case _ => true
    ensures InCall(Execute(s, i, env).s, c)
  {
    hide Compute, Climb, Handler;
    if Straightforward(i.op) {
      var e := Compute(i, s.data, Top(s).locals, env.consts);
      if e.Some? && e.value.Raise? {
        ClimbKeeps(s.(data := e.value.d), c);
      }
    }
  }

  /** One turn inside a call stays inside it or returns from it. */
  lemma {:induction false} StepKeeps(s: State, env: Env, c: Call)
    requires InCall(s, c) && Contained(s, env, |c.below|) && Step(s, env).Running?
    ensures InCall(Step(s, env).s, c) || BackFrom(s, Step(s, env).s, c)
  {
    hide Compute, Handler, Decode, Climb, CallStep, ReturnStep, BumpTag, InCall;
    var i := Decode(s.mem, s.ip);
    if i.Some? {
      var mem := MemoryAfter(s.mem, s.ip, i.value.op);
      NotedInCall(s, c, mem);
      var t := Noted(s).(mem := mem);
      assert Step(s, env) == Execute(t, i.value, env);
      DecodedKnown(s.mem, s.ip, i.value);
      if i.value.op == RETURN {
        ReturnKeeps(t, i.value, c);
      } else if Tagged(i.value.op) {
        CallKeeps(t, i.value, env, c);
      } else {
        OtherKeeps(t, i.value, env, c);
      }
    }
  }

  lemma {:induction false} RunKeeps(s: State, env: Env, c: Call, m: nat) returns (prev: State)
    requires InCall(s, c) && StaysAbove(s, env, |c.below|, m)
    ensures Run(s, env, m).Running?
    ensures var r := Run(s, env, m).s;
      InCall(r, c) || (m > 0 && Run(s, env, m - 1) == Running(prev) && BackFrom(prev, r, c))
    decreases m
  {
    hide Step, Contained, BackFrom;
    prev := s;
    if m > 0 {
      StepKeeps(s, env, c);
      var t := Step(s, env).s;
      if InCall(t, c) {
        prev := RunKeeps(t, env, c, m - 1);
      } else {
        NotAbove(s, t, c);
        assert m == 1;
      }
    }
  }

  lemma {:induction false} NotAbove(prev: State, r: State, c: Call)
    requires BackFrom(prev, r, c)
    ensures |r.frames| == |c.below|
  {
  }

  // ---------------------------------------------------------------- entering and coming back

  /** The operands of a call. */
  lemma {:induction false} CallOperands(i: Instr<nat>)
    requires i.Known() && (IsCall(i.op) || i.op == TAILCALL)
    ensures if i.op == CALL || i.op == CALLSYMBOLIC then |i.post| == 1
            else if i.op == TAILCALL then i.Size() == 12 else |i.pre| == 2
  {
  }

  lemma {:induction false} DecodedInside(mem: seq<byte>, ip: nat, i: Instr<nat>)
    requires Decode(mem, ip) == Some(i)
    ensures ip + i.Size() <= |mem|
  {
  }

  /** The call has been counted in the third byte behind its opcode, modulo 256, and nothing else in the program has
  changed. */
  ghost predicate HeatCounted(s: State, r: State) {
    s.ip + 3 < |s.mem| && r.mem == s.mem[s.ip + 3 := ((s.mem[s.ip + 3] as int) + 1) % 0x100]
  }

  /** A call notes the address behind itself and the register of its result, the last one it is written with, in a
  new frame without locals and handlers, and passes the arguments. */
  lemma {:induction false} EnterCall(s: State, env: Env, i: Instr<nat>)
    requires Decode(s.mem, s.ip) == Some(i) && IsCall(i.op) && Step(s, env).Running?
    ensures if i.op == CALL || i.op == CALLSYMBOLIC then |i.post| == 1 else |i.pre| == 2
    ensures var result := if i.op == CALL || i.op == CALLSYMBOLIC then i.post[0] else i.pre[1];
      InCall(Step(s, env).s, Call(Noted(s).frames, Wrap64(s.ip + CallLength(i.op)), result))
    ensures var r := Step(s, env).s;
      && |r.frames| == |s.frames| + 1 && r.data == CopyRegs(s.data) && HeatCounted(s, r)
      && r.frames[|s.frames|].locals == [] && r.frames[|s.frames|].catchAt == EMPTY_CATCH
  {
    hide Decode, Destination, BumpTag, CopyRegs;
    DecodedKnown(s.mem, s.ip, i);
    CallSize(i);
    CallOperands(i);
    DecodedInside(s.mem, s.ip, i);
    Tags.BumpBytes(s.mem, s.ip + 1);
  }

  /** Control has entered a subroutine at `dest`, in a new frame; or there is no room for one. */
  ghost predicate Enters(s: State, o: Outcome<State>, dest: int) {
    if |s.frames| >= STACK_SIZE then o.Faulted?
    else o.Running? && o.s.ip == dest % TWO64 && |o.s.frames| == |s.frames| + 1
  }

  /** Where calls go: CALL to its field; CALLSYMBOLIC to the table's entry for the symbol its constant is;
  INVOKESYMBOLIC to that of the symbol in its first register; INVOKEADDRESS to the integer there. */
  lemma {:induction false} CallTarget(s: State, env: Env, i: Instr<nat>, v: Value)
    requires Decode(s.mem, s.ip) == Some(i)
    ensures i.op == CALL ==> Enters(s, Step(s, env), i.field)
    ensures i.op == CALLSYMBOLIC && i.field < |env.consts| && env.consts[i.field] == v ==>
              if v.Symbol? && Find(env.table, v.id).Some? then Enters(s, Step(s, env), Find(env.table, v.id).value)
              else Step(s, env).Faulted?
    ensures i.op == CALLSYMBOLIC && i.field >= |env.consts| ==> Step(s, env).Faulted?
    ensures i.op == INVOKESYMBOLIC && |i.pre| == 2 && Read(s.data, i.pre[0]) == Some(Some(v)) ==>
              if v.Symbol? && Find(env.table, v.id).Some? then Enters(s, Step(s, env), Find(env.table, v.id).value)
              else Step(s, env).Faulted?
    ensures i.op == INVOKEADDRESS && |i.pre| == 2 && Read(s.data, i.pre[0]) == Some(Some(v)) ==>
              if v.Int? then Enters(s, Step(s, env), v.n) else Step(s, env).Faulted?
  {
    hide Decode, MemoryAfter, CopyRegs, Find;
    if i.op == CALLSYMBOLIC && i.field < |env.consts| && v.Symbol? && Find(env.table, v.id).Some? {
      SmallAddress(Find(env.table, v.id).value);
    }
    if i.op == INVOKESYMBOLIC && v.Symbol? && Find(env.table, v.id).Some? {
      SmallAddress(Find(env.table, v.id).value);
    }
  }

  lemma {:induction false} SmallAddress(a: u64)
    ensures a % TWO64 == a
  {
    QuotientUnique(a, TWO64, 0, a);
  }

  /** A tail call takes over its caller's frame: same return address and register, no locals and no handler. */
  lemma {:induction false} TailCallStep(s: State, env: Env, i: Instr<nat>)
    requires Decode(s.mem, s.ip) == Some(i) && i.op == TAILCALL
    ensures Step(s, env).Running?
    ensures var r, n := Step(s, env).s, |s.frames| - 1;
      && r.ip == i.field % TWO64 && |r.frames| == n + 1 && r.frames[..n] == s.frames[..n] && r.data == CopyRegs(s.data)
      && r.frames[n].ret == s.frames[n].ret && r.frames[n].retReg == s.frames[n].retReg
      && r.frames[n].locals == [] && r.frames[n].catchAt == EMPTY_CATCH && HeatCounted(s, r)
  {
    hide Decode, BumpTag, CopyRegs;
    DecodedKnown(s.mem, s.ip, i);
    CallOperands(i);
    DecodedInside(s.mem, s.ip, i);
    Tags.BumpBytes(s.mem, s.ip + 1);
  }

  /** `RETURN a` hands a to the register its frame names and goes back; from the stack root it raises. */
  lemma {:induction false} ReturnLaw(s: State, env: Env, i: Instr<nat>, a: byte, v: Reg)
    requires Decode(s.mem, s.ip) == Some(i) && i.op == RETURN && i.pre == [a] && Read(s.data, a) == Some(v)
    ensures var n := |s.frames| - 1;
      if n == 0 then RaisesNew(s, Step(s, env))
      else
        match Write(s.data, s.frames[n].retReg, v)
        case None => Step(s, env).Faulted?
        case Some(d) => Step(s, env) == Running(MachineState(s.mem, s.frames[n].ret, s.frames[..n], d))
  {
    hide Decode, Raises, Climb, Read, Write;
    if |s.frames| == 1 {
      var t := Noted(s).(data := RaiseNew(s.data).d);
      SameArms(s, t);
      ClimbRaises(s, t);
      assert Step(s, env) == Climb(t);
    }
  }

  /** The first time the stack is back at the caller's depth, control is right behind the call, the
  frames are the caller's, untouched but for the note of where the call was, and the value of the
  RETURN is in the register the call is written with last. The stack never gets below that depth before. */
  lemma {:induction false} MatchedReturn(s: State, env: Env, i: Instr<nat>, t: State, m: nat) returns (last: State)
    requires Decode(s.mem, s.ip) == Some(i) && IsCall(i.op)
    requires Step(s, env) == Running(t) && StaysAbove(t, env, |s.frames|, m)
    ensures if i.op == CALL || i.op == CALLSYMBOLIC then |i.post| == 1 else |i.pre| == 2
    ensures Run(s, env, m + 1).Running?
    ensures var r := Run(s, env, m + 1).s;
      var result := if i.op == CALL || i.op == CALLSYMBOLIC then i.post[0] else i.pre[1];
      && |r.frames| >= |s.frames|
      && r.frames[..|s.frames|] == Noted(s).frames
      && (|r.frames| == |s.frames| ==>
            && m > 0 && Run(s, env, m) == Running(last)
            && BackFrom(last, r, Call(Noted(s).frames, Wrap64(s.ip + CallLength(i.op)), result)))
  {
    hide Step, Contained, BackFrom, Decode;
    EnterCall(s, env, i);
    var result := if i.op == CALL || i.op == CALLSYMBOLIC then i.post[0] else i.pre[1];
    var c := Call(Noted(s).frames, Wrap64(s.ip + CallLength(i.op)), result);
    last := RunKeeps(t, env, c, m);
    var r := Run(s, env, m + 1).s;
    if !InCall(r, c) {
      NotAbove(last, r, c);
      BackFrames(last, r, c);
    }
  }

  lemma {:induction false} BackFrames(prev: State, r: State, c: Call)
    requires BackFrom(prev, r, c)
    ensures r.frames[..|c.below|] == c.below
  {
  }

  /** The shortest call: to a subroutine that returns a register at once. */
  lemma {:induction false} ImmediateReturn(s: State, env: Env, dest: u64, result: byte, into: byte)
    requires HoldsAt(s.mem, s.ip, Instr(CALL, true, [], 8, dest, [into]))
    requires HoldsAt(s.mem, dest, Instr(RETURN, false, [result], 0, 0, []))
    requires s.ip as int + 13 <= dest || dest as int + 2 <= s.ip
    requires |s.frames| < STACK_SIZE && result < GENERAL_REGISTERS && into < GENERAL_REGISTERS
    ensures Step(s, env).Running? && StaysAbove(Step(s, env).s, env, |s.frames|, 1)
    ensures Run(s, env, 2).Running?
    ensures var r := Run(s, env, 2).s;
      && r.ip == Wrap64(s.ip + 13) && r.frames == Noted(s).frames
      && r.data == CopyRegs(s.data).(general := s.data.general[into := s.data.general[result]])
  {
    hide Decode, HoldsAt, Run, Step, CopyRegs;
    var call, back := Instr(CALL, true, [], 8, dest, [into]), Instr(RETURN, false, [result], 0, 0, []);
    PowerFacts();
    DecodeHeld(s.mem, s.ip, call);
    TagOnly(s.mem, s.ip, call, dest, back);
    CallTaken(s, env, call, dest);
    var t := Step(s, env).s;
    DecodeHeld(t.mem, dest, back);
    ReturnTaken(t, env, back);
    RunTwice(s, env);
    GeneralKept(s.data);
  }

  lemma {:induction false} GeneralKept(d: Data)
    ensures CopyRegs(d).general == d.general
  {
  }

  lemma {:induction false} CallTaken(s: State, env: Env, call: Instr<nat>, dest: u64)
    requires Decode(s.mem, s.ip) == Some(call) && call.op == CALL && call.field == dest && call.Size() == 13
    requires |s.frames| < STACK_SIZE
    ensures Step(s, env)
            == Running(MachineState(MemoryAfter(s.mem, s.ip, CALL), dest,
                                    Noted(s).frames + [NewFrame(Wrap64(s.ip + 13), RegPost(call))], CopyRegs(s.data)))
  {
    hide Decode, MemoryAfter, CopyRegs;
    QuotientUnique(dest, TWO64, 0, dest);
  }

  lemma {:induction false} ReturnTaken(t: State, env: Env, back: Instr<nat>)
    requires Decode(t.mem, t.ip) == Some(back) && back.op == RETURN && |t.frames| > 1
    requires Reg0(back) < GENERAL_REGISTERS && Top(t).retReg < GENERAL_REGISTERS
    ensures Contained(t, env, |t.frames| - 1)
    ensures Step(t, env)
            == Running(MachineState(t.mem, Top(t).ret, t.frames[..|t.frames| - 1],
                                    t.data.(general := t.data.general[Top(t).retReg := t.data.general[Reg0(back)]])))
  {
    hide Decode, Compute, BumpTag;
  }

  /** Counting the call in its tag leaves the subroutine's instruction where it was. */
  lemma {:induction false} TagOnly(mem: seq<byte>, ip: nat, call: Instr<nat>, dest: nat, back: Instr<nat>)
    requires HoldsAt(mem, ip, call) && call.op == CALL && call.Size() == 13 && back.Size() == 2
    requires HoldsAt(mem, dest, back) && (ip + 13 <= dest || dest + 2 <= ip)
    ensures HoldsAt(MemoryAfter(mem, ip, CALL), dest, back)
  {
    hide BumpTag;
    Tags.BumpFrame(mem, ip + 1);
    Simulation.HoldsApart(mem, BumpTag(mem, ip + 1), dest, back, ip + 1);
  }

  lemma {:induction false} RunTwice(s: State, env: Env)
    requires Step(s, env).Running?
    ensures Run(s, env, 2) == Step(Step(s, env).s, env)
  {
    hide Step;
    assert Run(s, env, 2) == Run(Step(s, env).s, env, 1);
    var o := Step(Step(s, env).s, env);
    assert o.Running? ==> Run(o.s, env, 0) == o;
  }
}
