/** The dispatch loop over a mutable virtual machine, proved to take exactly the steps of `Machine.Step`. */
module Interpreter {
  import opened Words
  import opened Isa
  import opened Tables
  import opened Machine
  import Loader

  /** How a turn of the loop ends. Failed: the C code asserts, or reads or writes outside its arrays. */
  datatype Status = Going | Stopped | Unhandled | Failed

  ghost function Seen(status: Status, s: State): Outcome<State> {
    match status
    case Going => Running(s)
    case Stopped => Halted(s)
    case Unhandled => Uncaught(s)
    case Failed => Faulted
  }

  lemma {:induction false} SetTopSame(s: State)
    ensures SetTop(s, Top(s)) == s
  {
  }

  class Vm {
    const store: Loader.Store
    var ip: u64
    const stack: array<Frame>
    var stackDepth: nat
    var top: nat                    // the frame `top` points to
    const general: array<Reg>
    const args: array<Reg>
    const params: array<Reg>
    var globals: Table<Reg>
    var exception: Reg
    var next: nat

    ghost predicate RegsValid()
      reads this
    {
      && general.Length == GENERAL_REGISTERS && args.Length == ARGUMENT_REGISTERS
      && params.Length == PARAMETER_REGISTERS
      && general != args && general != params && args != params
    }

    ghost function Regs(): Data
      requires RegsValid()
      reads this, general, args, params
    {
      Registers(general[..], args[..], params[..], globals, exception, next)
    }

    /** `top` is the frame at `stack_depth`. */
    ghost predicate Valid()
      reads this, store, store.table
    {
      && RegsValid()
      && stack.Length == STACK_SIZE && stackDepth < STACK_SIZE && top == stackDepth
      && store.CodeValid() && store.PoolValid() && store.table.Valid()
    }

    ghost function Now(): State
      requires Valid()
      reads this, store, store.table, store.program, stack, general, args, params
    {
      MachineState(store.Code(), ip, stack[..stackDepth + 1], Regs())
    }

    ghost function Around(): Env
      requires Valid()
      reads this, store, store.table, store.pool, store.table.heap
    {
      Env(store.Pool(), store.table.Pairs())
    }

    constructor (store: Loader.Store)
      requires store.Valid()
      ensures Valid() && this.store == store
      ensures fresh(stack) && fresh(general) && fresh(args) && fresh(params)
      ensures Now().ip == 0 && Now().frames == [ROOT] && Now().mem == store.Code() && Regs() == StartData()
    {
      this.store := store;
      ip := 0;
      stack := new Frame[STACK_SIZE](_ => ROOT);
      stackDepth, top := 0, 0;
      general := new Reg[GENERAL_REGISTERS](_ => Some(Null));
      args := new Reg[ARGUMENT_REGISTERS](_ => Some(Null));
      params := new Reg[PARAMETER_REGISTERS](_ => Some(Null));
      globals, exception, next := [], None, 0;
    }

    // -------------------------------------------------------------- registers

    method ReadRegister(reg: byte) returns (r: Option<Reg>)
      requires RegsValid()
      ensures r == Machine.Read(Regs(), reg)
    {
      if reg < GENERAL_REGISTERS {
        return Some(general[reg]);
      }
      if REG_PARAM_OFFSET <= reg < REG_PARAM_OFFSET + PARAMETER_REGISTERS {
        return Some(params[reg - REG_PARAM_OFFSET]);
      }
      return if reg == REG_ZERO then Some(Some(Int(0))) else if reg == REG_NULL then Some(Some(Null)) else None;
    }

    method WriteRegister(reg: byte, v: Reg) returns (ok: bool)
      requires RegsValid()
      modifies general, args
      ensures var w := Machine.Write(old(Regs()), reg, v);
        ok == w.Some? && Regs() == if ok then w.value else old(Regs())
    {
      if REG_PARAM_OFFSET <= reg < REG_PARAM_OFFSET + ARGUMENT_REGISTERS {
        return false;
      }
      if reg < GENERAL_REGISTERS {
        general[reg] := v;
      } else if REG_ARG_OFFSET <= reg < REG_ARG_OFFSET + ARGUMENT_REGISTERS {
        args[reg - REG_ARG_OFFSET] := v;
      }
      return true;
    }

    /** The second loop leaves its counter at 0, and stops because it has just cleared what it tests. */
    method CopyArguments()
      requires RegsValid()
      modifies args, params
      ensures Regs() == CopyRegs(old(Regs()))
    {
      var i := 0;
      while i < PARAMETER_REGISTERS
        invariant i <= PARAMETER_REGISTERS
        invariant forall j :: 0 <= j < i ==> params[j] == None
        invariant args[..] == old(args[..])
        modifies params
      {
        params[i] := None;
        i := i + 1;
      }
      i := 0;
      while i < ARGUMENT_REGISTERS && args[i].Some?
        invariant i == 0
        invariant forall j :: 1 <= j < PARAMETER_REGISTERS ==> params[j] == None
        invariant forall j :: 1 <= j < ARGUMENT_REGISTERS ==> args[j] == old(args[j])
        invariant (params[0] == None && args[0] == old(args[0])) || (params[0] == old(args[0]) && args[0] == None)
        decreases args[0].Some?
      {
        params[i] := args[i];
        args[i] := None;
      }
      params[PARAMETER_REGISTERS - 1] := Some(Int(i + 1));
      assert params[..] == CopyRegs(old(Regs())).params;
      assert args[..] == CopyRegs(old(Regs())).args;
    }

    // -------------------------------------------------------------- control

    /** Climbs the stack for a handler; the stack is not unwound. */
    method HandleException() returns (status: Status)
      requires Valid()
      modifies this`ip, stack, general, args
      ensures Valid() && Seen(status, Now()) == Climb(old(Now()))
    {
      var depth: nat := stackDepth;
      ghost var frames := Now().frames;
      while stack[depth].catchAt == EMPTY_CATCH
        invariant depth <= stackDepth
        invariant Handler(frames, depth) == Handler(frames, stackDepth)
        decreases depth
      {
        if depth == 0 {
          return Unhandled;
        }
        depth := depth - 1;
      }
      var frame := stack[depth];
      var ok := WriteRegister(frame.catchReg, exception);
      if !ok {
        return Failed;
      }
      ip := frame.catchAt;
      stack[depth] := frame.(catchAt := EMPTY_CATCH, catchReg := REG_NULL);
      assert stack[..stackDepth + 1] == frames[depth := stack[depth]];
      return Going;
    }

    /** Raises a new exception structure. */
    method RaiseException() returns (status: Status)
      requires Valid()
      modifies this, stack, general, args
      ensures Valid() && Seen(status, Now()) == Climb(old(Now()).(data := RaiseNew(old(Regs())).d))
    {
      exception, next := Some(Struct(next)), next + 1;
      status := HandleException();
    }

    method PushFrame(dest: u64, ret: int, reg: byte) returns (status: Status)
      requires Valid()
      modifies this, stack, args, params
      ensures Valid() && Seen(status, Now()) == Enter(old(Now()), dest, ret, reg)
    {
      if stackDepth + 1 >= STACK_SIZE {
        return Failed;
      }
      stackDepth := stackDepth + 1;
      stack[stackDepth] := NewFrame(Wrap64(ret), reg);
      CopyArguments();
      ip := dest;
      top := stackDepth;
      assert stack[..stackDepth + 1] == old(stack[..stackDepth + 1]) + [NewFrame(Wrap64(ret), reg)];
      return Going;
    }

    method FindDestination(i: Instr<nat>) returns (dest: Option<u64>)
      requires Valid()
      ensures dest == Destination(i, Regs(), Around())
    {
      if i.op == CALL || i.op == TAILCALL {
        return Some(Wrap64(i.field));
      }
      if i.op == CALLSYMBOLIC {
        if i.field < store.nextConst && store.pool[i.field].Symbol? {
          dest := store.table.Get(store.pool[i.field].id);
          return;
        }
        return None;
      }
      var v := ReadRegister(Reg0(i));
      if v.None? || v.value.None? {
        return None;
      }
      if i.op == INVOKESYMBOLIC {
        if v.value.value.Symbol? {
          dest := store.table.Get(v.value.value.id);
          return;
        }
        return None;
      }
      return if v.value.value.Int? then Some(Unsigned(v.value.value.n)) else None;
    }

    method DoCall(i: Instr<nat>) returns (status: Status)
      requires Valid()
      modifies this, stack, args, params
      ensures Valid() && Seen(status, Now()) == CallStep(old(Now()), i, old(Around()))
    {
      hide CopyRegs, Destination;
      var dest := FindDestination(i);
      if dest.None? {
        return Failed;
      }
      if i.op != TAILCALL {
        status := PushFrame(dest.value, ip + i.Size(), ReturnRegister(i));
        return;
      }
      var parent := stack[top];
      stack[stackDepth] := NewFrame(parent.ret, parent.retReg);
      CopyArguments();
      ip := dest.value;
      assert stack[..stackDepth + 1] == old(Now()).frames[stackDepth := stack[stackDepth]];
      return Going;
    }

    method DoReturn(i: Instr<nat>) returns (status: Status)
      requires Valid()
      modifies this, stack, general, args
      ensures Valid() && Seen(status, Now()) == ReturnStep(old(Now()), i)
    {
      if stackDepth == 0 {
        status := RaiseException();
        return;
      }
      var frame := stack[top];
      ip := frame.ret;
      stackDepth := stackDepth - 1;
      top := stackDepth;
      var v := ReadRegister(Reg0(i));
      if v.None? {
        return Failed;
      }
      var ok := WriteRegister(frame.retReg, v.value);
      assert stack[..stackDepth + 1] == old(Now()).frames[..stackDepth + 1];
      return if ok then Going else Failed;
    }

    method DoJump(i: Instr<nat>) returns (status: Status)
      requires Valid() && Jumps(i.op)
      modifies this`ip
      ensures Valid() && Seen(status, Now()) == JumpStep(old(Now()), i)
    {
      if i.op == JUMP {
        ip := JumpTo(ip, i.field);
        return Going;
      }
      if i.op == GOTO {
        ip := Wrap64(i.field);
        return Going;
      }
      var v := ReadRegister(Reg0(i));
      if v.None? || v.value.None? {
        return Failed;
      }
      if i.op == GOTOADDRESS {
        if !v.value.value.Int? {
          return Failed;
        }
        ip := Unsigned(v.value.value.n);
      } else if Falsey(v.value.value) {
        ip := Wrap64(ip + i.Size());
      } else {
        ip := Wrap64(i.field);
      }
      return Going;
    }

    method SetCatch(at: u64, reg: byte, size: nat)
      requires Valid()
      modifies this`ip, stack
      ensures Valid()
      ensures var s := old(Now());
        Now() == SetTop(s, Top(s).(catchAt := at, catchReg := reg)).(ip := Wrap64(s.ip + size))
    {
      stack[stackDepth] := stack[stackDepth].(catchAt := at, catchReg := reg);
      ip := Wrap64(ip + size);
      assert stack[..stackDepth + 1] == old(Now()).frames[stackDepth := stack[stackDepth]];
    }

    // -------------------------------------------------------------- instructions that compute

    /** What a method for straightforward instruction `i` leaves must be what `Execute` says. */
    ghost predicate Done(status: Status, s: State, i: Instr<nat>, env: Env)
      requires Valid()
      reads this, store, store.table, store.program, stack, general, args, params
    {
      Seen(status, Now()) == Execute(s, i, env)
    }

    /** Writes the first register and goes on. */
    method Finish(i: Instr<nat>, v: Reg, ghost env: Env) returns (status: Status)
      requires Valid() && Straightforward(i.op)
      requires Compute(i, Regs(), Top(Now()).locals, env.consts) == Machine.Store(Regs(), Reg0(i), v, Top(Now()).locals)
      modifies this`ip, general, args
      ensures Valid() && Done(status, old(Now()), i, env)
    {
      hide Compute;
      StoreExecutes(Now(), i, v, env);
      var ok := WriteRegister(Reg0(i), v);
      if !ok {
        return Failed;
      }
      ip := Wrap64(ip + i.Size());
      return Going;
    }

    /** Raises a new exception. */
    method Bad(i: Instr<nat>, ghost env: Env) returns (status: Status)
      requires Valid() && Straightforward(i.op)
      requires Compute(i, Regs(), Top(Now()).locals, env.consts) == Some(RaiseNew(Regs()))
      modifies this, stack, general, args
      ensures Valid() && Done(status, old(Now()), i, env)
    {
      hide Compute, Climb;
      RaiseExecutes(Now(), i, RaiseNew(Regs()).d, env);
      status := RaiseException();
    }

    method DoArithmetic(i: Instr<nat>, ghost env: Env) returns (status: Status)
      requires Valid() && Computes(i.op)
      modifies this, stack, general, args
      ensures Valid() && Done(status, old(Now()), i, env)
    {
      hide Execute, Arithmetic;
      var b := ReadRegister(Reg1(i));
      var c := ReadRegister(Reg2(i));
      if b.None? || c.None? || b.value.None? || c.value.None? {
        FaultExecutes(Now(), i, env);
        return Failed;
      }
      if !b.value.value.Int? || !c.value.value.Int? {
        status := Bad(i, env);
        return;
      }
      var n := Arithmetic(i.op, b.value.value.n, c.value.value.n);
      if n.None? {
        FaultExecutes(Now(), i, env);
        return Failed;
      }
      status := Finish(i, Some(Int(n.value)), env);
    }

    method DoAnd(i: Instr<nat>, ghost env: Env) returns (status: Status)
      requires Valid() && i.op == AND
      modifies this`ip, general, args
      ensures Valid() && Done(status, old(Now()), i, env)
    {
      hide Execute;
      var b := ReadRegister(Reg1(i));
      var c := ReadRegister(Reg2(i));
      if b.None? || c.None? || b.value.None? || (!Falsey(b.value.value) && c.value.None?) {
        FaultExecutes(Now(), i, env);
        return Failed;
      }
      if Falsey(b.value.value) || Falsey(c.value.value) {
        status := Finish(i, Some(Int(0)), env);
      } else {
        status := Finish(i, Some(Int(1)), env);
      }
    }

    /** Constants, literals and moves. */
    method DoSet(i: Instr<nat>, ghost env: Env) returns (status: Status)
      requires Valid() && env == Around()
      requires LoadsConstant(i.op) || i.op == MOVE || i.op == LITINTEGER || i.op == SETNULL
      modifies this`ip, general, args
      ensures Valid() && Done(status, old(Now()), i, env)
    {
      hide Execute;
      if LoadsConstant(i.op) {
        if i.field >= store.nextConst {
          FaultExecutes(Now(), i, env);
          return Failed;
        }
        status := Finish(i, Some(store.pool[i.field]), env);
      } else if i.op == MOVE {
        var v := ReadRegister(Reg1(i));
        if v.None? {
          FaultExecutes(Now(), i, env);
          return Failed;
        }
        status := Finish(i, v.value, env);
      } else if i.op == LITINTEGER {
        status := Finish(i, Some(Int(Signed(Wrap64(i.field)))), env);
      } else {
        status := Finish(i, Some(Null), env);
      }
    }

    /** The number of the symbol in a register. */
    method ReadKey(reg: byte) returns (key: Option<nat>)
      requires RegsValid()
      ensures key == ReadSymbol(Regs(), reg)
    {
      var v := ReadRegister(reg);
      return if v.None? || v.value.None? || !v.value.value.Symbol? then None else Some(v.value.value.id);
    }

    method DoLocal(i: Instr<nat>, ghost env: Env) returns (status: Status)
      requires Valid() && (i.op == SETLOCAL || i.op == GETLOCAL)
      modifies this, stack, general, args
      ensures Valid() && Done(status, old(Now()), i, env)
    {
      hide Execute, Insert, Find;
      var key := ReadKey(if i.op == SETLOCAL then Reg0(i) else Reg1(i));
      if key.None? {
        FaultExecutes(Now(), i, env);
        return Failed;
      }
      if i.op == GETLOCAL {
        var found := Find<Reg>(stack[top].locals, key.value);
        if found.None? || found.value.None? {
          status := Bad(i, env);
        } else {
          status := Finish(i, found.value, env);
        }
        return;
      }
      var v := ReadRegister(Reg1(i));
      if v.None? {
        FaultExecutes(Now(), i, env);
        return Failed;
      }
      ContinueExecutes(Now(), i, Regs(), Insert(stack[top].locals, Pair(key.value, v.value)), env);
      stack[top] := stack[top].(locals := Insert(stack[top].locals, Pair(key.value, v.value)));
      ip := Wrap64(ip + i.Size());
      assert stack[..stackDepth + 1] == old(Now()).frames[stackDepth := stack[stackDepth]];
      return Going;
    }

    method DoGlobal(i: Instr<nat>, ghost env: Env) returns (status: Status)
      requires Valid() && (i.op == SETGLOBAL || i.op == GETGLOBAL)
      modifies this`ip, this`globals, general, args
      ensures Valid() && Done(status, old(Now()), i, env)
    {
      hide Execute, Insert, Find;
      var key := ReadKey(if i.op == SETGLOBAL then Reg0(i) else Reg1(i));
      if key.None? {
        FaultExecutes(Now(), i, env);
        return Failed;
      }
      if i.op == GETGLOBAL {
        var found := Find<Reg>(globals, key.value);
        status := Finish(i, if found.Some? then found.value else None, env);
        return;
      }
      var v := ReadRegister(Reg1(i));
      if v.None? {
        FaultExecutes(Now(), i, env);
        return Failed;
      }
      ghost var d := Regs().(globals := Insert(globals, Pair(key.value, v.value)));
      ContinueExecutes(Now(), i, d, Top(Now()).locals, env);
      SetTopSame(Now());
      globals := Insert(globals, Pair(key.value, v.value));
      ip := Wrap64(ip + i.Size());
      return Going;
    }

    method DoException(i: Instr<nat>, ghost env: Env) returns (status: Status)
      requires Valid() && (i.op == CLEAREXCEPTION || i.op == SETEXCEPTION || i.op == THROW)
      modifies this, stack, general, args
      ensures Valid() && Done(status, old(Now()), i, env)
    {
      hide Execute, Climb;
      if i.op == CLEAREXCEPTION {
        ContinueExecutes(Now(), i, Regs().(exception := None), Top(Now()).locals, env);
        SetTopSame(Now());
        exception := None;
        ip := Wrap64(ip + i.Size());
        return Going;
      }
      if i.op == SETEXCEPTION {
        if exception.None? {
          status := Bad(i, env);
        } else {
          status := Finish(i, exception, env);
        }
        return;
      }
      status := DoThrow(i, env);
    }

    /** Only a structure can be thrown. */
    method DoThrow(i: Instr<nat>, ghost env: Env) returns (status: Status)
      requires Valid() && i.op == THROW
      modifies this, stack, general, args
      ensures Valid() && Done(status, old(Now()), i, env)
    {
      hide Execute, Climb;
      var v := ReadRegister(Reg0(i));
      if v.None? || v.value.None? {
        FaultExecutes(Now(), i, env);
        return Failed;
      }
      if !v.value.value.Struct? {
        status := Bad(i, env);
        return;
      }
      RaiseExecutes(Now(), i, Regs().(exception := v.value), env);
      exception := v.value;
      status := HandleException();
    }

    method DoStructNew(i: Instr<nat>, ghost env: Env) returns (status: Status)
      requires Valid() && i.op == STRUCTNEW
      modifies this`ip, this`next, general, args
      ensures Valid() && Done(status, old(Now()), i, env)
    {
      hide Execute;
      var ref := next;
      next := next + 1;
      ghost var d := Regs();
      var ok := WriteRegister(Reg0(i), Some(Struct(ref)));
      if !ok {
        FaultExecutes(old(Now()), i, env);
        return Failed;
      }
      ContinueExecutes(old(Now()), i, Regs(), Top(old(Now())).locals, env);
      SetTopSame(old(Now()));
      ip := Wrap64(ip + i.Size());
      return Going;
    }

    method DoNothing(i: Instr<nat>, ghost env: Env) returns (status: Status)
      requires Valid() && i.op == NOOP
      modifies this`ip
      ensures Valid() && Done(status, old(Now()), i, env)
    {
      SetTopSame(Now());
      ip := Wrap64(ip + i.Size());
      return Going;
    }

    // -------------------------------------------------------------- the loop

    /** The opcode at `ip` and its operands. */
    method Fetch() returns (i: Option<Instr<nat>>)
      requires Valid()
      ensures i == Decode(store.Code(), ip)
    {
      hide FromLittle, ShapeOf;
      if ip >= store.programSize {
        return None;
      }
      var op := store.program[ip];
      var shape := ShapeOf(op);
      if shape.None? || ip + shape.value.Size() > store.programSize {
        return None;
      }
      var sh := shape.value;
      SliceAt(store.Code(), store.program[..], ip, sh);
      return Some(Instr(op, sh.tagged, store.program[ip + sh.PreAt()..ip + sh.FieldAt()], sh.width,
                        FromLittle(store.program[ip + sh.FieldAt()..ip + sh.PostAt()]),
                        store.program[ip + sh.PostAt()..ip + sh.Size()]));
    }

    /** Counts one execution in the tag after the opcode. */
    method ProcessTag()
      requires Valid() && ip + 5 <= store.programSize
      modifies store.program
      ensures store.Code() == BumpTag(old(store.Code()), ip + 1)
    {
      hide Poke, Little, FromLittle;
      var field := store.program[ip + 1..ip + 5];
      assert field == store.Code()[ip + 1..ip + 5];
      var raw := FromLittle(field);
      var heat := TagHeat(raw);
      if heat != 1024 {
        heat := heat + 1;
      }
      store.WriteBytes(ip + 1, Little(4, TagWord(raw, heat, TagTrace(raw))));
    }

    method DoStraightforward(i: Instr<nat>, ghost env: Env) returns (status: Status)
      requires Valid() && Straightforward(i.op) && env == Around()
      modifies this, stack, general, args
      ensures Valid() && Done(status, old(Now()), i, env)
    {
      hide Execute, Compute;
      if Computes(i.op) {
        status := DoArithmetic(i, env);
      } else if i.op == AND {
        status := DoAnd(i, env);
      } else if i.op == SETLOCAL || i.op == GETLOCAL {
        status := DoLocal(i, env);
      } else if i.op == SETGLOBAL || i.op == GETGLOBAL {
        status := DoGlobal(i, env);
      } else if i.op == CLEAREXCEPTION || i.op == SETEXCEPTION || i.op == THROW {
        status := DoException(i, env);
      } else if i.op == STRUCTNEW {
        status := DoStructNew(i, env);
      } else if i.op == NOOP {
        status := DoNothing(i, env);
      } else {
        status := DoSet(i, env);
      }
    }

    /** One fetched instruction. */
    method DoInstruction(i: Instr<nat>) returns (status: Status)
      requires Valid()
      modifies this, stack, general, args, params
      ensures Valid() && Done(status, old(Now()), i, old(Around()))
    {
      hide Compute, CallStep, ReturnStep, JumpStep;
      ghost var env := Around();
      if i.op == DIE {
        status := Stopped;
      } else if Tagged(i.op) {
        status := DoCall(i);
      } else if i.op == RETURN {
        status := DoReturn(i);
      } else if Jumps(i.op) {
        status := DoJump(i);
      } else if i.op == CATCH {
        SetCatch(Wrap64(i.field), RegPost(i), i.Size());
        status := Going;
      } else if i.op == CLEARCATCH {
        SetCatch(EMPTY_CATCH, REG_NULL, i.Size());
        status := Going;
      } else if Straightforward(i.op) {
        status := DoStraightforward(i, env);
      } else {
        status := Failed;
      }
    }

    /** One turn of the dispatch loop. */
    method Step() returns (status: Status)
      requires Valid()
      modifies this, stack, general, args, params, store.program
      ensures Valid() && Around() == old(Around())
      ensures Seen(status, Now()) == Machine.Step(old(Now()), old(Around()))
    {
      hide Execute, Decode, BumpTag;
      ghost var s := Now();
      stack[top] := stack[top].(current := ip);
      assert stack[..stackDepth + 1] == s.frames[stackDepth := stack[stackDepth]];
      var i := Fetch();
      if i.None? {
        if ip < store.programSize && Stops(store.program[ip]) {
          return Stopped;
        }
        return Failed;
      }
      if Tagged(i.value.op) && ip + 5 <= store.programSize {
        ProcessTag();
      }
      status := DoInstruction(i.value);
    }

    /** The loop, for at most `n` turns. */
    method Run(n: nat) returns (status: Status)
      requires Valid()
      modifies this, stack, general, args, params, store.program
      ensures Valid() && Around() == old(Around())
      ensures Seen(status, Now()) == Machine.Run(old(Now()), old(Around()), n)
    {
      hide Machine.Step;
      var left: nat := n;
      while left > 0
        invariant Valid() && Around() == old(Around()) && left <= n
        invariant Machine.Run(Now(), Around(), left) == Machine.Run(old(Now()), old(Around()), n)
      {
        status := Step();
        left := left - 1;
        if status != Going {
          return;
        }
      }
      return Going;
    }
  }

  lemma {:induction false} SliceAt(code: seq<byte>, all: seq<byte>, ip: nat, sh: Shape)
    requires code <= all && ip + sh.Size() <= |code|
    ensures code[ip + sh.PreAt()..ip + sh.FieldAt()] == all[ip + sh.PreAt()..ip + sh.FieldAt()]
    ensures code[ip + sh.FieldAt()..ip + sh.PostAt()] == all[ip + sh.FieldAt()..ip + sh.PostAt()]
    ensures code[ip + sh.PostAt()..ip + sh.Size()] == all[ip + sh.PostAt()..ip + sh.Size()]
  {
  }

  // ---------------------------------------------------------------- what Execute does with an effect

  lemma {:induction false} StoreExecutes(s: State, i: Instr<nat>, v: Reg, env: Env)
    requires Straightforward(i.op)
    requires Compute(i, s.data, Top(s).locals, env.consts) == Store(s.data, Reg0(i), v, Top(s).locals)
    ensures Execute(s, i, env)
            == match Write(s.data, Reg0(i), v)
               case None => Faulted
               case Some(d) => Running(s.(ip := Wrap64(s.ip + i.Size()), data := d))
  {
    hide Compute;
    SetTopSame(s);
  }

  lemma {:induction false} RaiseExecutes(s: State, i: Instr<nat>, d: Data, env: Env)
    requires Straightforward(i.op) && Compute(i, s.data, Top(s).locals, env.consts) == Some(Raise(d))
    ensures Execute(s, i, env) == Climb(s.(data := d))
  {
    hide Compute, Climb;
  }

  lemma {:induction false} FaultExecutes(s: State, i: Instr<nat>, env: Env)
    requires Straightforward(i.op) && Compute(i, s.data, Top(s).locals, env.consts) == None
    ensures Execute(s, i, env) == Faulted
  {
    hide Compute;
  }

  lemma {:induction false} ContinueExecutes(s: State, i: Instr<nat>, d: Data, locals: Table<Reg>, env: Env)
    requires Straightforward(i.op) && Compute(i, s.data, Top(s).locals, env.consts) == Some(Continue(d, locals))
    ensures Execute(s, i, env)
            == Running(SetTop(s, Top(s).(locals := locals)).(ip := Wrap64(s.ip + i.Size()), data := d))
  {
    hide Compute;
  }
}