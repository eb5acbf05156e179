/** The interpreter's steps on loaded bytes, as functions of the machine state. The JIT is off.

`Interpreter.dfy` has the dispatcher itself, which updates its state in place. */
module Machine {
  import opened Words
  import opened Isa
  import opened Tables

  // ---------------------------------------------------------------- values and registers

  /** What an object reference refers to. Arrays are not part of this model; a structure is only
  its identity. */
  datatype Value = Null | Int(n: i64) | Str(text: string) | Symbol(id: nat) | Struct(ref: nat)

  /** A register; None is the NULL pointer. */
  type Reg = Option<Value>

  const GENERAL_REGISTERS: nat := 128
  const ARGUMENT_REGISTERS: nat := 16
  const PARAMETER_REGISTERS: nat := 17
  const REG_ZERO: byte := 128
  const REG_NULL: byte := 129
  const REG_ARG_OFFSET: byte := 130
  const REG_PARAM_OFFSET: byte := 146

  datatype Registers = Registers(general: seq<Reg>, args: seq<Reg>, params: seq<Reg>,
                                 globals: Table<Reg>, exception: Reg, next: nat)
  {
    predicate Sized() {
      && |general| == GENERAL_REGISTERS
      && |args| == ARGUMENT_REGISTERS
      && |params| == PARAMETER_REGISTERS
    }
  }

  /** Everything an instruction can change apart from control: registers, globals, the current
  exception, and the identity the next structure will get. */
  type Data = d: Registers | d.Sized()
    witness Registers(seq(GENERAL_REGISTERS, _ => None), seq(ARGUMENT_REGISTERS, _ => None),
                      seq(PARAMETER_REGISTERS, _ => None), [], None, 0)

  /** The registers of a new machine: null everywhere. */
  function StartData(): Data {
    Registers(seq(GENERAL_REGISTERS, _ => Some(Null)), seq(ARGUMENT_REGISTERS, _ => Some(Null)),
              seq(PARAMETER_REGISTERS, _ => Some(Null)), [], None, 0)
  }

  /** None when the program asks for a register that cannot be read. */
  function Read(d: Data, r: byte): Option<Reg> {
    if r < GENERAL_REGISTERS then Some(d.general[r])
    else if r == REG_ZERO then Some(Some(Int(0)))
    else if r == REG_NULL then Some(Some(Null))
    else if REG_PARAM_OFFSET <= r < REG_PARAM_OFFSET + PARAMETER_REGISTERS then Some(d.params[r - REG_PARAM_OFFSET])
    else None
  }

  /** None for the parameter registers; other registers without storage ignore the value. */
  function Write(d: Data, r: byte, v: Reg): Option<Data> {
    if r < GENERAL_REGISTERS then Some(d.(general := d.general[r := v]))
    else if REG_ARG_OFFSET <= r < REG_ARG_OFFSET + ARGUMENT_REGISTERS then
      Some(d.(args := d.args[r - REG_ARG_OFFSET := v]))
    else if REG_PARAM_OFFSET <= r < REG_PARAM_OFFSET + ARGUMENT_REGISTERS then None
    else Some(d)
  }

  /** Passing arguments: the source's loop never advances, so argument 0 is all that is passed and
  the count register always says 1. */
  function CopyRegs(d: Data): Data {
    var cleared := seq(PARAMETER_REGISTERS, _ => None);
    d.(params := cleared[0 := d.args[0]][PARAMETER_REGISTERS - 1 := Some(Int(1))],
       args := d.args[0 := None])
  }

  predicate Falsey(v: Value) { v == Null || v == Int(0) }

  // ---------------------------------------------------------------- instructions that only compute

  function Reg0<V>(i: Instr<V>): byte { if |i.pre| > 0 then i.pre[0] else 0 }
  function Reg1<V>(i: Instr<V>): byte { if |i.pre| > 1 then i.pre[1] else 0 }
  function Reg2<V>(i: Instr<V>): byte { if |i.pre| > 2 then i.pre[2] else 0 }
  function RegPost<V>(i: Instr<V>): byte { if |i.post| > 0 then i.post[0] else 0 }

  /** C division truncates. */
  function Quotient(a: int, b: int): int
    requires b != 0
  {
    if (a >= 0) == (b > 0) then Abs(a) / Abs(b) else -(Abs(a) / Abs(b))
  }

  function Abs(a: int): nat { if a >= 0 then a else -a }

  /** None where the C expression has no defined result. */
  function Arithmetic(op: byte, a: i64, b: i64): Option<i64> {
    if op == ADD then Some(WrapSigned(a + b))
    else if op == SUB then Some(WrapSigned(a - b))
    else if op == MUL then Some(WrapSigned(a * b))
    else if op == DIV || op == MOD then
      if b == 0 || (b == -1 && a == -0x8000_0000_0000_0000) then None
      else Some(WrapSigned(if op == DIV then Quotient(a, b) else a - Quotient(a, b) * b))
    else
      var holds := if op == LT then a < b else if op == GT then a > b
                   else if op == LTE then a <= b else if op == GTE then a >= b else a == b;
      Some(if holds then 1 else 0)
  }

  predicate Computes(op: byte) { ADD <= op <= MOD || LT <= op <= EQ }

  predicate LoadsConstant(op: byte) { SETSTRING <= op <= SETSYMBOL }

  /** Opcodes that fall through to the next instruction unless they raise an exception. */
  predicate Straightforward(op: byte) {
    || Computes(op) || LoadsConstant(op)
    || op == NOOP || op == MOVE || op == LITINTEGER || op == SETNULL || op == AND
    || op == SETLOCAL || op == GETLOCAL || op == SETGLOBAL || op == GETGLOBAL
    || op == CLEAREXCEPTION || op == SETEXCEPTION || op == THROW || op == STRUCTNEW
  }

  datatype Effect = Continue(d: Data, locals: Table<Reg>) | Raise(d: Data)

  function RaiseNew(d: Data): Effect {
    Raise(d.(exception := Some(Struct(d.next)), next := d.next + 1))
  }

  function Store(d: Data, r: byte, v: Reg, locals: Table<Reg>): Option<Effect> {
    var d' :- Write(d, r, v);
    Some(Continue(d', locals))
  }

  /** A register that must hold a symbol. */
  function ReadSymbol(d: Data, r: byte): Option<nat> {
    var v :- Read(d, r);
    var key :- v;
    if key.Symbol? then Some(key.id) else None
  }

  /** The effect of a straightforward instruction; None when the C code asserts or dereferences NULL. */
  function Compute(i: Instr<nat>, d: Data, locals: Table<Reg>, consts: seq<Value>): Option<Effect> {
    if Computes(i.op) then
      var b :- Read(d, Reg1(i));
      var c :- Read(d, Reg2(i));
      var bv :- b;
      var cv :- c;
      if !bv.Int? || !cv.Int? then Some(RaiseNew(d))
      else
        var n :- Arithmetic(i.op, bv.n, cv.n);
        Store(d, Reg0(i), Some(Int(n)), locals)
    else if LoadsConstant(i.op) then
      if i.field < |consts| then Store(d, Reg0(i), Some(consts[i.field]), locals) else None
    else if i.op == MOVE then
      var v :- Read(d, Reg1(i));
      Store(d, Reg0(i), v, locals)
    else if i.op == LITINTEGER then Store(d, Reg0(i), Some(Int(Signed(Wrap64(i.field)))), locals)
    else if i.op == SETNULL then Store(d, Reg0(i), Some(Null), locals)
    else if i.op == AND then
      var b :- Read(d, Reg1(i));
      var c :- Read(d, Reg2(i));
      var bv :- b;
      if Falsey(bv) then Store(d, Reg0(i), Some(Int(0)), locals)
      else
        var cv :- c;
        Store(d, Reg0(i), Some(Int(if Falsey(cv) then 0 else 1)), locals)
    else if i.op == SETLOCAL then
      var key :- ReadSymbol(d, Reg0(i));
      var v :- Read(d, Reg1(i));
      Some(Continue(d, Insert(locals, Pair(key, v))))
    else if i.op == GETLOCAL then
      var key :- ReadSymbol(d, Reg1(i));
      var found := Find<Reg>(locals, key);
      if found.Some? && found.value.Some? then Store(d, Reg0(i), found.value, locals) else Some(RaiseNew(d))
    else if i.op == SETGLOBAL then
      var key :- ReadSymbol(d, Reg0(i));
      var v :- Read(d, Reg1(i));
      Some(Continue(d.(globals := Insert(d.globals, Pair(key, v))), locals))
    else if i.op == GETGLOBAL then
      var key :- ReadSymbol(d, Reg1(i));
      var found := Find<Reg>(d.globals, key);
      Store(d, Reg0(i), if found.Some? then found.value else None, locals)
    else if i.op == CLEAREXCEPTION then Some(Continue(d.(exception := None), locals))
    else if i.op == SETEXCEPTION then
      if d.exception.None? then Some(RaiseNew(d)) else Store(d, Reg0(i), d.exception, locals)
    else if i.op == THROW then
      var r :- Read(d, Reg0(i));
      var v :- r;
      Some(if v.Struct? then Raise(d.(exception := Some(v))) else RaiseNew(d))
    else if i.op == STRUCTNEW then
      Store(d.(next := d.next + 1), Reg0(i), Some(Struct(d.next)), locals)
    else Some(Continue(d, locals))
  }

  // ---------------------------------------------------------------- the machine on bytes

  const EMPTY_CATCH: u64 := 0xFFFF_FFFF_FFFF_FFFF
  const STACK_SIZE: nat := 16384

  datatype Frame = Frame(current: u64, ret: u64, retReg: byte, catchAt: u64, catchReg: byte, locals: Table<Reg>)

  function NewFrame(ret: u64, retReg: byte): Frame { Frame(0, ret, retReg, EMPTY_CATCH, REG_NULL, []) }

  /** The bottom of the stack. */
  const ROOT := NewFrame(0, 0)

  datatype MachineState = MachineState(mem: seq<byte>, ip: u64, frames: seq<Frame>, data: Data)

  /** The last frame is the top of the stack. */
  type State = s: MachineState | |s.frames| >= 1
    witness MachineState([], 0, [NewFrame(0, 0)],
                         Registers(seq(GENERAL_REGISTERS, _ => None), seq(ARGUMENT_REGISTERS, _ => None),
                                   seq(PARAMETER_REGISTERS, _ => None), [], None, 0))

  /** What a run only reads: the constant pool and the symbol table. */
  datatype Env = Env(consts: seq<Value>, table: Table<u64>)

  /** Faulted: an assertion of the C code fails, or memory outside its arrays is touched. */
  datatype Outcome<+S> = Running(s: S) | Halted(s: S) | Uncaught(s: S) | Faulted

  function Top(s: State): Frame { s.frames[|s.frames| - 1] }

  function SetTop(s: State, f: Frame): State { s.(frames := s.frames[|s.frames| - 1 := f]) }

  const SHIFT16: nat := 0x1_0000

  /** Heat and trace index of a tag. */
  function TagHeat(raw: nat): nat { (raw % SHIFT24) / SHIFT16 }
  function TagTrace(raw: nat): nat { (raw % SHIFT24) % SHIFT16 }

  /** The four bytes written back for a tag; the fourth is not the tag's. */
  function TagWord(raw: nat, heat: nat, trace: nat): nat {
    (heat * SHIFT16 + trace) % SHIFT24 + raw / SHIFT24 * SHIFT24
  }

  /** Counts one execution in the tag at `at`. */
  function BumpTag(mem: seq<byte>, at: nat): (r: seq<byte>)
    requires at + 4 <= |mem|
    ensures |r| == |mem|
  {
    var raw := FromLittle(mem[at..at + 4]);
    var heat := TagHeat(raw);
    Poke(mem, at, Little(4, TagWord(raw, if heat != 1024 then heat + 1 else heat, TagTrace(raw))))
  }

  /** Pushes a frame and enters a subroutine. */
  function Enter(s: State, dest: u64, ret: int, reg: byte): Outcome<State> {
    if |s.frames| >= STACK_SIZE then Faulted
    else Running(s.(ip := dest, frames := s.frames + [NewFrame(Wrap64(ret), reg)], data := CopyRegs(s.data)))
  }

  /** The innermost frame, at or below `k`, with a handler armed. */
  function Handler(frames: seq<Frame>, k: nat): (r: Option<nat>)
    requires k < |frames|
    ensures r.Some? ==> r.value <= k
  {
    if frames[k].catchAt != EMPTY_CATCH then Some(k)
    else if k == 0 then None
    else Handler(frames, k - 1)
  }

  /** Resumes at the innermost handler and disarms it. Frames above it stay on the stack. */
  function Climb(s: State): Outcome<State> {
    match Handler(s.frames, |s.frames| - 1)
    case None => Uncaught(s)
    case Some(k) =>
      var f := s.frames[k];
      match Write(s.data, f.catchReg, s.data.exception)
      case None => Faulted
      case Some(d) =>
        Running(s.(ip := f.catchAt, data := d,
                   frames := s.frames[k := f.(catchAt := EMPTY_CATCH, catchReg := REG_NULL)]))
  }

  /** A 4-byte relative jump, forwards or backwards. */
  function JumpTo(ip: u64, bits: nat): u64 {
    Wrap64(if bits < 0x8000_0000 then ip + bits else ip - (0x1_0000_0000 - bits))
  }

  predicate Tagged(op: byte) {
    op == CALL || op == TAILCALL || op == CALLSYMBOLIC || op == INVOKESYMBOLIC || op == INVOKEADDRESS
  }

  predicate Jumps(op: byte) { op == JUMP || op == GOTO || op == GOTOADDRESS || op == IF }

  /** Where a call or invocation goes; None when the C code asserts. */
  function Destination(i: Instr<nat>, d: Data, env: Env): Option<u64> {
    if i.op == CALL || i.op == TAILCALL then Some(Wrap64(i.field))
    else if i.op == CALLSYMBOLIC then
      if i.field < |env.consts| && env.consts[i.field].Symbol? then Find(env.table, env.consts[i.field].id) else None
    else if i.op == INVOKESYMBOLIC then
      var key :- ReadSymbol(d, Reg0(i));
      Find(env.table, key)
    else
      var v :- Read(d, Reg0(i));
      var n :- v;
      if n.Int? then Some(Unsigned(n.n)) else None
  }

  /** The register a call's result goes to. */
  function ReturnRegister(i: Instr<nat>): byte {
    if i.op == INVOKESYMBOLIC || i.op == INVOKEADDRESS then Reg1(i) else RegPost(i)
  }

  /** The tag has been counted already. */
  function CallStep(s: State, i: Instr<nat>, env: Env): Outcome<State> {
    match Destination(i, s.data, env)
    case None => Faulted
    case Some(dest) =>
      if i.op == TAILCALL then
        Running(SetTop(s, NewFrame(Top(s).ret, Top(s).retReg)).(ip := dest, data := CopyRegs(s.data)))
      else Enter(s, dest, s.ip + i.Size(), ReturnRegister(i))
  }

  /** The memory after an instruction: only a tag can have changed. */
  function MemoryAfter(mem: seq<byte>, ip: nat, op: byte): seq<byte> {
    if Tagged(op) && ip + 5 <= |mem| then BumpTag(mem, ip + 1) else mem
  }

  function ReturnStep(s: State, i: Instr<nat>): Outcome<State> {
    if |s.frames| == 1 then Climb(s.(data := RaiseNew(s.data).d))
    else
      match Read(s.data, Reg0(i))
      case None => Faulted
      case Some(v) =>
        match Write(s.data, Top(s).retReg, v)
        case None => Faulted
        case Some(d) => Running(s.(ip := Top(s).ret, frames := s.frames[..|s.frames| - 1], data := d))
  }

  function JumpStep(s: State, i: Instr<nat>): Outcome<State> {
    if i.op == JUMP then Running(s.(ip := JumpTo(s.ip, i.field)))
    else if i.op == GOTO then Running(s.(ip := Wrap64(i.field)))
    else
      match Read(s.data, Reg0(i))
      case None => Faulted
      case Some(None) => Faulted
      case Some(Some(v)) =>
        if i.op == GOTOADDRESS then (if v.Int? then Running(s.(ip := Unsigned(v.n))) else Faulted)
        else Running(s.(ip := if Falsey(v) then Wrap64(s.ip + i.Size()) else Wrap64(i.field)))
  }

  /** One instruction, already fetched, tag apart. Instructions outside this model fault. */
  function Execute(s: State, i: Instr<nat>, env: Env): Outcome<State> {
    var next := Wrap64(s.ip + i.Size());
    if i.op == DIE then Halted(s)
    else if Tagged(i.op) then CallStep(s, i, env)
    else if i.op == RETURN then ReturnStep(s, i)
    else if Jumps(i.op) then JumpStep(s, i)
    else if i.op == CATCH then
      Running(SetTop(s, Top(s).(catchAt := Wrap64(i.field), catchReg := RegPost(i))).(ip := next))
    else if i.op == CLEARCATCH then
      Running(SetTop(s, Top(s).(catchAt := EMPTY_CATCH, catchReg := REG_NULL)).(ip := next))
    else if Straightforward(i.op) then
      match Compute(i, s.data, Top(s).locals, env.consts)
      case None => Faulted
      case Some(Continue(d, locals)) => Running(SetTop(s, Top(s).(locals := locals)).(ip := next, data := d))
      case Some(Raise(d)) => Climb(s.(data := d))
    else Faulted
  }

  /** Opcodes without a case end the run; the one no longer supported is an assertion. */
  predicate Stops(op: byte) { ShapeOf(op).None? && op != GETEXCEPTIONDATA }

  /** One turn of the dispatch loop. */
  function Step(s: State, env: Env): Outcome<State> {
    var t := SetTop(s, Top(s).(current := s.ip));
    match Decode(s.mem, s.ip)
    case None => if s.ip < |s.mem| && Stops(s.mem[s.ip]) then Halted(t) else Faulted
    case Some(i) => Execute(t.(mem := MemoryAfter(t.mem, t.ip, i.op)), i, env)
  }

  /** At most `n` turns. */
  function Run(s: State, env: Env, n: nat): Outcome<State>
    decreases n
  {
    if n == 0 then Running(s)
    else
      match Step(s, env)
      case Running(t) => Run(t, env, n - 1)
      case other => other
  }
}
