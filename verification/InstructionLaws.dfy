/** What each instruction does, told on one turn of the loop, by the operands it is written with. */
module InstructionLaws {
  import opened Words
  import opened Isa
  import opened Tables
  import opened Machine
  import opened MachineLaws

  // ---------------------------------------------------------------- how a turn ends

  /** The frame on top has noted where it was; the frames below are untouched. */
  ghost predicate SameStack(s: State, r: State) {
    && |r.frames| == |s.frames| && r.frames[..|s.frames| - 1] == s.frames[..|s.frames| - 1]
    && r.frames[|s.frames| - 1] == s.frames[|s.frames| - 1].(current := s.ip)
  }

  /** On to `ip`, with only the data changed. */
  ghost predicate Reaches(s: State, o: Outcome<State>, ip: int, d: Data) {
    o.Running? && SameStack(s, o.s) && o.s.mem == s.mem && o.s.ip == ip % TWO64 && o.s.data == d
  }

  /** On behind the instruction, with `v` in general register `a` and nothing else changed. */
  ghost predicate Stores(s: State, o: Outcome<State>, size: nat, a: byte, v: Reg)
    requires a < GENERAL_REGISTERS
  {
    Reaches(s, o, s.ip + size, s.data.(general := s.data.general[a := v]))
  }

  /** Frame `h` is the innermost one with a handler. */
  ghost predicate Innermost(frames: seq<Frame>, h: nat) {
    h < |frames| && Armed(frames[h]) && forall j :: h < j < |frames| ==> !Armed(frames[j])
  }

  /** The exception in `d` goes to the innermost handler and its register, or ends the run. */
  ghost predicate Raises(s: State, o: Outcome<State>, d: Data) {
    || (o.Uncaught? && o.s.data == d && forall j :: 0 <= j < |s.frames| ==> !Armed(s.frames[j]))
    || exists h :: Innermost(s.frames, h) && CaughtAt(s, o, d, h)
  }

  ghost predicate CaughtAt(s: State, o: Outcome<State>, d: Data, h: nat)
    requires h < |s.frames|
  {
    match Write(d, s.frames[h].catchReg, d.exception)
    case None => o.Faulted?
    case Some(d') => o.Running? && o.s.ip == s.frames[h].catchAt && o.s.data == d' && |o.s.frames| == |s.frames|
  }

  /** A new exception: a structure that did not exist before. */
  ghost predicate RaisesNew(s: State, o: Outcome<State>) {
    Raises(s, o, s.data.(exception := Some(Struct(s.data.next)), next := s.data.next + 1))
  }

  lemma {:induction false} DecodedKnown(mem: seq<byte>, ip: nat, i: Instr<nat>)
    requires Decode(mem, ip) == Some(i)
    ensures i.Known()
  {
  }

  lemma {:induction false} ContinueStep(s: State, env: Env, i: Instr<nat>, d: Data, locals: Table<Reg>)
    requires Decode(s.mem, s.ip) == Some(i) && Straightforward(i.op)
    requires Compute(i, s.data, Top(s).locals, env.consts) == Some(Continue(d, locals))
    ensures Step(s, env).Running?
    ensures var r := Step(s, env).s;
      && r.mem == s.mem && r.ip == (s.ip + i.Size()) % TWO64 && r.data == d
      && |r.frames| == |s.frames| && r.frames[..|s.frames| - 1] == s.frames[..|s.frames| - 1]
      && r.frames[|s.frames| - 1] == s.frames[|s.frames| - 1].(current := s.ip, locals := locals)
  {
    hide Decode, Compute;
  }

  lemma {:induction false} RaiseStep(s: State, env: Env, i: Instr<nat>, d: Data)
    requires Decode(s.mem, s.ip) == Some(i) && Straightforward(i.op)
    requires Compute(i, s.data, Top(s).locals, env.consts) == Some(Raise(d))
    ensures Raises(s, Step(s, env), d)
  {
    hide Decode, Compute, Climb, Raises;
    var t := SetTop(s, Top(s).(current := s.ip)).(data := d);
    assert Step(s, env) == Climb(t);
    SameArms(s, t);
    ClimbRaises(s, t);
  }

  /** The frames differ in what they have noted only. */
  ghost predicate SameHandlers(s: State, t: State) {
    && |s.frames| == |t.frames|
    && forall j :: 0 <= j < |s.frames| ==>
         t.frames[j].catchAt == s.frames[j].catchAt && t.frames[j].catchReg == s.frames[j].catchReg
  }

  lemma {:induction false} SameArms(s: State, t: State)
    requires t.frames == s.frames[|s.frames| - 1 := Top(s).(current := s.ip)]
    ensures SameHandlers(s, t)
  {
  }

  lemma {:induction false} ClimbRaises(s: State, t: State)
    requires SameHandlers(s, t)
    ensures Raises(s, Climb(t), t.data)
  {
    hide Handler;
    InnermostHandler(t.frames, |t.frames| - 1);
    var h := Handler(t.frames, |t.frames| - 1);
    if h.Some? {
      assert Innermost(s.frames, h.value) by {
        assert forall j :: 0 <= j < |s.frames| ==> (Armed(s.frames[j]) <==> Armed(t.frames[j]));
      }
      assert CaughtAt(s, Climb(t), t.data, h.value);
    } else {
      assert forall j :: 0 <= j < |s.frames| ==> (Armed(s.frames[j]) <==> Armed(t.frames[j]));
    }
  }

  lemma {:induction false} FaultStep(s: State, env: Env, i: Instr<nat>)
    requires Decode(s.mem, s.ip) == Some(i) && Straightforward(i.op)
    requires Compute(i, s.data, Top(s).locals, env.consts) == None
    ensures Step(s, env).Faulted?
  {
    hide Decode, Compute;
  }

  // ---------------------------------------------------------------- arithmetic

  /** Two integers to compute with, in the second and third register named; the result goes to the first. */
  ghost predicate Operands(s: State, i: Instr<nat>, a: byte, b: byte, c: byte, x: i64, y: i64) {
    && Decode(s.mem, s.ip) == Some(i) && i.pre == [a, b, c] && a < GENERAL_REGISTERS
    && Read(s.data, b) == Some(Some(Int(x))) && Read(s.data, c) == Some(Some(Int(y)))
  }

  lemma {:induction false} ThreeRegisterSize(i: Instr<nat>)
    requires i.Known() && ThreeRegisters(i.op)
    ensures i.Size() == 4
  {
  }

  lemma {:induction false} ComputedStep(s: State, env: Env, i: Instr<nat>, a: byte, b: byte, c: byte, x: i64, y: i64)
    requires Operands(s, i, a, b, c, x, y) && Computes(i.op)
    ensures match Arithmetic(i.op, x, y)
            case None => Step(s, env).Faulted?
            case Some(v) => Stores(s, Step(s, env), 4, a, Some(Int(v)))
  {
    hide Decode, Arithmetic, Step;
    DecodedKnown(s.mem, s.ip, i);
    ThreeRegisterSize(i);
    match Arithmetic(i.op, x, y)
    case None => FaultStep(s, env, i);
    case Some(v) =>
      ContinueStep(s, env, i, s.data.(general := s.data.general[a := Some(Int(v))]), Top(s).locals);
  }

  /** `ADD a b c` is b + c, `SUB a b c` is b - c, `MUL a b c` is b * c, modulo 2^64 and exactly when it fits. */
  lemma {:induction false} SumStep(s: State, env: Env, i: Instr<nat>, a: byte, b: byte, c: byte, x: i64, y: i64)
    returns (v: i64, k: int)
    requires Operands(s, i, a, b, c, x, y) && (i.op == ADD || i.op == SUB || i.op == MUL)
    ensures Stores(s, Step(s, env), 4, a, Some(Int(v)))
    ensures i.op == ADD ==> v == x + y + k * TWO64
    ensures i.op == SUB ==> v == x - y + k * TWO64
    ensures i.op == MUL ==> v == x * y + k * TWO64
    ensures var exact: int := if i.op == ADD then x + y else if i.op == SUB then x - y else x * y;
      -0x8000_0000_0000_0000 <= exact < 0x8000_0000_0000_0000 ==> k == 0
  {
    hide Arithmetic, Stores, Operands;
    ComputedStep(s, env, i, a, b, c, x, y);
    k := RingOperations(i.op, x, y);
    v := Arithmetic(i.op, x, y).value;
  }

  /** `q` and `r` divide `x` by `y`: towards zero, the remainder with the sign of `x`. */
  predicate Divides(x: int, y: int, q: int, r: int) {
    x == q * y + r && (-y < r < y || y < r < -y) && (r == 0 || (r > 0 <==> x > 0))
  }

  /** `DIV a b c` and `MOD a b c` are the quotient and remainder of b by c: truncated, the remainder with the sign of
  b; undefined for c = 0 and for the one quotient that does not fit. */
  lemma {:induction false} DivisionStep(s: State, env: Env, i: Instr<nat>, a: byte, b: byte, c: byte, x: i64, y: i64)
    returns (q: i64, r: i64)
    requires Operands(s, i, a, b, c, x, y) && (i.op == DIV || i.op == MOD)
    ensures if y == 0 || (y == -1 && x == -0x8000_0000_0000_0000) then Step(s, env).Faulted?
            else
              Stores(s, Step(s, env), 4, a, Some(Int(if i.op == DIV then q else r))) && Divides(x, y, q, r)
  {
    hide Arithmetic, Stores, Operands, Step, Divides;
    ComputedStep(s, env, i, a, b, c, x, y);
    q, r := DivisionParts(x, y);
  }

  lemma {:induction false} DivisionParts(x: i64, y: i64) returns (q: i64, r: i64)
    ensures if y == 0 || (y == -1 && x == -0x8000_0000_0000_0000)
            then Arithmetic(DIV, x, y) == None && Arithmetic(MOD, x, y) == None
            else
              Arithmetic(DIV, x, y) == Some(q) && Arithmetic(MOD, x, y) == Some(r) && Divides(x, y, q, r)
  {
    hide Arithmetic;
    DivisionLaw(x, y);
    q, r := 0, 0;
    if !(y == 0 || (y == -1 && x == -0x8000_0000_0000_0000)) {
      q, r := Arithmetic(DIV, x, y).value, Arithmetic(MOD, x, y).value;
    }
  }

  /** The comparisons store 1 if they hold of b and c, in this order, and 0 if they do not. */
  lemma {:induction false} ComparisonStep(s: State, env: Env, i: Instr<nat>, a: byte, b: byte, c: byte, x: i64, y: i64)
    requires Operands(s, i, a, b, c, x, y) && LT <= i.op <= EQ
    ensures i.op == LT ==> Stores(s, Step(s, env), 4, a, Some(Int(if x < y then 1 else 0)))
    ensures i.op == GT ==> Stores(s, Step(s, env), 4, a, Some(Int(if x > y then 1 else 0)))
    ensures i.op == LTE ==> Stores(s, Step(s, env), 4, a, Some(Int(if x <= y then 1 else 0)))
    ensures i.op == GTE ==> Stores(s, Step(s, env), 4, a, Some(Int(if x >= y then 1 else 0)))
    ensures i.op == EQ ==> Stores(s, Step(s, env), 4, a, Some(Int(if x == y then 1 else 0)))
  {
    hide Stores, Operands, Step;
    ComputedStep(s, env, i, a, b, c, x, y);
  }

  /** Computing with anything but two integers: NULL fails, another value raises a new exception. */
  lemma {:induction false} OtherOperands(s: State, env: Env, i: Instr<nat>, a: byte, b: byte, c: byte, v: Reg, w: Reg)
    requires Decode(s.mem, s.ip) == Some(i) && i.pre == [a, b, c] && Computes(i.op)
    requires Read(s.data, b) == Some(v) && Read(s.data, c) == Some(w)
    ensures v.None? || w.None? ==> Step(s, env).Faulted?
    ensures v.Some? && w.Some? && !(v.value.Int? && w.value.Int?) ==> RaisesNew(s, Step(s, env))
  {
    hide Decode, Step, Raises, Arithmetic;
    if v.None? || w.None? {
      FaultStep(s, env, i);
    } else if !(v.value.Int? && w.value.Int?) {
      RaiseStep(s, env, i, RaiseNew(s.data).d);
    }
  }

  // ---------------------------------------------------------------- truth

  /** `AND a b c` stores 0 if b is null or the integer 0, without a look at c; else 1, or 0 if c is one of them. */
  lemma {:induction false} AndStep(s: State, env: Env, i: Instr<nat>, a: byte, b: byte, c: byte, v: Value, w: Reg)
    requires Decode(s.mem, s.ip) == Some(i) && i.op == AND && i.pre == [a, b, c] && a < GENERAL_REGISTERS
    requires Read(s.data, b) == Some(Some(v)) && Read(s.data, c) == Some(w)
    ensures if v == Null || v == Int(0) then Stores(s, Step(s, env), 4, a, Some(Int(0)))
            else if w == None then Step(s, env).Faulted?
            else if w == Some(Null) || w == Some(Int(0)) then Stores(s, Step(s, env), 4, a, Some(Int(0)))
            else Stores(s, Step(s, env), 4, a, Some(Int(1)))
  {
    hide Decode, Step;
    DecodedKnown(s.mem, s.ip, i);
    ThreeRegisterSize(i);
    var e := Compute(i, s.data, Top(s).locals, env.consts);
    if e.None? {
      FaultStep(s, env, i);
    } else {
      ContinueStep(s, env, i, e.value.d, Top(s).locals);
    }
  }

  // ---------------------------------------------------------------- jumps

  lemma {:induction false} JumpSizes(i: Instr<nat>)
    requires i.Known()
    ensures i.op == IF ==> i.Size() == 10
    ensures i.op == CATCH ==> i.Size() == 10 && i.width == 8 && |i.post| == 1
    ensures i.op == CLEARCATCH ==> i.Size() == 1
  {
  }

  /** `IF a dest` goes on behind itself, at 10 bytes further, exactly if a is null or the integer 0. */
  lemma {:induction false} BranchStep(s: State, env: Env, i: Instr<nat>, a: byte, v: Value)
    requires Decode(s.mem, s.ip) == Some(i) && i.op == IF && i.pre == [a] && Read(s.data, a) == Some(Some(v))
    ensures Reaches(s, Step(s, env), if v == Null || v == Int(0) then s.ip + 10 else i.field, s.data)
  {
    hide Decode, Read;
    DecodedKnown(s.mem, s.ip, i);
    JumpSizes(i);
  }

  lemma {:induction false} GotoStep(s: State, env: Env, i: Instr<nat>)
    requires Decode(s.mem, s.ip) == Some(i) && i.op == GOTO
    ensures Reaches(s, Step(s, env), i.field, s.data)
  {
    hide Decode;
  }

  /** An address in a register is an integer, its bits read without sign. */
  lemma {:induction false} GotoAddressStep(s: State, env: Env, i: Instr<nat>, a: byte, v: Value)
    requires Decode(s.mem, s.ip) == Some(i) && i.op == GOTOADDRESS && i.pre == [a] && Read(s.data, a) == Some(Some(v))
    ensures if v.Int? then Reaches(s, Step(s, env), v.n, s.data) else Step(s, env).Faulted?
  {
    hide Decode, Read;
  }

  /** A relative jump counts from its own address, forwards or backwards. */
  lemma {:induction false} RelativeStep(s: State, env: Env, i: Instr<nat>, diff: int)
    requires Decode(s.mem, s.ip) == Some(i) && i.op == JUMP
    requires -0x8000_0000 <= diff < 0x8000_0000 && i.field == diff % 0x1_0000_0000
    ensures Reaches(s, Step(s, env), s.ip + diff, s.data)
  {
    hide Decode;
  }

  // ---------------------------------------------------------------- registers, constants, exceptions

  lemma {:induction false} PlainSizes(i: Instr<nat>)
    requires i.Known()
    ensures i.op == MOVE ==> i.Size() == 3
    ensures i.op == LITINTEGER ==> i.Size() == 10
    ensures LoadsConstant(i.op) ==> i.Size() == 6
    ensures i.op in [SETNULL, SETEXCEPTION, THROW, STRUCTNEW] ==> i.Size() == 2
    ensures i.op in [NOOP, CLEAREXCEPTION] ==> i.Size() == 1
    ensures GETLOCAL <= i.op <= SETGLOBAL ==> i.Size() == 3
  {
  }

  /** `MOVE a b` copies b to a. */
  lemma {:induction false} MoveStep(s: State, env: Env, i: Instr<nat>, a: byte, b: byte, v: Reg)
    requires Decode(s.mem, s.ip) == Some(i) && i.op == MOVE && i.pre == [a, b] && a < GENERAL_REGISTERS
    requires Read(s.data, b) == Some(v)
    ensures Stores(s, Step(s, env), 3, a, v)
  {
    hide Decode, Step;
    DecodedKnown(s.mem, s.ip, i);
    PlainSizes(i);
    ContinueStep(s, env, i, s.data.(general := s.data.general[a := v]), Top(s).locals);
  }

  /** `LITINTEGER a n` stores the signed number the field's bits stand for. */
  lemma {:induction false} LiteralStep(s: State, env: Env, i: Instr<nat>, a: byte, n: i64)
    requires Decode(s.mem, s.ip) == Some(i) && i.op == LITINTEGER && i.pre == [a] && a < GENERAL_REGISTERS
    requires i.field == n % TWO64
    ensures Stores(s, Step(s, env), 10, a, Some(Int(n)))
  {
    hide Decode, Step;
    DecodedKnown(s.mem, s.ip, i);
    PlainSizes(i);
    ContinueStep(s, env, i, s.data.(general := s.data.general[a := Some(Int(n))]), Top(s).locals);
  }

  /** `SETNULL a` stores null, `SETSTRING a k`, `SETSYMBOL a k` and the like constant k. */
  lemma {:induction false} LoadStep(s: State, env: Env, i: Instr<nat>, a: byte)
    requires Decode(s.mem, s.ip) == Some(i) && i.pre == [a] && a < GENERAL_REGISTERS
    ensures i.op == SETNULL ==> Stores(s, Step(s, env), 2, a, Some(Null))
    ensures i.op in [SETSTRING, SETINTEGER, SETFLOAT, SETSTRUCT, SETSYMBOL] && i.field < |env.consts| ==>
              Stores(s, Step(s, env), 6, a, Some(env.consts[i.field]))
  {
    hide Decode, Step;
    DecodedKnown(s.mem, s.ip, i);
    PlainSizes(i);
    if i.op == SETNULL {
      ContinueStep(s, env, i, s.data.(general := s.data.general[a := Some(Null)]), Top(s).locals);
    } else if LoadsConstant(i.op) && i.field < |env.consts| {
      ContinueStep(s, env, i, s.data.(general := s.data.general[a := Some(env.consts[i.field])]), Top(s).locals);
    }
  }

  /** A new structure is one that did not exist, and the next will be another. */
  lemma {:induction false} StructStep(s: State, env: Env, i: Instr<nat>, a: byte)
    requires Decode(s.mem, s.ip) == Some(i) && i.op == STRUCTNEW && i.pre == [a] && a < GENERAL_REGISTERS
    ensures Reaches(s, Step(s, env), s.ip + 2,
                    s.data.(general := s.data.general[a := Some(Struct(s.data.next))], next := s.data.next + 1))
  {
    hide Decode, Step;
    DecodedKnown(s.mem, s.ip, i);
    PlainSizes(i);
    ContinueStep(s, env, i,
                 s.data.(general := s.data.general[a := Some(Struct(s.data.next))], next := s.data.next + 1),
                 Top(s).locals);
  }

  /** CLEAREXCEPTION forgets the exception, `SETEXCEPTION a` stores it or raises a new one if there is none,
  `THROW a` raises a structure, and a new exception for any other value. */
  lemma {:induction false} ExceptionStep(s: State, env: Env, i: Instr<nat>, a: byte)
    requires Decode(s.mem, s.ip) == Some(i)
    ensures i.op == CLEAREXCEPTION ==> Reaches(s, Step(s, env), s.ip + 1, s.data.(exception := None))
    ensures i.op == SETEXCEPTION && i.pre == [a] && a < GENERAL_REGISTERS ==>
              if s.data.exception == None then RaisesNew(s, Step(s, env))
              else Stores(s, Step(s, env), 2, a, s.data.exception)
    ensures i.op == THROW && i.pre == [a] && Read(s.data, a).Some? ==>
              match Read(s.data, a).value
              case None => Step(s, env).Faulted?
              case Some(v) =>
                if v.Struct? then Raises(s, Step(s, env), s.data.(exception := Some(v))) else RaisesNew(s, Step(s, env))
  {
    hide Decode, Step, Raises;
    DecodedKnown(s.mem, s.ip, i);
    PlainSizes(i);
    if i.op in [CLEAREXCEPTION, SETEXCEPTION, THROW] {
      match Compute(i, s.data, Top(s).locals, env.consts)
      case None => FaultStep(s, env, i);
      case Some(Continue(d, locals)) => ContinueStep(s, env, i, d, locals);
      case Some(Raise(d)) => RaiseStep(s, env, i, d);
    }
  }

  /** NOOP does nothing, DIE ends the run. */
  lemma {:induction false} NothingStep(s: State, env: Env, i: Instr<nat>)
    requires Decode(s.mem, s.ip) == Some(i)
    ensures i.op == NOOP ==> Reaches(s, Step(s, env), s.ip + 1, s.data)
    ensures i.op == DIE ==> Step(s, env).Halted? && SameStack(s, Step(s, env).s) && Step(s, env).s.data == s.data
  {
    hide Decode;
    DecodedKnown(s.mem, s.ip, i);
    PlainSizes(i);
  }

  /** `CATCH dest a` arms the top frame's handler at dest with register a; CLEARCATCH disarms it. */
  lemma {:induction false} CatchStep(s: State, env: Env, i: Instr<nat>, a: byte)
    requires Decode(s.mem, s.ip) == Some(i)
    requires (i.op == CATCH && i.post == [a]) || i.op == CLEARCATCH
    ensures Step(s, env).Running?
    ensures var r, n := Step(s, env).s, |s.frames| - 1;
      && r.mem == s.mem && r.data == s.data && |r.frames| == n + 1 && r.frames[..n] == s.frames[..n]
      && r.ip == (s.ip + if i.op == CATCH then 10 else 1) % TWO64
      && r.frames[n].current == s.ip && r.frames[n].locals == s.frames[n].locals
      && r.frames[n].ret == s.frames[n].ret && r.frames[n].retReg == s.frames[n].retReg
      && (i.op == CATCH ==> r.frames[n].catchAt == i.field % TWO64 && r.frames[n].catchReg == a)
      && (i.op == CLEARCATCH ==> !Armed(r.frames[n]))
  {
    hide Decode;
    DecodedKnown(s.mem, s.ip, i);
    JumpSizes(i);
  }

  // ---------------------------------------------------------------- locals and globals

  /** `SETLOCAL k v` and `SETGLOBAL k v`: the symbol in the first register, the value in the second. */
  lemma {:induction false} SetStep(s: State, env: Env, i: Instr<nat>, a: byte, b: byte, key: nat, v: Reg)
    requires Decode(s.mem, s.ip) == Some(i) && i.pre == [a, b] && (i.op == SETLOCAL || i.op == SETGLOBAL)
    requires Read(s.data, a) == Some(Some(Symbol(key))) && Read(s.data, b) == Some(v)
    ensures Step(s, env).Running?
    ensures var r, n := Step(s, env).s, |s.frames| - 1;
      && r.mem == s.mem && r.ip == (s.ip + 3) % TWO64 && |r.frames| == n + 1 && r.frames[..n] == s.frames[..n]
      && (i.op == SETLOCAL ==>
            && r.data == s.data
            && r.frames[n] == s.frames[n].(current := s.ip, locals := Insert(s.frames[n].locals, Pair(key, v))))
      && (i.op == SETGLOBAL ==>
            && r.data == s.data.(globals := Insert(s.data.globals, Pair(key, v)))
            && r.frames[n] == s.frames[n].(current := s.ip))
  {
    hide Decode, Step, Insert;
    DecodedKnown(s.mem, s.ip, i);
    PlainSizes(i);
    var e := Compute(i, s.data, Top(s).locals, env.consts);
    ContinueStep(s, env, i, e.value.d, e.value.locals);
  }

  /** `GETLOCAL a k` and `GETGLOBAL a k`: the symbol in the second register, its value into the first. */
  lemma {:induction false} GetStep(s: State, env: Env, i: Instr<nat>, a: byte, b: byte, key: nat)
    requires Decode(s.mem, s.ip) == Some(i) && i.pre == [a, b] && (i.op == GETLOCAL || i.op == GETGLOBAL)
    requires Read(s.data, b) == Some(Some(Symbol(key))) && a < GENERAL_REGISTERS
    ensures var found := Find(if i.op == GETLOCAL then s.frames[|s.frames| - 1].locals else s.data.globals, key);
      var v: Reg := if found.Some? then found.value else None;
      if i.op == GETLOCAL && v == None then RaisesNew(s, Step(s, env)) else Stores(s, Step(s, env), 3, a, v)
  {
    hide Decode, Step, Find, Raises;
    DecodedKnown(s.mem, s.ip, i);
    PlainSizes(i);
    match Compute(i, s.data, Top(s).locals, env.consts)
    case Some(Continue(d, locals)) => ContinueStep(s, env, i, d, locals);
    case Some(Raise(d)) => RaiseStep(s, env, i, d);
  }

  // ---------------------------------------------------------------- register numbers

  /** The classes of registers: 128 general ones, zero, null, 16 arguments that can only be written, and 17 parameters
  that can only be read. */
  lemma {:induction false} RegisterNumbers(d: Data, v: Reg, r: byte)
    ensures r <= 127 ==> Read(d, r) == Some(d.general[r]) && Write(d, r, v) == Some(d.(general := d.general[r := v]))
    ensures Read(d, 128) == Some(Some(Int(0))) && Read(d, 129) == Some(Some(Null))
    ensures Write(d, 128, v) == Some(d) && Write(d, 129, v) == Some(d)
    ensures 130 <= r <= 145 ==> Read(d, r) == None && Write(d, r, v) == Some(d.(args := d.args[r - 130 := v]))
    ensures 146 <= r <= 162 ==> Read(d, r) == Some(d.params[r - 146])
    ensures 146 <= r <= 161 ==> Write(d, r, v) == None
    ensures 163 <= r ==> Read(d, r) == None
    ensures 162 <= r ==> Write(d, r, v) == Some(d)
  {
  }

  /** A new machine has null in every register, no globals and no exception. */
  lemma {:induction false} StartsNull(r: byte)
    ensures r <= 127 || 146 <= r <= 162 ==> Read(StartData(), r) == Some(Some(Null))
    ensures StartData().globals == [] && StartData().exception == None
  {
  }

  // ---------------------------------------------------------------- opcodes

  /** The registers behind each opcode that has only registers, by its number. */
  lemma {:induction false} Layouts(op: byte)
    ensures op in [0, 1, 51, 52] ==> ShapeOf(op) == Some(Shape(false, 0, 0, 0))
    ensures op in [4, 16, 39, 44, 53, 54, 56] ==> ShapeOf(op) == Some(Shape(false, 1, 0, 0))
    ensures op in [10, 17, 18, 19, 20, 27, 28, 29, 30, 34, 35, 42, 43] ==> ShapeOf(op) == Some(Shape(false, 2, 0, 0))
    ensures op in [21, 22, 23, 24, 25, 31, 32, 33, 36, 37, 38, 45, 46, 47, 48, 49, 60] ==>
              ShapeOf(op) == Some(Shape(false, 3, 0, 0))
  {
  }

  /** The same for opcodes with a field or a tag, and those without a case. */
  lemma {:induction false} FieldLayouts(op: byte)
    ensures op == 2 ==> ShapeOf(op) == Some(Shape(false, 0, 4, 0))
    ensures op == 3 ==> ShapeOf(op) == Some(Shape(false, 0, 8, 0))
    ensures op == 50 ==> ShapeOf(op) == Some(Shape(false, 0, 8, 1))
    ensures op in [5, 41] ==> ShapeOf(op) == Some(Shape(false, 1, 8, 0))
    ensures op in [11, 12, 13, 14, 15] ==> ShapeOf(op) == Some(Shape(false, 1, 4, 0))
    ensures op == 6 ==> ShapeOf(op) == Some(Shape(true, 0, 8, 1))
    ensures op == 7 ==> ShapeOf(op) == Some(Shape(true, 0, 8, 0))
    ensures op in [57, 58] ==> ShapeOf(op) == Some(Shape(true, 0, 4, 1))
    ensures op in [8, 9] ==> ShapeOf(op) == Some(Shape(true, 2, 0, 0))
    ensures op in [26, 40, 55, 59] || op > 60 ==> ShapeOf(op) == None
  {
  }

  /** Opcodes and their names. */
  lemma {:induction false} Numbers()
    ensures NOOP == 0 && DIE == 1 && JUMP == 2 && GOTO == 3 && RETURN == 4 && IF == 5 && CALL == 6 && TAILCALL == 7
    ensures INVOKESYMBOLIC == 8 && INVOKEADDRESS == 9 && INVOKEPRIMITIVE == 10 && SETSTRING == 11 && SETINTEGER == 12
    ensures SETFLOAT == 13 && SETSTRUCT == 14 && SETSYMBOL == 15 && SETNULL == 16 && GETLOCAL == 17 && SETLOCAL == 18
    ensures GETGLOBAL == 19 && SETGLOBAL == 20 && ADD == 21 && SUB == 22 && MUL == 23 && DIV == 24 && MOD == 25
    ensures ARRAYPUSH == 27 && ARRAYSHIFT == 28 && ARRAYPOP == 29 && ARRAYUNSHIFT == 30 && ARRAYGET == 31
    ensures ARRAYSET == 32 && ARRAYREMOVE == 33 && ARRAYNEW == 34 && ARRAYLEN == 35 && STRUCTSET == 36
    ensures STRUCTGET == 37 && STRUCTDELETE == 38
    ensures STRUCTNEW == 39 && LITINTEGER == 41 && SYMBOLICATE == 42 && MOVE == 43 && GOTOADDRESS == 44 && LT == 45
    ensures GT == 46 && LTE == 47 && GTE == 48 && EQ == 49 && CATCH == 50 && CLEARCATCH == 51 && CLEAREXCEPTION == 52
    ensures SETEXCEPTION == 53 && THROW == 54 && GETEXCEPTIONDATA == 55 && GETCLOSURE == 56 && CALLSYMBOLIC == 57
    ensures CALLPRIMITIVE == 58 && AND == 60
  {
  }

  /** An opcode without a case ends the run; 55, and an address behind the loaded code, fail. */
  lemma {:induction false} UnknownStep(s: State, env: Env)
    ensures s.ip < |s.mem| && s.mem[s.ip] in [26, 40, 59] ==> Step(s, env).Halted? && Step(s, env).s.data == s.data
    ensures s.ip < |s.mem| && s.mem[s.ip] > 60 ==> Step(s, env).Halted? && Step(s, env).s.data == s.data
    ensures s.ip >= |s.mem| || s.mem[s.ip] == 55 ==> Step(s, env).Faulted?
  {
    hide DecodeAs;
    if s.ip < |s.mem| {
      FieldLayouts(s.mem[s.ip]);
    }
  }
}
