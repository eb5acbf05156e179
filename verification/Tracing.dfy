/** The trace recorder: the instructions a frame executes, each recorded once. */
module Tracing {
  import opened Words
  import opened Isa
  import opened Machine
  import Tags

  /** What is recorded of an instruction: where it was and its operands. */
  datatype Item = Item(ip: nat, instr: Instr<nat>)

  predicate Recordable(op: byte) {
    || op == SETSTRING || op == SETSYMBOL || op == INVOKEPRIMITIVE || op == RETURN || op == IF || op == GOTO
    || op == ADD || op == EQ || op == GT || op == LT || op == AND
    || op == ARRAYSET || op == ARRAYGET || op == ARRAYLEN || op == ARRAYPUSH
    || op == MOVE || op == LITINTEGER || GETLOCAL <= op <= SETGLOBAL
  }

  predicate Contains(items: seq<Item>, ip: nat) { exists i :: 0 <= i < |items| && items[i].ip == ip }

  /** The trace after the instruction at `ip` is about to be executed. */
  function Record(items: seq<Item>, ip: nat, instr: Instr<nat>): seq<Item> {
    if Contains(items, ip) || !Recordable(instr.op) then items else items + [Item(ip, instr)]
  }

  /** The opcodes that are recorded, each instruction at its address once; any other leaves the trace as it was. */
  lemma {:induction false} RecordsOpcodes(items: seq<Item>, ip: nat, instr: Instr<nat>)
    ensures var recorded := [SETSTRING, SETSYMBOL, INVOKEPRIMITIVE, RETURN, IF, GOTO, ADD, EQ, GT, LT, AND, ARRAYSET,
                             ARRAYGET, ARRAYLEN, ARRAYPUSH, MOVE, LITINTEGER, GETLOCAL, SETLOCAL, GETGLOBAL, SETGLOBAL];
      && (Contains(Record(items, ip, instr), ip) <==> Contains(items, ip) || instr.op in recorded)
      && (Record(items, ip, instr) == items || Record(items, ip, instr) == items + [Item(ip, instr)])
  {
    if !Contains(items, ip) && Recordable(instr.op) {
      assert (items + [Item(ip, instr)])[|items|].ip == ip;
    }
  }

  const INITIAL_SEQUENCE_SIZE: nat := 64
  const MAX_TRACES: nat := 65535

  /** The completed traces. Nothing ever changes their number. */
  class TraceList {
    const traces: array<CallTrace?>
    var length: nat

    ghost predicate Valid()
      reads this
    {
      traces.Length == MAX_TRACES && length + 1 < MAX_TRACES - 1
    }

    constructor ()
      ensures Valid() && fresh(traces) && length == 0
    {
      traces := new CallTrace?[MAX_TRACES](_ => null);
      length := 0;
    }
  }

  /** The program when a trace index has been written into the caller's tag, if there is one. */
  function IndexWritten(mem: seq<byte>, tag: Option<nat>, index: nat): (r: seq<byte>)
    ensures |r| == |mem|
  {
    match tag
    case None => mem
    case Some(at) => if at + 4 <= |mem| then Tags.SetIndex(mem, at, index) else mem
  }

  /** A trace is completed by the first RETURN recorded in it. */
  predicate Completes(items: seq<Item>, ip: nat, instr: Instr<nat>) { instr.op == RETURN && !Contains(items, ip) }

  class CallTrace {
    var sequence: array<Item>
    var length: nat
    var current: nat
    var complete: bool
    const callerTag: Option<nat>

    /** There is always room for one more item. */
    ghost predicate Valid()
      reads this
    {
      length < sequence.Length
    }

    ghost function Items(): seq<Item>
      requires Valid()
      reads this, sequence
    {
      sequence[..length]
    }

    constructor (callerTag: Option<nat>)
      ensures Valid() && fresh(sequence) && Items() == [] && !complete && this.callerTag == callerTag
    {
      this.callerTag := callerTag;
      sequence := new Item[INITIAL_SEQUENCE_SIZE](_ => Item(0, Instr(0, false, [], 0, 0, [])));
      length, current, complete := 0, 0, false;
    }

    method FindIp(ip: nat) returns (r: Option<nat>)
      requires Valid()
      ensures r.Some? <==> Contains(Items(), ip)
      ensures r.Some? ==> r.value < length && sequence[r.value].ip == ip
    {
      var i := 0;
      while i < length
        invariant i <= length
        invariant forall j :: 0 <= j < i ==> sequence[j].ip != ip
      {
        if sequence[i].ip == ip {
          assert Items()[i].ip == ip;
          return Some(i);
        }
        i := i + 1;
      }
      return None;
    }

    method CheckExpandCapacity()
      requires length <= sequence.Length && 0 < sequence.Length
      modifies this`sequence
      ensures Valid() && Items() == old(sequence[..length])
      ensures sequence == old(sequence) || (fresh(sequence) && sequence.Length == 2 * old(sequence.Length))
    {
      if length >= sequence.Length {
        var bigger := new Item[2 * sequence.Length](_ => Item(0, Instr(0, false, [], 0, 0, [])));
        forall i | 0 <= i < length {
          bigger[i] := sequence[i];
        }
        sequence := bigger;
      }
    }

    /** The caller's tag lies in the program. */
    ghost predicate TagIn(program: array<byte>)
      reads this
    {
      callerTag.Some? ==> callerTag.value + 4 <= program.Length
    }

    /** Enters the trace in the list and its index, plus one, in the caller's tag. */
    method Complete(list: TraceList, program: array<byte>)
      requires list.Valid() && TagIn(program)
      modifies this`complete, list.traces, program
      ensures complete && list.traces[..] == old(list.traces[..])[list.length + 1 := this]
      ensures program[..] == IndexWritten(old(program[..]), callerTag, list.length + 2)
    {
      hide Little, TagWord;
      complete := true;
      var next := list.length + 1;
      list.traces[next] := this;
      if callerTag.Some? {
        var at := callerTag.value;
        var raw := FromLittle(program[at..at + 4]);
        assert program[at..at + 4] == program[..][at..at + 4];
        var bytes := Little(4, TagWord(raw, TagHeat(raw), next + 1));
        forall i | 0 <= i < 4 {
          program[at + i] := bytes[i];
        }
      }
    }

    /** Records the instruction at `ip`, unless it has been recorded. */
    method PushInstruction(ip: nat, instr: Instr<nat>, list: TraceList, program: array<byte>)
      requires Valid() && list.Valid() && TagIn(program)
      modifies this, sequence, list.traces, program
      ensures Valid() && (sequence == old(sequence) || fresh(sequence))
      ensures Items() == Record(old(Items()), ip, instr)
      ensures Recordable(instr.op) ==> current < length && Items()[current].ip == ip
      ensures complete == (old(complete) || Completes(old(Items()), ip, instr))
      ensures list.traces[..]
              == if Completes(old(Items()), ip, instr) then old(list.traces[..])[list.length + 1 := this]
                 else old(list.traces[..])
      ensures program[..]
              == if Completes(old(Items()), ip, instr) then IndexWritten(old(program[..]), callerTag, list.length + 2)
                 else old(program[..])
    {
      hide IndexWritten;
      var existing := FindIp(ip);
      if existing.Some? {
        current := existing.value;
        return;
      }
      var item := Item(ip, instr);
      sequence[length] := item;
      current := length;
      if Recordable(instr.op) {
        if instr.op == RETURN {
          Complete(list, program);
        }
        length := length + 1;
        assert sequence[..length] == old(Items()) + [item];
        CheckExpandCapacity();
      }
    }

    /** `n` turns of the dispatch loop with the recorder on, in a program at `program`. */
    method RecordTurns(s: State, env: Env, n: nat, list: TraceList, program: array<byte>) returns (r: Outcome<State>)
      requires Valid() && list.Valid() && TagIn(program) && program[..] == s.mem
      requires Items() == [] && Recorded(s, env, n) && |s.mem| < TWO64
      modifies this, sequence, list.traces, program
      ensures Valid() && IsRun(s.mem, Visited(s, env, n)) && Items() == RecordAll(s.mem, Visited(s, env, n))
      ensures r == RunWithRecorder(s, env, n, callerTag, list.length + 2)
      ensures var ends := n > 0 && EndsInReturn(s, env, n);
        && program[..] == (if ends then IndexWritten(s.mem, callerTag, list.length + 2) else s.mem)
        && list.traces[..]
           == (if ends then old(list.traces[..])[list.length + 1 := this] else old(list.traces[..]))
    {
      hide Decode, Step, Recordable, Quiet, IndexWritten;
      ghost var ips := Visited(s, env, n);
      RunRecorded(s, env, n);
      var k := 0;
      r := Running(s);
      while k < n
        invariant k <= n && Valid() && (sequence == old(sequence) || fresh(sequence))
        invariant Items() == RecordAll(s.mem, ips[..k])
        invariant k < n || n == 0 ==> r == Run(s, env, k) && r.Running? && program[..] == s.mem
        invariant k < n || n == 0 ==> list.traces[..] == old(list.traces[..])
        invariant k == n > 0 ==> r == RunWithRecorder(s, env, n, callerTag, list.length + 2)
        invariant k == n > 0 ==>
                    program[..] == if EndsInReturn(s, env, n) then IndexWritten(s.mem, callerTag, list.length + 2)
                                   else s.mem
        invariant k == n > 0 ==>
                    list.traces[..] == if EndsInReturn(s, env, n) then old(list.traces[..])[list.length + 1 := this]
                                       else old(list.traces[..])
      {
        VisitedAt(s, env, n, k);
        ReturnIsLast(s, env, n, k);
        assert ips[..k + 1][..k] == ips[..k];
        PushInstruction(r.s.ip, Decode(r.s.mem, r.s.ip).value, list, program);
        r := Step(r.s.(mem := program[..]), env);
        k := k + 1;
      }
      assert ips[..n] == ips;
    }
  }

  // ---------------------------------------------------------------- traces of runs

  /** Control can go from `ip` to `next` without an exception. */
  predicate Follows(ip: nat, i: Instr<nat>, next: nat) {
    if i.op == RETURN then false
    else if i.op == GOTO then next == i.field
    else if i.op == IF then next == i.field || next == ip + i.Size()
    else next == ip + i.Size()
  }

  /** The addresses one frame executes, one after another; `code` gives the instruction at each. */
  ghost predicate IsRun(code: seq<byte>, ips: seq<nat>) {
    && (forall j :: 0 <= j < |ips| ==> Decode(code, ips[j]).Some? && Recordable(Decode(code, ips[j]).value.op))
    && (forall j :: 0 < j < |ips| ==> Follows(ips[j - 1], Decode(code, ips[j - 1]).value, ips[j]))
  }

  /** The trace of a run. */
  function RecordAll(code: seq<byte>, ips: seq<nat>): seq<Item>
    requires forall j :: 0 <= j < |ips| ==> Decode(code, ips[j]).Some?
  {
    if |ips| == 0 then []
    else
      Record(RecordAll(code, ips[..|ips| - 1]), ips[|ips| - 1], Decode(code, ips[|ips| - 1]).value)
  }

  /** The trace has every executed address once, with the instruction there, and no other. */
  ghost predicate TraceOf(code: seq<byte>, ips: seq<nat>, items: seq<Item>) {
    && (forall i, j :: 0 <= i < j < |items| ==> items[i].ip != items[j].ip)
    && (forall j :: 0 <= j < |ips| ==> Contains(items, ips[j]))
    && (forall i :: 0 <= i < |items| ==> items[i].ip in ips && Decode(code, items[i].ip) == Some(items[i].instr))
  }

  lemma {:induction false} RecordedRun(code: seq<byte>, ips: seq<nat>)
    requires IsRun(code, ips)
    ensures TraceOf(code, ips, RecordAll(code, ips))
    ensures |ips| > 0 ==> |RecordAll(code, ips)| > 0 && RecordAll(code, ips)[0].ip == ips[0]
  {
    hide Decode;
    if |ips| > 0 {
      var n := |ips| - 1;
      RecordedRun(code, ips[..n]);
      RecordOne(code, ips, RecordAll(code, ips[..n]));
    }
  }

  lemma {:induction false} RecordOne(code: seq<byte>, ips: seq<nat>, items: seq<Item>)
    requires |ips| > 0 && TraceOf(code, ips[..|ips| - 1], items)
    requires Decode(code, ips[|ips| - 1]).Some? && Recordable(Decode(code, ips[|ips| - 1]).value.op)
    ensures TraceOf(code, ips, Record(items, ips[|ips| - 1], Decode(code, ips[|ips| - 1]).value))
  {
    hide Decode, Recordable;
    var n := |ips| - 1;
    var r := Record(items, ips[n], Decode(code, ips[n]).value);
    forall j | 0 <= j < |ips|
      ensures Contains(r, ips[j])
    {
      if j < n {
        assert ips[..n][j] == ips[j];
        var i :| 0 <= i < |items| && items[i].ip == ips[j];
        assert r[i].ip == ips[j];
      } else if !Contains(items, ips[n]) {
        assert r[|items|].ip == ips[n];
      }
    }
    forall i | 0 <= i < |r|
      ensures r[i].ip in ips && Decode(code, r[i].ip) == Some(r[i].instr)
    {
      if i < |items| {
        assert items[i].ip in ips[..n];
      }
    }
  }

  /** A turn of the dispatch loop that raises nothing is a step of a run. */
  lemma {:induction false} StepFollows(s: State, env: Env, i: Instr<nat>)
    requires Decode(s.mem, s.ip) == Some(i) && i.Known() && Recordable(i.op) && Step(s, env).Running?
    requires i.op != RETURN && s.ip + i.Size() < TWO64 && i.field < TWO64
    requires Straightforward(i.op) ==>
               var e := Compute(i, s.data, Top(s).locals, env.consts); e.Some? && e.value.Continue?
    ensures Follows(s.ip, i, Step(s, env).s.ip) && Step(s, env).s.mem == s.mem
  {
    hide Decode, Compute, Read, BumpTag;
  }

  /** A turn that raises nothing and does not leave the frame. */
  predicate Quiet(s: State, env: Env) {
    match Decode(s.mem, s.ip)
    case None => false
    case Some(i) =>
      && i.op != RETURN && Step(s, env).Running?
      && (Straightforward(i.op) ==>
            var e := Compute(i, s.data, Top(s).locals, env.consts); e.Some? && e.value.Continue?)
  }

  /** `n` turns on recordable instructions; all but the last are quiet. */
  predicate Recorded(s: State, env: Env, n: nat)
    decreases n
  {
    n == 0 || (
      && Decode(s.mem, s.ip).Some? && Recordable(Decode(s.mem, s.ip).value.op)
      && (n == 1 || (Quiet(s, env) && Step(s, env).Running? && Recorded(Step(s, env).s, env, n - 1))))
  }

  /** The addresses of the instructions executed in the first `n` turns. */
  function Visited(s: State, env: Env, n: nat): seq<nat>
    decreases n
  {
    if n == 0 then []
    else
      [s.ip] + match Step(s, env)
               case Running(t) => Visited(t, env, n - 1)
               case _ => []
  }

  /** The last of `n` turns executes a RETURN. */
  predicate EndsInReturn(s: State, env: Env, n: nat)
    requires n > 0
  {
    match Run(s, env, n - 1)
    case Running(t) =>
      var i := Decode(t.mem, t.ip);
      i.Some? && i.value.op == RETURN
    case _ => false
  }

  /** `n` turns, the last of which finds the index in the caller's tag if it executes a RETURN. */
  function RunWithRecorder(s: State, env: Env, n: nat, tag: Option<nat>, index: nat): Outcome<State> {
    if n == 0 then Running(s)
    else
      match Run(s, env, n - 1)
      case Running(t) =>
        Step(if EndsInReturn(s, env, n) then t.(mem := IndexWritten(t.mem, tag, index)) else t, env)
      case other => other
  }

  lemma {:induction false} DecodeFits(mem: seq<byte>, ip: nat, i: Instr<nat>)
    requires Decode(mem, ip) == Some(i)
    ensures i.Known() && ip + i.Size() <= |mem| && i.field < TWO64
  {
    PowerFacts();
  }

  lemma {:induction false} QuietFollows(s: State, env: Env)
    requires Quiet(s, env) && |s.mem| < TWO64 && Recordable(Decode(s.mem, s.ip).value.op)
    ensures Follows(s.ip, Decode(s.mem, s.ip).value, Step(s, env).s.ip) && Step(s, env).s.mem == s.mem
  {
    hide Decode, Compute, Step, Follows;
    var i := Decode(s.mem, s.ip).value;
    DecodeFits(s.mem, s.ip, i);
    StepFollows(s, env, i);
  }

  /** The addresses the interpreter executes, turn by turn, are a run. */
  lemma {:induction false} RunRecorded(s: State, env: Env, n: nat)
    requires Recorded(s, env, n) && |s.mem| < TWO64
    ensures |Visited(s, env, n)| == n && IsRun(s.mem, Visited(s, env, n))
    ensures n > 0 ==> Visited(s, env, n)[0] == s.ip
    decreases n
  {
    hide Decode, Step, Quiet, Follows, Recordable;
    if n > 1 {
      QuietFollows(s, env);
      RunRecorded(Step(s, env).s, env, n - 1);
      RunSnoc(s.mem, s.ip, Visited(Step(s, env).s, env, n - 1));
    }
  }

  lemma {:induction false} RunSnoc(code: seq<byte>, ip: nat, ips: seq<nat>)
    requires IsRun(code, ips) && |ips| > 0 && Decode(code, ip).Some? && Recordable(Decode(code, ip).value.op)
    requires Follows(ip, Decode(code, ip).value, ips[0])
    ensures IsRun(code, [ip] + ips)
  {
    hide Decode, Follows, Recordable;
    var all := [ip] + ips;
    forall j | 0 < j < |all|
      ensures Follows(all[j - 1], Decode(code, all[j - 1]).value, all[j])
    {
      if j > 1 {
        assert Follows(ips[j - 1 - 1], Decode(code, ips[j - 1 - 1]).value, ips[j - 1]);
      }
    }
  }

  /** Turn `k` starts at the `k`th address, with the code as it was. */
  lemma {:induction false} VisitedAt(s: State, env: Env, n: nat, k: nat)
    requires Recorded(s, env, n) && k < n && |s.mem| < TWO64
    ensures Run(s, env, k).Running? && Run(s, env, k).s.mem == s.mem
    ensures |Visited(s, env, n)| == n && Visited(s, env, n)[k] == Run(s, env, k).s.ip
    ensures Run(s, env, k + 1) == Step(Run(s, env, k).s, env)
    decreases k
  {
    hide Decode, Step, Quiet, Follows, Recordable;
    RunRecorded(s, env, n);
    if k > 0 {
      QuietFollows(s, env);
      VisitedAt(Step(s, env).s, env, n - 1, k - 1);
    }
  }

  lemma {:induction false} QuietAt(s: State, env: Env, n: nat, k: nat)
    requires Recorded(s, env, n) && k + 1 < n && |s.mem| < TWO64
    ensures Run(s, env, k).Running? && Quiet(Run(s, env, k).s, env)
    decreases k
  {
    hide Decode, Step, Quiet, Follows, Recordable;
    if k > 0 {
      QuietFollows(s, env);
      QuietAt(Step(s, env).s, env, n - 1, k - 1);
    }
  }

  lemma {:induction false} QuietGoesOn(s: State, env: Env)
    requires Quiet(s, env)
    ensures Step(s, env).Running? && Decode(s.mem, s.ip).Some? && Decode(s.mem, s.ip).value.op != RETURN
  {
  }

  /** Of the recorded instructions only the last can be a RETURN, and it has not been recorded before. */
  lemma {:induction false} ReturnIsLast(s: State, env: Env, n: nat, k: nat)
    requires Recorded(s, env, n) && k < n && |s.mem| < TWO64
    ensures |Visited(s, env, n)| == n && IsRun(s.mem, Visited(s, env, n)[..k])
    ensures Run(s, env, k).Running? && Run(s, env, k).s.mem == s.mem && Decode(s.mem, Run(s, env, k).s.ip).Some?
    ensures var t := Run(s, env, k).s;
      var i, items := Decode(s.mem, t.ip).value, RecordAll(s.mem, Visited(s, env, n)[..k]);
      && (Completes(items, t.ip, i) <==> i.op == RETURN)
      && (k + 1 < n ==> i.op != RETURN && Step(t, env).Running?)
  {
    hide Decode, Step, Quiet, Recordable, Visited, RecordAll, Recorded, TraceOf, Contains;
    var ips := Visited(s, env, n);
    RunRecorded(s, env, n);
    VisitedAt(s, env, n, k);
    var items := RecordAll(s.mem, ips[..k]);
    if k + 1 < n {
      QuietAt(s, env, n, k);
      QuietGoesOn(Run(s, env, k).s, env);
    }
    forall j | 0 <= j < k
      ensures Decode(s.mem, ips[j]).value.op != RETURN
    {
      VisitedAt(s, env, n, j);
      QuietAt(s, env, n, j);
      QuietGoesOn(Run(s, env, j).s, env);
    }
    RecordedRun(s.mem, ips[..k]);
    if Decode(s.mem, ips[k]).value.op == RETURN {
      NotRecorded(s.mem, ips[..k], items, ips[k]);
    }
  }

  lemma {:induction false} NotRecorded(code: seq<byte>, ips: seq<nat>, items: seq<Item>, ip: nat)
    requires TraceOf(code, ips, items) && Decode(code, ip).Some? && Decode(code, ip).value.op == RETURN
    requires forall j :: 0 <= j < |ips| ==> Decode(code, ips[j]).Some? && Decode(code, ips[j]).value.op != RETURN
    ensures !Contains(items, ip)
  {
    hide Decode;
  }
}
