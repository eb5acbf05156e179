/** What completing a trace does to the program it was recorded from, and which trace a call's tag then names. */
module TracedRuns {
  import opened Words
  import opened Isa
  import opened Machine
  import opened Simulation
  import opened Tracing
  import Tags

  // ---------------------------------------------------------------- the program

  /** Writing a trace index into a call's tag leaves every instruction where it was. */
  lemma {:induction false} IndexKeepsCode(x: Text, mem: seq<byte>, k: nat, index: nat)
    requires Sound(x) && InMemory(x, mem) && k < |x.code| && Tagged(x.code[k].op) && index < SHIFT16
    ensures AddrOf(x, k) + 5 <= |mem| && InMemory(x, Tags.SetIndex(mem, AddrOf(x, k) + 1, index))
  {
    hide AddrOf, Tags.SetIndex, HoldsAt, TagHeat, TagTrace, Tags.WordAt, Tagged;
    var at := AddrOf(x, k) + 1;
    TagRoom(x, mem, k);
    Tags.IndexFrame(mem, at, index);
    assert InstrSound(x, k);
    TaggedRoom(x.code[k]);
    forall j | 0 <= j < |x.code|
      ensures Placed(x, Tags.SetIndex(mem, at, index), j)
    {
      assert Placed(x, mem, j);
      BumpKeepsOne(x, mem, Tags.SetIndex(mem, at, index), k, j);
    }
  }

  /** The tag of call `j` before and after the index of call `k` is written: the same heat, and its own index. */
  lemma {:induction false} IndexOfCalls(x: Text, mem: seq<byte>, k: nat, index: nat, j: nat)
    requires Sound(x) && InMemory(x, mem) && k < |x.code| && Tagged(x.code[k].op) && index < SHIFT16
    requires j < |x.code| && Tagged(x.code[j].op)
    ensures AddrOf(x, k) + 5 <= |mem| && AddrOf(x, j) + 5 <= |mem|
    ensures var r, at := Tags.SetIndex(mem, AddrOf(x, k) + 1, index), AddrOf(x, j) + 1;
      && TagHeat(Tags.WordAt(r, at)) == TagHeat(Tags.WordAt(mem, at))
      && TagTrace(Tags.WordAt(r, at)) == if j == k then index else TagTrace(Tags.WordAt(mem, at))
  {
    hide AddrOf, Tags.SetIndex, TagHeat, TagTrace, Tags.WordAt, InMemory, Sound;
    TagRoom(x, mem, k);
    TagRoom(x, mem, j);
    Tags.IndexFrame(mem, AddrOf(x, k) + 1, index);
    if j != k {
      Simulation.Apart(x, j, k);
      IndexElsewhere(mem, AddrOf(x, k) + 1, index, AddrOf(x, j) + 1);
    }
  }

  lemma {:induction false} IndexElsewhere(mem: seq<byte>, lo: nat, index: nat, at: nat)
    requires lo + 4 <= |mem| && at + 4 <= |mem| && index < SHIFT16 && (lo + 4 <= at || at + 4 <= lo)
    ensures Tags.WordAt(Tags.SetIndex(mem, lo, index), at) == Tags.WordAt(mem, at)
  {
    hide Tags.SetIndex;
    Tags.IndexFrame(mem, lo, index);
    assert Tags.SetIndex(mem, lo, index)[at..at + 4] == mem[at..at + 4];
  }

  // ---------------------------------------------------------------- the run

  lemma {:induction false} SymRunSnoc(x: Text, t: SymState, env: Env, n: nat)
    requires |x.targets| == |x.code| && n > 0
    ensures SymRun(x, t, env, n)
            == match SymRun(x, t, env, n - 1)
               case SymRunning(u) => SymStep(x, u, env)
               case other => other
    decreases n
  {
    hide SymStep;
    if n > 1 {
      match SymStep(x, t, env)
      case SymRunning(u) => SymRunSnoc(x, u, env, n - 1);
      case _ =>
    }
  }

  lemma {:induction false} SameControl(addrs: seq<nat>, s: State, mem: seq<byte>, t: SymState)
    requires Related(addrs, s, t)
    ensures Related(addrs, s.(mem := mem), t)
  {
  }

  /** The recorder does not disturb the program: `n` turns with it, the index going into the tag of call `k`, do
  what the machine by instruction numbers does in `n` steps, as they do without it. */
  lemma {:induction false} RecorderInvisible(x: Text, s: State, t: SymState, env: Env, n: nat, k: nat, index: nat)
    requires Sound(x) && Related(Addresses(x), s, t) && InMemory(x, s.mem)
    requires k < |x.code| && Tagged(x.code[k].op) && index < SHIFT16
    ensures var r := RunWithRecorder(s, env, n, Some(AddrOf(x, k) + 1), index);
      && Matches(Addresses(x), r, SymRun(x, t, env, n))
      && Matches(Addresses(x), Run(s, env, n), SymRun(x, t, env, n))
      && (SymRun(x, t, env, n).SymRunning? ==> InMemory(x, r.s.mem))
  {
    hide SymStep, Step, Related, InMemory, Run, SymRun, EndsInReturn, AddrOf, Sound, Addresses, IndexWritten;
    StillInside(x, t, env);
    RunAgrees(x, s, t, env, n);
    if n == 0 {
      NoTurns(x, s, t, env);
    } else {
      RunAgrees(x, s, t, env, n - 1);
      SymRunSnoc(x, t, env, n);
      var o := SymRun(x, t, env, n - 1);
      if o.SymRunning? {
        var u := Run(s, env, n - 1).s;
        LastTurn(x, u, o.t, env, k, index, EndsInReturn(s, env, n));
      }
    }
  }

  lemma {:induction false} NoTurns(x: Text, s: State, t: SymState, env: Env)
    requires |x.targets| == |x.code|
    ensures Run(s, env, 0) == Running(s) && SymRun(x, t, env, 0) == SymRunning(t)
  {
  }

  lemma {:induction false} LastTurn(x: Text, u: State, t: SymState, env: Env, k: nat, index: nat, ends: bool)
    requires Sound(x) && Related(Addresses(x), u, t) && InMemory(x, u.mem)
    requires k < |x.code| && Tagged(x.code[k].op) && index < SHIFT16
    ensures var v := if ends then u.(mem := IndexWritten(u.mem, Some(AddrOf(x, k) + 1), index)) else u;
      && Matches(Addresses(x), Step(v, env), SymStep(x, t, env))
      && (SymStep(x, t, env).SymRunning? ==> InMemory(x, Step(v, env).s.mem))
  {
    hide SymStep, Step, Related, InMemory, AddrOf, Sound, Addresses, Tags.SetIndex;
    IndexKeepsCode(x, u.mem, k, index);
    var v := if ends then u.(mem := IndexWritten(u.mem, Some(AddrOf(x, k) + 1), index)) else u;
    if ends {
      SameControl(Addresses(x), u, v.mem, t);
    }
    StepAgrees(x, v, t, env);
    StillInside(x, t, env);
  }

  lemma {:induction false} StillInside(x: Text, t: SymState, env: Env)
    requires Sound(x)
    ensures |x.targets| == |x.code| && (SymStep(x, t, env).SymRunning? ==> t.pc < |x.code|)
  {
    hide SymExecute;
  }

  // ---------------------------------------------------------------- which trace a tag names

  /** A trace has been completed: which, and where its caller's tag is. */
  datatype Completion = Completion(at: nat, trace: nat)

  /** The slot a completed trace goes to, which is the same for all: the number of traces stays 0. */
  const SLOT: nat := 1

  /** The program after the first `n` completions. */
  function TagsWritten(mem: seq<byte>, cs: seq<Completion>, n: nat): (r: seq<byte>)
    requires n <= |cs|
    ensures |r| == |mem|
  {
    if n == 0 then mem else IndexWritten(TagsWritten(mem, cs, n - 1), Some(cs[n - 1].at), SLOT + 1)
  }

  /** The list of traces after them. */
  function Listed(cs: seq<Completion>, n: nat): map<nat, nat>
    requires n <= |cs|
  {
    if n == 0 then map[] else Listed(cs, n - 1)[SLOT := cs[n - 1].trace]
  }

  /** The trace the dispatcher takes for the call whose tag is at `at`. */
  function Taken(mem: seq<byte>, list: map<nat, nat>, at: nat): Option<nat>
    requires at + 4 <= |mem|
  {
    var index := TagTrace(Tags.WordAt(mem, at));
    if index > 0 && index - 1 in list then Some(list[index - 1]) else None
  }

  /** The tags are in the program, and do not overlap. */
  ghost predicate TagsApart(mem: seq<byte>, cs: seq<Completion>) {
    && (forall i :: 0 <= i < |cs| ==> cs[i].at + 4 <= |mem|)
    && (forall i, j :: 0 <= i < |cs| && 0 <= j < |cs| ==>
          cs[i].at == cs[j].at || cs[i].at + 4 <= cs[j].at || cs[j].at + 4 <= cs[i].at)
  }

  lemma {:induction false} IndexStays(mem: seq<byte>, cs: seq<Completion>, j: nat, n: nat)
    requires TagsApart(mem, cs) && j < n <= |cs|
    ensures TagTrace(Tags.WordAt(TagsWritten(mem, cs, n), cs[j].at)) == SLOT + 1
  {
    hide TagTrace, TagHeat, Tags.WordAt, Tags.SetIndex;
    var before, c := TagsWritten(mem, cs, n - 1), cs[n - 1];
    Tags.IndexFrame(before, c.at, SLOT + 1);
    if c.at != cs[j].at {
      IndexStays(mem, cs, j, n - 1);
      IndexElsewhere(before, c.at, SLOT + 1, cs[j].at);
    }
  }

  /** Every completed call's tag names the trace completed last: its own if and only if that is the last. */
  lemma {:induction false} OwnTraceIff(mem: seq<byte>, cs: seq<Completion>, j: nat)
    requires TagsApart(mem, cs) && j < |cs|
    ensures var n := |cs|;
      var taken := Taken(TagsWritten(mem, cs, n), Listed(cs, n), cs[j].at);
      taken == Some(cs[n - 1].trace) && (taken == Some(cs[j].trace) <==> cs[j].trace == cs[n - 1].trace)
  {
    hide TagTrace, Tags.WordAt, TagsWritten;
    IndexStays(mem, cs, j, |cs|);
  }
}
