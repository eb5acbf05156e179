/** A closure: every local of every frame, bottom up, in one structure. */
module Closures {
  import opened Words
  import opened Tables
  import opened Machine
  import opened Interpreter

  /** The locals of the frames, one frame after another. */
  function AllLocals(frames: seq<Frame>): Table<Reg> {
    if |frames| == 0 then [] else AllLocals(frames[..|frames| - 1]) + frames[|frames| - 1].locals
  }

  /** The same without an order. */
  ghost function LocalsUnion(frames: seq<Frame>): multiset<Pair<Reg>> {
    if |frames| == 0 then multiset{} else LocalsUnion(frames[..|frames| - 1]) + multiset(frames[|frames| - 1].locals)
  }

  lemma {:induction false} AllLocalsUnion(frames: seq<Frame>)
    ensures multiset(AllLocals(frames)) == LocalsUnion(frames)
  {
    if |frames| > 0 {
      AllLocalsUnion(frames[..|frames| - 1]);
    }
  }

  /** A pair is in the closure exactly if it is a local of some frame. */
  lemma {:induction false} ClosureOf(frames: seq<Frame>, p: Pair<Reg>)
    ensures p in InsertAll([], AllLocals(frames)) <==> exists k :: 0 <= k < |frames| && p in frames[k].locals
  {
    ClosureContents(frames);
    InUnion(frames, p);
    assert p in InsertAll([], AllLocals(frames)) <==> p in multiset(InsertAll([], AllLocals(frames)));
  }

  lemma {:induction false} InUnion(frames: seq<Frame>, p: Pair<Reg>)
    ensures p in LocalsUnion(frames) <==> exists k :: 0 <= k < |frames| && p in frames[k].locals
  {
    if |frames| > 0 {
      InUnion(frames[..|frames| - 1], p);
    }
  }

  /** A closure's pairs are the multiset union of all frames' locals, in heap order. */
  lemma {:induction false} ClosureContents(frames: seq<Frame>)
    ensures multiset(InsertAll([], AllLocals(frames))) == LocalsUnion(frames)
    ensures HeapOrdered(InsertAll([], AllLocals(frames)))
  {
    AllLocalsUnion(frames);
    InsertAllContents([], AllLocals(frames));
  }

  /** Copies one frame's locals. */
  method AddLocals(closure: ObjStruct<Reg>, locals: Table<Reg>, ghost before: Table<Reg>)
    requires closure.Valid() && closure.Pairs() == InsertAll([], before)
    modifies closure, closure.heap
    ensures closure.Valid() && (closure.heap == old(closure.heap) || fresh(closure.heap))
    ensures closure.Pairs() == InsertAll([], before + locals)
  {
    hide Insert, InsertAll;
    assert before + locals[..0] == before;
    var idx := 0;
    while idx < |locals|
      invariant idx <= |locals|
      invariant closure.Valid() && (closure.heap == old(closure.heap) || fresh(closure.heap))
      invariant closure.Pairs() == InsertAll([], before + locals[..idx])
    {
      InsertAllSnoc([], before + locals[..idx], locals[idx]);
      assert before + locals[..idx + 1] == before + locals[..idx] + [locals[idx]];
      closure.Set(locals[idx].id, locals[idx].obj);
      idx := idx + 1;
    }
    assert locals[..|locals|] == locals;
  }

  method BuildClosure(vm: Vm) returns (closure: ObjStruct<Reg>)
    requires vm.Valid()
    ensures fresh(closure) && fresh(closure.heap) && closure.Valid()
    ensures closure.Pairs() == InsertAll([], AllLocals(vm.Now().frames))
    ensures multiset(closure.Pairs()) == LocalsUnion(vm.Now().frames) && HeapOrdered(closure.Pairs())
  {
    hide InsertAll;
    ghost var frames := vm.Now().frames;
    closure := new ObjStruct<Reg>(None);
    NoLocals();
    var i := 0;
    while i <= vm.stackDepth
      invariant i <= vm.stackDepth + 1 == |frames|
      invariant closure.Valid() && fresh(closure) && fresh(closure.heap)
      invariant closure.Pairs() == InsertAll([], AllLocals(frames[..i]))
    {
      assert frames[..i + 1][..i] == frames[..i];
      AddLocals(closure, vm.stack[i].locals, AllLocals(frames[..i]));
      i := i + 1;
    }
    assert frames[..i] == frames;
    ClosureContents(frames);
  }

  lemma {:induction false} NoLocals()
    ensures InsertAll([], AllLocals([])) == []
  {
  }
}
