/** What trace recording, sorting and block identification guarantee about control flow. */
module ControlFlow {
  import opened Words
  import opened Isa
  import opened Machine
  import opened Tracing
  import opened Blocks
  import opened TraceOrder
  import InstructionLaws

  // ---------------------------------------------------------------- the heads

  /** `h` is where branch item `i` can go and is traced. */
  predicate BranchTo(items: seq<Item>, i: nat, h: nat)
    requires i < |items|
  {
    || (IsIf(items[i]) && (h == items[i].instr.field || h == items[i].ip + IF_LENGTH) && Contains(items, h))
    || (IsGoto(items[i]) && h == items[i].instr.field)
  }

  /** A GOTO to `h`, or an IF to it or right before it. */
  predicate BranchesTo(item: Item, h: nat) {
    || (item.instr.op == GOTO && h == item.instr.field)
    || (item.instr.op == IF && (h == item.instr.field || h == item.ip + 10))
  }

  /** Some traced branch goes there. */
  ghost predicate BranchedTo(items: seq<Item>, h: nat) { exists i :: 0 <= i < |items| && BranchTo(items, i, h) }

  /** The entry, and the traced targets and fall-throughs of the first `k` items. */
  ghost predicate IsHead(items: seq<Item>, k: nat, h: nat)
    requires 0 < |items| && k <= |items|
  {
    h == items[0].ip || exists i :: 0 <= i < k && BranchTo(items, i, h)
  }

  lemma {:induction false} ContainedAbove(items: seq<Item>, ip: nat)
    requires Ascending(IpsOf(items)) && |items| > 0 && Contains(items, ip)
    ensures items[0].ip <= ip
  {
    var i :| 0 <= i < |items| && items[i].ip == ip;
    NotBefore(IpsOf(items), 0, i);
  }

  /** The list of heads stays in order, and names the head of the trace first. */
  ghost predicate HeadList(items: seq<Item>, k: nat, h: seq<nat>)
    requires 0 < |items| && k <= |items|
  {
    && Ascending(h) && |h| > 0 && h[0] == items[0].ip
    && forall x :: x in h <==> IsHead(items, k, x)
  }

  lemma {:induction false} HeadListStep(items: seq<Item>, k: nat, h: seq<nat>, h': seq<nat>)
    requires k < |items| && HeadList(items, k, h)
    requires Ascending(h') && |h'| > 0 && h'[0] == h[0]
    requires forall x :: x in h' <==> x in h || BranchTo(items, k, x)
    ensures HeadList(items, k + 1, h')
  {
    forall x
      ensures IsHead(items, k + 1, x) <==> IsHead(items, k, x) || BranchTo(items, k, x)
    {
      if exists i :: 0 <= i < k && BranchTo(items, i, x) {
        var i :| 0 <= i < k && BranchTo(items, i, x);
        assert 0 <= i < k + 1 && BranchTo(items, i, x);
      }
    }
  }

  /** One of the two insertions of an IF, or neither. */
  lemma {:induction false} InsertTraced(items: seq<Item>, h: seq<nat>, ip: nat)
    requires Ascending(IpsOf(items)) && |items| > 0 && Ascending(h) && |h| > 0 && h[0] == items[0].ip
    ensures var h' := if Contains(items, ip) then Insert(h, ip) else h;
      && Ascending(h') && |h'| > 0 && h'[0] == h[0]
      && forall x :: x in h' <==> x in h || (x == ip && Contains(items, ip))
  {
    hide Contains, Insert;
    if Contains(items, ip) {
      ContainedAbove(items, ip);
      InsertAscending(h, ip);
    }
  }

  lemma {:induction false} HeadsUpToExactly(items: seq<Item>, k: nat)
    requires 0 < |items| && k <= |items| && Ascending(IpsOf(items)) && GotosTraced(items)
    ensures HeadList(items, k, HeadsUpTo(items, k))
  {
    hide Contains, Insert, Ascending, HeadList;
    if k == 0 {
      FirstHead(items);
    } else {
      HeadsUpToExactly(items, k - 1);
      HeadsStep(items, k - 1, HeadsUpTo(items, k - 1), HeadsUpTo(items, k));
    }
  }

  lemma {:induction false} FirstHead(items: seq<Item>)
    requires 0 < |items|
    ensures HeadList(items, 0, [items[0].ip])
  {
  }

  lemma {:induction false} HeadsStep(items: seq<Item>, k: nat, h: seq<nat>, h': seq<nat>)
    requires k < |items| && Ascending(IpsOf(items)) && GotosTraced(items) && HeadList(items, k, h)
    requires h' == var item := items[k];
      if IsIf(item) then
        var h1 := if Contains(items, item.instr.field) then Insert(h, item.instr.field) else h;
        if Contains(items, item.ip + IF_LENGTH) then Insert(h1, item.ip + IF_LENGTH) else h1
      else if IsGoto(item) then Insert(h, item.instr.field)
      else h
    ensures HeadList(items, k + 1, h')
  {
    hide Contains, Insert, IsHead, Ascending;
    var item := items[k];
    if IsIf(item) {
      InsertTraced(items, h, item.instr.field);
      var h1 := if Contains(items, item.instr.field) then Insert(h, item.instr.field) else h;
      InsertTraced(items, h1, item.ip + IF_LENGTH);
      assert forall x :: BranchTo(items, k, x) <==>
        (x == item.instr.field && Contains(items, x)) || (x == item.ip + IF_LENGTH && Contains(items, x));
    } else if IsGoto(item) {
      InsertTraced(items, h, item.instr.field);
    }
    HeadListStep(items, k, h, h');
  }

  lemma {:induction false} HeadMeans(items: seq<Item>, h: nat)
    requires 0 < |items| && GotosTraced(items)
    ensures IsHead(items, |items|, h)
            <==> h == items[0].ip || exists i :: 0 <= i < |items| && BranchesTo(items[i], h) && Contains(items, h)
  {
    hide Contains;
    if i :| 0 <= i < |items| && BranchTo(items, i, h) {
      assert BranchesTo(items[i], h) && Contains(items, h);
    }
    if i :| 0 <= i < |items| && BranchesTo(items[i], h) && Contains(items, h) {
      assert BranchTo(items, i, h);
    }
  }

  /** Identification keeps the list strictly ascending; its heads are exactly the entry, the traced
  targets and the traced fall-throughs of IFs; and all of them are traced. */
  lemma {:induction false} HeadsExactly(items: seq<Item>)
    requires 0 < |items| && Ascending(IpsOf(items)) && GotosTraced(items)
    ensures Ascending(Heads(items)) && |Heads(items)| > 0 && Heads(items)[0] == items[0].ip
    ensures forall h :: h in Heads(items) <==> IsHead(items, |items|, h)
    ensures forall h :: h in Heads(items) ==> Contains(items, h)
    ensures forall h :: h in Heads(items)
              <==> h == items[0].ip || exists i :: 0 <= i < |items| && BranchesTo(items[i], h) && Contains(items, h)
  {
    hide HeadsUpTo;
    HeadsUpToExactly(items, |items|);
    forall h | h in Heads(items)
      ensures Contains(items, h)
    {
      assert IsHead(items, |items|, h);
      if h != items[0].ip {
        var i :| 0 <= i < |items| && BranchTo(items, i, h);
      }
    }
    forall h
      ensures h in Heads(items)
              <==> h == items[0].ip || exists i :: 0 <= i < |items| && BranchesTo(items[i], h) && Contains(items, h)
    {
      HeadMeans(items, h);
      assert h in Heads(items) <==> IsHead(items, |items|, h);
    }
  }

  // ---------------------------------------------------------------- continuations

  /** Two neighbours in the trace are in different blocks exactly when the second begins its block,
  so a continuation branch goes to the instruction that follows. */
  lemma {:induction false} ContinuationHitsHead(items: seq<Item>, k: nat)
    requires k + 1 < |items| && Ascending(IpsOf(items)) && GotosTraced(items)
    ensures var h, a, b := Heads(items), items[k].ip, items[k + 1].ip;
      && |h| > 0
      && (Current(h, a) != Current(h, b) <==> b in h)
      && (Current(h, a) != Current(h, b) ==> Current(h, b) == Current(h, a) + 1 && h[Current(h, b)] == b)
  {
    hide HeadsUpTo, IsHead, CurrentFrom;
    HeadsExactly(items);
    var h, a, b := Heads(items), items[k].ip, items[k + 1].ip;
    NotBefore(IpsOf(items), 0, k);
    assert IpsOf(items)[k] < IpsOf(items)[k + 1];
    var i, j := Current(h, a), Current(h, b);
    CurrentIs(h, a, i);
    CurrentIs(h, b, j);
    if i + 1 < |h| {
      NoHeadBetween(items, h, k, i + 1);
    }
    HeadOrder(h, a, b, i, j);
  }

  lemma {:induction false} NoHeadBetween(items: seq<Item>, h: seq<nat>, k: nat, n: nat)
    requires k + 1 < |items| && Ascending(IpsOf(items)) && n < |h| && Contains(items, h[n])
    requires items[k].ip < h[n]
    ensures items[k + 1].ip <= h[n]
  {
    var m :| 0 <= m < |items| && items[m].ip == h[n];
    assert IpsOf(items)[m] == h[n] && IpsOf(items)[k] == items[k].ip && IpsOf(items)[k + 1] == items[k + 1].ip;
    WeaklyAscending(IpsOf(items));
  }

  lemma {:induction false} HeadOrder(h: seq<nat>, a: nat, b: nat, i: nat, j: nat)
    requires Ascending(h) && i < |h| && j < |h| && a < b
    requires h[i] <= a && (i + 1 < |h| ==> a < h[i + 1] && b <= h[i + 1])
    requires h[j] <= b && (j + 1 < |h| ==> b < h[j + 1])
    ensures i != j <==> b in h
    ensures i != j ==> j == i + 1 && h[j] == b
  {
    WeaklyAscending(h);
  }

  lemma {:induction false} WeaklyAscending(h: seq<nat>)
    requires Ascending(h)
    ensures forall i, j :: 0 <= i <= j < |h| ==> h[i] <= h[j]
  {
  }

  // ---------------------------------------------------------------- terminators

  /** Encodings do not overlap. */
  ghost predicate Apart(code: seq<byte>, ips: seq<nat>) {
    forall i, j :: 0 <= i < |ips| && 0 <= j < |ips| && ips[i] < ips[j] && Decode(code, ips[i]).Some?
      ==> ips[i] + Decode(code, ips[i]).value.Size() <= ips[j]
  }

  lemma {:induction false} BranchSizes(code: seq<byte>, ip: nat)
    requires Decode(code, ip).Some?
    ensures Decode(code, ip).value.op == IF ==> Decode(code, ip).value.Size() == IF_LENGTH
  {
  }

  lemma {:induction false} ItemAt(code: seq<byte>, ips: seq<nat>, items: seq<Item>, ip: nat) returns (i: nat)
    requires TraceOf(code, ips, items) && ip in ips
    ensures i < |items| && items[i].ip == ip && Decode(code, ip) == Some(items[i].instr)
  {
    hide Decode;
    var j :| 0 <= j < |ips| && ips[j] == ip;
    assert Contains(items, ips[j]);
    i :| 0 <= i < |items| && items[i].ip == ip;
  }

  /** A traced address that is not the entry was reached by a branch to it or from the instruction
  right before it. */
  lemma {:induction false} HowReached(code: seq<byte>, ips: seq<nat>, items: seq<Item>, ip: nat) returns (i: nat)
    requires IsRun(code, ips) && TraceOf(code, ips, items) && ip in ips && ip != ips[0]
    ensures i < |items|
    ensures BranchTo(items, i, ip)
            || (items[i].instr.op !in [IF, GOTO, RETURN] && items[i].ip + items[i].instr.Size() == ip)
  {
    hide Decode;
    var j :| 0 <= j < |ips| && ips[j] == ip;
    assert Follows(ips[j - 1], Decode(code, ips[j - 1]).value, ips[j]);
    i := ItemAt(code, ips, items, ips[j - 1]);
    BranchSizes(code, ips[j - 1]);
    assert Contains(items, ips[j]);
  }

  /** In the sorted trace of a run, an IF, GOTO or RETURN is the last item of its block, unless the
  item after it is the run's entry: then exactly when a traced branch goes there. */
  lemma {:induction false} TerminatorsEndBlocks(code: seq<byte>, ips: seq<nat>, items: seq<Item>, k: nat)
    requires IsRun(code, ips) && Apart(code, ips) && TraceOf(code, ips, items)
    requires Ascending(IpsOf(items)) && GotosTraced(items)
    requires k + 1 < |items| && items[k].instr.op in [IF, GOTO, RETURN] && |ips| > 0
    ensures |Heads(items)| > 0
    ensures var next := items[k + 1].ip;
      (Current(Heads(items), items[k].ip) != Current(Heads(items), next)) <==>
      (next != ips[0] || BranchedTo(items, next))
  {
    hide Decode, HeadsUpTo, CurrentFrom, Contains, Ascending;
    var next := items[k + 1].ip;
    HeadsExactly(items);
    ContinuationHitsHead(items, k);
    if next != ips[0] {
      var i := HowReached(code, ips, items, next);
      if !BranchTo(items, i, next) {
        NeighbourBefore(code, ips, items, i, k);
        assert false;
      }
      assert IsHead(items, |items|, next);
    } else {
      NotTheFirst(items, k + 1);
    }
  }

  lemma {:induction false} NotTheFirst(items: seq<Item>, k: nat)
    requires Ascending(IpsOf(items)) && 0 < k < |items|
    ensures items[0].ip < items[k].ip
  {
    assert IpsOf(items)[0] < IpsOf(items)[k];
  }

  /** The instruction ending where item `k + 1` begins can only be item `k`. */
  lemma {:induction false} NeighbourBefore(code: seq<byte>, ips: seq<nat>, items: seq<Item>, i: nat, k: nat)
    requires TraceOf(code, ips, items) && Apart(code, ips) && Ascending(IpsOf(items))
    requires k + 1 < |items| && i < |items| && items[i].ip + items[i].instr.Size() == items[k + 1].ip
    ensures i == k
  {
    hide Decode;
    if i < k {
      assert IpsOf(items)[i] < IpsOf(items)[k] && IpsOf(items)[k] < IpsOf(items)[k + 1];
      ItemsApart(code, ips, items, i, k);
    } else if i > k {
      WeaklyAscending(IpsOf(items));
    }
  }

  lemma {:induction false} ItemsApart(code: seq<byte>, ips: seq<nat>, items: seq<Item>, i: nat, k: nat)
    requires TraceOf(code, ips, items) && Apart(code, ips) && i < |items| && k < |items| && items[i].ip < items[k].ip
    ensures items[i].ip + items[i].instr.Size() <= items[k].ip
  {
    hide Decode;
    var a :| 0 <= a < |ips| && ips[a] == items[i].ip;
    var b :| 0 <= b < |ips| && ips[b] == items[k].ip;
    assert ips[a] + Decode(code, ips[a]).value.Size() <= ips[b];
  }

  /** The assertion on GOTO targets holds for the trace of a run if and only if the run does not end
  with a GOTO to an address it never executes. */
  lemma {:induction false} GotosTracedIff(code: seq<byte>, ips: seq<nat>, items: seq<Item>)
    requires IsRun(code, ips) && TraceOf(code, ips, items) && |ips| > 0
    ensures var last := Decode(code, ips[|ips| - 1]).value;
      GotosTraced(items) <==> (last.op == GOTO ==> last.field in ips)
  {
    hide Decode;
    var n := |ips| - 1;
    var last := Decode(code, ips[n]).value;
    if GotosTraced(items) && last.op == GOTO {
      var i := ItemAt(code, ips, items, ips[n]);
      assert IsGoto(items[i]);
      var k :| 0 <= k < |items| && items[k].ip == items[i].instr.field;
    }
    if last.op == GOTO ==> last.field in ips {
      forall i | 0 <= i < |items| && IsGoto(items[i])
        ensures Contains(items, items[i].instr.field)
      {
        var j :| 0 <= j < |ips| && ips[j] == items[i].ip;
        GotoGoesOn(code, ips, j);
        assert items[i].instr.field in ips;
        var k :| 0 <= k < |ips| && ips[k] == items[i].instr.field;
        assert Contains(items, ips[k]);
      }
    }
  }

  lemma {:induction false} GotoGoesOn(code: seq<byte>, ips: seq<nat>, j: nat)
    requires IsRun(code, ips) && j < |ips| && Decode(code, ips[j]).value.op == GOTO
    requires var last := Decode(code, ips[|ips| - 1]).value; last.op == GOTO ==> last.field in ips
    ensures Decode(code, ips[j]).value.field in ips
  {
    hide Decode;
    if j + 1 < |ips| {
      assert Follows(ips[j + 1 - 1], Decode(code, ips[j + 1 - 1]).value, ips[j + 1]);
    }
  }

  /** Where the dispatcher goes from a branch is where the arm chosen by the register's value leads: to the block
  that begins there, or, if that was never traced, to none. */
  lemma {:induction false} ArmTaken(items: seq<Item>, item: Item, arms: Arms, nodes: seq<Block>, s: State, env: Env,
      a: byte, v: Value)
    requires Resolved(items, item, arms, nodes) && Decode(s.mem, s.ip) == Some(item.instr) && s.ip == item.ip
    requires s.ip + 10 < TWO64 && (item.instr.op == IF ==> item.instr.pre == [a] && Read(s.data, a) == Some(Some(v)))
    ensures item.instr.op in [IF, GOTO] ==> Step(s, env).Running?
    ensures item.instr.op == IF ==>
              var next, arm := Step(s, env).s.ip, if v == Null || v == Int(0) then arms.falsey else arms.truthy;
              if Contains(items, next) then arm in nodes && arm.ip == next else arm == null
    ensures item.instr.op == GOTO ==> arms.dest in nodes && arms.dest.ip == Step(s, env).s.ip
  {
    hide Decode, Step, Read;
    DecodeFits(s.mem, s.ip, item.instr);
    if item.instr.op == IF {
      InstructionLaws.BranchStep(s, env, item.instr, a, v);
    } else if item.instr.op == GOTO {
      InstructionLaws.GotoStep(s, env, item.instr);
    }
  }

  /** From a recorded run to its blocks. When the casts of its addresses keep their order and the run
  does not end with a GOTO to an address never executed, every sort of its trace is ascending, the
  heads are exact, and an IF, GOTO or RETURN ends its block unless the next item is the run's entry:
  then exactly when a traced branch goes there. */
  lemma {:induction false} RecordedBlocks(code: seq<byte>, ips: seq<nat>, sorted: seq<Item>)
    requires IsRun(code, ips) && Apart(code, ips) && |ips| > 0
    requires var last := Decode(code, ips[|ips| - 1]).value; last.op == GOTO ==> last.field in ips
    requires CastsKeepOrder(ips) && SortedFrom(RecordAll(code, ips), sorted)
    ensures 0 < |sorted| && GotosTraced(sorted) && Ascending(IpsOf(sorted))
    ensures Ascending(Heads(sorted)) && |Heads(sorted)| > 0
    ensures forall h :: h in Heads(sorted) <==> IsHead(sorted, |sorted|, h)
    ensures forall k :: 0 <= k < |sorted| - 1 && sorted[k].instr.op in [IF, GOTO, RETURN] ==>
              ((Current(Heads(sorted), sorted[k].ip) != Current(Heads(sorted), sorted[k + 1].ip)) <==>
               (sorted[k + 1].ip != ips[0] || BranchedTo(sorted, sorted[k + 1].ip)))
  {
    hide Decode, HeadsUpTo, CurrentFrom, IsHead, TraceOf, Heads, Apart, Current, Contains, SortedFrom, CastsKeepOrder;
    RecordedRun(code, ips);
    TraceSortsIff(code, ips, RecordAll(code, ips));
    SortedNotEmpty(RecordAll(code, ips), sorted);
    GotosTracedIff(code, ips, sorted);
    HeadsExactly(sorted);
    forall k | 0 <= k < |sorted| - 1 && sorted[k].instr.op in [IF, GOTO, RETURN]
      ensures (Current(Heads(sorted), sorted[k].ip) != Current(Heads(sorted), sorted[k + 1].ip)) <==>
              (sorted[k + 1].ip != ips[0] || BranchedTo(sorted, sorted[k + 1].ip))
    {
      TerminatorsEndBlocks(code, ips, sorted, k);
    }
  }

  lemma {:induction false} SortedNotEmpty(items: seq<Item>, sorted: seq<Item>)
    requires SortedFrom(items, sorted) && |items| > 0
    ensures |sorted| > 0
  {
    assert |multiset(sorted)| == |sorted| && |multiset(items)| == |items|;
  }

  /** The run of `FarTrace`: once sorted, the RETURN it ends with is taken for the entry, and the GOTO it
  begins with lies in the RETURN's block. */
  lemma {:induction false} FarBlocks(sorted: seq<Item>)
    requires SortedFrom(FarItems(), sorted)
    ensures |sorted| == 2 && sorted[0].instr.op == RETURN
    ensures Heads(sorted) == [FAR]
    ensures Current(Heads(sorted), sorted[0].ip) == Current(Heads(sorted), sorted[1].ip)
  {
    hide Decode, FarCode;
    FarTrace(sorted);
    FarRecorded();
    SameMembers(sorted, FarItems());
    assert sorted[0] in FarItems() && sorted[1] in FarItems();
    assert IpsOf(sorted)[0] == FAR && IpsOf(sorted)[1] == 5;
    assert HeadsUpTo(sorted, 0) == [FAR];
    assert HeadsUpTo(sorted, 1) == [FAR];
    assert HeadsUpTo(sorted, 2) == Insert([FAR], FAR) == [FAR];
  }
}
