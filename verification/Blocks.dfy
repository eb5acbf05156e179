/** Basic blocks of a trace: the ordered list of block heads, and what it says about control flow. */
module Blocks {
  import opened Words
  import opened Isa
  import opened Tracing

  // ---------------------------------------------------------------- the list of heads, as numbers

  /** Where `ip` goes in the list of heads, looking from position `i` on. */
  function InsertFrom(ips: seq<nat>, i: nat, ip: nat): (r: seq<nat>)
    requires i < |ips|
    ensures ip in r
    decreases |ips| - i
  {
    if ips[i] == ip then ips
    else if i + 1 == |ips| then ips + [ip]
    else if ips[i] < ip < ips[i + 1] then ips[..i + 1] + [ip] + ips[i + 1..]
    else InsertFrom(ips, i + 1, ip)
  }

  function Insert(ips: seq<nat>, ip: nat): (r: seq<nat>)
    ensures ip in r
  {
    if |ips| == 0 then [ip] else InsertFrom(ips, 0, ip)
  }

  /** The block an address belongs to, looking from position `i` on. */
  function CurrentFrom(ips: seq<nat>, i: nat, ip: nat): (k: nat)
    requires i < |ips|
    ensures i <= k < |ips|
    decreases |ips| - i
  {
    if i + 1 == |ips| || ips[i + 1] > ip then i else CurrentFrom(ips, i + 1, ip)
  }

  function Current(ips: seq<nat>, ip: nat): (k: nat)
    requires |ips| > 0
    ensures k < |ips|
  {
    CurrentFrom(ips, 0, ip)
  }

  // ---------------------------------------------------------------- the linked list

  class Block {
    const ip: nat
    var next: Block?

    constructor (ip: nat, next: Block?)
      ensures this.ip == ip && this.next == next
    {
      this.ip, this.next := ip, next;
    }
  }

  /** The successor of node `i` is the next one in the list. */
  ghost predicate NextIs(nodes: seq<Block>, i: nat)
    requires i < |nodes|
    reads nodes[i]
  {
    nodes[i].next == if i + 1 < |nodes| then nodes[i + 1] else null
  }

  class BlockList {
    var head: Block?
    var tail: Block?
    var count: nat
    ghost var nodes: seq<Block>
    ghost var repr: set<Block>

    ghost predicate Valid()
      reads this, repr
    {
      && (forall n :: n in nodes ==> n in repr)
      && count == |nodes|
      && head == (if |nodes| == 0 then null else nodes[0])
      && tail == (if |nodes| == 0 then null else nodes[|nodes| - 1])
      && (forall i, j :: 0 <= i < j < |nodes| ==> nodes[i] != nodes[j])
      && (forall i {:trigger NextIs(nodes, i)} :: 0 <= i < |nodes| ==> NextIs(nodes, i))
    }

    ghost function Ips(): (s: seq<nat>)
      reads this
      ensures |s| == |nodes| && forall i :: 0 <= i < |s| ==> s[i] == nodes[i].ip
    {
      seq(|nodes|, i requires 0 <= i < |nodes| reads this => nodes[i].ip)
    }

    constructor ()
      ensures Valid() && nodes == [] && repr == {}
    {
      head, tail, count, nodes, repr := null, null, 0, [], {};
    }

    /** A node's successor. */
    lemma {:induction false} NextOf(i: nat)
      requires Valid() && i < |nodes|
      ensures nodes[i].next == null <==> i + 1 == |nodes|
      ensures i + 1 < |nodes| ==> nodes[i].next == nodes[i + 1]
    {
      assert NextIs(nodes, i);
      if i + 1 < |nodes| {
        var n: Block := nodes[i + 1];
      }
    }

    /** Links a new block in behind the one at `i`. */
    method LinkAfter(block: Block, ghost i: nat, ip: nat) returns (added: Block)
      requires Valid() && i < |nodes| && nodes[i] == block
      modifies this, block
      ensures Valid() && fresh(added) && added.ip == ip
      ensures nodes == old(nodes[..i + 1]) + [added] + old(nodes[i + 1..])
      ensures repr == old(repr) + {added}
    {
      NextOf(i);
      added := new Block(ip, block.next);
      if block.next == null {
        tail := added;
      }
      block.next := added;
      count := count + 1;
      ghost var was := nodes;
      repr := repr + {added};
      nodes := nodes[..i + 1] + [added] + nodes[i + 1..];
      forall j | 0 <= j < |nodes|
        ensures NextIs(nodes, j)
      {
        if j < i {
          assert old(NextIs(nodes, j)) && nodes[j] == was[j] && nodes[j + 1] == was[j + 1];
        } else if j > i + 1 {
          assert old(NextIs(nodes, j - 1)) && nodes[j] == was[j - 1];
        }
      }
    }

    /** The block that begins at `ip`, or else the one to link a new one behind. */
    method Locate(ip: nat) returns (block: Block, found: bool, ghost i: nat)
      requires Valid() && |nodes| > 0
      ensures i < |nodes| && block == nodes[i]
      ensures if found then block.ip == ip && Insert(Ips(), ip) == Ips()
              else Insert(Ips(), ip) == Ips()[..i + 1] + [ip] + Ips()[i + 1..]
    {
      ghost var ips := Ips();
      i := 0;
      block := head;
      while true
        invariant i < |nodes| && block == nodes[i]
        invariant InsertFrom(ips, i, ip) == Insert(ips, ip)
        decreases |nodes| - i
      {
        NextOf(i);
        if ip == block.ip {
          return block, true, i;
        }
        var next := block.next;
        if next == null || (block.ip < ip && ip < next.ip) {
          AtEnd(ips, i, ip);
          return block, false, i;
        }
        block := next;
        i := i + 1;
      }
    }

    /** The block that begins at `ip`, put into the list if there is none. */
    method FindOrInsert(ip: nat) returns (block: Block)
      requires Valid()
      modifies this, repr
      ensures Valid() && Ips() == Insert(old(Ips()), ip)
      ensures block in nodes && block.ip == ip
      ensures forall n :: n in old(nodes) ==> n in nodes
      ensures fresh(repr - old(repr))
    {
      hide Insert;
      if head == null {
        EmptyInsert(ip);
        block := new Block(ip, null);
        head, tail, count, nodes, repr := block, block, 1, [block], repr + {block};
        assert Ips() == [ip];
        return;
      }
      ghost var ips := Ips();
      var at, found, i := Locate(ip);
      if found {
        return at;
      }
      block := LinkAfter(at, i, ip);
      assert Ips() == ips[..i + 1] + [ip] + ips[i + 1..];
    }

    method CurrentBlock(ip: nat) returns (block: Block)
      requires Valid() && |nodes| > 0
      ensures block == nodes[Current(Ips(), ip)]
    {
      ghost var i := 0;
      block := head;
      while true
        invariant i < |nodes| && block == nodes[i]
        invariant CurrentFrom(Ips(), i, ip) == Current(Ips(), ip)
        decreases |nodes| - i
      {
        NextOf(i);
        var next := block.next;
        if next == null || next.ip > ip {
          return;
        }
        block := next;
        i := i + 1;
      }
    }
  }

  lemma {:induction false} AtEnd(ips: seq<nat>, i: nat, ip: nat)
    requires i < |ips|
    ensures i + 1 == |ips| ==> ips[..i + 1] + [ip] + ips[i + 1..] == ips + [ip]
  {
  }

  lemma {:induction false} EmptyInsert(ip: nat)
    ensures Insert([], ip) == [ip]
  {
  }

  // ---------------------------------------------------------------- order

  ghost predicate Ascending(ips: seq<nat>) { forall i, j :: 0 <= i < j < |ips| ==> ips[i] < ips[j] }

  lemma {:induction false} InsertFromAscending(ips: seq<nat>, i: nat, ip: nat)
    requires Ascending(ips) && i < |ips| && ips[i] <= ip
    ensures var r := InsertFrom(ips, i, ip);
      && Ascending(r) && r[0] == ips[0]
      && |r| == |ips| + (if ip in ips then 0 else 1)
      && forall x :: x in r <==> x in ips || x == ip
    decreases |ips| - i
  {
    if ips[i] != ip && i + 1 < |ips| && !(ips[i] < ip < ips[i + 1]) {
      InsertFromAscending(ips, i + 1, ip);
    } else if ips[i] != ip {
      AtEnd(ips, i, ip);
      InsertBetween(ips, i, ip);
    }
  }

  lemma {:induction false} InsertBetween(ips: seq<nat>, i: nat, ip: nat)
    requires Ascending(ips) && i < |ips| && ips[i] < ip && (i + 1 < |ips| ==> ip < ips[i + 1])
    ensures var r := ips[..i + 1] + [ip] + ips[i + 1..];
      Ascending(r) && r[0] == ips[0] && ip !in ips && forall x :: x in r <==> x in ips || x == ip
  {
    assert ips == ips[..i + 1] + ips[i + 1..];
    forall j | 0 <= j < |ips|
      ensures ips[j] != ip
    {
      if j > i + 1 { assert ips[i + 1] < ips[j]; }
      if j < i { assert ips[j] < ips[i]; }
    }
  }

  /** Finding or inserting an address not below the first keeps the list ascending and without
  duplicates, and adds that address only. */
  lemma {:induction false} InsertAscending(ips: seq<nat>, ip: nat)
    requires Ascending(ips) && |ips| > 0 && ips[0] <= ip
    ensures var r := Insert(ips, ip);
      && Ascending(r) && r[0] == ips[0]
      && |r| == |ips| + (if ip in ips then 0 else 1)
      && forall x :: x in r <==> x in ips || x == ip
  {
    InsertFromAscending(ips, 0, ip);
  }

  lemma {:induction false} InsertBelow(ips: seq<nat>, i: nat, ip: nat)
    requires Ascending(ips) && i < |ips| && ip < ips[0]
    ensures InsertFrom(ips, i, ip) == ips + [ip]
    decreases |ips| - i
  {
    if i + 1 < |ips| {
      InsertBelow(ips, i + 1, ip);
    }
  }

  /** An address below the first goes to the end: order is kept exactly when it is not below. */
  lemma {:induction false} InsertKeepsOrderIff(ips: seq<nat>, ip: nat)
    requires Ascending(ips) && |ips| > 0
    ensures Ascending(Insert(ips, ip)) <==> ips[0] <= ip
  {
    if ips[0] <= ip {
      InsertAscending(ips, ip);
    } else {
      InsertBelow(ips, 0, ip);
      assert (ips + [ip])[|ips|] < (ips + [ip])[0];
    }
  }

  lemma {:induction false} CurrentFromIs(ips: seq<nat>, i: nat, ip: nat)
    requires Ascending(ips) && i < |ips| && ips[i] <= ip
    ensures var k := CurrentFrom(ips, i, ip); ips[k] <= ip && (k + 1 < |ips| ==> ip < ips[k + 1])
    decreases |ips| - i
  {
    if i + 1 < |ips| && ips[i + 1] <= ip {
      CurrentFromIs(ips, i + 1, ip);
    }
  }

  /** The current block of an address is the last one that does not begin after it. */
  lemma {:induction false} CurrentIs(ips: seq<nat>, ip: nat, k: nat)
    requires Ascending(ips) && |ips| > 0 && ips[0] <= ip && k < |ips|
    ensures k == Current(ips, ip) <==> ips[k] <= ip && (k + 1 < |ips| ==> ip < ips[k + 1])
  {
    var c := Current(ips, ip);
    if c < k {
      NotBefore(ips, c + 1, k);
    } else if k < c {
      NotBefore(ips, k + 1, c);
    }
    CurrentFromIs(ips, 0, ip);
  }

  lemma {:induction false} NotBefore(ips: seq<nat>, i: nat, j: nat)
    requires Ascending(ips) && i <= j < |ips|
    ensures ips[i] <= ips[j]
  {
  }

  // ---------------------------------------------------------------- identifying the blocks of a trace

  predicate IsIf(item: Item) { item.instr.op == IF }

  predicate IsGoto(item: Item) { item.instr.op == GOTO }

  /** Bytes of an IF. */
  const IF_LENGTH: nat := 10

  /** Heads after the branches among the first `k` items. */
  function HeadsUpTo(items: seq<Item>, k: nat): (h: seq<nat>)
    requires k <= |items| && |items| > 0
  {
    if k == 0 then [items[0].ip]
    else
      var h := HeadsUpTo(items, k - 1);
      var item := items[k - 1];
      if IsIf(item) then
        var h1 := if Contains(items, item.instr.field) then Insert(h, item.instr.field) else h;
        if Contains(items, item.ip + IF_LENGTH) then Insert(h1, item.ip + IF_LENGTH) else h1
      else if IsGoto(item) then Insert(h, item.instr.field)
      else h
  }

  function Heads(items: seq<Item>): seq<nat>
    requires |items| > 0
  {
    HeadsUpTo(items, |items|)
  }

  /** The blocks a branch was resolved to; null asks for a bailout. */
  datatype Arms = NoArms | IfArms(truthy: Block?, falsey: Block?) | GotoArm(dest: Block)

  /** What item and arms must have to do with each other. */
  ghost predicate Resolved(items: seq<Item>, item: Item, arms: Arms, nodes: seq<Block>)
  {
    if IsIf(item) then
      && arms.IfArms?
      && (if Contains(items, item.instr.field)
          then arms.truthy in nodes && arms.truthy.ip == item.instr.field else arms.truthy == null)
      && (if Contains(items, item.ip + IF_LENGTH)
          then arms.falsey in nodes && arms.falsey.ip == item.ip + IF_LENGTH else arms.falsey == null)
    else if IsGoto(item) then arms.GotoArm? && arms.dest in nodes && arms.dest.ip == item.instr.field
    else arms.NoArms?
  }

  /** Every traced GOTO goes to a traced instruction. */
  ghost predicate GotosTraced(items: seq<Item>) {
    forall i :: 0 <= i < |items| && IsGoto(items[i]) ==> Contains(items, items[i].instr.field)
  }

  /** Is the address traced? */
  method ContainsIp(items: seq<Item>, ip: nat) returns (r: bool)
    ensures r <==> Contains(items, ip)
  {
    var i := 0;
    while i < |items|
      invariant i <= |items|
      invariant forall j :: 0 <= j < i ==> items[j].ip != ip
    {
      if items[i].ip == ip {
        return true;
      }
      i := i + 1;
    }
    return false;
  }

  /** The arm for an address: its block, or null when it was never traced. */
  method ArmFor(items: seq<Item>, list: BlockList, ip: nat) returns (arm: Block?)
    requires list.Valid()
    modifies list, list.repr
    ensures list.Valid()
    ensures list.Ips() == if Contains(items, ip) then Insert(old(list.Ips()), ip) else old(list.Ips())
    ensures if Contains(items, ip) then arm in list.nodes && arm.ip == ip else arm == null
    ensures forall n :: n in old(list.nodes) ==> n in list.nodes
    ensures fresh(list.repr - old(list.repr))
  {
    var traced := ContainsIp(items, ip);
    if traced {
      arm := list.FindOrInsert(ip);
    } else {
      arm := null;
    }
  }

  /** One item's arms; None where the C code asserts, at a GOTO whose target was never traced. */
  method IdentifyItem(items: seq<Item>, k: nat, list: BlockList) returns (arms: Option<Arms>)
    requires list.Valid() && k < |items| && list.Ips() == HeadsUpTo(items, k)
    modifies list, list.repr
    ensures list.Valid()
    ensures arms.None? <==> IsGoto(items[k]) && !Contains(items, items[k].instr.field)
    ensures arms.Some? ==> list.Ips() == HeadsUpTo(items, k + 1) && Resolved(items, items[k], arms.value, list.nodes)
    ensures forall n :: n in old(list.nodes) ==> n in list.nodes
    ensures fresh(list.repr - old(list.repr))
  {
    hide Insert, Contains, BlockList.Valid, BlockList.Ips;
    var item := items[k];
    if IsIf(item) {
      var truthy := ArmFor(items, list, item.instr.field);
      var falsey := ArmFor(items, list, item.ip + IF_LENGTH);
      return Some(IfArms(truthy, falsey));
    }
    if IsGoto(item) {
      var traced := ContainsIp(items, item.instr.field);
      if !traced {
        return None;
      }
      var dest := list.FindOrInsert(item.instr.field);
      return Some(GotoArm(dest));
    }
    return Some(NoArms);
  }

  lemma {:induction false} KeepsResolved(items: seq<Item>, item: Item, arms: Arms, nodes: seq<Block>,
      nodes': seq<Block>)
    requires Resolved(items, item, arms, nodes) && forall n :: n in nodes ==> n in nodes'
    ensures Resolved(items, item, arms, nodes')
  {
  }

  /** The pass over the sorted trace: all heads, and every branch resolved to its blocks. */
  method IdentifyBlocks(items: seq<Item>) returns (list: BlockList, arms: seq<Arms>, ok: bool)
    requires |items| > 0
    ensures ok <==> GotosTraced(items)
    ensures fresh(list) && list.Valid()
    ensures ok ==> list.Ips() == Heads(items)
    ensures ok ==> |arms| == |items| && forall i :: 0 <= i < |items| ==> Resolved(items, items[i], arms[i], list.nodes)
  {
    hide Insert, Contains, BlockList.Valid, Resolved, HeadsUpTo;
    list := NewList(items);
    arms := [];
    var i := 0;
    while i < |items|
      invariant i <= |items| && |arms| == i
      invariant list.Valid() && fresh(list) && fresh(list.repr)
      invariant list.Ips() == HeadsUpTo(items, i)
      invariant forall j :: 0 <= j < i ==> Resolved(items, items[j], arms[j], list.nodes)
      invariant forall j :: 0 <= j < i && IsGoto(items[j]) ==> Contains(items, items[j].instr.field)
    {
      ghost var nodes := list.nodes;
      var a := IdentifyItem(items, i, list);
      if a.None? {
        return list, arms, false;
      }
      forall j | 0 <= j < i
        ensures Resolved(items, items[j], arms[j], list.nodes)
      {
        KeepsResolved(items, items[j], arms[j], nodes, list.nodes);
      }
      arms := arms + [a.value];
      i := i + 1;
    }
    ok := true;
  }

  /** The entry's block. */
  method NewList(items: seq<Item>) returns (list: BlockList)
    requires |items| > 0
    ensures fresh(list) && list.Valid() && fresh(list.repr)
    ensures list.Ips() == HeadsUpTo(items, 0)
  {
    list := new BlockList();
    EmptyInsert(items[0].ip);
    var entry := list.FindOrInsert(items[0].ip);
  }
}
