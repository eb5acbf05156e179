/** Sorting a trace by the comparator of the source: which traces come out in address order. */
module TraceOrder {
  import opened Words
  import opened Isa
  import opened Tracing
  import opened Blocks

  function IpsOf(items: seq<Item>): (s: seq<nat>)
    ensures |s| == |items| && forall i :: 0 <= i < |s| ==> s[i] == items[i].ip
  {
    seq(|items|, i requires 0 <= i < |items| => items[i].ip)
  }

  // ---------------------------------------------------------------- the comparator

  /** A 64-bit address as a C int. */
  function AsInt(ip: nat): int {
    var low := ip % 0x1_0000_0000;
    if low < 0x8000_0000 then low else low - 0x1_0000_0000
  }

  /** The cast keeps the low 32 bits, read with a sign. */
  lemma {:induction false} CastIs(ip: nat) returns (k: int)
    ensures AsInt(ip) == ip + k * 0x1_0000_0000 && -0x8000_0000 <= AsInt(ip) < 0x8000_0000
  {
    var q, low := ip / 0x1_0000_0000, ip % 0x1_0000_0000;
    assert ip == q * 0x1_0000_0000 + low;
    k := if low < 0x8000_0000 then -q else -q - 1;
  }

  /** The int the comparator returns; None where its subtraction overflows, which C leaves undefined. */
  function Compare(a: nat, b: nat): Option<int> {
    var d := AsInt(a) - AsInt(b);
    if -0x8000_0000 <= d < 0x8000_0000 then Some(d) else None
  }

  predicate NotAfter(a: nat, b: nat) { Compare(a, b).Some? && Compare(a, b).value <= 0 }

  /** The comparator is defined on any two items. */
  ghost predicate Comparable(items: seq<Item>) {
    forall i, j :: 0 <= i < |items| && 0 <= j < |items| ==> Compare(items[i].ip, items[j].ip).Some?
  }

  /** What a sort may leave: the same items, and, if the comparator is defined on them, in its order.
  Where it is not, nothing is promised about the order. */
  ghost predicate SortedFrom(items: seq<Item>, sorted: seq<Item>) {
    && multiset(sorted) == multiset(items)
    && (Comparable(items) ==> forall i, j :: 0 <= i < j < |sorted| ==> NotAfter(sorted[i].ip, sorted[j].ip))
  }

  /** Cast to ints, the addresses keep their order and are less than 2^31 apart. */
  ghost predicate CastsKeepOrder(ips: seq<nat>) {
    forall i, j :: 0 <= i < |ips| && 0 <= j < |ips| && ips[i] < ips[j] ==>
      AsInt(ips[i]) < AsInt(ips[j]) && AsInt(ips[j]) - AsInt(ips[i]) < 0x8000_0000
  }

  /** All addresses below 2^31 do. */
  lemma {:induction false} SmallAddresses(ips: seq<nat>)
    requires forall i :: 0 <= i < |ips| ==> ips[i] < 0x8000_0000
    ensures CastsKeepOrder(ips)
  {
  }

  // ---------------------------------------------------------------- the order wanted

  lemma {:induction false} CountOne<T>(s: seq<T>, x: T)
    requires forall i, j :: 0 <= i < j < |s| ==> s[i] != s[j]
    ensures multiset(s)[x] <= 1
  {
    if |s| > 0 {
      var front, last := s[..|s| - 1], s[|s| - 1];
      assert s == front + [last];
      CountOne(front, x);
      if x == last {
        assert x !in front;
        assert multiset(front)[x] == 0;
      }
    }
  }

  lemma {:induction false} CountTwo<T>(s: seq<T>, i: nat, j: nat)
    requires i < j < |s| && s[i] == s[j]
    ensures multiset(s)[s[i]] >= 2
  {
    assert s == s[..j] + s[j..];
    assert s[..j][i] == s[i] && s[j..][0] == s[j];
    assert s[i] in multiset(s[..j]) && s[i] in multiset(s[j..]);
  }

  ghost predicate DistinctIps(items: seq<Item>) { forall i, j :: 0 <= i < j < |items| ==> items[i].ip != items[j].ip }

  lemma {:induction false} SameMembers<T>(s: seq<T>, t: seq<T>)
    requires multiset(s) == multiset(t)
    ensures forall x :: x in s <==> x in t
  {
    forall x
      ensures x in s <==> x in t
    {
      assert x in s <==> x in multiset(s);
      assert x in t <==> x in multiset(t);
    }
  }

  lemma {:induction false} StillDistinct(items: seq<Item>, sorted: seq<Item>)
    requires DistinctIps(items) && multiset(sorted) == multiset(items)
    ensures DistinctIps(sorted)
  {
    SameMembers(sorted, items);
    forall i, j | 0 <= i < j < |sorted|
      ensures sorted[i].ip != sorted[j].ip
    {
      assert sorted[i] in items && sorted[j] in items;
      if sorted[i] == sorted[j] {
        CountTwo(sorted, i, j);
        CountOne(items, sorted[i]);
      }
    }
  }

  lemma {:induction false} MemberAt(s: seq<Item>, x: Item) returns (i: nat)
    requires x in s
    ensures i < |s| && s[i] == x
  {
    i :| 0 <= i < |s| && s[i] == x;
  }

  lemma {:induction false} OrderedCasts(items: seq<Item>)
    requires CastsKeepOrder(IpsOf(items))
    ensures Comparable(items)
  {
    forall i, j | 0 <= i < |items| && 0 <= j < |items|
      ensures Compare(items[i].ip, items[j].ip).Some?
    {
      assert IpsOf(items)[i] == items[i].ip && IpsOf(items)[j] == items[j].ip;
    }
  }

  /** When the casts keep the order, every sort leaves ascending addresses. */
  lemma {:induction false} SortsAscending(items: seq<Item>, sorted: seq<Item>)
    requires DistinctIps(items) && SortedFrom(items, sorted) && CastsKeepOrder(IpsOf(items))
    ensures Ascending(IpsOf(sorted))
  {
    hide AsInt;
    OrderedCasts(items);
    StillDistinct(items, sorted);
    SameMembers(sorted, items);
    forall i, j | 0 <= i < j < |sorted|
      ensures sorted[i].ip < sorted[j].ip
    {
      assert sorted[i] in items && sorted[j] in items;
      var a := MemberAt(items, sorted[i]);
      var b := MemberAt(items, sorted[j]);
      assert NotAfter(sorted[i].ip, sorted[j].ip);
      assert IpsOf(items)[a] == sorted[i].ip && IpsOf(items)[b] == sorted[j].ip;
    }
  }

  // ---------------------------------------------------------------- a sort that goes wrong

  /** An order a sort may use: by cast, and equal casts by falling address; or, where nothing is
  promised, all by falling address. */
  predicate Before(a: nat, b: nat, byCast: bool) {
    if byCast then AsInt(a) < AsInt(b) || (AsInt(a) == AsInt(b) && a > b) else a > b
  }

  ghost function Place(x: Item, s: seq<Item>, byCast: bool): seq<Item> {
    if |s| == 0 || Before(x.ip, s[0].ip, byCast) then [x] + s else [s[0]] + Place(x, s[1..], byCast)
  }

  ghost function Arrange(items: seq<Item>, byCast: bool): seq<Item> {
    if |items| == 0 then [] else Place(items[0], Arrange(items[1..], byCast), byCast)
  }

  ghost predicate Arranged(s: seq<Item>, byCast: bool) {
    forall i, j :: 0 <= i < j < |s| ==> !Before(s[j].ip, s[i].ip, byCast)
  }

  lemma {:induction false} PlaceContents(x: Item, s: seq<Item>, byCast: bool)
    ensures multiset(Place(x, s, byCast)) == multiset(s) + multiset{x}
  {
    hide Before;
    if |s| > 0 && !Before(x.ip, s[0].ip, byCast) {
      PlaceContents(x, s[1..], byCast);
      assert s == [s[0]] + s[1..];
    }
  }

  lemma {:induction false} PlaceArranged(x: Item, s: seq<Item>, byCast: bool)
    requires Arranged(s, byCast)
    ensures Arranged(Place(x, s, byCast), byCast)
  {
    hide AsInt;
    PlaceContents(x, s, byCast);
    if |s| == 0 || Before(x.ip, s[0].ip, byCast) {
      forall j | 0 <= j < |s|
        ensures !Before(s[j].ip, x.ip, byCast)
      {
        assert j > 0 ==> !Before(s[j].ip, s[0].ip, byCast);
      }
    } else {
      var r := Place(x, s[1..], byCast);
      PlaceArranged(x, s[1..], byCast);
      PlaceContents(x, s[1..], byCast);
      forall j | 0 <= j < |r|
        ensures !Before(r[j].ip, s[0].ip, byCast)
      {
        assert r[j] in multiset(r);
        assert r[j] == x || r[j] in s[1..];
      }
    }
  }

  lemma {:induction false} ArrangeArranged(items: seq<Item>, byCast: bool)
    ensures Arranged(Arrange(items, byCast), byCast) && multiset(Arrange(items, byCast)) == multiset(items)
  {
    hide Arranged, Place;
    if |items| > 0 {
      PlaceContents(items[0], Arrange(items[1..], byCast), byCast);
    }
    if |items| > 0 {
      ArrangeArranged(items[1..], byCast);
      PlaceArranged(items[0], Arrange(items[1..], byCast), byCast);
      assert items == [items[0]] + items[1..];
    } else {
      NoneArranged(byCast);
    }
  }

  lemma {:induction false} NoneArranged(byCast: bool)
    ensures Arranged([], byCast)
  {
  }

  /** Such an arrangement is something the sort may leave. */
  lemma {:induction false} ArrangementSorts(items: seq<Item>)
    ensures SortedFrom(items, Arrange(items, Comparable(items)))
  {
    hide Arrange;
    var byCast := Comparable(items);
    var s := Arrange(items, byCast);
    ArrangeArranged(items, byCast);
    SameMembers(s, items);
    if byCast {
      forall i, j | 0 <= i < j < |s|
        ensures NotAfter(s[i].ip, s[j].ip)
      {
        assert s[i] in items && s[j] in items;
        var a := MemberAt(items, s[i]);
        var b := MemberAt(items, s[j]);
        assert Compare(items[a].ip, items[b].ip).Some?;
        assert !Before(s[j].ip, s[i].ip, byCast);
      }
    }
  }

  /** An arrangement that is ascending has no two items whose casts are out of order or too far apart. */
  lemma {:induction false} AscendingArrangement(items: seq<Item>, i: nat, j: nat)
    requires i < |items| && j < |items| && items[i].ip < items[j].ip
    requires Ascending(IpsOf(Arrange(items, Comparable(items))))
    ensures AsInt(items[i].ip) < AsInt(items[j].ip) && AsInt(items[j].ip) - AsInt(items[i].ip) < 0x8000_0000
  {
    hide Arrange, AsInt;
    var byCast := Comparable(items);
    var s := Arrange(items, byCast);
    ArrangeArranged(items, byCast);
    SameMembers(s, items);
    assert items[i] in s && items[j] in s;
    var a := MemberAt(s, items[i]);
    var b := MemberAt(s, items[j]);
    assert IpsOf(s)[a] == items[i].ip && IpsOf(s)[b] == items[j].ip;
    assert !Before(s[b].ip, s[a].ip, byCast);
    if byCast {
      assert Compare(items[j].ip, items[i].ip).Some?;
    }
  }

  /** The exact condition: every result of the sort is in address order if and only if the casts keep
  the order of the addresses and no two are 2^31 or more apart. */
  lemma {:induction false} SortsIff(items: seq<Item>)
    requires DistinctIps(items)
    ensures (forall sorted :: SortedFrom(items, sorted) ==> Ascending(IpsOf(sorted))) <==> CastsKeepOrder(IpsOf(items))
  {
    hide Arrange, AsInt, SortedFrom, Comparable, Ascending;
    if CastsKeepOrder(IpsOf(items)) {
      forall sorted | SortedFrom(items, sorted)
        ensures Ascending(IpsOf(sorted))
      {
        SortsAscending(items, sorted);
      }
    }
    if forall sorted :: SortedFrom(items, sorted) ==> Ascending(IpsOf(sorted)) {
      ArrangementSorts(items);
      forall i, j | 0 <= i < |items| && 0 <= j < |items| && IpsOf(items)[i] < IpsOf(items)[j]
        ensures AsInt(IpsOf(items)[i]) < AsInt(IpsOf(items)[j])
                && AsInt(IpsOf(items)[j]) - AsInt(IpsOf(items)[i]) < 0x8000_0000
      {
        AscendingArrangement(items, i, j);
      }
    }
  }

  // ---------------------------------------------------------------- traces

  lemma {:induction false} TraceCasts(code: seq<byte>, ips: seq<nat>, items: seq<Item>)
    requires TraceOf(code, ips, items)
    ensures CastsKeepOrder(IpsOf(items)) <==> CastsKeepOrder(ips)
  {
    hide Decode, AsInt;
    if CastsKeepOrder(IpsOf(items)) {
      forall i, j | 0 <= i < |ips| && 0 <= j < |ips| && ips[i] < ips[j]
        ensures AsInt(ips[i]) < AsInt(ips[j]) && AsInt(ips[j]) - AsInt(ips[i]) < 0x8000_0000
      {
        assert Contains(items, ips[i]) && Contains(items, ips[j]);
        var a :| 0 <= a < |items| && items[a].ip == ips[i];
        var b :| 0 <= b < |items| && items[b].ip == ips[j];
        assert IpsOf(items)[a] < IpsOf(items)[b];
      }
    }
    if CastsKeepOrder(ips) {
      forall a, b | 0 <= a < |items| && 0 <= b < |items| && IpsOf(items)[a] < IpsOf(items)[b]
        ensures AsInt(IpsOf(items)[a]) < AsInt(IpsOf(items)[b])
                && AsInt(IpsOf(items)[b]) - AsInt(IpsOf(items)[a]) < 0x8000_0000
      {
        var i :| 0 <= i < |ips| && ips[i] == items[a].ip;
        var j :| 0 <= j < |ips| && ips[j] == items[b].ip;
        assert ips[i] < ips[j];
      }
    }
  }

  lemma {:induction false} SortedKeepsTrace(code: seq<byte>, ips: seq<nat>, items: seq<Item>, sorted: seq<Item>)
    requires TraceOf(code, ips, items) && multiset(sorted) == multiset(items)
    ensures TraceOf(code, ips, sorted) && |sorted| == |items|
  {
    hide Decode;
    assert |multiset(sorted)| == |sorted| && |multiset(items)| == |items|;
    SameMembers(sorted, items);
    StillDistinct(items, sorted);
    forall i | 0 <= i < |sorted|
      ensures sorted[i].ip in ips && Decode(code, sorted[i].ip) == Some(sorted[i].instr)
    {
      assert sorted[i] in items;
      var a := MemberAt(items, sorted[i]);
    }
    forall j | 0 <= j < |ips|
      ensures Contains(sorted, ips[j])
    {
      assert Contains(items, ips[j]);
      var i :| 0 <= i < |items| && items[i].ip == ips[j];
      assert items[i] in sorted;
      var k := MemberAt(sorted, items[i]);
    }
  }

  /** Every sort of a run's trace is the run's trace in ascending order, if and only if the casts keep
  the order of the addresses executed. */
  lemma {:induction false} TraceSortsIff(code: seq<byte>, ips: seq<nat>, items: seq<Item>)
    requires TraceOf(code, ips, items)
    ensures (forall sorted :: SortedFrom(items, sorted) ==> TraceOf(code, ips, sorted) && Ascending(IpsOf(sorted)))
            <==> CastsKeepOrder(ips)
  {
    hide Decode, SortedFrom, Ascending, CastsKeepOrder, TraceOf;
    TraceDistinct(code, ips, items);
    TraceCasts(code, ips, items);
    SortsIff(items);
    forall sorted | SortedFrom(items, sorted)
      ensures TraceOf(code, ips, sorted)
    {
      SortedParts(items, sorted);
      SortedKeepsTrace(code, ips, items, sorted);
    }
  }

  lemma {:induction false} SortedParts(items: seq<Item>, sorted: seq<Item>)
    requires SortedFrom(items, sorted)
    ensures multiset(sorted) == multiset(items)
  {
  }

  lemma {:induction false} TraceDistinct(code: seq<byte>, ips: seq<nat>, items: seq<Item>)
    requires TraceOf(code, ips, items)
    ensures DistinctIps(items)
  {
    hide Decode;
  }

  // ---------------------------------------------------------------- a trace that comes out unsorted

  const FAR: nat := 0x1_0000_0000

  /** A GOTO at address 5 to a RETURN at address 2^32. */
  ghost function FarCode(): (code: seq<byte>)
    ensures |code| == FAR + 2
  {
    var jump, back := Encode(Instr(GOTO, false, [], 8, FAR, [])), Encode(Instr(RETURN, false, [0], 0, 0, []));
    seq(FAR + 2, i requires 0 <= i < FAR + 2 =>
      if 5 <= i < 14 then jump[i - 5] else if i >= FAR then back[i - FAR] else NOOP)
  }

  lemma {:induction false} FarDecodes()
    ensures Decode(FarCode(), 5) == Some(Instr(GOTO, false, [], 8, FAR, []))
    ensures Decode(FarCode(), FAR) == Some(Instr(RETURN, false, [0], 0, 0, []))
  {
    hide Encode, Decode, FarCode;
    PowerFacts();
    FarHolds();
    DecodeHeld(FarCode(), 5, Instr(GOTO, false, [], 8, FAR, []));
    DecodeHeld(FarCode(), FAR, Instr(RETURN, false, [0], 0, 0, []));
  }

  lemma {:induction false} FarHolds()
    ensures HoldsAt(FarCode(), 5, Instr(GOTO, false, [], 8, FAR, []))
    ensures HoldsAt(FarCode(), FAR, Instr(RETURN, false, [0], 0, 0, []))
  {
    hide Encode, Decode;
  }

  /** Its run has a trace that every sort leaves in falling order. */
  lemma {:induction false} FarTrace(sorted: seq<Item>)
    requires SortedFrom(FarItems(), sorted)
    ensures IsRun(FarCode(), [5, FAR]) && !CastsKeepOrder([5, FAR])
    ensures IpsOf(sorted) == [FAR, 5]
  {
    hide Decode, FarCode;
    FarDecodes();
    FarRecorded();
    var items := FarItems();
    var ips := [5, FAR];
    assert AsInt(5) == 5 && AsInt(FAR) == 0;
    assert ips[0] < ips[1] && !(AsInt(ips[0]) < AsInt(ips[1]));
    SameMembers(sorted, items);
    assert |multiset(sorted)| == |sorted| && |multiset(items)| == |items|;
    StillDistinct(items, sorted);
    assert sorted[0] in items && sorted[1] in items;
    assert Comparable(items);
    assert NotAfter(sorted[0].ip, sorted[1].ip);
  }

  ghost function FarItems(): seq<Item> {
    FarDecodes();
    RecordAll(FarCode(), [5, FAR])
  }

  lemma {:induction false} FarRecorded()
    ensures IsRun(FarCode(), [5, FAR])
    ensures FarItems() == [Item(5, Instr(GOTO, false, [], 8, FAR, [])), Item(FAR, Instr(RETURN, false, [0], 0, 0, []))]
  {
    hide Decode, FarCode;
    FarDecodes();
    var ips := [5, FAR];
    assert ips[..1] == [5] && ips[..1][..0] == [];
    assert RecordAll(FarCode(), [5]) == [Item(5, Instr(GOTO, false, [], 8, FAR, []))] by {
      assert [5][..0] == [];
    }
  }
}
