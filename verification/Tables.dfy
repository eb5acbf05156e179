/** The struct table: pairs kept by a binary-heap sift-up with parent `i / 2`, looked up by a
binary search over the same array. */
module Tables {
  import opened Words

  datatype Pair<V> = Pair(id: nat, obj: V)

  type Table<V> = seq<Pair<V>>

  // ---------------------------------------------------------------- what the two operations compute

  /** Slot `idx` of `t` is free; move `p` up from there past every parent with a larger key. */
  function Sift<V>(t: Table<V>, idx: nat, p: Pair<V>): (r: Table<V>)
    requires idx < |t|
    ensures |r| == |t|
    decreases idx
  {
    if idx > 0 && p.id < t[idx / 2].id then Sift(t[idx := t[idx / 2]], idx / 2, p) else t[idx := p]
  }

  function Insert<V>(t: Table<V>, p: Pair<V>): (r: Table<V>)
    ensures |r| == |t| + 1
  {
    Sift(t + [p], |t|, p)
  }

  function InsertAll<V>(t: Table<V>, ps: seq<Pair<V>>): Table<V> {
    if |ps| == 0 then t else Insert(InsertAll(t, ps[..|ps| - 1]), ps[|ps| - 1])
  }

  /** Where the binary search between `lo` and `hi` ends. */
  function Search<V>(t: Table<V>, lo: nat, hi: nat, id: nat): (i: nat)
    requires lo <= hi < |t|
    ensures lo <= i <= hi
    decreases hi - lo
  {
    if lo == hi then lo
    else
      var mid := lo + (hi - lo) / 2;
      if t[mid].id < id then Search(t, mid + 1, hi, id) else Search(t, lo, mid, id)
  }

  function Find<V>(t: Table<V>, id: nat): Option<V> {
    if |t| == 0 then None
    else
      var i := Search(t, 0, |t| - 1, id);
      if t[i].id == id then Some(t[i].obj) else None
  }

  // ---------------------------------------------------------------- the table itself

  const INITIAL_HEAP_SIZE: nat := 8

  class ObjStruct<V> {
    var heap: array<Pair<V>>
    var length: nat

    ghost predicate Valid()
      reads this
    {
      0 < heap.Length && length <= heap.Length
    }

    ghost function Pairs(): Table<V>
      requires Valid()
      reads this, heap
    {
      heap[..length]
    }

    constructor (blank: V)
      ensures Valid() && fresh(heap) && Pairs() == []
    {
      heap := new Pair<V>[INITIAL_HEAP_SIZE](_ => Pair(0, blank));
      length := 0;
    }

    /** Doubles the allocation. */
    method GrowHeap(blank: V)
      requires Valid()
      modifies this`heap
      ensures Valid() && fresh(heap) && heap.Length == 2 * old(heap.Length)
      ensures Pairs() == old(Pairs())
    {
      var bigger := new Pair<V>[2 * heap.Length](_ => Pair(0, blank));
      forall i | 0 <= i < length {
        bigger[i] := heap[i];
      }
      heap := bigger;
    }

    /** Room for one more pair. */
    method MakeRoom(blank: V)
      requires Valid()
      modifies this`heap
      ensures Valid() && length < heap.Length && (heap == old(heap) || fresh(heap))
      ensures Pairs() == old(Pairs())
    {
      while length >= heap.Length
        invariant Valid() && (heap == old(heap) || fresh(heap))
        invariant Pairs() == old(Pairs())
        decreases length - heap.Length
      {
        GrowHeap(blank);
      }
    }

    method Set(id: nat, obj: V)
      requires Valid()
      modifies this, heap
      ensures Valid() && (heap == old(heap) || fresh(heap))
      ensures Pairs() == Insert(old(Pairs()), Pair(id, obj))
    {
      hide Sift;
      MakeRoom(obj);
      var pair := Pair(id, obj);
      ghost var goal := Insert(Pairs(), pair);
      var idx: nat := length;
      heap[idx] := pair;
      assert heap[..length + 1] == old(Pairs()) + [pair];
      while idx > 0 && id < heap[idx / 2].id
        invariant Valid() && length < heap.Length && (heap == old(heap) || fresh(heap))
        invariant length == old(length)
        invariant idx <= length
        invariant Sift(heap[..length + 1], idx, pair) == goal
      {
        ghost var before := heap[..length + 1];
        SiftUp(before, idx, pair);
        heap[idx] := heap[idx / 2];
        assert heap[..length + 1] == before[idx := before[idx / 2]];
        idx := idx / 2;
      }
      ghost var before := heap[..length + 1];
      SiftHere(before, idx, pair);
      heap[idx] := pair;
      length := length + 1;
      assert Pairs() == before[idx := pair];
    }

    method Get(id: nat) returns (r: Option<V>)
      requires Valid()
      ensures r == Find(Pairs(), id)
    {
      if length == 0 {
        return None;
      }
      var min, max := 0, length - 1;
      while min < max
        invariant min <= max < length
        invariant Search(Pairs(), min, max, id) == Search(Pairs(), 0, length - 1, id)
      {
        var mid := min + (max - min) / 2;
        assert mid < max;
        if heap[mid].id < id {
          min := mid + 1;
        } else {
          max := mid;
        }
      }
      return if heap[min].id == id then Some(heap[min].obj) else None;
    }
  }

  // ---------------------------------------------------------------- heap order and contents

  ghost predicate HeapOrdered<V>(t: Table<V>) {
    forall i :: 0 < i < |t| ==> t[i / 2].id <= t[i].id
  }

  /** Heap order everywhere but at slot `idx`, whose children already respect its parent. */
  ghost predicate HeapBut<V>(t: Table<V>, idx: nat) {
    && idx < |t|
    && (forall i :: 0 < i < |t| && i != idx && i / 2 != idx ==> t[i / 2].id <= t[i].id)
    && (forall i :: 0 < i < |t| && i / 2 == idx && i != idx && idx > 0 ==> t[idx / 2].id <= t[i].id)
  }

  lemma {:induction false} SiftKeepsHeap<V>(t: Table<V>, idx: nat, p: Pair<V>)
    requires HeapBut(t, idx)
    requires forall i :: 0 < i < |t| && i / 2 == idx && i != idx ==> p.id <= t[i].id
    ensures HeapOrdered(Sift(t, idx, p))
    decreases idx
  {
    if idx > 0 && p.id < t[idx / 2].id {
      SiftKeepsHeap(t[idx := t[idx / 2]], idx / 2, p);
    }
  }

  /** Every insertion keeps heap order. */
  lemma {:induction false} InsertKeepsHeap<V>(t: Table<V>, p: Pair<V>)
    requires HeapOrdered(t)
    ensures HeapOrdered(Insert(t, p))
  {
    SiftKeepsHeap(t + [p], |t|, p);
  }

  lemma {:induction false} SiftUp<V>(t: Table<V>, idx: nat, p: Pair<V>)
    requires 0 < idx < |t| && p.id < t[idx / 2].id
    ensures Sift(t, idx, p) == Sift(t[idx := t[idx / 2]], idx / 2, p)
  {
  }

  lemma {:induction false} SiftHere<V>(t: Table<V>, idx: nat, p: Pair<V>)
    requires idx < |t| && (idx == 0 || t[idx / 2].id <= p.id)
    ensures Sift(t, idx, p) == t[idx := p]
  {
  }

  lemma {:induction false} SiftContents<V>(t: Table<V>, idx: nat, p: Pair<V>)
    requires idx < |t|
    ensures multiset(Sift(t, idx, p)) == multiset(t[idx := p])
    decreases idx
  {
    if idx > 0 && p.id < t[idx / 2].id {
      var up := t[idx := t[idx / 2]];
      SiftContents(up, idx / 2, p);
      assert multiset(up[idx / 2 := p]) == multiset(t[idx := p]);
    }
  }

  /** Every insertion adds its pair and nothing else; duplicates are kept. */
  lemma {:induction false} InsertContents<V>(t: Table<V>, p: Pair<V>)
    ensures multiset(Insert(t, p)) == multiset(t) + multiset{p}
  {
    SiftContents(t + [p], |t|, p);
    assert (t + [p])[|t| := p] == t + [p];
  }

  lemma {:induction false} InsertAllSnoc<V>(t: Table<V>, ps: seq<Pair<V>>, p: Pair<V>)
    ensures InsertAll(t, ps + [p]) == Insert(InsertAll(t, ps), p)
  {
    assert (ps + [p])[..|ps|] == ps;
  }

  lemma {:induction false} InsertAllConcat<V>(t: Table<V>, ps: seq<Pair<V>>, qs: seq<Pair<V>>)
    ensures InsertAll(t, ps + qs) == InsertAll(InsertAll(t, ps), qs)
  {
    hide Insert;
    if |qs| == 0 {
      assert ps + qs == ps;
    } else {
      InsertAllConcat(t, ps, qs[..|qs| - 1]);
      assert (ps + qs)[..|ps + qs| - 1] == ps + qs[..|qs| - 1];
    }
  }

  lemma {:induction false} NothingInserted<V>(t: Table<V>)
    ensures InsertAll(t, []) == t
  {
  }

  lemma {:induction false} InsertAllContents<V>(t: Table<V>, ps: seq<Pair<V>>)
    requires HeapOrdered(t)
    ensures HeapOrdered(InsertAll(t, ps)) && multiset(InsertAll(t, ps)) == multiset(t) + multiset(ps)
  {
    if |ps| > 0 {
      var front, last := ps[..|ps| - 1], ps[|ps| - 1];
      assert ps == front + [last];
      InsertAllContents(t, front);
      InsertKeepsHeap(InsertAll(t, front), last);
      InsertContents(InsertAll(t, front), last);
    }
  }

  // ---------------------------------------------------------------- lookup

  /** What a lookup returns was stored under that key, on any table. */
  lemma {:induction false} FindSound<V>(t: Table<V>, id: nat)
    ensures Find(t, id).Some? ==> Pair(id, Find(t, id).value) in t
  {
  }

  lemma {:induction false} HeapMinimum<V>(t: Table<V>, i: nat)
    requires HeapOrdered(t) && i < |t|
    ensures t[0].id <= t[i].id
  {
    if i > 0 {
      HeapMinimum(t, i / 2);
    }
  }

  lemma {:induction false} SearchLow<V>(t: Table<V>, lo: nat, hi: nat, id: nat)
    requires lo <= hi < |t| && forall i :: lo <= i < hi ==> id <= t[i].id
    ensures Search(t, lo, hi, id) == lo
    decreases hi - lo
  {
    if lo < hi {
      SearchLow(t, lo, lo + (hi - lo) / 2, id);
    }
  }

  /** On a heap-ordered table the least key is found, at the root. */
  lemma {:induction false} FindMinimum<V>(t: Table<V>)
    requires HeapOrdered(t) && |t| > 0
    ensures (forall i :: 0 <= i < |t| ==> t[0].id <= t[i].id) && Find(t, t[0].id) == Some(t[0].obj)
  {
    forall i | 0 <= i < |t|
      ensures t[0].id <= t[i].id
    {
      HeapMinimum(t, i);
    }
    SearchLow(t, 0, |t| - 1, t[0].id);
  }

  ghost predicate Sorted<V>(t: Table<V>) {
    forall i, j :: 0 <= i < j < |t| ==> t[i].id <= t[j].id
  }

  ghost predicate StrictlySorted<V>(t: Table<V>) {
    forall i, j :: 0 <= i < j < |t| ==> t[i].id < t[j].id
  }

  ghost predicate Distinct<V>(t: Table<V>) {
    forall i, j :: 0 <= i < j < |t| ==> t[i].id != t[j].id
  }

  lemma {:induction false} SearchSorted<V>(t: Table<V>, lo: nat, hi: nat, id: nat)
    requires lo <= hi < |t| && Sorted(t)
    ensures var i := Search(t, lo, hi, id);
      && (forall j :: lo <= j < i ==> t[j].id < id)
      && (i < hi ==> id <= t[i].id)
    decreases hi - lo
  {
    if lo < hi {
      var mid := lo + (hi - lo) / 2;
      if t[mid].id < id { SearchSorted(t, mid + 1, hi, id); } else { SearchSorted(t, lo, mid, id); }
    }
  }

  /** The first pair with the key, in insertion order. */
  function FirstWith<V>(ps: seq<Pair<V>>, id: nat): Option<V> {
    if |ps| == 0 then None else if ps[0].id == id then Some(ps[0].obj) else FirstWith(ps[1..], id)
  }

  lemma {:induction false} FirstWithAt<V>(ps: seq<Pair<V>>, id: nat, i: nat)
    requires i < |ps| && ps[i].id == id && forall j :: 0 <= j < i ==> ps[j].id != id
    ensures FirstWith(ps, id) == Some(ps[i].obj)
  {
    if i > 0 {
      FirstWithAt(ps[1..], id, i - 1);
    }
  }

  lemma {:induction false} FirstWithNone<V>(ps: seq<Pair<V>>, id: nat)
    requires forall j :: 0 <= j < |ps| ==> ps[j].id != id
    ensures FirstWith(ps, id) == None
  {
    if |ps| > 0 {
      FirstWithNone(ps[1..], id);
    }
  }

  /** On a sorted table lookup is exact, and a duplicated key yields its oldest value. */
  lemma {:induction false} FindOnSorted<V>(t: Table<V>, id: nat)
    requires Sorted(t)
    ensures Find(t, id) == FirstWith(t, id)
  {
    if |t| == 0 {
    } else {
      var i := Search(t, 0, |t| - 1, id);
      SearchSorted(t, 0, |t| - 1, id);
      if t[i].id == id {
        FirstWithAt(t, id, i);
      } else {
        forall j | 0 <= j < |t|
          ensures t[j].id != id
        {
          if j > i { assert t[i].id <= t[j].id; }
        }
        FirstWithNone(t, id);
      }
    }
  }

  lemma {:induction false} SiftStays<V>(t: Table<V>, p: Pair<V>)
    requires forall i :: 0 <= i < |t| ==> t[i].id <= p.id
    ensures Insert(t, p) == t + [p]
  {
    assert (t + [p])[|t| := p] == t + [p];
  }

  /** For keys that never decrease the table is the insertion history, and lookup is the map in
  which the first insertion of a key wins. */
  lemma {:induction false} AscendingInsertions<V>(ps: seq<Pair<V>>)
    requires Sorted(ps)
    ensures InsertAll([], ps) == ps
    ensures forall id: nat :: Find(InsertAll([], ps), id) == FirstWith(ps, id)
  {
    Ascending(ps);
    forall id: nat
      ensures Find(InsertAll([], ps), id) == FirstWith(ps, id)
    {
      FindOnSorted(ps, id);
    }
  }

  lemma {:induction false} Ascending<V>(ps: seq<Pair<V>>)
    requires Sorted(ps)
    ensures InsertAll([], ps) == ps
  {
    if |ps| > 0 {
      Ascending(ps[..|ps| - 1]);
      SiftStays(ps[..|ps| - 1], ps[|ps| - 1]);
    }
  }

  // ---------------------------------------------------------------- when lookup is complete

  /** Every stored pair is found under its key. */
  ghost predicate Complete<V>(t: Table<V>) {
    forall i :: 0 <= i < |t| ==> Find(t, t[i].id) == Some(t[i].obj)
  }

  /** The search for the key at `i` ends at `i`, for every `i` in the range. */
  ghost predicate Hits<V>(t: Table<V>, lo: nat, hi: nat)
    requires lo <= hi < |t|
  {
    forall i {:trigger t[i]} :: lo <= i <= hi ==> Search(t, lo, hi, t[i].id) == i
  }

  lemma {:induction false} HitsSorted<V>(t: Table<V>, lo: nat, hi: nat)
    requires lo <= hi < |t| && Hits(t, lo, hi)
    ensures forall i, j :: lo <= i < j <= hi ==> t[i].id < t[j].id
    decreases hi - lo
  {
    if lo < hi {
      var mid := lo + (hi - lo) / 2;
      assert forall i :: mid < i <= hi ==> t[mid].id < t[i].id by {
        forall i | mid < i <= hi
          ensures t[mid].id < t[i].id
        {
          assert Search(t, lo, hi, t[i].id) == i;
        }
      }
      assert forall i :: lo <= i <= mid ==> t[i].id <= t[mid].id by {
        forall i | lo <= i <= mid
          ensures t[i].id <= t[mid].id
        {
          assert Search(t, lo, hi, t[i].id) == i;
        }
      }
      assert Hits(t, lo, mid) by {
        forall i | lo <= i <= mid
          ensures Search(t, lo, mid, t[i].id) == i
        {
          assert Search(t, lo, hi, t[i].id) == i;
        }
      }
      assert Hits(t, mid + 1, hi) by {
        forall i | mid + 1 <= i <= hi
          ensures Search(t, mid + 1, hi, t[i].id) == i
        {
          assert Search(t, lo, hi, t[i].id) == i;
        }
      }
      HitsSorted(t, lo, mid);
      HitsSorted(t, mid + 1, hi);
    }
  }

  /** The slot a lookup finds the key in. */
  function SlotOf<V>(t: Table<V>, id: nat): (r: Option<nat>)
    ensures r.Some? <==> Find(t, id).Some?
    ensures r.Some? ==> r.value < |t| && t[r.value].id == id && Find(t, id) == Some(t[r.value].obj)
  {
    if |t| > 0 && t[Search(t, 0, |t| - 1, id)].id == id then Some(Search(t, 0, |t| - 1, id)) else None
  }

  /** Lookup finds every stored pair, and no other in its place, exactly when the table is in key order. When no
  key was set twice, it is enough that every key is found. */
  lemma {:induction false} CompleteIffSorted<V>(t: Table<V>)
    ensures (forall i :: 0 <= i < |t| ==> SlotOf(t, t[i].id) == Some(i)) <==> StrictlySorted(t)
    ensures Distinct(t) ==> ((forall i :: 0 <= i < |t| ==> Find(t, t[i].id).Some?) <==> StrictlySorted(t))
    ensures StrictlySorted(t) ==> Complete(t)
  {
    hide Search, Find;
    if Distinct(t) && forall i :: 0 <= i < |t| ==> Find(t, t[i].id).Some? {
      forall i | 0 <= i < |t|
        ensures SlotOf(t, t[i].id) == Some(i)
      {
        assert Find(t, t[i].id).Some?;
      }
    }
    if forall i :: 0 <= i < |t| ==> SlotOf(t, t[i].id) == Some(i) {
      SlotsSorted(t);
    }
    if StrictlySorted(t) {
      SortedSlots(t);
    }
  }

  lemma {:induction false} SlotsSorted<V>(t: Table<V>)
    requires forall i :: 0 <= i < |t| ==> SlotOf(t, t[i].id) == Some(i)
    ensures StrictlySorted(t)
  {
    hide Search, Find;
    if |t| > 0 {
      forall i | 0 <= i <= |t| - 1
        ensures Search(t, 0, |t| - 1, t[i].id) == i
      {
        assert SlotOf(t, t[i].id) == Some(i);
      }
      HitsSorted(t, 0, |t| - 1);
    }
  }

  lemma {:induction false} SortedSlots<V>(t: Table<V>)
    requires StrictlySorted(t)
    ensures (forall i :: 0 <= i < |t| ==> SlotOf(t, t[i].id) == Some(i)) && Complete(t)
  {
    hide Search, Find;
    forall i | 0 <= i < |t|
      ensures SlotOf(t, t[i].id) == Some(i) && Find(t, t[i].id) == Some(t[i].obj)
    {
      FindOnSorted(t, t[i].id);
      FirstWithAt(t, t[i].id, i);
    }
  }

  /** Inserting a pair into a table in strict key order leaves it in strict key order exactly when its key is
  new and larger than all others, or new and the table has at most two entries. */
  lemma {:induction false} InsertKeepsOrderIff<V>(t: Table<V>, p: Pair<V>)
    requires StrictlySorted(t)
    ensures StrictlySorted(Insert(t, p))
            <==> (forall i :: 0 <= i < |t| ==> t[i].id != p.id) && (|t| <= 2 || t[|t| - 1].id < p.id)
  {
    if j :| 0 <= j < |t| && t[j].id == p.id {
      TwiceUnordered(t, p, j);
    } else {
      NewKeepsOrderIff(t, p);
    }
  }

  lemma {:induction false} TwiceUnordered<V>(t: Table<V>, p: Pair<V>, j: nat)
    requires j < |t| && t[j].id == p.id
    ensures !StrictlySorted(Insert(t, p))
  {
    hide Insert;
    var r := Insert(t, p);
    InsertContents(t, p);
    if StrictlySorted(r) {
      var q := t[j];
      assert q in multiset(r) && p in multiset(r);
      var a :| 0 <= a < |r| && r[a] == q;
      var b :| 0 <= b < |r| && r[b] == p;
      if q == p {
        assert multiset(r)[p] >= 2;
        OnlyOnce(r, p);
      }
    }
  }

  lemma {:induction false} OnlyOnce<V>(t: Table<V>, p: Pair<V>)
    requires StrictlySorted(t)
    ensures multiset(t)[p] <= 1
  {
    if |t| > 0 {
      var front, last := t[..|t| - 1], t[|t| - 1];
      assert t == front + [last];
      OnlyOnce(front, p);
      if p == last {
        assert p !in front;
      }
    }
  }

  lemma {:induction false} NewKeepsOrderIff<V>(t: Table<V>, p: Pair<V>)
    requires StrictlySorted(t) && forall i :: 0 <= i < |t| ==> t[i].id != p.id
    ensures StrictlySorted(Insert(t, p)) <==> |t| <= 2 || t[|t| - 1].id < p.id
  {
    var n := |t|;
    if n > 0 && t[n - 1].id < p.id {
      SiftStays(t, p);
    } else if n >= 3 {
      // the last slot gets its parent's pair or the new one: either way less than its neighbour
      var s := t + [p];
      assert s[n / 2] == t[n / 2] && s[n - 1] == t[n - 1];
      if p.id < t[n / 2].id {
        var up := s[n := s[n / 2]];
        SiftAbove(up, n / 2, p);
        assert Insert(t, p) == Sift(up, n / 2, p);
        assert up[n] == t[n / 2] && up[n - 1] == t[n - 1];
        assert Insert(t, p)[n] == t[n / 2] && Insert(t, p)[n - 1] == t[n - 1];
      } else {
        assert Insert(t, p)[n] == p && Insert(t, p)[n - 1] == t[n - 1];
      }
      assert !(Insert(t, p)[n - 1].id < Insert(t, p)[n].id);
    } else {
      InsertIntoTwo(t, p);
    }
  }

  lemma {:induction false} InsertIntoTwo<V>(t: Table<V>, p: Pair<V>)
    requires StrictlySorted(t) && |t| <= 2 && (|t| > 0 ==> p.id < t[|t| - 1].id)
    ensures Insert(t, p) == if |t| == 2 && t[0].id <= p.id then [t[0], p, t[1]] else [p] + t
  {
    var s, n := t + [p], |t|;
    if n == 2 {
      var s1 := s[2 := s[1]];
      assert Insert(t, p) == Sift(s1, 1, p);
      assert s1 == [t[0], t[1], t[1]];
      assert Sift(s1, 1, p) == if p.id < t[0].id then Sift(s1[1 := t[0]], 0, p) else s1[1 := p];
    } else if n == 1 {
      assert Insert(t, p) == Sift(s[1 := s[0]], 0, p);
    }
  }

  /** Sifting up from `idx` leaves the slots after it alone. */
  lemma {:induction false} SiftAbove<V>(t: Table<V>, idx: nat, p: Pair<V>)
    requires idx < |t|
    ensures forall i :: idx < i < |t| ==> Sift(t, idx, p)[i] == t[i]
    decreases idx
  {
    if idx > 0 && p.id < t[idx / 2].id {
      SiftAbove(t[idx := t[idx / 2]], idx / 2, p);
    }
  }

  /** Keys 1, 2, 3, 0 inserted in this order: key 2 is stored and not found. */
  lemma {:induction false} StoredButNotFound()
    ensures var t := InsertAll([], [Pair(1, 'a'), Pair(2, 'b'), Pair(3, 'c'), Pair(0, 'd')]);
      HeapOrdered(t) && Pair(2, 'b') in t && Find(t, 2) == None
  {
    hide Sift, Search, Find;
    var ps := [Pair(1, 'a'), Pair(2, 'b'), Pair(3, 'c')];
    var p := Pair(0, 'd');
    var s0 := ps + [p];
    var s1 := s0[3 := s0[1]];
    var s2 := s1[1 := s1[0]];
    var t := Insert(ps, p);
    Ascending(ps);
    InsertKeepsHeap(ps, p);
    assert s0 == [Pair(1, 'a'), Pair(2, 'b'), Pair(3, 'c'), p] && s0[..3] == ps;
    assert InsertAll([], s0) == Insert(InsertAll([], s0[..3]), s0[3]) == t;
    SiftUp(s0, 3, p);
    SiftUp(s1, 1, p);
    SiftHere(s2, 0, p);
    assert t == [p, Pair(1, 'a'), Pair(3, 'c'), Pair(2, 'b')] && t[3] == Pair(2, 'b');
    MissesLast(t);
  }

  lemma {:induction false} MissesLast(t: Table<char>)
    requires |t| == 4 && t[1].id == 1 && t[2].id == 3
    ensures Find(t, 2) == None
  {
    assert Search(t, 0, 3, 2) == Search(t, 2, 3, 2) == Search(t, 2, 2, 2) == 2;
  }
}
