/** A table as the lookup of one key sees it: every other key is smaller or larger, and that is all that matters. */
module KeyViews {
  import opened Words
  import opened Tables

  /** Smaller than `id`, `id` itself, or larger. */
  function Side(key: nat, id: nat): nat { if key < id then 0 else if key == id then 1 else 2 }

  function Seen<V>(p: Pair<V>, id: nat): Pair<Option<V>> {
    Pair(Side(p.id, id), if p.id == id then Some(p.obj) else None)
  }

  /** Keys become 0, 1 or 2; values of other keys are forgotten. */
  function View<V>(t: Table<V>, id: nat): (r: Table<Option<V>>)
    ensures |r| == |t| && forall i :: 0 <= i < |t| ==> r[i] == Seen(t[i], id)
  {
    seq(|t|, i requires 0 <= i < |t| => Seen(t[i], id))
  }

  /** The lookup of the key itself, on a view. */
  function FindSeen<V>(t: Table<Option<V>>): Option<V> {
    match Find(t, 1)
    case None => None
    case Some(v) => v
  }

  lemma {:induction false} SearchView<V>(t: Table<V>, lo: nat, hi: nat, id: nat)
    requires lo <= hi < |t|
    ensures Search(View(t, id), lo, hi, 1) == Search(t, lo, hi, id)
    decreases hi - lo
  {
    if lo < hi {
      var mid := lo + (hi - lo) / 2;
      SearchView(t, mid + 1, hi, id);
      SearchView(t, lo, mid, id);
    }
  }

  /** A lookup sees nothing but the view. */
  lemma {:induction false} FindView<V>(t: Table<V>, id: nat)
    ensures Find(t, id) == FindSeen(View(t, id))
  {
    if |t| > 0 {
      SearchView(t, 0, |t| - 1, id);
    }
  }

  /** Heap order among the slots up to `n`. */
  ghost predicate HeapUpTo<V>(t: Table<V>, n: nat) {
    n <= |t| && forall i :: 0 < i < n ==> t[i / 2].id <= t[i].id
  }

  lemma {:induction false} ViewUpdate<V>(t: Table<V>, idx: nat, p: Pair<V>, id: nat)
    requires idx < |t|
    ensures View(t[idx := p], id) == View(t, id)[idx := Seen(p, id)]
  {
  }

  /** Moving up past keys on one's own side shows nowhere in the view. */
  lemma {:induction false} SiftView<V>(t: Table<V>, idx: nat, p: Pair<V>, id: nat)
    requires idx < |t| && HeapUpTo(t, idx)
    ensures View(Sift(t, idx, p), id) == Sift(View(t, id), idx, Seen(p, id))
    decreases idx
  {
    hide Sift;
    var h := idx / 2;
    var v, q := View(t, id), Seen(p, id);
    if idx > 0 && p.id < t[h].id {
      SiftUp(t, idx, p);
      ViewUpdate(t, idx, t[h], id);
      SiftView(t[idx := t[h]], h, p, id);
      if q.id < v[h].id {
        SiftUp(v, idx, q);
      } else {
        assert v[h] == q;
        assert h > 0 ==> v[h / 2].id <= v[h].id;
        SiftHere(v, idx, q);
        SiftHere(v[idx := q], h, q);
        assert v[idx := q][h := q] == v[idx := q];
      }
    } else {
      SiftHere(t, idx, p);
      SiftHere(v, idx, q);
      ViewUpdate(t, idx, p, id);
    }
  }

  lemma {:induction false} InsertView<V>(t: Table<V>, p: Pair<V>, id: nat)
    requires HeapOrdered(t)
    ensures View(Insert(t, p), id) == Insert(View(t, id), Seen(p, id))
  {
    hide Sift;
    SiftView(t + [p], |t|, p, id);
    assert View(t + [p], id) == View(t, id) + [Seen(p, id)];
  }

  lemma {:induction false} InsertAllView<V>(t: Table<V>, ps: seq<Pair<V>>, id: nat)
    requires HeapOrdered(t)
    ensures HeapOrdered(InsertAll(t, ps)) && View(InsertAll(t, ps), id) == InsertAll(View(t, id), View(ps, id))
  {
    hide Insert, HeapOrdered;
    if |ps| == 0 {
    } else {
      var front, last := ps[..|ps| - 1], ps[|ps| - 1];
      InsertAllView(t, front, id);
      InsertKeepsHeap(InsertAll(t, front), last);
      InsertView(InsertAll(t, front), last, id);
      assert View(ps, id)[..|ps| - 1] == View(front, id);
    }
  }

  /** The exact law of any history of settings, on any table there is: what a key's lookup finds in the end is
  what it finds when every other key is replaced by 0 or 2, for smaller or larger. */
  lemma {:induction false} HistoryLookup<V>(t: Table<V>, ps: seq<Pair<V>>, id: nat)
    requires HeapOrdered(t)
    ensures Find(InsertAll(t, ps), id) == FindSeen(InsertAll(View(t, id), View(ps, id)))
  {
    InsertAllView(t, ps, id);
    FindView(InsertAll(t, ps), id);
  }
}
