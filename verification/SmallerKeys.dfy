/** What inserting a smaller key does to the lookup of a key that was found. */
module SmallerKeys {
  import opened Words
  import opened Tables
  import opened Readback

  /** Where a pair smaller than everything from slot `k` on stops among those slots: the last one, on its way up
  from slot `n`, that is not below `k`. */
  function Landing(n: nat, k: nat): (c: nat)
    requires k <= n
    ensures k <= c <= n
  {
    if n == 0 || n / 2 < k then n else Landing(n / 2, k)
  }

  /** The search between `lo` and `hi` that is led to slot `k` looks at slot `c`. */
  predicate Probes(lo: nat, hi: nat, k: nat, c: nat)
    decreases hi - lo
  {
    lo < hi && (
      var mid := lo + (hi - lo) / 2;
      mid == c || (if mid < k then Probes(mid + 1, hi, k, c) else Probes(lo, mid, k, c)))
  }

  // ---------------------------------------------------------------- the way up

  lemma {:induction false} LandingOnPath(n: nat, k: nat)
    requires k <= n
    ensures OnPath(n, Landing(n, k)) && (k == 0 ==> Landing(n, k) == 0)
  {
    if n > 0 && n / 2 >= k {
      LandingOnPath(n / 2, k);
    }
  }

  /** No slot on the way lies between `k` and the landing. */
  lemma {:induction false} LandingLeast(n: nat, k: nat, i: nat)
    requires k <= i && OnPath(n, i) && k <= n
    ensures Landing(n, k) <= i
  {
    if n > 0 && n / 2 >= k {
      if n != i {
        LandingLeast(n / 2, k, i);
      }
    } else if n != i {
      PathGoesUp(n / 2, i);
    }
  }

  /** The slot after `a` on the way is `a / 2`. */
  lemma {:induction false} PathNext(n: nat, a: nat, b: nat)
    requires OnPath(n, a) && OnPath(n, b) && b < a
    ensures OnPath(a / 2, b)
  {
    if n != a {
      PathGoesUp(n / 2, a);
      PathGoesUp(n, b);
      PathNext(n / 2, a, b);
    }
  }

  /** Two neighbouring slots are both on the way only at the top, where one is the other's half. */
  lemma {:induction false} Neighbours(n: nat, k: nat)
    requires OnPath(n, k) && OnPath(n, k + 1)
    ensures k <= 1 && (k + 1) / 2 == k
  {
    PathNext(n, k + 1, k);
    PathGoesUp((k + 1) / 2, k);
  }

  // ---------------------------------------------------------------- the table afterwards

  lemma {:induction false} SmallStaysBelow<V>(t: Table<V>, idx: nat, p: Pair<V>, id: nat, k: nat)
    requires idx < k <= |t| && p.id < id && forall i :: 0 <= i < k && i != idx ==> t[i].id < id
    ensures forall i :: 0 <= i < k ==> Sift(t, idx, p)[i].id < id
    decreases idx
  {
    if idx > 0 && p.id < t[idx / 2].id {
      SmallStaysBelow(t[idx := t[idx / 2]], idx / 2, p, id, k);
    }
  }

  /** Keys below slot `k` and in slot `c` are smaller than `id`, the others are not. */
  ghost predicate Holed<V>(t: Table<V>, id: nat, k: nat, c: nat) {
    && k <= c < |t| && t[c].id < id
    && (forall i :: 0 <= i < k ==> t[i].id < id)
    && (forall i :: k <= i < |t| && i != c ==> id <= t[i].id)
  }

  /** From slot `k` on, the pairs on the way have moved one step down it, and the others have stayed. */
  ghost predicate MovedDown<V>(t: Table<V>, r: Table<V>, n: nat, k: nat, c: nat) {
    |r| == |t| && forall i :: k <= i < |t| && i != c ==> r[i] == if i <= n && OnPath(n, i) then t[i / 2] else t[i]
  }

  lemma {:induction false} SiftSmaller<V>(t: Table<V>, idx: nat, p: Pair<V>, id: nat, k: nat)
    requires SplitBut(t, idx, id, k) && p.id < id
    ensures var r, c := Sift(t, idx, p), Landing(idx, k); Holed(r, id, k, c) && MovedDown(t, r, idx, k, c)
    decreases idx
  {
    hide Sift, OnPath;
    if idx == 0 || idx / 2 < k {
      LandsHere(t, idx, p, id, k);
    } else {
      var h := idx / 2;
      var t' := t[idx := t[h]];
      SiftUp(t, idx, p);
      SiftSmaller(t', h, p, id, k);
      var r, c := Sift(t, idx, p), Landing(idx, k);
      forall i | k <= i < |t| && i != c
        ensures r[i] == if i <= idx && OnPath(idx, i) then t[i / 2] else t[i]
      {
        PathStep(idx, i);
      }
    }
  }

  lemma {:induction false} PathStep(n: nat, i: nat)
    requires n > 0
    ensures OnPath(n, i) <==> n == i || OnPath(n / 2, i)
    ensures OnPath(n / 2, i) ==> i <= n / 2
  {
    if OnPath(n / 2, i) {
      PathGoesUp(n / 2, i);
    }
  }

  lemma {:induction false} LandsHere<V>(t: Table<V>, idx: nat, p: Pair<V>, id: nat, k: nat)
    requires SplitBut(t, idx, id, k) && p.id < id && (idx == 0 || idx / 2 < k)
    ensures var r := Sift(t, idx, p); Holed(r, id, k, idx) && MovedDown(t, r, idx, k, idx)
  {
    hide Sift;
    var r := Sift(t, idx, p);
    forall i | k <= i < |t| && i != idx
      ensures !(i <= idx && OnPath(idx, i))
    {
      if OnPath(idx, i) && idx > 0 {
        PathStep(idx, i);
      }
    }
    if idx > 0 && p.id < t[idx / 2].id {
      var t' := t[idx := t[idx / 2]];
      SiftUp(t, idx, p);
      SiftAbove(t', idx / 2, p);
      SmallStaysBelow(t', idx / 2, p, id, k);
    } else {
      SiftHere(t, idx, p);
    }
  }

  // ---------------------------------------------------------------- the lookup afterwards

  lemma {:induction false} SearchHoled<V>(t: Table<V>, lo: nat, hi: nat, id: nat, k: nat, c: nat)
    requires lo <= k <= hi < |t| && k < c && Holed(t, id, k, c)
    ensures Search(t, lo, hi, id) == if Probes(lo, hi, k, c) then c + 1 else k
    decreases hi - lo
  {
    if lo < hi {
      var mid := lo + (hi - lo) / 2;
      if mid == c {
        SearchLow(t, c + 1, hi, id);
      } else if mid < k {
        SearchHoled(t, mid + 1, hi, id, k, c);
      } else {
        SearchHoled(t, lo, mid, id, k, c);
      }
    }
  }

  /** Whether the pair in slot `k` of a table of `n` stays found when a smaller key comes in. */
  predicate Stays(n: nat, k: nat)
    requires k <= n
  {
    if Landing(n, k) == k then OnPath(n, k + 1) else !Probes(0, n, k, Landing(n, k))
  }

  /** The exact law. The key found in slot `k` stays found there, or moves one slot down, exactly when `Stays`
  says so; else the lookup ends behind the slot where the smaller key has landed. */
  lemma {:induction false} SetSmaller<V>(t: Table<V>, id: nat, k: nat, p: Pair<V>)
    requires Split(t, id, k) && k < |t| && t[k].id == id && p.id < id
    ensures Find(Insert(t, p), id) == if Stays(|t|, k) then Some(t[k].obj) else AtSlot(t, Landing(|t|, k) + 1, id)
  {
    hide Sift, Search, OnPath, Landing, Probes, MovedDown, Holed;
    var n, c := |t|, Landing(|t|, k);
    var r := Insert(t, p);
    SiftSmaller(t + [p], n, p, id, k);
    LandingOnPath(n, k);
    if c == k {
      SplitBehind(r, id, k);
      FindSplit(r, id, k + 1);
      if OnPath(n, k + 1) {
        Neighbours(n, k);
      } else {
        NotLast(n, k + 1);
      }
      MovedAt(t + [p], r, n, k, c, k + 1);
    } else {
      SearchHoled(r, 0, n, id, k, c);
      HoledKeys(r, id, k, c);
      if OnPath(n, k) {
        LandingLeast(n, k, k);
      }
      if Probes(0, n, k, c) {
        ProbedInside(0, n, k, c);
        if OnPath(n, c + 1) {
          Neighbours(n, c);
        }
        NotLast(n, c + 1);
        MovedAt(t + [p], r, n, k, c, c + 1);
      } else {
        MovedAt(t + [p], r, n, k, c, k);
      }
    }
  }

  lemma {:induction false} MovedAt<V>(t: Table<V>, r: Table<V>, n: nat, k: nat, c: nat, i: nat)
    requires MovedDown(t, r, n, k, c) && k <= i < |t| && i != c
    ensures r[i] == if i <= n && OnPath(n, i) then t[i / 2] else t[i]
  {
  }

  lemma {:induction false} NotLast(n: nat, i: nat)
    requires !OnPath(n, i)
    ensures i != n
  {
  }

  lemma {:induction false} HoledKeys<V>(t: Table<V>, id: nat, k: nat, c: nat)
    requires Holed(t, id, k, c)
    ensures k < c ==> id <= t[k].id
  {
  }

  lemma {:induction false} SplitBehind<V>(t: Table<V>, id: nat, k: nat)
    requires Holed(t, id, k, k)
    ensures Split(t, id, k + 1)
  {
  }

  lemma {:induction false} ProbedInside(lo: nat, hi: nat, k: nat, c: nat)
    requires Probes(lo, hi, k, c)
    ensures c < hi
    decreases hi - lo
  {
    var mid := lo + (hi - lo) / 2;
    if mid != c {
      if mid < k {
        ProbedInside(mid + 1, hi, k, c);
      } else {
        ProbedInside(lo, mid, k, c);
      }
    }
  }

  /** One more pair, whatever its key: the value found in slot `k` stays if and only if the key is not smaller,
  or the way of a smaller one avoids the search, or the next pair of the key has the same value. */
  lemma {:induction false} StaysIff<V>(t: Table<V>, id: nat, k: nat, p: Pair<V>)
    requires Split(t, id, k) && k < |t| && t[k].id == id
    ensures Find(t, id) == Some(t[k].obj)
    ensures Find(Insert(t, p), id) == Find(t, id)
            <==> id <= p.id || Stays(|t|, k) || AtSlot(t, Landing(|t|, k) + 1, id) == Some(t[k].obj)
  {
    FindSplit(t, id, k);
    if p.id < id {
      SetSmaller(t, id, k, p);
    } else {
      FoundStays(t, id, k, [p]);
      assert InsertAll(t, [p]) == Insert(InsertAll(t, [p][..0]), p);
    }
  }
}
