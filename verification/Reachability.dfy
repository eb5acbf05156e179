/** Reachability in a finite graph, and what a depth-first marking of it keeps. */
module Reachability {
  /** The nodes the collector follows, each with the nodes it holds. A node may hold others that are
  not followed, and the graph may have cycles. */
  type Graph<T(==)> = map<T, seq<T>>

  /** `x` is followed and at most `n` steps from a root, through followed nodes only. */
  ghost predicate Within<T>(g: Graph<T>, roots: set<T>, x: T, n: nat)
    decreases n
  {
    x in g && (x in roots || (n > 0 && exists y :: y in g && x in g[y] && Within(g, roots, y, n - 1)))
  }

  ghost predicate Reachable<T>(g: Graph<T>, roots: set<T>, x: T) {
    exists n: nat :: Within(g, roots, x, n)
  }

  /** Everything `x` holds is marked or not followed. */
  ghost predicate Done<T>(g: Graph<T>, m: set<T>, x: T) {
    x in g && forall k :: k in g[x] && k in g ==> k in m
  }

  /** Marking from `from` took the marked nodes from `m` to `m'`. */
  ghost predicate Explored<T>(g: Graph<T>, from: set<T>, m: set<T>, m': set<T>) {
    && m <= m' <= g.Keys
    && (forall x :: x in from && x in g ==> x in m')
    && (forall x :: x in m' && x !in m ==> Reachable(g, from, x) && Done(g, m', x) && Found(g, from, m' - m, x))
  }

  /** `x` was asked for, or a node of `marked` holds it. */
  ghost predicate Found<T>(g: Graph<T>, from: set<T>, marked: set<T>, x: T) {
    x in from || exists y :: y in marked && y in g && x in g[y]
  }

  lemma {:induction false} WithinMore<T>(g: Graph<T>, a: set<T>, b: set<T>, x: T, n: nat)
    requires a <= b && Within(g, a, x, n)
    ensures Within(g, b, x, n)
  {
    if x !in a {
      var y :| y in g && x in g[y] && Within(g, a, y, n - 1);
      WithinMore(g, a, b, y, n - 1);
    }
  }

  lemma {:induction false} ReachableMore<T>(g: Graph<T>, a: set<T>, b: set<T>, x: T)
    requires a <= b && Reachable(g, a, x)
    ensures Reachable(g, b, x)
  {
    var n: nat :| Within(g, a, x, n);
    WithinMore(g, a, b, x, n);
  }

  lemma {:induction false} WithinThrough<T>(g: Graph<T>, y: T, held: set<T>, x: T, n: nat)
    requires y in g && (forall k :: k in held ==> k in g[y]) && Within(g, held, x, n)
    ensures Within(g, {y}, x, n + 1)
    decreases n
  {
    if x in held {
      assert Within(g, {y}, y, n);
    } else {
      var z :| z in g && x in g[z] && Within(g, held, z, n - 1);
      WithinThrough(g, y, held, z, n - 1);
    }
  }

  lemma {:induction false} NothingExplored<T>(g: Graph<T>, m: set<T>)
    requires m <= g.Keys
    ensures Explored(g, {}, m, m)
  {
  }

  /** One exploration after another. */
  lemma {:induction false} ExploredThen<T>(g: Graph<T>, a: set<T>, b: set<T>, m: set<T>, m1: set<T>, m2: set<T>)
    requires Explored(g, a, m, m1) && Explored(g, b, m1, m2)
    ensures Explored(g, a + b, m, m2)
  {
    forall x | x in m2 && x !in m
      ensures Reachable(g, a + b, x) && Done(g, m2, x) && Found(g, a + b, m2 - m, x)
    {
      if x in m1 {
        ReachableMore(g, a, a + b, x);
      } else {
        ReachableMore(g, b, a + b, x);
      }
    }
  }

  /** Marking a node first and then exploring what it holds explores the node. */
  lemma {:induction false} ExploredNode<T>(g: Graph<T>, x: T, held: set<T>, m: set<T>, m': set<T>)
    requires x in g && x !in m && (forall k :: k in held <==> k in g[x])
    requires Explored(g, held, m + {x}, m') && m <= g.Keys
    ensures Explored(g, {x}, m, m')
  {
    assert Within(g, {x}, x, 0);
    forall y | y in m' && y !in m
      ensures Reachable(g, {x}, y) && Done(g, m', y) && Found(g, {x}, m' - m, y)
    {
      if y != x {
        var n: nat :| Within(g, held, y, n);
        WithinThrough(g, x, held, y, n);
      }
    }
  }

  lemma {:induction false} ClosedHolds<T>(g: Graph<T>, roots: set<T>, m: set<T>, x: T, n: nat)
    requires (forall r :: r in roots && r in g ==> r in m) && (forall y :: y in m ==> Done(g, m, y))
    requires Within(g, roots, x, n)
    ensures x in m
    decreases n
  {
    if x !in roots {
      var y :| y in g && x in g[y] && Within(g, roots, y, n - 1);
      ClosedHolds(g, roots, m, y, n - 1);
      assert Done(g, m, y);
    }
  }

  /** Exploring the roots with nothing marked before marks exactly what is reachable. */
  lemma {:induction false} ExploredExactly<T>(g: Graph<T>, roots: set<T>, m: set<T>, x: T)
    requires Explored(g, roots, {}, m)
    ensures x in m <==> Reachable(g, roots, x)
  {
    if Reachable(g, roots, x) {
      var n: nat :| Within(g, roots, x, n);
      ClosedHolds(g, roots, m, x, n);
    }
  }
}
