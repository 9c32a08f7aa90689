/**
 Dependency graphs, their cycles and their topological orders, independently of any algorithm; and the
 greedy order that both of the program's sorts compute.
 */
module TopologicalOrder {
  import opened Seqs

  /** Node to declared dependencies; the keys are the nodes. */
  type Graph<!T> = map<T, seq<T>>

  /** Every dependency is a node. */
  ghost predicate Closed<T(!new)>(g: Graph<T>) {
    forall x, d :: x in g && d in g[x] ==> d in g
  }

  /** Ranks tell nodes apart. */
  ghost predicate Ranking<T(!new)>(g: Graph<T>, rank: map<T, int>) {
    && (forall x :: x in g ==> x in rank)
    && (forall x, y :: x in g && y in g && rank[x] == rank[y] ==> x == y)
  }

  /** Following dependencies along `c` leads back to its start. */
  ghost predicate IsCycle<T(!new)>(g: Graph<T>, c: seq<T>) {
    && |c| > 0
    && (forall k :: 0 <= k < |c| ==> c[k] in g)
    && (forall k :: 0 <= k < |c| - 1 ==> c[k + 1] in g[c[k]])
    && c[0] in g[c[|c| - 1]]
  }

  ghost predicate HasCycle<T(!new)>(g: Graph<T>) {
    exists c :: IsCycle(g, c)
  }

  /** A permutation of the nodes in which every node follows its dependencies. */
  ghost predicate IsTopological<T(!new)>(g: Graph<T>, q: seq<T>) {
    && Distinct(q)
    && Elements(q) == g.Keys
    && (forall k, d :: 0 <= k < |q| && d in g[q[k]] ==> d in q[..k])
  }

  /** `p` comes no later than `q` in the order of plans that compares ranks position by position. */
  ghost predicate LexAtMost<T(!new)>(rank: map<T, int>, p: seq<T>, q: seq<T>) {
    || p == q
    || exists k ::
      && 0 <= k < |p| && k < |q| && p[..k] == q[..k]
      && p[k] in rank && q[k] in rank && rank[p[k]] < rank[q[k]]
  }

  // --- The greedy order ---

  /** Node `x` can follow `plan`. */
  ghost predicate Ready<T(!new)>(g: Graph<T>, plan: seq<T>, x: T) {
    x in g && x !in plan && forall d :: d in g[x] ==> d in plan
  }

  /** Each element of `plan` was, when placed, the ready node of least rank. */
  ghost predicate Greedy<T(!new)>(g: Graph<T>, rank: map<T, int>, plan: seq<T>)
    requires Ranking(g, rank)
  {
    forall k :: 0 <= k < |plan| ==>
      Ready(g, plan[..k], plan[k]) && forall y :: Ready(g, plan[..k], y) ==> rank[plan[k]] <= rank[y]
  }

  ghost predicate Stuck<T(!new)>(g: Graph<T>, plan: seq<T>) {
    forall y :: !Ready(g, plan, y)
  }

  lemma GreedyExtend<T(!new)>(g: Graph<T>, rank: map<T, int>, plan: seq<T>, x: T)
    requires Ranking(g, rank) && Greedy(g, rank, plan) && Ready(g, plan, x)
    requires forall y :: Ready(g, plan, y) ==> rank[x] <= rank[y]
    ensures Greedy(g, rank, plan + [x])
  {
    forall k | 0 <= k < |plan + [x]|
      ensures Ready(g, (plan + [x])[..k], (plan + [x])[k])
      ensures forall y :: Ready(g, (plan + [x])[..k], y) ==> rank[(plan + [x])[k]] <= rank[y]
    {
      assert (plan + [x])[..k] == plan[..k];
      if k == |plan| {
        assert plan[..k] == plan;
      }
    }
  }

  lemma GreedyDistinct<T(!new)>(g: Graph<T>, rank: map<T, int>, plan: seq<T>)
    requires Ranking(g, rank) && Greedy(g, rank, plan)
    ensures Distinct(plan) && Elements(plan) <= g.Keys && |plan| <= |g|
    ensures |plan| == |g| <==> Elements(plan) == g.Keys
  {
    forall k | 0 <= k < |plan| ensures plan[k] in g && plan[k] !in plan[..k] {
      assert Ready(g, plan[..k], plan[k]);
    }
    forall i, j | 0 <= i < j < |plan| ensures plan[i] != plan[j] {
      assert plan[i] == plan[..j][i];
    }
    DistinctSize(plan);
    SubsetSize(Elements(plan), g.Keys);
  }

  lemma SubsetSize<T(!new)>(a: set<T>, b: set<T>)
    requires a <= b
    ensures |a| <= |b| && (|a| == |b| <==> a == b)
  {
    assert b == a + (b - a);
  }

  /** A complete greedy plan is a topological order. */
  lemma GreedyIsTopological<T(!new)>(g: Graph<T>, rank: map<T, int>, plan: seq<T>)
    requires Ranking(g, rank) && Greedy(g, rank, plan) && |plan| == |g|
    ensures IsTopological(g, plan)
  {
    GreedyDistinct(g, rank, plan);
    forall k, d | 0 <= k < |plan| && d in g[plan[k]] ensures d in plan[..k] {
      assert Ready(g, plan[..k], plan[k]);
    }
  }

  /** A greedy plan precedes every topological order, rank by rank. */
  lemma GreedyIsLeast<T(!new)>(g: Graph<T>, rank: map<T, int>, plan: seq<T>, q: seq<T>)
    requires Ranking(g, rank) && Greedy(g, rank, plan) && |plan| == |g| && IsTopological(g, q)
    ensures LexAtMost(rank, plan, q)
  {
    GreedyDistinct(g, rank, plan);
    DistinctSize(q);
    FirstDifference(g, rank, plan, q, 0);
  }

  lemma {:induction false} FirstDifference<T(!new)>(g: Graph<T>, rank: map<T, int>, plan: seq<T>, q: seq<T>, k: nat)
    requires Ranking(g, rank) && Greedy(g, rank, plan) && IsTopological(g, q)
    requires |plan| == |q| && k <= |q| && plan[..k] == q[..k]
    ensures LexAtMost(rank, plan, q)
    decreases |q| - k
  {
    if k == |q| {
      assert plan == plan[..k] && q == q[..k];
    } else if plan[k] == q[k] {
      assert plan[..k + 1] == plan[..k] + [plan[k]] && q[..k + 1] == q[..k] + [q[k]];
      FirstDifference(g, rank, plan, q, k + 1);
    } else {
      assert q[k] in Elements(q);
      assert q[k] !in q[..k];
      assert Ready(g, plan[..k], q[k]);
      assert Ready(g, plan[..k], plan[k]);
    }
  }

  /** Two greedy plans that cannot be extended are the same plan. */
  lemma {:induction false} GreedyIsUnique<T(!new)>(g: Graph<T>, rank: map<T, int>, p: seq<T>, q: seq<T>, k: nat)
    requires Ranking(g, rank) && Greedy(g, rank, p) && Stuck(g, p) && Greedy(g, rank, q) && Stuck(g, q)
    requires k <= |p| && k <= |q| && p[..k] == q[..k]
    ensures p == q
    decreases |p| - k
  {
    assert k == |p| ==> p[..k] == p;
    assert k == |q| ==> q[..k] == q;
    assert k < |p| ==> Ready(g, p[..k], p[k]);
    assert k < |q| ==> Ready(g, q[..k], q[k]);
    if k < |p| && k < |q| {
      assert p[..k + 1] == p[..k] + [p[k]] && q[..k + 1] == q[..k] + [q[k]];
      GreedyIsUnique(g, rank, p, q, k + 1);
    }
  }

  // --- Getting stuck means a cycle, and a cycle means getting stuck ---

  /** `w` follows dependencies from element to element inside `s`. */
  ghost predicate IsWalk<T(!new)>(g: Graph<T>, s: set<T>, w: seq<T>) {
    && (forall k :: 0 <= k < |w| ==> w[k] in s && w[k] in g)
    && (forall k :: 0 <= k < |w| - 1 ==> w[k + 1] in g[w[k]])
  }

  /** Some dependency of `x` lies in `s`. */
  ghost predicate DependsInto<T(!new)>(g: Graph<T>, s: set<T>, x: T)
    requires x in g
  {
    exists d :: d in g[x] && d in s
  }

  lemma {:induction false} LongWalk<T(!new)>(g: Graph<T>, s: set<T>, n: nat) returns (w: seq<T>)
    requires s != {} && s <= g.Keys
    requires forall x :: x in s ==> DependsInto(g, s, x)
    ensures IsWalk(g, s, w) && |w| == n + 1
  {
    if n == 0 {
      var x :| x in s;
      w := [x];
    } else {
      var v := LongWalk(g, s, n - 1);
      assert DependsInto(g, s, v[n - 1]);
      var d :| d in g[v[n - 1]] && d in s;
      w := v + [d];
    }
  }

  /** When nothing more can be placed, every node that is left depends on another one that is. */
  lemma RestDependsInto<T(!new)>(g: Graph<T>, plan: seq<T>, rest: set<T>)
    requires Closed(g) && Stuck(g, plan) && rest == g.Keys - Elements(plan)
    ensures forall x :: x in rest ==> DependsInto(g, rest, x)
  {
    forall x | x in rest ensures DependsInto(g, rest, x) {
      assert !Ready(g, plan, x);
      var d :| d in g[x] && d !in plan;
      assert d in rest;
    }
  }

  /** When nothing more can be placed although nodes are left, the rest contains a cycle. */
  lemma StuckHasCycle<T(!new)>(g: Graph<T>, plan: seq<T>)
    requires Closed(g) && Stuck(g, plan) && !(g.Keys <= Elements(plan))
    ensures HasCycle(g)
  {
    var rest := g.Keys - Elements(plan);
    RestDependsInto(g, plan, rest);
    var x :| x in g.Keys && x !in Elements(plan);
    assert x in rest;
    var w := LongWalk(g, rest, |rest|);
    assert Elements(w) <= rest;
    Pigeonhole(w, rest);
    var i, j :| 0 <= i < j < |w| && w[i] == w[j];
    WalkLoops(g, rest, w, i, j);
  }

  /** A walk that meets a node twice has gone around a cycle. */
  lemma WalkLoops<T(!new)>(g: Graph<T>, s: set<T>, w: seq<T>, i: nat, j: nat)
    requires IsWalk(g, s, w) && i < j < |w| && w[i] == w[j]
    ensures IsCycle(g, w[i..j])
  {
    var c := w[i..j];
    forall k | 0 <= k < |c| - 1 ensures c[k + 1] in g[c[k]] {
      assert w[i + k + 1] in g[w[i + k]];
    }
    assert w[j - 1 + 1] in g[w[j - 1]];
  }

  lemma Pigeonhole<T(!new)>(w: seq<T>, s: set<T>)
    requires Elements(w) <= s && |w| > |s|
    ensures !Distinct(w)
  {
    SubsetSize(Elements(w), s);
    if Distinct(w) {
      DistinctSize(w);
    }
  }

  lemma {:induction false} PositionsFall<T(!new)>(g: Graph<T>, q: seq<T>, c: seq<T>, at: seq<nat>, k: nat)
    requires IsTopological(g, q) && IsCycle(g, c) && |at| == |c| && k < |c|
    requires forall i :: 0 <= i < |c| ==> at[i] < |q| && q[at[i]] == c[i]
    ensures at[k] <= at[0]
  {
    if k > 0 {
      PositionsFall(g, q, c, at, k - 1);
      var m := DependencyIsEarlier(g, q, at[k - 1], c[k]);
    }
  }

  ghost predicate Occurs<T(!new)>(q: seq<T>, m: nat, x: T) {
    m < |q| && q[m] == x
  }

  ghost predicate Found<T(!new)>(q: seq<T>, x: T) {
    exists m: nat :: Occurs(q, m, x)
  }

  lemma DependencyIsEarlier<T(!new)>(g: Graph<T>, q: seq<T>, i: nat, d: T) returns (m: nat)
    requires IsTopological(g, q) && i < |q| && d in g[q[i]]
    ensures m < i && q[m] == d
  {
    assert d in q[..i];
    m :| m < i && q[..i][m] == d;
  }

  ghost function Positions<T(!new)>(q: seq<T>, c: seq<T>): (at: seq<nat>)
    requires forall k :: 0 <= k < |c| ==> Found(q, c[k])
    ensures |at| == |c| && forall k :: 0 <= k < |c| ==> Occurs(q, at[k], c[k])
  {
    seq(|c|, k requires 0 <= k < |c| => assert Found(q, c[k]); var m: nat :| Occurs(q, m, c[k]); m)
  }

  /** A graph with a cycle has no topological order. */
  lemma CycleForbidsOrder<T(!new)>(g: Graph<T>, c: seq<T>, q: seq<T>)
    requires IsCycle(g, c)
    ensures !IsTopological(g, q)
  {
    if IsTopological(g, q) {
      forall k | 0 <= k < |c| ensures Found(q, c[k]) {
        assert c[k] in Elements(q);
        var m :| 0 <= m < |q| && q[m] == c[k];
        assert Occurs(q, m, c[k]);
      }
      var at := Positions(q, c);
      var m := DependencyIsEarlier(g, q, at[|c| - 1], c[0]);
      PositionsFall(g, q, c, at, |c| - 1);
      assert false;
    }
  }

  /** The greedy order covers the graph exactly when the graph has no cycle. */
  lemma GreedyCompleteIffAcyclic<T(!new)>(g: Graph<T>, rank: map<T, int>, plan: seq<T>)
    requires Closed(g) && Ranking(g, rank) && Greedy(g, rank, plan) && Stuck(g, plan)
    ensures |plan| == |g| <==> !HasCycle(g)
  {
    GreedyDistinct(g, rank, plan);
    if |plan| == |g| {
      GreedyIsTopological(g, rank, plan);
      forall c ensures !IsCycle(g, c) {
        if IsCycle(g, c) {
          CycleForbidsOrder(g, c, plan);
        }
      }
    } else {
      StuckHasCycle(g, plan);
    }
  }

  // --- Counting the edges that still hold a node back ---

  /** Listed dependencies, with multiplicity, that are not in `placed`. */
  function Unplaced<T(==)>(dependencies: seq<T>, placed: set<T>): nat {
    if dependencies == [] then 0
    else (if dependencies[0] in placed then 0 else 1) + Unplaced(dependencies[1..], placed)
  }

  lemma {:induction false} UnplacedInitially<T>(dependencies: seq<T>)
    ensures Unplaced(dependencies, {}) == |dependencies|
  {
    if dependencies != [] {
      UnplacedInitially(dependencies[1..]);
    }
  }

  /** Placing a node takes all edges from it out of the count. */
  lemma {:induction false} UnplacedAfter<T>(dependencies: seq<T>, placed: set<T>, x: T)
    requires x !in placed
    ensures Unplaced(dependencies, placed + {x}) == Unplaced(dependencies, placed) - multiset(dependencies)[x]
  {
    if dependencies != [] {
      assert dependencies == [dependencies[0]] + dependencies[1..];
      UnplacedAfter(dependencies[1..], placed, x);
    }
  }

  lemma {:induction false} UnplacedZero<T>(dependencies: seq<T>, placed: set<T>)
    ensures Unplaced(dependencies, placed) == 0 <==> forall d :: d in dependencies ==> d in placed
  {
    if dependencies != [] {
      UnplacedZero(dependencies[1..], placed);
      assert forall d :: d in dependencies <==> d == dependencies[0] || d in dependencies[1..];
    }
  }

  /** With an exact count of unplaced edges, readiness is a zero count. */
  lemma ReadyIffZero<T(!new)>(g: Graph<T>, plan: seq<T>, x: T)
    requires x in g
    ensures Ready(g, plan, x) <==> x !in plan && Unplaced(g[x], Elements(plan)) == 0
  {
    UnplacedZero(g[x], Elements(plan));
  }
}
