/** kahnTopoSort of internal/probe/registry.go: Kahn's algorithm over a registration-order heap. */
module KahnSort {
  import opened Seqs
  import opened TopologicalOrder
  import opened RegOrderHeaps

  datatype SortResult<T> = Sorted(plan: seq<T>) | CycleDetected(reached: nat, total: nat)

  /** A map read the way the program reads one: an absent key has the empty list. */
  function Lookup<T(==)>(m: map<T, seq<T>>, x: T): seq<T> {
    if x in m then m[x] else []
  }

  /** Every in-degree counts the dependency edges whose source is not in `placed`. */
  ghost predicate DegreesExact<T(!new)>(g: Graph<T>, degree: map<T, int>, placed: set<T>) {
    forall x :: x in g ==> x in degree && degree[x] == Unplaced(g[x], placed)
  }

  /** The reverse adjacency lists the same edges with the same multiplicity. */
  ghost predicate DependentsExact<T(!new)>(g: Graph<T>, dependents: map<T, seq<T>>) {
    && (forall d, x :: d in g && x in g ==> SameEdges(g, dependents, d, x))
    && (forall d, x :: d in g && x in Lookup(dependents, d) ==> x in g)
  }

  ghost predicate SameEdges<T(!new)>(g: Graph<T>, dependents: map<T, seq<T>>, d: T, x: T)
    requires x in g
  {
    multiset(Lookup(dependents, d))[x] == multiset(g[x])[d]
  }

  /** The heap holds each unplaced node of in-degree zero once, under its registration index, and nothing else. */
  ghost predicate HeapExact<T(!new)>(g: Graph<T>, rank: map<T, int>, degree: map<T, int>, plan: seq<T>,
                                     items: multiset<HeapEntry<T>>) {
    forall e: HeapEntry<T> :: items[e] == if Waiting(g, rank, degree, plan, e) then 1 else 0
  }

  ghost predicate Waiting<T(!new)>(g: Graph<T>, rank: map<T, int>, degree: map<T, int>, plan: seq<T>, e: HeapEntry<T>) {
    && e.id in g && e.id !in plan
    && e.id in degree && degree[e.id] == 0
    && e.id in rank && e.order == rank[e.id]
  }

  ghost function EdgeCount<T(!new)>(dependents: map<T, seq<T>>, d: T, x: T): nat {
    multiset(Lookup(dependents, d))[x]
  }

  /** The edges into the nodes of `done` are counted, and into no others. */
  ghost predicate CountedFor<T(!new)>(g: Graph<T>, done: set<T>, degree: map<T, int>, dependents: map<T, seq<T>>) {
    && degree.Keys == g.Keys
    && (forall x :: x in g ==> degree[x] == if x in done then |g[x]| else 0)
    && (forall d, x :: d in g && x in g ==> EdgeCount(dependents, d, x) == if x in done then multiset(g[x])[d] else 0)
    && (forall d, x :: d in g && x in Lookup(dependents, d) ==> x in g)
  }

  /** `after` has the edges of `before`, and the first `j` listed edges into `id`. */
  ghost predicate CountedPart<T(!new)>(g: Graph<T>, id: T, j: nat, before: map<T, seq<T>>, after: map<T, seq<T>>)
    requires id in g && j <= |g[id]|
  {
    && (forall d, x :: d in g && x in g ==>
          EdgeCount(after, d, x) == EdgeCount(before, d, x) + if x == id then multiset(g[id][..j])[d] else 0)
    && (forall d, x :: d in g && x in Lookup(after, d) ==> x in g)
  }

  /** Adding an edge from `id` under `dep` changes that count alone. */
  lemma OneEdge<T(!new)>(m: map<T, seq<T>>, dep: T, id: T, d: T, x: T)
    ensures var next := m[dep := Lookup(m, dep) + [id]];
      && EdgeCount(next, d, x) == EdgeCount(m, d, x) + (if d == dep && x == id then 1 else 0)
      && (x in Lookup(next, d) ==> x in Lookup(m, d) || x == id)
  {
    OneMoreInMultiset(Lookup(m, dep), id);
  }

  lemma CountOneEdge<T(!new)>(g: Graph<T>, id: T, j: nat, before: map<T, seq<T>>, after: map<T, seq<T>>)
    requires id in g && j < |g[id]| && CountedPart(g, id, j, before, after)
    ensures var dep := g[id][j]; CountedPart(g, id, j + 1, before, after[dep := Lookup(after, dep) + [id]])
  {
    var dep := g[id][j];
    var next := after[dep := Lookup(after, dep) + [id]];
    CountPrefix(g[id], j);
    forall d, x | d in g && x in g
      ensures EdgeCount(next, d, x) == EdgeCount(before, d, x) + if x == id then multiset(g[id][..j + 1])[d] else 0
    {
      assert EdgeCount(after, d, x) == EdgeCount(before, d, x) + if x == id then multiset(g[id][..j])[d] else 0;
      OneEdge(after, dep, id, d, x);
    }
    forall d, x | d in g && x in Lookup(next, d) ensures x in g {
      OneEdge(after, dep, id, d, x);
    }
  }

  lemma CountNothing<T(!new)>(g: Graph<T>, id: T, done: set<T>, degree: map<T, int>, before: map<T, seq<T>>)
    requires id in g && id !in done && CountedFor(g, done, degree, before)
    ensures CountedPart(g, id, 0, before, before) && degree.Keys == g.Keys && degree[id] == 0
  {
  }

  lemma CountWholeNode<T(!new)>(g: Graph<T>, id: T, done: set<T>, degree: map<T, int>, before: map<T, seq<T>>,
                                after: map<T, seq<T>>)
    requires id in g && id !in done && CountedFor(g, done, degree, before)
    requires CountedPart(g, id, |g[id]|, before, after)
    ensures CountedFor(g, done + {id}, degree[id := |g[id]|], after)
  {
    assert g[id][..|g[id]|] == g[id];
  }

  lemma MapOverwrite<T, U>(m: map<T, U>, k: T, a: U, b: U)
    ensures m[k := a][k := b] == m[k := b] && m[k := a][k] == a
  {
  }

  /** Counts the edges into one more node. */
  method CountNode<T(==, !new)>(g: Graph<T>, id: T, ghost done: set<T>, degree0: map<T, int>,
                                dependents0: map<T, seq<T>>)
    returns (degree: map<T, int>, dependents: map<T, seq<T>>)
    requires id in g && id !in done && CountedFor(g, done, degree0, dependents0)
    ensures CountedFor(g, done + {id}, degree, dependents)
  {
    CountNothing(g, id, done, degree0, dependents0);
    degree, dependents := CountReferences(g, id, degree0, dependents0);
    CountWholeNode(g, id, done, degree0, dependents0, dependents);
  }

  method CountReferences<T(==, !new)>(g: Graph<T>, id: T, degree0: map<T, int>, dependents0: map<T, seq<T>>)
    returns (degree: map<T, int>, dependents: map<T, seq<T>>)
    requires id in g && id in degree0 && degree0[id] == 0 && CountedPart(g, id, 0, dependents0, dependents0)
    ensures degree == degree0[id := |g[id]|] && CountedPart(g, id, |g[id]|, dependents0, dependents)
  {
    degree, dependents := degree0, dependents0;
    var deps := g[id];
    var j := 0;
    while j < |deps|
      invariant 0 <= j <= |deps|
      invariant degree == degree0[id := j]
      invariant CountedPart(g, id, j, dependents0, dependents)
    {
      CountOneEdge(g, id, j, dependents0, dependents);
      MapOverwrite(degree0, id, j, j + 1);
      degree := degree[id := degree[id] + 1];
      dependents := dependents[deps[j] := Lookup(dependents, deps[j]) + [id]];
      j := j + 1;
    }
  }

  lemma CountedAll<T(!new)>(g: Graph<T>, degree: map<T, int>, dependents: map<T, seq<T>>)
    requires CountedFor(g, g.Keys, degree, dependents)
    ensures DegreesExact(g, degree, {}) && DependentsExact(g, dependents)
  {
    forall x | x in g ensures x in degree && degree[x] == Unplaced(g[x], {}) {
      UnplacedInitially(g[x]);
    }
    forall d, x | d in g && x in g ensures SameEdges(g, dependents, d, x) {
      assert EdgeCount(dependents, d, x) == multiset(g[x])[d];
    }
  }

  /** In-degrees and reverse adjacency, built edge by edge. */
  method CountEdges<T(==, !new)>(ids: seq<T>, g: Graph<T>) returns (degree: map<T, int>, dependents: map<T, seq<T>>)
    requires Distinct(ids) && Elements(ids) == g.Keys
    ensures degree.Keys == g.Keys && DegreesExact(g, degree, {})
    ensures DependentsExact(g, dependents)
  {
    degree := map x | x in ids :: 0;
    dependents := map[];
    assert forall x :: x in ids <==> x in Elements(ids);
    assert degree.Keys == g.Keys;
    var i := 0;
    while i < |ids|
      invariant 0 <= i <= |ids|
      invariant CountedFor(g, Elements(ids[..i]), degree, dependents)
    {
      ElementsPrefix(ids, i);
      degree, dependents := CountNode(g, ids[i], Elements(ids[..i]), degree, dependents);
      i := i + 1;
    }
    assert ids[..i] == ids;
    CountedAll(g, degree, dependents);
  }

  /** The heap of all nodes without dependencies. */
  method FillHeap<T(==, !new)>(ids: seq<T>, g: Graph<T>, rank: map<T, int>, degree: map<T, int>)
    returns (pq: RegOrderHeap<T>)
    requires Distinct(ids) && Elements(ids) == g.Keys && Ranking(g, rank) && degree.Keys == g.Keys
    ensures fresh(pq) && Ordered(pq.entries) && HeapExact(g, rank, degree, [], multiset(pq.entries))
  {
    pq := new RegOrderHeap();
    var i := 0;
    while i < |ids|
      invariant 0 <= i <= |ids| && fresh(pq) && Ordered(pq.entries)
      invariant forall e: HeapEntry<T> :: multiset(pq.entries)[e] ==
                  if e.id in ids[..i] && Waiting(g, rank, degree, [], e) then 1 else 0
    {
      var id := ids[i];
      assert id in Elements(ids);
      assert id !in ids[..i];
      assert ids[..i + 1] == ids[..i] + [id];
      if degree[id] == 0 {
        pq.Push(HeapEntry(id, rank[id]));
      }
      i := i + 1;
    }
    assert ids[..i] == ids;
    forall e: HeapEntry<T>
      ensures multiset(pq.entries)[e] == if Waiting(g, rank, degree, [], e) then 1 else 0
    {
      assert e.id in ids <==> e.id in Elements(ids);
    }
  }

  /** Lowering one in-degree adds the node to the heap when it reaches zero. */
  lemma LowerKeepsHeapExact<T(!new)>(g: Graph<T>, rank: map<T, int>, degree: map<T, int>, plan: seq<T>,
                                     items: multiset<HeapEntry<T>>, dep: T)
    requires Ranking(g, rank) && degree.Keys == g.Keys && HeapExact(g, rank, degree, plan, items)
    requires dep in g && dep !in plan && degree[dep] >= 1
    ensures var next := degree[dep := degree[dep] - 1];
      HeapExact(g, rank, next, plan, if next[dep] == 0 then items + multiset{HeapEntry(dep, rank[dep])} else items)
  {
    assert !Waiting(g, rank, degree, plan, HeapEntry(dep, rank[dep]));
  }

  /** One round: the in-degree of a dependent drops, and the dependent is pushed when it reaches zero. */
  method LowerOne<T(==, !new)>(g: Graph<T>, rank: map<T, int>, ghost plan: seq<T>, dep: T, before: map<T, int>,
                               pq: RegOrderHeap<T>)
    returns (degree: map<T, int>)
    requires Ranking(g, rank) && before.Keys == g.Keys && Ordered(pq.entries)
    requires HeapExact(g, rank, before, plan, multiset(pq.entries))
    requires dep in g && dep !in plan && before[dep] >= 1
    modifies pq
    ensures degree == before[dep := before[dep] - 1]
    ensures Ordered(pq.entries) && HeapExact(g, rank, degree, plan, multiset(pq.entries))
  {
    LowerKeepsHeapExact(g, rank, before, plan, multiset(pq.entries), dep);
    degree := before[dep := before[dep] - 1];
    if degree[dep] == 0 {
      pq.Push(HeapEntry(dep, rank[dep]));
    }
  }

  /** The in-degrees after the first `k` dependents of a placed node. */
  ghost predicate Lowered<T(!new)>(g: Graph<T>, before: map<T, int>, degree: map<T, int>, targets: seq<T>, k: nat)
    requires k <= |targets| && before.Keys == g.Keys
  {
    degree.Keys == g.Keys && forall x :: x in g ==> degree[x] == before[x] - multiset(targets[..k])[x]
  }

  lemma LowerNext<T(!new)>(g: Graph<T>, before: map<T, int>, degree: map<T, int>, targets: seq<T>, k: nat)
    requires k < |targets| && before.Keys == g.Keys && Lowered(g, before, degree, targets, k)
    requires targets[k] in g && before[targets[k]] >= multiset(targets)[targets[k]]
    ensures var dep := targets[k];
      degree[dep] >= 1 && Lowered(g, before, degree[dep := degree[dep] - 1], targets, k + 1)
  {
    CountPrefix(targets, k);
  }

  /** Decrements one in-degree per listed dependent, and pushes those that reach zero. */
  method ReleaseDependents<T(==, !new)>(g: Graph<T>, rank: map<T, int>, ghost plan: seq<T>, targets: seq<T>,
                                        before: map<T, int>, pq: RegOrderHeap<T>) returns (degree: map<T, int>)
    requires Ranking(g, rank) && before.Keys == g.Keys && Ordered(pq.entries)
    requires HeapExact(g, rank, before, plan, multiset(pq.entries))
    requires forall x :: x in targets ==> x in g && x !in plan
    requires forall x :: x in g ==> before[x] >= multiset(targets)[x]
    modifies pq
    ensures Lowered(g, before, degree, targets, |targets|)
    ensures Ordered(pq.entries) && HeapExact(g, rank, degree, plan, multiset(pq.entries))
  {
    degree := before;
    var k := 0;
    while k < |targets|
      invariant 0 <= k <= |targets| && Lowered(g, before, degree, targets, k)
      invariant Ordered(pq.entries) && HeapExact(g, rank, degree, plan, multiset(pq.entries))
    {
      LowerNext(g, before, degree, targets, k);
      degree := LowerOne(g, rank, plan, targets[k], degree, pq);
      k := k + 1;
    }
  }

  /** An entry that is minimal in an exact heap is the ready node of least rank. */
  lemma PoppedIsGreedy<T(!new)>(g: Graph<T>, rank: map<T, int>, degree: map<T, int>, plan: seq<T>,
                                items: multiset<HeapEntry<T>>, e: HeapEntry<T>)
    requires Ranking(g, rank) && DegreesExact(g, degree, Elements(plan)) && HeapExact(g, rank, degree, plan, items)
    requires items[e] > 0 && forall f: HeapEntry<T> :: items[f] > 0 ==> e.order <= f.order
    ensures items[e] == 1 && Ready(g, plan, e.id) && e.order == rank[e.id]
    ensures forall y :: Ready(g, plan, y) ==> rank[e.id] <= rank[y]
  {
    ReadyIffZero(g, plan, e.id);
    forall y | Ready(g, plan, y) ensures rank[e.id] <= rank[y] {
      ReadyIffZero(g, plan, y);
      assert Waiting(g, rank, degree, plan, HeapEntry(y, rank[y]));
    }
  }

  lemma EmptyHeapIsStuck<T(!new)>(g: Graph<T>, rank: map<T, int>, degree: map<T, int>, plan: seq<T>)
    requires Ranking(g, rank) && DegreesExact(g, degree, Elements(plan)) && HeapExact(g, rank, degree, plan, multiset{})
    ensures Stuck(g, plan)
  {
    forall y ensures !Ready(g, plan, y) {
      if y in g {
        ReadyIffZero(g, plan, y);
        assert !Waiting(g, rank, degree, plan, HeapEntry(y, rank[y]));
      }
    }
  }

  /** Removing the placed node from an exact heap. */
  lemma HeapAfterPop<T(!new)>(g: Graph<T>, rank: map<T, int>, degree: map<T, int>, plan: seq<T>,
                              items: multiset<HeapEntry<T>>, e: HeapEntry<T>)
    requires Ranking(g, rank) && HeapExact(g, rank, degree, plan, items + multiset{e})
    ensures HeapExact(g, rank, degree, plan + [e.id], items)
  {
    assert (items + multiset{e})[e] == items[e] + 1;
    forall f: HeapEntry<T>
      ensures items[f] == if Waiting(g, rank, degree, plan + [e.id], f) then 1 else 0
    {
      assert (items + multiset{e})[f] == items[f] + if f == e then 1 else 0;
      assert f.id == e.id && Waiting(g, rank, degree, plan, f) ==> f == e;
    }
  }

  /** Placing `id` leaves exact in-degrees once its outgoing edges are taken off. */
  lemma DegreesAfter<T(!new)>(g: Graph<T>, before: map<T, int>, after: map<T, int>, plan: seq<T>, id: T,
                              dependents: map<T, seq<T>>)
    requires DegreesExact(g, before, Elements(plan)) && DependentsExact(g, dependents)
    requires id in g && id !in plan && before.Keys == g.Keys
    requires Lowered(g, before, after, Lookup(dependents, id), |Lookup(dependents, id)|)
    ensures DegreesExact(g, after, Elements(plan + [id]))
  {
    var targets := Lookup(dependents, id);
    assert targets[..|targets|] == targets;
    assert Elements(plan + [id]) == Elements(plan) + {id};
    forall x | x in g ensures after[x] == Unplaced(g[x], Elements(plan + [id])) {
      assert SameEdges(g, dependents, id, x);
      UnplacedAfter(g[x], Elements(plan), id);
    }
  }

  /** The dependents of a node that is being placed are neither placed nor the node itself. */
  lemma DependentsAreUnplaced<T(!new)>(g: Graph<T>, degree: map<T, int>, plan: seq<T>, id: T,
                                       dependents: map<T, seq<T>>)
    requires DegreesExact(g, degree, Elements(plan)) && DependentsExact(g, dependents) && Ready(g, plan, id)
    requires forall k :: 0 <= k < |plan| ==> forall d :: plan[k] in g && d in g[plan[k]] ==> d in plan
    ensures forall x :: x in Lookup(dependents, id) ==> x in g && x !in plan + [id]
    ensures forall x :: x in g ==> degree[x] >= multiset(Lookup(dependents, id))[x]
  {
    forall x | x in g ensures degree[x] >= multiset(Lookup(dependents, id))[x] {
      assert SameEdges(g, dependents, id, x);
      UnplacedAfter(g[x], Elements(plan), id);
    }
    forall x | x in Lookup(dependents, id) ensures x in g && x !in plan + [id] {
      assert SameEdges(g, dependents, id, x);
      assert x in multiset(Lookup(dependents, id));
      assert id in multiset(g[x]);
    }
  }

  /** What holds between two placements: the plan is greedy so far, and degrees and heap are exact for it. */
  ghost predicate Sorting<T(!new)>(g: Graph<T>, rank: map<T, int>, plan: seq<T>, degree: map<T, int>,
                                   entries: seq<HeapEntry<T>>) {
    && Ranking(g, rank) && Greedy(g, rank, plan) && degree.Keys == g.Keys && DegreesExact(g, degree, Elements(plan))
    && Ordered(entries) && HeapExact(g, rank, degree, plan, multiset(entries))
  }

  /** Takes the first node from the heap, without its dependents yet. */
  method TakeFirst<T(==, !new)>(g: Graph<T>, rank: map<T, int>, ghost plan: seq<T>, ghost degree: map<T, int>,
                                pq: RegOrderHeap<T>)
    returns (entry: HeapEntry<T>)
    requires Sorting(g, rank, plan, degree, pq.entries) && pq.entries != []
    modifies pq
    ensures Ready(g, plan, entry.id) && Greedy(g, rank, plan + [entry.id])
    ensures Ordered(pq.entries) && HeapExact(g, rank, degree, plan + [entry.id], multiset(pq.entries))
  {
    ghost var items := multiset(pq.entries);
    entry := pq.Pop();
    assert items[entry] > 0;
    PoppedIsGreedy(g, rank, degree, plan, items, entry);
    HeapAfterPop(g, rank, degree, plan, multiset(pq.entries), entry);
    GreedyExtend(g, rank, plan, entry.id);
  }

  /** One round: the first node of the heap is placed, and its dependents are released. */
  method PlaceFirst<T(==, !new)>(g: Graph<T>, rank: map<T, int>, dependents: map<T, seq<T>>, plan: seq<T>,
                                 degree: map<T, int>,
                                 pq: RegOrderHeap<T>)
    returns (placed: seq<T>, lowered: map<T, int>)
    requires Sorting(g, rank, plan, degree, pq.entries) && DependentsExact(g, dependents) && pq.entries != []
    modifies pq
    ensures Sorting(g, rank, placed, lowered, pq.entries) && |placed| == |plan| + 1
  {
    var entry := TakeFirst(g, rank, plan, degree, pq);
    placed := plan + [entry.id];
    DependentsAreUnplaced(g, degree, plan, entry.id, dependents);
    lowered := ReleaseDependents(g, rank, placed, Lookup(dependents, entry.id), degree, pq);
    DegreesAfter(g, degree, lowered, plan, entry.id, dependents);
  }

  /**
   The sort succeeds exactly when the graph has no cycle; the plan is then the least topological order
   by registration index. It depends on the graph and the ranking only.
   */
  method KahnTopoSort<T(==, !new)>(ids: seq<T>, dependencies: Graph<T>, regIndex: map<T, int>)
    returns (r: SortResult<T>)
    requires Distinct(ids) && Elements(ids) == dependencies.Keys && Closed(dependencies)
      && Ranking(dependencies, regIndex)
    ensures r.Sorted? <==> !HasCycle(dependencies)
    ensures r.Sorted? ==> IsTopological(dependencies, r.plan)
    ensures r.Sorted? ==> Greedy(dependencies, regIndex, r.plan) && Stuck(dependencies, r.plan)
    ensures r.CycleDetected? ==> r.reached < r.total == |ids|
  {
    DistinctSize(ids);
    var inDegree, dependents := CountEdges(ids, dependencies);
    var pq := FillHeap(ids, dependencies, regIndex, inDegree);
    var plan: seq<T> := [];
    assert Elements(plan) == {};
    while |pq.entries| > 0
      invariant fresh(pq) && Sorting(dependencies, regIndex, plan, inDegree, pq.entries)
      decreases |ids| - |plan|
    {
      GreedyDistinct(dependencies, regIndex, plan);
      plan, inDegree := PlaceFirst(dependencies, regIndex, dependents, plan, inDegree, pq);
      GreedyDistinct(dependencies, regIndex, plan);
    }
    GreedyDistinct(dependencies, regIndex, plan);
    EmptyHeapIsStuck(dependencies, regIndex, inDegree, plan);
    GreedyCompleteIffAcyclic(dependencies, regIndex, plan);
    if |plan| != |ids| {
      return CycleDetected(|plan|, |ids|);
    }
    GreedyIsTopological(dependencies, regIndex, plan);
    return Sorted(plan);
  }
}
