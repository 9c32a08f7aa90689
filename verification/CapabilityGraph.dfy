/**
 topological of internal/capability/graph.go: the bounded declaration validator, which orders the nodes
 with a ready list that it sorts again after every step.
 */
module CapabilityGraph {
  import opened Seqs
  import opened Text
  import opened TopologicalOrder
  import KahnSort

  const MAX_GRAPH_ENTRIES := 4096
  const MAX_GRAPH_REFERENCES := 16384

  datatype GraphResult =
    | Ordered(order: seq<string>)
    | TooManyNodes
    | BadDependency(id: string)
    | TooManyReferences
    | Cyclic

  // --- Names as ranks ---

  /** Each node's rank is the number of nodes whose names are smaller. */
  ghost function NameRank(g: Graph<string>): map<string, int> {
    map x | x in g :: |Smaller(g, x)|
  }

  ghost function Smaller(g: Graph<string>, x: string): set<string> {
    set y | y in g && Less(y, x)
  }

  lemma NameRankOrders(g: Graph<string>, x: string, y: string)
    requires x in g && y in g
    ensures NameRank(g)[x] <= NameRank(g)[y] <==> AtMost(x, y)
  {
    if x == y {
      AtMostTotal(x, x);
    } else {
      LessIsStrictTotal(x, y);
      if Less(x, y) { NameRankGrows(g, x, y); } else { NameRankGrows(g, y, x); }
    }
  }

  lemma NameRankGrows(g: Graph<string>, x: string, y: string)
    requires x in g && y in g && Less(x, y)
    ensures NameRank(g)[x] < NameRank(g)[y]
    ensures !AtMost(y, x)
  {
    LessIsStrictTotal(x, y);
    forall z | z in Smaller(g, x) ensures z in Smaller(g, y) {
      LessTransitive(z, x, y);
    }
    assert x in Smaller(g, y) && x !in Smaller(g, x);
    SubsetSize(Smaller(g, x) + {x}, Smaller(g, y));
  }

  lemma NamesRank(g: Graph<string>)
    ensures Ranking(g, NameRank(g))
  {
    forall x, y | x in g && y in g && NameRank(g)[x] == NameRank(g)[y] ensures x == y {
      NameRankOrders(g, x, y);
      NameRankOrders(g, y, x);
      if x != y { LessIsStrictTotal(x, y); }
    }
  }

  // --- The declared references ---

  /** All declared edges; with unique declarations their number is the number of references. */
  ghost function EdgeSet(g: Graph<string>, nodes: set<string>): set<(string, string)> {
    set x, d | x in nodes && x in g && d in g[x] :: (x, d)
  }

  ghost predicate UniqueDependencies(g: Graph<string>) {
    forall x :: x in g ==> Distinct(g[x])
  }

  ghost function PrefixEdges(x: string, deps: seq<string>): set<(string, string)> {
    set d | d in deps :: (x, d)
  }

  lemma OneMoreReference(g: Graph<string>, done: set<string>, x: string, k: nat)
    requires x in g && x !in done && k < |g[x]| && g[x][k] !in g[x][..k]
    ensures |EdgeSet(g, done) + PrefixEdges(x, g[x][..k + 1])| == |EdgeSet(g, done) + PrefixEdges(x, g[x][..k])| + 1
  {
    var edge := (x, g[x][k]);
    assert g[x][..k + 1] == g[x][..k] + [g[x][k]];
    assert PrefixEdges(x, g[x][..k + 1]) == PrefixEdges(x, g[x][..k]) + {edge};
    assert edge !in EdgeSet(g, done) + PrefixEdges(x, g[x][..k]);
    assert EdgeSet(g, done) + PrefixEdges(x, g[x][..k + 1]) == (EdgeSet(g, done) + PrefixEdges(x, g[x][..k])) + {edge};
  }

  // --- The ready list ---

  /** A count read the way the program reads its map: absent means zero. */
  function Count(m: map<string, int>, x: string): int {
    if x in m then m[x] else 0
  }

  ghost predicate CountsExact(g: Graph<string>, counts: map<string, int>, placed: set<string>) {
    forall x :: x in g ==> Count(counts, x) == Unplaced(g[x], placed)
  }

  /** The ready list holds each unplaced node of count zero once, and nothing else. */
  ghost predicate ReadyExact(g: Graph<string>, counts: map<string, int>, order: seq<string>, ready: multiset<string>) {
    forall x :: ready[x] == if x in g && x !in order && Count(counts, x) == 0 then 1 else 0
  }

  /** Every node in some order, each once. */
  method Nodes(g: Graph<string>) returns (ids: seq<string>)
    ensures Distinct(ids) && Elements(ids) == g.Keys
  {
    ids := [];
    var rest := g.Keys;
    while rest != {}
      invariant Distinct(ids) && Elements(ids) !! rest && Elements(ids) + rest == g.Keys
    {
      var x :| x in rest;
      rest := rest - {x};
      assert x !in Elements(ids);
      assert Elements(ids + [x]) == Elements(ids) + {x};
      ids := ids + [x];
    }
  }

  lemma PermutationKeepsElements(a: seq<string>, b: seq<string>)
    requires multiset(a) == multiset(b) && Distinct(a)
    ensures Elements(a) == Elements(b) && Distinct(b)
  {
    forall x ensures x in a <==> x in b {
      assert x in a <==> x in multiset(a);
      assert x in b <==> x in multiset(b);
    }
    forall i, j | 0 <= i < j < |b| ensures b[i] != b[j] {
      assert b == b[..j] + [b[j]] + b[j + 1..];
      if b[i] == b[j] {
        assert b[..j][i] == b[j];
        assert multiset(b)[b[j]] >= 2;
        OnceInDistinct(a, b[j]);
      }
    }
  }

  lemma {:induction false} OnceInDistinct(a: seq<string>, x: string)
    requires Distinct(a)
    ensures multiset(a)[x] <= 1
  {
    if a != [] {
      assert a == [a[0]] + a[1..];
      OnceInDistinct(a[1..], x);
    }
  }

  /** A declaration without repeats, all of whose names exist. */
  ghost predicate WellDeclared(g: Graph<string>, deps: seq<string>) {
    Distinct(deps) && forall d :: d in deps ==> d in g
  }

  /** What is known once the declarations of `done` have been read. */
  ghost predicate DeclaredSoFar(g: Graph<string>, done: set<string>, references: int, counts: map<string, int>,
                                degree: map<string, int>, downstream: map<string, seq<string>>) {
    && references == |EdgeSet(g, done)| <= MAX_GRAPH_REFERENCES
    && (forall x :: x in done && x in g ==> WellDeclared(g, g[x]))
    && KahnSort.CountedFor(g, done, degree, downstream)
    && (forall x :: x in g ==> Count(counts, x) == degree[x])
  }

  /** Why the declarations of `id` are not acceptable. */
  ghost predicate Unacceptable(g: Graph<string>, id: string, problem: GraphResult) {
    || (problem == BadDependency(id) && id in g && !WellDeclared(g, g[id]))
    || (problem == TooManyReferences && |EdgeSet(g, g.Keys)| > MAX_GRAPH_REFERENCES)
  }

  /** What is known once the first `k` declarations of `id` have been read on top of those of `done`. */
  ghost predicate PartlyDeclared(g: Graph<string>, id: string, k: nat, done: set<string>, references: int,
                                 before: map<string, int>, counts: map<string, int>,
                                 downstream0: map<string, seq<string>>, downstream: map<string, seq<string>>)
    requires id in g && k <= |g[id]|
  {
    && references == |EdgeSet(g, done) + PrefixEdges(id, g[id][..k])| <= MAX_GRAPH_REFERENCES
    && WellDeclared(g, g[id][..k])
    && KahnSort.CountedPart(g, id, k, downstream0, downstream)
    && CountedOnly(g, id, k, before, counts)
  }

  ghost predicate CountedOnly(g: Graph<string>, id: string, k: nat, before: map<string, int>,
                              counts: map<string, int>) {
    forall x :: x in g ==> Count(counts, x) == if x == id then k else Count(before, x)
  }

  lemma StartDeclaring(g: Graph<string>, id: string, done: set<string>, references: int, counts: map<string, int>,
                       degree: map<string, int>, downstream: map<string, seq<string>>)
    requires id in g && id !in done && DeclaredSoFar(g, done, references, counts, degree, downstream)
    ensures PartlyDeclared(g, id, 0, done, references, counts, counts, downstream, downstream)
  {
    assert EdgeSet(g, done) + PrefixEdges(id, g[id][..0]) == EdgeSet(g, done);
    KahnSort.CountNothing(g, id, done, degree, downstream);
  }

  lemma ReferencesGrow(g: Graph<string>, done: set<string>, x: string, k: nat)
    requires x in g && x !in done && k < |g[x]| && g[x][k] !in g[x][..k]
    ensures |EdgeSet(g, done) + PrefixEdges(x, g[x][..k + 1])| == |EdgeSet(g, done) + PrefixEdges(x, g[x][..k])| + 1
    ensures |EdgeSet(g, done) + PrefixEdges(x, g[x][..k])| < |EdgeSet(g, g.Keys)|
  {
    OneMoreReference(g, done, x, k);
    SubsetSize(EdgeSet(g, done) + PrefixEdges(x, g[x][..k + 1]), EdgeSet(g, g.Keys));
  }

  /** One acceptable declaration more; the reference limit is the only remaining obstacle. */
  lemma DeclareOne(g: Graph<string>, id: string, k: nat, done: set<string>, references: int, before: map<string, int>,
                   counts: map<string, int>, downstream0: map<string, seq<string>>,
                   downstream: map<string, seq<string>>)
    requires id in g && id !in done && k < |g[id]| && g[id][k] in g && g[id][k] !in g[id][..k]
    requires PartlyDeclared(g, id, k, done, references, before, counts, downstream0, downstream)
    ensures references + 1 <= |EdgeSet(g, g.Keys)|
    ensures references < MAX_GRAPH_REFERENCES ==>
              var dep := g[id][k];
              PartlyDeclared(g, id, k + 1, done, references + 1, before, counts[id := Count(counts, id) + 1],
                             downstream0, downstream[dep := KahnSort.Lookup(downstream, dep) + [id]])
  {
    ReferencesGrow(g, done, id, k);
    DistinctPrefix(g[id], k);
    KahnSort.CountOneEdge(g, id, k, downstream0, downstream);
    assert CountedOnly(g, id, k + 1, before, counts[id := Count(counts, id) + 1]);
  }

  lemma EdgeSetGrows(g: Graph<string>, done: set<string>, id: string)
    requires id in g
    ensures EdgeSet(g, done) + PrefixEdges(id, g[id]) == EdgeSet(g, done + {id})
  {
  }

  lemma FinishDeclaring(g: Graph<string>, id: string, done: set<string>, references0: int, before: map<string, int>,
                        degree0: map<string, int>,
                        downstream0: map<string, seq<string>>, references: int, counts: map<string, int>,
                        downstream: map<string, seq<string>>)
    requires id in g && id !in done && DeclaredSoFar(g, done, references0, before, degree0, downstream0)
    requires PartlyDeclared(g, id, |g[id]|, done, references, before, counts, downstream0, downstream)
    ensures DeclaredSoFar(g, done + {id}, references, counts, degree0[id := |g[id]|], downstream)
  {
    assert g[id][..|g[id]|] == g[id];
    EdgeSetGrows(g, done, id);
    KahnSort.CountWholeNode(g, id, done, degree0, downstream0, downstream);
  }

  /** Reads one declared reference. */
  method DeclareReference(g: Graph<string>, id: string, k: nat, ghost done: set<string>, references0: int,
                          ghost before: map<string, int>,
                          counts0: map<string, int>, ghost start: map<string, seq<string>>,
                          downstream0: map<string, seq<string>>)
    returns (problem: GraphResult, references: int, counts: map<string, int>, downstream: map<string, seq<string>>)
    requires id in g && id !in done && k < |g[id]|
    requires PartlyDeclared(g, id, k, done, references0, before, counts0, start, downstream0)
    ensures problem == Ordered([]) || Unacceptable(g, id, problem)
    ensures problem == Ordered([]) ==> PartlyDeclared(g, id, k + 1, done, references, before, counts, start, downstream)
  {
    problem, references, counts, downstream := Ordered([]), references0, counts0, downstream0;
    var deps := g[id];
    var dep := deps[k];
    if dep !in g || dep in deps[..k] {
      RepeatOrUnknown(g, deps, k);
      problem := BadDependency(id);
      return;
    }
    DeclareOne(g, id, k, done, references, before, counts, start, downstream);
    counts := counts[id := Count(counts, id) + 1];
    references := references + 1;
    if references > MAX_GRAPH_REFERENCES {
      problem := TooManyReferences;
      return;
    }
    downstream := downstream[dep := KahnSort.Lookup(downstream, dep) + [id]];
  }

  lemma RepeatOrUnknown(g: Graph<string>, deps: seq<string>, k: nat)
    requires k < |deps| && (deps[k] !in g || deps[k] in deps[..k])
    ensures !WellDeclared(g, deps)
  {
    if deps[k] in deps[..k] {
      var j :| 0 <= j < k && deps[..k][j] == deps[k];
      assert deps[j] == deps[k];
    } else {
      assert deps[k] in deps;
    }
  }

  /** Reads the declarations of one node. */
  method DeclareNode(g: Graph<string>, id: string, ghost done: set<string>, references0: int, counts0: map<string, int>,
                     ghost degree0: map<string, int>, downstream0: map<string, seq<string>>)
    returns (problem: GraphResult, references: int, counts: map<string, int>, ghost degree: map<string, int>,
             downstream: map<string, seq<string>>)
    requires id in g && id !in done && DeclaredSoFar(g, done, references0, counts0, degree0, downstream0)
    ensures problem == Ordered([]) || Unacceptable(g, id, problem)
    ensures problem == Ordered([]) ==> DeclaredSoFar(g, done + {id}, references, counts, degree, downstream)
  {
    problem, references, counts, degree, downstream := Ordered([]), references0, counts0, degree0, downstream0;
    StartDeclaring(g, id, done, references0, counts0, degree0, downstream0);
    var k := 0;
    while k < |g[id]|
      invariant 0 <= k <= |g[id]|
      invariant PartlyDeclared(g, id, k, done, references, counts0, counts, downstream0, downstream)
    {
      problem, references, counts, downstream :=
        DeclareReference(g, id, k, done, references, counts0, counts, downstream0, downstream);
      if problem != Ordered([]) { return; }
      k := k + 1;
    }
    degree := degree0[id := |g[id]|];
    problem := Ordered([]);
    FinishDeclaring(g, id, done, references0, counts0, degree0, downstream0, references, counts, downstream);
  }

  /** Counts and reverse edges, or the first declaration error in name order. */
  method CountDeclarations(ids: seq<string>, g: Graph<string>)
    returns (problem: GraphResult, counts: map<string, int>, downstream: map<string, seq<string>>)
    requires Distinct(ids) && Elements(ids) == g.Keys
    ensures problem == Ordered([]) || (exists id :: Unacceptable(g, id, problem))
    ensures problem == Ordered([]) ==>
      Closed(g) && UniqueDependencies(g) && |EdgeSet(g, g.Keys)| <= MAX_GRAPH_REFERENCES
    ensures problem == Ordered([]) ==> CountsExact(g, counts, {}) && KahnSort.DependentsExact(g, downstream)
  {
    counts, downstream := map[], map[];
    var references := 0;
    ghost var degree: map<string, int> := map x | x in g :: 0;
    assert Elements(ids[..0]) == {} && EdgeSet(g, {}) == {};
    var i := 0;
    while i < |ids|
      invariant 0 <= i <= |ids|
      invariant DeclaredSoFar(g, Elements(ids[..i]), references, counts, degree, downstream)
    {
      ElementsPrefix(ids, i);
      problem, references, counts, degree, downstream :=
        DeclareNode(g, ids[i], Elements(ids[..i]), references, counts, degree, downstream);
      if problem != Ordered([]) { return; }
      i := i + 1;
    }
    assert ids[..i] == ids;
    problem := Ordered([]);
    AllDeclared(g, references, counts, degree, downstream);
  }

  lemma AllDeclared(g: Graph<string>, references: int, counts: map<string, int>, degree: map<string, int>,
                    downstream: map<string, seq<string>>)
    requires DeclaredSoFar(g, g.Keys, references, counts, degree, downstream)
    ensures Closed(g) && UniqueDependencies(g) && |EdgeSet(g, g.Keys)| <= MAX_GRAPH_REFERENCES
    ensures CountsExact(g, counts, {}) && KahnSort.DependentsExact(g, downstream)
  {
    KahnSort.CountedAll(g, degree, downstream);
  }

  /** The nodes without dependencies, in the order of `ids`. */
  method InitialReady(ids: seq<string>, g: Graph<string>, counts: map<string, int>) returns (ready: seq<string>)
    requires Distinct(ids) && Elements(ids) == g.Keys && SortedNames(ids)
    ensures SortedNames(ready) && ReadyExact(g, counts, [], multiset(ready))
  {
    ready := [];
    var i := 0;
    while i < |ids|
      invariant 0 <= i <= |ids|
      invariant SortedNames(ready)
      invariant forall x :: x in ready ==> x in ids[..i]
      invariant forall x :: multiset(ready)[x] == if x in ids[..i] && Count(counts, x) == 0 then 1 else 0
    {
      assert ids[i] !in ids[..i];
      assert ids[..i + 1] == ids[..i] + [ids[i]];
      if Count(counts, ids[i]) == 0 {
        forall x | x in ready ensures AtMost(x, ids[i]) {
          var k :| 0 <= k < i && ids[k] == x;
        }
        ready := ready + [ids[i]];
      }
      i := i + 1;
    }
    assert ids[..i] == ids;
    forall x ensures multiset(ready)[x] == if x in g && x !in [] && Count(counts, x) == 0 then 1 else 0 {
      assert x in ids <==> x in Elements(ids);
    }
  }

  /** Decrements one count per listed child, and appends those that reach zero. */
  method ReleaseChildren(g: Graph<string>, order: seq<string>, children: seq<string>, before: map<string, int>,
                         ready0: seq<string>)
    returns (counts: map<string, int>, ready: seq<string>)
    requires ReadyExact(g, before, order, multiset(ready0))
    requires forall x :: x in children ==> x in g && x !in order
    requires forall x :: x in g ==> Count(before, x) >= multiset(children)[x]
    ensures forall x :: x in g ==> Count(counts, x) == Count(before, x) - multiset(children)[x]
    ensures ReadyExact(g, counts, order, multiset(ready))
  {
    counts, ready := before, ready0;
    var k := 0;
    while k < |children|
      invariant 0 <= k <= |children|
      invariant forall x :: x in g ==> Count(counts, x) == Count(before, x) - multiset(children[..k])[x]
      invariant ReadyExact(g, counts, order, multiset(ready))
    {
      var child := children[k];
      assert children == children[..k] + [child] + children[k + 1..];
      assert children[..k + 1] == children[..k] + [child];
      assert Count(counts, child) >= 1;
      counts := counts[child := Count(counts, child) - 1];
      if Count(counts, child) == 0 {
        ready := ready + [child];
      }
      k := k + 1;
    }
    assert children[..k] == children;
  }

  /** The head of a sorted exact ready list is the ready node of least name. */
  lemma HeadIsGreedy(g: Graph<string>, counts: map<string, int>, order: seq<string>, ready: seq<string>)
    requires CountsExact(g, counts, Elements(order)) && ReadyExact(g, counts, order, multiset(ready))
    requires SortedNames(ready) && ready != []
    ensures Ready(g, order, ready[0]) && Ranking(g, NameRank(g))
    ensures forall y :: Ready(g, order, y) ==> NameRank(g)[ready[0]] <= NameRank(g)[y]
    ensures ReadyExact(g, counts, order + [ready[0]], multiset(ready[1..]))
  {
    NamesRank(g);
    var head := ready[0];
    assert ready == [head] + ready[1..];
    assert head in multiset(ready);
    ReadyIffZero(g, order, head);
    forall y | Ready(g, order, y) ensures NameRank(g)[head] <= NameRank(g)[y] {
      ReadyIffZero(g, order, y);
      assert y in multiset(ready);
      var k :| 0 <= k < |ready| && ready[k] == y;
      AtMostTotal(head, head);
      NameRankOrders(g, head, y);
    }
  }

  lemma NothingReadyIsStuck(g: Graph<string>, counts: map<string, int>, order: seq<string>)
    requires CountsExact(g, counts, Elements(order)) && ReadyExact(g, counts, order, multiset{})
    ensures Stuck(g, order)
  {
    forall y ensures !Ready(g, order, y) {
      if y in g {
        ReadyIffZero(g, order, y);
        assert multiset{}[y] == 0;
      }
    }
  }

  /** The children of a node that is being placed are unplaced and still count its edges. */
  lemma ChildrenAreUnplaced(g: Graph<string>, counts: map<string, int>, order: seq<string>, id: string,
                            downstream: map<string, seq<string>>)
    requires CountsExact(g, counts, Elements(order)) && KahnSort.DependentsExact(g, downstream)
    requires Ranking(g, NameRank(g)) && Greedy(g, NameRank(g), order) && Ready(g, order, id)
    ensures forall x :: x in KahnSort.Lookup(downstream, id) ==> x in g && x !in order + [id]
    ensures forall x :: x in g ==> Count(counts, x) >= multiset(KahnSort.Lookup(downstream, id))[x]
  {
    forall x | x in g ensures Count(counts, x) >= multiset(KahnSort.Lookup(downstream, id))[x] {
      assert KahnSort.SameEdges(g, downstream, id, x);
      UnplacedAfter(g[x], Elements(order), id);
    }
    forall k | 0 <= k < |order| ensures forall d :: d in g[order[k]] ==> d in order {
      assert Ready(g, order[..k], order[k]);
    }
    forall x | x in KahnSort.Lookup(downstream, id) ensures x in g && x !in order + [id] {
      assert KahnSort.SameEdges(g, downstream, id, x);
      assert x in multiset(KahnSort.Lookup(downstream, id));
      assert id in multiset(g[x]);
    }
  }

  lemma CountsAfter(g: Graph<string>, before: map<string, int>, after: map<string, int>, order: seq<string>, id: string,
                    downstream: map<string, seq<string>>)
    requires CountsExact(g, before, Elements(order)) && KahnSort.DependentsExact(g, downstream)
    requires id in g && id !in order
    requires forall x :: x in g ==> Count(after, x) == Count(before, x) - multiset(KahnSort.Lookup(downstream, id))[x]
    ensures CountsExact(g, after, Elements(order + [id]))
  {
    assert Elements(order + [id]) == Elements(order) + {id};
    forall x | x in g ensures Count(after, x) == Unplaced(g[x], Elements(order + [id])) {
      assert KahnSort.SameEdges(g, downstream, id, x);
      UnplacedAfter(g[x], Elements(order), id);
    }
  }

  /** The loop of the sort, over an exact ready list. */
  method OrderReady(g: Graph<string>, counts0: map<string, int>, downstream: map<string, seq<string>>,
                    ready0: seq<string>)
    returns (order: seq<string>)
    requires CountsExact(g, counts0, {}) && KahnSort.DependentsExact(g, downstream) && SortedNames(ready0)
    requires ReadyExact(g, counts0, [], multiset(ready0))
    ensures Ranking(g, NameRank(g)) && Greedy(g, NameRank(g), order) && Stuck(g, order)
  {
    NamesRank(g);
    order := [];
    assert Elements(order) == {};
    var counts, ready := counts0, ready0;
    while |ready| > 0
      invariant SortedNames(ready) && Greedy(g, NameRank(g), order)
      invariant CountsExact(g, counts, Elements(order)) && ReadyExact(g, counts, order, multiset(ready))
      decreases |g| - |order|
    {
      var id := ready[0];
      HeadIsGreedy(g, counts, order, ready);
      GreedyExtend(g, NameRank(g), order, id);
      ChildrenAreUnplaced(g, counts, order, id, downstream);
      ghost var before, placed := counts, order;
      order := order + [id];
      var released;
      counts, released := ReleaseChildren(g, order, KahnSort.Lookup(downstream, id), counts, ready[1..]);
      CountsAfter(g, before, counts, placed, id, downstream);
      ready := SortNames(released);
      GreedyDistinct(g, NameRank(g), order);
    }
    NothingReadyIsStuck(g, counts, order);
  }

  /**
   The validator accepts exactly the bounded, closed, duplicate-free and acyclic declarations, and returns
   their least topological order by name, whatever order the map yields its keys in.
   */
  method Topological(edges: Graph<string>) returns (r: GraphResult)
    ensures r.Ordered? <==>
      && |edges| <= MAX_GRAPH_ENTRIES && Closed(edges) && UniqueDependencies(edges)
      && |EdgeSet(edges, edges.Keys)| <= MAX_GRAPH_REFERENCES && !HasCycle(edges)
    ensures r.Ordered? ==> IsTopological(edges, r.order)
    ensures r.Ordered? ==>
      Ranking(edges, NameRank(edges)) && Greedy(edges, NameRank(edges), r.order) && Stuck(edges, r.order)
    ensures r.Cyclic? ==> HasCycle(edges)
  {
    if |edges| > MAX_GRAPH_ENTRIES { return TooManyNodes; }
    var unsorted := Nodes(edges);
    var ids := SortNames(unsorted);
    PermutationKeepsElements(unsorted, ids);
    var problem, counts, downstream := CountDeclarations(ids, edges);
    if problem != Ordered([]) { return problem; }
    var ready := InitialReady(ids, edges, counts);
    var order := OrderReady(edges, counts, downstream, ready);
    GreedyDistinct(edges, NameRank(edges), order);
    GreedyCompleteIffAcyclic(edges, NameRank(edges), order);
    if |order| != |edges| { return Cyclic; }
    GreedyIsTopological(edges, NameRank(edges), order);
    return Ordered(order);
  }

  // --- The two sorts agree ---

  /** Two rankings that order the nodes alike have the same greedy plans. */
  lemma GreedyDependsOnOrderOnly<T(!new)>(g: Graph<T>, rank1: map<T, int>, rank2: map<T, int>, plan: seq<T>)
    requires Ranking(g, rank1) && Ranking(g, rank2) && Greedy(g, rank1, plan)
    requires forall x, y :: x in g && y in g ==> (rank1[x] <= rank1[y] <==> rank2[x] <= rank2[y])
    ensures Greedy(g, rank2, plan)
  {
    forall k | 0 <= k < |plan|
      ensures Ready(g, plan[..k], plan[k])
      ensures forall y :: Ready(g, plan[..k], y) ==> rank2[plan[k]] <= rank2[y]
    {
      assert Ready(g, plan[..k], plan[k]);
    }
  }

  /**
   The heap sort of the probe registry and the re-sorted list of the capability graph agree: on a graph whose
   registration order is its name order, any results of the two sorts are equal.
   */
  lemma SortsAgree(g: Graph<string>, regIndex: map<string, int>, heapPlan: seq<string>, listPlan: seq<string>)
    requires Ranking(g, regIndex) && Greedy(g, regIndex, heapPlan) && Stuck(g, heapPlan)
    requires Ranking(g, NameRank(g)) && Greedy(g, NameRank(g), listPlan) && Stuck(g, listPlan)
    requires forall x, y :: x in g && y in g ==> (regIndex[x] <= regIndex[y] <==> AtMost(x, y))
    ensures heapPlan == listPlan
  {
    forall x, y | x in g && y in g ensures regIndex[x] <= regIndex[y] <==> NameRank(g)[x] <= NameRank(g)[y] {
      NameRankOrders(g, x, y);
    }
    GreedyDependsOnOrderOnly(g, regIndex, NameRank(g), heapPlan);
    GreedyIsUnique(g, NameRank(g), heapPlan, listPlan, 0);
  }
}
