/**
 The probe registry of internal/probe/registry.go: registration, the sealing Resolve, and the compiled
 execution plan that the orchestrator runs.
 */
module ProbeRegistry {
  import opened Options
  import opened Seqs
  import opened TopologicalOrder
  import opened KahnSort
  import opened SchedulerState

  /** A probe's identity and its declared dependencies. */
  datatype Probe = Probe(id: string, dependencies: seq<string>)

  datatype RegistryError =
    | NilProbe
    | EmptyID
    | RegistryResolved
    | DuplicateID(id: string)
    | SelfDependency(id: string)
    | UnknownDependency(id: string, dependency: string)
    | CycleFound(reached: nat, total: nat)
    | Unresolved
    | NilRegistry
    | BadConcurrency
  {
    /** The errors that wrap ErrCycleDetected. */
    predicate IsCycle() { SelfDependency? || CycleFound? }
  }

  /** What a report of the dependency check says is so. */
  ghost predicate Grounded(err: RegistryError, g: Graph<string>) {
    match err
    case SelfDependency(id) => IsCycle(g, [id])
    case UnknownDependency(id, dependency) => id in g && dependency in g[id] && dependency !in g
    case CycleFound(reached, total) => HasCycle(g) && reached < total
    case _ => false
  }

  /** Dependency lists as registration indices. */
  ghost function Indexed(ids: seq<string>, deps: seq<string>): seq<nat>
    requires forall d :: d in deps ==> d in ids
  {
    seq(|deps|, k requires 0 <= k < |deps| => Position(ids, deps[k]))
  }

  ghost function Position(ids: seq<string>, x: string): (r: nat)
    requires x in ids
    ensures r < |ids| && ids[r] == x
  {
    var k :| 0 <= k < |ids| && ids[k] == x; k
  }

  /** The compiled plan is the declared graph, node for node and edge for edge. */
  ghost predicate Compiles(ids: seq<string>, g: Graph<string>, p: Plan) {
    && Distinct(ids) && Elements(ids) == g.Keys && Closed(g)
    && |p.dependencies| == |ids| && p.Valid()
    && (forall i :: 0 <= i < |ids| ==>
          && |p.dependencies[i]| == |g[ids[i]]|
          && forall k :: 0 <= k < |g[ids[i]]| ==> ids[p.dependencies[i][k]] == g[ids[i]][k])
  }

  /** Both adjacencies of the plan, built edge by edge in registration order. */
  method CompilePlan(ids: seq<string>, deps: Graph<string>, indices: map<string, int>) returns (p: Plan)
    requires Distinct(ids) && Elements(ids) == deps.Keys && Closed(deps) && indices.Keys == deps.Keys
    requires forall i :: 0 <= i < |ids| ==> ids[i] in indices && indices[ids[i]] == i
    ensures Compiles(ids, deps, p) && Ascending(p, |ids|)
  {
    var n := |ids|;
    p := Plan(seq(n, _ => []), seq(n, _ => []));
    assert p.Valid() by {
      forall i, j | 0 <= i < n && 0 <= j < n ensures p.SameEdges(i, j) {}
    }
    var i := 0;
    while i < n
      invariant 0 <= i <= n && p.Size() == n && p.Valid() && Ascending(p, i)
      invariant forall a :: i <= a < n ==> p.dependencies[a] == []
      invariant forall a :: 0 <= a < i ==> Mirrors(ids, deps, p, a)
    {
      assert ids[i] in Elements(ids);
      ghost var before := p;
      p := CompileNode(ids, deps, indices, i, p);
      forall a | 0 <= a < i ensures Mirrors(ids, deps, p, a) {
        assert Mirrors(ids, deps, before, a);
      }
      i := i + 1;
    }
    forall a | 0 <= a < n
      ensures |p.dependencies[a]| == |deps[ids[a]]|
      ensures forall k :: 0 <= k < |deps[ids[a]]| ==> ids[p.dependencies[a][k]] == deps[ids[a]][k]
    {
      assert Mirrors(ids, deps, p, a);
    }
  }

  /** Adds the edges of one node, in both directions. */
  method CompileNode(ids: seq<string>, deps: Graph<string>, indices: map<string, int>, i: nat, p0: Plan)
    returns (p: Plan)
    requires Distinct(ids) && Elements(ids) == deps.Keys && Closed(deps) && indices.Keys == deps.Keys
    requires forall j :: 0 <= j < |ids| ==> ids[j] in indices && indices[ids[j]] == j
    requires p0.Valid() && p0.Size() == |ids| && i < |ids| && p0.dependencies[i] == [] && Ascending(p0, i)
    ensures p.Valid() && p.Size() == |ids| && Mirrors(ids, deps, p, i) && Ascending(p, i + 1)
    ensures forall a :: 0 <= a < |ids| && a != i ==> p.dependencies[a] == p0.dependencies[a]
  {
    p := p0;
    assert ids[i] in Elements(ids);
    var list := deps[ids[i]];
    var k := 0;
    while k < |list|
      invariant 0 <= k <= |list| && p.Size() == |ids| && p.Valid() && Ascending(p, i + 1)
      invariant forall a :: 0 <= a < |ids| && a != i ==> p.dependencies[a] == p0.dependencies[a]
      invariant |p.dependencies[i]| == k
      invariant forall m :: 0 <= m < k ==> ids[p.dependencies[i][m]] == list[m]
    {
      assert list[k] in deps && list[k] in Elements(ids);
      ghost var at :| 0 <= at < |ids| && ids[at] == list[k];
      var parent := indices[list[k]];
      assert parent == at;
      AddEdgeKeepsValid(p, i, parent);
      AddEdgeKeepsOrder(p, i, parent);
      p := Plan(p.dependencies[i := p.dependencies[i] + [parent]], p.downstream[parent := p.downstream[parent] + [i]]);
      k := k + 1;
    }
  }

  /** Node `a` of the plan lists the declared dependencies of its probe. */
  ghost predicate Mirrors(ids: seq<string>, g: Graph<string>, p: Plan, a: nat)
    requires a < |ids| == p.Size() && p.Valid() && Elements(ids) == g.Keys
  {
    assert ids[a] in Elements(ids);
    && |p.dependencies[a]| == |g[ids[a]]|
    && forall k :: 0 <= k < |g[ids[a]]| ==> ids[p.dependencies[a][k]] == g[ids[a]][k]
  }

  lemma AddEdgeKeepsValid(p: Plan, i: nat, parent: nat)
    requires p.Valid() && i < p.Size() && parent < p.Size()
    ensures Plan(p.dependencies[i := p.dependencies[i] + [parent]],
                 p.downstream[parent := p.downstream[parent] + [i]]).Valid()
  {
    var q := Plan(p.dependencies[i := p.dependencies[i] + [parent]],
                  p.downstream[parent := p.downstream[parent] + [i]]);
    forall a, b | 0 <= a < p.Size() && 0 <= b < p.Size() ensures q.SameEdges(a, b) {
      assert p.SameEdges(a, b);
    }
  }

  /** Dependents are listed in registration order, and all come before `bound`. */
  ghost predicate Ascending(p: Plan, bound: nat) {
    forall j :: 0 <= j < |p.downstream| ==> SortedBelow(p.downstream[j], bound)
  }

  predicate SortedBelow(s: seq<nat>, bound: nat) {
    && (forall k :: 0 <= k < |s| ==> s[k] < bound)
    && (forall a, b :: 0 <= a < b < |s| ==> s[a] <= s[b])
  }

  lemma AddEdgeKeepsOrder(p: Plan, i: nat, parent: nat)
    requires Ascending(p, i + 1) && i < p.Size() && parent < |p.downstream|
    ensures Ascending(Plan(p.dependencies[i := p.dependencies[i] + [parent]],
                           p.downstream[parent := p.downstream[parent] + [i]]), i + 1)
  {
    assert SortedBelow(p.downstream[parent], i + 1);
  }

  /** A topological order of the declared graph ranks the compiled plan. */
  lemma CompiledPlanIsAcyclic(ids: seq<string>, g: Graph<string>, p: Plan, order: seq<string>)
    requires Compiles(ids, g, p) && IsTopological(g, order)
    ensures p.Acyclic()
  {
    forall i | 0 <= i < |ids| ensures ids[i] in order {
      assert ids[i] in Elements(order);
    }
    var rank := Indexed(order, ids);
    forall i, k | 0 <= i < |p.dependencies| && 0 <= k < |p.dependencies[i]|
      ensures rank[p.dependencies[i][k]] < rank[i]
    {
      var j := p.dependencies[i][k];
      assert ids[j] == g[ids[i]][k];
      var m := DependencyIsEarlier(g, order, rank[i], ids[j]);
      assert order[rank[j]] == ids[j];
    }
    assert p.RankedBy(rank);
  }

  /** The least topological order by registration index, and the compiled acyclic plan, of an acyclic graph. */
  ghost predicate Publishable(ids: seq<string>, g: Graph<string>, rank: map<string, int>, order: seq<string>,
                              compiled: Option<Plan>) {
    && Closed(g) && !HasCycle(g)
    && Ranking(g, rank)
    && Greedy(g, rank, order) && Stuck(g, order)
    && IsTopological(g, order)
    && compiled.Some? && Compiles(ids, g, compiled.value) && compiled.value.Acyclic()
  }

  lemma AppendKeepsPositions(ids: seq<string>, index: map<string, int>, id: string)
    requires id !in Elements(ids)
    requires forall i :: 0 <= i < |ids| ==> ids[i] in index && index[ids[i]] == i
    ensures Elements(ids + [id]) == Elements(ids) + {id}
    ensures var next, all := index[id := |ids|], ids + [id];
      forall i :: 0 <= i < |all| ==> all[i] in next && next[all[i]] == i
  {
    forall i | 0 <= i < |ids| ensures ids[i] != id {
      assert ids[i] in Elements(ids);
    }
  }

  class Registry {
    var probes: map<string, Probe>
    var orderedIDs: seq<string>
    var regIndex: map<string, int>
    var resolved: bool
    var resolveErr: Option<RegistryError>
    var resolvedPlan: seq<string>
    var compiled: Option<Plan>

    /** The declared dependency graph. */
    ghost function Declared(): Graph<string>
      reads this
    {
      map id | id in probes :: probes[id].dependencies
    }

    /** What a successful Resolve publishes. */
    ghost predicate Published()
      reads this
    {
      Publishable(orderedIDs, Declared(), regIndex, resolvedPlan, compiled)
    }

    ghost predicate Valid()
      reads this
    {
      && Distinct(orderedIDs) && Elements(orderedIDs) == probes.Keys && regIndex.Keys == probes.Keys
      && (forall i :: 0 <= i < |orderedIDs| ==> orderedIDs[i] in regIndex && regIndex[orderedIDs[i]] == i)
      && (forall id :: id in probes ==> probes[id].id == id && id != "")
      && (resolveErr.Some? ==> resolved)
      && (resolved && resolveErr.None? ==> Published())
    }

    constructor ()
      ensures Valid() && !resolved && probes == map[]
    {
      probes, orderedIDs, regIndex := map[], [], map[];
      resolved, resolveErr, resolvedPlan, compiled := false, None, [], None;
    }

    /** Adds a probe at the end of the registration order, unless the registry is sealed or the probe unusable. */
    method Register(probe: Option<Probe>) returns (err: Option<RegistryError>)
      requires Valid()
      modifies this
      ensures Valid() && resolved == old(resolved)
      ensures err.None? <==> probe.Some? && probe.value.id != "" && !resolved && probe.value.id !in old(probes)
      ensures err.None? ==>
        && probes == old(probes)[probe.value.id := probe.value]
        && orderedIDs == old(orderedIDs) + [probe.value.id]
      ensures err.Some? ==> unchanged(this)
    {
      if probe.None? { return Some(NilProbe); }
      var p := probe.value;
      if p.id == "" { return Some(EmptyID); }
      if resolved { return Some(RegistryResolved); }
      if p.id in probes { return Some(DuplicateID(p.id)); }
      assert p.id !in Elements(orderedIDs);
      DistinctStep(orderedIDs, p.id);
      AppendKeepsPositions(orderedIDs, regIndex, p.id);
      probes := probes[p.id := p];
      regIndex := regIndex[p.id := |orderedIDs|];
      orderedIDs := orderedIDs + [p.id];
      return None;
    }

    /** The first declared dependency, in registration order, on the probe itself or on an unknown probe. */
    method FindBadDependency() returns (err: Option<RegistryError>)
      requires Valid()
      ensures err.None? ==> Closed(Declared()) && forall x :: x in Declared() ==> x !in Declared()[x]
      ensures err.Some? ==> Grounded(err.value, Declared()) && !err.value.CycleFound?
    {
      var i := 0;
      while i < |orderedIDs|
        invariant 0 <= i <= |orderedIDs|
        invariant forall a, d :: 0 <= a < i && d in Declared()[orderedIDs[a]] ==> d in probes && d != orderedIDs[a]
      {
        var id := orderedIDs[i];
        assert id in Elements(orderedIDs);
        var deps := probes[id].dependencies;
        var k := 0;
        while k < |deps|
          invariant 0 <= k <= |deps|
          invariant forall m :: 0 <= m < k ==> deps[m] in probes && deps[m] != id
        {
          if deps[k] == id {
            assert id in Declared()[id];
            return Some(SelfDependency(id));
          }
          if deps[k] !in probes {
            assert id in Declared() && deps[k] in Declared()[id] && deps[k] !in Declared();
            return Some(UnknownDependency(id, deps[k]));
          }
          k := k + 1;
        }
        i := i + 1;
      }
      forall x, d | x in Declared() && d in Declared()[x] ensures d in Declared() && d != x {
        assert x in Elements(orderedIDs);
        var a :| 0 <= a < |orderedIDs| && orderedIDs[a] == x;
      }
      return None;
    }

    /** Validates, sorts and compiles the declared graph without publishing anything. */
    method Analyse() returns (err: Option<RegistryError>, order: seq<string>, plan: Option<Plan>)
      requires Valid()
      ensures err.None? <==> Closed(Declared()) && !HasCycle(Declared())
      ensures err.None? ==> Publishable(orderedIDs, Declared(), regIndex, order, plan)
      ensures err.Some? ==> Grounded(err.value, Declared())
      ensures err.Some? && err.value.IsCycle() ==> HasCycle(Declared())
      ensures err.Some? && !err.value.IsCycle() ==> err.value.UnknownDependency? && !Closed(Declared())
    {
      ghost var g := Declared();
      order, plan := [], None;
      err := FindBadDependency();
      if err.Some? { return; }
      var dependencies := map id | id in probes :: probes[id].dependencies;
      RegistrationRanks();
      var sorted := KahnTopoSort(orderedIDs, dependencies, regIndex);
      if sorted.CycleDetected? {
        err := Some(CycleFound(sorted.reached, sorted.total));
        return;
      }
      var compiledPlan := CompilePlan(orderedIDs, dependencies, regIndex);
      CompiledPlanIsAcyclic(orderedIDs, g, compiledPlan, sorted.plan);
      order, plan := sorted.plan, Some(compiledPlan);
    }

    /**
     Seals the registry. It succeeds exactly when every declared dependency is registered and the graph has
     no cycle; a reported cycle really exists. A sealed registry returns its first outcome again.
     */
    method Resolve() returns (err: Option<RegistryError>)
      requires Valid()
      modifies this
      ensures Valid() && resolved && err == resolveErr
      ensures old(resolved) ==> unchanged(this)
      ensures probes == old(probes) && orderedIDs == old(orderedIDs) && regIndex == old(regIndex)
      ensures !old(resolved) ==> (err.None? <==> Closed(Declared()) && !HasCycle(Declared()))
      ensures !old(resolved) && err.Some? ==> Grounded(err.value, Declared())
      ensures !old(resolved) && err.Some? && err.value.IsCycle() ==> HasCycle(Declared())
      ensures !old(resolved) && err.Some? && !err.value.IsCycle() ==>
        err.value.UnknownDependency? && !Closed(Declared())
    {
      if resolved { return resolveErr; }
      var plan, compiledPlan;
      err, plan, compiledPlan := Analyse();
      resolved, resolveErr, resolvedPlan := true, err, plan;
      if err.None? {
        compiled := compiledPlan;
      }
    }

    lemma RegistrationRanks()
      requires Valid()
      ensures Ranking(Declared(), regIndex)
    {
      forall x, y | x in Declared() && y in Declared() && regIndex[x] == regIndex[y] ensures x == y {
        assert x in Elements(orderedIDs) && y in Elements(orderedIDs);
        var i :| 0 <= i < |orderedIDs| && orderedIDs[i] == x;
        var j :| 0 <= j < |orderedIDs| && orderedIDs[j] == y;
      }
    }

    /** The published plan of a resolved registry, or the retained error. */
    method Execution() returns (plan: Option<Plan>, err: Option<RegistryError>)
      requires Valid()
      ensures plan.Some? <==> resolved && resolveErr.None?
      ensures plan.Some? ==> plan == compiled && err.None?
      ensures plan.None? ==> err == if resolved then resolveErr else Some(Unresolved)
    {
      if !resolved { return None, Some(Unresolved); }
      if resolveErr.Some? { return None, resolveErr; }
      return compiled, None;
    }
  }

  const DEFAULT_CONCURRENCY_CAP := 8

  function DefaultConcurrency(cpuCount: int): (r: int)
    ensures 1 <= r <= DEFAULT_CONCURRENCY_CAP
    ensures 1 <= cpuCount <= DEFAULT_CONCURRENCY_CAP ==> r == cpuCount
    ensures cpuCount < 1 ==> r == 1
    ensures cpuCount > DEFAULT_CONCURRENCY_CAP ==> r == DEFAULT_CONCURRENCY_CAP
  {
    var capped := if cpuCount < DEFAULT_CONCURRENCY_CAP then cpuCount else DEFAULT_CONCURRENCY_CAP;
    if capped < 1 then 1 else capped
  }

  /** What the orchestrator keeps. */
  datatype Orchestrator = Orchestrator(plan: Plan, maxConcurrency: int)

  /** The worker count of the last option; without options the default for the machine. */
  function ChosenConcurrency(options: seq<int>, cpuCount: int): int {
    if options == [] then DefaultConcurrency(cpuCount) else options[|options| - 1]
  }

  /**
   Construction resolves the registry once all options are accepted. An orchestrator that comes into being has at
   least one worker and a valid acyclic plan, which is what the scheduler's theorems require. `options` are the
   arguments of WithMaxConcurrency, the only option.
   */
  method NewOrchestrator(registry: Registry?, options: seq<int>, cpuCount: int)
    returns (o: Option<Orchestrator>, err: Option<RegistryError>)
    requires registry != null ==> registry.Valid()
    modifies registry
    ensures registry != null ==> registry.Valid()
    ensures o.Some? <==> err.None?
    ensures registry == null ==> err == Some(NilRegistry)
    ensures registry != null && (exists k :: 0 <= k < |options| && options[k] < 1) ==>
      err == Some(BadConcurrency) && unchanged(registry)
    ensures o.Some? ==> o.value.maxConcurrency == ChosenConcurrency(options, cpuCount) >= 1
    ensures o.Some? && options != [] ==> o.value.maxConcurrency == options[|options| - 1]
    ensures o.Some? && options == [] ==>
      o.value.maxConcurrency == if cpuCount < 1 then 1 else if cpuCount > 8 then 8 else cpuCount
    ensures o.Some? ==> o.value.plan.Valid() && o.value.plan.Acyclic()
    ensures o.Some? ==> Compiles(registry.orderedIDs, registry.Declared(), o.value.plan)
    ensures registry != null && !old(registry.resolved) && (forall k :: 0 <= k < |options| ==> options[k] >= 1) ==>
              (o.Some? <==> Closed(registry.Declared()) && !HasCycle(registry.Declared()))
  {
    if registry == null { return None, Some(NilRegistry); }
    var n := DefaultConcurrency(cpuCount);
    for k := 0 to |options|
      invariant n == ChosenConcurrency(options[..k], cpuCount) >= 1
      invariant forall j :: 0 <= j < k ==> options[j] >= 1
    {
      if options[k] < 1 { return None, Some(BadConcurrency); }
      n := options[k];
    }
    assert options[..|options|] == options;
    var failed := registry.Resolve();
    if failed.Some? { return None, failed; }
    var plan, unpublished := registry.Execution();
    if plan.None? { return None, unpublished; }
    return Some(Orchestrator(plan.value, n)), None;
  }
}
