/** The catalog of capability definitions and its evaluation: internal/capability/registry.go. */
module CapabilityRegistry {
  import opened Seqs
  import opened Chains
  import opened TopologicalOrder
  import opened CapabilityGraph
  import opened EvidenceModel
  import opened Dataset
  import opened Resolver

  /** A definition's pure evaluator, or its absence. */
  datatype Evaluator = NoEvaluator | Evaluator(run: (Scope, seq<Observation>) -> seq<Evidence>)

  datatype Definition = Definition(id: string, description: string, dependencies: seq<string>, evaluator: Evaluator)

  datatype Evaluation = Evaluation(candidate: Candidate, resolutions: seq<Resolution>, diagnostics: seq<Diagnostic>)

  // --- Catalogs ---

  function DefinitionIDs(ds: seq<Definition>): (r: seq<string>)
    ensures |r| == |ds| && forall k :: 0 <= k < |ds| ==> r[k] == ds[k].id
  {
    seq(|ds|, k requires 0 <= k < |ds| => ds[k].id)
  }

  function DefinitionEdges(ds: seq<Definition>): (g: Graph<string>)
    ensures forall id :: id in g <==> id in DefinitionIDs(ds)
  {
    if ds == [] then map[]
    else
      var front, last := ds[..|ds| - 1], ds[|ds| - 1];
      assert DefinitionIDs(ds) == DefinitionIDs(front) + [last.id];
      DefinitionEdges(front)[last.id := last.dependencies]
  }

  function ByDefinitionID(ds: seq<Definition>): (m: map<string, Definition>)
    ensures forall id :: id in m <==> id in DefinitionIDs(ds)
    ensures forall id :: id in m ==> m[id].id == id && m[id].dependencies == DefinitionEdges(ds)[id]
  {
    if ds == [] then map[]
    else
      var front, last := ds[..|ds| - 1], ds[|ds| - 1];
      assert DefinitionIDs(ds) == DefinitionIDs(front) + [last.id];
      ByDefinitionID(front)[last.id := last]
  }

  ghost predicate Registered(d: Definition, ds: seq<Definition>) {
    exists k :: 0 <= k < |ds| && ds[k] == d
  }

  lemma {:induction false} IndexedIsRegistered(ds: seq<Definition>, id: string)
    requires id in ByDefinitionID(ds)
    ensures Registered(ByDefinitionID(ds)[id], ds)
  {
    var front, last := ds[..|ds| - 1], ds[|ds| - 1];
    if id == last.id {
      assert ds[|ds| - 1] == ByDefinitionID(ds)[id];
    } else {
      IndexedIsRegistered(front, id);
      var k :| 0 <= k < |front| && front[k] == ByDefinitionID(front)[id];
      assert ds[k] == ByDefinitionID(ds)[id];
    }
  }

  predicate ValidDefinition(d: Definition) {
    ValidCapabilityID(d.id) && d.description != "" && d.evaluator.Evaluator?
  }

  ghost predicate ValidDefinitions(ds: seq<Definition>) {
    (forall k :: 0 <= k < |ds| ==> ValidDefinition(ds[k])) && Distinct(DefinitionIDs(ds))
  }

  lemma ValidDefinitionsStep(ds: seq<Definition>, k: nat)
    requires k < |ds| && ValidDefinitions(ds[..k])
    ensures ValidDefinitions(ds[..k + 1]) <==> ValidDefinition(ds[k]) && ds[k].id !in DefinitionEdges(ds[..k])
  {
    assert DefinitionIDs(ds[..k + 1]) == DefinitionIDs(ds[..k]) + [ds[k].id];
    DistinctStep(DefinitionIDs(ds[..k]), ds[k].id);
    assert forall j :: 0 <= j < k ==> ds[..k + 1][j] == ds[..k][j];
    assert ds[..k + 1][k] == ds[k];
  }

  lemma ValidDefinitionsPrefix(ds: seq<Definition>, k: nat)
    requires k <= |ds| && ValidDefinitions(ds)
    ensures ValidDefinitions(ds[..k])
  {
    forall i, j | 0 <= i < j < k ensures DefinitionIDs(ds[..k])[i] != DefinitionIDs(ds[..k])[j] {
      assert DefinitionIDs(ds)[i] != DefinitionIDs(ds)[j];
    }
  }

  lemma OneMoreDefinition(ds: seq<Definition>, k: nat)
    requires k < |ds|
    ensures ByDefinitionID(ds[..k + 1]) == ByDefinitionID(ds[..k])[ds[k].id := ds[k]]
    ensures DefinitionEdges(ds[..k + 1]) == DefinitionEdges(ds[..k])[ds[k].id := ds[k].dependencies]
  {
    assert ds[..k + 1][..k] == ds[..k] && ds[..k + 1][k] == ds[k];
  }

  lemma BadDefinition(ds: seq<Definition>, k: nat)
    requires k < |ds| && ValidDefinitions(ds[..k])
    requires !ValidDefinition(ds[k]) || ds[k].id in ByDefinitionID(ds[..k])
    ensures !ValidDefinitions(ds)
  {
    ValidDefinitionsStep(ds, k);
    if ValidDefinitions(ds) {
      ValidDefinitionsPrefix(ds, k + 1);
    }
  }

  /** The first pass of NewRegistry. */
  method IndexDefinitions(ds: seq<Definition>) returns (ok: bool, byID: map<string, Definition>, edges: Graph<string>)
    ensures ok <==> ValidDefinitions(ds)
    ensures ok ==> byID == ByDefinitionID(ds) && edges == DefinitionEdges(ds)
  {
    byID, edges := map[], map[];
    var k := 0;
    while k < |ds|
      invariant 0 <= k <= |ds| && ValidDefinitions(ds[..k])
      invariant byID == ByDefinitionID(ds[..k]) && edges == DefinitionEdges(ds[..k])
    {
      var def := ds[k];
      if !ValidCapabilityID(def.id) || def.description == "" || def.evaluator.NoEvaluator? || def.id in byID {
        BadDefinition(ds, k);
        return false, byID, edges;
      }
      ValidDefinitionsStep(ds, k);
      OneMoreDefinition(ds, k);
      byID := byID[def.id := def];
      edges := edges[def.id := def.dependencies];
      k := k + 1;
    }
    assert ds[..k] == ds;
    return true, byID, edges;
  }

  /** What registration promises: valid definitions, dependencies first. */
  ghost predicate Catalog(ds: seq<Definition>) {
    && ValidDefinitions(ds) && |ds| <= MAX_GRAPH_ENTRIES
    && IsTopological(DefinitionEdges(ds), DefinitionIDs(ds))
  }

  /** The definitions that a list of identifiers names. */
  method InOrder(order: seq<string>, byID: map<string, Definition>) returns (ds: seq<Definition>)
    requires forall k :: 0 <= k < |order| ==> order[k] in byID && byID[order[k]].id == order[k]
    ensures |ds| == |order| && forall k :: 0 <= k < |ds| ==> ds[k] == byID[order[k]]
  {
    ds := [];
    var k := 0;
    while k < |order|
      invariant 0 <= k <= |order| == |order|
      invariant |ds| == k && forall j :: 0 <= j < k ==> ds[j] == byID[order[j]]
    {
      ds := ds + [byID[order[k]]];
      k := k + 1;
    }
  }

  lemma {:induction false} EdgesOf(ds: seq<Definition>, k: nat)
    requires Distinct(DefinitionIDs(ds)) && k < |ds|
    ensures ds[k].id in DefinitionEdges(ds) && DefinitionEdges(ds)[ds[k].id] == ds[k].dependencies
    decreases |ds|
  {
    var ids := DefinitionIDs(ds);
    var front := ds[..|ds| - 1];
    assert DefinitionIDs(front) == ids[..|ds| - 1];
    assert ids[k] == ds[k].id && ids[|ds| - 1] == ds[|ds| - 1].id;
    if k < |front| {
      assert front[k] == ds[k];
      EdgesOf(front, k);
    }
  }

  /** `sorted` lists the indexed definitions in the order `order`. */
  ghost predicate Rearranged(sorted: seq<Definition>, ds: seq<Definition>, order: seq<string>) {
    && DefinitionIDs(sorted) == order
    && forall k :: 0 <= k < |sorted| ==>
      sorted[k].id in ByDefinitionID(ds) && sorted[k] == ByDefinitionID(ds)[sorted[k].id]
  }

  lemma SameMaps<K, V>(m: map<K, V>, n: map<K, V>)
    requires m.Keys == n.Keys && forall k :: k in m ==> m[k] == n[k]
    ensures m == n
  {
  }

  /** Reordering the definitions keeps their graph. */
  lemma SameEdges(ds: seq<Definition>, sorted: seq<Definition>, order: seq<string>)
    requires Rearranged(sorted, ds, order) && Distinct(order) && Elements(order) == DefinitionEdges(ds).Keys
    ensures DefinitionEdges(sorted) == DefinitionEdges(ds)
  {
    var g, h := DefinitionEdges(ds), DefinitionEdges(sorted);
    assert h.Keys == Elements(order);
    forall id | id in h ensures h[id] == g[id] {
      SameEdgeOf(ds, sorted, order, id);
    }
    SameMaps(h, g);
  }

  lemma SameEdgeOf(ds: seq<Definition>, sorted: seq<Definition>, order: seq<string>, id: string)
    requires Rearranged(sorted, ds, order) && Distinct(order) && id in order
    ensures id in DefinitionEdges(sorted) && id in DefinitionEdges(ds)
      && DefinitionEdges(sorted)[id] == DefinitionEdges(ds)[id]
  {
    var k :| 0 <= k < |order| && order[k] == id;
    SameEdge(ds, sorted, order, k);
  }

  lemma SameEdge(ds: seq<Definition>, sorted: seq<Definition>, order: seq<string>, k: nat)
    requires Rearranged(sorted, ds, order) && Distinct(order) && k < |sorted|
    ensures order[k] in DefinitionEdges(sorted) && order[k] in DefinitionEdges(ds)
    ensures DefinitionEdges(sorted)[order[k]] == DefinitionEdges(ds)[order[k]]
  {
    EdgesOf(sorted, k);
    assert sorted[k].id == order[k];
  }

  lemma RearrangedIsCatalog(ds: seq<Definition>, sorted: seq<Definition>, order: seq<string>)
    requires ValidDefinitions(ds) && |order| <= MAX_GRAPH_ENTRIES
    requires Rearranged(sorted, ds, order) && IsTopological(DefinitionEdges(ds), order)
    ensures Catalog(sorted) && DefinitionEdges(sorted) == DefinitionEdges(ds)
    ensures forall k :: 0 <= k < |sorted| ==> Registered(sorted[k], ds)
  {
    SameEdges(ds, sorted, order);
    DistinctSize(order);
    forall k | 0 <= k < |sorted| ensures Registered(sorted[k], ds) && ValidDefinition(sorted[k]) {
      IndexedIsRegistered(ds, sorted[k].id);
    }
  }

  /** Dependencies first, and among such orders the least one by name. */
  ghost predicate LeastOrder(g: Graph<string>, order: seq<string>) {
    Ranking(g, NameRank(g)) && Greedy(g, NameRank(g), order)
  }

  method OrderDefinitions(ghost ds: seq<Definition>, byID: map<string, Definition>, edges: Graph<string>)
    returns (ok: bool, sorted: seq<Definition>)
    requires ValidDefinitions(ds) && byID == ByDefinitionID(ds) && edges == DefinitionEdges(ds)
    ensures ok <==> Acceptable(edges)
    ensures ok ==> IsTopological(edges, DefinitionIDs(sorted)) && LeastOrder(edges, DefinitionIDs(sorted))
    ensures ok ==> Rearranged(sorted, ds, DefinitionIDs(sorted))
  {
    var order;
    ok, order := SortGraph(edges);
    if !ok { return false, []; }
    OrderIsIndexed(ds, order);
    sorted := InOrder(order, byID);
    ListedIsRearranged(ds, order, sorted);
  }

  lemma ListedIsRearranged(ds: seq<Definition>, order: seq<string>, sorted: seq<Definition>)
    requires forall k :: 0 <= k < |order| ==> order[k] in ByDefinitionID(ds)
    requires |sorted| == |order| && forall k :: 0 <= k < |order| ==> sorted[k] == ByDefinitionID(ds)[order[k]]
    ensures DefinitionIDs(sorted) == order && Rearranged(sorted, ds, order)
  {
  }

  lemma OrderIsIndexed(ds: seq<Definition>, order: seq<string>)
    requires IsTopological(DefinitionEdges(ds), order)
    ensures forall k :: 0 <= k < |order| ==>
      order[k] in ByDefinitionID(ds) && ByDefinitionID(ds)[order[k]].id == order[k]
  {
    forall k | 0 <= k < |order| ensures order[k] in ByDefinitionID(ds) {
      assert order[k] in Elements(order);
    }
  }

  method SortGraph(edges: Graph<string>) returns (ok: bool, order: seq<string>)
    ensures ok <==> Acceptable(edges)
    ensures ok ==> IsTopological(edges, order) && LeastOrder(edges, order)
  {
    var result := Topological(edges);
    if !result.Ordered? { return false, []; }
    return true, result.order;
  }

  /**
   Registration succeeds exactly for valid definitions whose graph is acceptable; it orders them dependencies
   first, and among those orders takes the least one by name.
   */
  method NewRegistry(definitions: seq<Definition>) returns (registry: Registry?)
    ensures registry != null <==> ValidDefinitions(definitions) && Acceptable(DefinitionEdges(definitions))
    ensures registry != null ==>
      && Catalog(registry.definitions)
      && DefinitionEdges(registry.definitions) == DefinitionEdges(definitions)
      && (forall k :: 0 <= k < |registry.definitions| ==> Registered(registry.definitions[k], definitions))
      && LeastOrder(DefinitionEdges(definitions), DefinitionIDs(registry.definitions))
  {
    var ok, byID, edges := IndexDefinitions(definitions);
    if !ok { return null; }
    var ordered, ds := OrderDefinitions(definitions, byID, edges);
    if !ordered { return null; }
    DistinctSize(DefinitionIDs(ds));
    assert |DefinitionIDs(ds)| == |edges|;
    RearrangedIsCatalog(definitions, ds, DefinitionIDs(ds));
    registry := new Registry(ds);
  }

  // --- One definition ---

  predicate SupportedIn(dep: string, resolved: map<string, Capability>) {
    dep in resolved && resolved[dep].state == Supported
  }

  /** Why a definition cannot be evaluated yet: its first unsupported dependency. */
  function Prerequisite(deps: seq<string>, resolved: map<string, Capability>): (reason: string)
    ensures reason == "" <==> forall k :: 0 <= k < |deps| ==> SupportedIn(deps[k], resolved)
  {
    if deps == [] then ""
    else if !SupportedIn(deps[0], resolved) then "prerequisite " + deps[0] + " is not supported"
    else
      assert deps == [deps[0]] + deps[1..];
      Prerequisite(deps[1..], resolved)
  }

  method MissingPrerequisite(def: Definition, resolved: map<string, Capability>) returns (reason: string)
    ensures reason == Prerequisite(def.dependencies, resolved)
  {
    var k := 0;
    while k < |def.dependencies|
      invariant 0 <= k <= |def.dependencies|
      invariant Prerequisite(def.dependencies, resolved) == Prerequisite(def.dependencies[k..], resolved)
    {
      var dep := def.dependencies[k];
      assert def.dependencies[k..][1..] == def.dependencies[k + 1..];
      if dep !in resolved || resolved[dep].state != Supported {
        return "prerequisite " + dep + " is not supported";
      }
      k := k + 1;
    }
    return "";
  }

  function Reason(def: Definition, resolved: map<string, Capability>, observed: bool): string {
    if !observed then "execution or target identity is unobserved" else Prerequisite(def.dependencies, resolved)
  }

  function Missing(id: string, scope: Scope, reason: string): Resolution {
    Resolution(Capability(scope, id, UnknownState, UnknownConfidence, reason, []), [],
               [Diagnostic("missing_prerequisite", reason, id)])
  }

  predicate OwnClaims(es: seq<Evidence>, id: string, scope: Scope) {
    forall k :: 0 <= k < |es| ==> es[k].claim == id && es[k].scope == scope
  }

  /** Evaluating `def` on top of `d` gives `res` and leaves the dataset with `after` as its evidence. */
  ghost predicate Evaluates(def: Definition, scope: Scope, d: Dataset, resolved: map<string, Capability>,
                            observed: bool,
                            res: Resolution, after: seq<Evidence>) {
    var reason := Reason(def, resolved, observed);
    if reason != "" then res == Missing(def.id, scope, reason) && after == d.evidence
    else
      && def.evaluator.Evaluator?
      && var generated := def.evaluator.run(scope, d.observations);
        && OwnClaims(generated, def.id, scope)
        && after == d.evidence + generated
        && ValidDataset(d.(evidence := after))
        && ResolvesFrom(res, after, scope, def.id, d.at)
  }

  // --- The whole catalog ---

  function CapabilitiesOf(rs: seq<Resolution>): (cs: seq<Capability>)
    ensures |cs| == |rs| && forall k :: 0 <= k < |rs| ==> cs[k] == rs[k].capability
  {
    if rs == [] then [] else CapabilitiesOf(rs[..|rs| - 1]) + [rs[|rs| - 1].capability]
  }

  function ResolvedSoFar(rs: seq<Resolution>): map<string, Capability> {
    if rs == [] then map[] else ResolvedSoFar(rs[..|rs| - 1])[rs[|rs| - 1].capability.id := rs[|rs| - 1].capability]
  }

  function AllDiagnostics(rs: seq<Resolution>): seq<Diagnostic> {
    if rs == [] then [] else AllDiagnostics(rs[..|rs| - 1]) + rs[|rs| - 1].diagnostics
  }

  /** The evidence in scope, in order. */
  function InScope(es: seq<Evidence>, scope: Scope): (r: seq<Evidence>)
    ensures |r| <= |es|
  {
    if es == [] then []
    else
      var front, last := InScope(es[..|es| - 1], scope), es[|es| - 1];
      if last.scope == scope then front + [last] else front
  }

  lemma {:induction false} InScopeMembers(es: seq<Evidence>, scope: Scope)
    ensures forall ev :: ev in InScope(es, scope) <==> ev in es && ev.scope == scope
  {
    if es != [] {
      InScopeMembers(es[..|es| - 1], scope);
      assert es == es[..|es| - 1] + [es[|es| - 1]];
    }
  }

  /** One definition of the catalog as a step on the evidence. */
  ghost function StepOf(scope: Scope, d: Dataset, observed: bool): Step<Definition, Resolution, seq<Evidence>> {
    (def, before, evidence, res, after) =>
      Evaluates(def, scope, d.(evidence := evidence), ResolvedSoFar(before), observed, res, after)
  }

  /** Evaluating the definitions in turn gives `rs` and leaves `after` as the evidence. */
  ghost predicate EvaluatesAll(ds: seq<Definition>, scope: Scope, d: Dataset, observed: bool, rs: seq<Resolution>,
                               after: seq<Evidence>) {
    Chain(ds, StepOf(scope, d, observed), d.evidence, rs, after)
  }

  method EvaluateDefinition(def: Definition, scope: Scope, data: Dataset, before: seq<Evidence>,
                            resolved: map<string, Capability>,
                            observed: bool, ghost earlier: seq<Resolution>)
    returns (ok: bool, resolution: Resolution, evidence: seq<Evidence>)
    requires ValidDefinition(def) && resolved == ResolvedSoFar(earlier)
    ensures ok ==> StepOf(scope, data, observed)(def, earlier, before, resolution, evidence)
    ensures !ok ==> NoStep(def, StepOf(scope, data, observed), earlier, before)
  {
    resolution, evidence := Missing(def.id, scope, ""), before;
    var reason := MissingPrerequisite(def, resolved);
    if !observed {
      reason := "execution or target identity is unobserved";
    }
    if reason != "" {
      return true, Missing(def.id, scope, reason), before;
    }
    var generated := def.evaluator.run(scope, data.observations);
    var own := CheckClaims(generated, def.id, scope);
    if !own { return false, resolution, evidence; }
    evidence := before + generated;
    ok := ValidateDataset(data.(evidence := evidence));
    if !ok { return; }
    resolution := Resolve(scope, def.id, data.at, evidence);
  }

  method CheckClaims(generated: seq<Evidence>, id: string, scope: Scope) returns (own: bool)
    ensures own <==> OwnClaims(generated, id, scope)
  {
    var k := 0;
    while k < |generated|
      invariant 0 <= k <= |generated| && forall j :: 0 <= j < k ==>
        generated[j].claim == id && generated[j].scope == scope
    {
      if generated[k].claim != id || generated[k].scope != scope {
        return false;
      }
      k := k + 1;
    }
    return true;
  }

  /** The context that a scope names, and whether both of its identities are known. */
  predicate NamesContext(d: Dataset, scope: Scope) {
    exists k :: 0 <= k < |d.contexts| && d.contexts[k].id == scope.contextID
  }

  ghost predicate IdentityObserved(d: Dataset, scope: Scope, observed: bool) {
    forall k :: 0 <= k < |d.contexts| && d.contexts[k].id == scope.contextID ==>
      observed == (d.contexts[k].currentObserved && d.contexts[k].targetObserved)
  }

  /** A candidate's evaluation, as a relation between the inputs and the result. */
  ghost predicate IsEvaluation(ds: seq<Definition>, scope: Scope, d: Dataset, e: Evaluation) {
    && scope.IsValid() && scope.runID == d.runID && ValidDataset(d) && NamesContext(d, scope)
    && exists observed, after :: IsResult(ds, scope, d, e, observed, after)
  }

  ghost predicate IsResult(ds: seq<Definition>, scope: Scope, d: Dataset, e: Evaluation, observed: bool,
                           after: seq<Evidence>) {
    && IdentityObserved(d, scope, observed)
    && EvaluatesAll(ds, scope, d, observed, e.resolutions, after)
    && e.candidate == Candidate(scope, CapabilitiesOf(e.resolutions), InScope(after, scope))
    && e.diagnostics == AllDiagnostics(e.resolutions)
  }

  class Registry {
    const definitions: seq<Definition>

    constructor (definitions: seq<Definition>)
      ensures this.definitions == definitions
    {
      this.definitions := definitions;
    }

    /** Evaluation succeeds exactly when the relation has a result, and returns it. */
    method Evaluate(scope: Scope, data: Dataset) returns (ok: bool, result: Evaluation)
      requires Catalog(definitions)
      ensures ok ==> IsEvaluation(definitions, scope, data, result)
      ensures !ok ==> forall e :: !IsEvaluation(definitions, scope, data, e)
    {
      result := Evaluation(Candidate(scope, [], []), [], []);
      if !scope.IsValid() || scope.runID != data.runID { return false, result; }
      var valid := ValidateDataset(data);
      if !valid { return false, result; }
      var found, observed := FindContext(data, scope);
      if !found { return false, result; }
      var resolutions, diagnostics, evidence;
      ok, resolutions, diagnostics, evidence := EvaluateAll(definitions, scope, data, observed);
      if !ok {
        forall e, other, after ensures !IsResult(definitions, scope, data, e, other, after) {
          assert IdentityObserved(data, scope, other) ==> other == observed;
        }
        return;
      }
      var inScope := FilterScope(evidence, scope);
      result := Evaluation(Candidate(scope, CapabilitiesOf(resolutions), inScope), resolutions, diagnostics);
      assert IsResult(definitions, scope, data, result, observed, evidence);
    }
  }

  /** The scan keeps the last match; with distinct identifiers it is the only one. */
  method FindContext(d: Dataset, scope: Scope) returns (found: bool, observed: bool)
    requires Distinct(ContextIDs(d.contexts))
    ensures found <==> NamesContext(d, scope)
    ensures found ==> IdentityObserved(d, scope, observed)
  {
    found, observed := false, false;
    ghost var ids := ContextIDs(d.contexts);
    var k := 0;
    while k < |d.contexts|
      invariant 0 <= k <= |d.contexts|
      invariant found <==> exists j :: 0 <= j < k && d.contexts[j].id == scope.contextID
      invariant forall j :: 0 <= j < k && d.contexts[j].id == scope.contextID ==>
        observed == (d.contexts[j].currentObserved && d.contexts[j].targetObserved)
    {
      if d.contexts[k].id == scope.contextID {
        assert ids[k] == scope.contextID;
        assert forall j :: 0 <= j < k ==> ids[j] == d.contexts[j].id && ids[j] != ids[k];
        found := true;
        observed := d.contexts[k].currentObserved && d.contexts[k].targetObserved;
      }
      k := k + 1;
    }
  }

  lemma OneMoreInScope(es: seq<Evidence>, k: nat, scope: Scope)
    requires k < |es|
    ensures InScope(es[..k + 1], scope) == if es[k].scope == scope then InScope(es[..k], scope) + [es[k]]
      else InScope(es[..k], scope)
  {
    assert es[..k + 1][..k] == es[..k];
  }

  method FilterScope(es: seq<Evidence>, scope: Scope) returns (r: seq<Evidence>)
    ensures r == InScope(es, scope)
  {
    r := [];
    var k := 0;
    while k < |es|
      invariant 0 <= k <= |es| && r == InScope(es[..k], scope)
    {
      OneMoreInScope(es, k, scope);
      if es[k].scope == scope {
        r := r + [es[k]];
      }
      k := k + 1;
    }
    assert es[..k] == es;
  }

  // --- Determinism ---

  lemma ValidIDsDistinct(d: Dataset)
    requires ValidDataset(d)
    ensures DistinctIDs(d.evidence)
  {
    forall i, j | 0 <= i < j < |d.evidence| ensures d.evidence[i].id != d.evidence[j].id {
      assert EvidenceIDs(d.evidence)[i] != EvidenceIDs(d.evidence)[j];
    }
  }

  /** One definition has at most one evaluation, however the sort breaks ties. */
  lemma OneEvaluation(def: Definition, scope: Scope, d: Dataset, resolved: map<string, Capability>, observed: bool,
                      r1: Resolution, a1: seq<Evidence>, r2: Resolution, a2: seq<Evidence>)
    requires Evaluates(def, scope, d, resolved, observed, r1, a1)
      && Evaluates(def, scope, d, resolved, observed, r2, a2)
    ensures r1 == r2 && a1 == a2
  {
    if Reason(def, resolved, observed) == "" {
      ValidIDsDistinct(d.(evidence := a1));
      var s1 :| SortedByID(s1) && multiset(s1) == multiset(a1) && r1 == Resolved(s1, scope, def.id, d.at);
      var s2 :| SortedByID(s2) && multiset(s2) == multiset(a2) && r2 == Resolved(s2, scope, def.id, d.at);
      OrderDoesNotMatter(a1, s1, a2, s2, scope, def.id, d.at);
    }
  }

  lemma StepIsDeterministic(scope: Scope, d: Dataset, observed: bool)
    ensures Deterministic(StepOf(scope, d, observed))
  {
    var step := StepOf(scope, d, observed);
    forall def, before, s, r1, e1, r2, e2 | step(def, before, s, r1, e1) && step(def, before, s, r2, e2)
      ensures r1 == r2 && e1 == e2
    {
      OneEvaluation(def, scope, d.(evidence := s), ResolvedSoFar(before), observed, r1, e1, r2, e2);
    }
  }

  /** A candidate has at most one evaluation: no order of evidence, sorting or map iteration shows in it. */
  lemma EvaluationIsDeterministic(ds: seq<Definition>, scope: Scope, d: Dataset, e1: Evaluation, e2: Evaluation)
    requires IsEvaluation(ds, scope, d, e1) && IsEvaluation(ds, scope, d, e2)
    ensures e1 == e2
  {
    var o1, a1 :| IsResult(ds, scope, d, e1, o1, a1);
    var o2, a2 :| IsResult(ds, scope, d, e2, o2, a2);
    StepIsDeterministic(scope, d, o1);
    OneChain(ds, StepOf(scope, d, o1), d.evidence, e1.resolutions, a1, e2.resolutions, a2);
  }

  lemma OneMoreResolution(rs: seq<Resolution>, r: Resolution)
    ensures ResolvedSoFar(rs + [r]) == ResolvedSoFar(rs)[r.capability.id := r.capability]
    ensures AllDiagnostics(rs + [r]) == AllDiagnostics(rs) + r.diagnostics
  {
    assert (rs + [r])[..|rs|] == rs;
  }

  method EvaluateAll(ds: seq<Definition>, scope: Scope, data: Dataset, observed: bool)
    returns (ok: bool, resolutions: seq<Resolution>, diagnostics: seq<Diagnostic>, evidence: seq<Evidence>)
    requires ValidDefinitions(ds)
    ensures ok ==>
      && EvaluatesAll(ds, scope, data, observed, resolutions, evidence)
      && diagnostics == AllDiagnostics(resolutions)
    ensures !ok ==> NoChain(ds, StepOf(scope, data, observed), data.evidence)
  {
    ghost var step := StepOf(scope, data, observed);
    resolutions, diagnostics, evidence := [], [], data.evidence;
    var resolved := map[];
    var k := 0;
    while k < |ds|
      invariant 0 <= k <= |ds|
      invariant Chain(ds[..k], step, data.evidence, resolutions, evidence)
      invariant resolved == ResolvedSoFar(resolutions) && diagnostics == AllDiagnostics(resolutions)
    {
      var done, resolution, after := EvaluateDefinition(ds[k], scope, data, evidence, resolved, observed, resolutions);
      if !done {
        StepIsDeterministic(scope, data, observed);
        StoppedChain(ds, k, step, data.evidence, resolutions, evidence);
        return false, resolutions, diagnostics, evidence;
      }
      ExtendChain(ds, k, step, data.evidence, resolutions, evidence, resolution, after);
      OneMoreResolution(resolutions, resolution);
      resolved := resolved[resolution.capability.id := resolution.capability];
      resolutions := resolutions + [resolution];
      diagnostics := diagnostics + resolution.diagnostics;
      evidence := after;
      k := k + 1;
    }
    assert ds[..k] == ds;
    return true, resolutions, diagnostics, evidence;
  }
}
