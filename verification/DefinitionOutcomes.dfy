/**
 Which capability definitions make a catalog: NewRegistry of internal/capability/registry.go, read off the definitions.
 */
module DefinitionOutcomes {
  import opened Seqs
  import opened TopologicalOrder
  import opened CapabilityGraph
  import opened EvidenceModel
  import opened Dataset
  import opened CapabilityRegistry

  /** Definitions that can be registered one by one: named, described, with an evaluator, and no name twice. */
  lemma DefinitionsMean(ds: seq<Definition>)
    ensures ValidDefinitions(ds) <==>
      && (forall k :: 0 <= k < |ds| ==>
            ValidCapabilityID(ds[k].id) && ds[k].description != "" && ds[k].evaluator.Evaluator?)
      && (forall i, j :: 0 <= i < j < |ds| ==> ds[i].id != ds[j].id)
  {
    if ValidDefinitions(ds) {
      forall i, j | 0 <= i < j < |ds| ensures ds[i].id != ds[j].id {
        assert DefinitionIDs(ds)[i] != DefinitionIDs(ds)[j];
      }
    }
  }

  /** In a catalog every dependency is defined before what depends on it. */
  lemma CatalogMeans(ds: seq<Definition>, k: nat, dep: string)
    requires Catalog(ds) && k < |ds| && dep in ds[k].dependencies
    ensures exists j :: 0 <= j < k && ds[j].id == dep
  {
    EdgesOf(ds, k);
    assert DefinitionIDs(ds)[k] == ds[k].id;
    assert dep in DefinitionIDs(ds)[..k];
    var j :| 0 <= j < k && DefinitionIDs(ds)[..k][j] == dep;
    assert ds[j].id == dep;
  }

  /** Definitions that refer to each other in a circle. */
  ghost predicate DefinitionCircle(ds: seq<Definition>, c: seq<Definition>) {
    && |c| > 0 && (forall k :: 0 <= k < |c| ==> c[k] in ds)
    && (forall k :: 0 <= k < |c| - 1 ==> c[k + 1].id in c[k].dependencies) && c[0].id in c[|c| - 1].dependencies
  }

  function ReferencesIn(def: Definition): int { |def.dependencies| }

  predicate IsDefined(ds: seq<Definition>, id: string) {
    exists k :: 0 <= k < |ds| && ds[k].id == id
  }

  /** Dependencies that are defined and not repeated. */
  predicate RefersProperly(def: Definition, ds: seq<Definition>) {
    && (forall i, j :: 0 <= i < j < |def.dependencies| ==> def.dependencies[i] != def.dependencies[j])
    && (forall i :: 0 <= i < |def.dependencies| ==> IsDefined(ds, def.dependencies[i]))
  }

  /** The graph has a node for each definition, and no other, with its dependencies. */
  ghost predicate IsGraphOf(g: Graph<string>, ds: seq<Definition>) {
    && (forall k :: 0 <= k < |ds| ==> ds[k].id in g && g[ds[k].id] == ds[k].dependencies)
    && (forall x :: x in g ==> IsDefined(ds, x))
  }

  lemma EdgesAreGraph(ds: seq<Definition>)
    requires Distinct(DefinitionIDs(ds))
    ensures IsGraphOf(DefinitionEdges(ds), ds)
  {
    forall k | 0 <= k < |ds|
      ensures ds[k].id in DefinitionEdges(ds) && DefinitionEdges(ds)[ds[k].id] == ds[k].dependencies
    {
      EdgesOf(ds, k);
    }
    forall x | x in DefinitionEdges(ds) ensures IsDefined(ds, x) {
      var k :| 0 <= k < |ds| && DefinitionIDs(ds)[k] == x;
    }
  }

  ghost predicate ProperIn(g: Graph<string>, deps: seq<string>) {
    Distinct(deps) && forall dep :: dep in deps ==> dep in g
  }

  lemma DefinitionIsProper(g: Graph<string>, def: Definition, ds: seq<Definition>)
    requires IsGraphOf(g, ds)
    ensures RefersProperly(def, ds) <==> ProperIn(g, def.dependencies)
  {
    var deps := def.dependencies;
    forall i | 0 <= i < |deps| ensures deps[i] in deps && (deps[i] in g <==> IsDefined(ds, deps[i])) {}
  }

  lemma GraphIsProper(g: Graph<string>)
    ensures Closed(g) && UniqueDependencies(g) <==> forall x :: x in g ==> ProperIn(g, g[x])
  {
    if forall x :: x in g ==> ProperIn(g, g[x]) {
      forall x, dep | x in g && dep in g[x] ensures dep in g {
        assert ProperIn(g, g[x]);
      }
      forall x | x in g ensures Distinct(g[x]) {
        assert ProperIn(g, g[x]);
      }
    }
  }

  lemma ReferencesMean(g: Graph<string>, ds: seq<Definition>)
    requires IsGraphOf(g, ds)
    ensures Closed(g) && UniqueDependencies(g) <==> forall k :: 0 <= k < |ds| ==> RefersProperly(ds[k], ds)
  {
    GraphIsProper(g);
    forall k | 0 <= k < |ds| ensures RefersProperly(ds[k], ds) <==> ProperIn(g, g[ds[k].id]) {
      DefinitionIsProper(g, ds[k], ds);
    }
    if forall k :: 0 <= k < |ds| ==> RefersProperly(ds[k], ds) {
      forall x | x in g ensures ProperIn(g, g[x]) {
        var k :| 0 <= k < |ds| && ds[k].id == x;
        assert RefersProperly(ds[k], ds);
      }
    }
  }

  lemma {:induction false} UniqueEdges(x: string, deps: seq<string>)
    requires Distinct(deps)
    ensures |PrefixEdges(x, deps)| == |deps|
  {
    if deps == [] {
      assert PrefixEdges(x, deps) == {};
    } else {
      var front, last := deps[..|deps| - 1], deps[|deps| - 1];
      UniqueEdges(x, front);
      assert deps == front + [last] && last !in front;
      assert PrefixEdges(x, deps) == PrefixEdges(x, front) + {(x, last)};
    }
  }

  /** A graph with one node more has as many edges as before and as the node has dependencies. */
  lemma OneMoreNode(g: Graph<string>, id: string, deps: seq<string>)
    requires id !in g && Distinct(deps)
    ensures var h := g[id := deps]; |EdgeSet(h, h.Keys)| == |EdgeSet(g, g.Keys)| + |deps|
  {
    var h := g[id := deps];
    var earlier, more, all := EdgeSet(g, g.Keys), PrefixEdges(id, deps), EdgeSet(h, h.Keys);
    assert all == earlier + more;
    assert earlier !! more;
    UniqueEdges(id, deps);
  }

  lemma {:induction false} EdgesCounted(ds: seq<Definition>)
    requires Distinct(DefinitionIDs(ds)) && forall k :: 0 <= k < |ds| ==> Distinct(ds[k].dependencies)
    ensures |EdgeSet(DefinitionEdges(ds), DefinitionEdges(ds).Keys)| == SumBy(ds, ReferencesIn)
  {
    if ds == [] {
      assert EdgeSet(DefinitionEdges(ds), DefinitionEdges(ds).Keys) == {};
    } else {
      var front, last := ds[..|ds| - 1], ds[|ds| - 1];
      assert DefinitionIDs(ds) == DefinitionIDs(front) + [last.id];
      DistinctStep(DefinitionIDs(front), last.id);
      EdgesCounted(front);
      OneMoreNode(DefinitionEdges(front), last.id, last.dependencies);
      assert ds == front + [last];
      SumByConcat(front, [last], ReferencesIn);
      assert [last][1..] == [];
    }
  }

  lemma CircleHasCycle(g: Graph<string>, ds: seq<Definition>, c: seq<Definition>)
    requires IsGraphOf(g, ds) && DefinitionCircle(ds, c)
    ensures HasCycle(g)
  {
    var ids := seq(|c|, k requires 0 <= k < |c| => c[k].id);
    forall k | 0 <= k < |c| ensures ids[k] in g && g[ids[k]] == c[k].dependencies {
      var i :| 0 <= i < |ds| && ds[i] == c[k];
    }
    assert IsCycle(g, ids);
  }

  lemma CycleIsCircle(g: Graph<string>, ds: seq<Definition>, ids: seq<string>) returns (c: seq<Definition>)
    requires IsGraphOf(g, ds) && IsCycle(g, ids)
    ensures DefinitionCircle(ds, c)
  {
    c := Named(g, ds, ids);
    forall k | 0 <= k < |c| - 1 ensures c[k + 1].id in c[k].dependencies {
      assert ids[k + 1] in g[ids[k]];
    }
  }

  lemma {:induction false} Named(g: Graph<string>, ds: seq<Definition>, ids: seq<string>) returns (c: seq<Definition>)
    requires IsGraphOf(g, ds) && forall k :: 0 <= k < |ids| ==> ids[k] in g
    ensures |c| == |ids| && forall k :: 0 <= k < |c| ==>
      c[k] in ds && c[k].id == ids[k] && c[k].dependencies == g[ids[k]]
  {
    if ids == [] {
      c := [];
    } else {
      var front := Named(g, ds, ids[..|ids| - 1]);
      assert IsDefined(ds, ids[|ids| - 1]);
      var i :| 0 <= i < |ds| && ds[i].id == ids[|ids| - 1];
      c := front + [ds[i]];
    }
  }

  lemma CirclesAreCycles(g: Graph<string>, ds: seq<Definition>)
    requires IsGraphOf(g, ds)
    ensures HasCycle(g) <==> exists c :: DefinitionCircle(ds, c)
  {
    if c :| DefinitionCircle(ds, c) {
      CircleHasCycle(g, ds, c);
    }
    if ids :| IsCycle(g, ids) {
      var c := CycleIsCircle(g, ds, ids);
    }
  }

  lemma {:induction false} GraphSize(ds: seq<Definition>)
    requires Distinct(DefinitionIDs(ds))
    ensures |DefinitionEdges(ds)| == |ds|
  {
    if ds != [] {
      var front, last := ds[..|ds| - 1], ds[|ds| - 1];
      assert DefinitionIDs(ds) == DefinitionIDs(front) + [last.id];
      DistinctStep(DefinitionIDs(front), last.id);
      GraphSize(front);
      var g := DefinitionEdges(front);
      assert DefinitionEdges(ds).Keys == g.Keys + {last.id};
    }
  }

  lemma GraphMeans(g: Graph<string>, ds: seq<Definition>)
    requires IsGraphOf(g, ds) && |g| == |ds|
    requires (forall k :: 0 <= k < |ds| ==> Distinct(ds[k].dependencies)) ==>
      |EdgeSet(g, g.Keys)| == SumBy(ds, ReferencesIn)
    ensures Acceptable(g) <==>
      && (forall k :: 0 <= k < |ds| ==> RefersProperly(ds[k], ds))
      && |ds| <= 4096 && SumBy(ds, ReferencesIn) <= 16384 && (forall c :: !DefinitionCircle(ds, c))
  {
    ReferencesMean(g, ds);
    CirclesAreCycles(g, ds);
    if forall k :: 0 <= k < |ds| ==> RefersProperly(ds[k], ds) {
      forall k | 0 <= k < |ds| ensures Distinct(ds[k].dependencies) {
        assert RefersProperly(ds[k], ds);
      }
    }
  }

  /**
   Definitions make a catalog when each is valid, no name occurs twice, dependencies are defined and not repeated, there
   are at most 4096 definitions and 16384 dependencies, and none depends on itself in the end.
   */
  lemma RegistrableMeans(ds: seq<Definition>)
    ensures ValidDefinitions(ds) && Acceptable(DefinitionEdges(ds)) <==>
      && (forall k :: 0 <= k < |ds| ==>
            ValidCapabilityID(ds[k].id) && ds[k].description != "" && ds[k].evaluator.Evaluator?)
      && (forall i, j :: 0 <= i < j < |ds| ==> ds[i].id != ds[j].id)
      && (forall k :: 0 <= k < |ds| ==> RefersProperly(ds[k], ds))
      && |ds| <= 4096 && SumBy(ds, ReferencesIn) <= 16384 && (forall c :: !DefinitionCircle(ds, c))
  {
    DefinitionsMean(ds);
    if ValidDefinitions(ds) {
      EdgesAreGraph(ds);
      GraphSize(ds);
      if forall k :: 0 <= k < |ds| ==> Distinct(ds[k].dependencies) {
        EdgesCounted(ds);
      }
      GraphMeans(DefinitionEdges(ds), ds);
    }
  }
}
