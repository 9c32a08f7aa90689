/**
 What an acceptable dataset is, written out over its records: which contexts, observations, facts and evidence pass the
 validation of internal/capability/graph.go, and how they must fit together.
 */
module DatasetOutcomes {
  import opened Seqs
  import opened TopologicalOrder
  import opened CapabilityGraph
  import opened EvidenceModel
  import opened Dataset

  predicate WellScoped(scope: Scope) {
    scope.runID != "" && scope.contextID != "" && (scope.runtime == "" <==> scope.endpoint == "")
  }

  predicate KnownCompleteness(c: Completeness) {
    c == Complete || c == Partial || c == Unobserved
  }

  // --- Contexts ---

  predicate WellFormedContext(c: EvaluationContext) {
    && c.identityValid && c.id != ""
    && (forall k :: 0 <= k < |c.namespaces| ==> c.namespaces[k].kind != "" && c.namespaces[k].id != "")
    && (forall i, j :: 0 <= i < j < |c.namespaces| ==> c.namespaces[i].kind != c.namespaces[j].kind)
  }

  predicate WellFormedContexts(cs: seq<EvaluationContext>) {
    && (forall k :: 0 <= k < |cs| ==> WellFormedContext(cs[k]))
    && (forall i, j :: 0 <= i < j < |cs| ==> cs[i].id != cs[j].id)
  }

  lemma NamespacesMean(ns: seq<Namespace>)
    ensures ValidNamespaces(ns) <==>
      && (forall k :: 0 <= k < |ns| ==> ns[k].kind != "" && ns[k].id != "")
      && (forall i, j :: 0 <= i < j < |ns| ==> ns[i].kind != ns[j].kind)
  {
    if ValidNamespaces(ns) {
      forall i, j | 0 <= i < j < |ns| ensures ns[i].kind != ns[j].kind {
        assert Kinds(ns)[i] != Kinds(ns)[j];
      }
    }
  }

  lemma ContextsMean(cs: seq<EvaluationContext>)
    ensures ValidContexts(cs) <==> WellFormedContexts(cs)
  {
    forall k | 0 <= k < |cs|
      ensures WellFormedContext(cs[k]) <==> cs[k].identityValid && cs[k].id != "" && ValidNamespaces(cs[k].namespaces)
    {
      NamespacesMean(cs[k].namespaces);
    }
    if ValidContexts(cs) {
      forall i, j | 0 <= i < j < |cs| ensures cs[i].id != cs[j].id {
        assert ContextIDs(cs)[i] != ContextIDs(cs)[j];
      }
    }
  }

  predicate HasContext(cs: seq<EvaluationContext>, id: string) {
    exists k :: 0 <= k < |cs| && cs[k].id == id
  }

  lemma ContextIsKnown(cs: seq<EvaluationContext>, id: string)
    ensures id in Elements(ContextIDs(cs)) <==> HasContext(cs, id)
  {
    if k :| 0 <= k < |cs| && cs[k].id == id {
      assert ContextIDs(cs)[k] == id;
    }
  }

  // --- Observations and facts ---

  /** A fact of an observation: named, sourced, of its scope, no later, and complete when the observation is. */
  predicate WellFormedFact(f: Fact, o: Observation) {
    && f.id != "" && f.source != "" && f.scope == o.scope && f.timestamp != 0 && f.timestamp <= o.timestamp
    && KnownCompleteness(f.completeness) && (o.completeness == Complete ==> f.completeness == Complete)
  }

  predicate WellFormedObservation(o: Observation, cs: seq<EvaluationContext>) {
    && o.id != "" && o.probeID != "" && o.timestamp != 0 && WellScoped(o.scope) && HasContext(cs, o.scope.contextID)
    && KnownCompleteness(o.completeness) && o.facts != []
    && forall k :: 0 <= k < |o.facts| ==> WellFormedFact(o.facts[k], o)
  }

  predicate IsFact(os: seq<Observation>, i: int, a: int) {
    0 <= i < |os| && 0 <= a < |os[i].facts|
  }

  /** No two facts, of one observation or of two, share an identifier. */
  ghost predicate DistinctFacts(os: seq<Observation>) {
    forall i, a, j, b :: IsFact(os, i, a) && IsFact(os, j, b) && (i != j || a != b) ==>
      os[i].facts[a].id != os[j].facts[b].id
  }

  function FactCount(o: Observation): int { |o.facts| }

  ghost predicate WellFormedObservations(os: seq<Observation>, cs: seq<EvaluationContext>) {
    && (forall k :: 0 <= k < |os| ==> WellFormedObservation(os[k], cs))
    && (forall i, j :: 0 <= i < j < |os| ==> os[i].id != os[j].id)
    && DistinctFacts(os) && SumBy(os, FactCount) <= 4096
  }

  lemma DistinctConcat(a: seq<string>, b: seq<string>)
    ensures Distinct(a + b) <==> Distinct(a) && Distinct(b) && forall x :: x in a ==> x !in b
  {
    var s := a + b;
    if Distinct(s) {
      forall i, j | 0 <= i < j < |a| ensures a[i] != a[j] {
        assert s[i] != s[j];
      }
      forall i, j | 0 <= i < j < |b| ensures b[i] != b[j] {
        assert s[|a| + i] != s[|a| + j];
      }
      forall i, j | 0 <= i < |a| && 0 <= j < |b| ensures a[i] != b[j] {
        assert s[i] != s[|a| + j];
      }
    }
    if Distinct(a) && Distinct(b) && forall x :: x in a ==> x !in b {
      forall i, j | 0 <= i < j < |s| ensures s[i] != s[j] {
        if i < |a| && j >= |a| {
          assert a[i] in a && s[j] == b[j - |a|];
        }
      }
    }
  }

  lemma {:induction false} FactsListed(os: seq<Observation>, id: string)
    ensures id in AllFactIDs(os) <==> exists i, a :: IsFact(os, i, a) && os[i].facts[a].id == id
  {
    if os != [] {
      var n := |os| - 1;
      FactsListed(os[..n], id);
      if id in FactIDs(os[n].facts) {
        var a :| 0 <= a < |os[n].facts| && FactIDs(os[n].facts)[a] == id;
        assert IsFact(os, n, a) && os[n].facts[a].id == id;
      }
      if i, a :| IsFact(os[..n], i, a) && os[..n][i].facts[a].id == id {
        assert IsFact(os, i, a) && os[i].facts[a].id == id;
      }
      if i, a :| IsFact(os, i, a) && os[i].facts[a].id == id {
        if i < n {
          assert IsFact(os[..n], i, a) && os[..n][i].facts[a].id == id;
        } else {
          assert FactIDs(os[n].facts)[a] == id;
        }
      }
    }
  }

  lemma {:induction false} DistinctFactsMean(os: seq<Observation>)
    ensures Distinct(AllFactIDs(os)) <==> DistinctFacts(os)
  {
    if os != [] {
      var n := |os| - 1;
      var front, last := os[..n], os[n];
      DistinctFactsMean(front);
      DistinctConcat(AllFactIDs(front), FactIDs(last.facts));
      LastFactsDiffer(os);
    }
  }

  lemma LastFactsDiffer(os: seq<Observation>)
    requires os != []
    ensures var front, last := os[..|os| - 1], os[|os| - 1];
      DistinctFacts(os) <==>
        && DistinctFacts(front) && Distinct(FactIDs(last.facts))
        && forall x :: x in AllFactIDs(front) ==> x !in FactIDs(last.facts)
  {
    var n := |os| - 1;
    var front, last := os[..n], os[n];
    var ids := FactIDs(last.facts);
    assert forall i :: 0 <= i < n ==> front[i] == os[i];
    if DistinctFacts(os) {
      forall a, b | 0 <= a < b < |ids| ensures ids[a] != ids[b] {
        assert IsFact(os, n, a) && IsFact(os, n, b);
      }
      forall x | x in AllFactIDs(front) ensures x !in ids {
        FactsListed(front, x);
        var i, a :| IsFact(front, i, a) && front[i].facts[a].id == x;
        forall b | 0 <= b < |ids| ensures ids[b] != x {
          assert IsFact(os, i, a) && IsFact(os, n, b);
        }
      }
      forall i, a, j, b | IsFact(front, i, a) && IsFact(front, j, b) && (i != j || a != b)
        ensures front[i].facts[a].id != front[j].facts[b].id
      {
        assert IsFact(os, i, a) && IsFact(os, j, b);
      }
    }
    if DistinctFacts(front) && Distinct(ids) && forall x :: x in AllFactIDs(front) ==> x !in ids {
      forall i, a, j, b | IsFact(os, i, a) && IsFact(os, j, b) && (i != j || a != b)
        ensures os[i].facts[a].id != os[j].facts[b].id
      {
        if i < n && j < n {
          assert IsFact(front, i, a) && IsFact(front, j, b);
        } else if i == n && j == n {
          assert ids[a] != ids[b];
        } else if i < n {
          assert IsFact(front, i, a);
          FactsListed(front, front[i].facts[a].id);
          assert ids[b] in ids;
        } else {
          assert IsFact(front, j, b);
          FactsListed(front, front[j].facts[b].id);
          assert ids[a] in ids;
        }
      }
    }
  }

  lemma {:induction false} FactsCounted(os: seq<Observation>)
    ensures |AllFactIDs(os)| == SumBy(os, FactCount)
  {
    if os != [] {
      var front, last := os[..|os| - 1], os[|os| - 1];
      FactsCounted(front);
      assert os == front + [last];
      SumByConcat(front, [last], FactCount);
      assert [last][1..] == [];
    }
  }

  lemma {:induction false} FactsMean(o: Observation, n: nat)
    requires n <= |o.facts|
    ensures ValidFactsTo(o, n) <==> forall k :: 0 <= k < n ==> WellFormedFact(o.facts[k], o)
  {
    if n > 0 {
      FactsMean(o, n - 1);
      assert ValidFact(o.facts[n - 1], o) <==> WellFormedFact(o.facts[n - 1], o);
    }
  }

  lemma ObservationsMean(os: seq<Observation>, cs: seq<EvaluationContext>)
    ensures ValidObservations(os, Elements(ContextIDs(cs))) <==> WellFormedObservations(os, cs)
  {
    var contexts := Elements(ContextIDs(cs));
    forall k | 0 <= k < |os|
      ensures WellFormedObservation(os[k], cs) <==> ValidMetadata(os[k], contexts) && ValidFacts(os[k])
    {
      ContextIsKnown(cs, os[k].scope.contextID);
      FactsMean(os[k], |os[k].facts|);
    }
    DistinctFactsMean(os);
    FactsCounted(os);
    if Distinct(ObservationIDs(os)) {
      forall i, j | 0 <= i < j < |os| ensures os[i].id != os[j].id {
        assert ObservationIDs(os)[i] != ObservationIDs(os)[j];
      }
    }
  }

  // --- Evidence ---

  /** The observation that a reference names fits the evidence. */
  predicate FitsReference(o: Observation, ref: ObservationRef, ev: Evidence) {
    && o.id == ref.id && o.probeID == ref.probeID && o.scope == ev.scope && o.timestamp <= ev.timestamp
    && (ev.completeness == Complete ==> o.completeness == Complete)
  }

  /** The evidence that a dependency names fits the evidence that depends on it. */
  predicate FitsDependency(e: Evidence, id: string, ev: Evidence) {
    && e.id == id && e.scope == ev.scope && e.timestamp <= ev.timestamp
    && (ev.completeness == Complete ==> e.completeness == Complete)
  }

  /** A record with canonical fields in a known context. */
  predicate WellFormedRecord(ev: Evidence, cs: seq<EvaluationContext>) {
    && ev.id != "" && ev.source != "" && ValidCapabilityID(ev.claim) && 1 <= ev.precedence <= 5 && ev.timestamp != 0
    && WellScoped(ev.scope) && HasContext(cs, ev.scope.contextID) && KnownCompleteness(ev.completeness)
    && (ev.state == Supported || ev.state == Unsupported || ev.state == Misconfigured || ev.state == Unavailable
        || ev.state == UnknownState)
    && (ev.confidence == Verified || ev.confidence == Derived || ev.confidence == Heuristic
        || ev.confidence == UnknownConfidence)
  }

  predicate RefersProperly(ev: Evidence, os: seq<Observation>) {
    && ev.observations != []
    && (forall i, j :: 0 <= i < j < |ev.observations| ==> ev.observations[i].id != ev.observations[j].id)
    && (forall k :: 0 <= k < |ev.observations| ==> ReferenceHolds(os, ev.observations[k], ev))
  }

  predicate ReferenceHolds(os: seq<Observation>, ref: ObservationRef, ev: Evidence) {
    exists k :: 0 <= k < |os| && FitsReference(os[k], ref, ev)
  }

  predicate DependsProperly(ev: Evidence, es: seq<Evidence>) {
    && (forall i, j :: 0 <= i < j < |ev.dependsOn| ==> ev.dependsOn[i] != ev.dependsOn[j])
    && (forall k :: 0 <= k < |ev.dependsOn| ==> DependencyHolds(es, ev.dependsOn[k], ev))
  }

  predicate DependencyHolds(es: seq<Evidence>, id: string, ev: Evidence) {
    exists k :: 0 <= k < |es| && FitsDependency(es[k], id, ev)
  }

  /** Pieces of evidence that depend on each other in a circle. */
  ghost predicate SupportCircle(es: seq<Evidence>, c: seq<Evidence>) {
    && |c| > 0 && (forall k :: 0 <= k < |c| ==> c[k] in es)
    && (forall k :: 0 <= k < |c| - 1 ==> c[k + 1].id in c[k].dependsOn) && c[0].id in c[|c| - 1].dependsOn
  }

  function ReferencesOf(ev: Evidence): int { |ev.observations| + |ev.dependsOn| }

  /** Evidence whose records are well formed, refer to each other properly, and keep to the limit. */
  ghost predicate WellFormedEvidence(es: seq<Evidence>, cs: seq<EvaluationContext>, os: seq<Observation>) {
    && (forall i, j :: 0 <= i < j < |es| ==> es[i].id != es[j].id)
    && (forall k :: 0 <= k < |es| ==> WellFormedRecord(es[k], cs) && RefersProperly(es[k], os))
    && (forall k :: 0 <= k < |es| ==> DependsProperly(es[k], es))
    && SumBy(es, ReferencesOf) <= 16384
    && (forall c :: !SupportCircle(es, c))
  }

  ghost predicate WellFormedDataset(d: Dataset) {
    && d.runID != "" && d.at != 0 && |d.contexts| + |d.observations| + |d.evidence| <= 4096
    && WellFormedContexts(d.contexts)
    && WellFormedObservations(d.observations, d.contexts)
    && WellFormedEvidence(d.evidence, d.contexts, d.observations)
  }

  predicate DistinctObservations(os: seq<Observation>) {
    forall i, j :: 0 <= i < j < |os| ==> os[i].id != os[j].id
  }

  lemma {:induction false} ObservationFound(os: seq<Observation>, k: nat)
    requires k < |os| && DistinctObservations(os)
    ensures os[k].id in ObservationIndex(os) && ObservationIndex(os)[os[k].id] == os[k]
  {
    if k < |os| - 1 {
      ObservationFound(os[..|os| - 1], k);
    }
    assert ObservationIDs(os)[k] == os[k].id;
  }

  lemma ReferenceMeans(os: seq<Observation>, ref: ObservationRef, ev: Evidence)
    requires DistinctObservations(os)
    ensures ReferenceFits(ref, ev, ObservationIndex(os)) <==> ReferenceHolds(os, ref, ev)
  {
    if ReferenceFits(ref, ev, ObservationIndex(os)) {
      assert ref.id in Elements(ObservationIDs(os));
      var k :| 0 <= k < |os| && ObservationIDs(os)[k] == ref.id;
      ObservationFound(os, k);
    }
    if k :| 0 <= k < |os| && FitsReference(os[k], ref, ev) {
      ObservationFound(os, k);
    }
  }

  lemma ReferencesMean(ev: Evidence, os: seq<Observation>)
    requires DistinctObservations(os)
    ensures ev.observations != [] && ReferencesFit(ev, ObservationIndex(os)) <==> RefersProperly(ev, os)
  {
    forall k | 0 <= k < |ev.observations|
      ensures ReferenceFits(ev.observations[k], ev, ObservationIndex(os)) <==>
        ReferenceHolds(os, ev.observations[k], ev)
    {
      ReferenceMeans(os, ev.observations[k], ev);
    }
    if Distinct(RefIDs(ev.observations)) {
      forall i, j | 0 <= i < j < |ev.observations| ensures ev.observations[i].id != ev.observations[j].id {
        assert RefIDs(ev.observations)[i] != RefIDs(ev.observations)[j];
      }
    }
  }

  predicate DistinctRecords(es: seq<Evidence>) {
    forall i, j :: 0 <= i < j < |es| ==> es[i].id != es[j].id
  }

  lemma {:induction false} EvidenceFound(es: seq<Evidence>, k: nat)
    requires k < |es| && DistinctRecords(es)
    ensures es[k].id in ByID(es) && ByID(es)[es[k].id] == es[k]
  {
    if k < |es| - 1 {
      EvidenceFound(es[..|es| - 1], k);
      assert es[k].id != es[|es| - 1].id;
    }
  }

  lemma DependencyMeans(es: seq<Evidence>, id: string, ev: Evidence)
    requires DistinctRecords(es)
    ensures DependencyFits(id, ev, ByID(es)) <==> DependencyHolds(es, id, ev)
  {
    if DependencyFits(id, ev, ByID(es)) {
      var k :| 0 <= k < |es| && es[k] == ByID(es)[id];
    }
    if k :| 0 <= k < |es| && FitsDependency(es[k], id, ev) {
      EvidenceFound(es, k);
    }
  }

  ghost predicate ProperIn(index: map<string, Evidence>, ev: Evidence) {
    Distinct(ev.dependsOn) && forall dep :: dep in ev.dependsOn ==> DependencyFits(dep, ev, index)
  }

  lemma DependenciesAreProper(es: seq<Evidence>, ev: Evidence)
    requires DistinctRecords(es)
    ensures DependsProperly(ev, es) <==> ProperIn(ByID(es), ev)
  {
    var deps := ev.dependsOn;
    forall i | 0 <= i < |deps|
      ensures deps[i] in deps && (DependencyFits(deps[i], ev, ByID(es)) <==> DependencyHolds(es, deps[i], ev))
    {
      DependencyMeans(es, deps[i], ev);
    }
  }

  /** What holds of all evidence in the index holds of all evidence in the list. */
  lemma AllIndexed(es: seq<Evidence>)
    requires DistinctRecords(es)
    ensures (forall x :: x in ByID(es) ==> ProperIn(ByID(es), ByID(es)[x])) <==>
      forall k :: 0 <= k < |es| ==> ProperIn(ByID(es), es[k])
  {
    var index := ByID(es);
    forall k | 0 <= k < |es| ensures es[k].id in index && index[es[k].id] == es[k] {
      EvidenceFound(es, k);
    }
    forall x | x in index ensures exists k :: 0 <= k < |es| && es[k] == index[x] {
      var k :| 0 <= k < |es| && es[k] == index[x];
    }
  }

  lemma IndexIsProper(es: seq<Evidence>)
    ensures DependenciesFit(ByID(es)) && UniqueDependencies(Edges(es)) <==>
      forall x :: x in ByID(es) ==> ProperIn(ByID(es), ByID(es)[x])
  {
    var index := ByID(es);
    forall x | x in index ensures x in Edges(es) && Edges(es)[x] == index[x].dependsOn {}
    if forall x :: x in index ==> ProperIn(index, index[x]) {
      forall x, dep | x in index && dep in index[x].dependsOn ensures DependencyFits(dep, index[x], index) {
        assert ProperIn(index, index[x]);
      }
      forall x | x in Edges(es) ensures Distinct(Edges(es)[x]) {
        assert ProperIn(index, index[x]);
      }
    }
  }

  lemma DependenciesMean(es: seq<Evidence>)
    requires DistinctRecords(es)
    ensures DependenciesFit(ByID(es)) && UniqueDependencies(Edges(es)) <==>
      forall k :: 0 <= k < |es| ==> DependsProperly(es[k], es)
  {
    IndexIsProper(es);
    AllIndexed(es);
    forall k | 0 <= k < |es| ensures DependsProperly(es[k], es) <==> ProperIn(ByID(es), es[k]) {
      DependenciesAreProper(es, es[k]);
    }
  }

  // --- Limits and circles ---

  lemma {:induction false} ReferencesCounted(es: seq<Evidence>)
    ensures ReferenceCount(es) == SumBy(es, ReferencesOf)
  {
    if es != [] {
      var front, last := es[..|es| - 1], es[|es| - 1];
      ReferencesCounted(front);
      assert es == front + [last];
      SumByConcat(front, [last], ReferencesOf);
      assert [last][1..] == [];
    }
  }

  lemma {:induction false} PrefixEdgesCount(x: string, deps: seq<string>)
    ensures |PrefixEdges(x, deps)| <= |deps|
  {
    if deps == [] {
      assert PrefixEdges(x, deps) == {};
    } else {
      var front, last := deps[..|deps| - 1], deps[|deps| - 1];
      PrefixEdgesCount(x, front);
      assert deps == front + [last];
      assert PrefixEdges(x, deps) == PrefixEdges(x, front) + {(x, last)};
    }
  }

  /** The limit on the dependencies alone follows from the limit on all references. */
  lemma {:induction false} EdgesCount(es: seq<Evidence>)
    ensures |EdgeSet(Edges(es), Edges(es).Keys)| <= ReferenceCount(es)
  {
    if es == [] {
      assert EdgeSet(Edges(es), Edges(es).Keys) == {};
    } else {
      var front, last := es[..|es| - 1], es[|es| - 1];
      EdgesCount(front);
      PrefixEdgesCount(last.id, last.dependsOn);
      var all := EdgeSet(Edges(front), Edges(front).Keys) + PrefixEdges(last.id, last.dependsOn);
      forall e | e in EdgeSet(Edges(es), Edges(es).Keys) ensures e in all {
        if e.0 != last.id {
          assert e.0 in ByID(front) && ByID(front)[e.0] == ByID(es)[e.0];
        }
      }
      SubsetSize(EdgeSet(Edges(es), Edges(es).Keys), all);
    }
  }

  lemma CircleHasCycle(es: seq<Evidence>, c: seq<Evidence>)
    requires DistinctRecords(es) && SupportCircle(es, c)
    ensures HasCycle(Edges(es))
  {
    var ids := seq(|c|, k requires 0 <= k < |c| => c[k].id);
    forall k | 0 <= k < |c| ensures ids[k] in Edges(es) && Edges(es)[ids[k]] == c[k].dependsOn {
      var i :| 0 <= i < |es| && es[i] == c[k];
      EvidenceFound(es, i);
    }
    assert IsCycle(Edges(es), ids);
  }

  lemma CycleIsCircle(es: seq<Evidence>, ids: seq<string>) returns (c: seq<Evidence>)
    requires IsCycle(Edges(es), ids)
    ensures SupportCircle(es, c)
  {
    var index := ByID(es);
    c := seq(|ids|, k requires 0 <= k < |ids| => index[ids[k]]);
    forall k | 0 <= k < |c| - 1 ensures c[k + 1].id in c[k].dependsOn {
      assert ids[k + 1] in Edges(es)[ids[k]];
    }
  }

  lemma CirclesAreCycles(es: seq<Evidence>)
    requires DistinctRecords(es)
    ensures HasCycle(Edges(es)) <==> exists c :: SupportCircle(es, c)
  {
    if c :| SupportCircle(es, c) {
      CircleHasCycle(es, c);
    }
    if ids :| IsCycle(Edges(es), ids) {
      var c := CycleIsCircle(es, ids);
    }
  }

  // --- The whole dataset ---

  ghost predicate RecordIsProper(ev: Evidence, cs: seq<EvaluationContext>, os: seq<Observation>) {
    WellFormedRecord(ev, cs) && RefersProperly(ev, os)
  }

  lemma {:induction false} RecordsMean(es: seq<Evidence>, cs: seq<EvaluationContext>, os: seq<Observation>)
    requires DistinctObservations(os)
    ensures AllValid(es, Elements(ContextIDs(cs)), ObservationIndex(os)) <==>
      forall k :: 0 <= k < |es| ==> RecordIsProper(es[k], cs, os)
  {
    if es != [] {
      var front, last := es[..|es| - 1], es[|es| - 1];
      RecordsMean(front, cs, os);
      RecordMeans(last, cs, os);
      LastIsProper(front, last, cs, os);
      assert es == front + [last];
    }
  }

  lemma LastIsProper(front: seq<Evidence>, last: Evidence, cs: seq<EvaluationContext>, os: seq<Observation>)
    ensures (forall k :: 0 <= k < |front + [last]| ==> RecordIsProper((front + [last])[k], cs, os)) <==>
      (forall k :: 0 <= k < |front| ==> RecordIsProper(front[k], cs, os)) && RecordIsProper(last, cs, os)
  {
    var es := front + [last];
    if forall k :: 0 <= k < |es| ==> RecordIsProper(es[k], cs, os) {
      forall k | 0 <= k < |front| ensures RecordIsProper(front[k], cs, os) {
        assert RecordIsProper(es[k], cs, os);
      }
      assert RecordIsProper(es[|front|], cs, os);
    }
  }

  lemma RecordMeans(ev: Evidence, cs: seq<EvaluationContext>, os: seq<Observation>)
    requires DistinctObservations(os)
    ensures ValidEvidence(ev, Elements(ContextIDs(cs)), ObservationIndex(os)) <==>
      RecordIsProper(ev, cs, os)
  {
    ReferencesMean(ev, os);
    ContextIsKnown(cs, ev.scope.contextID);
    assert ValidRecord(ev) && HasContext(cs, ev.scope.contextID) <==> WellFormedRecord(ev, cs);
  }

  lemma DistinctRecordsMean(es: seq<Evidence>)
    ensures Distinct(EvidenceIDs(es)) <==> DistinctRecords(es)
  {
    if Distinct(EvidenceIDs(es)) {
      forall i, j | 0 <= i < j < |es| ensures es[i].id != es[j].id {
        assert EvidenceIDs(es)[i] != EvidenceIDs(es)[j];
      }
    }
  }

  lemma EdgesMean(es: seq<Evidence>)
    requires DistinctRecords(es) && ReferenceCount(es) <= 16384
    ensures DependenciesFit(ByID(es)) && SoundEdges(Edges(es)) <==>
      (forall k :: 0 <= k < |es| ==> DependsProperly(es[k], es)) && (forall c :: !SupportCircle(es, c))
  {
    DependenciesMean(es);
    EdgesCount(es);
    CirclesAreCycles(es);
    if DependenciesFit(ByID(es)) {
      assert Closed(Edges(es));
    }
  }

  lemma EvidenceMeans(es: seq<Evidence>, cs: seq<EvaluationContext>, os: seq<Observation>)
    requires DistinctObservations(os)
    ensures WellFormedEvidence(es, cs, os) <==>
      && ValidEvidenceList(es, Elements(ContextIDs(cs)), ObservationIndex(os))
      && DependenciesFit(ByID(es)) && SoundEdges(Edges(es))
  {
    RecordsMean(es, cs, os);
    DistinctRecordsMean(es);
    ReferencesCounted(es);
    if DistinctRecords(es) && ReferenceCount(es) <= 16384 {
      EdgesMean(es);
    }
  }

  /** Validation accepts exactly the well-formed datasets. */
  lemma ValidityMeans(d: Dataset)
    ensures ValidDataset(d) <==> WellFormedDataset(d)
  {
    ContextsMean(d.contexts);
    ObservationsMean(d.observations, d.contexts);
    if DistinctObservations(d.observations) {
      EvidenceMeans(d.evidence, d.contexts, d.observations);
    }
  }
}
