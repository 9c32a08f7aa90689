/** The evaluation graph and its validation: ValidateDataset of internal/capability/graph.go. */
module Dataset {
  import opened Seqs
  import opened TopologicalOrder
  import opened CapabilityGraph
  import opened EvidenceModel

  datatype Fact = Fact(id: string, scope: Scope, completeness: Completeness, source: string, timestamp: Time)

  /** `payload` stands for the typed measurement, which the graph checks do not read. */
  datatype Observation = Observation(
    id: string, probeID: string, timestamp: Time, scope: Scope, completeness: Completeness, facts: seq<Fact>,
    payload: string)

  datatype Namespace = Namespace(kind: string, id: string)

  /** `identityValid` is the outcome of the identity's own check. */
  datatype EvaluationContext = EvaluationContext(
    id: string, identityValid: bool, currentObserved: bool, targetObserved: bool, namespaces: seq<Namespace>)

  datatype Dataset = Dataset(
    runID: string, at: Time, contexts: seq<EvaluationContext>, observations: seq<Observation>, evidence: seq<Evidence>)

  // --- Contexts ---

  function ContextIDs(cs: seq<EvaluationContext>): (r: seq<string>)
    ensures |r| == |cs| && forall k :: 0 <= k < |cs| ==> r[k] == cs[k].id
  {
    seq(|cs|, k requires 0 <= k < |cs| => cs[k].id)
  }

  function Kinds(ns: seq<Namespace>): (r: seq<string>)
    ensures |r| == |ns| && forall k :: 0 <= k < |ns| ==> r[k] == ns[k].kind
  {
    seq(|ns|, k requires 0 <= k < |ns| => ns[k].kind)
  }

  ghost predicate ValidNamespaces(ns: seq<Namespace>) {
    && (forall k :: 0 <= k < |ns| ==> ns[k].kind != "" && ns[k].id != "")
    && Distinct(Kinds(ns))
  }

  ghost predicate ValidContexts(cs: seq<EvaluationContext>) {
    && (forall k :: 0 <= k < |cs| ==> cs[k].identityValid && cs[k].id != "" && ValidNamespaces(cs[k].namespaces))
    && Distinct(ContextIDs(cs))
  }

  method CheckNamespaces(ns: seq<Namespace>) returns (ok: bool)
    ensures ok <==> ValidNamespaces(ns)
  {
    var seen: set<string> := {};
    var k := 0;
    while k < |ns|
      invariant 0 <= k <= |ns|
      invariant forall m :: 0 <= m < k ==> ns[m].kind != "" && ns[m].id != ""
      invariant forall m :: 0 <= m < k ==> Kinds(ns)[m] in seen
      invariant forall x :: x in seen ==> x in Kinds(ns)[..k]
      invariant Distinct(Kinds(ns)[..k])
    {
      if ns[k].kind == "" || ns[k].id == "" || ns[k].kind in seen {
        assert ns[k].kind in seen ==> !Distinct(Kinds(ns));
        return false;
      }
      DistinctPrefix(Kinds(ns), k);
      seen := seen + {ns[k].kind};
      k := k + 1;
    }
    assert Kinds(ns)[..k] == Kinds(ns);
    return true;
  }

  method IndexContexts(cs: seq<EvaluationContext>) returns (ok: bool, contexts: set<string>)
    ensures ok <==> ValidContexts(cs)
    ensures ok ==> contexts == Elements(ContextIDs(cs))
  {
    contexts := {};
    var k := 0;
    while k < |cs|
      invariant 0 <= k <= |cs|
      invariant forall m :: 0 <= m < k ==> cs[m].identityValid && cs[m].id != "" && ValidNamespaces(cs[m].namespaces)
      invariant contexts == Elements(ContextIDs(cs)[..k])
      invariant Distinct(ContextIDs(cs)[..k])
    {
      if !cs[k].identityValid { return false, contexts; }
      if cs[k].id == "" || cs[k].id in contexts {
        assert cs[k].id in contexts ==> !Distinct(ContextIDs(cs));
        return false, contexts;
      }
      DistinctPrefix(ContextIDs(cs), k);
      contexts := contexts + {cs[k].id};
      var namespacesOk := CheckNamespaces(cs[k].namespaces);
      if !namespacesOk { return false, contexts; }
      k := k + 1;
    }
    assert ContextIDs(cs)[..k] == ContextIDs(cs);
    return true, contexts;
  }

  // --- Observations and facts ---

  function FactIDs(facts: seq<Fact>): (r: seq<string>)
    ensures |r| == |facts| && forall k :: 0 <= k < |facts| ==> r[k] == facts[k].id
  {
    seq(|facts|, k requires 0 <= k < |facts| => facts[k].id)
  }

  function AllFactIDs(os: seq<Observation>): seq<string> {
    if os == [] then [] else AllFactIDs(os[..|os| - 1]) + FactIDs(os[|os| - 1].facts)
  }

  function ObservationIDs(os: seq<Observation>): (r: seq<string>)
    ensures |r| == |os| && forall k :: 0 <= k < |os| ==> r[k] == os[k].id
  {
    seq(|os|, k requires 0 <= k < |os| => os[k].id)
  }

  predicate ValidMetadata(o: Observation, contexts: set<string>) {
    && o.id != "" && o.probeID != "" && o.timestamp != 0 && o.scope.IsValid()
    && o.scope.contextID in contexts && o.completeness.IsValid() && o.facts != []
  }

  predicate ValidFact(f: Fact, o: Observation) {
    && f.id != "" && f.scope == o.scope && f.timestamp != 0 && f.timestamp <= o.timestamp && f.source != ""
    && f.completeness.IsValid() && (o.completeness == Complete ==> f.completeness == Complete)
  }

  ghost predicate ValidObservations(os: seq<Observation>, contexts: set<string>) {
    && (forall k :: 0 <= k < |os| ==> ValidMetadata(os[k], contexts) && ValidFacts(os[k]))
    && Distinct(ObservationIDs(os))
    && FactsFit(AllFactIDs(os))
  }

  ghost predicate ValidFacts(o: Observation) {
    ValidFactsTo(o, |o.facts|)
  }

  /** The first `j` facts are valid. */
  ghost predicate ValidFactsTo(o: Observation, j: nat)
    requires j <= |o.facts|
  {
    j == 0 || (ValidFactsTo(o, j - 1) && ValidFact(o.facts[j - 1], o))
  }

  lemma {:induction false} ValidFactsEach(o: Observation, n: nat, j: nat)
    requires j < n <= |o.facts| && ValidFactsTo(o, n)
    ensures ValidFact(o.facts[j], o)
  {
    if j < n - 1 {
      ValidFactsEach(o, n - 1, j);
    }
  }

  ghost predicate FactsFit(ids: seq<string>) {
    Distinct(ids) && |ids| <= MAX_GRAPH_ENTRIES
  }

  lemma PrefixFits(a: seq<string>, b: seq<string>)
    requires a <= b && FactsFit(b)
    ensures FactsFit(a)
  {
  }

  /** Validity of a list is validity of its front, and what the last observation adds. */
  lemma ValidStep(os: seq<Observation>, contexts: set<string>)
    requires os != []
    ensures ValidObservations(os, contexts) <==>
      var front, last := os[..|os| - 1], os[|os| - 1];
      && ValidObservations(front, contexts)
      && ValidMetadata(last, contexts) && ValidFacts(last)
      && last.id !in ObservationIDs(front)
      && FactsFit(AllFactIDs(front) + FactIDs(last.facts))
  {
    var front, last := os[..|os| - 1], os[|os| - 1];
    assert os == front + [last];
    assert ObservationIDs(os) == ObservationIDs(front) + [last.id];
    if FactsFit(AllFactIDs(os)) {
      PrefixFits(AllFactIDs(front), AllFactIDs(os));
    }
    assert forall k :: 0 <= k < |front| ==> os[k] == front[k];
    if ValidObservations(os, contexts) {
      assert forall k :: 0 <= k < |front| ==> ValidMetadata(os[k], contexts) && ValidFacts(os[k]);
      assert last.id == ObservationIDs(os)[|front|];
    }
  }

  lemma {:induction false} ValidPrefix(os: seq<Observation>, contexts: set<string>, i: nat)
    requires i <= |os| && ValidObservations(os, contexts)
    ensures ValidObservations(os[..i], contexts)
    decreases |os|
  {
    if i < |os| {
      ValidStep(os, contexts);
      ValidPrefix(os[..|os| - 1], contexts, i);
      assert os[..|os| - 1][..i] == os[..i];
    } else {
      assert os[..i] == os;
    }
  }

  lemma InvalidFactIsFinal(o: Observation, j: nat)
    requires j < |o.facts|
    ensures !ValidFact(o.facts[j], o) ==> !ValidFacts(o)
  {
    if ValidFacts(o) {
      ValidFactsEach(o, |o.facts|, j);
    }
  }

  /** One new identifier more, and how many there are then. */
  lemma FactStep(all: seq<string>, n: nat)
    requires n < |all| && FactsFit(all[..n]) && all[n] !in Elements(all[..n])
    ensures Distinct(all[..n + 1]) && Elements(all[..n + 1]) == Elements(all[..n]) + {all[n]}
    ensures |Elements(all[..n]) + {all[n]}| == n + 1
    ensures n < MAX_GRAPH_ENTRIES ==> FactsFit(all[..n + 1])
    ensures n >= MAX_GRAPH_ENTRIES ==> !FactsFit(all)
  {
    DistinctPrefix(all, n);
    DistinctSize(all[..n + 1]);
  }

  lemma RepeatedFact(all: seq<string>, n: nat)
    requires n < |all| && all[n] in Elements(all[..n])
    ensures !FactsFit(all)
  {
    var k :| 0 <= k < n && all[..n][k] == all[n];
    assert all[k] == all[n];
  }

  /** One fact, whose identifier is the next of `all`. */
  method AddFact(f: Fact, o: Observation, facts0: set<string>, ghost all: seq<string>, ghost n: nat)
    returns (ok: bool, facts: set<string>)
    requires n < |all| && all[n] == f.id && facts0 == Elements(all[..n]) && FactsFit(all[..n])
    ensures ok <==> ValidFact(f, o) && FactsFit(all[..n + 1])
    ensures ok ==> facts == Elements(all[..n + 1])
  {
    facts := facts0;
    assert all[..n + 1][..n] == all[..n] && all[..n + 1][n] == f.id;
    if f.id in facts {
      RepeatedFact(all[..n + 1], n);
      return false, facts;
    }
    if !ValidFact(f, o) { return false, facts; }
    FactStep(all[..n + 1], n);
    assert all[..n + 1][..n + 1] == all[..n + 1];
    facts := facts + {f.id};
    ok := |facts| <= MAX_GRAPH_ENTRIES;
  }

  /** The facts of one observation, on top of the fact identifiers seen before. */
  method IndexFacts(o: Observation, ghost before: seq<string>, facts0: set<string>)
    returns (ok: bool, facts: set<string>)
    requires facts0 == Elements(before) && FactsFit(before)
    ensures ok <==> ValidFacts(o) && FactsFit(before + FactIDs(o.facts))
    ensures ok ==> facts == Elements(before + FactIDs(o.facts))
  {
    facts := facts0;
    ghost var all := before + FactIDs(o.facts);
    var j := 0;
    assert all[..|before|] == before;
    while j < |o.facts|
      invariant 0 <= j <= |o.facts|
      invariant facts == Elements(all[..|before| + j]) && FactsFit(all[..|before| + j])
      invariant ValidFactsTo(o, j)
    {
      ok, facts := AddFact(o.facts[j], o, facts, all, |before| + j);
      if !ok {
        InvalidFactIsFinal(o, j);
        UnfitIsFinal(all, |before| + j + 1);
        return;
      }
      j := j + 1;
    }
    assert all[..|before| + j] == all;
    return true, facts;
  }

  lemma UnfitIsFinal(all: seq<string>, n: nat)
    requires n <= |all|
    ensures !FactsFit(all[..n]) ==> !FactsFit(all)
  {
    if FactsFit(all) {
      PrefixFits(all[..n], all);
    }
  }

  /** Observations by identifier. */
  function ObservationIndex(os: seq<Observation>): (m: map<string, Observation>)
    ensures m.Keys == Elements(ObservationIDs(os))
  {
    if os == [] then map[]
    else
      var front, last := os[..|os| - 1], os[|os| - 1];
      assert ObservationIDs(os) == ObservationIDs(front) + [last.id];
      assert Elements(ObservationIDs(os)) == Elements(ObservationIDs(front)) + {last.id};
      ObservationIndex(front)[last.id := last]
  }

  lemma ValidNext(os: seq<Observation>, contexts: set<string>, i: nat)
    requires i < |os|
    ensures ValidObservations(os[..i + 1], contexts) <==>
      && ValidObservations(os[..i], contexts) && ValidMetadata(os[i], contexts) && ValidFacts(os[i])
      && os[i].id !in ObservationIDs(os[..i]) && FactsFit(AllFactIDs(os[..i + 1]))
    ensures AllFactIDs(os[..i + 1]) == AllFactIDs(os[..i]) + FactIDs(os[i].facts)
    ensures ObservationIndex(os[..i + 1]) == ObservationIndex(os[..i])[os[i].id := os[i]]
  {
    assert os[..i + 1][..i] == os[..i];
    ValidStep(os[..i + 1], contexts);
  }

  /** The checks of one observation, on top of the valid ones before it. */
  method AddObservation(o: Observation, contexts: set<string>, index0: map<string, Observation>, facts0: set<string>,
                        ghost os: seq<Observation>, ghost i: nat)
    returns (ok: bool, index: map<string, Observation>, facts: set<string>)
    requires i < |os| && o == os[i] && ValidObservations(os[..i], contexts)
    requires index0 == ObservationIndex(os[..i]) && facts0 == Elements(AllFactIDs(os[..i]))
    ensures ok <==> ValidObservations(os[..i + 1], contexts)
    ensures ok ==> index == ObservationIndex(os[..i + 1]) && facts == Elements(AllFactIDs(os[..i + 1]))
  {
    index, facts := index0, facts0;
    ValidNext(os, contexts, i);
    if o.id == "" || o.probeID == "" || o.timestamp == 0 || !o.scope.IsValid() || o.scope.contextID !in contexts
      || !o.completeness.IsValid() {
      return false, index, facts;
    }
    if o.id in index { return false, index, facts; }
    index := index[o.id := o];
    if o.facts == [] { return false, index, facts; }
    ok, facts := IndexFacts(o, AllFactIDs(os[..i]), facts);
  }

  method IndexObservations(os: seq<Observation>, contexts: set<string>)
    returns (ok: bool, index: map<string, Observation>)
    ensures ok <==> ValidObservations(os, contexts)
    ensures ok ==> index == ObservationIndex(os)
  {
    index := map[];
    var facts: set<string> := {};
    var i := 0;
    assert os[..0] == [] && ObservationIDs([]) == [];
    while i < |os|
      invariant 0 <= i <= |os|
      invariant ValidObservations(os[..i], contexts)
      invariant index == ObservationIndex(os[..i])
      invariant facts == Elements(AllFactIDs(os[..i]))
    {
      ok, index, facts := AddObservation(os[i], contexts, index, facts, os, i);
      if !ok {
        InvalidIsFinal(os, contexts, i + 1);
        return;
      }
      i := i + 1;
    }
    assert os[..i] == os;
    return true, index;
  }

  lemma InvalidIsFinal(os: seq<Observation>, contexts: set<string>, i: nat)
    requires i <= |os| && !ValidObservations(os[..i], contexts)
    ensures !ValidObservations(os, contexts)
  {
    if ValidObservations(os, contexts) {
      ValidPrefix(os, contexts, i);
    }
  }

  // --- Evidence ---

  function EvidenceIDs(es: seq<Evidence>): (r: seq<string>)
    ensures |r| == |es| && forall k :: 0 <= k < |es| ==> r[k] == es[k].id
  {
    seq(|es|, k requires 0 <= k < |es| => es[k].id)
  }

  /** validateEvidence. */
  predicate ValidRecord(ev: Evidence) {
    && ev.Validates() && ev.scope.IsValid() && ValidCapabilityID(ev.claim)
    && ev.state.IsValid() && ev.confidence.IsValid() && ev.completeness.IsValid()
  }

  /** One reference fits the observation it names. */
  predicate ReferenceFits(ref: ObservationRef, ev: Evidence, observations: map<string, Observation>) {
    && ref.id in observations
    && var obs := observations[ref.id];
      && obs.probeID == ref.probeID && obs.scope == ev.scope && obs.timestamp <= ev.timestamp
      && (ev.completeness == Complete ==> obs.completeness == Complete)
  }

  function RefIDs(refs: seq<ObservationRef>): (r: seq<string>)
    ensures |r| == |refs| && forall k :: 0 <= k < |refs| ==> r[k] == refs[k].id
  {
    seq(|refs|, k requires 0 <= k < |refs| => refs[k].id)
  }

  ghost predicate ReferencesFit(ev: Evidence, observations: map<string, Observation>) {
    && (forall k :: 0 <= k < |ev.observations| ==> ReferenceFits(ev.observations[k], ev, observations))
    && Distinct(RefIDs(ev.observations))
  }

  /** validateObservationReferences. */
  method CheckReferences(ev: Evidence, observations: map<string, Observation>) returns (ok: bool)
    ensures ok <==> ReferencesFit(ev, observations)
  {
    var seen: set<string> := {};
    var k := 0;
    ghost var ids := RefIDs(ev.observations);
    while k < |ev.observations|
      invariant 0 <= k <= |ev.observations|
      invariant forall m :: 0 <= m < k ==> ReferenceFits(ev.observations[m], ev, observations)
      invariant seen == Elements(ids[..k]) && Distinct(ids[..k])
    {
      var ref := ev.observations[k];
      if ref.id in seen {
        assert !Distinct(ids);
        return false;
      }
      if !ReferenceFits(ref, ev, observations) { return false; }
      DistinctPrefix(ids, k);
      seen := seen + {ref.id};
      k := k + 1;
    }
    assert ids[..k] == ids;
    return true;
  }

  /** References that a list of evidence makes, to observations and to other evidence. */
  function ReferenceCount(es: seq<Evidence>): nat {
    if es == [] then 0
    else ReferenceCount(es[..|es| - 1]) + |es[|es| - 1].observations| + |es[|es| - 1].dependsOn|
  }

  lemma {:induction false} ReferenceCountGrows(es: seq<Evidence>, i: nat)
    requires i <= |es|
    ensures ReferenceCount(es[..i]) <= ReferenceCount(es)
  {
    if i < |es| {
      ReferenceCountGrows(es[..|es| - 1], i);
      assert es[..|es| - 1][..i] == es[..i];
    } else {
      assert es[..i] == es;
    }
  }

  /** The checks that one piece of evidence passes on its own. */
  ghost predicate ValidEvidence(ev: Evidence, contexts: set<string>, observations: map<string, Observation>) {
    && ValidRecord(ev) && ev.scope.contextID in contexts
    && ev.observations != [] && ReferencesFit(ev, observations)
  }

  /** Evidence by identifier. */
  function ByID(es: seq<Evidence>): (m: map<string, Evidence>)
    ensures forall x :: x in m <==> x in EvidenceIDs(es)
    ensures forall x :: x in m ==> m[x].id == x && m[x] in es
  {
    if es == [] then map[]
    else
      var front, last := es[..|es| - 1], es[|es| - 1];
      assert es == front + [last];
      assert EvidenceIDs(es) == EvidenceIDs(front) + [last.id];
      ByID(front)[last.id := last]
  }

  /** The dependency graph of the evidence. */
  function Edges(es: seq<Evidence>): Graph<string> {
    map x | x in ByID(es) :: ByID(es)[x].dependsOn
  }

  /** A dependency exists in the same scope, is not later, and is complete when the claim is. */
  predicate DependencyFits(dep: string, ev: Evidence, index: map<string, Evidence>) {
    && dep in index
    && index[dep].scope == ev.scope && index[dep].timestamp <= ev.timestamp
    && (ev.completeness == Complete ==> index[dep].completeness == Complete)
  }

  ghost predicate DependenciesFit(index: map<string, Evidence>) {
    forall x, d :: x in index && d in index[x].dependsOn ==> DependencyFits(d, index[x], index)
  }

  ghost predicate ValidEvidenceList(es: seq<Evidence>, contexts: set<string>, observations: map<string, Observation>) {
    && AllValid(es, contexts, observations)
    && Distinct(EvidenceIDs(es))
    && ReferenceCount(es) <= MAX_GRAPH_REFERENCES
  }

  /** Validity of a list is validity of its front, and what the last piece of evidence adds. */
  lemma ValidEvidenceStep(es: seq<Evidence>, contexts: set<string>, observations: map<string, Observation>)
    requires es != []
    ensures ValidEvidenceList(es, contexts, observations) <==>
      var front, last := es[..|es| - 1], es[|es| - 1];
      && ValidEvidenceList(front, contexts, observations)
      && ValidEvidence(last, contexts, observations)
      && last.id !in ByID(front)
      && ReferenceCount(es) <= MAX_GRAPH_REFERENCES
  {
    var front, last := es[..|es| - 1], es[|es| - 1];
    var n := |front|;
    assert EvidenceIDs(es) == EvidenceIDs(front) + [last.id];
    DistinctStep(EvidenceIDs(front), last.id);
    ReferenceCountGrows(es, n);
  }

  ghost predicate AllValid(es: seq<Evidence>, contexts: set<string>, observations: map<string, Observation>) {
    es == [] || (AllValid(es[..|es| - 1], contexts, observations)
                 && ValidEvidence(es[|es| - 1], contexts, observations))
  }

  lemma {:induction false} ValidEvidencePrefix(es: seq<Evidence>, contexts: set<string>,
                                               observations: map<string, Observation>, i: nat)
    requires i <= |es| && ValidEvidenceList(es, contexts, observations)
    ensures ValidEvidenceList(es[..i], contexts, observations)
    decreases |es|
  {
    if i < |es| {
      ValidEvidenceStep(es, contexts, observations);
      ValidEvidencePrefix(es[..|es| - 1], contexts, observations, i);
      assert es[..|es| - 1][..i] == es[..i];
    } else {
      assert es[..i] == es;
    }
  }

  /** What reading one more piece of evidence changes. */
  lemma ValidEvidenceAt(es: seq<Evidence>, i: nat, contexts: set<string>, observations: map<string, Observation>)
    requires i < |es|
    ensures ValidEvidenceList(es[..i + 1], contexts, observations) <==>
      && ValidEvidenceList(es[..i], contexts, observations) && ValidEvidence(es[i], contexts, observations)
      && es[i].id !in ByID(es[..i]) && ReferenceCount(es[..i + 1]) <= MAX_GRAPH_REFERENCES
    ensures ValidEvidenceList(es, contexts, observations) ==> ValidEvidenceList(es[..i + 1], contexts, observations)
    ensures ByID(es[..i + 1]) == ByID(es[..i])[es[i].id := es[i]]
    ensures ReferenceCount(es[..i + 1]) == ReferenceCount(es[..i]) + |es[i].observations| + |es[i].dependsOn|
  {
    assert es[..i + 1][..i] == es[..i];
    ValidEvidenceStep(es[..i + 1], contexts, observations);
    if ValidEvidenceList(es, contexts, observations) {
      ValidEvidencePrefix(es, contexts, observations, i + 1);
    }
  }

  /** The checks on one piece of evidence. */
  method CheckEvidence(ev: Evidence, contexts: set<string>, observations: map<string, Observation>) returns (ok: bool)
    ensures ok <==> ValidEvidence(ev, contexts, observations)
  {
    if !ValidRecord(ev) || ev.scope.contextID !in contexts || ev.observations == [] { return false; }
    ok := CheckReferences(ev, observations);
  }

  /** The first pass over the evidence. */
  method IndexEvidence(es: seq<Evidence>, contexts: set<string>, observations: map<string, Observation>)
    returns (ok: bool, index: map<string, Evidence>)
    ensures ok <==> ValidEvidenceList(es, contexts, observations)
    ensures ok ==> index == ByID(es)
  {
    index := map[];
    var references := 0;
    var i := 0;
    while i < |es|
      invariant 0 <= i <= |es|
      invariant ValidEvidenceList(es[..i], contexts, observations)
      invariant index == ByID(es[..i])
      invariant references == ReferenceCount(es[..i])
    {
      var ev := es[i];
      ValidEvidenceAt(es, i, contexts, observations);
      if ev.id in index { return false, index; }
      index := index[ev.id := ev];
      references := references + |ev.observations| + |ev.dependsOn|;
      if references > MAX_GRAPH_REFERENCES { return false, index; }
      var fits := CheckEvidence(ev, contexts, observations);
      if !fits { return false, index; }
      i := i + 1;
    }
    assert es[..i] == es;
    return true, index;
  }

  /** The second pass, over the dependencies in any order. */
  method CheckDependencies(index: map<string, Evidence>) returns (ok: bool)
    ensures ok <==> DependenciesFit(index)
  {
    var rest := index.Keys;
    while rest != {}
      invariant rest <= index.Keys
      invariant forall x, d :: x in index && x !in rest && d in index[x].dependsOn ==>
        DependencyFits(d, index[x], index)
    {
      var x :| x in rest;
      var deps := index[x].dependsOn;
      var k := 0;
      while k < |deps|
        invariant 0 <= k <= |deps|
        invariant forall m :: 0 <= m < k ==> DependencyFits(deps[m], index[x], index)
      {
        if !DependencyFits(deps[k], index[x], index) {
          assert deps[k] in index[x].dependsOn;
          return false;
        }
        k := k + 1;
      }
      rest := rest - {x};
    }
    return true;
  }

  // --- The whole graph ---

  /** What validation promises about a dataset, without an order of checks. */
  ghost predicate ValidDataset(d: Dataset) {
    && d.runID != "" && d.at != 0
    && |d.contexts| + |d.observations| + |d.evidence| <= MAX_GRAPH_ENTRIES
    && ValidContexts(d.contexts)
    && ValidObservations(d.observations, Elements(ContextIDs(d.contexts)))
    && ValidEvidenceList(d.evidence, Elements(ContextIDs(d.contexts)), ObservationIndex(d.observations))
    && DependenciesFit(ByID(d.evidence))
    && SoundEdges(Edges(d.evidence))
  }

  /** The graphs that the declaration validator accepts. */
  ghost predicate Acceptable(g: Graph<string>) {
    |g| <= MAX_GRAPH_ENTRIES && SoundEdges(g)
  }

  ghost predicate SoundEdges(g: Graph<string>) {
    Closed(g) && UniqueDependencies(g) && |EdgeSet(g, g.Keys)| <= MAX_GRAPH_REFERENCES && !HasCycle(g)
  }

  /** The limit on the number of nodes follows from the limit on the dataset. */
  lemma {:induction false} IndexSize(es: seq<Evidence>)
    ensures |Edges(es)| <= |es|
  {
    assert Edges(es).Keys == ByID(es).Keys;
    if es != [] {
      IndexSize(es[..|es| - 1]);
      assert Edges(es[..|es| - 1]).Keys == ByID(es[..|es| - 1]).Keys;
      assert ByID(es).Keys == ByID(es[..|es| - 1]).Keys + {es[|es| - 1].id};
    }
  }

  method CheckEdges(index: map<string, Evidence>) returns (ok: bool)
    ensures ok <==> Acceptable(map x | x in index :: index[x].dependsOn)
  {
    var edges := map x | x in index :: index[x].dependsOn;
    var sorted := Topological(edges);
    return sorted.Ordered?;
  }

  /** The validator accepts exactly the valid datasets. */
  method ValidateDataset(d: Dataset) returns (ok: bool)
    ensures ok <==> ValidDataset(d)
  {
    if d.runID == "" || d.at == 0 { return false; }
    if |d.contexts| + |d.observations| + |d.evidence| > MAX_GRAPH_ENTRIES { return false; }
    var contextsOk, contexts := IndexContexts(d.contexts);
    if !contextsOk { return false; }
    var observationsOk, observations := IndexObservations(d.observations, contexts);
    if !observationsOk { return false; }
    var evidenceOk, index := IndexEvidence(d.evidence, contexts, observations);
    if !evidenceOk { return false; }
    var fits := CheckDependencies(index);
    if !fits { return false; }
    IndexSize(d.evidence);
    ok := CheckEdges(index);
  }

  // --- What validity buys ---

  /** `path` follows evidence dependencies. */
  ghost predicate SupportPath(index: map<string, Evidence>, path: seq<string>) {
    && |path| > 0
    && (forall k :: 0 <= k < |path| ==> path[k] in index)
    && (forall k :: 0 <= k < |path| - 1 ==> path[k + 1] in index[path[k]].dependsOn)
  }

  lemma {:induction false} SupportChain(index: map<string, Evidence>, path: seq<string>)
    requires DependenciesFit(index) && SupportPath(index, path)
    ensures var first, last := index[path[0]], index[path[|path| - 1]];
      && last.scope == first.scope && last.timestamp <= first.timestamp
      && (first.completeness == Complete ==> last.completeness == Complete)
  {
    if |path| > 1 {
      var front := path[..|path| - 1];
      assert SupportPath(index, front);
      SupportChain(index, front);
      assert path[|path| - 2 + 1] in index[path[|path| - 2]].dependsOn;
      assert DependencyFits(path[|path| - 1], index[path[|path| - 2]], index);
    }
  }

  /**
   Everything a claim rests on, however indirectly, is in its scope and no later than it, and is complete
   when the claim is complete.
   */
  lemma SupportIsSound(d: Dataset, path: seq<string>)
    requires ValidDataset(d) && SupportPath(ByID(d.evidence), path)
    ensures var index := ByID(d.evidence); var first, last := index[path[0]], index[path[|path| - 1]];
      && last.scope == first.scope && last.timestamp <= first.timestamp
      && (first.completeness == Complete ==> last.completeness == Complete)
  {
    SupportChain(ByID(d.evidence), path);
  }

  /** No claim rests on itself. */
  lemma SupportIsAcyclic(d: Dataset, path: seq<string>)
    requires ValidDataset(d) && SupportPath(ByID(d.evidence), path)
    ensures path[0] !in ByID(d.evidence)[path[|path| - 1]].dependsOn
  {
    if path[0] in ByID(d.evidence)[path[|path| - 1]].dependsOn {
      assert IsCycle(Edges(d.evidence), path);
    }
  }
}
