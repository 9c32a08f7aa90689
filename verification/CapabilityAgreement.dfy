/**
 The capability engine and the requirement engine agree: what the first decides, the second accepts when it
 checks the evidence again; and support is closed under dependencies.
 */
module CapabilityAgreement {
  import opened Options
  import opened Seqs
  import opened Chains
  import opened TopologicalOrder
  import opened CapabilityGraph
  import opened EvidenceModel
  import opened Dataset
  import opened Resolver
  import opened CapabilityRegistry
  import RequirementLogic
  import RE = RequirementEvaluation

  // --- One resolution ---

  /** What an evaluation says about the resolution alone. */
  ghost predicate Outcome(def: Definition, scope: Scope, at: Time, resolved: map<string, Capability>, observed: bool,
                          res: Resolution, after: seq<Evidence>) {
    var reason := Reason(def, resolved, observed);
    if reason != "" then res == Missing(def.id, scope, reason) else ResolvesFrom(res, after, scope, def.id, at)
  }

  lemma EvaluationHasOutcome(def: Definition, scope: Scope, d: Dataset, resolved: map<string, Capability>,
                             observed: bool,
                             res: Resolution, after: seq<Evidence>)
    requires Evaluates(def, scope, d, resolved, observed, res, after)
    ensures Outcome(def, scope, d.at, resolved, observed, res, after)
  {
  }

  /** A resolution is about its definition, in its scope, with a canonical state and confidence. */
  lemma ResolutionFits(def: Definition, scope: Scope, at: Time, resolved: map<string, Capability>, observed: bool,
                       res: Resolution, after: seq<Evidence>)
    requires ValidDefinition(def) && Outcome(def, scope, at, resolved, observed, res, after)
    ensures RE.Fitting(res.capability, scope) && res.capability.id == def.id
  {
    if Reason(def, resolved, observed) == "" {
      var sorted :| SortedByID(sorted) && multiset(sorted) == multiset(after)
        && res == Resolved(sorted, scope, def.id, at);
      ResolvedFits(sorted, scope, def.id, at);
    }
  }

  lemma ResolvedFits(s: seq<Evidence>, scope: Scope, id: string, at: Time)
    requires ValidCapabilityID(id)
    ensures RE.Fitting(Resolved(s, scope, id, at).capability, scope) && Resolved(s, scope, id, at).capability.id == id
  {
    StateIsCanonical(s, scope, id, at);
  }

  lemma StateIsCanonical(s: seq<Evidence>, scope: Scope, id: string, at: Time)
    ensures Resolved(s, scope, id, at).capability.state.IsValid()
      && Resolved(s, scope, id, at).capability.confidence.IsValid()
  {
    var top := Top(s, scope, id, at);
    if top != [] {
      assert top[0] in top;
    }
    DefiniteMeansUnanimous(s, scope, id, at);
  }

  /** The evidence that the requirement engine wants behind a state. */
  predicate Backs(ev: Evidence, scope: Scope, id: string, state: CapabilityState) {
    && ev.Validates() && ev.scope == scope && ev.completeness == Complete
    && ev.state == state && ev.claim == id && ev.confidence.IsValid()
  }

  ghost predicate BackedBy(ref: string, es: seq<Evidence>, scope: Scope, id: string, state: CapabilityState) {
    exists ev :: ev in es && ev.id == ref && Backs(ev, scope, id, state)
  }

  /** A decided state names at least one piece of evidence, and all that it names back it. */
  lemma DecidedIsBacked(def: Definition, scope: Scope, at: Time, resolved: map<string, Capability>, observed: bool,
                        res: Resolution, after: seq<Evidence>)
    requires Outcome(def, scope, at, resolved, observed, res, after) && res.capability.state != UnknownState
    ensures Reason(def, resolved, observed) == ""
    ensures res.capability.evidence != []
    ensures forall k :: 0 <= k < |res.capability.evidence| ==>
      BackedBy(res.capability.evidence[k], after, scope, def.id, res.capability.state)
  {
    var sorted :| SortedByID(sorted) && multiset(sorted) == multiset(after)
      && res == Resolved(sorted, scope, def.id, at);
    TopBacks(sorted, scope, def.id, at);
    forall k | 0 <= k < |res.capability.evidence|
      ensures BackedBy(res.capability.evidence[k], after, scope, def.id, res.capability.state)
    {
      assert BackedBy(res.capability.evidence[k], sorted, scope, def.id, res.capability.state);
      var ev: Evidence :| ev in sorted && ev.id == res.capability.evidence[k]
        && Backs(ev, scope, def.id, res.capability.state);
      assert ev in multiset(sorted);
      assert ev in multiset(after);
    }
  }

  lemma TopBacks(sorted: seq<Evidence>, scope: Scope, id: string, at: Time)
    ensures var c := Resolved(sorted, scope, id, at).capability;
      c.state != UnknownState ==>
        && c.evidence != []
        && forall k :: 0 <= k < |c.evidence| ==> BackedBy(c.evidence[k], sorted, scope, id, c.state)
  {
    var c := Resolved(sorted, scope, id, at).capability;
    var top := Top(sorted, scope, id, at);
    ConsensusReported(top);
    if c.state != UnknownState {
      forall k | 0 <= k < |c.evidence| ensures BackedBy(c.evidence[k], sorted, scope, id, c.state) {
        var ev := top[k];
        assert ev in top;
        assert Backs(ev, scope, id, c.state);
      }
    }
  }

  // --- The whole evaluation ---

  ghost function Prefix(): (seq<Evidence>, seq<Evidence>) -> bool {
    (a, b) => a <= b
  }

  lemma EvidenceGrows(scope: Scope, d: Dataset, observed: bool)
    ensures Grows(StepOf(scope, d, observed), Prefix())
  {
  }

  ghost function StaysValid(d: Dataset): seq<Evidence> -> bool {
    es => ValidDataset(d.(evidence := es))
  }

  /** The evidence left at the end is still valid. */
  lemma FinalEvidenceIsValid(ds: seq<Definition>, scope: Scope, d: Dataset, observed: bool, rs: seq<Resolution>,
                             after: seq<Evidence>)
    requires ValidDataset(d) && EvaluatesAll(ds, scope, d, observed, rs, after)
    ensures ValidDataset(d.(evidence := after))
  {
    assert d.(evidence := d.evidence) == d;
    var step, inv := StepOf(scope, d, observed), StaysValid(d);
    forall def, before, s, r, e | inv(s) && step(def, before, s, r, e) ensures inv(e) {
      assert d.(evidence := s).(evidence := e) == d.(evidence := e);
    }
    ChainKeeps(ds, step, d.evidence, rs, after, inv);
    assert inv(after);
  }

  /** Where a definition stands in an evaluation. */
  lemma EvaluatedAt(ds: seq<Definition>, scope: Scope, d: Dataset, observed: bool, rs: seq<Resolution>,
                    after: seq<Evidence>, k: nat)
    returns (next: seq<Evidence>)
    requires EvaluatesAll(ds, scope, d, observed, rs, after) && k < |ds|
    ensures |rs| == |ds|
    ensures Outcome(ds[k], scope, d.at, ResolvedSoFar(rs[..k]), observed, rs[k], next)
    ensures next <= after
  {
    EvidenceGrows(scope, d, observed);
    var before;
    before, next := ChainAt(ds, StepOf(scope, d, observed), d.evidence, rs, after, k, Prefix());
    EvaluationHasOutcome(ds[k], scope, d.(evidence := before), ResolvedSoFar(rs[..k]), observed, rs[k], next);
    assert Prefix()(next, after);
  }

  lemma {:induction false} InScopeDistinct(es: seq<Evidence>, scope: Scope)
    requires DistinctIDs(es)
    ensures RE.DistinctEvidence(InScope(es, scope))
  {
    if es != [] {
      var front, last := es[..|es| - 1], es[|es| - 1];
      assert forall k :: 0 <= k < |front| ==> front[k] == es[k];
      InScopeDistinct(front, scope);
      InScopeMembers(front, scope);
      var kept := InScope(front, scope);
      forall j | 0 <= j < |kept| ensures kept[j].id != last.id {
        assert kept[j] in kept;
        var i :| 0 <= i < |front| && front[i] == kept[j];
        assert es[i].id != es[|es| - 1].id;
      }
    }
  }

  /** With distinct identifiers the index returns the evidence that a reference names. */
  lemma IndexReturns(es: seq<Evidence>, ev: Evidence)
    requires RE.DistinctEvidence(es) && ev in es
    ensures ev.id in RE.EvidenceByID(es) && RE.EvidenceByID(es)[ev.id] == ev
  {
    var k :| 0 <= k < |es| && es[k] == ev;
    var found := RE.EvidenceByID(es)[ev.id];
    var j :| 0 <= j < |es| && es[j] == found;
    assert j == k;
  }

  lemma CapabilityReturns(cs: seq<Capability>, k: nat)
    requires RE.DistinctCapabilities(cs) && k < |cs|
    ensures cs[k].id in RE.CapabilitiesByID(cs) && RE.CapabilitiesByID(cs)[cs[k].id] == cs[k]
  {
    assert RE.CapabilityIDs(cs)[k] == cs[k].id;
    var found := RE.CapabilitiesByID(cs)[cs[k].id];
    var j :| 0 <= j < |cs| && cs[j] == found;
    assert j == k;
  }

  /** The capabilities of an evaluation carry the identifiers of the catalog. */
  lemma CapabilitiesFit(ds: seq<Definition>, scope: Scope, d: Dataset, e: Evaluation, observed: bool,
                        after: seq<Evidence>)
    requires ValidDefinitions(ds) && IsResult(ds, scope, d, e, observed, after)
    ensures |e.candidate.capabilities| == |ds| == |e.resolutions|
    ensures forall k :: 0 <= k < |ds| ==>
      e.candidate.capabilities[k] == e.resolutions[k].capability && e.resolutions[k].capability.id == ds[k].id
    ensures RE.AllFit(e.candidate.capabilities, scope) && RE.DistinctCapabilities(e.candidate.capabilities)
  {
    var cs := e.candidate.capabilities;
    forall k | 0 <= k < |ds|
      ensures cs[k] == e.resolutions[k].capability && RE.Fitting(cs[k], scope) && cs[k].id == ds[k].id
    {
      var next := EvaluatedAt(ds, scope, d, observed, e.resolutions, after, k);
      ResolutionFits(ds[k], scope, d.at, ResolvedSoFar(e.resolutions[..k]), observed, e.resolutions[k], next);
    }
    forall i, j | 0 <= i < j < |cs| ensures cs[i].id != cs[j].id {
      assert DefinitionIDs(ds)[i] != DefinitionIDs(ds)[j];
    }
  }

  /** Every candidate that the registry builds is accepted by the requirement engine. */
  lemma CandidateIsAccepted(ds: seq<Definition>, scope: Scope, d: Dataset, e: Evaluation)
    requires Catalog(ds) && IsEvaluation(ds, scope, d, e)
    ensures RE.CandidateFault(e.candidate) == None
  {
    var observed, after :| IsResult(ds, scope, d, e, observed, after);
    CapabilitiesFit(ds, scope, d, e, observed, after);
    FinalEvidenceIsValid(ds, scope, d, observed, e.resolutions, after);
    ValidIDsDistinct(d.(evidence := after));
    InScopeDistinct(after, scope);
    RE.AcceptedMeansWellFormed(e.candidate);
  }

  lemma DecidedIsSupported(ds: seq<Definition>, scope: Scope, d: Dataset, e: Evaluation, observed: bool,
                           after: seq<Evidence>, k: nat)
    requires ValidDefinitions(ds) && DistinctIDs(after) && IsResult(ds, scope, d, e, observed, after)
      && k < |ds| == |e.resolutions|
    requires e.resolutions[k].capability.state != UnknownState
    ensures var c := e.resolutions[k].capability;
      && c.evidence != []
      && forall j :: 0 <= j < |c.evidence| ==> RE.Supports(c.evidence[j], ds[k].id, c.state, RE.IndexOf(e.candidate))
  {
    var c := e.resolutions[k].capability;
    var next := EvaluatedAt(ds, scope, d, observed, e.resolutions, after, k);
    DecidedIsBacked(ds[k], scope, d.at, ResolvedSoFar(e.resolutions[..k]), observed, e.resolutions[k], next);
    InScopeDistinct(after, scope);
    InScopeMembers(after, scope);
    forall j | 0 <= j < |c.evidence| ensures RE.Supports(c.evidence[j], ds[k].id, c.state, RE.IndexOf(e.candidate)) {
      assert BackedBy(c.evidence[j], next, scope, ds[k].id, c.state);
      var ev :| ev in next && ev.id == c.evidence[j] && Backs(ev, scope, ds[k].id, c.state);
      assert ev in after;
      IndexReturns(InScope(after, scope), ev);
    }
  }

  /** How the requirement engine should read a capability state. */
  function Reading(state: CapabilityState): RequirementLogic.RequirementState {
    if state == Supported then RequirementLogic.Satisfied
    else if state.Definite() then RequirementLogic.Unsatisfied
    else RequirementLogic.Indeterminate
  }

  lemma PredicateReads(id: string, c: Capability, index: RE.CandidateIndex)
    requires id in index.caps && index.caps[id] == c && c.state.IsValid()
    requires c.state.Definite() ==> c.evidence != [] && forall j :: 0 <= j < |c.evidence| ==>
      RE.Supports(c.evidence[j], id, c.state, index)
    ensures RE.Predicate(id, index).state == Reading(c.state)
  {
  }

  /** What the registry decides, the requirement engine decides the same way; what it leaves open stays open. */
  lemma DecisionsAgree(ds: seq<Definition>, scope: Scope, d: Dataset, e: Evaluation, k: nat)
    requires Catalog(ds) && IsEvaluation(ds, scope, d, e) && k < |ds|
    ensures |e.candidate.capabilities| == |ds| && e.candidate.capabilities[k].id == ds[k].id
    ensures RE.Predicate(ds[k].id, RE.IndexOf(e.candidate)).state == Reading(e.candidate.capabilities[k].state)
  {
    var observed, after :| IsResult(ds, scope, d, e, observed, after);
    FinalEvidenceIsValid(ds, scope, d, observed, e.resolutions, after);
    ValidIDsDistinct(d.(evidence := after));
    ResultIsRead(ds, scope, d, e, observed, after, k);
  }

  lemma ResultIsRead(ds: seq<Definition>, scope: Scope, d: Dataset, e: Evaluation, observed: bool, after: seq<Evidence>,
                     k: nat)
    requires ValidDefinitions(ds) && DistinctIDs(after) && IsResult(ds, scope, d, e, observed, after) && k < |ds|
    ensures |e.candidate.capabilities| == |ds| && e.candidate.capabilities[k].id == ds[k].id
    ensures RE.Predicate(ds[k].id, RE.IndexOf(e.candidate)).state == Reading(e.candidate.capabilities[k].state)
  {
    CapabilitiesFit(ds, scope, d, e, observed, after);
    var c := e.candidate.capabilities[k];
    CapabilityReturns(e.candidate.capabilities, k);
    assert RE.Fitting(c, scope);
    if c.state.Definite() {
      DecidedIsSupported(ds, scope, d, e, observed, after, k);
    }
    PredicateReads(ds[k].id, c, RE.IndexOf(e.candidate));
  }

  // --- Dependencies ---

  lemma {:induction false} ResolvedEarlier(rs: seq<Resolution>, dep: string)
    requires dep in ResolvedSoFar(rs)
    ensures exists j :: 0 <= j < |rs| && rs[j].capability.id == dep && rs[j].capability == ResolvedSoFar(rs)[dep]
  {
    var front, last := rs[..|rs| - 1], rs[|rs| - 1].capability;
    if dep == last.id {
      assert rs[|rs| - 1].capability == ResolvedSoFar(rs)[dep];
    } else {
      ResolvedEarlier(front, dep);
      var j :| 0 <= j < |front| && front[j].capability.id == dep && front[j].capability == ResolvedSoFar(front)[dep];
      assert rs[j].capability == ResolvedSoFar(rs)[dep];
    }
  }

  predicate DependsOn(ds: seq<Definition>, k: nat, j: nat) {
    k < |ds| && j < |ds| && ds[j].id in ds[k].dependencies
  }

  /** `path` leads through the definitions by declared dependencies. */
  predicate DependencyPath(ds: seq<Definition>, path: seq<nat>) {
    |path| >= 2 && DependsOn(ds, path[0], path[1]) && (|path| > 2 ==> DependencyPath(ds, path[1..]))
  }

  lemma DependencyWasSupported(ds: seq<Definition>, scope: Scope, d: Dataset, e: Evaluation, observed: bool,
                               after: seq<Evidence>,
                               k: nat, dep: string)
    requires IsResult(ds, scope, d, e, observed, after) && k < |ds| == |e.resolutions|
    requires e.resolutions[k].capability.state != UnknownState && dep in ds[k].dependencies
    ensures SupportedIn(dep, ResolvedSoFar(e.resolutions[..k]))
  {
    var rs := e.resolutions;
    var next := EvaluatedAt(ds, scope, d, observed, rs, after, k);
    DecidedIsBacked(ds[k], scope, d.at, ResolvedSoFar(rs[..k]), observed, rs[k], next);
    var m :| 0 <= m < |ds[k].dependencies| && ds[k].dependencies[m] == dep;
  }

  lemma DependencyIsSupported(ds: seq<Definition>, scope: Scope, d: Dataset, e: Evaluation, observed: bool,
                              after: seq<Evidence>,
                              k: nat, j: nat)
    requires ValidDefinitions(ds) && IsResult(ds, scope, d, e, observed, after) && k < |ds| && j < |ds|
    requires |e.resolutions| == |ds| && e.resolutions[k].capability.state != UnknownState
      && ds[j].id in ds[k].dependencies
    ensures e.resolutions[j].capability.state == Supported && j < k
  {
    var rs := e.resolutions;
    CapabilitiesFit(ds, scope, d, e, observed, after);
    DependencyWasSupported(ds, scope, d, e, observed, after, k, ds[j].id);
    ResolvedEarlier(rs[..k], ds[j].id);
    var i :| 0 <= i < k && rs[..k][i].capability.id == ds[j].id
      && rs[..k][i].capability == ResolvedSoFar(rs[..k])[ds[j].id];
    assert DefinitionIDs(ds)[i] == DefinitionIDs(ds)[j];
    assert i == j;
  }

  /**
   A decided capability, and a supported one above all, has every capability that it depends on, however
   indirectly, supported.
   */
  lemma DependenciesAreSupported(ds: seq<Definition>, scope: Scope, d: Dataset, e: Evaluation, path: seq<nat>)
    requires Catalog(ds) && IsEvaluation(ds, scope, d, e) && DependencyPath(ds, path)
    requires |e.candidate.capabilities| == |ds| && e.candidate.capabilities[path[0]].state != UnknownState
    ensures path[|path| - 1] < |ds| && e.candidate.capabilities[path[|path| - 1]].state == Supported
  {
    var observed, after :| IsResult(ds, scope, d, e, observed, after);
    SupportFollowsPath(ds, scope, d, e, observed, after, path);
  }

  lemma {:induction false} SupportFollowsPath(ds: seq<Definition>, scope: Scope, d: Dataset, e: Evaluation,
                                              observed: bool,
                                              after: seq<Evidence>, path: seq<nat>)
    requires ValidDefinitions(ds) && IsResult(ds, scope, d, e, observed, after) && DependencyPath(ds, path)
    requires |e.candidate.capabilities| == |ds| && e.candidate.capabilities[path[0]].state != UnknownState
    ensures path[|path| - 1] < |ds| && e.candidate.capabilities[path[|path| - 1]].state == Supported
    decreases |path|
  {
    CapabilitiesFit(ds, scope, d, e, observed, after);
    DependencyIsSupported(ds, scope, d, e, observed, after, path[0], path[1]);
    if |path| > 2 {
      SupportFollowsPath(ds, scope, d, e, observed, after, path[1..]);
    }
  }
}
