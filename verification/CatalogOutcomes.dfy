/**
 The evaluation of a catalog in terms of its inputs: when each definition is evaluated, what evidence there is in the
 end, how every capability follows from it, and how requirement documents read the result.
 */
module CatalogOutcomes {
  import opened Options
  import opened Seqs
  import opened Chains
  import opened TopologicalOrder
  import opened CapabilityGraph
  import opened EvidenceModel
  import opened Dataset
  import opened Resolver
  import opened ResolverOutcomes
  import opened CapabilityRegistry
  import opened CapabilityAgreement
  import opened DefinitionOutcomes
  import RD = RequirementDocument
  import RE = RequirementEvaluation
  import RL = RequirementLogic
  import RO = RequirementOutcomes

  // --- Which definitions run ---

  /** Some earlier capability of that name is supported. */
  predicate SupportedBefore(rs: seq<Resolution>, k: nat, dep: string)
    requires k <= |rs|
  {
    exists j :: 0 <= j < k && rs[j].capability.id == dep && rs[j].capability.state == Supported
  }

  /** The target is identified and all dependencies are supported. */
  predicate Ready(def: Definition, rs: seq<Resolution>, k: nat, observed: bool)
    requires k <= |rs|
  {
    observed && forall m :: 0 <= m < |def.dependencies| ==> SupportedBefore(rs, k, def.dependencies[m])
  }

  /** The evidence after the first `n` definitions: what was there, and what those that were ready added. */
  ghost function Gathered(ds: seq<Definition>, scope: Scope, d: Dataset, rs: seq<Resolution>, observed: bool, n: nat):
      seq<Evidence>
    requires n <= |ds| == |rs| && forall k :: 0 <= k < |ds| ==> ds[k].evaluator.Evaluator?
  {
    if n == 0 then d.evidence
    else
      Gathered(ds, scope, d, rs, observed, n - 1)
      + (if Ready(ds[n - 1], rs, n - 1, observed) then ds[n - 1].evaluator.run(scope, d.observations) else [])
  }

  /** What is said of a definition that is not ready: why, and nothing else. */
  predicate IsHeldBack(res: Resolution, def: Definition, scope: Scope, rs: seq<Resolution>, k: nat, observed: bool)
    requires k <= |rs|
  {
    && res.capability == Capability(scope, def.id, UnknownState, UnknownConfidence, res.capability.reason, [])
    && res.superseded == []
    && res.diagnostics == [Diagnostic("missing_prerequisite", res.capability.reason, def.id)]
    && if !observed then res.capability.reason == "execution or target identity is unobserved"
       else NamesFirstMissing(res.capability.reason, def, rs, k)
  }

  predicate NamesFirstMissing(reason: string, def: Definition, rs: seq<Resolution>, k: nat)
    requires k <= |rs|
  {
    exists m :: 0 <= m < |def.dependencies| && IsFirstMissing(def, rs, k, m)
                && reason == "prerequisite " + def.dependencies[m] + " is not supported"
  }

  predicate IsFirstMissing(def: Definition, rs: seq<Resolution>, k: nat, m: nat)
    requires k <= |rs| && m < |def.dependencies|
  {
    && !SupportedBefore(rs, k, def.dependencies[m])
    && forall i :: 0 <= i < m ==> SupportedBefore(rs, k, def.dependencies[i])
  }

  /** How one definition comes out. */
  ghost predicate ComesOut(ds: seq<Definition>, scope: Scope, d: Dataset, rs: seq<Resolution>, observed: bool, k: nat)
    requires k < |ds| == |rs| && forall i :: 0 <= i < |ds| ==> ds[i].evaluator.Evaluator?
  {
    if Ready(ds[k], rs, k, observed) then
      && (forall ev :: ev in ds[k].evaluator.run(scope, d.observations) ==> ev.claim == ds[k].id && ev.scope == scope)
      && ResolvesFrom(rs[k], Gathered(ds, scope, d, rs, observed, k + 1), scope, ds[k].id, d.at)
    else IsHeldBack(rs[k], ds[k], scope, rs, k, observed)
  }

  predicate NamedAfter(rs: seq<Resolution>, ds: seq<Definition>) {
    |rs| == |ds| && forall k :: 0 <= k < |ds| ==> rs[k].capability.id == ds[k].id
  }

  lemma {:induction false} SoFarHolds(rs: seq<Resolution>, j: nat)
    requires j < |rs|
    requires forall i, k :: 0 <= i < k < |rs| ==> rs[i].capability.id != rs[k].capability.id
    ensures rs[j].capability.id in ResolvedSoFar(rs)
    ensures ResolvedSoFar(rs)[rs[j].capability.id] == rs[j].capability
  {
    if j < |rs| - 1 {
      SoFarHolds(rs[..|rs| - 1], j);
    }
  }

  lemma SupportedMeans(ds: seq<Definition>, rs: seq<Resolution>, k: nat, dep: string)
    requires ValidDefinitions(ds) && NamedAfter(rs, ds) && k <= |rs|
    ensures SupportedIn(dep, ResolvedSoFar(rs[..k])) <==> SupportedBefore(rs, k, dep)
  {
    var before := rs[..k];
    forall i, j | 0 <= i < j < |before| ensures before[i].capability.id != before[j].capability.id {
      assert DefinitionIDs(ds)[i] != DefinitionIDs(ds)[j];
    }
    if SupportedIn(dep, ResolvedSoFar(before)) {
      ResolvedEarlier(before, dep);
      var j :| 0 <= j < |before| && before[j].capability.id == dep
        && before[j].capability == ResolvedSoFar(before)[dep];
      assert rs[j] == before[j];
    }
    if j :| 0 <= j < k && rs[j].capability.id == dep && rs[j].capability.state == Supported {
      SoFarHolds(before, j);
    }
  }

  /** The reason is empty exactly when the definition is ready, and otherwise names the first missing dependency. */
  lemma {:induction false} ReasonNamesFirst(def: Definition, deps: seq<string>, m: nat, ds: seq<Definition>,
                                            rs: seq<Resolution>, k: nat)
    requires ValidDefinitions(ds) && NamedAfter(rs, ds) && k <= |rs|
    requires m <= |def.dependencies| && deps == def.dependencies[m..]
    requires forall i :: 0 <= i < m ==> SupportedBefore(rs, k, def.dependencies[i])
    ensures Prerequisite(deps, ResolvedSoFar(rs[..k])) == "" <==> Ready(def, rs, k, true)
    ensures !Ready(def, rs, k, true) ==> NamesFirstMissing(Prerequisite(deps, ResolvedSoFar(rs[..k])), def, rs, k)
    decreases |deps|
  {
    if deps != [] {
      SupportedMeans(ds, rs, k, deps[0]);
      assert deps[0] == def.dependencies[m];
      if SupportedBefore(rs, k, deps[0]) {
        ReasonNamesFirst(def, deps[1..], m + 1, ds, rs, k);
      } else {
        assert IsFirstMissing(def, rs, k, m);
      }
    }
  }

  /** One definition's evaluation for a given reason to hold it back, without the checks of the dataset. */
  ghost predicate RunsOrWaits(def: Definition, scope: Scope, d: Dataset, reason: string, res: Resolution,
                              before: seq<Evidence>, after: seq<Evidence>) {
    if reason == "" then
      && def.evaluator.Evaluator?
      && var generated := def.evaluator.run(scope, d.observations);
        && after == before + generated && ResolvesFrom(res, after, scope, def.id, d.at)
        && (forall ev :: ev in generated ==> ev.claim == def.id && ev.scope == scope)
    else
      && after == before
      && res == Resolution(Capability(scope, def.id, UnknownState, UnknownConfidence, reason, []), [],
                           [Diagnostic("missing_prerequisite", reason, def.id)])
  }

  lemma EvaluatesMeans(def: Definition, scope: Scope, d: Dataset, resolved: map<string, Capability>, observed: bool,
                       res: Resolution, before: seq<Evidence>, after: seq<Evidence>)
    requires Evaluates(def, scope, d.(evidence := before), resolved, observed, res, after)
    ensures RunsOrWaits(def, scope, d, Reason(def, resolved, observed), res, before, after)
  {
    if Reason(def, resolved, observed) == "" {
      var generated := def.evaluator.run(scope, d.observations);
      forall ev | ev in generated ensures ev.claim == def.id && ev.scope == scope {
        var i :| 0 <= i < |generated| && generated[i] == ev;
      }
    }
  }

  lemma ReasonMeans(def: Definition, ds: seq<Definition>, rs: seq<Resolution>, k: nat, observed: bool)
    requires ValidDefinitions(ds) && NamedAfter(rs, ds) && k <= |rs|
    ensures var reason := Reason(def, ResolvedSoFar(rs[..k]), observed);
      && (reason == "" <==> Ready(def, rs, k, observed))
      && (!observed ==> reason == "execution or target identity is unobserved")
      && (observed && reason != "" ==> NamesFirstMissing(reason, def, rs, k))
  {
    assert def.dependencies[0..] == def.dependencies;
    ReasonNamesFirst(def, def.dependencies, 0, ds, rs, k);
  }

  lemma OutcomeComesOut(ds: seq<Definition>, scope: Scope, d: Dataset, rs: seq<Resolution>, observed: bool, k: nat,
                        before: seq<Evidence>, after: seq<Evidence>, reason: string)
    requires k < |ds| == |rs| && forall i :: 0 <= i < |ds| ==> ds[i].evaluator.Evaluator?
    requires reason == "" <==> Ready(ds[k], rs, k, observed)
    requires !observed ==> reason == "execution or target identity is unobserved"
    requires observed && reason != "" ==> NamesFirstMissing(reason, ds[k], rs, k)
    requires before == Gathered(ds, scope, d, rs, observed, k)
    requires RunsOrWaits(ds[k], scope, d, reason, rs[k], before, after)
    ensures ComesOut(ds, scope, d, rs, observed, k) && after == Gathered(ds, scope, d, rs, observed, k + 1)
  {
    if reason != "" {
      assert before + [] == before;
    }
  }

  /** The first `n` definitions come out. */
  ghost predicate ComeOutTo(ds: seq<Definition>, scope: Scope, d: Dataset, rs: seq<Resolution>, observed: bool, n: nat)
  {
    && n <= |ds| == |rs| && (forall i :: 0 <= i < |ds| ==> ds[i].evaluator.Evaluator?)
    && forall i :: 0 <= i < n ==> ComesOut(ds, scope, d, rs, observed, i)
  }

  lemma OneMoreComesOut(ds: seq<Definition>, scope: Scope, d: Dataset, rs: seq<Resolution>, observed: bool, n: nat)
    requires n < |ds| && ComeOutTo(ds, scope, d, rs, observed, n) && ComesOut(ds, scope, d, rs, observed, n)
    ensures ComeOutTo(ds, scope, d, rs, observed, n + 1)
  {
  }

  lemma HaveEvaluators(ds: seq<Definition>)
    requires ValidDefinitions(ds)
    ensures forall i :: 0 <= i < |ds| ==> ds[i].evaluator.Evaluator?
  {
    forall i | 0 <= i < |ds| ensures ds[i].evaluator.Evaluator? {
      assert ValidDefinition(ds[i]);
    }
  }

  lemma StepComesOut(ds: seq<Definition>, scope: Scope, d: Dataset, rs: seq<Resolution>, observed: bool, k: nat,
                     before: seq<Evidence>, after: seq<Evidence>)
    requires ValidDefinitions(ds) && NamedAfter(rs, ds) && k < |ds| && ComeOutTo(ds, scope, d, rs, observed, k)
    requires before == Gathered(ds, scope, d, rs, observed, k)
    requires StepOf(scope, d, observed)(ds[k], rs[..k], before, rs[k], after)
    ensures ComeOutTo(ds, scope, d, rs, observed, k + 1) && after == Gathered(ds, scope, d, rs, observed, k + 1)
  {
    var reason := Reason(ds[k], ResolvedSoFar(rs[..k]), observed);
    EvaluatesMeans(ds[k], scope, d, ResolvedSoFar(rs[..k]), observed, rs[k], before, after);
    ReasonMeans(ds[k], ds, rs, k, observed);
    OutcomeComesOut(ds, scope, d, rs, observed, k, before, after, reason);
    OneMoreComesOut(ds, scope, d, rs, observed, k);
  }

  /** After `k` definitions, which all came out, the evidence is what was gathered. */
  ghost function Progress(ds: seq<Definition>, scope: Scope, d: Dataset, rs: seq<Resolution>, observed: bool):
      (nat, seq<Evidence>) -> bool {
    (k: nat, es: seq<Evidence>) =>
      ComeOutTo(ds, scope, d, rs, observed, k) && es == Gathered(ds, scope, d, rs, observed, k)
  }

  lemma StepsProgress(ds: seq<Definition>, scope: Scope, d: Dataset, rs: seq<Resolution>, observed: bool, k: nat,
                      before: seq<Evidence>, after: seq<Evidence>)
    requires ValidDefinitions(ds) && NamedAfter(rs, ds) && k < |ds|
    requires Progress(ds, scope, d, rs, observed)(k, before)
    requires StepOf(scope, d, observed)(ds[k], rs[..k], before, rs[k], after)
    ensures Progress(ds, scope, d, rs, observed)(k + 1, after)
  {
    StepComesOut(ds, scope, d, rs, observed, k, before, after);
  }

  lemma ChainComesOut(ds: seq<Definition>, scope: Scope, d: Dataset, rs: seq<Resolution>, observed: bool,
                      after: seq<Evidence>)
    requires ValidDefinitions(ds) && NamedAfter(rs, ds)
    requires Chain(ds[..|ds|], StepOf(scope, d, observed), d.evidence, rs[..|ds|], after)
    ensures ComeOutTo(ds, scope, d, rs, observed, |ds|)
    ensures after == Gathered(ds, scope, d, rs, observed, |ds|)
  {
    var step, holds := StepOf(scope, d, observed), Progress(ds, scope, d, rs, observed);
    assert holds(0, d.evidence) by {
      HaveEvaluators(ds);
    }
    forall k: nat, s, e | k < |ds| && holds(k, s) && step(ds[k], rs[..k], s, rs[k], e) ensures holds(k + 1, e) {
      StepsProgress(ds, scope, d, rs, observed, k, s, e);
    }
    ChainPasses(ds, step, d.evidence, rs, after, |ds|, holds);
    assert holds(|ds|, after);
  }

  // --- What the result says ---

  /** What a ready definition adds is about its own capability. */
  ghost predicate ClaimsItsOwn(def: Definition, scope: Scope, d: Dataset) {
    def.evaluator.Evaluator? && forall ev :: ev in def.evaluator.run(scope, d.observations) ==>
      ev.claim == def.id && ev.scope == scope
  }

  /** Definitions after the k-th add nothing about its capability. */
  lemma {:induction false} LaterClaimsDiffer(ds: seq<Definition>, scope: Scope, d: Dataset, rs: seq<Resolution>,
                                             observed: bool, k: nat, n: nat, ev: Evidence)
    requires k < n <= |ds| == |rs| && ev.claim == ds[k].id
    requires forall i :: 0 <= i < |ds| ==> ds[i].evaluator.Evaluator?
    requires forall i :: 0 <= i < |ds| && Ready(ds[i], rs, i, observed) ==> ClaimsItsOwn(ds[i], scope, d)
    requires forall i, j :: 0 <= i < j < |ds| ==> ds[i].id != ds[j].id
    ensures ev in Gathered(ds, scope, d, rs, observed, n) <==> ev in Gathered(ds, scope, d, rs, observed, k + 1)
    decreases n
  {
    if n > k + 1 {
      LaterClaimsDiffer(ds, scope, d, rs, observed, k, n - 1, ev);
      OneMoreGathered(ds, scope, d, rs, observed, n, ev);
    }
  }

  lemma OneMoreGathered(ds: seq<Definition>, scope: Scope, d: Dataset, rs: seq<Resolution>, observed: bool, n: nat,
                        ev: Evidence)
    requires 0 < n <= |ds| == |rs| && ev.claim != ds[n - 1].id
    requires forall i :: 0 <= i < |ds| ==> ds[i].evaluator.Evaluator?
    requires Ready(ds[n - 1], rs, n - 1, observed) ==> ClaimsItsOwn(ds[n - 1], scope, d)
    ensures ev in Gathered(ds, scope, d, rs, observed, n) <==> ev in Gathered(ds, scope, d, rs, observed, n - 1)
  {
  }

  lemma SameLeaders(ds: seq<Definition>, scope: Scope, d: Dataset, rs: seq<Resolution>, observed: bool, k: nat,
                    final: seq<Evidence>)
    requires k < |ds| == |rs| && (forall i, j :: 0 <= i < j < |ds| ==> ds[i].id != ds[j].id)
    requires ComeOutTo(ds, scope, d, rs, observed, |ds|)
    requires forall ev :: ev in final <==> ev in Gathered(ds, scope, d, rs, observed, |ds|) && ev.scope == scope
    ensures var next := Gathered(ds, scope, d, rs, observed, k + 1);
      forall ev :: Leads(ev, final, scope, ds[k].id, d.at) <==> Leads(ev, next, scope, ds[k].id, d.at)
  {
    var next := Gathered(ds, scope, d, rs, observed, k + 1);
    forall i | 0 <= i < |ds| && Ready(ds[i], rs, i, observed) ensures ClaimsItsOwn(ds[i], scope, d) {
      assert ComesOut(ds, scope, d, rs, observed, i);
    }
    forall ev ensures Counts(ev, final, scope, ds[k].id, d.at) <==> Counts(ev, next, scope, ds[k].id, d.at) {
      if ev.claim == ds[k].id {
        LaterClaimsDiffer(ds, scope, d, rs, observed, k, |ds|, ev);
      }
    }
  }

  /** `observed` says of the context that the scope names whether both of its identities are known. */
  ghost predicate TargetKnown(d: Dataset, scope: Scope, observed: bool) {
    exists k :: 0 <= k < |d.contexts| && d.contexts[k].id == scope.contextID
                && observed == (d.contexts[k].currentObserved && d.contexts[k].targetObserved)
  }

  /** The candidate holds the capabilities of the resolutions, and the evidence in scope that there is in the end. */
  ghost predicate IsCandidateOf(c: Candidate, ds: seq<Definition>, scope: Scope, d: Dataset, rs: seq<Resolution>,
                                observed: bool) {
    && |rs| == |ds| && (forall i :: 0 <= i < |ds| ==> ds[i].evaluator.Evaluator?)
    && c.scope == scope && |c.capabilities| == |ds|
    && (forall k :: 0 <= k < |ds| ==> c.capabilities[k] == rs[k].capability)
    && (forall ev :: ev in c.evidence <==> ev in Gathered(ds, scope, d, rs, observed, |ds|) && ev.scope == scope)
  }

  /** The candidate's evidence, and the outcome of every definition. */
  lemma EvaluationComesOut(ds: seq<Definition>, scope: Scope, d: Dataset, e: Evaluation) returns (observed: bool)
    requires Catalog(ds) && IsEvaluation(ds, scope, d, e)
    ensures TargetKnown(d, scope, observed) && NamedAfter(e.resolutions, ds)
    ensures ComeOutTo(ds, scope, d, e.resolutions, observed, |ds|)
    ensures IsCandidateOf(e.candidate, ds, scope, d, e.resolutions, observed)
  {
    var after;
    observed, after :| IsResult(ds, scope, d, e, observed, after);
    ResultComesOut(ds, scope, d, e, observed, after);
    var k :| 0 <= k < |d.contexts| && d.contexts[k].id == scope.contextID;
  }

  lemma ResultComesOut(ds: seq<Definition>, scope: Scope, d: Dataset, e: Evaluation, observed: bool,
                       after: seq<Evidence>)
    requires ValidDefinitions(ds) && IsResult(ds, scope, d, e, observed, after)
    ensures NamedAfter(e.resolutions, ds) && ComeOutTo(ds, scope, d, e.resolutions, observed, |ds|)
    ensures IsCandidateOf(e.candidate, ds, scope, d, e.resolutions, observed)
  {
    CapabilitiesFit(ds, scope, d, e, observed, after);
    assert ds[..|ds|] == ds && e.resolutions[..|ds|] == e.resolutions;
    ChainComesOut(ds, scope, d, e.resolutions, observed, after);
    InScopeMembers(after, scope);
  }

  /**
   Every capability of an evaluation follows from the candidate's own records. A definition that is not ready is held
   back, with the reason; one that is has the state that the leading evidence of the candidate reports, if it reports
   one, and the least confidence that this evidence lends.
   */
  lemma CapabilityFollowsEvidence(ds: seq<Definition>, scope: Scope, d: Dataset, e: Evaluation, k: nat)
    returns (observed: bool)
    requires Catalog(ds) && IsEvaluation(ds, scope, d, e) && k < |ds|
    ensures TargetKnown(d, scope, observed)
    ensures |e.candidate.capabilities| == |ds| == |e.resolutions|
    ensures var c, final := e.candidate.capabilities[k], e.candidate.evidence;
      && c.id == ds[k].id && c.scope == scope
      && (!Ready(ds[k], e.resolutions, k, observed) ==>
            IsHeldBack(e.resolutions[k], ds[k], scope, e.resolutions, k, observed) && c == e.resolutions[k].capability)
      && (Ready(ds[k], e.resolutions, k, observed) ==> Follows(c, final, d.at))
  {
    observed := EvaluationComesOut(ds, scope, d, e);
    QuestionIsValid(ds, scope, d, e, k);
    DefinitionsMean(ds);
    OutcomeFollows(ds, scope, d, e.resolutions, observed, k, e.candidate);
  }

  lemma OutcomeFollows(ds: seq<Definition>, scope: Scope, d: Dataset, rs: seq<Resolution>, observed: bool, k: nat,
                       c: Candidate)
    requires NamedAfter(rs, ds) && ComeOutTo(ds, scope, d, rs, observed, |ds|) && k < |ds|
    requires IsCandidateOf(c, ds, scope, d, rs, observed)
    requires forall i, j :: 0 <= i < j < |ds| ==> ds[i].id != ds[j].id
    requires scope.IsValid() && ValidCapabilityID(ds[k].id) && d.at != 0
    ensures rs[k].capability.scope == scope
    ensures !Ready(ds[k], rs, k, observed) ==> IsHeldBack(rs[k], ds[k], scope, rs, k, observed)
    ensures Ready(ds[k], rs, k, observed) ==> Follows(rs[k].capability, c.evidence, d.at)
  {
    assert ComesOut(ds, scope, d, rs, observed, k);
    if Ready(ds[k], rs, k, observed) {
      var next := Gathered(ds, scope, d, rs, observed, k + 1);
      SameLeaders(ds, scope, d, rs, observed, k, c.evidence);
      ResolutionDecides(rs[k], next, scope, ds[k].id, d.at);
      LeadersCarryOver(rs[k].capability, next, c.evidence, d.at);
    }
  }

  lemma QuestionIsValid(ds: seq<Definition>, scope: Scope, d: Dataset, e: Evaluation, k: nat)
    requires Catalog(ds) && IsEvaluation(ds, scope, d, e) && k < |ds|
    ensures scope.IsValid() && ValidCapabilityID(ds[k].id) && d.at != 0
  {
    assert ValidDefinition(ds[k]);
  }

  /** The capability is what the leading evidence about it says. */
  ghost predicate Follows(c: Capability, evidence: seq<Evidence>, at: Time) {
    && (c.state != UnknownState ==>
          && LeadersReport(c.state, evidence, c.scope, c.id, at)
          && (forall ev :: Leads(ev, evidence, c.scope, c.id, at) ==> Strength(c.confidence) <= Lends(ev))
          && (exists ev :: Leads(ev, evidence, c.scope, c.id, at) && Strength(c.confidence) == Lends(ev)))
    && (c.state == UnknownState ==>
          && c.confidence == UnknownConfidence
          && forall state :: LeadersReport(state, evidence, c.scope, c.id, at) ==> state == UnknownState)
  }

  lemma LeadersCarryOver(c: Capability, next: seq<Evidence>, final: seq<Evidence>, at: Time)
    requires Follows(c, next, at)
    requires forall ev :: Leads(ev, final, c.scope, c.id, at) <==> Leads(ev, next, c.scope, c.id, at)
    ensures Follows(c, final, at)
  {
    forall state | LeadersReport(state, final, c.scope, c.id, at)
      ensures LeadersReport(state, next, c.scope, c.id, at) {}
  }

  // --- Requirements over a catalog ---

  /** The capabilities of the catalog show that the document holds (`yes`), or that it does not. */
  predicate Shows(ds: seq<Definition>, cs: seq<Capability>, t: RD.Tree, yes: bool)
    requires |cs| == |ds|
    decreases t
  {
    match t
    case Leaf(id) =>
      exists k :: 0 <= k < |ds| && ds[k].id == id
                  && if yes then cs[k].state == Supported
                     else cs[k].state == Unsupported || cs[k].state == Misconfigured
    case NotOf(child) => Shows(ds, cs, child, !yes)
    case AllOf(children) =>
      if yes then forall k :: 0 <= k < |children| ==> Shows(ds, cs, children[k], true)
      else exists k :: 0 <= k < |children| && Shows(ds, cs, children[k], false)
    case AnyOf(children) =>
      if yes then exists k :: 0 <= k < |children| && Shows(ds, cs, children[k], true)
      else forall k :: 0 <= k < |children| ==> Shows(ds, cs, children[k], false)
  }

  /** The requirement engine accepts the candidate and reads the state of every definition's capability. */
  predicate ReadsStates(ds: seq<Definition>, c: Candidate) {
    && RO.Acceptable(c) && |c.capabilities| == |ds|
    && forall k :: 0 <= k < |ds| ==> c.capabilities[k].id == ds[k].id && StateIsRead(c, k)
  }

  predicate StateIsRead(c: Candidate, k: nat)
    requires k < |c.capabilities|
  {
    RE.Predicate(c.capabilities[k].id, RE.IndexOf(c)).state == Reading(c.capabilities[k].state)
  }

  lemma EvaluationIsRead(ds: seq<Definition>, scope: Scope, d: Dataset, e: Evaluation)
    requires Catalog(ds) && IsEvaluation(ds, scope, d, e)
    ensures ReadsStates(ds, e.candidate)
  {
    CandidateIsAccepted(ds, scope, d, e);
    RO.AcceptedExactly(e.candidate);
    var observed := EvaluationComesOut(ds, scope, d, e);
    forall k | 0 <= k < |ds| ensures e.candidate.capabilities[k].id == ds[k].id && StateIsRead(e.candidate, k) {
      DecisionsAgree(ds, scope, d, e, k);
    }
  }

  lemma NamedLeafShows(ds: seq<Definition>, cs: seq<Capability>, k: nat, yes: bool)
    requires |cs| == |ds| && k < |ds|
    requires forall i, j :: 0 <= i < j < |cs| ==> cs[i].id != cs[j].id
    requires forall i :: 0 <= i < |ds| ==> cs[i].id == ds[i].id
    ensures Shows(ds, cs, RD.Leaf(ds[k].id), yes) <==>
      Reading(cs[k].state) == if yes then RL.Satisfied else RL.Unsatisfied
  {
    forall j | 0 <= j < |ds| && ds[j].id == ds[k].id ensures j == k {
      assert cs[j].id == cs[k].id;
    }
    CanonicalReading(cs[k]);
  }

  lemma MissingIsOpen(c: Candidate, id: string)
    requires forall k :: 0 <= k < |c.capabilities| ==> c.capabilities[k].id != id
    ensures RE.Predicate(id, RE.IndexOf(c)).state == RL.Indeterminate
  {
    assert id !in RE.CapabilityIDs(c.capabilities);
  }

  lemma LeafShows(ds: seq<Definition>, c: Candidate, id: string)
    requires ReadsStates(ds, c)
    ensures RE.Predicate(id, RE.IndexOf(c)).state == RL.Satisfied <==> Shows(ds, c.capabilities, RD.Leaf(id), true)
    ensures RE.Predicate(id, RE.IndexOf(c)).state == RL.Unsatisfied <==> Shows(ds, c.capabilities, RD.Leaf(id), false)
  {
    if k :| 0 <= k < |ds| && ds[k].id == id {
      NamedLeafShows(ds, c.capabilities, k, true);
      NamedLeafShows(ds, c.capabilities, k, false);
      assert StateIsRead(c, k);
    } else {
      MissingIsOpen(c, id);
    }
  }

  lemma LeafProves(ds: seq<Definition>, c: Candidate, id: string, yes: bool)
    requires ReadsStates(ds, c)
    ensures RO.Proves(c, RD.Leaf(id), yes) <==> Shows(ds, c.capabilities, RD.Leaf(id), yes)
  {
    LeafShows(ds, c, id);
    RO.LeafDecides(id, c);
  }

  lemma CanonicalReading(c: Capability)
    ensures Reading(c.state) == RL.Satisfied <==> c.state == Supported
    ensures Reading(c.state) == RL.Unsatisfied <==> c.state == Unsupported || c.state == Misconfigured
  {
  }

  lemma {:induction false} TreeShows(ds: seq<Definition>, c: Candidate, t: RD.Tree, yes: bool)
    requires ReadsStates(ds, c)
    ensures RO.Proves(c, t, yes) <==> Shows(ds, c.capabilities, t, yes)
    decreases t, 1
  {
    match t
    case Leaf(id) =>
      LeafProves(ds, c, id, yes);
    case NotOf(child) =>
      TreeShows(ds, c, child, !yes);
    case AllOf(children) =>
      ListShows(ds, c, t, yes);
    case AnyOf(children) =>
      ListShows(ds, c, t, yes);
  }

  lemma {:induction false} ListShows(ds: seq<Definition>, c: Candidate, t: RD.Tree, yes: bool)
    requires ReadsStates(ds, c) && (t.AllOf? || t.AnyOf?)
    ensures forall k :: 0 <= k < |t.children| ==>
      (RO.Proves(c, t.children[k], yes) <==> Shows(ds, c.capabilities, t.children[k], yes))
    decreases t, 0
  {
    forall k | 0 <= k < |t.children|
      ensures RO.Proves(c, t.children[k], yes) <==> Shows(ds, c.capabilities, t.children[k], yes)
    {
      TreeShows(ds, c, t.children[k], yes);
    }
  }

  lemma DocumentReadsStates(result: RE.Result, root: RD.Node?, t: RD.Tree, doc: set<RD.Node>,
                            ds: seq<Definition>, c: Candidate)
    requires ReadsStates(ds, c)
    requires RD.Closed(doc) && (root != null ==> root in doc) && RE.IsAnswer(result, root, [c], doc)
    requires RO.Represents(root, t, doc) && RO.Within(t, 32) && |RO.Subtrees(t)| <= 512
    ensures result.state == RL.Satisfied <==> Shows(ds, c.capabilities, t, true)
    ensures result.state == RL.Unsatisfied <==> Shows(ds, c.capabilities, t, false)
    ensures result.state.IsValid() && (result.state == RL.Indeterminate ==> result.diagnostics != [])
  {
    RO.AnswerDecides(result, root, t, [c], doc);
    TreeShows(ds, c, t, true);
    TreeShows(ds, c, t, false);
    assert [c][0] == c;
  }

  /**
   A requirement document over an evaluated catalog: satisfied when the capability states show that it holds,
   unsatisfied when they show that it does not, and open otherwise.
   */
  lemma DocumentReadsCatalog(result: RE.Result, root: RD.Node?, t: RD.Tree, doc: set<RD.Node>,
                             ds: seq<Definition>, scope: Scope, d: Dataset, e: Evaluation)
    requires Catalog(ds) && IsEvaluation(ds, scope, d, e)
    requires RD.Closed(doc) && (root != null ==> root in doc) && RE.IsAnswer(result, root, [e.candidate], doc)
    requires RO.Represents(root, t, doc) && RO.Within(t, 32) && |RO.Subtrees(t)| <= 512
    ensures |e.candidate.capabilities| == |ds|
    ensures result.state == RL.Satisfied <==> Shows(ds, e.candidate.capabilities, t, true)
    ensures result.state == RL.Unsatisfied <==> Shows(ds, e.candidate.capabilities, t, false)
    ensures result.state.IsValid() && (result.state == RL.Indeterminate ==> result.diagnostics != [])
  {
    EvaluationIsRead(ds, scope, d, e);
    DocumentReadsStates(result, root, t, doc, ds, e.candidate);
  }

  /** A capability outside the catalog, or its negation, is never decided. */
  lemma UnknownNameStaysOpen(result: RE.Result, root: RD.Node?, t: RD.Tree, id: string, doc: set<RD.Node>,
                             ds: seq<Definition>, scope: Scope, d: Dataset, e: Evaluation)
    requires Catalog(ds) && IsEvaluation(ds, scope, d, e)
    requires RD.Closed(doc) && (root != null ==> root in doc) && RE.IsAnswer(result, root, [e.candidate], doc)
    requires RO.Represents(root, t, doc) && (t == RD.Leaf(id) || t == RD.NotOf(RD.Leaf(id)))
    requires forall k :: 0 <= k < |ds| ==> ds[k].id != id
    ensures result.state == RL.Indeterminate && result.diagnostics != []
  {
    assert |RO.Subtrees(t)| <= 2;
    DocumentReadsCatalog(result, root, t, doc, ds, scope, d, e);
  }

  // --- Lists of the result ---

  /** The diagnostics of an evaluation are those of its resolutions, one after the other. */
  lemma {:induction false} DiagnosticsMean(a: seq<Resolution>, b: seq<Resolution>)
    ensures AllDiagnostics(a + b) == AllDiagnostics(a) + AllDiagnostics(b)
    ensures |b| == 1 ==> AllDiagnostics(b) == b[0].diagnostics
    decreases |b|
  {
    if b == [] {
      assert a + b == a;
    } else {
      assert (a + b)[..|a + b| - 1] == a + b[..|b| - 1];
      DiagnosticsMean(a, b[..|b| - 1]);
    }
  }

  /** The evidence of a candidate is in the order in which it was there or was added. */
  lemma {:induction false} ScopeKeepsOrder(es: seq<Evidence>, scope: Scope, i: nat, j: nat) returns (a: nat, b: nat)
    requires i < j < |InScope(es, scope)|
    ensures a < b < |es| && es[a] == InScope(es, scope)[i] && es[b] == InScope(es, scope)[j]
  {
    var front := es[..|es| - 1];
    if j < |InScope(front, scope)| {
      a, b := ScopeKeepsOrder(front, scope, i, j);
    } else {
      InScopeMembers(front, scope);
      assert InScope(front, scope)[i] in InScope(front, scope);
      a :| 0 <= a < |front| && front[a] == InScope(front, scope)[i];
      b := |es| - 1;
    }
  }
}
