/** The evaluation of requirement documents over candidate deployments, internal/requirement/evaluate.go. */
module RequirementEvaluation {
  import opened Options
  import opened Seqs
  import opened EvidenceModel
  import opened RequirementLogic
  import opened RequirementDocument

  const MAX_CANDIDATES := 128
  const MAX_CANDIDATE_ENTRIES := 4096

  datatype Result = Result(
    state: RequirementState, reason: string, scope: Option<Scope>, diagnostics: seq<Diagnostic>, children: seq<Result>)

  datatype CandidateError =
    InvalidScope | TooLarge | InvalidCapability | OtherScope | DuplicateCapability | DuplicateEvidence

  datatype CandidateIndex = CandidateIndex(scope: Scope, caps: map<string, Capability>, evidence: map<string, Evidence>)

  function ValidationText(err: ValidationError): string {
    match err
    case NilNode => "nil requirement node"
    case SizeLimit => "requirement size limit exceeded"
    case CyclicDocument => "cyclic requirement document"
    case OperatorCount => "requirement node needs exactly one operator"
    case InvalidID => "invalid capability ID"
  }

  function CandidateText(err: CandidateError): string {
    match err
    case InvalidScope => "invalid evaluation scope"
    case TooLarge => "candidate size limit exceeded"
    case InvalidCapability => "invalid capability"
    case OtherScope => "capability scope differs from deployment candidate"
    case DuplicateCapability => "duplicate capability in deployment candidate"
    case DuplicateEvidence => "duplicate evidence in deployment candidate"
  }

  function StateText(s: CapabilityState): string {
    match s
    case Supported => "supported"
    case Unsupported => "unsupported"
    case Misconfigured => "misconfigured"
    case Unavailable => "unavailable"
    case UnknownState => "unknown"
    case OtherState(text) => text
  }

  function Uncertain(code: string, reason: string): Result {
    Result(Indeterminate, reason, None, [Diagnostic(code, reason, "")], [])
  }

  // --- Candidates ---

  function CapabilityIDs(cs: seq<Capability>): (r: seq<string>)
    ensures |r| == |cs|
  {
    seq(|cs|, k requires 0 <= k < |cs| => cs[k].id)
  }

  function CapabilitiesByID(cs: seq<Capability>): (m: map<string, Capability>)
    ensures forall id :: id in m <==> id in CapabilityIDs(cs)
    ensures forall id :: id in m ==> m[id] in cs && m[id].id == id
  {
    if cs == [] then map[]
    else
      var front, last := cs[..|cs| - 1], cs[|cs| - 1];
      assert cs == front + [last];
      assert CapabilityIDs(cs) == CapabilityIDs(front) + [last.id];
      CapabilitiesByID(front)[last.id := last]
  }

  function EvidenceByID(es: seq<Evidence>): (m: map<string, Evidence>)
    ensures forall id :: id in m ==> m[id] in es && m[id].id == id
    ensures forall k :: 0 <= k < |es| ==> es[k].id in m
  {
    if es == [] then map[]
    else
      var front, last := es[..|es| - 1], es[|es| - 1];
      assert es == front + [last];
      assert forall k :: 0 <= k < |front| ==> es[k] == front[k];
      EvidenceByID(front)[last.id := last]
  }

  /** What is wrong with one more capability after the ones before it. */
  function OneFault(before: seq<Capability>, c: Capability, scope: Scope): Option<CandidateError> {
    if !c.Validates() then Some(InvalidCapability)
    else if c.scope != scope then Some(OtherScope)
    else if c.id in CapabilitiesByID(before) then Some(DuplicateCapability)
    else None
  }

  /** The first fault in the list of capabilities. */
  function CapabilityFault(cs: seq<Capability>, scope: Scope): Option<CandidateError> {
    if cs == [] then None
    else
      var earlier := CapabilityFault(cs[..|cs| - 1], scope);
      if earlier.Some? then earlier else OneFault(cs[..|cs| - 1], cs[|cs| - 1], scope)
  }

  predicate EvidenceRepeats(es: seq<Evidence>) {
    es != [] && (EvidenceRepeats(es[..|es| - 1]) || es[|es| - 1].id in EvidenceByID(es[..|es| - 1]))
  }

  /** Why a candidate is refused, if it is. */
  function CandidateFault(c: Candidate): Option<CandidateError> {
    if !c.scope.IsValid() then Some(InvalidScope)
    else if |c.capabilities| > MAX_CANDIDATE_ENTRIES || |c.evidence| > MAX_CANDIDATE_ENTRIES then Some(TooLarge)
    else if CapabilityFault(c.capabilities, c.scope).Some? then CapabilityFault(c.capabilities, c.scope)
    else if EvidenceRepeats(c.evidence) then Some(DuplicateEvidence)
    else None
  }

  function IndexOf(c: Candidate): CandidateIndex {
    CandidateIndex(c.scope, CapabilitiesByID(c.capabilities), EvidenceByID(c.evidence))
  }

  lemma {:induction false} FaultIsSticky(cs: seq<Capability>, scope: Scope, k: nat)
    requires k <= |cs| && CapabilityFault(cs[..k], scope).Some?
    ensures CapabilityFault(cs, scope) == CapabilityFault(cs[..k], scope)
    decreases |cs|
  {
    if k == |cs| {
      assert cs[..k] == cs;
    } else {
      assert cs[..|cs| - 1][..k] == cs[..k];
      FaultIsSticky(cs[..|cs| - 1], scope, k);
    }
  }

  lemma {:induction false} RepeatIsSticky(es: seq<Evidence>, k: nat)
    requires k <= |es| && EvidenceRepeats(es[..k])
    ensures EvidenceRepeats(es)
    decreases |es|
  {
    if k == |es| {
      assert es[..k] == es;
    } else {
      assert es[..|es| - 1][..k] == es[..k];
      RepeatIsSticky(es[..|es| - 1], k);
    }
  }

  /** The first fault is final; without one the next capability extends the index. */
  lemma NextFault(cs: seq<Capability>, scope: Scope, k: nat)
    requires k < |cs| && CapabilityFault(cs[..k], scope) == None
    ensures CapabilityFault(cs[..k + 1], scope) == OneFault(cs[..k], cs[k], scope)
    ensures OneFault(cs[..k], cs[k], scope).Some? ==> CapabilityFault(cs, scope) == OneFault(cs[..k], cs[k], scope)
    ensures CapabilitiesByID(cs[..k + 1]) == CapabilitiesByID(cs[..k])[cs[k].id := cs[k]]
  {
    assert cs[..k + 1][..k] == cs[..k];
    if OneFault(cs[..k], cs[k], scope).Some? {
      FaultIsSticky(cs, scope, k + 1);
    }
  }

  method IndexCapabilities(cs: seq<Capability>, scope: Scope)
    returns (caps: map<string, Capability>, err: Option<CandidateError>)
    ensures err == CapabilityFault(cs, scope)
    ensures err.None? ==> caps == CapabilitiesByID(cs)
  {
    caps := map[];
    var k := 0;
    while k < |cs|
      invariant 0 <= k <= |cs|
      invariant CapabilityFault(cs[..k], scope) == None && caps == CapabilitiesByID(cs[..k])
    {
      var capability := cs[k];
      NextFault(cs, scope, k);
      if !capability.Validates() { return caps, Some(InvalidCapability); }
      if capability.scope != scope { return caps, Some(OtherScope); }
      if capability.id in caps { return caps, Some(DuplicateCapability); }
      caps := caps[capability.id := capability];
      k := k + 1;
    }
    assert cs[..k] == cs;
    return caps, None;
  }

  method IndexEvidence(es: seq<Evidence>) returns (evidence: map<string, Evidence>, err: Option<CandidateError>)
    ensures err == if EvidenceRepeats(es) then Some(DuplicateEvidence) else None
    ensures err.None? ==> evidence == EvidenceByID(es)
  {
    evidence := map[];
    var k := 0;
    while k < |es|
      invariant 0 <= k <= |es|
      invariant !EvidenceRepeats(es[..k]) && evidence == EvidenceByID(es[..k])
    {
      assert es[..k + 1][..k] == es[..k];
      if es[k].id in evidence {
        RepeatIsSticky(es, k + 1);
        return evidence, Some(DuplicateEvidence);
      }
      evidence := evidence[es[k].id := es[k]];
      k := k + 1;
    }
    assert es[..k] == es;
    return evidence, None;
  }

  method IndexCandidate(c: Candidate) returns (index: CandidateIndex, err: Option<CandidateError>)
    ensures err == CandidateFault(c)
    ensures err.None? ==> index == IndexOf(c)
  {
    index := CandidateIndex(c.scope, map[], map[]);
    if !c.scope.IsValid() { return index, Some(InvalidScope); }
    if |c.capabilities| > MAX_CANDIDATE_ENTRIES || |c.evidence| > MAX_CANDIDATE_ENTRIES {
      return index, Some(TooLarge);
    }
    var caps, capErr := IndexCapabilities(c.capabilities, c.scope);
    if capErr.Some? { return index, capErr; }
    index := index.(caps := caps);
    var evidence, evErr := IndexEvidence(c.evidence);
    if evErr.Some? { return index, evErr; }
    index := index.(evidence := evidence);
    return index, None;
  }

  /** A candidate is accepted exactly when it is in scope, small enough and has no repeated identifier. */
  lemma AcceptedMeansWellFormed(c: Candidate)
    ensures CandidateFault(c) == None <==>
      && c.scope.IsValid() && |c.capabilities| <= MAX_CANDIDATE_ENTRIES && |c.evidence| <= MAX_CANDIDATE_ENTRIES
      && AllFit(c.capabilities, c.scope) && DistinctCapabilities(c.capabilities)
      && DistinctEvidence(c.evidence)
  {
    NoFaultMeans(c.capabilities, c.scope);
    NoRepeatMeans(c.evidence);
  }

  predicate Fitting(c: Capability, scope: Scope) {
    c.Validates() && c.scope == scope
  }

  predicate AllFit(cs: seq<Capability>, scope: Scope) {
    forall k :: 0 <= k < |cs| ==> Fitting(cs[k], scope)
  }

  predicate DistinctCapabilities(cs: seq<Capability>) {
    forall i, j :: 0 <= i < j < |cs| ==> cs[i].id != cs[j].id
  }

  lemma DistinctCapabilitiesMeans(cs: seq<Capability>)
    ensures DistinctCapabilities(cs) <==> Distinct(CapabilityIDs(cs))
  {
    forall k | 0 <= k < |cs| ensures CapabilityIDs(cs)[k] == cs[k].id {}
    if Distinct(CapabilityIDs(cs)) {
      forall i, j | 0 <= i < j < |cs| ensures cs[i].id != cs[j].id {
        assert CapabilityIDs(cs)[i] != CapabilityIDs(cs)[j];
      }
    }
  }

  lemma NewIdentifier(front: seq<Capability>, last: Capability)
    ensures DistinctCapabilities(front + [last]) <==> DistinctCapabilities(front) && last.id !in CapabilitiesByID(front)
  {
    DistinctCapabilitiesMeans(front);
    DistinctCapabilitiesMeans(front + [last]);
    assert CapabilityIDs(front + [last]) == CapabilityIDs(front) + [last.id];
    DistinctStep(CapabilityIDs(front), last.id);
  }

  lemma OneMoreFits(front: seq<Capability>, last: Capability, scope: Scope)
    ensures AllFit(front + [last], scope) <==> AllFit(front, scope) && Fitting(last, scope)
  {
    var cs := front + [last];
    assert cs[|front|] == last;
    if AllFit(cs, scope) {
      forall k | 0 <= k < |front| ensures Fitting(front[k], scope) {
        assert Fitting(cs[k], scope);
      }
    }
  }

  lemma NoFaultStep(front: seq<Capability>, last: Capability, scope: Scope)
    ensures CapabilityFault(front + [last], scope) == None <==>
      CapabilityFault(front, scope) == None && Fitting(last, scope) && last.id !in CapabilitiesByID(front)
  {
    assert (front + [last])[..|front|] == front;
  }

  lemma {:induction false} NoFaultMeans(cs: seq<Capability>, scope: Scope)
    ensures CapabilityFault(cs, scope) == None <==> AllFit(cs, scope) && DistinctCapabilities(cs)
  {
    if cs != [] {
      var front, last := cs[..|cs| - 1], cs[|cs| - 1];
      assert cs == front + [last];
      NoFaultMeans(front, scope);
      NewIdentifier(front, last);
      OneMoreFits(front, last, scope);
      NoFaultStep(front, last, scope);
    }
  }

  predicate DistinctEvidence(es: seq<Evidence>) {
    forall i, j :: 0 <= i < j < |es| ==> es[i].id != es[j].id
  }

  function IDsOf(es: seq<Evidence>): (r: seq<string>)
    ensures |r| == |es| && forall k :: 0 <= k < |es| ==> r[k] == es[k].id
  {
    seq(|es|, k requires 0 <= k < |es| => es[k].id)
  }

  lemma DistinctMeans(es: seq<Evidence>)
    ensures DistinctEvidence(es) <==> Distinct(IDsOf(es))
  {
    if Distinct(IDsOf(es)) {
      forall i, j | 0 <= i < j < |es| ensures es[i].id != es[j].id {
        assert IDsOf(es)[i] != IDsOf(es)[j];
      }
    }
  }

  lemma IndexedIDs(es: seq<Evidence>, id: string)
    ensures id in EvidenceByID(es) <==> id in IDsOf(es)
  {
    if id in EvidenceByID(es) {
      var k :| 0 <= k < |es| && es[k] == EvidenceByID(es)[id];
      assert IDsOf(es)[k] == id;
    }
  }

  lemma NewEvidence(front: seq<Evidence>, last: Evidence)
    ensures DistinctEvidence(front + [last]) <==> DistinctEvidence(front) && last.id !in EvidenceByID(front)
  {
    DistinctMeans(front);
    DistinctMeans(front + [last]);
    assert IDsOf(front + [last]) == IDsOf(front) + [last.id];
    DistinctStep(IDsOf(front), last.id);
    IndexedIDs(front, last.id);
  }

  lemma {:induction false} NoRepeatMeans(es: seq<Evidence>)
    ensures !EvidenceRepeats(es) <==> DistinctEvidence(es)
  {
    if es != [] {
      assert es == es[..|es| - 1] + [es[|es| - 1]];
      NoRepeatMeans(es[..|es| - 1]);
      NewEvidence(es[..|es| - 1], es[|es| - 1]);
    }
  }

  // --- Predicates ---

  /** The reference names complete evidence for exactly this determination. */
  predicate Supports(ref: string, id: string, state: CapabilityState, index: CandidateIndex) {
    && ref in index.evidence
    && var ev := index.evidence[ref];
      && ev.Validates() && ev.scope == index.scope && ev.completeness == Complete
      && ev.state == state && ev.claim == id && ev.confidence.IsValid()
  }

  function Predicate(id: string, index: CandidateIndex): Result {
    if id !in index.caps then Uncertain("missing_capability", "capability " + id + " was not evaluated")
    else
      var capability := index.caps[id];
      if capability.state == UnknownState || capability.state == Unavailable then
        Uncertain("indeterminate_capability", id + ": " + StateText(capability.state))
      else if capability.evidence == [] then
        Uncertain("missing_evidence", "capability " + id + " has no evidence")
      else if exists k ::
          0 <= k < |capability.evidence| && !Supports(capability.evidence[k], id, capability.state, index)
      then
        Uncertain("invalid_evidence", "capability " + id + " has invalid supporting evidence")
      else
        Result(if capability.state == Supported then Satisfied else Unsatisfied,
               id + ": " + StateText(capability.state), None, [], [])
  }

  // --- Trees ---

  function FoldStates(any: bool, rs: seq<Result>): RequirementState {
    if rs == [] then (if any then Unsatisfied else Satisfied)
    else
      var before, last := FoldStates(any, rs[..|rs| - 1]), rs[|rs| - 1].state;
      if any then Or(before, last) else And(before, last)
  }

  function Gather(rs: seq<Result>): seq<Diagnostic> {
    if rs == [] then [] else Gather(rs[..|rs| - 1]) + rs[|rs| - 1].diagnostics
  }

  function Combined(any: bool, reason: string, rs: seq<Result>): Result {
    Result(FoldStates(any, rs), reason, None, Gather(rs), rs)
  }

  function Negated(r: Result): Result {
    Result(Not(r.state), "not", None, r.diagnostics, [r])
  }

  /** The result of a finished tree on one candidate. */
  function EvalTree(t: Tree, index: CandidateIndex): Result {
    match t
    case Leaf(id) => Predicate(id, index)
    case NotOf(child) => Negated(EvalTree(child, index))
    case AllOf(children) => Combined(false, "all", EvalEach(children, index))
    case AnyOf(children) => Combined(true, "any", EvalEach(children, index))
  }

  function EvalEach(ts: seq<Tree>, index: CandidateIndex): (rs: seq<Result>)
    ensures |rs| == |ts|
  {
    if ts == [] then []
    else EvalEach(ts[..|ts| - 1], index) + [EvalTree(ts[|ts| - 1], index)]
  }

  lemma {:induction false} EvalEachAt(ts: seq<Tree>, index: CandidateIndex, k: nat)
    requires k < |ts|
    ensures EvalEach(ts, index)[k] == EvalTree(ts[k], index)
    decreases |ts|
  {
    if k < |ts| - 1 {
      EvalEachAt(ts[..|ts| - 1], index, k);
    }
  }

  lemma EvalEachPrefix(ts: seq<Tree>, k: nat, index: CandidateIndex)
    requires k < |ts|
    ensures EvalEach(ts[..k + 1], index) == EvalEach(ts[..k], index) + [EvalTree(ts[k], index)]
  {
    assert ts[..k + 1][..k] == ts[..k];
  }

  lemma FoldStep(any: bool, rs: seq<Result>, r: Result)
    ensures FoldStates(any, rs + [r]) == if any then Or(FoldStates(any, rs), r.state)
      else And(FoldStates(any, rs), r.state)
    ensures Gather(rs + [r]) == Gather(rs) + r.diagnostics
  {
    assert (rs + [r])[..|rs|] == rs;
  }

  /** `result` is what folding `rs` leaves. */
  ghost predicate IsFold(result: Result, any: bool, reason: string, rs: seq<Result>) {
    && result.state == FoldStates(any, rs)
    && result.reason == reason && result.scope == None
    && result.diagnostics == Gather(rs)
    && result.children == rs
  }

  lemma WholeFold(ts: seq<Tree>, k: nat, index: CandidateIndex, result: Result, any: bool, reason: string)
    requires k == |ts| && IsFold(result, any, reason, EvalEach(ts[..k], index))
    ensures result == Combined(any, reason, EvalEach(ts, index))
  {
    assert ts[..k] == ts;
  }

  /** One more child folded into a running result. */
  method Absorb(any: bool, result: Result, child: Result, ghost rs: seq<Result>) returns (next: Result)
    requires IsFold(result, any, result.reason, rs)
    ensures IsFold(next, any, result.reason, rs + [child])
  {
    FoldStep(any, rs, child);
    next := Result(
      if any then Or(result.state, child.state) else And(result.state, child.state), result.reason, None,
      result.diagnostics + child.diagnostics, result.children + [child]);
  }

  lemma UnfoldedNot(node: Node, depth: nat, doc: set<Node>, t: Tree)
    requires Closed(doc) && node in doc && Unfold(node, depth, doc) == Some(t) && node.capability == ""
      && node.not != null
    ensures depth > 0 && node.not in doc && t.NotOf? && Unfold(node.not, depth - 1, doc) == Some(t.child)
  {
    assert Children(node)[0] == node.not;
    UnfoldAllEach(Children(node), depth - 1, doc);
  }

  lemma UnfoldedList(node: Node, depth: nat, doc: set<Node>, t: Tree)
    requires Closed(doc) && node in doc && Unfold(node, depth, doc) == Some(t) && node.capability == ""
      && node.not == null
    ensures depth > 0 && (forall k :: 0 <= k < |Children(node)| && Children(node)[k] != null ==>
                          Children(node)[k] in doc)
    ensures node.any.Some? ==> t.AnyOf? && Children(node) == node.any.value
    ensures node.any.None? ==> t.AllOf? && node.all.Some? && Children(node) == node.all.value
    ensures UnfoldAll(Children(node), depth - 1, doc) == Some(t.children)
  {
  }

  /** Evaluation of an accepted node, which unfolds to `t`; the recursion is bounded by the depth of the unfolding. */
  method EvaluateNode(node: Node?, index: CandidateIndex, ghost depth: nat, ghost doc: set<Node>, ghost t: Tree)
    returns (result: Result)
    requires Closed(doc) && (node != null ==> node in doc)
    requires Unfold(node, depth, doc) == Some(t)
    ensures result == EvalTree(t, index)
    decreases depth, 0
  {
    if node.capability != "" {
      return Predicate(node.capability, index);
    }
    if node.not != null {
      UnfoldedNot(node, depth, doc, t);
      var child := EvaluateNode(node.not, index, depth - 1, doc, t.child);
      return Result(Not(child.state), "not", None, child.diagnostics, [child]);
    }
    UnfoldedList(node, depth, doc, t);
    if node.any.Some? {
      result := EvaluateList(true, "any", node.any.value, index, depth - 1, doc, t.children);
    } else {
      result := EvaluateList(false, "all", node.all.value, index, depth - 1, doc, t.children);
    }
  }

  /** The fold over the children, with Or when `any` and And otherwise. */
  method EvaluateList(any: bool, reason: string, children: seq<Node?>, index: CandidateIndex, ghost depth: nat,
                      ghost doc: set<Node>,
                      ghost trees: seq<Tree>)
    returns (result: Result)
    requires Closed(doc) && (forall k :: 0 <= k < |children| && children[k] != null ==> children[k] in doc)
    requires UnfoldAll(children, depth, doc) == Some(trees)
    ensures result == Combined(any, reason, EvalEach(trees, index))
    decreases depth, 1
  {
    UnfoldAllEach(children, depth, doc);
    ghost var rs := [];
    result := Result(if any then Unsatisfied else Satisfied, reason, None, [], []);
    var k := 0;
    while k < |children|
      invariant 0 <= k <= |children|
      invariant rs == EvalEach(trees[..k], index) && IsFold(result, any, reason, rs)
    {
      var child := EvaluateNode(children[k], index, depth, doc, trees[k]);
      EvalEachPrefix(trees, k, index);
      result := Absorb(any, result, child, rs);
      rs := rs + [child];
      k := k + 1;
    }
    WholeFold(trees, k, index, result, any, reason);
  }

  // --- Documents ---

  /** The result of one candidate, refused or evaluated, under its own scope. */
  function OutcomeOf(t: Tree, c: Candidate): Result {
    (match CandidateFault(c)
     case None => EvalTree(t, IndexOf(c))
     case Some(err) => Uncertain("invalid_candidate", CandidateText(err))).(scope := Some(c.scope))
  }

  function OutcomesOf(t: Tree, cs: seq<Candidate>): (rs: seq<Result>)
    ensures |rs| == |cs|
  {
    if cs == [] then [] else OutcomesOf(t, cs[..|cs| - 1]) + [OutcomeOf(t, cs[|cs| - 1])]
  }

  lemma {:induction false} OutcomesAt(t: Tree, cs: seq<Candidate>, k: nat)
    requires k < |cs|
    ensures OutcomesOf(t, cs)[k] == OutcomeOf(t, cs[k])
    decreases |cs|
  {
    if k < |cs| - 1 {
      OutcomesAt(t, cs[..|cs| - 1], k);
    }
  }

  lemma OutcomesPrefix(t: Tree, cs: seq<Candidate>, k: nat)
    requires k < |cs|
    ensures OutcomesOf(t, cs[..k + 1]) == OutcomesOf(t, cs[..k]) + [OutcomeOf(t, cs[k])]
  {
    assert cs[..k + 1][..k] == cs[..k];
  }

  /** The result of an accepted document over an acceptable number of candidates. */
  function Verdict(t: Tree, cs: seq<Candidate>): Result {
    Combined(true, "any complete deployment candidate", OutcomesOf(t, cs))
  }

  /** What evaluating a document over candidates answers. */
  ghost predicate IsAnswer(result: Result, root: Node?, candidates: seq<Candidate>, doc: set<Node>)
    requires Closed(doc) && (root != null ==> root in doc)
    reads doc
  {
    var tree := Unfold(root, MAX_DEPTH, doc);
    if !Fits(0, tree) then result == Uncertain("invalid_requirement", result.reason)
    else if candidates == [] || |candidates| > MAX_CANDIDATES then
      result == Uncertain("invalid_candidates", "missing or excessive deployment candidates")
    else result == Verdict(tree.value, candidates)
  }

  method Evaluate(root: Node?, candidates: seq<Candidate>, ghost doc: set<Node>) returns (result: Result)
    requires Closed(doc) && (root != null ==> root in doc)
    ensures IsAnswer(result, root, candidates, doc)
  {
    var err := Validate(root, doc);
    if err.Some? {
      return Uncertain("invalid_requirement", ValidationText(err.value));
    }
    if |candidates| == 0 || |candidates| > MAX_CANDIDATES {
      return Uncertain("invalid_candidates", "missing or excessive deployment candidates");
    }
    ghost var t := Unfold(root, MAX_DEPTH, doc).value;
    result := Result(Unsatisfied, "any complete deployment candidate", None, [], []);
    var k := 0;
    while k < |candidates|
      invariant 0 <= k <= |candidates|
      invariant IsFold(result, true, "any complete deployment candidate", OutcomesOf(t, candidates[..k]))
    {
      var child := EvaluateCandidate(root, candidates[k], t, doc);
      OutcomesPrefix(t, candidates, k);
      result := Absorb(true, result, child, OutcomesOf(t, candidates[..k]));
      k := k + 1;
    }
    assert candidates[..k] == candidates;
  }

  method EvaluateCandidate(root: Node?, c: Candidate, ghost t: Tree, ghost doc: set<Node>) returns (child: Result)
    requires Closed(doc) && (root != null ==> root in doc) && Unfold(root, MAX_DEPTH, doc) == Some(t)
    ensures child == OutcomeOf(t, c)
  {
    var index, err := IndexCandidate(c);
    if err.Some? {
      child := Uncertain("invalid_candidate", CandidateText(err.value));
    } else {
      child := EvaluateNode(root, index, MAX_DEPTH, doc, t);
    }
    child := child.(scope := Some(c.scope));
  }
}
