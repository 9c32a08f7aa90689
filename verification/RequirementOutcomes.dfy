/**
 What a requirement document says about deployment candidates, read off its nodes and the candidates' records alone:
 which documents are accepted, when a capability is decided, and when the verdict is satisfied or unsatisfied.
 */
module RequirementOutcomes {
  import opened Options
  import opened EvidenceModel
  import opened RequirementLogic
  import opened RequirementDocument
  import opened RequirementEvaluation
  import opened RequirementTheorems

  // --- Documents ---

  /** The pointer graph below `node` is the tree `t`: one operator at every node, and no other field set. */
  ghost predicate Represents(node: Node?, t: Tree, doc: set<Node>)
    reads doc
    decreases t
  {
    && node != null && node in doc
    && match t
       case Leaf(id) =>
         && node.capability == id && id != "" && ValidCapabilityID(id)
         && node.all == None && node.any == None && node.not == null
       case NotOf(child) =>
         && node.capability == "" && node.all == None && node.any == None && node.not != null
         && Represents(node.not, child, doc)
       case AllOf(children) =>
         && node.capability == "" && node.any == None && node.not == null && node.all.Some?
         && RepresentEach(node.all.value, children, doc)
       case AnyOf(children) =>
         && node.capability == "" && node.all == None && node.not == null && node.any.Some?
         && RepresentEach(node.any.value, children, doc)
  }

  ghost predicate RepresentEach(nodes: seq<Node?>, ts: seq<Tree>, doc: set<Node>)
    reads doc
    decreases ts
  {
    |nodes| == |ts| && forall k :: 0 <= k < |ts| ==> Represents(nodes[k], ts[k], doc)
  }

  /** No branch has more than `levels` nodes. */
  predicate Within(t: Tree, levels: nat)
    decreases t
  {
    && levels > 0
    && match t
       case Leaf(_) => true
       case NotOf(child) => Within(child, levels - 1)
       case AllOf(children) => forall k :: 0 <= k < |children| ==> Within(children[k], levels - 1)
       case AnyOf(children) => forall k :: 0 <= k < |children| ==> Within(children[k], levels - 1)
  }

  /** All subtrees, from the root on. */
  function Subtrees(t: Tree): seq<Tree> {
    match t
    case Leaf(_) => [t]
    case NotOf(child) => [t] + Subtrees(child)
    case AllOf(children) => [t] + SubtreesOf(children)
    case AnyOf(children) => [t] + SubtreesOf(children)
  }

  function SubtreesOf(ts: seq<Tree>): seq<Tree> {
    if ts == [] then [] else Subtrees(ts[0]) + SubtreesOf(ts[1..])
  }

  lemma {:induction false} SizeCountsSubtrees(t: Tree)
    ensures Size(t) == |Subtrees(t)|
  {
    match t
    case Leaf(_) =>
    case NotOf(child) => SizeCountsSubtrees(child);
    case AllOf(children) => SizesCountSubtrees(children);
    case AnyOf(children) => SizesCountSubtrees(children);
  }

  lemma {:induction false} SizesCountSubtrees(ts: seq<Tree>)
    ensures SizeAll(ts) == |SubtreesOf(ts)|
  {
    if ts != [] {
      SizeCountsSubtrees(ts[0]);
      SizesCountSubtrees(ts[1..]);
    }
  }

  /** The unfolding of a document is the tree that it represents, when that is not too deep. */
  lemma {:induction false} UnfoldsToRepresented(node: Node?, t: Tree, depth: nat, doc: set<Node>)
    requires Closed(doc) && Represents(node, t, doc) && Within(t, depth)
    ensures Unfold(node, depth, doc) == Some(t)
    decreases t, 1
  {
    match t
    case Leaf(_) =>
    case NotOf(child) =>
      assert Children(node)[0] == node.not;
      UnfoldsToRepresented(node.not, child, depth - 1, doc);
      UnfoldOne(node.not, depth - 1, doc, child);
      assert Children(node) == [node.not];
    case AllOf(children) =>
      assert Children(node) == node.all.value;
      UnfoldEachToRepresented(node.all.value, children, depth - 1, doc, t);
    case AnyOf(children) =>
      assert Children(node) == node.any.value;
      UnfoldEachToRepresented(node.any.value, children, depth - 1, doc, t);
  }

  lemma UnfoldOne(node: Node?, depth: nat, doc: set<Node>, t: Tree)
    requires Closed(doc) && (node != null ==> node in doc) && Unfold(node, depth, doc) == Some(t)
    ensures UnfoldAll([node], depth, doc) == Some([t])
  {
    var nodes := [node];
    assert nodes[1..] == [] && [t] + [] == [t];
    assert UnfoldAll(nodes[1..], depth, doc) == Some([]);
  }

  lemma {:induction false} UnfoldEachToRepresented(nodes: seq<Node?>, ts: seq<Tree>, depth: nat, doc: set<Node>,
                                                   t: Tree)
    requires Closed(doc) && (forall k :: 0 <= k < |nodes| && nodes[k] != null ==> nodes[k] in doc)
    requires RepresentEach(nodes, ts, doc)
    requires forall k :: 0 <= k < |ts| ==> ts[k] < t && Within(ts[k], depth)
    ensures UnfoldAll(nodes, depth, doc) == Some(ts)
    decreases t, 0, |ts|
  {
    if ts != [] {
      UnfoldsToRepresented(nodes[0], ts[0], depth, doc);
      UnfoldEachToRepresented(nodes[1..], ts[1..], depth, doc, t);
      assert [ts[0]] + ts[1..] == ts;
    }
  }

  /** Whatever unfolds is the represented tree, and not deeper than allowed. */
  lemma {:induction false} UnfoldedIsRepresented(node: Node?, depth: nat, doc: set<Node>)
    requires Closed(doc) && (node != null ==> node in doc) && Unfold(node, depth, doc).Some?
    ensures Represents(node, Unfold(node, depth, doc).value, doc)
    ensures Within(Unfold(node, depth, doc).value, depth)
    decreases depth
  {
    if node.capability == "" {
      var nodes := Children(node);
      var ts := UnfoldAll(nodes, depth - 1, doc).value;
      UnfoldAllEach(nodes, depth - 1, doc);
      forall k | 0 <= k < |ts| ensures Represents(nodes[k], ts[k], doc) && Within(ts[k], depth - 1) {
        UnfoldedIsRepresented(nodes[k], depth - 1, doc);
      }
    }
  }

  // --- Candidates ---

  predicate WellScoped(scope: Scope) {
    scope.runID != "" && scope.contextID != "" && (scope.runtime == "" <==> scope.endpoint == "")
  }

  predicate WellFormed(c: Capability, scope: Scope) {
    && ValidCapabilityID(c.id) && c.scope == scope
    && (c.state == Supported || c.state == Unsupported || c.state == Misconfigured || c.state == Unavailable
        || c.state == UnknownState)
    && (c.confidence == Verified || c.confidence == Derived || c.confidence == Heuristic
        || c.confidence == UnknownConfidence)
  }

  /** A candidate that the evaluation takes up. */
  predicate Acceptable(c: Candidate) {
    && WellScoped(c.scope) && |c.capabilities| <= 4096 && |c.evidence| <= 4096
    && (forall k :: 0 <= k < |c.capabilities| ==> WellFormed(c.capabilities[k], c.scope))
    && (forall i, j :: 0 <= i < j < |c.capabilities| ==> c.capabilities[i].id != c.capabilities[j].id)
    && (forall i, j :: 0 <= i < j < |c.evidence| ==> c.evidence[i].id != c.evidence[j].id)
  }

  lemma AcceptedExactly(c: Candidate)
    ensures CandidateFault(c) == None <==> Acceptable(c)
  {
    AcceptedMeansWellFormed(c);
    forall k | 0 <= k < |c.capabilities|
      ensures WellFormed(c.capabilities[k], c.scope) <==> Fitting(c.capabilities[k], c.scope) {}
  }

  /** Complete, well-formed evidence of the candidate's own scope for exactly this state of the capability. */
  predicate Vouches(ev: Evidence, id: string, state: CapabilityState, scope: Scope) {
    && ev.claim == id && ev.state == state && ev.scope == scope && ev.completeness == Complete
    && ev.id != "" && ev.source != "" && ev.claim != "" && 1 <= ev.precedence <= 5 && ev.timestamp != 0
    && (ev.confidence == Verified || ev.confidence == Derived || ev.confidence == Heuristic
        || ev.confidence == UnknownConfidence)
  }

  /** The capability is decided: neither unknown nor unavailable, with evidence, all of which vouches for it. */
  predicate Settled(id: string, index: CandidateIndex) {
    && id in index.caps
    && var c := index.caps[id];
      && c.state != UnknownState && c.state != Unavailable && c.evidence != []
      && forall k :: 0 <= k < |c.evidence| ==>
           c.evidence[k] in index.evidence && Vouches(index.evidence[c.evidence[k]], id, c.state, index.scope)
  }

  /**
   One capability: satisfied when settled as supported, unsatisfied when settled as anything else, and open with
   one diagnostic otherwise.
   */
  lemma PredicateDecides(id: string, index: CandidateIndex)
    ensures var r := Predicate(id, index);
      && (r.state == Satisfied <==> Settled(id, index) && index.caps[id].state == Supported)
      && (r.state == Unsatisfied <==> Settled(id, index) && index.caps[id].state != Supported)
      && (r.state == Indeterminate <==> !Settled(id, index))
      && r.scope == None && r.children == []
      && (Settled(id, index) ==> r.diagnostics == [])
      && (!Settled(id, index) ==> exists code :: OpenFor(code, id, index)
                                               && r.diagnostics == [Diagnostic(code, r.reason, "")])
  {
    var r := Predicate(id, index);
    if id in index.caps {
      var c := index.caps[id];
      forall k | 0 <= k < |c.evidence|
        ensures Supports(c.evidence[k], id, c.state, index) <==>
          c.evidence[k] in index.evidence && Vouches(index.evidence[c.evidence[k]], id, c.state, index.scope)
      {
      }
    }
    if !Settled(id, index) {
      assert OpenFor(r.diagnostics[0].code, id, index);
    }
  }

  /** What keeps a capability open. */
  predicate OpenFor(code: string, id: string, index: CandidateIndex) {
    if id !in index.caps then code == "missing_capability"
    else
      var c := index.caps[id];
      if c.state == UnknownState || c.state == Unavailable then code == "indeterminate_capability"
      else if c.evidence == [] then code == "missing_evidence"
      else code == "invalid_evidence"
  }

  // --- Records ---

  /** Some record of the candidate settles the capability as `state`. */
  ghost predicate Records(c: Candidate, id: string, state: CapabilityState) {
    && state != UnknownState && state != Unavailable
    && exists k :: 0 <= k < |c.capabilities| && IsRecord(c, c.capabilities[k], id, state)
  }

  ghost predicate IsRecord(c: Candidate, capability: Capability, id: string, state: CapabilityState) {
    && capability.id == id && capability.state == state && capability.evidence != []
    && forall ref :: ref in capability.evidence ==> HasVoucher(c, ref, id, state)
  }

  predicate HasVoucher(c: Candidate, ref: string, id: string, state: CapabilityState) {
    exists m :: 0 <= m < |c.evidence| && c.evidence[m].id == ref && Vouches(c.evidence[m], id, state, c.scope)
  }

  /** The index of an acceptable candidate settles what its records settle. */
  lemma SettledByRecords(c: Candidate, id: string)
    requires Acceptable(c)
    ensures Settled(id, IndexOf(c)) ==> Records(c, id, IndexOf(c).caps[id].state)
    ensures forall state :: Records(c, id, state) ==> Settled(id, IndexOf(c)) && IndexOf(c).caps[id].state == state
  {
    var index := IndexOf(c);
    if Settled(id, index) {
      var capability := index.caps[id];
      var k :| 0 <= k < |c.capabilities| && c.capabilities[k] == capability;
      forall ref | ref in capability.evidence ensures HasVoucher(c, ref, id, capability.state) {
        var i :| 0 <= i < |capability.evidence| && capability.evidence[i] == ref;
        var m :| 0 <= m < |c.evidence| && c.evidence[m] == index.evidence[ref];
      }
      assert IsRecord(c, c.capabilities[k], id, capability.state);
    }
    forall state | Records(c, id, state) ensures Settled(id, index) && index.caps[id].state == state {
      RecordSettles(c, id, state);
    }
  }

  lemma RecordSettles(c: Candidate, id: string, state: CapabilityState)
    requires Acceptable(c) && Records(c, id, state)
    ensures Settled(id, IndexOf(c)) && IndexOf(c).caps[id].state == state
  {
    var k :| 0 <= k < |c.capabilities| && IsRecord(c, c.capabilities[k], id, state);
    CapabilityFound(c.capabilities, k);
    var refs := c.capabilities[k].evidence;
    forall i | 0 <= i < |refs|
      ensures refs[i] in IndexOf(c).evidence && Vouches(IndexOf(c).evidence[refs[i]], id, state, c.scope)
    {
      assert refs[i] in refs;
      VoucherFound(c, refs[i], id, state);
    }
  }

  lemma {:induction false} CapabilityFound(cs: seq<Capability>, k: nat)
    requires k < |cs| && forall i, j :: 0 <= i < j < |cs| ==> cs[i].id != cs[j].id
    ensures cs[k].id in CapabilitiesByID(cs) && CapabilitiesByID(cs)[cs[k].id] == cs[k]
  {
    if k < |cs| - 1 {
      CapabilityFound(cs[..|cs| - 1], k);
      assert cs[k].id != cs[|cs| - 1].id;
    }
  }

  lemma {:induction false} EvidenceFound(es: seq<Evidence>, k: nat)
    requires k < |es| && forall i, j :: 0 <= i < j < |es| ==> es[i].id != es[j].id
    ensures es[k].id in EvidenceByID(es) && EvidenceByID(es)[es[k].id] == es[k]
  {
    if k < |es| - 1 {
      EvidenceFound(es[..|es| - 1], k);
      assert es[k].id != es[|es| - 1].id;
    }
  }

  lemma VoucherFound(c: Candidate, ref: string, id: string, state: CapabilityState)
    requires (forall i, j :: 0 <= i < j < |c.evidence| ==> c.evidence[i].id != c.evidence[j].id)
    requires HasVoucher(c, ref, id, state)
    ensures ref in EvidenceByID(c.evidence) && Vouches(EvidenceByID(c.evidence)[ref], id, state, c.scope)
  {
    var m :| 0 <= m < |c.evidence| && c.evidence[m].id == ref && Vouches(c.evidence[m], id, state, c.scope);
    EvidenceFound(c.evidence, m);
  }

  // --- Verdicts ---

  /** The candidate's records prove that the tree holds (`yes`), or that it does not. */
  ghost predicate Proves(c: Candidate, t: Tree, yes: bool)
    decreases t
  {
    match t
    case Leaf(id) => exists state :: Records(c, id, state) && (yes <==> state == Supported)
    case NotOf(child) => Proves(c, child, !yes)
    case AllOf(children) =>
      if yes then forall k :: 0 <= k < |children| ==> Proves(c, children[k], true)
      else exists k :: 0 <= k < |children| && Proves(c, children[k], false)
    case AnyOf(children) =>
      if yes then exists k :: 0 <= k < |children| && Proves(c, children[k], true)
      else forall k :: 0 <= k < |children| ==> Proves(c, children[k], false)
  }

  lemma {:induction false} TreeDecides(t: Tree, c: Candidate)
    requires Acceptable(c)
    ensures EvalTree(t, IndexOf(c)).state == Satisfied <==> Proves(c, t, true)
    ensures EvalTree(t, IndexOf(c)).state == Unsatisfied <==> Proves(c, t, false)
    decreases t, 1
  {
    StatesAreCanonical(t, IndexOf(c));
    match t
    case Leaf(id) =>
      LeafDecides(id, c);
    case NotOf(child) =>
      StatesAreCanonical(child, IndexOf(c));
      TreeDecides(child, c);
    case AllOf(children) =>
      ListDecides(children, c, t);
      AllDecides(children, c);
    case AnyOf(children) =>
      ListDecides(children, c, t);
      AnyDecides(children, c);
  }

  /** The results of a list say what its trees say. */
  ghost predicate EachDecides(rs: seq<Result>, ts: seq<Tree>, c: Candidate) {
    |rs| == |ts| && forall k :: 0 <= k < |ts| ==>
      && rs[k].state.IsValid()
      && (rs[k].state == Satisfied <==> Proves(c, ts[k], true))
      && (rs[k].state == Unsatisfied <==> Proves(c, ts[k], false))
  }

  lemma AllDecides(ts: seq<Tree>, c: Candidate)
    requires EachDecides(EvalEach(ts, IndexOf(c)), ts, c)
    ensures FoldStates(false, EvalEach(ts, IndexOf(c))) == Satisfied <==> Proves(c, AllOf(ts), true)
    ensures FoldStates(false, EvalEach(ts, IndexOf(c))) == Unsatisfied <==> Proves(c, AllOf(ts), false)
  {
    var rs := EvalEach(ts, IndexOf(c));
    FoldMeans(false, rs);
    assert Classical(true) == Satisfied && Classical(false) == Unsatisfied;
    forall k | 0 <= k < |ts|
      ensures (rs[k].state == Satisfied <==> Proves(c, ts[k], true))
        && (rs[k].state == Unsatisfied <==> Proves(c, ts[k], false)) {}
  }

  lemma AnyDecides(ts: seq<Tree>, c: Candidate)
    requires EachDecides(EvalEach(ts, IndexOf(c)), ts, c)
    ensures FoldStates(true, EvalEach(ts, IndexOf(c))) == Satisfied <==> Proves(c, AnyOf(ts), true)
    ensures FoldStates(true, EvalEach(ts, IndexOf(c))) == Unsatisfied <==> Proves(c, AnyOf(ts), false)
  {
    var rs := EvalEach(ts, IndexOf(c));
    FoldMeans(true, rs);
    assert Classical(true) == Satisfied && Classical(false) == Unsatisfied;
    forall k | 0 <= k < |ts|
      ensures (rs[k].state == Satisfied <==> Proves(c, ts[k], true))
        && (rs[k].state == Unsatisfied <==> Proves(c, ts[k], false)) {}
  }

  lemma LeafDecides(id: string, c: Candidate)
    requires Acceptable(c)
    ensures Predicate(id, IndexOf(c)).state == Satisfied <==> Proves(c, Leaf(id), true)
    ensures Predicate(id, IndexOf(c)).state == Unsatisfied <==> Proves(c, Leaf(id), false)
  {
    PredicateDecides(id, IndexOf(c));
    SettledByRecords(c, id);
  }

  lemma {:induction false} ListDecides(ts: seq<Tree>, c: Candidate, t: Tree)
    requires Acceptable(c) && forall k :: 0 <= k < |ts| ==> ts[k] < t
    ensures EachDecides(EvalEach(ts, IndexOf(c)), ts, c)
    decreases t, 0
  {
    ChildrenAreCanonical(ts, IndexOf(c));
    forall k | 0 <= k < |ts|
      ensures (EvalEach(ts, IndexOf(c))[k].state == Satisfied <==> Proves(c, ts[k], true))
        && (EvalEach(ts, IndexOf(c))[k].state == Unsatisfied <==> Proves(c, ts[k], false))
    {
      EvalEachAt(ts, IndexOf(c), k);
      TreeDecides(ts[k], c);
    }
  }

  /**
   The answer to a document over candidates. A document is taken up exactly when it represents a tree of at most 32
   levels and 512 nodes. It is satisfied when the records of some acceptable candidate prove it, unsatisfied when all
   candidates are acceptable and disprove it, and open otherwise.
   */
  lemma AnswerDecides(result: Result, root: Node?, t: Tree, cs: seq<Candidate>, doc: set<Node>)
    requires Closed(doc) && (root != null ==> root in doc) && IsAnswer(result, root, cs, doc)
    requires Represents(root, t, doc) && Within(t, 32) && |Subtrees(t)| <= 512 && 1 <= |cs| <= 128
    ensures result.state == Satisfied <==> exists k :: 0 <= k < |cs| && Acceptable(cs[k]) && Proves(cs[k], t, true)
    ensures result.state == Unsatisfied <==>
      forall k :: 0 <= k < |cs| ==> Acceptable(cs[k]) && Proves(cs[k], t, false)
    ensures result.state.IsValid() && (result.state == Indeterminate ==> result.diagnostics != [])
    ensures |result.children| == |cs| && result.scope == None
    ensures forall k :: 0 <= k < |cs| ==> result.children[k].scope == Some(cs[k].scope)
  {
    UnfoldsToRepresented(root, t, 32, doc);
    SizeCountsSubtrees(t);
    OpenDocumentIsExplained(t, cs);
    var rs := OutcomesOf(t, cs);
    forall k | 0 <= k < |cs|
      ensures rs[k].state.IsValid() && rs[k].scope == Some(cs[k].scope)
      ensures rs[k].state == Satisfied <==> Acceptable(cs[k]) && Proves(cs[k], t, true)
      ensures rs[k].state == Unsatisfied <==> Acceptable(cs[k]) && Proves(cs[k], t, false)
    {
      OutcomeDecides(t, cs, k);
    }
    FoldMeans(true, rs);
  }

  lemma OutcomeDecides(t: Tree, cs: seq<Candidate>, k: nat)
    requires k < |cs|
    ensures var r := OutcomesOf(t, cs)[k];
      && r.state.IsValid() && r.scope == Some(cs[k].scope)
      && (r.state == Satisfied <==> Acceptable(cs[k]) && Proves(cs[k], t, true))
      && (r.state == Unsatisfied <==> Acceptable(cs[k]) && Proves(cs[k], t, false))
  {
    OutcomesAt(t, cs, k);
    AcceptedExactly(cs[k]);
    if Acceptable(cs[k]) {
      TreeDecides(t, cs[k]);
      StatesAreCanonical(t, IndexOf(cs[k]));
    }
  }

  /** A candidate that is not acceptable is left open under its own scope, with a diagnostic. */
  lemma RefusedCandidate(t: Tree, c: Candidate)
    requires !Acceptable(c)
    ensures var r := OutcomeOf(t, c);
      && r.state == Indeterminate && r.scope == Some(c.scope) && r.children == []
      && r.diagnostics == [Diagnostic("invalid_candidate", r.reason, "")]
  {
    AcceptedExactly(c);
  }

  /** The diagnostics of a list are those of its elements, one after the other. */
  lemma {:induction false} GatheredInOrder(a: seq<Result>, b: seq<Result>)
    ensures Gather(a + b) == Gather(a) + Gather(b)
    ensures |b| == 1 ==> Gather(b) == b[0].diagnostics
    decreases |b|
  {
    if b == [] {
      assert a + b == a;
    } else {
      assert (a + b)[..|a + b| - 1] == a + b[..|b| - 1];
      GatheredInOrder(a, b[..|b| - 1]);
    }
  }

  /** Each node of a result says what it is, and has the results of its children in order and their diagnostics. */
  lemma ResultShape(t: Tree, index: CandidateIndex)
    ensures var r := EvalTree(t, index);
      && r.scope == None
      && (t.NotOf? ==> r.reason == "not" && r.children == [EvalTree(t.child, index)]
                       && r.diagnostics == EvalTree(t.child, index).diagnostics)
      && (t.AllOf? ==> r.reason == "all" && IsListResult(r, t.children, index))
      && (t.AnyOf? ==> r.reason == "any" && IsListResult(r, t.children, index))
  {
    if t.AllOf? || t.AnyOf? {
      forall k | 0 <= k < |t.children|
        ensures EvalEach(t.children, index)[k] == EvalTree(t.children[k], index)
      {
        EvalEachAt(t.children, index, k);
      }
    }
  }

  predicate IsListResult(r: Result, ts: seq<Tree>, index: CandidateIndex) {
    && |r.children| == |ts| && r.diagnostics == Gather(r.children)
    && forall k :: 0 <= k < |ts| ==> r.children[k] == EvalTree(ts[k], index)
  }

  /** Any other document, and no candidates or too many of them, are refused with a diagnostic. */
  lemma AnswerRefuses(result: Result, root: Node?, cs: seq<Candidate>, doc: set<Node>)
    requires Closed(doc) && (root != null ==> root in doc) && IsAnswer(result, root, cs, doc)
    requires |cs| == 0 || |cs| > 128
      || forall t :: Represents(root, t, doc) && Within(t, 32) ==> |Subtrees(t)| > 512
    ensures result.state == Indeterminate && result.children == [] && |result.diagnostics| == 1
    ensures result.diagnostics[0].code ==
      if exists t :: Represents(root, t, doc) && Within(t, 32) && |Subtrees(t)| <= 512
      then "invalid_candidates" else "invalid_requirement"
  {
    var tree := Unfold(root, 32, doc);
    if tree.Some? {
      UnfoldedIsRepresented(root, 32, doc);
      SizeCountsSubtrees(tree.value);
    }
    forall t | Represents(root, t, doc) && Within(t, 32) && |Subtrees(t)| <= 512 ensures Fits(0, tree) {
      UnfoldsToRepresented(root, t, 32, doc);
      SizeCountsSubtrees(t);
    }
  }
}
