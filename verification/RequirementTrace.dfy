/**
 The requirement part of a report: the bounds that internal/output/trace.go checks on a result tree, and the
 diagnostic compaction of internal/app/requirement_diagnostics.go.
 */
module RequirementTrace {
  import opened Options
  import opened EvidenceModel
  import opened RequirementLogic
  import opened RequirementDocument
  import opened RequirementEvaluation
  import opened RequirementTheorems

  const MAX_TRACE_DEPTH := 34
  const MAX_TRACE_NODES := 66000
  const MAX_REPEATED_BYTES := 128 * 1024
  const DIAGNOSTIC_OVERHEAD := 64

  // --- Measures of a result tree ---

  function Count(r: Result): (n: nat)
    ensures n >= 1
  {
    1 + CountAll(r.children)
  }

  function CountAll(rs: seq<Result>): nat {
    if rs == [] then 0 else CountAll(rs[..|rs| - 1]) + Count(rs[|rs| - 1])
  }

  function Height(r: Result): (n: nat)
    ensures n >= 1
  {
    1 + HeightAll(r.children)
  }

  function HeightAll(rs: seq<Result>): nat {
    if rs == [] then 0
    else
      var before, last := HeightAll(rs[..|rs| - 1]), Height(rs[|rs| - 1]);
      if before > last then before else last
  }

  predicate NodeIsValid(r: Result) {
    r.state.IsValid() && (r.scope.Some? ==> r.scope.value.IsValid())
  }

  predicate AllValid(r: Result) {
    NodeIsValid(r) && EachValid(r.children)
  }

  predicate EachValid(rs: seq<Result>) {
    rs == [] || (EachValid(rs[..|rs| - 1]) && AllValid(rs[|rs| - 1]))
  }

  /** The first `k` trees are within the limits, counted from `depth` and `count`. */
  ghost predicate WithinAll(rs: seq<Result>, depth: int, count: int) {
    depth + HeightAll(rs) - 1 <= MAX_TRACE_DEPTH && count + CountAll(rs) <= MAX_TRACE_NODES && EachValid(rs)
  }

  lemma {:induction false} OutsideStaysOutside(rs: seq<Result>, k: nat, depth: int, count: int)
    requires k <= |rs| && !WithinAll(rs[..k], depth, count)
    ensures !WithinAll(rs, depth, count)
    decreases |rs|
  {
    if k == |rs| {
      assert rs[..k] == rs;
    } else {
      assert rs[..|rs| - 1][..k] == rs[..k];
      OutsideStaysOutside(rs[..|rs| - 1], k, depth, count);
    }
  }

  /** The validator of the report schema accepts exactly the trees within its limits whose nodes are all valid. */
  method ValidateRequirement(r: Result, depth: int, count0: int) returns (ok: bool, count: int)
    requires depth >= 1 && count0 >= 0
    ensures ok <==> depth + Height(r) - 1 <= MAX_TRACE_DEPTH && count0 + Count(r) <= MAX_TRACE_NODES && AllValid(r)
    ensures ok ==> count == count0 + Count(r)
    decreases r
  {
    count := count0 + 1;
    if depth > MAX_TRACE_DEPTH || count > MAX_TRACE_NODES { return false, count; }
    if !r.state.IsValid() { return false, count; }
    if r.scope.Some? && !r.scope.value.IsValid() { return false, count; }
    var k := 0;
    while k < |r.children|
      invariant 0 <= k <= |r.children|
      invariant count == count0 + 1 + CountAll(r.children[..k])
      invariant WithinAll(r.children[..k], depth + 1, count0 + 1)
    {
      assert r.children[..k + 1][..k] == r.children[..k];
      ok, count := ValidateRequirement(r.children[k], depth + 1, count);
      if !ok {
        OutsideStaysOutside(r.children, k + 1, depth + 1, count0 + 1);
        return;
      }
      k := k + 1;
    }
    assert r.children[..k] == r.children;
    return true, count;
  }

  // --- Results of evaluation fit ---

  function TreeHeight(t: Tree): nat {
    match t
    case Leaf(_) => 1
    case NotOf(child) => 1 + TreeHeight(child)
    case AllOf(children) => 1 + TreeHeightAll(children)
    case AnyOf(children) => 1 + TreeHeightAll(children)
  }

  function TreeHeightAll(ts: seq<Tree>): nat {
    if ts == [] then 0
    else if TreeHeight(ts[0]) > TreeHeightAll(ts[1..]) then TreeHeight(ts[0]) else TreeHeightAll(ts[1..])
  }

  lemma {:induction false} UnfoldHeight(node: Node?, depth: nat, doc: set<Node>)
    requires Closed(doc) && (node != null ==> node in doc) && Unfold(node, depth, doc).Some?
    ensures TreeHeight(Unfold(node, depth, doc).value) <= depth
    decreases depth, 0
  {
    if node.capability == "" {
      UnfoldHeightAll(Children(node), depth - 1, doc);
      UnfoldAllEach(Children(node), depth - 1, doc);
      var ts := UnfoldAll(Children(node), depth - 1, doc).value;
      if node.not != null {
        assert TreeHeightAll(ts) >= TreeHeight(ts[0]);
      }
    }
  }

  lemma {:induction false} UnfoldHeightAll(nodes: seq<Node?>, depth: nat, doc: set<Node>)
    requires Closed(doc) && (forall k :: 0 <= k < |nodes| && nodes[k] != null ==> nodes[k] in doc)
    requires UnfoldAll(nodes, depth, doc).Some?
    ensures TreeHeightAll(UnfoldAll(nodes, depth, doc).value) <= depth
    decreases depth, 1 + |nodes|
  {
    if nodes != [] {
      UnfoldHeight(nodes[0], depth, doc);
      UnfoldHeightAll(nodes[1..], depth, doc);
      var ts := UnfoldAll(nodes, depth, doc).value;
      assert ts[1..] == UnfoldAll(nodes[1..], depth, doc).value;
    }
  }

  /** An evaluated tree has the shape of the document: as many nodes, no deeper, and no scopes or odd states. */
  lemma {:induction false} ResultShape(t: Tree, index: CandidateIndex)
    ensures Count(EvalTree(t, index)) == Size(t) && Height(EvalTree(t, index)) == TreeHeight(t)
    ensures AllValid(EvalTree(t, index))
    decreases t, 1
  {
    StatesAreCanonical(t, index);
    match t
    case Leaf(id) =>
      LeafShape(id, index);
    case NotOf(child) =>
      ResultShape(child, index);
      NegatedShape(EvalTree(child, index));
    case AllOf(children) =>
      ResultShapes(children, index, t);
      CombinedShape(false, "all", EvalEach(children, index));
    case AnyOf(children) =>
      ResultShapes(children, index, t);
      CombinedShape(true, "any", EvalEach(children, index));
  }

  lemma LeafShape(id: string, index: CandidateIndex)
    ensures var r := Predicate(id, index); r.children == [] && r.scope == None && r.state.IsValid()
    ensures Count(Predicate(id, index)) == Height(Predicate(id, index)) == 1 && AllValid(Predicate(id, index))
  {
  }

  lemma NegatedShape(r: Result)
    requires AllValid(r) && Not(r.state).IsValid()
    ensures Count(Negated(r)) == 1 + Count(r) && Height(Negated(r)) == 1 + Height(r) && AllValid(Negated(r))
  {
    OneChild(r);
  }

  lemma CombinedShape(any: bool, reason: string, rs: seq<Result>)
    requires EachValid(rs) && FoldStates(any, rs).IsValid()
    ensures var r := Combined(any, reason, rs);
      Count(r) == 1 + CountAll(rs) && Height(r) == 1 + HeightAll(rs) && AllValid(r)
  {
  }

  lemma OneChild(r: Result)
    ensures CountAll([r]) == Count(r) && HeightAll([r]) == Height(r) && (EachValid([r]) <==> AllValid(r))
  {
    assert [r][..0] == [];
  }

  lemma {:induction false} ResultShapes(ts: seq<Tree>, index: CandidateIndex, t: Tree)
    requires forall k :: 0 <= k < |ts| ==> ts[k] < t
    ensures CountAll(EvalEach(ts, index)) == SizeAll(ts) && HeightAll(EvalEach(ts, index)) == TreeHeightAll(ts)
    ensures EachValid(EvalEach(ts, index))
    decreases t, 0, |ts|
  {
    if ts != [] {
      var front, last := ts[..|ts| - 1], ts[|ts| - 1];
      ResultShapes(front, index, t);
      ResultShape(last, index);
      SizeOfLast(ts);
      assert EvalEach(ts, index)[..|ts| - 1] == EvalEach(front, index);
    }
  }

  lemma {:induction false} SizeOfLast(ts: seq<Tree>)
    requires ts != []
    ensures SizeAll(ts) == SizeAll(ts[..|ts| - 1]) + Size(ts[|ts| - 1])
    ensures TreeHeightAll(ts) == Max(TreeHeightAll(ts[..|ts| - 1]), TreeHeight(ts[|ts| - 1]))
  {
    if |ts| > 1 {
      SizeOfLast(ts[1..]);
      assert ts[1..][..|ts| - 2] == ts[..|ts| - 1][1..];
    }
  }

  function Max(a: nat, b: nat): nat {
    if a > b then a else b
  }

  predicate ScopesValid(cs: seq<Candidate>) {
    cs == [] || (ScopesValid(cs[..|cs| - 1]) && cs[|cs| - 1].scope.IsValid())
  }

  lemma {:induction false} ScopesValidEach(cs: seq<Candidate>)
    ensures ScopesValid(cs) <==> forall k :: 0 <= k < |cs| ==> cs[k].scope.IsValid()
  {
    if cs != [] {
      ScopesValidEach(cs[..|cs| - 1]);
      assert forall k :: 0 <= k < |cs| - 1 ==> cs[..|cs| - 1][k] == cs[k];
    }
  }

  lemma {:induction false} OutcomesFit(t: Tree, cs: seq<Candidate>)
    requires Size(t) <= MAX_NODES && TreeHeight(t) <= MAX_DEPTH
    ensures CountAll(OutcomesOf(t, cs)) <= |cs| * MAX_NODES
    ensures HeightAll(OutcomesOf(t, cs)) <= MAX_DEPTH
    ensures EachValid(OutcomesOf(t, cs)) <==> ScopesValid(cs)
  {
    if cs != [] {
      var front, last := cs[..|cs| - 1], cs[|cs| - 1];
      var r := OutcomeOf(t, last);
      OutcomesFit(t, front);
      OutcomeFits(t, last);
      ResultsGrow(OutcomesOf(t, front), r);
      assert OutcomesOf(t, cs) == OutcomesOf(t, front) + [r];
    }
  }

  lemma ResultsGrow(rs: seq<Result>, r: Result)
    ensures CountAll(rs + [r]) == CountAll(rs) + Count(r)
    ensures HeightAll(rs + [r]) == Max(HeightAll(rs), Height(r))
    ensures EachValid(rs + [r]) <==> EachValid(rs) && AllValid(r)
  {
    assert (rs + [r])[..|rs|] == rs;
  }

  lemma OutcomeFits(t: Tree, c: Candidate)
    requires Size(t) <= MAX_NODES && TreeHeight(t) <= MAX_DEPTH
    ensures Count(OutcomeOf(t, c)) <= MAX_NODES && Height(OutcomeOf(t, c)) <= MAX_DEPTH
    ensures AllValid(OutcomeOf(t, c)) <==> c.scope.IsValid()
  {
    if CandidateFault(c).None? {
      ResultShape(t, IndexOf(c));
    }
  }

  /**
   The report schema accepts the result of an accepted document exactly when every candidate names a valid
   scope: its depth and size limits are never met.
   */
  lemma ReportAcceptsVerdict(root: Node?, doc: set<Node>, cs: seq<Candidate>)
    requires Closed(doc) && (root != null ==> root in doc) && Fits(0, Unfold(root, MAX_DEPTH, doc))
    requires |cs| <= MAX_CANDIDATES
    ensures var r := Verdict(Unfold(root, MAX_DEPTH, doc).value, cs);
      && Height(r) <= MAX_DEPTH + 1 < MAX_TRACE_DEPTH && Count(r) <= 1 + MAX_CANDIDATES * MAX_NODES < MAX_TRACE_NODES
      && (AllValid(r) <==> forall k :: 0 <= k < |cs| ==> cs[k].scope.IsValid())
  {
    UnfoldHeight(root, MAX_DEPTH, doc);
    VerdictFits(Unfold(root, MAX_DEPTH, doc).value, cs);
  }

  lemma VerdictFits(t: Tree, cs: seq<Candidate>)
    requires Size(t) <= MAX_NODES && TreeHeight(t) <= MAX_DEPTH && |cs| <= MAX_CANDIDATES
    ensures Height(Verdict(t, cs)) <= MAX_DEPTH + 1 && Count(Verdict(t, cs)) <= 1 + MAX_CANDIDATES * MAX_NODES
    ensures AllValid(Verdict(t, cs)) <==> forall k :: 0 <= k < |cs| ==> cs[k].scope.IsValid()
  {
    OutcomesFit(t, cs);
    ScopesValidEach(cs);
    OpenDocumentIsExplained(t, cs);
  }

  // --- Diagnostics ---

  function Bytes(d: Diagnostic): nat {
    |d.code| + |d.message| + |d.reference| + DIAGNOSTIC_OVERHEAD
  }

  function ListBytes(ds: seq<Diagnostic>): nat {
    if ds == [] then 0 else ListBytes(ds[..|ds| - 1]) + Bytes(ds[|ds| - 1])
  }

  /** The size of all diagnostics in a result tree, repeated ones included. */
  function TreeBytes(r: Result): nat {
    ListBytes(r.diagnostics) + TreeBytesAll(r.children)
  }

  function TreeBytesAll(rs: seq<Result>): nat {
    if rs == [] then 0 else TreeBytesAll(rs[..|rs| - 1]) + TreeBytes(rs[|rs| - 1])
  }

  method RequirementDiagnosticBytes(r: Result) returns (size: nat)
    ensures size == TreeBytes(r)
    decreases r
  {
    size := 0;
    var k := 0;
    while k < |r.diagnostics|
      invariant 0 <= k <= |r.diagnostics| && size == ListBytes(r.diagnostics[..k])
    {
      assert r.diagnostics[..k + 1][..k] == r.diagnostics[..k];
      size := size + Bytes(r.diagnostics[k]);
      k := k + 1;
    }
    assert r.diagnostics[..k] == r.diagnostics;
    k := 0;
    while k < |r.children|
      invariant 0 <= k <= |r.children| && size == ListBytes(r.diagnostics) + TreeBytesAll(r.children[..k])
    {
      assert r.children[..k + 1][..k] == r.children[..k];
      var below := RequirementDiagnosticBytes(r.children[k]);
      size := size + below;
      k := k + 1;
    }
    assert r.children[..k] == r.children;
  }

  /** The tree without the diagnostics of its inner nodes. */
  function Omitted(r: Result): Result {
    if r.children == [] then r else r.(diagnostics := [], children := OmittedAll(r.children))
  }

  function OmittedAll(rs: seq<Result>): (os: seq<Result>)
    ensures |os| == |rs|
  {
    if rs == [] then [] else OmittedAll(rs[..|rs| - 1]) + [Omitted(rs[|rs| - 1])]
  }

  /** The report's tree after compaction: the root keeps its aggregate. */
  function Compacted(r: Result): Result {
    if TreeBytes(r) <= MAX_REPEATED_BYTES then r else r.(children := OmittedAll(r.children))
  }

  method OmitIntermediateDiagnostics(r: Result) returns (out: Result)
    ensures out == Omitted(r)
    decreases r, 1
  {
    if |r.children| == 0 { return r; }
    out := r.(diagnostics := []);
    var children := OmitEach(r.children, r);
    out := out.(children := children);
  }

  lemma OneMoreOmitted(children: seq<Result>, k: nat)
    requires k < |children|
    ensures (OmittedAll(children[..k]) + children[k..])[k := Omitted(children[k])] == OmittedAll(children[..k + 1])
      + children[k + 1..]
  {
    assert children[..k + 1][..k] == children[..k];
  }

  /** The loop over the children, each replaced in place. */
  method OmitEach(children: seq<Result>, ghost parent: Result) returns (out: seq<Result>)
    requires children == parent.children
    ensures out == OmittedAll(children)
    decreases parent, 0
  {
    out := children;
    var k := 0;
    while k < |children|
      invariant 0 <= k <= |children|
      invariant out == OmittedAll(children[..k]) + children[k..]
    {
      var child := OmitIntermediateDiagnostics(out[k]);
      OneMoreOmitted(children, k);
      out := out[k := child];
      k := k + 1;
    }
    assert children[..k] == children;
  }

  class EvaluationTrace {
    var requirement: Result
    var diagnostics: seq<Diagnostic>

    constructor (requirement: Result, diagnostics: seq<Diagnostic>)
      ensures this.requirement == requirement && this.diagnostics == diagnostics
    {
      this.requirement, this.diagnostics := requirement, diagnostics;
    }

    /** compactRequirementDiagnostics. */
    method Compact()
      modifies this
      ensures requirement == Compacted(old(requirement))
      ensures TreeBytes(old(requirement)) <= MAX_REPEATED_BYTES ==> diagnostics == old(diagnostics)
      ensures TreeBytes(old(requirement)) > MAX_REPEATED_BYTES ==>
        && |diagnostics| == |old(diagnostics)| + 1 && old(diagnostics) <= diagnostics
        && diagnostics[|old(diagnostics)|].code == "requirement_diagnostics_compacted"
    {
      var size := RequirementDiagnosticBytes(requirement);
      if size <= MAX_REPEATED_BYTES { return; }
      var children := OmitEach(requirement.children, requirement);
      requirement := requirement.(children := children);
      diagnostics := diagnostics + [Diagnostic("requirement_diagnostics_compacted",
        "Repeated ancestor diagnostics omitted; root aggregate and leaf diagnostics retained", "")];
    }
  }

  // --- What compaction keeps ---

  /** Every inner node repeats the diagnostics of its children in order. */
  predicate Aggregated(r: Result) {
    r.children == [] || (r.diagnostics == Gather(r.children) && EachAggregated(r.children))
  }

  predicate EachAggregated(rs: seq<Result>) {
    rs == [] || (EachAggregated(rs[..|rs| - 1]) && Aggregated(rs[|rs| - 1]))
  }

  /** The diagnostics of the nodes without children, in order. */
  function LeafDiagnostics(r: Result): seq<Diagnostic> {
    if r.children == [] then r.diagnostics else LeafDiagnosticsAll(r.children)
  }

  function LeafDiagnosticsAll(rs: seq<Result>): seq<Diagnostic> {
    if rs == [] then [] else LeafDiagnosticsAll(rs[..|rs| - 1]) + LeafDiagnostics(rs[|rs| - 1])
  }

  /** The tree with every inner aggregate rebuilt from the leaves. */
  function Restored(r: Result): Result {
    if r.children == [] then r
      else r.(diagnostics := LeafDiagnosticsAll(r.children), children := RestoredAll(r.children))
  }

  function RestoredAll(rs: seq<Result>): (os: seq<Result>)
    ensures |os| == |rs|
  {
    if rs == [] then [] else RestoredAll(rs[..|rs| - 1]) + [Restored(rs[|rs| - 1])]
  }

  lemma {:induction false} AggregateIsLeaves(r: Result)
    requires Aggregated(r)
    ensures r.diagnostics == LeafDiagnostics(r)
  {
    if r.children != [] {
      AggregatesAreLeaves(r.children);
    }
  }

  lemma {:induction false} AggregatesAreLeaves(rs: seq<Result>)
    requires EachAggregated(rs)
    ensures Gather(rs) == LeafDiagnosticsAll(rs)
  {
    if rs != [] {
      AggregatesAreLeaves(rs[..|rs| - 1]);
      AggregateIsLeaves(rs[|rs| - 1]);
    }
  }

  /** Dropping the inner aggregates keeps the leaves. */
  lemma {:induction false} LeavesAreKept(r: Result)
    ensures LeafDiagnostics(Omitted(r)) == LeafDiagnostics(r)
  {
    if r.children != [] {
      AllLeavesAreKept(r.children);
    }
  }

  lemma {:induction false} AllLeavesAreKept(rs: seq<Result>)
    ensures LeafDiagnosticsAll(OmittedAll(rs)) == LeafDiagnosticsAll(rs)
  {
    if rs != [] {
      AllLeavesAreKept(rs[..|rs| - 1]);
      LeavesAreKept(rs[|rs| - 1]);
      assert OmittedAll(rs)[..|rs| - 1] == OmittedAll(rs[..|rs| - 1]);
    }
  }

  /** In an aggregated tree the dropped aggregates can be rebuilt from the leaves. */
  lemma {:induction false} OmissionIsLossless(r: Result)
    requires Aggregated(r)
    ensures Restored(Omitted(r)) == r
  {
    if r.children != [] {
      AllLeavesAreKept(r.children);
      OmissionsAreLossless(r.children);
      AggregatesAreLeaves(r.children);
    }
  }

  lemma {:induction false} OmissionsAreLossless(rs: seq<Result>)
    requires EachAggregated(rs)
    ensures RestoredAll(OmittedAll(rs)) == rs
  {
    if rs != [] {
      var front, last := rs[..|rs| - 1], rs[|rs| - 1];
      OmissionsAreLossless(front);
      OmissionIsLossless(last);
      RestoredLast(OmittedAll(front), Omitted(last));
      assert OmittedAll(rs) == OmittedAll(front) + [Omitted(last)];
      assert rs == front + [last];
    }
  }

  lemma RestoredLast(front: seq<Result>, last: Result)
    ensures RestoredAll(front + [last]) == RestoredAll(front) + [Restored(last)]
  {
    assert (front + [last])[..|front|] == front;
  }

  /** Compaction is lossless on aggregated trees: rebuilding the aggregates gives the original tree back. */
  lemma CompactionIsLossless(r: Result)
    requires Aggregated(r)
    ensures Restored(Compacted(r)) == r
  {
    if r.children != [] {
      AllLeavesAreKept(r.children);
      OmissionsAreLossless(r.children);
      AggregatesAreLeaves(r.children);
      RestoredIsSame(r);
    }
  }

  lemma {:induction false} RestoredIsSame(r: Result)
    requires Aggregated(r)
    ensures Restored(r) == r
  {
    if r.children != [] {
      AggregatesAreLeaves(r.children);
      RestoredAreSame(r.children);
    }
  }

  lemma {:induction false} RestoredAreSame(rs: seq<Result>)
    requires EachAggregated(rs)
    ensures RestoredAll(rs) == rs
  {
    if rs != [] {
      RestoredAreSame(rs[..|rs| - 1]);
      RestoredIsSame(rs[|rs| - 1]);
      assert rs == rs[..|rs| - 1] + [rs[|rs| - 1]];
    }
  }

  /** The tree without any diagnostics: its states, reasons, scopes and shape. */
  function Bare(r: Result): Result {
    r.(diagnostics := [], children := BareAll(r.children))
  }

  function BareAll(rs: seq<Result>): seq<Result> {
    if rs == [] then [] else BareAll(rs[..|rs| - 1]) + [Bare(rs[|rs| - 1])]
  }

  /** Compaction of any tree keeps every state, reason and scope, and the root's own diagnostics. */
  lemma CompactionKeepsStates(r: Result)
    ensures Bare(Compacted(r)) == Bare(r)
    ensures Compacted(r).diagnostics == r.diagnostics
  {
    BareOmittedAll(r.children);
  }

  lemma {:induction false} BareOmitted(r: Result)
    ensures Bare(Omitted(r)) == Bare(r)
  {
    BareOmittedAll(r.children);
  }

  lemma {:induction false} BareOmittedAll(rs: seq<Result>)
    ensures BareAll(OmittedAll(rs)) == BareAll(rs)
  {
    if rs != [] {
      BareOmittedAll(rs[..|rs| - 1]);
      BareOmitted(rs[|rs| - 1]);
      assert OmittedAll(rs)[..|rs| - 1] == OmittedAll(rs[..|rs| - 1]);
    }
  }

  // --- Its size ---

  lemma {:induction false} ListBytesConcat(a: seq<Diagnostic>, b: seq<Diagnostic>)
    ensures ListBytes(a + b) == ListBytes(a) + ListBytes(b)
  {
    if b == [] {
      assert a + b == a;
    } else {
      assert (a + b)[..|a + b| - 1] == a + b[..|b| - 1];
      ListBytesConcat(a, b[..|b| - 1]);
    }
  }

  /** A tree without its inner aggregates holds exactly its leaves. */
  lemma {:induction false} OmittedBytes(r: Result)
    ensures TreeBytes(Omitted(r)) == ListBytes(LeafDiagnostics(r))
  {
    if r.children != [] {
      OmittedBytesAll(r.children);
    }
  }

  lemma {:induction false} OmittedBytesAll(rs: seq<Result>)
    ensures TreeBytesAll(OmittedAll(rs)) == ListBytes(LeafDiagnosticsAll(rs))
  {
    if rs != [] {
      var front, last := rs[..|rs| - 1], rs[|rs| - 1];
      OmittedBytesAll(front);
      OmittedBytes(last);
      assert OmittedAll(rs)[..|rs| - 1] == OmittedAll(front);
      ListBytesConcat(LeafDiagnosticsAll(front), LeafDiagnostics(last));
    }
  }

  /**
   When compaction takes place on an aggregated tree with children, what is left weighs exactly twice the
   leaves: once in the leaves and once in the root.
   */
  lemma CompactedWeighsTwiceTheLeaves(r: Result)
    requires Aggregated(r) && r.children != [] && TreeBytes(r) > MAX_REPEATED_BYTES
    ensures TreeBytes(Compacted(r)) == 2 * ListBytes(LeafDiagnostics(r))
  {
    AggregatesAreLeaves(r.children);
    OmittedBytesAll(r.children);
  }

  /** Evaluation builds aggregated trees, so all of the above holds of every report. */
  lemma {:induction false} EvaluationAggregates(t: Tree, index: CandidateIndex)
    ensures Aggregated(EvalTree(t, index))
    decreases t, 1
  {
    match t
    case Leaf(_) =>
    case NotOf(child) =>
      EvaluationAggregates(child, index);
      var r := EvalTree(child, index);
      assert [r][..0] == [];
      assert Gather([r]) == r.diagnostics;
    case AllOf(children) => EvaluationsAggregate(children, index, t);
    case AnyOf(children) => EvaluationsAggregate(children, index, t);
  }

  lemma {:induction false} EvaluationsAggregate(ts: seq<Tree>, index: CandidateIndex, t: Tree)
    requires forall k :: 0 <= k < |ts| ==> ts[k] < t
    ensures EachAggregated(EvalEach(ts, index))
    decreases t, 0, |ts|
  {
    if ts != [] {
      EvaluationsAggregate(ts[..|ts| - 1], index, t);
      EvaluationAggregates(ts[|ts| - 1], index);
      assert EvalEach(ts, index)[..|ts| - 1] == EvalEach(ts[..|ts| - 1], index);
    }
  }

  lemma VerdictsAggregate(t: Tree, cs: seq<Candidate>)
    ensures Aggregated(Verdict(t, cs))
  {
    OutcomesAggregate(t, cs);
  }

  lemma {:induction false} OutcomesAggregate(t: Tree, cs: seq<Candidate>)
    ensures EachAggregated(OutcomesOf(t, cs))
  {
    if cs != [] {
      OutcomesAggregate(t, cs[..|cs| - 1]);
      var last := cs[|cs| - 1];
      if CandidateFault(last).None? {
        EvaluationAggregates(t, IndexOf(last));
      }
      assert OutcomesOf(t, cs)[..|cs| - 1] == OutcomesOf(t, cs[..|cs| - 1]);
      assert Aggregated(OutcomeOf(t, last));
    }
  }
}
