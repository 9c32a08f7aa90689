/**
 The limits and the compaction of requirement reports, read off the nodes of a result tree: how many there are, how deep
 they lie, what text they carry, and what compaction takes away.
 */
module TraceOutcomes {
  import opened Options
  import opened Seqs
  import opened EvidenceModel
  import opened RequirementLogic
  import opened RequirementEvaluation
  import opened RequirementTrace

  /** All nodes of a tree, from the root on. */
  function Nodes(r: Result): seq<Result> {
    [r] + NodesOf(r.children)
  }

  function NodesOf(rs: seq<Result>): seq<Result> {
    if rs == [] then [] else NodesOf(rs[..|rs| - 1]) + Nodes(rs[|rs| - 1])
  }

  /** No branch has more than `levels` nodes. */
  predicate Within(r: Result, levels: nat)
    decreases r
  {
    levels > 0 && forall k :: 0 <= k < |r.children| ==> Within(r.children[k], levels - 1)
  }

  /** One of the three states, and a scope, if any, with its parts. */
  predicate Presentable(r: Result) {
    && (r.state == Satisfied || r.state == Unsatisfied || r.state == Indeterminate)
    && (r.scope.Some? ==>
          && r.scope.value.runID != "" && r.scope.value.contextID != ""
          && (r.scope.value.runtime == "" <==> r.scope.value.endpoint == ""))
  }

  function TextOf(d: Diagnostic): int { |d.code| + |d.message| + |d.reference| + 64 }

  function TextAt(r: Result): int { SumBy(r.diagnostics, TextOf) }

  lemma {:induction false} CountIsNodes(r: Result)
    ensures Count(r) == |Nodes(r)|
  {
    CountsAreNodes(r.children);
  }

  lemma {:induction false} CountsAreNodes(rs: seq<Result>)
    ensures CountAll(rs) == |NodesOf(rs)|
  {
    if rs != [] {
      CountsAreNodes(rs[..|rs| - 1]);
      CountIsNodes(rs[|rs| - 1]);
    }
  }

  lemma {:induction false} HeightMeans(r: Result, levels: nat)
    ensures Height(r) <= levels <==> Within(r, levels)
    decreases r
  {
    if levels > 0 {
      HeightsMean(r.children, levels - 1);
    }
  }

  lemma {:induction false} HeightsMean(rs: seq<Result>, levels: nat)
    ensures HeightAll(rs) <= levels <==> forall k :: 0 <= k < |rs| ==> Within(rs[k], levels)
    decreases rs
  {
    if rs != [] {
      var front, last := rs[..|rs| - 1], rs[|rs| - 1];
      HeightsMean(front, levels);
      HeightMeans(last, levels);
      forall k | 0 <= k < |front| ensures front[k] == rs[k] {}
      if forall k :: 0 <= k < |rs| ==> Within(rs[k], levels) {
        forall k | 0 <= k < |front| ensures Within(front[k], levels) {
          assert Within(rs[k], levels);
        }
      }
    }
  }

  lemma {:induction false} ValidMeans(r: Result)
    ensures AllValid(r) <==> forall n :: n in Nodes(r) ==> Presentable(n)
  {
    ValidEachMeans(r.children);
    assert NodeIsValid(r) <==> Presentable(r);
    assert forall n :: n in Nodes(r) <==> n == r || n in NodesOf(r.children);
  }

  lemma {:induction false} ValidEachMeans(rs: seq<Result>)
    ensures EachValid(rs) <==> forall n :: n in NodesOf(rs) ==> Presentable(n)
  {
    if rs != [] {
      ValidEachMeans(rs[..|rs| - 1]);
      ValidMeans(rs[|rs| - 1]);
      assert forall n :: n in NodesOf(rs) <==> n in NodesOf(rs[..|rs| - 1]) || n in Nodes(rs[|rs| - 1]);
    }
  }

  /** The report's validator accepts trees of at most 34 levels and 66000 nodes, all of them presentable. */
  lemma AcceptedReportMeans(r: Result)
    ensures 1 + Height(r) - 1 <= MAX_TRACE_DEPTH && 0 + Count(r) <= MAX_TRACE_NODES && AllValid(r) <==>
      Within(r, 34) && |Nodes(r)| <= 66000 && forall n :: n in Nodes(r) ==> Presentable(n)
  {
    HeightMeans(r, 34);
    CountIsNodes(r);
    ValidMeans(r);
  }

  lemma {:induction false} ListTextMeans(ds: seq<Diagnostic>)
    ensures ListBytes(ds) == SumBy(ds, TextOf)
  {
    if ds != [] {
      var front, last := ds[..|ds| - 1], ds[|ds| - 1];
      ListTextMeans(front);
      assert ds == front + [last];
      SumByConcat(front, [last], TextOf);
      assert [last][1..] == [];
    }
  }

  /** The weight of a report is the text of all diagnostics of all nodes, 64 characters more for each. */
  lemma {:induction false} WeightMeans(r: Result)
    ensures TreeBytes(r) == SumBy(Nodes(r), TextAt)
  {
    ListTextMeans(r.diagnostics);
    WeightsMean(r.children);
    SumByConcat([r], NodesOf(r.children), TextAt);
    assert [r][1..] == [];
  }

  lemma {:induction false} WeightsMean(rs: seq<Result>)
    ensures TreeBytesAll(rs) == SumBy(NodesOf(rs), TextAt)
  {
    if rs != [] {
      WeightsMean(rs[..|rs| - 1]);
      WeightMeans(rs[|rs| - 1]);
      SumByConcat(NodesOf(rs[..|rs| - 1]), Nodes(rs[|rs| - 1]), TextAt);
    }
  }

  /** `o` is `r` except that nodes with children have lost their diagnostics. */
  predicate LosesInner(r: Result, o: Result)
    decreases r
  {
    && o.state == r.state && o.reason == r.reason && o.scope == r.scope && |o.children| == |r.children|
    && o.diagnostics == (if r.children == [] then r.diagnostics else [])
    && forall k :: 0 <= k < |r.children| ==> LosesInner(r.children[k], o.children[k])
  }

  lemma {:induction false} OmittedMeans(r: Result)
    ensures LosesInner(r, Omitted(r))
  {
    OmittedEachMeans(r.children);
  }

  lemma {:induction false} OmittedEachMeans(rs: seq<Result>)
    ensures forall k :: 0 <= k < |rs| ==> LosesInner(rs[k], OmittedAll(rs)[k])
  {
    if rs != [] {
      OmittedEachMeans(rs[..|rs| - 1]);
      OmittedMeans(rs[|rs| - 1]);
      assert forall k :: 0 <= k < |rs| - 1 ==> rs[..|rs| - 1][k] == rs[k];
    }
  }

  /**
   Compaction: a report whose diagnostics weigh at most 131072 stays as it is; otherwise only the root and the nodes
   without children keep theirs.
   */
  lemma CompactionMeans(r: Result)
    ensures SumBy(Nodes(r), TextAt) <= 131072 ==> Compacted(r) == r
    ensures SumBy(Nodes(r), TextAt) > 131072 ==>
      && Compacted(r).state == r.state && Compacted(r).reason == r.reason && Compacted(r).scope == r.scope
      && Compacted(r).diagnostics == r.diagnostics && |Compacted(r).children| == |r.children|
      && forall k :: 0 <= k < |r.children| ==> LosesInner(r.children[k], Compacted(r).children[k])
  {
    WeightMeans(r);
    OmittedEachMeans(r.children);
  }
}
