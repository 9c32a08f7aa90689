/**
 What a requirement verdict means: it is sound for every way the open questions may be settled, and exact for
 documents that ask each question once.
 */
module RequirementTheorems {
  import opened EvidenceModel
  import opened RequirementLogic
  import opened RequirementDocument
  import opened RequirementEvaluation

  // --- Classical meaning ---

  /** A decision for every capability. */
  type Valuation = string -> bool

  predicate Truth(t: Tree, v: Valuation) {
    match t
    case Leaf(id) => v(id)
    case NotOf(child) => !Truth(child, v)
    case AllOf(children) => forall k :: 0 <= k < |children| ==> Truth(children[k], v)
    case AnyOf(children) => exists k :: 0 <= k < |children| && Truth(children[k], v)
  }

  /** `v` decides the open predicates of the candidate in some way and keeps the settled ones. */
  ghost predicate Completes(v: Valuation, index: CandidateIndex) {
    forall id: string :: Agrees(v(id), Predicate(id, index).state)
  }

  predicate Agrees(b: bool, s: RequirementState) {
    s.Definite() ==> s == Classical(b)
  }

  // --- Folds ---

  lemma {:induction false} FoldMeans(any: bool, rs: seq<Result>)
    requires forall k :: 0 <= k < |rs| ==> rs[k].state.IsValid()
    ensures FoldStates(any, rs).IsValid()
    ensures FoldStates(any, rs) == Classical(any) <==> exists k :: 0 <= k < |rs| && rs[k].state == Classical(any)
    ensures FoldStates(any, rs) == Classical(!any) <==> forall k :: 0 <= k < |rs| ==> rs[k].state == Classical(!any)
  {
    if rs != [] {
      var front, last := rs[..|rs| - 1], rs[|rs| - 1];
      FoldMeans(any, front);
      assert forall k :: 0 <= k < |front| ==> rs[k] == front[k];
      if FoldStates(any, front) == Classical(any) {
        var k :| 0 <= k < |front| && front[k].state == Classical(any);
        assert rs[k].state == Classical(any);
      }
      if FoldStates(any, rs) == Classical(any) && last.state != Classical(any) {
        var k :| 0 <= k < |front| && front[k].state == Classical(any);
        assert rs[k].state == Classical(any);
      }
    }
  }

  lemma {:induction false} FoldIsMonotone(any: bool, known: seq<Result>, partial: seq<Result>)
    requires |known| == |partial|
    requires forall k :: 0 <= k < |known| ==> Refines(known[k].state, partial[k].state)
    ensures Refines(FoldStates(any, known), FoldStates(any, partial))
  {
    if known != [] {
      FoldIsMonotone(any, known[..|known| - 1], partial[..|partial| - 1]);
    }
  }

  // --- Soundness ---

  lemma {:induction false} StatesAreCanonical(t: Tree, index: CandidateIndex)
    ensures EvalTree(t, index).state.IsValid()
  {
    match t
    case Leaf(_) =>
    case NotOf(child) =>
    case AllOf(children) => ChildrenAreCanonical(children, index); FoldMeans(false, EvalEach(children, index));
    case AnyOf(children) => ChildrenAreCanonical(children, index); FoldMeans(true, EvalEach(children, index));
  }

  lemma {:induction false} ChildrenAreCanonical(ts: seq<Tree>, index: CandidateIndex)
    ensures forall k :: 0 <= k < |ts| ==> EvalEach(ts, index)[k].state.IsValid()
  {
    forall k | 0 <= k < |ts| ensures EvalEach(ts, index)[k].state.IsValid() {
      EvalEachAt(ts, index, k);
      StatesAreCanonical(ts[k], index);
    }
  }

  /**
   Kleene soundness: a verdict of satisfied or unsatisfied is the classical value of the document under every
   completion of the candidate.
   */
  lemma {:induction false} DefiniteVerdictIsClassical(t: Tree, index: CandidateIndex, v: Valuation)
    requires Completes(v, index)
    ensures Agrees(Truth(t, v), EvalTree(t, index).state)
  {
    match t
    case Leaf(id) =>
      assert Agrees(v(id), Predicate(id, index).state);
    case NotOf(child) =>
      DefiniteVerdictIsClassical(child, index, v);
    case AllOf(children) =>
      ChildrenAgree(children, index, v);
      ChildrenAreCanonical(children, index);
      FoldMeans(false, EvalEach(children, index));
    case AnyOf(children) =>
      ChildrenAgree(children, index, v);
      ChildrenAreCanonical(children, index);
      FoldMeans(true, EvalEach(children, index));
  }

  lemma {:induction false} ChildrenAgree(ts: seq<Tree>, index: CandidateIndex, v: Valuation)
    requires Completes(v, index)
    ensures forall k :: 0 <= k < |ts| ==> Agrees(Truth(ts[k], v), EvalEach(ts, index)[k].state)
  {
    forall k | 0 <= k < |ts| ensures Agrees(Truth(ts[k], v), EvalEach(ts, index)[k].state) {
      EvalEachAt(ts, index, k);
      DefiniteVerdictIsClassical(ts[k], index, v);
    }
  }

  /** Settling open predicates never changes a definite verdict. */
  lemma {:induction false} VerdictIsMonotone(t: Tree, partial: CandidateIndex, known: CandidateIndex)
    requires forall id: string :: Refines(Predicate(id, known).state, Predicate(id, partial).state)
    ensures Refines(EvalTree(t, known).state, EvalTree(t, partial).state)
  {
    match t
    case Leaf(id) =>
      assert Refines(Predicate(id, known).state, Predicate(id, partial).state);
    case NotOf(child) =>
      VerdictIsMonotone(child, partial, known);
    case AllOf(children) =>
      ChildrenAreMonotone(children, partial, known);
      FoldIsMonotone(false, EvalEach(children, known), EvalEach(children, partial));
    case AnyOf(children) =>
      ChildrenAreMonotone(children, partial, known);
      FoldIsMonotone(true, EvalEach(children, known), EvalEach(children, partial));
  }

  lemma {:induction false} ChildrenAreMonotone(ts: seq<Tree>, partial: CandidateIndex, known: CandidateIndex)
    requires forall id: string :: Refines(Predicate(id, known).state, Predicate(id, partial).state)
    ensures forall k :: 0 <= k < |ts| ==> Refines(EvalEach(ts, known)[k].state, EvalEach(ts, partial)[k].state)
  {
    forall k | 0 <= k < |ts| ensures Refines(EvalEach(ts, known)[k].state, EvalEach(ts, partial)[k].state) {
      EvalEachAt(ts, known, k);
      EvalEachAt(ts, partial, k);
      VerdictIsMonotone(ts[k], partial, known);
    }
  }

  /** The whole document: a definite verdict says, for every completion, whether some candidate meets it. */
  lemma DefiniteDocumentIsClassical(t: Tree, cs: seq<Candidate>, vs: seq<Valuation>)
    requires |vs| == |cs|
    requires forall k :: 0 <= k < |cs| && CandidateFault(cs[k]).None? ==> Completes(vs[k], IndexOf(cs[k]))
    ensures Verdict(t, cs).state.IsValid()
    ensures Agrees(exists k :: 0 <= k < |cs| && Truth(t, vs[k]), Verdict(t, cs).state)
  {
    var rs := OutcomesOf(t, cs);
    forall k | 0 <= k < |cs| ensures rs[k].state.IsValid() && Agrees(Truth(t, vs[k]), rs[k].state) {
      OutcomesAt(t, cs, k);
      if CandidateFault(cs[k]).None? {
        StatesAreCanonical(t, IndexOf(cs[k]));
        DefiniteVerdictIsClassical(t, IndexOf(cs[k]), vs[k]);
      }
    }
    FoldMeans(true, rs);
  }

  // --- Diagnostics ---

  /** An open verdict always says why. */
  lemma {:induction false} OpenVerdictIsExplained(t: Tree, index: CandidateIndex)
    requires EvalTree(t, index).state == Indeterminate
    ensures EvalTree(t, index).diagnostics != []
  {
    match t
    case Leaf(_) =>
    case NotOf(child) =>
      StatesAreCanonical(child, index);
      OpenVerdictIsExplained(child, index);
    case AllOf(children) =>
      ChildrenAreExplained(children, index);
      OpenFoldIsExplained(false, EvalEach(children, index));
    case AnyOf(children) =>
      ChildrenAreExplained(children, index);
      OpenFoldIsExplained(true, EvalEach(children, index));
  }

  predicate Explained(r: Result) {
    r.state.IsValid() && (r.state == Indeterminate ==> r.diagnostics != [])
  }

  lemma {:induction false} ChildrenAreExplained(ts: seq<Tree>, index: CandidateIndex)
    ensures forall k :: 0 <= k < |ts| ==> Explained(EvalEach(ts, index)[k])
  {
    forall k | 0 <= k < |ts| ensures Explained(EvalEach(ts, index)[k]) {
      EvalEachAt(ts, index, k);
      StatesAreCanonical(ts[k], index);
      if EvalTree(ts[k], index).state == Indeterminate {
        OpenVerdictIsExplained(ts[k], index);
      }
    }
  }

  lemma {:induction false} OpenFoldIsExplained(any: bool, rs: seq<Result>)
    requires forall k :: 0 <= k < |rs| ==> Explained(rs[k])
    ensures FoldStates(any, rs).IsValid()
    ensures FoldStates(any, rs) == Indeterminate ==> Gather(rs) != []
  {
    if rs != [] {
      assert Explained(rs[|rs| - 1]);
      OpenFoldIsExplained(any, rs[..|rs| - 1]);
    }
  }

  lemma OpenDocumentIsExplained(t: Tree, cs: seq<Candidate>)
    ensures Explained(Verdict(t, cs))
  {
    var rs := OutcomesOf(t, cs);
    forall k | 0 <= k < |rs| ensures Explained(rs[k]) {
      OutcomesAt(t, cs, k);
      if CandidateFault(cs[k]).None? {
        StatesAreCanonical(t, IndexOf(cs[k]));
        if EvalTree(t, IndexOf(cs[k])).state == Indeterminate {
          OpenVerdictIsExplained(t, IndexOf(cs[k]));
        }
      }
    }
    OpenFoldIsExplained(true, rs);
  }

  // --- Exactness ---

  /** The capabilities a tree asks about, in order. */
  function Asked(t: Tree): seq<string> {
    match t
    case Leaf(id) => [id]
    case NotOf(child) => Asked(child)
    case AllOf(children) => AskedAll(children)
    case AnyOf(children) => AskedAll(children)
  }

  function AskedAll(ts: seq<Tree>): seq<string> {
    if ts == [] then [] else Asked(ts[0]) + AskedAll(ts[1..])
  }

  /** No capability is asked about twice. */
  predicate AsksOnce(names: seq<string>) {
    forall i, j :: 0 <= i < j < |names| ==> names[i] != names[j]
  }

  /** The truth of a tree depends only on the capabilities it asks about. */
  lemma {:induction false} TruthIsLocal(t: Tree, v: Valuation, w: Valuation)
    requires forall id :: id in Asked(t) ==> v(id) == w(id)
    ensures Truth(t, v) == Truth(t, w)
  {
    match t
    case Leaf(id) => assert id in Asked(t);
    case NotOf(child) => TruthIsLocal(child, v, w);
    case AllOf(children) => TruthsAreLocal(children, v, w);
    case AnyOf(children) => TruthsAreLocal(children, v, w);
  }

  lemma {:induction false} TruthsAreLocal(ts: seq<Tree>, v: Valuation, w: Valuation)
    requires forall id :: id in AskedAll(ts) ==> v(id) == w(id)
    ensures forall k :: 0 <= k < |ts| ==> Truth(ts[k], v) == Truth(ts[k], w)
  {
    if ts != [] {
      TruthIsLocal(ts[0], v, w);
      TruthsAreLocal(ts[1..], v, w);
      forall k | 0 < k < |ts| ensures Truth(ts[k], v) == Truth(ts[k], w) {
        assert ts[k] == ts[1..][k - 1];
      }
    }
  }

  /** The capabilities as they stand, with every open one denied. */
  function Standing(index: CandidateIndex): Valuation {
    (id: string) => Predicate(id, index).state == Satisfied
  }

  lemma StandingCompletes(index: CandidateIndex)
    ensures Completes(Standing(index), index)
  {
  }

  /** `v` on the capabilities in `names`, `w` elsewhere. */
  function Merge(names: seq<string>, v: Valuation, w: Valuation): Valuation {
    (id: string) => if id in names then v(id) else w(id)
  }

  lemma MergeCompletes(names: seq<string>, v: Valuation, w: Valuation, index: CandidateIndex)
    requires Completes(v, index) && Completes(w, index)
    ensures Completes(Merge(names, v, w), index)
  {
    forall id: string ensures Agrees(Merge(names, v, w)(id), Predicate(id, index).state) {
      assert Agrees(v(id), Predicate(id, index).state) && Agrees(w(id), Predicate(id, index).state);
    }
  }

  lemma AsksOnceParts(a: seq<string>, b: seq<string>)
    requires AsksOnce(a + b)
    ensures AsksOnce(a) && AsksOnce(b) && forall id :: id in b ==> id !in a
  {
    var s := a + b;
    forall i, j | 0 <= i < j < |a| ensures a[i] != a[j] {
      assert s[i] != s[j];
    }
    forall i, j | 0 <= i < j < |b| ensures b[i] != b[j] {
      assert s[|a| + i] != s[|a| + j];
    }
    forall i, j | 0 <= i < |a| && 0 <= j < |b| ensures a[i] != b[j] {
      assert s[i] != s[|a| + j];
    }
  }

  function OneChanged(v: Valuation, id: string, b: bool): Valuation {
    (x: string) => if x == id then b else v(x)
  }

  lemma PossibleLeaf(id: string, index: CandidateIndex, b: bool) returns (v: Valuation)
    requires Predicate(id, index).state != Classical(!b)
    ensures Completes(v, index) && v(id) == b
  {
    v := OneChanged(Standing(index), id, b);
    StandingCompletes(index);
    forall x: string ensures Agrees(v(x), Predicate(x, index).state) {
      var s := Predicate(x, index).state;
      assert Agrees(Standing(index)(x), s);
    }
  }

  /** When nothing is asked twice, a value the verdict does not exclude is the value of some completion. */
  lemma {:induction false} NotExcludedIsPossible(t: Tree, index: CandidateIndex, b: bool) returns (v: Valuation)
    requires AsksOnce(Asked(t)) && EvalTree(t, index).state != Classical(!b)
    ensures Completes(v, index) && Truth(t, v) == b
    decreases t, 1
  {
    match t
    case Leaf(id) =>
      v := PossibleLeaf(id, index, b);
    case NotOf(child) =>
      v := NotExcludedIsPossible(child, index, !b);
    case AllOf(children) =>
      v := FoldNotExcluded(false, children, index, b, t);
    case AnyOf(children) =>
      v := FoldNotExcluded(true, children, index, b, t);
  }

  lemma {:induction false} FoldNotExcluded(any: bool, ts: seq<Tree>, index: CandidateIndex, b: bool, t: Tree)
    returns (v: Valuation)
    requires (t.AllOf? || t.AnyOf?) && ts == t.children && AsksOnce(AskedAll(ts))
    requires FoldStates(any, EvalEach(ts, index)) != Classical(!b)
    ensures Completes(v, index)
    ensures if any == b then (exists k :: 0 <= k < |ts| && Truth(ts[k], v) == b)
            else (forall k :: 0 <= k < |ts| ==> Truth(ts[k], v) == b)
    decreases t, 0
  {
    var rs := EvalEach(ts, index);
    ChildrenAreCanonical(ts, index);
    FoldMeans(any, rs);
    if any == b {
      var k :| 0 <= k < |ts| && rs[k].state != Classical(!b);
      EvalEachAt(ts, index, k);
      OneAsksOnce(ts, k);
      v := NotExcludedIsPossible(ts[k], index, b);
    } else {
      forall k | 0 <= k < |ts| ensures EvalTree(ts[k], index).state != Classical(!b) {
        EvalEachAt(ts, index, k);
      }
      v := AllAtOnce(ts, index, b, t);
    }
  }

  lemma {:induction false} OneAsksOnce(ts: seq<Tree>, k: nat)
    requires AsksOnce(AskedAll(ts)) && k < |ts|
    ensures AsksOnce(Asked(ts[k]))
  {
    AsksOnceParts(Asked(ts[0]), AskedAll(ts[1..]));
    if k > 0 {
      OneAsksOnce(ts[1..], k - 1);
    }
  }

  /** Trees that ask about different things can be given the same value together. */
  lemma {:induction false} AllAtOnce(ts: seq<Tree>, index: CandidateIndex, b: bool, t: Tree) returns (v: Valuation)
    requires AsksOnce(AskedAll(ts))
    requires forall k :: 0 <= k < |ts| ==> ts[k] < t && EvalTree(ts[k], index).state != Classical(!b)
    ensures Completes(v, index) && forall k :: 0 <= k < |ts| ==> Truth(ts[k], v) == b
    decreases t, 0, |ts|
  {
    if ts == [] {
      v := Standing(index);
      StandingCompletes(index);
    } else {
      AsksOnceParts(Asked(ts[0]), AskedAll(ts[1..]));
      var first := NotExcludedIsPossible(ts[0], index, b);
      var rest := AllAtOnce(ts[1..], index, b, t);
      v := Merge(Asked(ts[0]), first, rest);
      MergeCompletes(Asked(ts[0]), first, rest, index);
      TruthIsLocal(ts[0], v, first);
      TruthsAreLocal(ts[1..], v, rest);
      forall k | 0 < k < |ts| ensures Truth(ts[k], v) == b {
        assert ts[k] == ts[1..][k - 1];
      }
    }
  }

  /**
   A document that asks each question once is left open exactly when its value is open: both answers are
   possible under some completion of the candidate.
   */
  lemma OpenExactlyWhenBothPossible(t: Tree, index: CandidateIndex)
    requires AsksOnce(Asked(t))
    ensures EvalTree(t, index).state == Indeterminate <==>
      (exists v, w :: Completes(v, index) && Completes(w, index) && Truth(t, v) && !Truth(t, w))
  {
    StatesAreCanonical(t, index);
    if EvalTree(t, index).state == Indeterminate {
      var v := NotExcludedIsPossible(t, index, true);
      var w := NotExcludedIsPossible(t, index, false);
      assert Completes(v, index) && Completes(w, index) && Truth(t, v) && !Truth(t, w);
    } else {
      forall v, w | Completes(v, index) && Completes(w, index) ensures Truth(t, v) == Truth(t, w) {
        DefiniteVerdictIsClassical(t, index, v);
        DefiniteVerdictIsClassical(t, index, w);
      }
    }
  }

  /** Asking twice loses exactness: "`a` or not `a`" stays open although every completion meets it. */
  lemma AskingTwiceStaysOpen(id: string, index: CandidateIndex, v: Valuation)
    requires !Predicate(id, index).state.Definite()
    ensures var t := AnyOf([Leaf(id), NotOf(Leaf(id))]);
      Truth(t, v) && EvalTree(t, index).state == Indeterminate
  {
    var ts := [Leaf(id), NotOf(Leaf(id))];
    assert Truth(ts[0], v) || Truth(ts[1], v);
    EvalEachAt(ts, index, 0);
    EvalEachAt(ts, index, 1);
    ChildrenAreCanonical(ts, index);
    FoldMeans(true, EvalEach(ts, index));
  }
}
