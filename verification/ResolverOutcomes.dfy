/**
 What a resolution says about its evidence, with the ranks and levels of internal/capability/resolver.go and
 internal/model written out: which evidence counts, which of it leads, and how sure the result is.
 */
module ResolverOutcomes {
  import opened Text
  import opened EvidenceModel
  import opened Resolver

  /** Confidence from 0, unknown, to 3, verified. */
  function Strength(c: Confidence): int {
    match c
    case Verified => 3
    case Derived => 2
    case Heuristic => 1
    case _ => 0
  }

  /**
   What a piece of evidence lends: live and runtime evidence all that it states, configuration at most derived,
   knowledge and heuristics at most heuristic confidence.
   */
  function Lends(ev: Evidence): int {
    var stated := Strength(ev.confidence);
    if ev.precedence <= 2 then stated
    else if ev.precedence == 3 then (if stated > 2 then 2 else stated)
    else if stated > 1 then 1
    else stated
  }

  lemma ConfidenceByRank(ev: Evidence)
    requires ev.confidence.IsValid() && 1 <= ev.precedence <= 5
    ensures ev.precedence == 1 || ev.precedence == 2 ==> ConfidenceOf(ev) == ev.confidence
    ensures ev.precedence == 3 ==> ConfidenceOf(ev) == if ev.confidence == Verified then Derived else ev.confidence
    ensures ev.precedence == 4 || ev.precedence == 5 ==>
      ConfidenceOf(ev) ==
      if ev.confidence == Verified || ev.confidence == Derived then Heuristic else ev.confidence
    ensures Strength(ConfidenceOf(ev)) == Lends(ev)
  {
  }

  /** The evidence is from this run, no later than now, of this scope, well formed and complete. */
  predicate IsUsable(ev: Evidence, scope: Scope, at: Time) {
    && ev.scope == scope && ev.timestamp <= at && ev.timestamp != 0
    && ev.id != "" && ev.source != "" && ev.claim != "" && 1 <= ev.precedence <= 5
    && (ev.state == Supported || ev.state == Unsupported || ev.state == Misconfigured || ev.state == Unavailable
        || ev.state == UnknownState)
    && (ev.confidence == Verified || ev.confidence == Derived || ev.confidence == Heuristic
        || ev.confidence == UnknownConfidence)
    && ev.completeness == Complete
  }

  /** `code` names the first thing that is wrong with the evidence. */
  predicate Faults(ev: Evidence, scope: Scope, at: Time, code: string) {
    var stale := ev.scope.runID != scope.runID || ev.timestamp > at;
    var formed := IsUsable(ev.(completeness := Complete), scope, at);
    || (code == "stale_evidence" && stale)
    || (code == "incompatible_scope" && !stale && ev.scope != scope)
    || (code == "invalid_evidence" && !stale && ev.scope == scope && !formed)
    || (code == "incomplete_evidence" && formed && ev.completeness != Complete)
  }

  lemma ExclusionIsExact(ev: Evidence, scope: Scope, id: string, at: Time)
    ensures Claims(ev, scope, id, at) <==> ev.claim == id && IsUsable(ev, scope, at)
    ensures forall code :: Faults(ev, scope, at, code) <==> code == Unusable(ev, scope, at) && code != ""
  {
  }

  ghost predicate Counts(ev: Evidence, input: seq<Evidence>, scope: Scope, id: string, at: Time) {
    ev in input && ev.claim == id && IsUsable(ev, scope, at)
  }

  /** Usable evidence that no other usable evidence outranks. */
  ghost predicate Leads(ev: Evidence, input: seq<Evidence>, scope: Scope, id: string, at: Time) {
    Counts(ev, input, scope, id, at)
      && forall other :: Counts(other, input, scope, id, at) ==> ev.precedence <= other.precedence
  }

  /** Some evidence leads, and all that leads reports `state`. */
  ghost predicate LeadersReport(state: CapabilityState, input: seq<Evidence>, scope: Scope, id: string, at: Time) {
    && (exists ev :: Leads(ev, input, scope, id, at))
    && (forall ev :: Leads(ev, input, scope, id, at) ==> ev.state == state)
  }

  lemma SamePieces(sorted: seq<Evidence>, input: seq<Evidence>)
    requires multiset(sorted) == multiset(input)
    ensures forall ev :: ev in sorted <==> ev in input
  {
    forall ev ensures ev in sorted <==> ev in input {
      assert ev in sorted <==> ev in multiset(sorted);
      assert ev in input <==> ev in multiset(input);
    }
  }

  lemma LeadersAreTop(s: seq<Evidence>, scope: Scope, id: string, at: Time)
    ensures forall ev :: ev in Selected(s, scope, id, at) <==> Counts(ev, s, scope, id, at)
    ensures forall ev :: ev in Top(s, scope, id, at) <==> Leads(ev, s, scope, id, at)
    ensures forall ev :: Leads(ev, s, scope, id, at) ==> ev.precedence == Best(Selected(s, scope, id, at))
  {
    TopMembers(s, scope, id, at);
    forall ev ensures ev in Selected(s, scope, id, at) <==> Counts(ev, s, scope, id, at) {
      ExclusionIsExact(ev, scope, id, at);
    }
    forall ev | Leads(ev, s, scope, id, at) ensures ev.precedence == Best(Selected(s, scope, id, at)) {
      var best := Best(Selected(s, scope, id, at));
      var other :| other in Selected(s, scope, id, at) && other.precedence == best;
      assert Counts(other, s, scope, id, at);
    }
  }

  /** The least confidence of a list is what its least certain piece lends. */
  lemma {:induction false} WeakestIsLeast(s: seq<Evidence>)
    requires s != [] && forall ev :: ev in s ==> ev.confidence.IsValid() && 1 <= ev.precedence <= 5
    ensures forall ev :: ev in s ==> Strength(Weakest(s)) <= Lends(ev)
    ensures exists ev :: ev in s && Strength(Weakest(s)) == Lends(ev)
  {
    var front, last := s[..|s| - 1], s[|s| - 1];
    assert s == front + [last];
    ConfidenceByRank(last);
    if |s| > 1 {
      WeakestIsLeast(front);
    }
  }

  /** The top of the sorted input is what leads in the input. */
  lemma LeadersOf(sorted: seq<Evidence>, input: seq<Evidence>, scope: Scope, id: string, at: Time)
    requires multiset(sorted) == multiset(input)
    ensures forall ev :: ev in Selected(sorted, scope, id, at) <==> Counts(ev, input, scope, id, at)
    ensures forall ev :: ev in Top(sorted, scope, id, at) <==> Leads(ev, input, scope, id, at)
    ensures forall ev :: Leads(ev, input, scope, id, at) ==> ev.precedence == Best(Selected(sorted, scope, id, at))
  {
    SamePieces(sorted, input);
    LeadersAreTop(sorted, scope, id, at);
    forall ev ensures Leads(ev, input, scope, id, at) <==> Leads(ev, sorted, scope, id, at) {}
  }

  /**
   The state: definite exactly when the leading evidence agrees on one, and then that one; the confidence is the
   least that leading evidence lends, and unknown when the state is.
   */
  lemma ResolutionDecides(res: Resolution, input: seq<Evidence>, scope: Scope, id: string, at: Time)
    requires ResolvesFrom(res, input, scope, id, at)
    requires scope.IsValid() && ValidCapabilityID(id) && at != 0
    ensures var c := res.capability;
      && c.scope == scope && c.id == id
      && (c.state != UnknownState ==> LeadersReport(c.state, input, scope, id, at))
      && (forall state :: LeadersReport(state, input, scope, id, at) ==> c.state == state)
      && (c.state == UnknownState ==> c.confidence == UnknownConfidence)
      && (c.state != UnknownState ==>
            && c.confidence.IsValid()
            && (forall ev :: Leads(ev, input, scope, id, at) ==> Strength(c.confidence) <= Lends(ev))
            && (exists ev :: Leads(ev, input, scope, id, at) && Strength(c.confidence) == Lends(ev)))
  {
    var sorted :| SortedByID(sorted) && multiset(sorted) == multiset(input)
      && res == Resolved(sorted, scope, id, at);
    LeadersOf(sorted, input, scope, id, at);
    TopDecides(Top(sorted, scope, id, at));
  }

  lemma TopDecides(top: seq<Evidence>)
    requires forall ev :: ev in top ==> ev.confidence.IsValid() && 1 <= ev.precedence <= 5
    ensures Consensus(top) != UnknownState ==> top != [] && forall ev :: ev in top ==> ev.state == Consensus(top)
    ensures forall a :: a in top && (forall ev :: ev in top ==> ev.state == a.state) ==> Consensus(top) == a.state
    ensures top != [] ==>
      && (forall ev :: ev in top ==> Strength(Weakest(top)) <= Lends(ev))
      && (exists ev :: ev in top && Strength(Weakest(top)) == Lends(ev))
  {
    ConsensusReported(top);
    if top != [] {
      assert top[0] in top;
      WeakestIsLeast(top);
    }
  }

  function RankName(precedence: nat): string {
    if precedence == 1 then "live"
    else if precedence == 2 then "runtime"
    else if precedence == 3 then "config"
    else if precedence == 4 then "knowledge"
    else "heuristic"
  }

  /** Why a state is open: no evidence counts, or leading evidence disagrees. */
  lemma OpenForAReason(res: Resolution, input: seq<Evidence>, scope: Scope, id: string, at: Time)
    requires ResolvesFrom(res, input, scope, id, at)
    requires scope.IsValid() && ValidCapabilityID(id) && at != 0
    ensures (forall ev :: !Leads(ev, input, scope, id, at)) ==>
      res.capability.reason == "no complete evidence for this candidate"
    ensures forall a, b :: Leads(a, input, scope, id, at) && Leads(b, input, scope, id, at) && a.state != b.state ==>
      res.capability.reason == "conflicting evidence at equal precedence"
  {
    var sorted :| SortedByID(sorted) && multiset(sorted) == multiset(input)
      && res == Resolved(sorted, scope, id, at);
    LeadersOf(sorted, input, scope, id, at);
    TopReason(Top(sorted, scope, id, at), Best(Selected(sorted, scope, id, at)));
  }

  /** Why a state was selected: the rank of the leading evidence. */
  lemma SelectedForAReason(res: Resolution, input: seq<Evidence>, scope: Scope, id: string, at: Time, ev: Evidence)
    requires ResolvesFrom(res, input, scope, id, at)
    requires scope.IsValid() && ValidCapabilityID(id) && at != 0
    requires Leads(ev, input, scope, id, at) && LeadersReport(ev.state, input, scope, id, at)
    ensures res.capability.reason == "selected complete " + RankName(ev.precedence) + " evidence"
  {
    var sorted :| SortedByID(sorted) && multiset(sorted) == multiset(input)
      && res == Resolved(sorted, scope, id, at);
    LeadersOf(sorted, input, scope, id, at);
    TopIsSelected(Top(sorted, scope, id, at), ev);
  }

  lemma TopIsSelected(top: seq<Evidence>, ev: Evidence)
    requires ev in top && 1 <= ev.precedence <= 5 && forall other :: other in top ==> other.state == ev.state
    ensures ReasonFor(top, ev.precedence) == "selected complete " + RankName(ev.precedence) + " evidence"
  {
    assert forall k :: 0 <= k < |top| ==> top[k] in top;
  }

  lemma TopReason(top: seq<Evidence>, best: nat)
    ensures (forall ev :: ev !in top) ==> ReasonFor(top, best) == "no complete evidence for this candidate"
    ensures forall a, b :: a in top && b in top && a.state != b.state ==>
      ReasonFor(top, best) == "conflicting evidence at equal precedence"
  {
    if top != [] {
      assert top[0] in top;
    }
    if !Unanimous(top) {
      var k :| 0 < k < |top| && top[k].state != top[0].state;
      assert top[k] in top;
    }
  }

  /** Evidence is cited when it leads, superseded when it counts without leading; both in the order of identifiers. */
  lemma ResolutionCites(res: Resolution, input: seq<Evidence>, scope: Scope, id: string, at: Time)
    requires ResolvesFrom(res, input, scope, id, at) && DistinctIDs(input)
    requires scope.IsValid() && ValidCapabilityID(id) && at != 0
    ensures forall ref :: ref in res.capability.evidence <==>
      exists ev :: Leads(ev, input, scope, id, at) && ev.id == ref
    ensures forall ref :: ref in res.superseded <==>
      exists ev :: Counts(ev, input, scope, id, at) && !Leads(ev, input, scope, id, at) && ev.id == ref
    ensures forall i, j :: 0 <= i < j < |res.capability.evidence| ==>
      Less(res.capability.evidence[i], res.capability.evidence[j])
    ensures forall i, j :: 0 <= i < j < |res.superseded| ==> Less(res.superseded[i], res.superseded[j])
  {
    var sorted :| SortedByID(sorted) && multiset(sorted) == multiset(input)
      && res == Resolved(sorted, scope, id, at);
    SortedDistinctIsStrict(sorted, input);
    LeadersOf(sorted, input, scope, id, at);
    var selected := Selected(sorted, scope, id, at);
    var best, top := Best(selected), Top(sorted, scope, id, at);
    SelectedStaysSorted(sorted, scope, id, at);
    OfRankStaysSorted(selected, best);
    forall ref ensures ref in IDs(top) <==> exists ev :: ev in top && ev.id == ref {
      if ref in IDs(top) {
        var k :| 0 <= k < |top| && IDs(top)[k] == ref;
        assert top[k] in top;
      }
      if ev :| ev in top && ev.id == ref {
        var k :| 0 <= k < |top| && top[k] == ev;
        assert IDs(top)[k] == ref;
      }
    }
    OthersMembers(selected, best);
    OfRankMembers(selected, best);
    OthersSorted(selected, best);
  }

  lemma {:induction false} OthersMembers(s: seq<Evidence>, rank: nat)
    ensures forall ref :: ref in Others(s, rank) <==> exists ev :: ev in s && ev.precedence != rank && ev.id == ref
  {
    if s != [] {
      var front, last := s[..|s| - 1], s[|s| - 1];
      assert s == front + [last];
      OthersMembers(front, rank);
    }
  }

  lemma {:induction false} OthersSorted(s: seq<Evidence>, rank: nat)
    requires StrictlySorted(s)
    ensures forall i, j :: 0 <= i < j < |Others(s, rank)| ==> Less(Others(s, rank)[i], Others(s, rank)[j])
  {
    if s != [] {
      var front, last := s[..|s| - 1], s[|s| - 1];
      OthersSorted(front, rank);
      OthersMembers(front, rank);
      forall ref | ref in Others(front, rank) ensures Less(ref, last.id) {
        var ev :| ev in front && ev.precedence != rank && ev.id == ref;
        var k :| 0 <= k < |front| && front[k] == ev;
        assert s[k] == ev;
      }
      var others := Others(front, rank);
      assert forall i :: 0 <= i < |others| ==> others[i] in others;
    }
  }

  /** The diagnostic of one excluded piece of evidence. */
  predicate Blames(d: Diagnostic, ev: Evidence, scope: Scope, id: string, at: Time) {
    ev.claim == id && Faults(ev, scope, at, d.code)
      && d == Diagnostic(d.code, "evidence excluded from resolution", ev.id)
  }

  /** One diagnostic for each claim that does not count, with what is wrong with it. */
  lemma ResolutionExplains(res: Resolution, input: seq<Evidence>, scope: Scope, id: string, at: Time)
    requires ResolvesFrom(res, input, scope, id, at)
    requires scope.IsValid() && ValidCapabilityID(id) && at != 0
    ensures forall d :: d in res.diagnostics <==> exists ev :: ev in input && Blames(d, ev, scope, id, at)
  {
    var sorted :| SortedByID(sorted) && multiset(sorted) == multiset(input)
      && res == Resolved(sorted, scope, id, at);
    SamePieces(sorted, input);
    ExclusionsMembers(sorted, scope, id, at);
  }

  lemma {:induction false} ExclusionsMembers(s: seq<Evidence>, scope: Scope, id: string, at: Time)
    ensures forall d :: d in Exclusions(s, scope, id, at) <==>
      exists ev :: ev in s && Blames(d, ev, scope, id, at)
  {
    if s != [] {
      var front, last := s[..|s| - 1], s[|s| - 1];
      assert s == front + [last];
      ExclusionsMembers(front, scope, id, at);
      forall d ensures d in Exclusions(s, scope, id, at) <==>
        d in Exclusions(front, scope, id, at) || Blames(d, last, scope, id, at)
      {
        ExclusionIsExact(last, scope, id, at);
        LastExclusion(s, scope, id, at, d);
      }
    }
  }

  lemma LastExclusion(s: seq<Evidence>, scope: Scope, id: string, at: Time, d: Diagnostic)
    requires s != []
    ensures var last := s[|s| - 1];
      d in Exclusions(s, scope, id, at) <==>
        || d in Exclusions(s[..|s| - 1], scope, id, at)
        || (last.claim == id && Unusable(last, scope, at) != ""
            && d == Diagnostic(Unusable(last, scope, at), "evidence excluded from resolution", last.id))
  {
  }

  /** Without a valid scope, claim and time nothing is decided, whatever the evidence. */
  lemma InvalidQuestionIsRefused(res: Resolution, input: seq<Evidence>, scope: Scope, id: string, at: Time)
    requires ResolvesFrom(res, input, scope, id, at)
    requires scope.runID == "" || scope.contextID == "" || ((scope.runtime == "") != (scope.endpoint == ""))
      || !ValidCapabilityID(id) || at == 0
    ensures res.capability == Capability(scope, id, UnknownState, UnknownConfidence,
                                         "no complete evidence for this candidate", [])
    ensures res.superseded == []
      && res.diagnostics == [Diagnostic("invalid_scope", "invalid evaluation scope or claim", "")]
  {
  }
}
