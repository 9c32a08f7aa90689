/** Ranked evidence resolution: internal/capability/resolver.go. */
module Resolver {
  import opened Seqs
  import opened Text
  import opened EvidenceModel

  datatype Resolution = Resolution(capability: Capability, superseded: seq<string>, diagnostics: seq<Diagnostic>)

  // --- Pure parts ---

  /** Why a piece of evidence is excluded; empty when it is usable. */
  function Unusable(ev: Evidence, scope: Scope, at: Time): string {
    if ev.scope.runID != scope.runID || ev.timestamp > at then "stale_evidence"
    else if ev.scope != scope then "incompatible_scope"
    else if !ev.Validates() || !ev.state.IsValid() || !ev.confidence.IsValid() then "invalid_evidence"
    else if ev.completeness != Complete then "incomplete_evidence"
    else ""
  }

  /** The strongest confidence that evidence of a precedence can carry. */
  function Ceiling(precedence: nat): Confidence {
    if precedence == LIVE || precedence == RUNTIME then Verified
    else if precedence == CONFIG then Derived
    else Heuristic
  }

  function Weaker(a: Confidence, b: Confidence): (c: Confidence)
    requires a.IsValid() && b.IsValid()
    ensures c.IsValid() && c.Level() <= a.Level() && c.Level() <= b.Level() && (c == a || c == b)
  {
    if a.Level() <= b.Level() then a else b
  }

  function ConfidenceOf(ev: Evidence): (c: Confidence)
    requires ev.confidence.IsValid()
    ensures c.IsValid() && c.Level() <= ev.confidence.Level() && c.Level() <= Ceiling(ev.precedence).Level()
  {
    Weaker(Ceiling(ev.precedence), ev.confidence)
  }

  function PrecedenceName(precedence: nat): string {
    if precedence == LIVE then "live"
    else if precedence == RUNTIME then "runtime"
    else if precedence == CONFIG then "config"
    else if precedence == KNOWLEDGE then "knowledge"
    else if precedence == HEURISTIC then "heuristic"
    else "unknown"
  }

  // --- The declarative reading of a resolution ---

  predicate Claims(ev: Evidence, scope: Scope, id: string, at: Time) {
    ev.claim == id && Unusable(ev, scope, at) == ""
  }

  /** The usable evidence for a claim, in order. */
  function Selected(s: seq<Evidence>, scope: Scope, id: string, at: Time): (r: seq<Evidence>)
    ensures forall ev :: ev in r <==> ev in s && Claims(ev, scope, id, at)
  {
    if s == [] then []
    else
      var front, last := Selected(s[..|s| - 1], scope, id, at), s[|s| - 1];
      if Claims(last, scope, id, at) then front + [last] else front
  }

  /** The best precedence present; one more than the last rank when there is none. */
  function Best(s: seq<Evidence>): (r: nat)
    ensures forall ev :: ev in s ==> r <= ev.precedence
    ensures r <= HEURISTIC + 1
    ensures r <= HEURISTIC ==> exists ev :: ev in s && ev.precedence == r
  {
    if s == [] then HEURISTIC + 1
    else
      var front, last := Best(s[..|s| - 1]), s[|s| - 1];
      assert s == s[..|s| - 1] + [last];
      if last.precedence < front then last.precedence else front
  }

  /** The evidence of one rank, in order. */
  function OfRank(s: seq<Evidence>, rank: nat): seq<Evidence> {
    if s == [] then []
    else
      var front, last := OfRank(s[..|s| - 1], rank), s[|s| - 1];
      if last.precedence == rank then front + [last] else front
  }

  lemma {:induction false} OfRankMembers(s: seq<Evidence>, rank: nat)
    ensures forall ev :: ev in OfRank(s, rank) <==> ev in s && ev.precedence == rank
  {
    if s != [] {
      OfRankMembers(s[..|s| - 1], rank);
      assert s == s[..|s| - 1] + [s[|s| - 1]];
    }
  }

  /** The identifiers of the evidence of all other ranks, in order. */
  function Others(s: seq<Evidence>, rank: nat): seq<string> {
    if s == [] then []
    else
      var front, last := Others(s[..|s| - 1], rank), s[|s| - 1];
      if last.precedence != rank then front + [last.id] else front
  }

  function IDs(s: seq<Evidence>): (r: seq<string>)
    ensures |r| == |s| && forall k :: 0 <= k < |s| ==> r[k] == s[k].id
  {
    seq(|s|, k requires 0 <= k < |s| => s[k].id)
  }

  predicate Unanimous(s: seq<Evidence>) {
    forall k :: 0 < k < |s| ==> s[k].state == s[0].state
  }

  function Consensus(s: seq<Evidence>): CapabilityState {
    if s != [] && Unanimous(s) then s[0].state else UnknownState
  }

  function Weakest(s: seq<Evidence>): (c: Confidence)
    requires s != [] && forall ev :: ev in s ==> ev.confidence.IsValid()
    ensures c.IsValid()
  {
    if |s| == 1 then ConfidenceOf(s[0])
    else Weaker(Weakest(s[..|s| - 1]), ConfidenceOf(s[|s| - 1]))
  }

  lemma {:induction false} WeakestBounds(s: seq<Evidence>)
    requires s != [] && forall ev :: ev in s ==> ev.confidence.IsValid()
    ensures forall ev :: ev in s ==> Weakest(s).Level() <= ConfidenceOf(ev).Level()
  {
    if |s| > 1 {
      WeakestBounds(s[..|s| - 1]);
      assert s == s[..|s| - 1] + [s[|s| - 1]];
    }
  }

  function ReasonFor(top: seq<Evidence>, best: nat): string {
    if top == [] then "no complete evidence for this candidate"
    else if Unanimous(top) then "selected complete " + PrecedenceName(best) + " evidence"
    else "conflicting evidence at equal precedence"
  }

  function Exclusions(s: seq<Evidence>, scope: Scope, id: string, at: Time): seq<Diagnostic> {
    if s == [] then []
    else
      var front, last := Exclusions(s[..|s| - 1], scope, id, at), s[|s| - 1];
      if last.claim == id && Unusable(last, scope, at) != ""
      then front + [Diagnostic(Unusable(last, scope, at), "evidence excluded from resolution", last.id)]
      else front
  }

  /** The usable evidence of the best rank present. */
  function Top(s: seq<Evidence>, scope: Scope, id: string, at: Time): (r: seq<Evidence>)
    ensures forall ev :: ev in r ==> ev in s && Claims(ev, scope, id, at)
  {
    OfRankMembers(Selected(s, scope, id, at), Best(Selected(s, scope, id, at)));
    OfRank(Selected(s, scope, id, at), Best(Selected(s, scope, id, at)))
  }

  function Determination(s: seq<Evidence>, scope: Scope, id: string, at: Time): Capability {
    var top := Top(s, scope, id, at);
    Capability(scope, id, Consensus(top),
               if Consensus(top) == UnknownState then UnknownConfidence else Weakest(top),
               ReasonFor(top, Best(Selected(s, scope, id, at))), IDs(top))
  }

  /** The resolution of evidence that is sorted by identifier. */
  function Resolved(s: seq<Evidence>, scope: Scope, id: string, at: Time): Resolution {
    if !scope.IsValid() || !ValidCapabilityID(id) || at == 0 then
      Resolution(Capability(scope, id, UnknownState, UnknownConfidence, "no complete evidence for this candidate", []),
                 [],
                 [Diagnostic("invalid_scope", "invalid evaluation scope or claim", "")])
    else
      var selected := Selected(s, scope, id, at);
      Resolution(Determination(s, scope, id, at), Others(selected, Best(selected)), Exclusions(s, scope, id, at))
  }

  // --- Sorting by identifier ---

  predicate SortedByID(s: seq<Evidence>) {
    forall i, j :: 0 <= i < j < |s| ==> AtMost(s[i].id, s[j].id)
  }

  /** The library's sort of evidence by identifier: some sorted permutation. */
  method SortByID(s: seq<Evidence>) returns (r: seq<Evidence>)
    ensures SortedByID(r) && multiset(r) == multiset(s)
  {
    r := [];
    var k := 0;
    while k < |s|
      invariant 0 <= k <= |s|
      invariant SortedByID(r) && multiset(r) == multiset(s[..k])
    {
      assert s[..k + 1] == s[..k] + [s[k]];
      r := InsertByID(r, s[k]);
      k := k + 1;
    }
    assert s[..k] == s;
  }

  method InsertByID(s: seq<Evidence>, x: Evidence) returns (r: seq<Evidence>)
    requires SortedByID(s)
    ensures SortedByID(r) && multiset(r) == multiset(s) + multiset{x}
  {
    var i := 0;
    while i < |s| && AtMost(s[i].id, x.id)
      invariant 0 <= i <= |s|
      invariant forall k :: 0 <= k < i ==> AtMost(s[k].id, x.id)
    {
      i := i + 1;
    }
    r := s[..i] + [x] + s[i..];
    InsertAddsOne(s, i, x);
    InsertKeepsIDOrder(s, i, x);
  }

  lemma InsertKeepsIDOrder(s: seq<Evidence>, i: nat, x: Evidence)
    requires i <= |s| && SortedByID(s)
    requires forall k :: 0 <= k < i ==> AtMost(s[k].id, x.id)
    requires i < |s| ==> !AtMost(s[i].id, x.id)
    ensures SortedByID(s[..i] + [x] + s[i..])
  {
    forall k | i <= k < |s| ensures AtMost(x.id, s[k].id) {
      AtMostTotal(s[i].id, x.id);
      if k > i {
        AtMostTransitive(x.id, s[i].id, s[k].id);
      }
    }
    var front, back := s[..i] + [x], s[i..];
    forall k | 0 <= k < |back| ensures AtMost(x.id, back[k].id) {
      assert back[k] == s[i + k];
    }
    AtMostTotal(x.id, x.id);
    ConcatByID(front, back, x.id);
  }

  lemma ConcatByID(a: seq<Evidence>, b: seq<Evidence>, middle: string)
    requires SortedByID(a) && SortedByID(b)
    requires forall k :: 0 <= k < |a| ==> AtMost(a[k].id, middle)
    requires forall k :: 0 <= k < |b| ==> AtMost(middle, b[k].id)
    ensures SortedByID(a + b)
  {
    forall i, j | 0 <= i < |a| && 0 <= j < |b| ensures AtMost(a[i].id, b[j].id) {
      AtMostTransitive(a[i].id, middle, b[j].id);
    }
  }

  // --- The method ---

  /** Excludes what cannot be used, and finds the best rank. */
  method SelectUsable(evidence: seq<Evidence>, scope: Scope, id: string, at: Time)
    returns (selected: seq<Evidence>, best: nat, diagnostics: seq<Diagnostic>)
    ensures selected == Selected(evidence, scope, id, at)
    ensures best == Best(selected)
    ensures diagnostics == Exclusions(evidence, scope, id, at)
  {
    selected, best, diagnostics := [], HEURISTIC + 1, [];
    var k := 0;
    while k < |evidence|
      invariant 0 <= k <= |evidence|
      invariant selected == Selected(evidence[..k], scope, id, at)
      invariant best == Best(selected)
      invariant diagnostics == Exclusions(evidence[..k], scope, id, at)
    {
      var ev := evidence[k];
      assert evidence[..k + 1][..k] == evidence[..k];
      if ev.claim == id {
        var code := Unusable(ev, scope, at);
        if code != "" {
          diagnostics := diagnostics + [Diagnostic(code, "evidence excluded from resolution", ev.id)];
        } else {
          assert (selected + [ev])[..|selected|] == selected;
          selected := selected + [ev];
          best := if ev.precedence < best then ev.precedence else best;
        }
      }
      k := k + 1;
    }
    assert evidence[..k] == evidence;
  }

  /** `c` is what best-ranked evidence `top` makes of a capability. */
  ghost predicate Summarizes(c: Capability, scope: Scope, id: string, top: seq<Evidence>, best: nat) {
    && (forall ev :: ev in top ==> ev.confidence.IsValid())
    && c.scope == scope && c.id == id && c.state == Consensus(top)
    && c.confidence == (if top == [] then UnknownConfidence else Weakest(top))
    && c.reason == ReasonFor(top, best) && c.evidence == IDs(top)
  }

  /** Taking in one more piece of best-ranked evidence. */
  function Absorb(c: Capability, ev: Evidence, first: bool, best: nat): Capability
    requires c.confidence.IsValid() && ev.confidence.IsValid()
  {
    var d := c.(evidence := c.evidence + [ev.id]);
    if first then
      d.(state := ev.state, confidence := ConfidenceOf(ev),
         reason := "selected complete " + PrecedenceName(best) + " evidence")
    else
      var e := if ev.state != d.state
        then d.(state := UnknownState, reason := "conflicting evidence at equal precedence") else d;
      e.(confidence := Weaker(d.confidence, ConfidenceOf(ev)))
  }

  lemma ConsensusStep(s: seq<Evidence>, ev: Evidence)
    ensures Consensus(s + [ev]) == if s == [] || ev.state == Consensus(s) then ev.state else UnknownState
    ensures Unanimous(s + [ev]) <==> s == [] || (Unanimous(s) && ev.state == s[0].state)
  {
    var t := s + [ev];
    assert t[|s|] == ev;
    assert s != [] ==> t[0] == s[0];
    assert forall k :: 0 < k < |s| ==> t[k] == s[k];
    if s != [] && !Unanimous(s) {
      var k :| 0 < k < |s| && s[k].state != s[0].state;
      assert t[k].state != t[0].state;
    }
  }

  lemma WeakestStep(top: seq<Evidence>, ev: Evidence)
    requires (forall e :: e in top ==> e.confidence.IsValid()) && ev.confidence.IsValid()
    ensures forall e :: e in top + [ev] ==> e.confidence.IsValid()
    ensures Weakest(top + [ev]) == if top == [] then ConfidenceOf(ev) else Weaker(Weakest(top), ConfidenceOf(ev))
  {
    assert (top + [ev])[..|top|] == top;
  }

  lemma AbsorbSummarizes(c: Capability, scope: Scope, id: string, top: seq<Evidence>, ev: Evidence, best: nat)
    requires Summarizes(c, scope, id, top, best) && ev.confidence.IsValid() && c.confidence.IsValid()
    ensures Summarizes(Absorb(c, ev, top == [], best), scope, id, top + [ev], best)
  {
    ConsensusStep(top, ev);
    WeakestStep(top, ev);
    assert IDs(top + [ev]) == IDs(top) + [ev.id];
  }

  /** Every confidence in the list is canonical. */
  predicate Confident(s: seq<Evidence>) {
    s == [] || (Confident(s[..|s| - 1]) && s[|s| - 1].confidence.IsValid())
  }

  lemma {:induction false} ConfidentMeans(s: seq<Evidence>)
    requires forall ev :: ev in s ==> ev.confidence.IsValid()
    ensures Confident(s)
  {
    if s != [] {
      ConfidentMeans(s[..|s| - 1]);
      assert s[|s| - 1] in s;
    }
  }

  lemma {:induction false} ConfidentPrefix(s: seq<Evidence>, k: nat)
    requires Confident(s) && k <= |s|
    ensures Confident(s[..k])
  {
    if k < |s| {
      assert s[..|s| - 1][..k] == s[..k];
      ConfidentPrefix(s[..|s| - 1], k);
    } else {
      assert s[..k] == s;
    }
  }

  function Undetermined(scope: Scope, id: string): Capability {
    Capability(scope, id, UnknownState, UnknownConfidence, "no complete evidence for this candidate", [])
  }

  /** The capability after taking in a list, one piece at a time. */
  function Taken(s: seq<Evidence>, scope: Scope, id: string, best: nat): (c: Capability)
    requires Confident(s)
    ensures c.confidence.IsValid()
  {
    if s == [] then Undetermined(scope, id)
    else
      var front, last := s[..|s| - 1], s[|s| - 1];
      if last.precedence != best then Taken(front, scope, id, best)
      else Absorb(Taken(front, scope, id, best), last, OfRank(front, best) == [], best)
  }

  lemma {:induction false} TakenSummarizes(s: seq<Evidence>, scope: Scope, id: string, best: nat)
    requires Confident(s)
    ensures Summarizes(Taken(s, scope, id, best), scope, id, OfRank(s, best), best)
  {
    if s == [] {
      assert IDs([]) == [];
    } else {
      var front, last := s[..|s| - 1], s[|s| - 1];
      TakenSummarizes(front, scope, id, best);
      TakenStep(s, scope, id, best);
      if last.precedence == best {
        AbsorbSummarizes(Taken(front, scope, id, best), scope, id, OfRank(front, best), last, best);
      }
    }
  }

  lemma TakenStep(s: seq<Evidence>, scope: Scope, id: string, best: nat)
    requires Confident(s) && s != []
    ensures var front, last := s[..|s| - 1], s[|s| - 1];
      && Confident(front) && last.confidence.IsValid()
      && OfRank(s, best) == (if last.precedence == best then OfRank(front, best) + [last] else OfRank(front, best))
      && Taken(s, scope, id, best) == if last.precedence != best then Taken(front, scope, id, best)
                                      else Absorb(Taken(front, scope, id, best), last, OfRank(front, best) == [], best)
  {
  }

  /** Takes in the best-ranked evidence one piece at a time, and lists what it supersedes. */
  method Combine(scope: Scope, id: string, selected: seq<Evidence>, best: nat)
    returns (capability: Capability, superseded: seq<string>)
    requires forall ev :: ev in selected ==> ev.confidence.IsValid()
    ensures Summarizes(capability, scope, id, OfRank(selected, best), best)
    ensures superseded == Others(selected, best)
  {
    ConfidentMeans(selected);
    TakenSummarizes(selected, scope, id, best);
    capability, superseded := TakeIn(scope, id, selected, best);
  }

  method TakeIn(scope: Scope, id: string, selected: seq<Evidence>, best: nat)
    returns (capability: Capability, superseded: seq<string>)
    requires Confident(selected)
    ensures capability == Taken(selected, scope, id, best) && superseded == Others(selected, best)
  {
    capability := Undetermined(scope, id);
    superseded := [];
    var first := true;
    var k := 0;
    while k < |selected|
      invariant 0 <= k <= |selected| && Confident(selected[..k])
      invariant superseded == Others(selected[..k], best) && (first <==> OfRank(selected[..k], best) == [])
      invariant capability == Taken(selected[..k], scope, id, best)
    {
      var ev := selected[k];
      ConfidentPrefix(selected, k + 1);
      assert selected[..k + 1][..k] == selected[..k];
      if ev.precedence != best {
        superseded := superseded + [ev.id];
      } else {
        capability := Absorb(capability, ev, first, best);
        first := false;
      }
      k := k + 1;
    }
    assert selected[..k] == selected;
  }

  /** `res` resolves the claim from `evidence`, in identifier order. */
  ghost predicate ResolvesFrom(res: Resolution, evidence: seq<Evidence>, scope: Scope, id: string, at: Time) {
    exists sorted :: SortedByID(sorted) && multiset(sorted) == multiset(evidence)
      && res == Resolved(sorted, scope, id, at)
  }

  /**
   Ranks the matching claims. The result is the declarative resolution of some permutation of the input
   that is sorted by identifier.
   */
  method Resolve(scope: Scope, id: string, at: Time, input: seq<Evidence>) returns (result: Resolution)
    ensures ResolvesFrom(result, input, scope, id, at)
  {
    var evidence := SortByID(input);
    if !scope.IsValid() || !ValidCapabilityID(id) || at == 0 {
      return Resolution(Capability(scope, id, UnknownState, UnknownConfidence,
                                   "no complete evidence for this candidate", []), [],
                        [Diagnostic("invalid_scope", "invalid evaluation scope or claim", "")]);
    }
    var selected, best, diagnostics := SelectUsable(evidence, scope, id, at);
    var capability, superseded := Combine(scope, id, selected, best);
    if capability.state == UnknownState {
      capability := capability.(confidence := UnknownConfidence);
    }
    return Resolution(capability, superseded, diagnostics);
  }

  // --- What a resolution means ---

  /**
   A state other than unknown means that there is usable evidence, that all usable evidence of the best rank
   reports this state, and that the confidence is bounded by the ceiling of that rank; and conversely,
   unanimous best-ranked evidence decides the state.
   */
  lemma DefiniteMeansUnanimous(s: seq<Evidence>, scope: Scope, id: string, at: Time)
    ensures var c := Determination(s, scope, id, at); var top := Top(s, scope, id,
        at); var best := Best(Selected(s, scope, id, at));
      && (c.state != UnknownState <==> top != [] && Unanimous(top) && top[0].state != UnknownState)
      && (c.state != UnknownState ==> forall ev :: ev in s && Claims(ev, scope, id, at) && ev.precedence == best ==>
          ev.state == c.state)
      && (forall ev :: ev in s && Claims(ev, scope, id, at) ==> best <= ev.precedence)
      && c.confidence.IsValid() && c.confidence.Level() <= Ceiling(best).Level()
  {
    ReportedState(s, scope, id, at);
    ReportedByAll(s, scope, id, at);
  }

  lemma ReportedState(s: seq<Evidence>, scope: Scope, id: string, at: Time)
    ensures var c := Determination(s, scope, id, at); var top := Top(s, scope, id, at);
      && c.state == Consensus(top)
      && (c.state != UnknownState <==> top != [] && Unanimous(top) && top[0].state != UnknownState)
      && (c.state != UnknownState ==> forall ev :: ev in top ==> ev.state == c.state)
      && c.confidence.IsValid() && c.confidence.Level() <= Ceiling(Best(Selected(s, scope, id, at))).Level()
  {
    var top, best := Top(s, scope, id, at), Best(Selected(s, scope, id, at));
    TopMembers(s, scope, id, at);
    UnanimousTop(top, best);
  }

  lemma ReportedByAll(s: seq<Evidence>, scope: Scope, id: string, at: Time)
    ensures var best := Best(Selected(s, scope, id, at));
      forall ev :: ev in s && Claims(ev, scope, id, at) ==>
        best <= ev.precedence && (ev.precedence == best ==> ev in Top(s, scope, id, at))
  {
    TopMembers(s, scope, id, at);
  }

  lemma TopMembers(s: seq<Evidence>, scope: Scope, id: string, at: Time)
    ensures var best := Best(Selected(s, scope, id, at));
      && (forall ev :: ev in Top(s, scope, id, at) <==> ev in s && Claims(ev, scope, id, at) && ev.precedence == best)
      && (forall ev :: ev in s && Claims(ev, scope, id, at) ==> best <= ev.precedence)
  {
    OfRankMembers(Selected(s, scope, id, at), Best(Selected(s, scope, id, at)));
  }

  lemma UnanimousTop(top: seq<Evidence>, rank: nat)
    requires forall ev :: ev in top ==> ev.confidence.IsValid() && ev.precedence == rank
    ensures Consensus(top) != UnknownState <==> top != [] && Unanimous(top) && top[0].state != UnknownState
    ensures Consensus(top) != UnknownState ==> forall ev :: ev in top ==> ev.state == Consensus(top)
    ensures top != [] ==> Weakest(top).Level() <= Ceiling(rank).Level()
  {
    ConsensusReported(top);
    WeakestBelowCeiling(top, rank);
  }

  lemma ConsensusReported(top: seq<Evidence>)
    ensures Consensus(top) != UnknownState <==> top != [] && Unanimous(top) && top[0].state != UnknownState
    ensures Consensus(top) != UnknownState ==> forall ev :: ev in top ==> ev.state == Consensus(top)
  {
    if top != [] && Unanimous(top) {
      forall ev | ev in top ensures ev.state == Consensus(top) {
        var k :| 0 <= k < |top| && top[k] == ev;
      }
    }
  }

  lemma WeakestBelowCeiling(top: seq<Evidence>, rank: nat)
    requires forall ev :: ev in top ==> ev.confidence.IsValid() && ev.precedence == rank
    ensures top != [] ==> Weakest(top).Level() <= Ceiling(rank).Level()
  {
    if top != [] {
      WeakestBounds(top);
      assert top[0] in top;
    }
  }

  // --- Order independence ---

  predicate DistinctIDs(s: seq<Evidence>) {
    forall i, j :: 0 <= i < j < |s| ==> s[i].id != s[j].id
  }

  ghost predicate StrictlySorted(s: seq<Evidence>) {
    forall i, j :: 0 <= i < j < |s| ==> Less(s[i].id, s[j].id)
  }

  /** A strictly sorted sequence is determined by its elements. */
  lemma {:induction false} StrictlySortedUnique(s: seq<Evidence>, t: seq<Evidence>)
    requires StrictlySorted(s) && StrictlySorted(t)
    requires forall ev :: ev in s <==> ev in t
    ensures s == t
  {
    assert |t| > 0 ==> t[0] in t;
    if s != [] {
      assert s[0] in t;
      HeadsAgree(s, t);
      assert s == [s[0]] + s[1..] && t == [t[0]] + t[1..];
      TailMembers(s);
      TailMembers(t);
      StrictlySortedUnique(s[1..], t[1..]);
    }
  }

  lemma TailMembers(s: seq<Evidence>)
    requires StrictlySorted(s) && s != []
    ensures forall ev :: ev in s[1..] <==> ev in s && ev != s[0]
  {
    assert s == [s[0]] + s[1..];
    forall k | 0 <= k < |s[1..]| ensures s[1..][k] != s[0] {
      assert Less(s[0].id, s[k + 1].id);
    }
  }

  lemma HeadsAgree(s: seq<Evidence>, t: seq<Evidence>)
    requires StrictlySorted(s) && StrictlySorted(t) && s != [] && t != [] && s[0] in t && t[0] in s
    ensures s[0] == t[0]
  {
    var j :| 0 <= j < |t| && t[j] == s[0];
    var i :| 0 <= i < |s| && s[i] == t[0];
    if j > 0 && i > 0 {
      assert Less(t[0].id, t[j].id) && Less(s[0].id, s[i].id);
      LessIsStrictTotal(s[0].id, t[0].id);
    }
  }

  /** Sorted permutations of evidence with distinct identifiers are strictly sorted. */
  lemma SortedDistinctIsStrict(s: seq<Evidence>, input: seq<Evidence>)
    requires SortedByID(s) && multiset(s) == multiset(input) && DistinctIDs(input)
    ensures StrictlySorted(s) && forall ev :: ev in s <==> ev in input
  {
    forall ev ensures ev in s <==> ev in input {
      assert ev in s <==> ev in multiset(s);
      assert ev in input <==> ev in multiset(input);
    }
    PermutedIDsDistinct(s, input);
  }

  lemma PermutedIDsDistinct(s: seq<Evidence>, input: seq<Evidence>)
    requires multiset(s) == multiset(input) && DistinctIDs(input)
    ensures DistinctIDs(s)
  {
    forall i, j | 0 <= i < j < |s| ensures s[i].id != s[j].id {
      assert s[i] in multiset(s) && s[j] in multiset(s);
      if s[i].id == s[j].id {
        SameIDSameEvidence(input, s[i], s[j]);
        assert s == s[..j] + [s[j]] + s[j + 1..];
        assert s[..j][i] == s[j];
        assert multiset(s)[s[j]] >= 2;
        OnceWhenDistinct(input, s[j]);
      }
    }
  }

  lemma SameIDSameEvidence(s: seq<Evidence>, a: Evidence, b: Evidence)
    requires DistinctIDs(s) && a in s && b in s && a.id == b.id
    ensures a == b
  {
    var i :| 0 <= i < |s| && s[i] == a;
    var j :| 0 <= j < |s| && s[j] == b;
  }

  lemma {:induction false} OnceWhenDistinct(s: seq<Evidence>, x: Evidence)
    requires DistinctIDs(s)
    ensures multiset(s)[x] <= 1
  {
    if s != [] {
      assert s == [s[0]] + s[1..];
      OnceWhenDistinct(s[1..], x);
    }
  }

  /** With distinct identifiers the resolution does not depend on the order of the evidence. */
  lemma OrderDoesNotMatter(input1: seq<Evidence>, sorted1: seq<Evidence>, input2: seq<Evidence>, sorted2: seq<Evidence>,
                           scope: Scope, id: string, at: Time)
    requires DistinctIDs(input1) && multiset(input1) == multiset(input2)
    requires SortedByID(sorted1) && multiset(sorted1) == multiset(input1)
    requires SortedByID(sorted2) && multiset(sorted2) == multiset(input2)
    ensures Resolved(sorted1, scope, id, at) == Resolved(sorted2, scope, id, at)
  {
    SortedDistinctIsStrict(sorted1, input1);
    SortedDistinctIsStrict(sorted2, input1);
    StrictlySortedUnique(sorted1, sorted2);
  }

  // --- Irrelevant evidence ---

  lemma {:induction false} SelectedStaysSorted(s: seq<Evidence>, scope: Scope, id: string, at: Time)
    requires StrictlySorted(s)
    ensures StrictlySorted(Selected(s, scope, id, at))
  {
    if s != [] {
      var front, last := s[..|s| - 1], s[|s| - 1];
      SelectedStaysSorted(front, scope, id, at);
      forall ev | ev in Selected(front, scope, id, at) ensures Less(ev.id, last.id) {
        var k :| 0 <= k < |front| && front[k] == ev;
        assert s[k] == ev;
      }
    }
  }

  lemma {:induction false} OfRankStaysSorted(s: seq<Evidence>, rank: nat)
    requires StrictlySorted(s)
    ensures StrictlySorted(OfRank(s, rank))
  {
    if s != [] {
      var front, last := s[..|s| - 1], s[|s| - 1];
      OfRankStaysSorted(front, rank);
      OfRankMembers(front, rank);
      forall ev | ev in OfRank(front, rank) ensures Less(ev.id, last.id) {
        var k :| 0 <= k < |front| && front[k] == ev;
        assert s[k] == ev;
      }
    }
  }

  /** `ev` cannot influence the claim: it is about something else, unusable, or outranked by other evidence. */
  predicate Irrelevant(ev: Evidence, others: seq<Evidence>, scope: Scope, id: string, at: Time) {
    || !Claims(ev, scope, id, at)
    || exists other :: other in others && Claims(other, scope, id, at) && other.precedence < ev.precedence
  }

  /** Adding unusable, unrelated or outranked evidence changes neither state nor confidence nor support nor reason. */
  lemma IrrelevantEvidenceIsIgnored(base: seq<Evidence>, extra: seq<Evidence>, sortedBase: seq<Evidence>,
                                    sortedAll: seq<Evidence>,
                                    scope: Scope, id: string, at: Time)
    requires DistinctIDs(base + extra)
    requires forall ev :: ev in extra ==> Irrelevant(ev, base, scope, id, at)
    requires SortedByID(sortedBase) && multiset(sortedBase) == multiset(base)
    requires SortedByID(sortedAll) && multiset(sortedAll) == multiset(base + extra)
    ensures Resolved(sortedAll, scope, id, at).capability == Resolved(sortedBase, scope, id, at).capability
  {
    assert DistinctIDs(base) by {
      assert forall k :: 0 <= k < |base| ==> (base + extra)[k] == base[k];
    }
    SortedDistinctIsStrict(sortedBase, base);
    SortedDistinctIsStrict(sortedAll, base + extra);
    var before, after := Selected(sortedBase, scope, id, at), Selected(sortedAll, scope, id, at);
    forall ev | ev in after && ev !in before
      ensures exists other :: other in before && other.precedence < ev.precedence {
      assert ev in extra && Irrelevant(ev, base, scope, id, at);
      var other :| other in base && Claims(other, scope, id, at) && other.precedence < ev.precedence;
      assert other in before;
    }
    SameBest(before, after);
    var best := Best(before);
    forall ev | ev in after && ev !in before ensures ev.precedence != best {
      assert ev in extra && Irrelevant(ev, base, scope, id, at);
      var other :| other in base && Claims(other, scope, id, at) && other.precedence < ev.precedence;
      assert other in before;
    }
    SelectedStaysSorted(sortedBase, scope, id, at);
    SelectedStaysSorted(sortedAll, scope, id, at);
    OfRankStaysSorted(before, best);
    OfRankStaysSorted(after, best);
    OfRankMembers(before, best);
    OfRankMembers(after, best);
    StrictlySortedUnique(OfRank(before, best), OfRank(after, best));
  }

  /** Elements that are each outranked by an old one do not change the best rank. */
  lemma SameBest(before: seq<Evidence>, after: seq<Evidence>)
    requires forall ev :: ev in before ==> ev in after
    requires forall ev :: ev in after && ev !in before ==>
      exists other :: other in before && other.precedence < ev.precedence
    ensures Best(before) == Best(after)
  {
    forall ev | ev in after ensures Best(before) <= ev.precedence {
      if ev !in before {
        var other :| other in before && other.precedence < ev.precedence;
      }
    }
  }
}
