/** The three-valued algebra of internal/requirement/logic.go. */
module RequirementLogic {

  /** `OtherState` stands for a text that is none of the three canonical states. */
  datatype RequirementState = Satisfied | Unsatisfied | Indeterminate | OtherState(text: string) {
    predicate IsValid() { !OtherState? }
    predicate Definite() { Satisfied? || Unsatisfied? }
  }

  function And(a: RequirementState, b: RequirementState): RequirementState {
    if a == Unsatisfied || b == Unsatisfied then Unsatisfied
    else if !a.IsValid() || !b.IsValid() || a == Indeterminate || b == Indeterminate then Indeterminate
    else Satisfied
  }

  function Or(a: RequirementState, b: RequirementState): RequirementState {
    if a == Satisfied || b == Satisfied then Satisfied
    else if !a.IsValid() || !b.IsValid() || a == Indeterminate || b == Indeterminate then Indeterminate
    else Unsatisfied
  }

  function Not(s: RequirementState): RequirementState {
    match s
    case Satisfied => Unsatisfied
    case Unsatisfied => Satisfied
    case _ => Indeterminate
  }

  /** The classical truth value as a state. */
  function Classical(b: bool): RequirementState {
    if b then Satisfied else Unsatisfied
  }

  /** `known` says at least as much as `partial`: what was definite stays what it was. */
  predicate Refines(known: RequirementState, partial: RequirementState) {
    partial.Definite() ==> known == partial
  }

  /** Conjunction, disjunction and negation are monotone in information, and classical on definite states. */
  lemma ConnectivesAreMonotone(a: RequirementState, b: RequirementState, x: RequirementState, y: RequirementState)
    requires Refines(x, a) && Refines(y, b)
    ensures Refines(And(x, y), And(a, b)) && Refines(Or(x, y), Or(a, b)) && Refines(Not(x), Not(a))
  {
  }

  lemma ConnectivesAreClassical(p: bool, q: bool)
    ensures And(Classical(p), Classical(q)) == Classical(p && q)
    ensures Or(Classical(p), Classical(q)) == Classical(p || q)
    ensures Not(Classical(p)) == Classical(!p)
  {
  }

  /**
   The fold of And over any list, canonical or not: false exactly when an element is false, true exactly
   when all are true.
   */
  method All(states: seq<RequirementState>) returns (r: RequirementState)
    ensures r == Unsatisfied <==> Unsatisfied in states
    ensures r == Satisfied <==> forall k :: 0 <= k < |states| ==> states[k] == Satisfied
    ensures r.IsValid()
  {
    r := Satisfied;
    var k := 0;
    while k < |states|
      invariant 0 <= k <= |states|
      invariant r == Unsatisfied <==> Unsatisfied in states[..k]
      invariant r == Satisfied <==> forall m :: 0 <= m < k ==> states[m] == Satisfied
      invariant r.IsValid()
    {
      r := And(r, states[k]);
      k := k + 1;
    }
    assert states[..k] == states;
  }

  method Any(states: seq<RequirementState>) returns (r: RequirementState)
    ensures r == Satisfied <==> Satisfied in states
    ensures r == Unsatisfied <==> forall k :: 0 <= k < |states| ==> states[k] == Unsatisfied
    ensures r.IsValid()
  {
    r := Unsatisfied;
    var k := 0;
    while k < |states|
      invariant 0 <= k <= |states|
      invariant r == Satisfied <==> Satisfied in states[..k]
      invariant r == Unsatisfied <==> forall m :: 0 <= m < k ==> states[m] == Unsatisfied
      invariant r.IsValid()
    {
      r := Or(r, states[k]);
      k := k + 1;
    }
    assert states[..k] == states;
  }
}
