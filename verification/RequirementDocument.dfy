/**
 Requirement documents as the program holds them, pointer graphs that may share nodes or run in circles,
 and the validation of internal/requirement/evaluate.go.
 */
module RequirementDocument {
  import opened Options
  import opened EvidenceModel

  const MAX_DEPTH := 32
  const MAX_NODES := 512

  datatype ValidationError = NilNode | SizeLimit | CyclicDocument | OperatorCount | InvalidID

  /** A node has one operator: a capability, or a list or node that is present (not nil). */
  class Node {
    var capability: string
    var all: Option<seq<Node?>>
    var any: Option<seq<Node?>>
    var not: Node?
  }

  /** A finished requirement tree. */
  datatype Tree = Leaf(capability: string) | AllOf(children: seq<Tree>) | AnyOf(children: seq<Tree>)
    | NotOf(child: Tree)

  function Size(t: Tree): (n: nat)
    ensures n >= 1
  {
    match t
    case Leaf(_) => 1
    case AllOf(children) => 1 + SizeAll(children)
    case AnyOf(children) => 1 + SizeAll(children)
    case NotOf(child) => 1 + Size(child)
  }

  function SizeAll(ts: seq<Tree>): nat {
    if ts == [] then 0 else Size(ts[0]) + SizeAll(ts[1..])
  }

  // --- Unfolding ---

  function Operators(node: Node): int
    reads node
  {
    (if node.capability != "" then 1 else 0) + (if node.all.Some? then 1 else 0)
    + (if node.any.Some? then 1 else 0) + (if node.not != null then 1 else 0)
  }

  /** The children that validation and evaluation visit, in order. */
  function Children(node: Node): seq<Node?>
    reads node
  {
    if node.capability != "" then []
    else if node.not != null then [node.not]
    else if node.any.Some? then node.any.value
    else if node.all.Some? then node.all.value
    else []
  }

  /** `doc` holds every node that its nodes point to. */
  ghost predicate Closed(doc: set<Node>)
    reads doc
  {
    forall n, k :: n in doc && 0 <= k < |Children(n)| && Children(n)[k] != null ==> Children(n)[k] in doc
  }

  /**
   The tree that `node` stands for, when following its pointers for at most `depth` levels reaches an end
   everywhere and every node on the way is present, has one operator and a valid identifier.
   */
  ghost function Unfold(node: Node?, depth: nat, doc: set<Node>): Option<Tree>
    requires Closed(doc) && (node != null ==> node in doc)
    reads doc
    decreases depth, 0
  {
    if depth == 0 || node == null || Operators(node) != 1 then None
    else if node.capability != "" then
      if ValidCapabilityID(node.capability) then Some(Leaf(node.capability)) else None
    else
      var children := UnfoldAll(Children(node), depth - 1, doc);
      if children == None then None
      else if node.not != null then (if |children.value| == 1 then Some(NotOf(children.value[0])) else None)
      else if node.any.Some? then Some(AnyOf(children.value))
      else Some(AllOf(children.value))
  }

  ghost function UnfoldAll(nodes: seq<Node?>, depth: nat, doc: set<Node>): (r: Option<seq<Tree>>)
    requires Closed(doc) && (forall k :: 0 <= k < |nodes| && nodes[k] != null ==> nodes[k] in doc)
    reads doc
    decreases depth, 1 + |nodes|
  {
    if nodes == [] then Some([])
    else
      var first, rest := Unfold(nodes[0], depth, doc), UnfoldAll(nodes[1..], depth, doc);
      if first.Some? && rest.Some? then Some([first.value] + rest.value) else None
  }

  lemma {:induction false} UnfoldAllEach(nodes: seq<Node?>, depth: nat, doc: set<Node>)
    requires Closed(doc) && (forall k :: 0 <= k < |nodes| && nodes[k] != null ==> nodes[k] in doc)
    ensures UnfoldAll(nodes, depth, doc).Some? ==>
      && |UnfoldAll(nodes, depth, doc).value| == |nodes|
      && forall k :: 0 <= k < |nodes| ==> Unfold(nodes[k], depth, doc) == Some(UnfoldAll(nodes, depth, doc).value[k])
    ensures (exists k :: 0 <= k < |nodes| && Unfold(nodes[k], depth, doc) == None) ==>
      UnfoldAll(nodes, depth, doc) == None
    decreases |nodes|
  {
    if nodes != [] {
      UnfoldAllEach(nodes[1..], depth, doc);
      forall k | 0 < k < |nodes| ensures nodes[k] == nodes[1..][k - 1] {}
      if k :| 0 <= k < |nodes| && Unfold(nodes[k], depth, doc) == None {
        if k > 0 {
          assert Unfold(nodes[1..][k - 1], depth, doc) == None;
        }
      }
    }
  }

  /** The weight of a list is that of its first element and of the rest. */
  lemma UnfoldSuffix(nodes: seq<Node?>, i: nat, depth: nat, doc: set<Node>)
    requires Closed(doc) && (forall k :: 0 <= k < |nodes| && nodes[k] != null ==> nodes[k] in doc) && i < |nodes|
    ensures var first, rest, all := Unfold(nodes[i], depth, doc), UnfoldAll(nodes[i + 1..], depth, doc),
      UnfoldAll(nodes[i..], depth, doc);
      && (all.Some? <==> first.Some? && rest.Some?)
      && (all.Some? ==> SizeAll(all.value) == Size(first.value) + SizeAll(rest.value))
  {
    assert nodes[i..][1..] == nodes[i + 1..];
    var first, rest := Unfold(nodes[i], depth, doc), UnfoldAll(nodes[i + 1..], depth, doc);
    if first.Some? && rest.Some? {
      assert ([first.value] + rest.value)[1..] == rest.value;
    }
  }

  // --- Cycles ---

  ghost predicate PointsTo(n: Node, m: Node)
    reads n
  {
    exists k :: 0 <= k < |Children(n)| && Children(n)[k] == m
  }

  /** `path` follows pointers inside `doc`. */
  ghost predicate IsPath(older path: seq<Node>, doc: set<Node>)
    reads doc
  {
    && (forall k :: 0 <= k < |path| ==> path[k] in doc)
    && (forall k :: 0 <= k < |path| - 1 ==> PointsTo(path[k], path[k + 1]))
  }

  ghost predicate IsCycle(older c: seq<Node>, doc: set<Node>)
    reads doc
  {
    |c| > 0 && IsPath(c, doc) && PointsTo(c[|c| - 1], c[0])
  }

  ghost predicate HasCycle(doc: set<Node>)
    reads doc
  {
    exists c :: IsCycle(c, doc)
  }

  /** If a node unfolds, so does everything it points to, one level shallower. */
  lemma UnfoldChild(n: Node, m: Node, depth: nat, doc: set<Node>)
    requires Closed(doc) && n in doc && m in doc && PointsTo(n, m) && Unfold(n, depth, doc).Some?
    ensures depth > 0 && Unfold(m, depth - 1, doc).Some?
  {
    UnfoldAllEach(Children(n), depth - 1, doc);
    var k :| 0 <= k < |Children(n)| && Children(n)[k] == m;
  }

  lemma {:induction false} UnfoldAlong(path: seq<Node>, depth: nat, doc: set<Node>)
    requires Closed(doc) && IsPath(path, doc) && |path| > 0 && Unfold(path[0], depth, doc).Some?
    ensures depth >= |path| && Unfold(path[|path| - 1], depth - |path| + 1, doc).Some?
    decreases |path|
  {
    if |path| > 1 {
      assert PointsTo(path[0], path[0 + 1]);
      UnfoldChild(path[0], path[1], depth, doc);
      forall k | 0 <= k < |path[1..]| - 1 ensures PointsTo(path[1..][k], path[1..][k + 1]) {
        assert PointsTo(path[k + 1], path[k + 1 + 1]);
      }
      UnfoldAlong(path[1..], depth - 1, doc);
    }
  }

  /** A node on a cycle unfolds at no depth. */
  lemma {:induction false} CyclesDoNotUnfold(c: seq<Node>, depth: nat, doc: set<Node>)
    requires Closed(doc) && IsCycle(c, doc)
    ensures Unfold(c[0], depth, doc) == None
    decreases depth
  {
    if Unfold(c[0], depth, doc).Some? {
      UnfoldAlong(c, depth, doc);
      UnfoldChild(c[|c| - 1], c[0], depth - |c| + 1, doc);
      CyclesDoNotUnfold(c, depth - |c|, doc);
    }
  }

  /** A path that comes back to one of its nodes contains a cycle. */
  lemma PathLoops(path: seq<Node>, k: nat, node: Node, doc: set<Node>)
    requires IsPath(path, doc) && k < |path| && path[k] == node && PointsTo(path[|path| - 1], node)
    ensures IsCycle(path[k..], doc)
  {
    var c := path[k..];
    forall i | 0 <= i < |c| - 1 ensures PointsTo(c[i], c[i + 1]) {
      assert PointsTo(path[k + i], path[k + i + 1]);
    }
  }

  lemma PathExtends(path: seq<Node>, node: Node, doc: set<Node>)
    requires IsPath(path, doc) && node in doc && (path != [] ==> PointsTo(path[|path| - 1], node))
    ensures IsPath(path + [node], doc)
  {
    var longer := path + [node];
    forall k | 0 <= k < |longer| - 1 ensures PointsTo(longer[k], longer[k + 1]) {
      if k + 1 < |path| {
        assert PointsTo(path[k], path[k + 1]);
      }
    }
  }

  /** Meeting a node that is being validated above means a cycle, and no unfolding. */
  lemma MeetingAgain(path: seq<Node>, node: Node, depth: nat, doc: set<Node>)
    requires Closed(doc) && IsPath(path, doc) && node in path && PointsTo(path[|path| - 1], node)
    ensures HasCycle(doc) && Unfold(node, depth, doc) == None
  {
    var k :| 0 <= k < |path| && path[k] == node;
    PathLoops(path, k, node, doc);
    CyclesDoNotUnfold(path[k..], depth, doc);
  }

  /** A node with children unfolds exactly when they do, and weighs one more than they do together. */
  lemma UnfoldByChildren(node: Node, depth: nat, doc: set<Node>)
    requires Closed(doc) && node in doc && depth > 0 && Operators(node) == 1 && node.capability == ""
    ensures Unfold(node, depth, doc).Some? <==> UnfoldAll(Children(node), depth - 1, doc).Some?
    ensures Unfold(node, depth, doc).Some? ==>
      Size(Unfold(node, depth, doc).value) == 1 + SizeAll(UnfoldAll(Children(node), depth - 1, doc).value)
  {
    UnfoldAllEach(Children(node), depth - 1, doc);
    var children := UnfoldAll(Children(node), depth - 1, doc);
    if node.not != null && children.Some? {
      assert SizeAll(children.value) == Size(children.value[0]) + SizeAll(children.value[1..]);
    }
  }

  // --- Validation ---

  /** The size of an optional unfolding; a missing one weighs more than any limit. */
  ghost predicate Fits(count: int, tree: Option<Tree>) {
    tree.Some? && count + Size(tree.value) <= MAX_NODES
  }

  ghost predicate FitsAll(count: int, trees: Option<seq<Tree>>) {
    trees.Some? && count + SizeAll(trees.value) <= MAX_NODES
  }

  /** The count after a list, or more than any limit when the list does not unfold. */
  ghost function Total(count: int, trees: Option<seq<Tree>>): int {
    if trees.Some? then count + SizeAll(trees.value) else MAX_NODES + 1
  }

  lemma TotalStep(nodes: seq<Node?>, i: nat, depth: nat, doc: set<Node>, count: int)
    requires Closed(doc) && (forall k :: 0 <= k < |nodes| && nodes[k] != null ==> nodes[k] in doc) && i < |nodes|
    ensures var first := Unfold(nodes[i], depth, doc);
      && (Fits(count, first) ==>
            Total(count, UnfoldAll(nodes[i..], depth, doc))
              == Total(count + Size(first.value), UnfoldAll(nodes[i + 1..], depth, doc)))
      && (!Fits(count, first) ==> Total(count, UnfoldAll(nodes[i..], depth, doc)) > MAX_NODES)
  {
    UnfoldSuffix(nodes, i, depth, doc);
  }

  /** Once a node is counted, it fits if its children do. */
  lemma FitsByChildren(node: Node, depth: nat, doc: set<Node>, count: int)
    requires Closed(doc) && node in doc && depth > 0 && Operators(node) == 1 && node.capability == ""
    ensures var all := UnfoldAll(Children(node), depth - 1, doc);
      && (Fits(count - 1, Unfold(node, depth, doc)) <==> FitsAll(count, all))
      && (FitsAll(count, all) ==> Size(Unfold(node, depth, doc).value) == 1 + SizeAll(all.value))
  {
    UnfoldByChildren(node, depth, doc);
  }

  /** A node that is decided without its children. */
  lemma UnfoldSimple(node: Node, depth: nat, doc: set<Node>)
    requires Closed(doc) && node in doc && depth > 0 && (Operators(node) != 1 || node.capability != "")
    ensures Unfold(node, depth, doc) ==
      if Operators(node) == 1 && ValidCapabilityID(node.capability) then Some(Leaf(node.capability)) else None
    ensures forall id :: Size(Leaf(id)) == 1
  {
  }

  class Validation {
    var count: int
    var active: set<Node>

    constructor ()
      ensures count == 0 && active == {}
    {
      count, active := 0, {};
    }

    /**
     One node and everything below it. `path` is the chain of nodes being validated above it, whose elements
     are the active ones.
     */
    method ValidateNode(node: Node?, depth: nat, ghost path: seq<Node>, ghost doc: set<Node>)
      returns (err: Option<ValidationError>)
      requires Closed(doc) && (node != null ==> node in doc) && 1 <= depth <= MAX_DEPTH + 1
      requires 0 <= count <= MAX_NODES
      requires IsPath(path, doc) && active == (set n | n in path)
      requires node != null && path != [] ==> PointsTo(path[|path| - 1], node)
      modifies this
      ensures active == old(active) && 0 <= count
      ensures err.None? <==> Fits(old(count), Unfold(node, MAX_DEPTH + 1 - depth, doc))
      ensures err.None? ==> count == old(count) + Size(Unfold(node, MAX_DEPTH + 1 - depth, doc).value)
      ensures err == Some(CyclicDocument) ==> HasCycle(doc)
      decreases MAX_DEPTH + 1 - depth
    {
      if node == null { return Some(NilNode); }
      count := count + 1;
      if depth > MAX_DEPTH || count > MAX_NODES { return Some(SizeLimit); }
      if node in active {
        MeetingAgain(path, node, MAX_DEPTH + 1 - depth, doc);
        return Some(CyclicDocument);
      }
      if Operators(node) != 1 || node.capability != "" {
        UnfoldSimple(node, MAX_DEPTH + 1 - depth, doc);
      }
      if Operators(node) != 1 { return Some(OperatorCount); }
      if node.capability != "" {
        err := if ValidCapabilityID(node.capability) then None else Some(InvalidID);
        return;
      }
      FitsByChildren(node, MAX_DEPTH + 1 - depth, doc, count);
      err := Descend(node, depth, path, doc);
    }

    /** The node is active while its children are validated. */
    method Descend(node: Node, depth: nat, ghost path: seq<Node>, ghost doc: set<Node>)
      returns (err: Option<ValidationError>)
      requires Closed(doc) && node in doc && 1 <= depth <= MAX_DEPTH && 0 <= count <= MAX_NODES
      requires IsPath(path, doc) && active == (set n | n in path) && node !in active
      requires path != [] ==> PointsTo(path[|path| - 1], node)
      modifies this
      ensures active == old(active) && 0 <= count
      ensures err.None? <==> FitsAll(old(count), UnfoldAll(Children(node), MAX_DEPTH - depth, doc))
      ensures err.None? ==> count == old(count) + SizeAll(UnfoldAll(Children(node), MAX_DEPTH - depth, doc).value)
      ensures err == Some(CyclicDocument) ==> HasCycle(doc)
      decreases MAX_DEPTH + 1 - depth, 1
    {
      PathExtends(path, node, doc);
      active := active + {node};
      err := ValidateChildren(Children(node), node, depth, path + [node], doc);
      active := active - {node};
    }

    method ValidateChildren(children: seq<Node?>, ghost node: Node, depth: nat, ghost path: seq<Node>,
                            ghost doc: set<Node>)
      returns (err: Option<ValidationError>)
      requires Closed(doc) && node in doc && children == Children(node) && 1 <= depth <= MAX_DEPTH
      requires 0 <= count <= MAX_NODES
      requires IsPath(path, doc) && path != [] && path[|path| - 1] == node && active == (set n | n in path)
      modifies this
      ensures active == old(active) && 0 <= count
      ensures err.None? <==> FitsAll(old(count), UnfoldAll(children, MAX_DEPTH - depth, doc))
      ensures err.None? ==> count == old(count) + SizeAll(UnfoldAll(children, MAX_DEPTH - depth, doc).value)
      ensures err == Some(CyclicDocument) ==> HasCycle(doc)
      decreases MAX_DEPTH + 1 - depth, 0
    {
      ghost var total := Total(old(count), UnfoldAll(children, MAX_DEPTH - depth, doc));
      assert children[0..] == children;
      var i := 0;
      while i < |children|
        invariant 0 <= i <= |children| && active == old(active) && 0 <= count <= MAX_NODES
        invariant Total(count, UnfoldAll(children[i..], MAX_DEPTH - depth, doc)) == total
      {
        TotalStep(children, i, MAX_DEPTH - depth, doc, count);
        if children[i] != null {
          assert PointsTo(node, children[i]);
        }
        err := ValidateNode(children[i], depth + 1, path, doc);
        if err.Some? { return; }
        i := i + 1;
      }
      return None;
    }
  }

  /**
   Validation terminates on every pointer graph, shared or cyclic, and accepts exactly when the unfolding from
   the root ends within the depth limit, has at most the allowed number of nodes, and every node in it has
   one operator and a valid identifier. A reported cycle exists.
   */
  method Validate(root: Node?, ghost doc: set<Node>) returns (err: Option<ValidationError>)
    requires Closed(doc) && (root != null ==> root in doc)
    ensures err.None? <==> Fits(0, Unfold(root, MAX_DEPTH, doc))
    ensures err == Some(CyclicDocument) ==> HasCycle(doc)
  {
    var v := new Validation();
    err := v.ValidateNode(root, 1, [], doc);
  }
}
