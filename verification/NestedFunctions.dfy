/**
 The syntax-tree visitor that records nested function definitions (scripts/dead_code_triage.py, lines 80-107).
 */
module NestedFunctions {
  import opened Wrappers

  /** Classes, statements and expressions are all `Other`: only the two function kinds have a visitor of their own. */
  datatype Kind = FunctionDef | AsyncFunctionDef | Other

  datatype Node = Node(kind: Kind, line: int, children: seq<Node>)

  ghost predicate IsFunction(node: Node) {
    node.kind == FunctionDef || node.kind == AsyncFunctionDef
  }

  ghost predicate TopIsFunction(stack: seq<Node>) {
    stack != [] && IsFunction(stack[|stack| - 1])
  }

  // ----- What one visit adds -----

  ghost function Recorded(node: Node, inside: bool): set<int>
    decreases node, 1
  {
    (if IsFunction(node) && inside then {node.line} else {}) +
    RecordedBelow(node, |node.children|, inside || IsFunction(node))
  }

  /** The lines recorded under the first count children. */
  ghost function RecordedBelow(node: Node, count: nat, inside: bool): set<int>
    requires count <= |node.children|
    decreases node, 0, count
  {
    if count == 0 then {}
    else RecordedBelow(node, count - 1, inside) + Recorded(node.children[count - 1], inside)
  }

  class Visitor {
    var stack: seq<Node>
    var nested: set<int>

    constructor ()
      ensures stack == [] && nested == {}
    {
      stack, nested := [], {};
    }

    /** `NodeVisitor.visit`: the visitor named after the node's class, or the generic one. */
    method Visit(node: Node)
      modifies this
      decreases node, 2
      ensures stack == old(stack)
      ensures nested == old(nested) + Recorded(node, TopIsFunction(old(stack)))
    {
      match node.kind {
        case FunctionDef => VisitFunctionDef(node);
        case AsyncFunctionDef => VisitAsyncFunctionDef(node);
        case Other => GenericVisit(node);
      }
    }

    method VisitFunctionDef(node: Node)
      requires node.kind == FunctionDef
      modifies this
      decreases node, 1
      ensures stack == old(stack)
      ensures nested == old(nested) + Recorded(node, TopIsFunction(old(stack)))
    {
      if stack != [] && (stack[|stack| - 1].kind == FunctionDef || stack[|stack| - 1].kind == AsyncFunctionDef) {
        nested := nested + {node.line};
      }
      stack := stack + [node];
      GenericVisit(node);
      stack := stack[..|stack| - 1];
    }

    method VisitAsyncFunctionDef(node: Node)
      requires node.kind == AsyncFunctionDef
      modifies this
      decreases node, 1
      ensures stack == old(stack)
      ensures nested == old(nested) + Recorded(node, TopIsFunction(old(stack)))
    {
      if stack != [] && (stack[|stack| - 1].kind == FunctionDef || stack[|stack| - 1].kind == AsyncFunctionDef) {
        nested := nested + {node.line};
      }
      stack := stack + [node];
      GenericVisit(node);
      stack := stack[..|stack| - 1];
    }

    method GenericVisit(node: Node)
      modifies this
      decreases node, 0
      ensures stack == old(stack)
      ensures nested == old(nested) + RecordedBelow(node, |node.children|, TopIsFunction(old(stack)))
    {
      for i := 0 to |node.children|
        invariant stack == old(stack)
        invariant nested == old(nested) + RecordedBelow(node, i, TopIsFunction(old(stack)))
      {
        Visit(node.children[i]);
      }
    }
  }

  // ----- Paths from the root -----

  ghost predicate IsPath(root: Node, path: seq<nat>) {
    path == [] || (path[0] < |root.children| && IsPath(root.children[path[0]], path[1..]))
  }

  ghost function At(root: Node, path: seq<nat>): Node
    requires IsPath(root, path)
  {
    if path == [] then root else At(root.children[path[0]], path[1..])
  }

  lemma {:induction false} PrefixIsPath(root: Node, path: seq<nat>, k: nat)
    requires IsPath(root, path) && k <= |path|
    ensures IsPath(root, path[..k])
  {
    if k > 0 {
      PrefixIsPath(root.children[path[0]], path[1..], k - 1);
      assert path[..k][1..] == path[1..][..k - 1];
    }
  }

  /** A function definition stands on the way from the root to, but not at, the end of the path. */
  ghost predicate HasFunctionAncestor(root: Node, path: seq<nat>)
    requires IsPath(root, path)
  {
    exists k :: 0 <= k < |path| && FunctionAbove(root, path, k)
  }

  ghost predicate FunctionAbove(root: Node, path: seq<nat>, k: nat)
    requires IsPath(root, path) && k <= |path|
  {
    PrefixIsPath(root, path, k);
    IsFunction(At(root, path[..k]))
  }

  /** A function definition on that line, inside another one when the tree itself is not inside one. */
  ghost predicate NestedAt(root: Node, path: seq<nat>, inside: bool, line: int) {
    IsPath(root, path) && At(root, path).kind in {FunctionDef, AsyncFunctionDef} && At(root, path).line == line &&
    (inside || HasFunctionAncestor(root, path))
  }

  lemma FunctionAboveStep(root: Node, path: seq<nat>, k: nat)
    requires IsPath(root, path) && 0 < k <= |path|
    ensures FunctionAbove(root, path, k) <==> FunctionAbove(root.children[path[0]], path[1..], k - 1)
  {
    assert path[..k][1..] == path[1..][..k - 1];
    PrefixIsPath(root, path, k);
  }

  /** Ancestors of the end of a path: the root, or those found from the first child on. */
  lemma AncestorStep(root: Node, path: seq<nat>)
    requires IsPath(root, path) && path != []
    ensures HasFunctionAncestor(root, path) <==>
              IsFunction(root) || HasFunctionAncestor(root.children[path[0]], path[1..])
  {
    var child, rest := root.children[path[0]], path[1..];
    assert FunctionAbove(root, path, 0) <==> IsFunction(root) by {
      assert path[..0] == [];
    }
    forall k | 0 < k < |path| ensures FunctionAbove(root, path, k) <==> FunctionAbove(child, rest, k - 1) {
      FunctionAboveStep(root, path, k);
    }
    if HasFunctionAncestor(child, rest) {
      var k :| 0 <= k < |rest| && FunctionAbove(child, rest, k);
      assert FunctionAbove(root, path, k + 1);
    }
  }

  lemma NestedStep(root: Node, path: seq<nat>, inside: bool, line: int)
    requires path != [] && path[0] < |root.children|
    ensures NestedAt(root, path, inside, line) <==>
              NestedAt(root.children[path[0]], path[1..], inside || IsFunction(root), line)
  {
    if IsPath(root, path) {
      AncestorStep(root, path);
    }
  }

  lemma {:induction false} RecordedBelowFrom(node: Node, count: nat, inside: bool, line: int) returns (i: nat)
    requires count <= |node.children| && line in RecordedBelow(node, count, inside)
    ensures i < count && line in Recorded(node.children[i], inside)
  {
    if line in Recorded(node.children[count - 1], inside) {
      i := count - 1;
    } else {
      i := RecordedBelowFrom(node, count - 1, inside, line);
    }
  }

  lemma {:induction false} RecordedBelowHas(node: Node, count: nat, inside: bool, i: nat)
    requires i < count <= |node.children|
    ensures Recorded(node.children[i], inside) <= RecordedBelow(node, count, inside)
  {
    if i < count - 1 {
      RecordedBelowHas(node, count - 1, inside, i);
    }
  }

  /** Every recorded line is that of a nested function definition. */
  lemma {:induction false} RecordedIsNested(root: Node, inside: bool, line: int) returns (path: seq<nat>)
    requires line in Recorded(root, inside)
    ensures NestedAt(root, path, inside, line)
    decreases root
  {
    if IsFunction(root) && inside && line == root.line {
      path := [];
    } else {
      var below := inside || IsFunction(root);
      var i := RecordedBelowFrom(root, |root.children|, below, line);
      var rest := RecordedIsNested(root.children[i], below, line);
      path := [i] + rest;
      assert path[1..] == rest;
      NestedStep(root, path, inside, line);
    }
  }

  /** Every nested function definition has its line recorded. */
  lemma {:induction false} NestedIsRecorded(root: Node, path: seq<nat>, inside: bool, line: int)
    requires NestedAt(root, path, inside, line)
    ensures line in Recorded(root, inside)
    decreases path
  {
    if path != [] {
      NestedStep(root, path, inside, line);
      NestedIsRecorded(root.children[path[0]], path[1..], inside || IsFunction(root), line);
      RecordedBelowHas(root, |root.children|, inside || IsFunction(root), path[0]);
    }
  }

  /**
   The lines of one file: exactly those of function definitions with some function definition properly above
   them, whatever stands between; nothing when the file does not parse.
   */
  method NestedFunctionLines(parsed: Option<Node>) returns (lines: set<int>)
    ensures parsed.None? ==> lines == {}
    ensures parsed.Some? ==> forall line :: line in lines <==> exists path :: NestedAt(parsed.value, path, false, line)
  {
    if parsed.None? {
      return {};
    }
    var tree := parsed.value;
    var visitor := new Visitor();
    visitor.Visit(tree);
    lines := visitor.nested;
    assert lines == Recorded(tree, false);
    forall line ensures line in lines <==> exists path :: NestedAt(tree, path, false, line) {
      if line in lines {
        var path := RecordedIsNested(tree, false, line);
      }
      if path :| NestedAt(tree, path, false, line) {
        NestedIsRecorded(tree, path, false, line);
      }
    }
  }
}
