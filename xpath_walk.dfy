/** The "interesting node" skip of tutorons/xpath/explain.py: a left-recursive grammar
    wraps every operand in one unary rule per precedence level, and the explainer jumps
    over those levels to the node where the tree branches or reaches a token. */
module XPathWalk {
  import opened ParseTree

  /** Where the skip stops: not exactly one child, or the only child is a token. */
  predicate Branches(n: Node) {
    ChildCount(n) != 1 || n.children[0].Terminal?
  }

  /** m is n, or is reached from n through rule nodes that each have exactly one child,
      a rule node, always taking that child. */
  predicate OnUnaryChain(n: Node, m: Node) {
    n == m || (!Branches(n) && OnUnaryChain(n.children[0], m))
  }

  /** What `get_interesting_nodes` returns. */
  function Interesting(n: Node): (r: Node)
    ensures Branches(r)
    ensures OnUnaryChain(n, r)
    ensures TreeSize(r) <= TreeSize(n)
  {
    if Branches(n) then n
    else
      ChildSmaller(n, 0);
      Interesting(n.children[0])
  }

  /** The loop of `get_interesting_nodes`. */
  method GetInterestingNodes(node: Node) returns (r: Node)
    ensures r == Interesting(node)
  {
    r := node;
    while ChildCount(r) == 1 && !r.children[0].Terminal?
      invariant Interesting(r) == Interesting(node)
      decreases TreeSize(r)
    {
      ChildSmaller(r, 0);
      r := r.children[0];
    }
  }

  /** Skipping twice is skipping once. */
  lemma InterestingIdempotent(n: Node)
    ensures Interesting(Interesting(n)) == Interesting(n)
  {
  }

  /** The skip is characterised by its two properties: the only node on the unary chain
      below n at which the tree branches is Interesting(n). */
  lemma {:induction false} InterestingUnique(n: Node, m: Node)
    requires OnUnaryChain(n, m) && Branches(m)
    ensures m == Interesting(n)
  {
    if n != m {
      InterestingUnique(n.children[0], m);
    }
  }
}
