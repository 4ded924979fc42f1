/** The parse tree the XPath grammar's parser hands to the explainer. It is read-only:
    interior nodes carry the grammar rule they were built by and their children in
    order, terminals carry their text and their token kind. */
module ParseTree {
  import opened Failures

  /** Token kinds the explainer tests (`symbol.type`). */
  datatype Token =
    | Less | More | Le | Ge                  // relational operators
    | Space | Greater | Tilde | Plus         // combinators
    | OtherToken(name: string)

  /** Rule contexts the explainer tests with `isinstance`. */
  datatype Variant =
    | Main
    | OrExpr | AndExpr | EqualityExpr | RelationalExpr | AdditiveExpr | MultiplicativeExpr
    | SimpleSelectorSequence | Combinator
    | OtherRule(name: string)

  datatype Node =
    | Rule(variant: Variant, children: seq<Node>)
    | Terminal(text: string, token: Token)

  /** `getChildCount()`: a terminal has none. */
  function ChildCount(n: Node): nat {
    if n.Rule? then |n.children| else 0
  }

  /** `getChild(i)`: the i-th child, or None when there is none. */
  function GetChild(n: Node, i: nat): (r: Option<Node>)
    ensures r.Some? <==> i < ChildCount(n)
    ensures r.Some? ==> r.value == n.children[i]
  {
    if i < ChildCount(n) then Some(n.children[i]) else None
  }

  /** `children[i]`, and every other call on a child that is not there (`None.getText()`,
      `None.getChildCount()`, indexing past the end): the lookup raises. */
  function Child(n: Node, i: nat): (r: Result<Node>)
    ensures r.Success? <==> i < ChildCount(n)
    ensures r.Success? ==> r.value == n.children[i]
    ensures r.Failure? ==> r.error == MissingChild(i)
  {
    if i < ChildCount(n) then Success(n.children[i]) else Failure(MissingChild(i))
  }

  /** `getText()`: the tokens under a node, concatenated. */
  function Text(n: Node): string {
    match n
    case Terminal(t, _) => t
    case Rule(_, cs) => TextAll(cs)
  }

  function TextAll(cs: seq<Node>): string {
    if cs == [] then "" else Text(cs[0]) + TextAll(cs[1..])
  }

  /** Number of nodes in a tree; the measure for walks that jump several levels at once. */
  function TreeSize(n: Node): nat {
    match n
    case Terminal(_, _) => 1
    case Rule(_, cs) => 1 + TreeSizeAll(cs)
  }

  function TreeSizeAll(cs: seq<Node>): nat {
    if cs == [] then 0 else TreeSize(cs[0]) + TreeSizeAll(cs[1..])
  }

  lemma {:induction false} TreeSizeAllBound(cs: seq<Node>, i: nat)
    requires i < |cs|
    ensures TreeSize(cs[i]) <= TreeSizeAll(cs)
  {
    if i > 0 {
      TreeSizeAllBound(cs[1..], i - 1);
    }
  }

  /** Every child is strictly smaller than its parent. */
  lemma ChildSmaller(n: Node, i: nat)
    requires i < ChildCount(n)
    ensures TreeSize(n.children[i]) < TreeSize(n)
  {
    TreeSizeAllBound(n.children, i);
  }
}
